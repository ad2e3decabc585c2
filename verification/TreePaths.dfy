/** Which files the ordered walk hashes, told from the tree alone: a resolver that follows a path name by name. */
module TreePaths {
  import opened Names
  import opened Tree

  /** Following `trail` down from `dir`, never through an entry named like the record directory, ends at `node`. */
  ghost predicate Leads(dir: Node, trail: seq<string>, node: Node)
    decreases |trail|
  {
    && trail != [] && dir.Dir? && trail[0] in dir.children
    && if |trail| == 1 then dir.children[trail[0]] == node
       else trail[0] != RECORD_DIR && Leads(dir.children[trail[0]], trail[1..], node)
  }

  function Last(trail: seq<string>): string
    requires trail != []
  {
    trail[|trail| - 1]
  }

  function First(trail: seq<string>): string {
    if trail == [] then "" else trail[0]
  }

  /** A regular file at the end of a trail, not named like the state file. */
  ghost predicate HashedAt(dir: Node, trail: seq<string>, content: string) {
    Leads(dir, trail, File(content)) && Last(trail) != STATE_FILE
  }

  /** The names with slashes between them. */
  function Joined(trail: seq<string>): string
    requires trail != []
  {
    if |trail| == 1 then trail[0] else trail[0] + "/" + Joined(trail[1..])
  }

  /** Name by name in the order of directory listings. */
  ghost predicate Earlier(a: seq<string>, b: seq<string>)
    decreases |a|
  {
    a != [] && b != [] && (Less(a[0], b[0]) || (a[0] == b[0] && Earlier(a[1..], b[1..])))
  }

  // ---- Files ------------------------------------------------------------------------------------------

  /** `trails` names the files in `files`, in order and completely, among those whose trail starts in `names`. */
  ghost predicate Traces(dir: Node, names: seq<string>, prefix: string, files: seq<Hashed>, trails: seq<seq<string>>) {
    && |trails| == |files|
    && (forall i :: 0 <= i < |files| ==>
          && trails[i] != [] && trails[i][0] in names && files[i].path == prefix + Joined(trails[i])
          && HashedAt(dir, trails[i], files[i].content))
    && (forall t, c :: HashedAt(dir, t, c) && First(t) in names ==> t in trails)
    && (forall i, j :: 0 <= i < j < |trails| ==> Earlier(trails[i], trails[j]))
  }

  function Under(name: string, trails: seq<seq<string>>): (under: seq<seq<string>>)
    ensures |under| == |trails| && forall i :: 0 <= i < |trails| ==> under[i] == [name] + trails[i]
  {
    seq(|trails|, i requires 0 <= i < |trails| => [name] + trails[i])
  }

  /** One step down: what is hashed below an entry is hashed at it, one name earlier. */
  lemma StepDown(dir: Node, name: string, t: seq<string>, c: string)
    requires dir.Dir? && name in dir.children && t != []
    ensures HashedAt(dir, [name] + t, c) <==> name != RECORD_DIR && HashedAt(dir.children[name], t, c)
    ensures Joined([name] + t) == name + "/" + Joined(t)
  {
    assert ([name] + t)[1..] == t && Last([name] + t) == Last(t);
  }

  lemma StepUp(dir: Node, t: seq<string>, c: string)
    requires HashedAt(dir, t, c) && |t| > 1
    ensures dir.Dir? && t[0] in dir.children && t[0] != RECORD_DIR && HashedAt(dir.children[t[0]], t[1..], c)
    ensures t == [t[0]] + t[1..]
  {
    assert Last(t) == Last(t[1..]);
  }

  lemma EntryOfFile(prefix: string, name: string, dir: Node) returns (trails: seq<seq<string>>)
    requires dir.Dir? && name in dir.children && !dir.children[name].Dir?
    ensures Traces(dir, [name], prefix, Entry(prefix, name, dir.children[name]), trails)
  {
    var node := dir.children[name];
    forall t, c | HashedAt(dir, t, c) && First(t) == name ensures t == [name] && node == File(c) && name != STATE_FILE {
      if |t| > 1 { StepUp(dir, t, c); } else { assert t == [t[0]]; }
    }
    if node.File? && name != STATE_FILE {
      trails := [[name]];
      assert HashedAt(dir, [name], node.content);
    } else {
      trails := [];
    }
  }

  /** Trails through a directory go on below it. */
  lemma ThroughDir(dir: Node, t: seq<string>, c: string)
    requires HashedAt(dir, t, c) && dir.children[t[0]].Dir?
    ensures |t| > 1 && t[0] != RECORD_DIR && HashedAt(dir.children[t[0]], t[1..], c) && t == [t[0]] + t[1..]
  {
    assert |t| > 1;
    StepUp(dir, t, c);
  }

  lemma UnderNames(dir: Node, name: string, prefix: string, files: seq<Hashed>, below: seq<seq<string>>, i: nat)
    requires dir.Dir? && name in dir.children && name != RECORD_DIR && i < |files| == |below|
    requires below[i] != [] && files[i].path == prefix + name + "/" + Joined(below[i])
    requires HashedAt(dir.children[name], below[i], files[i].content)
    ensures var t := Under(name, below)[i];
            t != [] && t[0] == name && files[i].path == prefix + Joined(t) && HashedAt(dir, t, files[i].content)
  {
    hide HashedAt, Joined;
    StepDown(dir, name, below[i], files[i].content);
    assert prefix + name + "/" + Joined(below[i]) == prefix + (name + "/" + Joined(below[i]));
  }

  lemma UnderOrder(name: string, below: seq<seq<string>>, i: nat, j: nat)
    requires i < j < |below| && Earlier(below[i], below[j])
    ensures Earlier(Under(name, below)[i], Under(name, below)[j])
  {
    var a, b := Under(name, below)[i], Under(name, below)[j];
    assert a[1..] == below[i] && b[1..] == below[j];
  }

  lemma UnderTraces(dir: Node, name: string, prefix: string, files: seq<Hashed>, below: seq<seq<string>>)
    requires dir.Dir? && name in dir.children && dir.children[name].Dir? && name != RECORD_DIR
    requires Traces(dir.children[name], Sorted(dir.children[name].children.Keys), prefix + name + "/", files, below)
    ensures Traces(dir, [name], prefix, files, Under(name, below))
  {
    hide HashedAt, Joined, Earlier, Sorted;
    var sub, trails := dir.children[name], Under(name, below);
    forall i | 0 <= i < |files|
      ensures trails[i] != [] && trails[i][0] in [name] && files[i].path == prefix + Joined(trails[i])
              && HashedAt(dir, trails[i], files[i].content)
    {
      UnderNames(dir, name, prefix, files, below, i);
    }
    forall t, c | HashedAt(dir, t, c) && First(t) in [name] ensures t in trails {
      NotThroughRecord(dir, t, c);
      ThroughDir(dir, t, c);
      UnderHas(name, below, sub, t, c);
    }
    forall i, j | 0 <= i < j < |trails| ensures Earlier(trails[i], trails[j]) { UnderOrder(name, below, i, j); }
  }

  lemma EntryOfDir(prefix: string, name: string, dir: Node, below: seq<seq<string>>) returns (trails: seq<seq<string>>)
    requires dir.Dir? && name in dir.children && dir.children[name].Dir?
    requires var sub := dir.children[name]; var listed := Sorted(sub.children.Keys);
             Traces(sub, listed, prefix + name + "/", Walk(prefix + name + "/", sub, listed), below)
    ensures Traces(dir, [name], prefix, Entry(prefix, name, dir.children[name]), trails)
  {
    hide Entry, Walk, HashedAt, Joined, Earlier;
    var sub := dir.children[name];
    if name == RECORD_DIR {
      trails := [];
      RecordDirSkipped(prefix, sub);
      forall t, c | HashedAt(dir, t, c) ensures First(t) !in [name] { NotThroughRecord(dir, t, c); }
    } else {
      hide Traces;
      trails := Under(name, below);
      OtherDirWalked(prefix, name, sub);
      UnderTraces(dir, name, prefix, Entry(prefix, name, sub), below);
    }
  }

  lemma NotThroughRecord(dir: Node, t: seq<string>, c: string)
    requires HashedAt(dir, t, c)
    ensures t != [] && dir.Dir? && t[0] in dir.children
    ensures dir.children[t[0]].Dir? ==> t[0] != RECORD_DIR
  {
  }

  lemma RecordDirSkipped(prefix: string, node: Node)
    requires node.Dir?
    ensures Entry(prefix, RECORD_DIR, node) == []
  {
  }

  lemma OtherDirWalked(prefix: string, name: string, node: Node)
    requires node.Dir? && name != RECORD_DIR
    ensures Entry(prefix, name, node) == Walk(prefix + name + "/", node, Sorted(node.children.Keys))
  {
  }

  lemma UnderHas(name: string, below: seq<seq<string>>, sub: Node, t: seq<string>, c: string)
    requires |t| > 1 && t == [name] + t[1..] && HashedAt(sub, t[1..], c) && sub.Dir?
    requires forall u, d :: HashedAt(sub, u, d) && First(u) in Sorted(sub.children.Keys) ==> u in below
    ensures t in Under(name, below)
  {
    assert t[1..][0] in sub.children && t[1..] in below;
    var k :| 0 <= k < |below| && below[k] == t[1..];
    assert Under(name, below)[k] == t;
  }

  /** Two traced parts, the names of one before those of the other. */
  lemma TracesConcat(dir: Node, name: string, rest: seq<string>, prefix: string,
      fa: seq<Hashed>, ta: seq<seq<string>>, fb: seq<Hashed>, tb: seq<seq<string>>)
    requires Traces(dir, [name], prefix, fa, ta) && Traces(dir, rest, prefix, fb, tb)
    requires forall n :: n in rest ==> Less(name, n)
    ensures Traces(dir, [name] + rest, prefix, fa + fb, ta + tb)
  {
    hide HashedAt, Joined;
    var files, trails := fa + fb, ta + tb;
    forall i, j | 0 <= i < j < |trails| ensures Earlier(trails[i], trails[j]) {
      if i < |ta| && j >= |ta| {
        assert ta[i][0] in [name] && tb[j - |ta|][0] in rest;
      }
    }
  }

  lemma NothingTraced(prefix: string, dir: Node, names: seq<string>)
    requires dir.Dir? && names == []
    ensures Traces(dir, names, prefix, Walk(prefix, dir, names), [])
  {
  }

  lemma WalkSteps(prefix: string, dir: Node, names: seq<string>)
    requires dir.Dir? && names != [] && forall n :: n in names ==> n in dir.children
    ensures Walk(prefix, dir, names) == Entry(prefix, names[0], dir.children[names[0]]) + Walk(prefix, dir, names[1..])
    ensures names == [names[0]] + names[1..]
  {
  }

  lemma HeadBeforeTail(names: seq<string>)
    requires Ascending(names) && names != []
    ensures Ascending(names[1..]) && forall n :: n in names[1..] ==> Less(names[0], n)
  {
  }

  lemma {:induction false} WalkTraced(prefix: string, dir: Node, names: seq<string>) returns (trails: seq<seq<string>>)
    requires dir.Dir? && Ascending(names) && forall n :: n in names ==> n in dir.children
    ensures Traces(dir, names, prefix, Walk(prefix, dir, names), trails)
    decreases dir, |names|
  {
    hide Traces, Walk, Entry, Ascending, Less;
    if names == [] {
      trails := [];
      NothingTraced(prefix, dir, names);
    } else {
      var name, rest := names[0], names[1..];
      HeadBeforeTail(names);
      WalkSteps(prefix, dir, names);
      var node := dir.children[name];
      var first;
      if node.Dir? {
        var below := WalkTraced(prefix + name + "/", node, Sorted(node.children.Keys));
        first := EntryOfDir(prefix, name, dir, below);
      } else {
        first := EntryOfFile(prefix, name, dir);
      }
      var later := WalkTraced(prefix, dir, rest);
      TracesConcat(dir, name, rest, prefix, Entry(prefix, name, node), first, Walk(prefix, dir, rest), later);
      trails := first + later;
    }
  }

  /**
   * The hashed files of any tree: exactly the regular files that some trail leads to without passing a record
   * directory, state files aside; each once, in the order of the directory listings.
   */
  lemma FilesExactly(disk: Disk) returns (trails: seq<seq<string>>)
    ensures |trails| == |Files(disk)|
    ensures forall i :: 0 <= i < |trails| ==>
              && trails[i] != [] && Files(disk)[i].path == Joined(trails[i])
              && HashedAt(Dir(disk), trails[i], Files(disk)[i].content)
    ensures forall t, c :: HashedAt(Dir(disk), t, c) ==> t in trails
    ensures forall i, j :: 0 <= i < j < |trails| ==> Earlier(trails[i], trails[j])
  {
    trails := WalkTraced("", Dir(disk), Sorted(disk.Keys));
    hide Walk, Joined;
    forall t, c | HashedAt(Dir(disk), t, c) ensures First(t) in Sorted(disk.Keys) { }
  }

  // ---- Paths as text ------------------------------------------------------------------------------------

  predicate SlashFree(trail: seq<string>) {
    forall i :: 0 <= i < |trail| ==> '/' !in trail[i]
  }

  lemma {:induction false} TrailSlashFree(dir: Node, trail: seq<string>, node: Node)
    requires Leads(dir, trail, node) && ProperDisk(dir.children)
    ensures SlashFree(trail)
    decreases |trail|
  {
    if |trail| > 1 { TrailSlashFree(dir.children[trail[0]], trail[1..], node); }
  }

  lemma HeadOfJoined(a: string, x: string, b: string, y: string)
    requires '/' !in a && '/' !in b && a + "/" + x == b + "/" + y
    ensures a == b && x == y
  {
    var text := a + "/" + x;
    assert forall i :: 0 <= i < |a| ==> text[i] == a[i];
    assert forall i :: 0 <= i < |b| ==> text[i] == b[i];
    assert text[|a|] == '/' && text[|b|] == '/';
    assert text[..|a|] == a && text[..|b|] == b && text[|a| + 1..] == x && text[|b| + 1..] == y;
  }

  lemma SlashInJoined(t: seq<string>)
    requires |t| > 1
    ensures '/' in Joined(t)
  {
    assert Joined(t)[|t[0]|] == '/';
  }

  lemma {:induction false} JoinedInjective(a: seq<string>, b: seq<string>)
    requires a != [] && b != [] && SlashFree(a) && SlashFree(b) && Joined(a) == Joined(b)
    ensures a == b
    decreases |a|
  {
    if |a| > 1 { SlashInJoined(a); }
    if |b| > 1 { SlashInJoined(b); }
    assert |a| == 1 <==> |b| == 1;
    if |a| > 1 {
      HeadOfJoined(a[0], Joined(a[1..]), b[0], Joined(b[1..]));
      JoinedInjective(a[1..], b[1..]);
    }
    assert a == [a[0]] + a[1..] && b == [b[0]] + b[1..];
  }

  lemma {:induction false} EarlierIsOther(a: seq<string>, b: seq<string>)
    requires Earlier(a, b)
    ensures a != b
    decreases |a|
  {
    LessIrreflexive(a[0]);
    if a[0] == b[0] { EarlierIsOther(a[1..], b[1..]); }
  }

  /** A path and content are hashed exactly when the path resolves, name by name, to a file with that content. */
  lemma HashedExactly(disk: Disk, path: string, content: string)
    ensures Hashed(path, content) in Files(disk) <==>
            exists t :: t != [] && Joined(t) == path && HashedAt(Dir(disk), t, content)
  {
    hide Files, HashedAt, Earlier, Joined;
    var trails := FilesExactly(disk);
    var files := Files(disk);
    if t :| t != [] && Joined(t) == path && HashedAt(Dir(disk), t, content) {
      var k :| 0 <= k < |trails| && trails[k] == t;
      OneContent(Dir(disk), t, content, files[k].content);
      assert files[k] == Hashed(path, content);
    }
  }

  lemma {:induction false} LeadsOnce(dir: Node, t: seq<string>, a: Node, b: Node)
    requires Leads(dir, t, a) && Leads(dir, t, b)
    ensures a == b
    decreases |t|
  {
    if |t| > 1 { LeadsOnce(dir.children[t[0]], t[1..], a, b); }
  }

  lemma OneContent(dir: Node, t: seq<string>, a: string, b: string)
    requires HashedAt(dir, t, a) && HashedAt(dir, t, b)
    ensures a == b
  {
    LeadsOnce(dir, t, File(a), File(b));
  }

  /** No path is hashed twice. */
  lemma PathsDistinct(disk: Disk, i: nat, j: nat)
    requires ProperDisk(disk) && i < j < |Files(disk)|
    ensures Files(disk)[i].path != Files(disk)[j].path
  {
    hide Files, Joined, Earlier, ProperDisk;
    var trails := FilesExactly(disk);
    var files := Files(disk);
    TrailSlashFree(Dir(disk), trails[i], File(files[i].content));
    TrailSlashFree(Dir(disk), trails[j], File(files[j].content));
    EarlierIsOther(trails[i], trails[j]);
    if Joined(trails[i]) == Joined(trails[j]) { JoinedInjective(trails[i], trails[j]); }
  }

  // ---- Links ------------------------------------------------------------------------------------------------

  lemma {:induction false} LinkTrail(dir: Node, name: string) returns (t: seq<string>, target: string)
    requires dir.Dir? && name in dir.children && !LinkFree(name, dir.children[name])
    ensures Leads(dir, t, Symlink(target)) && Last(t) != STATE_FILE
    decreases dir.children[name]
  {
    var node := dir.children[name];
    if node.Dir? {
      var n :| n in node.children && !LinkFree(n, node.children[n]);
      var below;
      below, target := LinkTrail(node, n);
      t := [name] + below;
      assert t[1..] == below && Last(t) == Last(below);
    } else {
      t, target := [name], node.target;
    }
  }

  lemma {:induction false} LinkSeen(dir: Node, t: seq<string>, target: string)
    requires Leads(dir, t, Symlink(target)) && Clean(dir.children)
    ensures Last(t) == STATE_FILE
    decreases |t|
  {
    assert LinkFree(t[0], dir.children[t[0]]);
    if |t| > 1 {
      LinkSeen(dir.children[t[0]], t[1..], target);
      assert Last(t) == Last(t[1..]);
    }
  }

  /** The digest is refused exactly when some trail leads to a link that is not named like the state file. */
  lemma CleanExactly(disk: Disk)
    ensures Clean(disk) <==> forall t, target :: Leads(Dir(disk), t, Symlink(target)) ==> Last(t) == STATE_FILE
  {
    if Clean(disk) {
      forall t, target | Leads(Dir(disk), t, Symlink(target)) ensures Last(t) == STATE_FILE {
        LinkSeen(Dir(disk), t, target);
      }
    } else {
      var n :| n in disk && !LinkFree(n, disk[n]);
      var t, target := LinkTrail(Dir(disk), n);
    }
  }
}
