/** Directory trees, the ordered walk behind the content digest, and the digest's byte framing. */
module Tree {
  import opened Names

  const RECORD_DIR := ".ckodex"
  const RECORD_FILE := "runtime-verification.json"
  const STAGING_DIR := ".ckodex-staging"
  const STATE_FILE := ".ckodex-staging-state.json"
  const NUL: char := '\0'

  /** One directory entry; every character of a content stands for one byte, and a link leads to a top-level entry. */
  datatype Node = File(content: string) | Dir(children: map<string, Node>) | Symlink(target: string) | Special

  type Disk = map<string, Node>

  /** One regular file the walk feeds to the hash. */
  datatype Hashed = Hashed(path: string, content: string)

  // ---- The walk -------------------------------------------------------------------

  ghost function Entry(prefix: string, name: string, node: Node): seq<Hashed>
    decreases node, 1, 0
  {
    if node.Dir? then
      if name == RECORD_DIR then [] else Walk(prefix + name + "/", node, Sorted(node.children.Keys))
    else if name == STATE_FILE || !node.File? then []
    else [Hashed(prefix + name, node.content)]
  }

  ghost function Walk(prefix: string, dir: Node, names: seq<string>): seq<Hashed>
    requires dir.Dir? && forall n :: n in names ==> n in dir.children
    decreases dir, 0, |names|
  {
    if names == [] then []
    else Entry(prefix, names[0], dir.children[names[0]]) + Walk(prefix, dir, names[1..])
  }

  /** The walk meets a symbolic link, which makes the digest an error. */
  ghost predicate LinkFree(name: string, node: Node)
    decreases node
  {
    if node.Dir? then
      name == RECORD_DIR || forall n :: n in node.children ==> LinkFree(n, node.children[n])
    else name == STATE_FILE || !node.Symlink?
  }

  ghost predicate Clean(disk: Disk) {
    forall n :: n in disk ==> LinkFree(n, disk[n])
  }

  ghost function Files(disk: Disk): seq<Hashed> {
    Walk("", Dir(disk), Sorted(disk.Keys))
  }

  /** Entry names as every filesystem restricts them, at every depth. */
  ghost predicate ProperName(name: string) {
    name != [] && '/' !in name && NUL !in name
  }

  ghost predicate WellNamed(name: string, node: Node)
    decreases node
  {
    && ProperName(name)
    && (node.Dir? ==> forall n :: n in node.children ==> WellNamed(n, node.children[n]))
  }

  ghost predicate ProperDisk(disk: Disk) {
    forall n :: n in disk ==> WellNamed(n, disk[n])
  }

  // ---- Facts about the walk ---------------------------------------------------------

  function Prefixed(prefix: string, files: seq<Hashed>): (moved: seq<Hashed>)
    ensures |moved| == |files|
    ensures forall i :: 0 <= i < |files| ==> moved[i] == files[i].(path := prefix + files[i].path)
  {
    seq(|files|, i requires 0 <= i < |files| => files[i].(path := prefix + files[i].path))
  }

  /** Walking a tree below a prefix is walking it at the root and prefixing every path. */
  lemma {:induction false} EntryPrefixed(prefix: string, inner: string, name: string, node: Node)
    ensures Entry(prefix + inner, name, node) == Prefixed(prefix, Entry(inner, name, node))
    decreases node, 1, 0
  {
    hide Walk, Sorted;
    if node.Dir? && name != RECORD_DIR {
      WalkPrefixed(prefix, inner + name + "/", node, Sorted(node.children.Keys));
      assert prefix + (inner + name + "/") == prefix + inner + name + "/";
    } else if node.File? {
      assert prefix + (inner + name) == prefix + inner + name;
    }
  }

  lemma {:induction false} WalkPrefixed(prefix: string, inner: string, dir: Node, names: seq<string>)
    requires dir.Dir? && forall n :: n in names ==> n in dir.children
    ensures Walk(prefix + inner, dir, names) == Prefixed(prefix, Walk(inner, dir, names))
    decreases dir, 0, |names|
  {
    if names != [] {
      EntryPrefixed(prefix, inner, names[0], dir.children[names[0]]);
      WalkPrefixed(prefix, inner, dir, names[1..]);
    }
  }

  lemma {:induction false} WalkConcat(prefix: string, dir: Node, a: seq<string>, b: seq<string>)
    requires dir.Dir? && forall n :: n in a + b ==> n in dir.children
    ensures forall n :: n in a || n in b ==> n in dir.children
    ensures Walk(prefix, dir, a + b) == Walk(prefix, dir, a) + Walk(prefix, dir, b)
    decreases |a|
  {
    assert forall n :: n in a || n in b ==> n in a + b;
    if a == [] {
      assert a + b == b;
    } else {
      assert (a + b)[1..] == a[1..] + b;
      WalkConcat(prefix, dir, a[1..], b);
    }
  }

  /** The walk over some names sees only those entries. */
  lemma {:induction false} WalkAgrees(prefix: string, d: Node, e: Node, names: seq<string>)
    requires d.Dir? && e.Dir?
    requires forall n :: n in names ==> n in d.children && n in e.children && d.children[n] == e.children[n]
    ensures Walk(prefix, d, names) == Walk(prefix, e, names)
    decreases |names|
  {
    if names != [] { WalkAgrees(prefix, d, e, names[1..]); }
  }

  lemma WalkOne(prefix: string, dir: Node, n: string)
    requires dir.Dir? && n in dir.children
    ensures Walk(prefix, dir, [n]) == Entry(prefix, n, dir.children[n])
  {
    assert Walk(prefix, dir, [n][1..]) == [];
  }

  lemma WalkSplice(prefix: string, dir: Node, l: seq<string>, x: string, r: seq<string>)
    requires dir.Dir? && x in dir.children && forall n :: n in l || n in r ==> n in dir.children
    ensures Walk(prefix, dir, l + [x] + r) == Walk(prefix, dir, l) + Entry(prefix, x, dir.children[x])
        + Walk(prefix, dir, r)
  {
    WalkConcat(prefix, dir, l + [x], r);
    WalkConcat(prefix, dir, l, [x]);
    WalkOne(prefix, dir, x);
  }

  /** Adding one entry splices its files into the list. */
  lemma WalkInsert(prefix: string, disk: Disk, x: string, node: Node) returns (before: seq<Hashed>, after: seq<Hashed>)
    requires x !in disk
    ensures before + after == Walk(prefix, Dir(disk), Sorted(disk.Keys))
    ensures Walk(prefix, Dir(disk[x := node]), Sorted(disk[x := node].Keys)) == before + Entry(prefix, x, node) + after
  {
    var names, more := Sorted(disk.Keys), Dir(disk[x := node]);
    var cut := SortedInsert(disk.Keys, x);
    var l, r := names[..cut], names[cut..];
    assert more.children.Keys == disk.Keys + {x};
    assert l + r == names;
    WalkConcat(prefix, Dir(disk), l, r);
    before, after := Walk(prefix, Dir(disk), l), Walk(prefix, Dir(disk), r);
    WalkAgrees(prefix, Dir(disk), more, l);
    WalkAgrees(prefix, Dir(disk), more, r);
    WalkSplice(prefix, more, l, x, r);
  }

  // ---- Paths ------------------------------------------------------------------------

  /** The part of a path before its first slash. */
  function Head(path: string): string {
    if path == [] || path[0] == '/' then [] else [path[0]] + Head(path[1..])
  }

  lemma {:induction false} HeadOf(name: string, rest: string)
    requires '/' !in name
    ensures Head(name) == name
    ensures Head(name + "/" + rest) == name
  {
    if name == [] {
      assert (name + "/" + rest)[0] == '/';
    } else {
      HeadOf(name[1..], rest);
      assert (name + "/" + rest)[1..] == name[1..] + "/" + rest;
      assert name == [name[0]] + name[1..];
    }
  }

  /** Every hashed path starts with the entry it was found under, and holds no NUL. */
  lemma EntryPaths(name: string, node: Node)
    requires WellNamed(name, node)
    ensures forall f :: f in Entry("", name, node) ==> Head(f.path) == name && NUL !in f.path
  {
    EntryNulFree("", name, node);
    HeadOf(name, "");
    if node.Dir? && name != RECORD_DIR {
      var names := Sorted(node.children.Keys);
      assert "" + name + "/" == (name + "/") + "";
      WalkPrefixed(name + "/", "", node, names);
      forall f | f in Entry("", name, node) ensures Head(f.path) == name {
        var inner := Walk("", node, names);
        var i :| 0 <= i < |inner| && f == Prefixed(name + "/", inner)[i];
        HeadOf(name, inner[i].path);
      }
    } else if node.File? {
      assert "" + name == name;
    }
  }

  lemma {:induction false} EntryNulFree(prefix: string, name: string, node: Node)
    requires WellNamed(name, node) && NUL !in prefix
    ensures forall f :: f in Entry(prefix, name, node) ==> NUL !in f.path
    decreases node, 1, 0
  {
    if node.Dir? && name != RECORD_DIR {
      WalkNulFree(prefix + name + "/", node, Sorted(node.children.Keys));
    }
  }

  lemma {:induction false} WalkNulFree(prefix: string, dir: Node, names: seq<string>)
    requires dir.Dir? && forall n :: n in names ==> n in dir.children && WellNamed(n, dir.children[n])
    requires NUL !in prefix
    ensures forall f :: f in Walk(prefix, dir, names) ==> NUL !in f.path
    decreases dir, 0, |names|
  {
    if names != [] {
      EntryNulFree(prefix, names[0], dir.children[names[0]]);
      WalkNulFree(prefix, dir, names[1..]);
    }
  }

  lemma {:induction false} WalkHeads(dir: Node, names: seq<string>)
    requires dir.Dir? && forall n :: n in names ==> n in dir.children && WellNamed(n, dir.children[n])
    ensures forall f :: f in Walk("", dir, names) ==> Head(f.path) in names && NUL !in f.path
    decreases |names|
  {
    if names != [] {
      EntryPaths(names[0], dir.children[names[0]]);
      WalkHeads(dir, names[1..]);
    }
  }

  // ---- The digest stream -------------------------------------------------------------

  /** What directoryDigest feeds to the hash: path NUL content NUL for each file in turn. */
  function Stream(files: seq<Hashed>): string {
    if files == [] then []
    else files[0].path + [NUL] + files[0].content + [NUL] + Stream(files[1..])
  }

  function StreamLength(files: seq<Hashed>): nat {
    if files == [] then 0
    else |files[0].path| + |files[0].content| + 2 + StreamLength(files[1..])
  }

  lemma {:induction false} StreamHasLength(files: seq<Hashed>)
    ensures |Stream(files)| == StreamLength(files)
  {
    if files != [] { StreamHasLength(files[1..]); }
  }

  lemma {:induction false} StreamLengthConcat(a: seq<Hashed>, b: seq<Hashed>)
    ensures StreamLength(a + b) == StreamLength(a) + StreamLength(b)
  {
    if a == [] {
      assert a + b == b;
    } else {
      assert (a + b)[1..] == a[1..] + b;
      StreamLengthConcat(a[1..], b);
    }
  }

  /** A prefix costs its own length once per file. */
  lemma {:induction false} StreamLengthPrefixed(prefix: string, files: seq<Hashed>)
    ensures StreamLength(Prefixed(prefix, files)) == StreamLength(files) + |prefix| * |files|
  {
    if files != [] {
      assert Prefixed(prefix, files)[1..] == Prefixed(prefix, files[1..]);
      StreamLengthPrefixed(prefix, files[1..]);
      assert |prefix| * |files| == |prefix| + |prefix| * |files[1..]|;
    }
  }

  lemma StreamLengthPositive(files: seq<Hashed>)
    ensures StreamLength(files) >= 2 * |files|
  {
  }

  /** A NUL-free field is recovered from the front of what follows it. */
  lemma {:induction false} FieldUnique(a: string, s: string, b: string, t: string)
    requires NUL !in a && NUL !in b
    requires a + [NUL] + s == b + [NUL] + t
    ensures a == b && s == t
  {
    var x, y := a + [NUL] + s, b + [NUL] + t;
    assert x[|a|] == NUL && y[|b|] == NUL;
    assert forall i :: 0 <= i < |a| ==> x[i] == a[i];
    assert forall i :: 0 <= i < |b| ==> y[i] == b[i];
    assert |a| == |b|;
    assert a == x[..|a|] && b == y[..|b|];
    assert s == x[|a| + 1..] && t == y[|b| + 1..];
  }

  ghost predicate NulFreePaths(files: seq<Hashed>) {
    forall f :: f in files ==> NUL !in f.path
  }

  ghost predicate NulFree(files: seq<Hashed>) {
    forall f :: f in files ==> NUL !in f.path && NUL !in f.content
  }

  lemma StreamSplit(files: seq<Hashed>)
    requires files != []
    ensures Stream(files) == files[0].path + [NUL] + (files[0].content + [NUL] + Stream(files[1..]))
  {
    var f, rest := files[0], Stream(files[1..]);
    assert f.path + [NUL] + f.content + [NUL] + rest == f.path + [NUL] + (f.content + [NUL] + rest);
  }

  /** Whatever the contents hold, the first path is fixed by the stream. */
  lemma FirstPathUnique(a: seq<Hashed>, b: seq<Hashed>)
    requires NulFreePaths(a) && NulFreePaths(b)
    requires Stream(a) == Stream(b)
    ensures a == [] <==> b == []
    ensures a != [] ==> a[0].path == b[0].path
  {
    if a != [] && b != [] {
      StreamSplit(a);
      StreamSplit(b);
      FieldUnique(a[0].path, a[0].content + [NUL] + Stream(a[1..]), b[0].path, b[0].content + [NUL] + Stream(b[1..]));
    }
  }

  /** NUL-free contents make the framing uniquely decodable. */
  lemma {:induction false} StreamInjective(a: seq<Hashed>, b: seq<Hashed>)
    requires NulFree(a) && NulFree(b)
    requires Stream(a) == Stream(b)
    ensures a == b
  {
    FirstPathUnique(a, b);
    if a != [] {
      StreamSplit(a);
      StreamSplit(b);
      FieldUnique(a[0].path, a[0].content + [NUL] + Stream(a[1..]), b[0].path, b[0].content + [NUL] + Stream(b[1..]));
      FieldUnique(a[0].content, Stream(a[1..]), b[0].content, Stream(b[1..]));
      StreamInjective(a[1..], b[1..]);
      assert a == [a[0]] + a[1..] && b == [b[0]] + b[1..];
    }
  }

  // ---- Exactly which lists collide ----------------------------------------------------

  /** A content cut at its NULs. */
  function Pieces(content: string): (pieces: seq<string>)
    ensures pieces != []
  {
    if content == [] then [[]]
    else if content[0] == NUL then [[]] + Pieces(content[1..])
    else
      var rest := Pieces(content[1..]);
      [[content[0]] + rest[0]] + rest[1..]
  }

  /** The NUL-terminated fields of a list: each path, then the pieces of its content. */
  function Fields(files: seq<Hashed>): seq<string> {
    if files == [] then [] else [files[0].path] + Pieces(files[0].content) + Fields(files[1..])
  }

  function Terminated(fields: seq<string>): string {
    if fields == [] then [] else fields[0] + [NUL] + Terminated(fields[1..])
  }

  lemma {:induction false} TerminatedConcat(a: seq<string>, b: seq<string>)
    ensures Terminated(a + b) == Terminated(a) + Terminated(b)
  {
    if a == [] {
      assert a + b == b;
    } else {
      assert (a + b)[1..] == a[1..] + b;
      TerminatedConcat(a[1..], b);
    }
  }

  lemma {:induction false} PiecesTerminated(content: string)
    ensures Terminated(Pieces(content)) == content + [NUL]
    ensures forall p :: p in Pieces(content) ==> NUL !in p
  {
    if content == [] {
      assert Terminated([[]]) == [NUL];
    } else {
      PiecesTerminated(content[1..]);
      var rest := Pieces(content[1..]);
      assert content + [NUL] == [content[0]] + (content[1..] + [NUL]);
      if content[0] == NUL {
        assert Pieces(content)[1..] == rest;
      } else {
        assert Pieces(content)[1..] == rest[1..];
        assert rest[0] in rest;
      }
    }
  }

  lemma {:induction false} StreamTerminated(files: seq<Hashed>)
    requires NulFreePaths(files)
    ensures Stream(files) == Terminated(Fields(files))
    ensures forall f :: f in Fields(files) ==> NUL !in f
  {
    if files != [] {
      StreamTerminated(files[1..]);
      var file := files[0];
      PiecesTerminated(file.content);
      TerminatedConcat([file.path], Pieces(file.content));
      TerminatedConcat([file.path] + Pieces(file.content), Fields(files[1..]));
      assert Terminated([file.path]) == file.path + [NUL];
    }
  }

  lemma {:induction false} TerminatedInjective(a: seq<string>, b: seq<string>)
    requires forall f :: f in a || f in b ==> NUL !in f
    requires Terminated(a) == Terminated(b)
    ensures a == b
  {
    if a != [] && b != [] {
      FieldUnique(a[0], Terminated(a[1..]), b[0], Terminated(b[1..]));
      TerminatedInjective(a[1..], b[1..]);
      assert a == [a[0]] + a[1..] && b == [b[0]] + b[1..];
    }
  }

  /** For any contents: two lists feed the hash the same bytes exactly when their fields coincide. */
  lemma StreamsCollideExactly(a: seq<Hashed>, b: seq<Hashed>)
    requires NulFreePaths(a) && NulFreePaths(b)
    ensures Stream(a) == Stream(b) <==> Fields(a) == Fields(b)
  {
    StreamTerminated(a);
    StreamTerminated(b);
    if Stream(a) == Stream(b) { TerminatedInjective(Fields(a), Fields(b)); }
  }

  lemma FilesOfOne(n: string, c: string)
    requires n != STATE_FILE
    ensures Files(map[n := File(c)]) == [Hashed(n, c)]
  {
    var disk: Disk := map[n := File(c)];
    SortedOne(n);
    assert disk.Keys == {n};
    WalkOne("", Dir(disk), n);
    assert "" + n == n;
  }

  lemma FilesOfTwo(n: string, c: string, m: string, d: string)
    requires n != STATE_FILE && m != STATE_FILE && Less(n, m)
    ensures Files(map[n := File(c), m := File(d)]) == [Hashed(n, c), Hashed(m, d)]
  {
    LessIrreflexive(n);
    var disk: Disk := map[n := File(c), m := File(d)];
    SortedTwo(n, m);
    assert disk.Keys == {n, m};
    assert [n, m] == [n] + [m] + [];
    WalkSplice("", Dir(disk), [n], m, []);
    WalkOne("", Dir(disk), n);
    assert "" + n == n && "" + m == m;
  }

  lemma StreamOfOne(f: Hashed)
    ensures Stream([f]) == f.path + [NUL] + f.content + [NUL]
  {
    assert Stream([f][1..]) == [];
  }

  /** Without the side condition the framing is ambiguous: one file can imitate two. */
  lemma NulContentCollides(n: string, c: string, m: string, d: string)
    requires ProperName(n) && ProperName(m) && n != STATE_FILE && m != STATE_FILE && Less(n, m)
    ensures var one := map[n := File(c + [NUL] + m + [NUL] + d)];
            var two := map[n := File(c), m := File(d)];
            && Clean(one) && Clean(two) && ProperDisk(one) && ProperDisk(two)
            && Files(one) != Files(two)
            && Stream(Files(one)) == Stream(Files(two))
  {
    FilesOfOne(n, c + [NUL] + m + [NUL] + d);
    FilesOfTwo(n, c, m, d);
    StreamsAlike(n, c, m, d);
  }

  lemma StreamsAlike(n: string, c: string, m: string, d: string)
    ensures Stream([Hashed(n, c + [NUL] + m + [NUL] + d)]) == Stream([Hashed(n, c), Hashed(m, d)])
  {
    var joined := c + [NUL] + m + [NUL] + d;
    StreamOfOne(Hashed(n, joined));
    StreamOfOne(Hashed(m, d));
    assert [Hashed(n, c), Hashed(m, d)][1..] == [Hashed(m, d)];
    assert n + [NUL] + joined + [NUL] == n + [NUL] + c + [NUL] + (m + [NUL] + d + [NUL]);
  }
}
