/**
 * What a recorded digest says about a disk: after any history of faulty runs it matches exactly when
 * the destination holds the hashed files of the run that wrote the record.
 */
module Completeness {
  import opened Names
  import opened Tree
  import opened Transaction
  import opened Moves
  import opened Shapes
  import opened History

  // ---- Entries the digest does not see ----------------------------------------------------------

  lemma FilesWithout(disk: Disk, x: string)
    requires x in disk && Entry("", x, disk[x]) == []
    ensures Files(disk - {x}) == Files(disk)
  {
    hide Walk, Entry, Sorted;
    var rest := disk - {x};
    var before, after := WalkInsert("", rest, x, disk[x]);
    assert rest[x := disk[x]] == disk;
    assert before + [] + after == before + after;
  }

  lemma FilesReplace(disk: Disk, x: string, node: Node)
    requires x in disk ==> Entry("", x, disk[x]) == []
    requires Entry("", x, node) == []
    ensures Files(disk[x := node]) == Files(disk)
  {
    hide Entry, Files;
    var more := disk[x := node];
    FilesWithout(more, x);
    assert more - {x} == disk - {x};
    if x in disk {
      FilesWithout(disk, x);
    } else {
      assert disk - {x} == disk;
    }
  }

  /** The record directory and the state file never reach the hash. */
  lemma RecordUnseen(children: Disk)
    ensures Entry("", RECORD_DIR, Dir(children)) == [] && LinkFree(RECORD_DIR, Dir(children))
  {
  }

  lemma StateUnseen(content: string)
    ensures Entry("", STATE_FILE, File(content)) == [] && LinkFree(STATE_FILE, File(content))
  {
  }

  // ---- The payload a run publishes ----------------------------------------------------------------

  ghost function PulledFiles(h: Host, run: Run): seq<Hashed> {
    Files(Pulled(h, run))
  }

  /** What is known of the record of a run that published. */
  ghost predicate WritesRecord(h: Host, run: Run) {
    Published(h, run).Some? && !run.skipChecksum
  }

  ghost function RecordOf(h: Host, run: Run): Record
    requires WritesRecord(h, run)
  {
    Assess(h, run).value
  }

  lemma RecordFacts(h: Host, run: Run)
    requires WritesRecord(h, run)
    ensures RecordOf(h, run).subject == run.uri
    ensures RecordOf(h, run).contentIntegrityVerified
    ensures Clean(Pulled(h, run))
    ensures RecordOf(h, run).contentDigest == "sha256:" + h.hash(Stream(PulledFiles(h, run)))
  {
    hide Stream, Files, Pulled, WithRecord;
  }

  /** Exactly the OCI schemes yield records that later runs trust without hashing. */
  lemma VerifiedExactlyOci(h: Host, run: Run)
    requires WritesRecord(h, run)
    ensures RecordOf(h, run).Verified() <==> IsOci(run.uri)
  {
    hide Stream, Files, Pulled, WithRecord, SchemeOf;
    if IsOci(run.uri) {
      assert |Sha256Hex(h, run.cosign.sbom)| >= 7 && |Sha256Hex(h, run.cosign.provenance)| >= 7;
      assert |run.uri + "#attestation:slsaprovenance1"| > 0;
    }
  }

  /** The record path of the payload is not a link, so writing the record touches nothing but its own entry. */
  ghost predicate OwnRecord(run: Run) {
    RecordLink(run.payload).None?
  }

  lemma PublishedForm(h: Host, run: Run)
    requires WritesRecord(h, run) && OwnRecord(run)
    ensures RecordDir(Pulled(h, run)).Some?
    ensures STATE_FILE in Pulled(h, run) && Pulled(h, run)[STATE_FILE].File?
    ensures var c := RecordDir(Pulled(h, run)).value;
            Published(h, run).value ==
                Pulled(h, run)[RECORD_DIR := Dir(c[RECORD_FILE := File(h.encodeRecord(RecordOf(h, run)))])]
                - {STATE_FILE}
  {
    hide Digest, Provenance, Sorted;
    assert RECORD_DIR != STATE_FILE by { assert |RECORD_DIR| != |STATE_FILE|; }
    assert RecordLink(Pulled(h, run)).None?;
  }

  /** Adding the record and taking away the state file changes neither the files nor their cleanness. */
  lemma PublishedFiles(h: Host, run: Run)
    requires WritesRecord(h, run) && OwnRecord(run)
    ensures Files(Published(h, run).value) == PulledFiles(h, run)
    ensures Clean(Published(h, run).value)
  {
    PublishedForm(h, run);
    RecordFacts(h, run);
    hide Files, Published, Pulled, Entry, LinkFree;
    var stage, all := Pulled(h, run), Published(h, run).value;
    var c := RecordDir(stage).value;
    var node := Dir(c[RECORD_FILE := File(h.encodeRecord(RecordOf(h, run)))]);
    RecordUnseen(c);
    RecordUnseen(node.children);
    StateUnseen(stage[STATE_FILE].content);
    FilesReplace(stage, RECORD_DIR, node);
    assert RECORD_DIR != STATE_FILE by { assert |RECORD_DIR| != |STATE_FILE|; }
    var recorded := stage[RECORD_DIR := node];
    assert recorded[STATE_FILE] == stage[STATE_FILE] && stage[STATE_FILE] == File(stage[STATE_FILE].content);
    FilesWithout(recorded, STATE_FILE);
  }

  /** The record as a later run reads it back from the destination. */
  lemma PublishedRecord(h: Host, run: Run, disk: Disk)
    requires Faithful(h) && WritesRecord(h, run) && OwnRecord(run)
    requires RECORD_DIR in disk && RECORD_DIR in Published(h, run).value
        && disk[RECORD_DIR] == Published(h, run).value[RECORD_DIR]
    ensures LoadRecord(h, disk) == Some(RecordOf(h, run))
  {
    PublishedForm(h, run);
    hide Published, RecordOf, Pulled, RecordDir;
    assert RECORD_DIR != STATE_FILE by { assert |RECORD_DIR| != |STATE_FILE|; }
    var content := h.encodeRecord(RecordOf(h, run));
    assert disk[RECORD_DIR].Dir? && RECORD_FILE in disk[RECORD_DIR].children;
    assert disk[RECORD_DIR].children[RECORD_FILE] == File(content);
  }

  lemma RecordListed(h: Host, run: Run)
    requires WritesRecord(h, run) && OwnRecord(run)
    ensures RECORD_DIR in Published(h, run).value && RECORD_DIR in Listing(h, run)
  {
    PublishedForm(h, run);
    hide Published, Pulled;
    assert RECORD_DIR != STATE_FILE by { assert |RECORD_DIR| != |STATE_FILE|; }
  }

  lemma PublishedProper(h: Host, run: Run)
    requires WritesRecord(h, run) && OwnRecord(run) && ProperDisk(run.payload)
    ensures ProperDisk(Published(h, run).value)
  {
    PublishedForm(h, run);
    hide Published, RecordOf, Assess, Pulled, WellNamed;
    var stage, all := Pulled(h, run), Published(h, run).value;
    PulledProper(h, run);
    var c := RecordDir(stage).value;
    assert RECORD_DIR != STATE_FILE by { assert |RECORD_DIR| != |STATE_FILE|; }
    RecordDirProper(c, File(h.encodeRecord(RecordOf(h, run)))) by {
      if RECORD_DIR in stage { ChildrenProper(RECORD_DIR, stage[RECORD_DIR]); }
    }
    forall n | n in all ensures WellNamed(n, all[n]) {
      assert n == RECORD_DIR || (n in stage && all[n] == stage[n]);
    }
  }

  lemma ChildrenProper(name: string, node: Node)
    requires WellNamed(name, node) && node.Dir?
    ensures ProperDisk(node.children)
  {
  }

  lemma RecordDirProper(children: Disk, record: Node)
    requires ProperDisk(children) && record.File?
    ensures WellNamed(RECORD_DIR, Dir(children[RECORD_FILE := record]))
  {
    assert ProperName(RECORD_DIR) && ProperName(RECORD_FILE);
    assert WellNamed(RECORD_FILE, record);
  }

  lemma PulledProper(h: Host, run: Run)
    requires ProperDisk(run.payload)
    ensures ProperDisk(Pulled(h, run))
  {
    assert ProperName(STATE_FILE);
    var stage := Pulled(h, run);
    forall n | n in stage ensures WellNamed(n, stage[n]) {
      if n in run.payload { assert stage[n] == run.payload[n]; }
    }
  }

  // ---- The files of a half-published payload ----------------------------------------------------------

  ghost function Slice(all: Disk, names: seq<string>, lo: nat, hi: nat): seq<Hashed>
    requires Lists(names, all) && lo <= hi <= |names|
  {
    assert forall n :: n in names[lo..hi] ==> n in names;
    Walk("", Dir(all), names[lo..hi])
  }

  lemma SliceSplit(all: Disk, names: seq<string>, lo: nat, mid: nat, hi: nat)
    requires Lists(names, all) && lo <= mid <= hi <= |names|
    ensures Slice(all, names, lo, hi) == Slice(all, names, lo, mid) + Slice(all, names, mid, hi)
  {
    assert names[lo..hi] == names[lo..mid] + names[mid..hi];
    assert forall n :: n in names[lo..mid] + names[mid..hi] ==> n in names;
    WalkConcat("", Dir(all), names[lo..mid], names[mid..hi]);
  }

  /** Publishing a slice of the listing publishes exactly that slice of the files. */
  lemma RestrictFiles(all: Disk, names: seq<string>, lo: nat, hi: nat)
    requires Lists(names, all) && lo <= hi <= |names|
    ensures Files(Restrict(all, Set(names[lo..hi]))) == Slice(all, names, lo, hi)
  {
    hide Walk;
    var part, slice := Restrict(all, Set(names[lo..hi])), names[lo..hi];
    assert forall n :: n in slice ==> n in names && n in all;
    assert part.Keys == Set(slice);
    SortedSlice(names, lo, hi, part.Keys);
    WalkAgrees("", Dir(part), Dir(all), slice);
  }

  lemma WholeFiles(all: Disk, names: seq<string>)
    requires Lists(names, all)
    ensures Files(all) == Slice(all, names, 0, |names|)
  {
    hide Walk;
    RestrictFiles(all, names, 0, |names|);
    assert names[0..|names|] == names;
    assert Restrict(all, Set(names)) == all;
  }

  /** What is still staged shows up below the staging directory. */
  lemma StagingFiles(stage: Disk)
    ensures Entry("", STAGING_DIR, Dir(stage)) == Prefixed(STAGING_DIR + "/", Files(stage))
  {
    assert STAGING_DIR != RECORD_DIR by { assert |RECORD_DIR| != |STAGING_DIR|; }
    var prefix := STAGING_DIR + "/";
    assert "" + STAGING_DIR + "/" == prefix && prefix + "" == prefix;
    WalkPrefixed(prefix, "", Dir(stage), Sorted(stage.Keys));
  }

  lemma HalfwayFiles(all: Disk, names: seq<string>, state: Node, j: nat, i: nat)
      returns (b1: seq<Hashed>, b2: seq<Hashed>)
    requires Lists(names, all) && j <= i <= |names| && STAGING_DIR !in names[j..i] && state.File?
    ensures b1 + b2 == Slice(all, names, j, i)
    ensures Files(Halfway(all, names, state, j, i)) == b1 + Prefixed(STAGING_DIR + "/", Slice(all, names, i, |names|))
        + b2
  {
    hide Walk, Entry, Prefixed;
    var part, rest := Restrict(all, Set(names[j..i])), Restrict(all, Set(names[i..]));
    var stage := rest[STATE_FILE := state];
    assert names[i..|names|] == names[i..];
    RestrictFiles(all, names, j, i);
    RestrictFiles(all, names, i, |names|);
    StateUnseen(state.content);
    assert STATE_FILE !in rest;
    FilesReplace(rest, STATE_FILE, state);
    StagingFiles(stage);
    assert STAGING_DIR !in part;
    b1, b2 := WalkInsert("", part, STAGING_DIR, Dir(stage));
  }

  lemma HalfwayClean(all: Disk, names: seq<string>, state: Node, j: nat, i: nat)
    requires Lists(names, all) && j <= i <= |names| && state.File? && Clean(all)
    ensures Clean(Halfway(all, names, state, j, i)) && Clean(Restrict(all, Set(names[j..i])))
  {
    StateUnseen(state.content);
    var rest := Restrict(all, Set(names[i..]))[STATE_FILE := state];
    forall n | n in rest ensures LinkFree(n, rest[n]) { }
  }

  /** The published part of a half-way disk. */
  lemma HalfwayWithoutStaging(all: Disk, names: seq<string>, state: Node, j: nat, i: nat)
    requires j <= i <= |names| && STAGING_DIR !in names[j..i]
    ensures Halfway(all, names, state, j, i) - {STAGING_DIR} == Restrict(all, Set(names[j..i]))
  {
  }

  // ---- Half-published payloads cannot imitate whole ones -----------------------------------------------

  lemma MissingInFront(a: seq<Hashed>, rest: seq<Hashed>, found: seq<Hashed>, seen: set<string>)
    requires a != [] && NulFreePaths(a + rest) && NulFreePaths(found)
    requires forall f :: f in a ==> Head(f.path) !in seen
    requires forall f :: f in found ==> Head(f.path) in seen
    ensures Stream(found) != Stream(a + rest)
  {
    hide Stream, Head;
    assert (a + rest)[0] == a[0] && a[0] in a;
    assert found != [] ==> found[0] in found;
    if Stream(found) == Stream(a + rest) { FirstPathUnique(found, a + rest); }
  }

  /** Whatever the contents are: files missing in front change the first path, files still staged cost length. */
  lemma StreamsTellApart(a: seq<Hashed>, b1: seq<Hashed>, b2: seq<Hashed>, c: seq<Hashed>, prefix: string,
      seen: set<string>)
    requires prefix != []
    requires NulFreePaths(a + (b1 + b2) + c) && NulFreePaths(b1 + Prefixed(prefix, c) + b2)
    requires forall f :: f in a ==> Head(f.path) !in seen
    requires forall f :: f in b1 + Prefixed(prefix, c) + b2 ==> Head(f.path) in seen
    requires Stream(b1 + Prefixed(prefix, c) + b2) == Stream(a + (b1 + b2) + c)
    ensures a == [] && c == []
  {
    var whole, found := a + (b1 + b2) + c, b1 + Prefixed(prefix, c) + b2;
    hide Stream, Prefixed, Head;
    if a != [] {
      assert whole == a + ((b1 + b2) + c);
      MissingInFront(a, (b1 + b2) + c, found, seen);
    }
    LengthsTellApart(a, b1, b2, c, prefix);
  }

  lemma LengthsTellApart(a: seq<Hashed>, b1: seq<Hashed>, b2: seq<Hashed>, c: seq<Hashed>, prefix: string)
    requires prefix != [] && a == [] && Stream(b1 + Prefixed(prefix, c) + b2) == Stream(a + (b1 + b2) + c)
    ensures c == []
  {
    hide Stream, Prefixed, StreamLength;
    StreamHasLength(a + (b1 + b2) + c);
    StreamHasLength(b1 + Prefixed(prefix, c) + b2);
    StreamLengthConcat(a + (b1 + b2), c);
    assert a + (b1 + b2) == b1 + b2;
    StreamLengthConcat(b1, b2);
    StreamLengthConcat(b1 + Prefixed(prefix, c), b2);
    StreamLengthConcat(b1, Prefixed(prefix, c));
    StreamLengthPrefixed(prefix, c);
    assert |prefix| * |c| == 0;
  }

  lemma SliceHeads(all: Disk, names: seq<string>, lo: nat, hi: nat)
    requires Lists(names, all) && ProperDisk(all) && lo <= hi <= |names|
    ensures forall f :: f in Slice(all, names, lo, hi) ==> Head(f.path) in names[lo..hi] && NUL !in f.path
  {
    assert forall n :: n in names[lo..hi] ==> n in names;
    WalkHeads(Dir(all), names[lo..hi]);
  }

  lemma PrefixedHeads(files: seq<Hashed>)
    requires NulFreePaths(files)
    ensures forall f :: f in Prefixed(STAGING_DIR + "/", files) ==> Head(f.path) == STAGING_DIR && NUL !in f.path
  {
    hide Head;
    var prefix := STAGING_DIR + "/";
    var moved := Prefixed(prefix, files);
    assert '/' !in STAGING_DIR && NUL !in prefix;
    forall f | f in moved ensures Head(f.path) == STAGING_DIR && NUL !in f.path {
      var k :| 0 <= k < |moved| && f == moved[k];
      HeadOf(STAGING_DIR, files[k].path);
      assert files[k] in files && f.path == prefix + files[k].path;
    }
  }

  lemma EarlierNames(names: seq<string>, j: nat, i: nat)
    requires Ascending(names) && j <= i <= |names| && RECORD_DIR in names[j..i]
    ensures forall n :: n in names[..j] ==> n !in names[j..i] && n != STAGING_DIR
  {
    var k :| j <= k < i && names[k] == RECORD_DIR;
    assert STAGING_DIR == RECORD_DIR + "-staging";
    PrefixLess(RECORD_DIR, "-staging");
    forall n | n in names[..j] ensures n !in names[j..i] && n != STAGING_DIR {
      var t :| 0 <= t < j && names[t] == n;
      assert Less(names[t], names[k]);
      LessTransitive(n, RECORD_DIR, STAGING_DIR);
      LessIrreflexive(n);
    }
  }

  /** A half-published disk that holds the record digests like the payload only if it is whole. */
  lemma HalfwayDigest(all: Disk, names: seq<string>, state: Node, j: nat, i: nat)
    requires Lists(names, all) && ProperDisk(all) && j <= i <= |names|
    requires STAGING_DIR !in names[j..i] && RECORD_DIR in names[j..i] && state.File?
    ensures var disk := Halfway(all, names, state, j, i);
            && (Stream(Files(disk)) == Stream(Files(all)) <==> Slice(all, names, j, i) == Files(all))
            && (Stream(Files(disk)) == Stream(Files(all)) <==> Files(disk) == Files(all))
  {
    hide Files, Slice, Stream, Halfway, Prefixed, Head, ProperDisk, Ascending;
    var a, b, c := Slice(all, names, 0, j), Slice(all, names, j, i), Slice(all, names, i, |names|);
    var b1, b2 := HalfwayFiles(all, names, state, j, i);
    SliceSplit(all, names, 0, j, |names|);
    SliceSplit(all, names, j, i, |names|);
    WholeFiles(all, names);
    var prefix := STAGING_DIR + "/";
    assert a + (b + c) == a + (b1 + b2) + c;
    SliceHeads(all, names, 0, j);
    SliceHeads(all, names, j, i);
    SliceHeads(all, names, i, |names|);
    PrefixedHeads(c);
    assert names[0..j] == names[..j];
    EarlierNames(names, j, i);
    if Stream(Files(Halfway(all, names, state, j, i))) == Stream(Files(all)) {
      var seen := Set(names[j..i]) + {STAGING_DIR};
      assert forall f :: f in b1 || f in b2 ==> f in b by { assert b == b1 + b2; }
      StreamsTellApart(a, b1, b2, c, prefix, seen);
      NothingPrefixed(prefix);
      assert b1 + [] + b2 == b;
    }
    if b == Files(all) {
      assert |a| + |b| + |c| == |b|;
      assert a == [] && c == [];
      NothingPrefixed(prefix);
      assert b1 + [] + b2 == b;
    }
  }

  lemma NothingPrefixed(prefix: string)
    ensures Prefixed(prefix, []) == []
  {
  }

  // ---- The record on a reachable disk ---------------------------------------------------------------------

  /**
   * The runs the theorems are about: checked ones, pulling trees with proper file names and no link at the record path.
   */
  ghost predicate Checked(run: Run) {
    !run.skipChecksum && ProperDisk(run.payload) && OwnRecord(run)
  }

  lemma PrefixDigestExact(h: Host, disk: Disk, all: Disk)
    requires CollisionFree(h) && Clean(disk) && Clean(all)
    ensures Digest(h, disk) == Some("sha256:" + h.hash(Stream(Files(all)))) <==>
        Stream(Files(disk)) == Stream(Files(all))
  {
    hide Stream, Files;
    var x, y := h.hash(Stream(Files(disk))), h.hash(Stream(Files(all)));
    assert ("sha256:" + x)[7..] == x && ("sha256:" + y)[7..] == y;
  }

  lemma MovingExact(h: Host, run: Run, j: nat, i: nat)
    requires Faithful(h) && CollisionFree(h) && Checked(run)
    requires Published(h, run).Some? && j <= i <= Movable(h, run) <= |Listing(h, run)|
    requires LoadRecord(h, MovingDisk(h, run, j, i)).Some?
    ensures var disk := MovingDisk(h, run, j, i);
            && LoadRecord(h, disk) == Some(RecordOf(h, run))
            && (Digest(h, disk) == Some(RecordOf(h, run).contentDigest) <==>
                Files(disk - {STAGING_DIR}) == PulledFiles(h, run))
            && (Digest(h, disk) == Some(RecordOf(h, run).contentDigest) <==> Files(disk) == PulledFiles(h, run))
  {
    hide Files, Stream, RecordOf, Published, Listing, Movable, CommitState, Digest, Faithful, CollisionFree, ProperDisk;
    hide Clean;
    var all, names, state, disk := Published(h, run).value, Listing(h, run), CommitState(h, run),
        MovingDisk(h, run, j, i);
    assert Lists(names, all) by { PublishedLists(h, run); }
    MovableNames(h, run, j, i);
    RecordFacts(h, run);
    PublishedFiles(h, run);
    PublishedProper(h, run);
    assert RECORD_DIR in names[j..i] && disk[RECORD_DIR] == all[RECORD_DIR] by {
      assert STAGING_DIR != RECORD_DIR by { assert |RECORD_DIR| != |STAGING_DIR|; }
    }
    PublishedRecord(h, run, disk);
    assert state.File? by { StateIsFile(h, run); }
    HalfwayClean(all, names, state, j, i);
    HalfwayDigest(all, names, state, j, i);
    HalfwayWithoutStaging(all, names, state, j, i);
    RestrictFiles(all, names, j, i);
    PrefixDigestExact(h, disk, all);
  }

  lemma PublishedLists(h: Host, run: Run)
    requires Published(h, run).Some?
    ensures Lists(Listing(h, run), Published(h, run).value)
  {
    hide Ready, Sorted;
  }

  lemma StateIsFile(h: Host, run: Run)
    requires Published(h, run).Some?
    ensures CommitState(h, run).File?
  {
  }

  lemma KeptExact(h: Host, run: Run, i: nat)
    requires Faithful(h) && CollisionFree(h) && Checked(run)
    requires Published(h, run).Some? && i <= Movable(h, run) <= |Listing(h, run)|
    requires LoadRecord(h, KeptDisk(h, run, i)).Some?
    ensures var disk := KeptDisk(h, run, i);
            && LoadRecord(h, disk) == Some(RecordOf(h, run))
            && (Digest(h, disk) == Some(RecordOf(h, run).contentDigest) <==>
                Files(disk - {STAGING_DIR}) == PulledFiles(h, run))
            && (Digest(h, disk) == Some(RecordOf(h, run).contentDigest) <==> Files(disk) == PulledFiles(h, run))
  {
    hide Files, Stream, RecordOf, Published, Listing, Movable, Digest, Faithful, CollisionFree, ProperDisk, Clean;
    var all, names, disk := Published(h, run).value, Listing(h, run), KeptDisk(h, run, i);
    KeptHasNoStaging(h, run, i);
    assert disk - {STAGING_DIR} == disk;
    RecordFacts(h, run);
    PublishedFiles(h, run);
    PublishedRecord(h, run, disk);
    assert Lists(names, all) by { PublishedLists(h, run); }
    assert names[0..i] == names[..i];
    HalfwayClean(all, names, File(""), 0, i);
    RestrictFiles(all, names, 0, i);
    KeptDigest(all, names, i);
    PrefixDigestExact(h, disk, all);
  }

  /** Files missing at the end shorten the stream. */
  lemma KeptDigest(all: Disk, names: seq<string>, i: nat)
    requires Lists(names, all) && i <= |names|
    ensures Stream(Slice(all, names, 0, i)) == Stream(Files(all)) <==> Slice(all, names, 0, i) == Files(all)
  {
    hide Stream, Files, Slice;
    var b, c := Slice(all, names, 0, i), Slice(all, names, i, |names|);
    WholeFiles(all, names);
    SliceSplit(all, names, 0, i, |names|);
    StreamHasLength(b);
    StreamHasLength(b + c);
    StreamLengthConcat(b, c);
    StreamLengthPositive(c);
    assert c == [] ==> b + c == b;
  }

  /** A disk of any reachable shape: the record it shows, and exactly when its digest matches. */
  lemma ShapeExact(h: Host, disk: Disk, shape: Shape)
    requires Faithful(h) && CollisionFree(h) && Matches(h, disk, shape)
    requires HasRun(shape) ==> Checked(shape.run)
    requires LoadRecord(h, disk).Some?
    ensures HasRun(shape) && WritesRecord(h, shape.run)
    ensures LoadRecord(h, disk) == Some(RecordOf(h, shape.run))
    ensures Digest(h, disk) == Some(RecordOf(h, shape.run).contentDigest) <==> Files(disk) == PulledFiles(h, shape.run)
    ensures Digest(h, disk) == Some(RecordOf(h, shape.run).contentDigest) <==>
        Files(disk - {STAGING_DIR}) == PulledFiles(h, shape.run)
  {
    hide Files, Digest, RecordOf, Published, Listing, Movable, MovingDisk, KeptDisk, ProperDisk, Faithful;
    hide CollisionFree, PulledFiles;
    assert STAGING_DIR != RECORD_DIR by { assert |RECORD_DIR| != |STAGING_DIR|; }
    match shape
    case Moving(run, j, i) => MovingExact(h, run, j, i);
    case Kept(run, i) => KeptExact(h, run, i);
    case _ =>
  }
}
