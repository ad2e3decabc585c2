/** How runs of effects act on a disk, for any payload and any listing of it. */
module Moves {
  import opened Names
  import opened Tree
  import opened Transaction

  function Restrict(disk: Disk, keep: set<string>): (part: Disk)
    ensures part.Keys == disk.Keys * keep
    ensures forall n :: n in part ==> part[n] == disk[n]
  {
    map n | n in disk && n in keep :: disk[n]
  }

  function Set(names: seq<string>): set<string> {
    set n | n in names
  }

  /** Some entries published, others still staged beside the state file. */
  function Split(all: Disk, published: set<string>, staged: set<string>, state: Node): Disk {
    Restrict(all, published)[STAGING_DIR := Dir(Restrict(all, staged)[STATE_FILE := state])]
  }

  /** Names j..i of a listing published, names from i on still staged. */
  function Halfway(all: Disk, names: seq<string>, state: Node, j: nat, i: nat): Disk
    requires j <= i <= |names|
  {
    Split(all, Set(names[j..i]), Set(names[i..]), state)
  }

  ghost predicate OnlyStaging(disk: Disk) {
    disk.Keys == {STAGING_DIR} && disk[STAGING_DIR].Dir?
  }

  lemma {:induction false} RenameOpsShape(names: seq<string>)
    ensures |RenameOps(names)| <= |names|
    ensures forall t :: 0 <= t < |RenameOps(names)| ==>
        RenameOps(names)[t] == Rename(names[t])
        && names[t] != STAGING_DIR
    ensures |RenameOps(names)| == |names| <==> STAGING_DIR !in names
  {
    if names != [] && names[0] != STAGING_DIR {
      RenameOpsShape(names[1..]);
      assert names == [names[0]] + names[1..];
    }
  }

  /** A listing of exactly the entries of `all`, the next one movable. */
  ghost predicate Lists(names: seq<string>, all: Disk) {
    Ascending(names) && STATE_FILE !in all && forall n :: n in names <==> n in all
  }

  lemma UpdateTwice(m: Disk, a: string, x: Node, z: Node, b: string, y: Node)
    requires a != b
    ensures m[a := x][b := y][a := z] == m[b := y][a := z]
  {
  }

  lemma SplitRename(all: Disk, published: set<string>, staged: set<string>, state: Node, name: string)
    requires name in all && name in staged && name != STATE_FILE && name != STAGING_DIR
    ensures Apply(Split(all, published, staged, state), Rename(name)) ==
        Split(all, published + {name}, staged - {name}, state)
  {
    hide Restrict;
    var there, here := Restrict(all, published), Restrict(all, staged);
    assert Restrict(all, published + {name}) == there[name := all[name]];
    assert Restrict(all, staged - {name}) == here - {name};
    assert here[STATE_FILE := state] - {name} == (here - {name})[STATE_FILE := state];
    UpdateTwice(there, STAGING_DIR, Dir(here[STATE_FILE := state]), Dir((here - {name})[STATE_FILE := state]), name,
        all[name]);
  }

  /** One rename moves exactly one entry, unchanged, and overwrites nothing. */
  lemma RenameStep(all: Disk, names: seq<string>, state: Node, i: nat)
    requires Lists(names, all) && i < |names| && names[i] != STAGING_DIR
    ensures Apply(Halfway(all, names, state, 0, i), Rename(names[i])) == Halfway(all, names, state, 0, i + 1)
  {
    var name := names[i];
    assert names[0..i + 1] == names[0..i] + [name] && names[i..] == [name] + names[i + 1..];
    assert name !in names[i + 1..] by { LessIrreflexive(name); }
    assert Set(names[0..i + 1]) == Set(names[0..i]) + {name};
    assert Set(names[i + 1..]) == Set(names[i..]) - {name};
    assert name in all;
    SplitRename(all, Set(names[0..i]), Set(names[i..]), state, name);
  }

  /** A chain of disks, each one effect after the one before. */
  lemma {:induction false} ApplyChain(disks: seq<Disk>, ops: seq<Op>)
    requires |disks| == |ops| + 1 && forall k :: 0 <= k < |ops| ==> Apply(disks[k], ops[k]) == disks[k + 1]
    ensures ApplyAll(disks[0], ops) == disks[|ops|]
    decreases |ops|
  {
    if ops != [] {
      forall k | 0 <= k < |ops[1..]| ensures Apply(disks[1..][k], ops[1..][k]) == disks[1..][k + 1] {
        assert Apply(disks[k + 1], ops[k + 1]) == disks[k + 2];
      }
      ApplyChain(disks[1..], ops[1..]);
    }
  }

  lemma RenamePrefix(all: Disk, names: seq<string>, state: Node, t: nat)
    requires Lists(names, all) && t <= |RenameOps(names)|
    ensures t <= |names|
    ensures ApplyAll(Halfway(all, names, state, 0, 0), RenameOps(names)[..t]) == Halfway(all, names, state, 0, t)
  {
    RenameOpsShape(names);
    var ops := RenameOps(names)[..t];
    var disks := seq(t + 1, k requires 0 <= k <= t => Halfway(all, names, state, 0, k));
    forall k | 0 <= k < |ops| ensures Apply(disks[k], ops[k]) == disks[k + 1] {
      RenameStep(all, names, state, k);
    }
    ApplyChain(disks, ops);
  }

  lemma ApplyOne(disk: Disk, op: Op)
    ensures ApplyAll(disk, [op]) == Apply(disk, op)
  {
    assert [op][1..] == [];
  }

  predicate WithinStaging(op: Op) {
    !op.Remove? && !op.MakeStaging? && !op.Rename?
  }

  ghost predicate AllWithin(ops: seq<Op>) {
    forall i :: 0 <= i < |ops| ==> WithinStaging(ops[i])
  }

  lemma AllWithinConcat(a: seq<Op>, b: seq<Op>)
    ensures AllWithin(a + b) <==> AllWithin(a) && AllWithin(b)
  {
    assert forall i :: 0 <= i < |a| ==> (a + b)[i] == a[i];
    assert forall i :: 0 <= i < |b| ==> (a + b)[|a| + i] == b[i];
  }

  lemma {:induction false} StaysStaging(disk: Disk, ops: seq<Op>)
    requires OnlyStaging(disk) && AllWithin(ops)
    ensures OnlyStaging(ApplyAll(disk, ops))
    decreases |ops|
  {
    if ops != [] {
      StaysStaging(Apply(disk, ops[0]), ops[1..]);
    }
  }

  /** Effects on staging compose as functions of its contents. */
  function FillAll(stage: Disk, ops: seq<Op>): Disk
    decreases |ops|
  {
    if ops == [] then stage else FillAll(InStaging(stage, ops[0]), ops[1..])
  }

  lemma {:induction false} ApplyFillAll(disk: Disk, ops: seq<Op>)
    requires HasStaging(disk) && AllWithin(ops)
    ensures ApplyAll(disk, ops) == disk[STAGING_DIR := Dir(FillAll(Staging(disk), ops))]
    decreases |ops|
  {
    if ops == [] {
      assert disk[STAGING_DIR := disk[STAGING_DIR]] == disk;
    } else {
      ApplyFillAll(Apply(disk, ops[0]), ops[1..]);
    }
  }

  lemma {:induction false} FillAllConcat(stage: Disk, a: seq<Op>, b: seq<Op>)
    ensures FillAll(stage, a + b) == FillAll(FillAll(stage, a), b)
    decreases |a|
  {
    if a == [] {
      assert a + b == b;
    } else {
      assert (a + b)[1..] == a[1..] + b;
      FillAllConcat(InStaging(stage, a[0]), a[1..], b);
    }
  }

  lemma FillOne(stage: Disk, op: Op)
    ensures FillAll(stage, [op]) == InStaging(stage, op)
  {
    assert [op][1..] == [];
  }

  lemma FillTwo(stage: Disk, a: Op, b: Op)
    ensures FillAll(stage, [a, b]) == InStaging(InStaging(stage, a), b)
  {
    assert [a, b][1..] == [b];
    FillOne(InStaging(stage, a), b);
  }

  /** Creating the record directory and writing the record, torn write included, puts the record in place. */
  lemma RecordWritten(stage: Disk, content: string)
    requires RecordWritable(stage)
    ensures FillAll(stage, [MakeRecordDir, TruncateRecord, WriteRecord(content)]) == PutRecord(stage, content)
  {
    var made := InStaging(stage, MakeRecordDir);
    assert [MakeRecordDir, TruncateRecord, WriteRecord(content)][1..] == [TruncateRecord, WriteRecord(content)];
    FillTwo(made, TruncateRecord, WriteRecord(content));
    hide FillAll;
    match RecordLink(stage)
    case None => RecordRewritten(stage, content);
    case Some(target) =>
      assert made == stage && target != RECORD_DIR;
      assert stage[target := File("")][target := File(content)] == stage[target := File(content)];
      assert RecordLink(stage[target := File("")]) == Some(target);
  }

  lemma RecordRewritten(stage: Disk, content: string)
    requires RecordWritable(stage) && RecordLink(stage).None?
    ensures var made := InStaging(stage, MakeRecordDir);
            PutRecord(PutRecord(made, ""), content) == PutRecord(stage, content)
  {
    var made, c := InStaging(stage, MakeRecordDir), RecordDir(stage).value;
    assert made == stage[RECORD_DIR := Dir(c)];
    assert PutRecord(made, "") == stage[RECORD_DIR := Dir(c[RECORD_FILE := File("")])];
    assert c[RECORD_FILE := File("")][RECORD_FILE := File(content)] == c[RECORD_FILE := File(content)];
  }

  /** From nothing to the first rename, whatever was written on the way. */
  lemma FrontFill(pre: seq<Op>, stage: Disk, rec: seq<Op>, ready: Disk, content: string)
    requires AllWithin(pre) && AllWithin(rec)
    requires FillAll(stage, rec) == ready
    ensures ApplyAll(map[], [MakeStaging] + (pre + [Fill(stage)]) + rec + [TruncateState, WriteState(content)])
         == map[STAGING_DIR := Dir(ready[STATE_FILE := File(content)])]
  {
    var last := [TruncateState, WriteState(content)];
    var inner := pre + [Fill(stage)] + rec + last;
    assert [MakeStaging] + (pre + [Fill(stage)]) + rec + last == [MakeStaging] + inner;
    ApplyAllConcat(map[], [MakeStaging], inner);
    ApplyOne(map[], MakeStaging);
    AllWithinConcat(pre, [Fill(stage)]);
    AllWithinConcat(pre + [Fill(stage)], rec);
    AllWithinConcat(pre + [Fill(stage)] + rec, last);
    ApplyFillAll(Apply(map[], MakeStaging), inner);
    InnerFill(pre, stage, rec, ready, content);
  }

  lemma InnerFill(pre: seq<Op>, stage: Disk, rec: seq<Op>, ready: Disk, content: string)
    requires FillAll(stage, rec) == ready
    ensures FillAll(map[], pre + [Fill(stage)] + rec + [TruncateState, WriteState(content)]) ==
        ready[STATE_FILE := File(content)]
  {
    var last := [TruncateState, WriteState(content)];
    FillAllConcat(map[], pre + [Fill(stage)] + rec, last);
    FillAllConcat(map[], pre + [Fill(stage)], rec);
    FillAllConcat(map[], pre, [Fill(stage)]);
    FillOne(FillAll(map[], pre), Fill(stage));
    FillTwo(ready, TruncateState, WriteState(content));
    assert ready[STATE_FILE := File("")][STATE_FILE := File(content)] == ready[STATE_FILE := File(content)];
  }

  function RemoveOps(names: seq<string>): seq<Op> {
    if names == [] then [] else [Remove(names[0])] + RemoveOps(names[1..])
  }

  lemma {:induction false} RemoveOpsLength(names: seq<string>)
    ensures |RemoveOps(names)| == |names|
    ensures forall t :: 0 <= t < |names| ==> RemoveOps(names)[t] == Remove(names[t])
  {
    if names != [] { RemoveOpsLength(names[1..]); }
  }

  /** When every entry is listed, recovery removes them in listing order and staging last. */
  lemma {:induction false} ScanListed(a: seq<string>, b: seq<string>, state: StagingState)
    requires state.phase == COMMITTING && forall n :: n in a + b ==> n in state.files && n != STAGING_DIR
    ensures ScanEntries(a + [STAGING_DIR] + b, state) == Recovery(RemoveOps(a + b) + [Remove(STAGING_DIR)], true)
    decreases |a| + |b|
  {
    var names := a + [STAGING_DIR] + b;
    if a == [] {
      assert a + b == b && names[1..] == b;
      ScanRest(b, state);
    } else {
      assert names[1..] == a[1..] + [STAGING_DIR] + b;
      assert (a + b)[1..] == a[1..] + b;
      assert forall n :: n in a[1..] + b ==> n in a + b;
      assert a[0] in a + b;
      ScanListed(a[1..], b, state);
    }
  }

  lemma {:induction false} ScanRest(b: seq<string>, state: StagingState)
    requires state.phase == COMMITTING && forall n :: n in b ==> n in state.files && n != STAGING_DIR
    ensures ScanEntries(b, state) == Recovery(RemoveOps(b) + [Remove(STAGING_DIR)], true)
  {
    if b != [] {
      assert b[0] in b;
      assert forall n :: n in b[1..] ==> n in b;
      ScanRest(b[1..], state);
    }
  }

  lemma SplitRemove(all: Disk, published: set<string>, staged: set<string>, state: Node, name: string)
    requires name != STAGING_DIR
    ensures Apply(Split(all, published, staged, state), Remove(name)) == Split(all, published - {name}, staged, state)
  {
    assert Restrict(all, published) - {name} == Restrict(all, published - {name});
  }

  lemma RemoveStep(all: Disk, names: seq<string>, state: Node, j: nat, i: nat)
    requires Ascending(names) && j < i <= |names| && names[j] != STAGING_DIR
    ensures Apply(Halfway(all, names, state, j, i), Remove(names[j])) == Halfway(all, names, state, j + 1, i)
  {
    var name := names[j];
    assert names[j..i] == [name] + names[j + 1..i];
    assert name !in names[j + 1..i] by { LessIrreflexive(name); }
    assert Set(names[j + 1..i]) == Set(names[j..i]) - {name};
    SplitRemove(all, Set(names[j..i]), Set(names[i..]), state, name);
  }

  lemma RemovePrefix(all: Disk, names: seq<string>, state: Node, j: nat, i: nat, t: nat)
    requires Ascending(names) && j <= i <= |names| && t <= i - j
    requires forall k :: j <= k < i ==> names[k] != STAGING_DIR
    ensures |RemoveOps(names[j..i])| == i - j
    ensures ApplyAll(Halfway(all, names, state, j, i), RemoveOps(names[j..i])[..t]) ==
        Halfway(all, names, state, j + t, i)
  {
    hide Halfway, Apply, Ascending, RemoveOps, ApplyAll;
    RemoveOpsLength(names[j..i]);
    var ops := RemoveOps(names[j..i])[..t];
    var disks := seq(t + 1, k requires 0 <= k <= t => Halfway(all, names, state, j + k, i));
    forall k | 0 <= k < |ops| ensures Apply(disks[k], ops[k]) == disks[k + 1] {
      assert ops[k] == Remove(names[j..i][k]);
      RemoveStep(all, names, state, j + k, i);
      assert disks[k + 1] == Halfway(all, names, state, j + (k + 1), i);
      assert j + (k + 1) == j + k + 1;
    }
    ApplyChain(disks, ops);
  }

  lemma PrefixStaysStaging(ops: seq<Op>, n: nat)
    requires ops != [] && ops[0] == MakeStaging && AllWithin(ops[1..])
    requires 0 < n <= |ops|
    ensures OnlyStaging(ApplyAll(map[], ops[..n]))
  {
    var prefix := ops[..n];
    assert prefix[1..] == ops[1..][..n - 1];
    StaysStaging(Apply(map[], MakeStaging), prefix[1..]);
  }

  lemma StartsWhole(ready: Disk, all: Disk, names: seq<string>, content: string)
    requires all == ready - {STATE_FILE} && Lists(names, all)
    ensures map[STAGING_DIR := Dir(ready[STATE_FILE := File(content)])] == Halfway(all, names, File(content), 0, 0)
  {
    assert names[0..] == names && Restrict(all, Set(names)) == all;
    assert Restrict(all, Set(names[0..0])) == map[];
    assert ready[STATE_FILE := File(content)] == all[STATE_FILE := File(content)];
  }

  lemma DropStaging(all: Disk, names: seq<string>, state: Node, i: nat)
    requires i <= |names| && forall k :: 0 <= k < i ==> names[k] != STAGING_DIR
    ensures Apply(Halfway(all, names, state, 0, i), Remove(STAGING_DIR)) == Restrict(all, Set(names[..i]))
  {
    assert names[0..i] == names[..i];
    assert STAGING_DIR !in Set(names[..i]);
  }

  lemma HalfwayListing(all: Disk, names: seq<string>, entry: Node, j: nat, i: nat) returns (cut: nat)
    requires Lists(names, all) && j <= i <= |names| && STAGING_DIR !in names[j..i]
    ensures cut <= i - j
    ensures Sorted(Halfway(all, names, entry, j, i).Keys) == names[j..i][..cut] + [STAGING_DIR] + names[j..i][cut..]
  {
    var keys := Halfway(all, names, entry, j, i).Keys;
    assert forall n :: n in names[j..i] ==> n in names && n in all;
    assert keys == Set(names[j..i]) + {STAGING_DIR};
    cut := AscendingInsert(names[j..i], STAGING_DIR, Sorted(keys));
  }

  lemma ScanCut(listed: seq<string>, cut: nat, state: StagingState)
    requires cut <= |listed| && STAGING_DIR !in listed
    requires state.phase == COMMITTING && forall n :: n in listed ==> n in state.files
    ensures ScanEntries(listed[..cut] + [STAGING_DIR] + listed[cut..], state) ==
        Recovery(RemoveOps(listed) + [Remove(STAGING_DIR)], true)
  {
    assert listed[..cut] + listed[cut..] == listed;
    ScanListed(listed[..cut], listed[cut..], state);
  }

  /** A half-published listing names exactly what recovery will remove. */
  lemma ScanHalfway(all: Disk, names: seq<string>, entry: Node, j: nat, i: nat, state: StagingState)
    requires Lists(names, all) && j <= i <= |names| && STAGING_DIR !in names[j..i]
    requires state.phase == COMMITTING && state.files == names
    ensures ScanEntries(Sorted(Halfway(all, names, entry, j, i).Keys), state)
         == Recovery(RemoveOps(names[j..i]) + [Remove(STAGING_DIR)], true)
  {
    var cut := HalfwayListing(all, names, entry, j, i);
    ScanCut(names[j..i], cut, state);
  }

  lemma AllWithinFront(open: seq<Op>, record: seq<Op>, publish: seq<Op>)
    requires open != [] && open[0] == MakeStaging && AllWithin(open[1..]) && AllWithin(record) && AllWithin(publish)
    ensures open + record + publish != [] && (open + record + publish)[0] == MakeStaging
    ensures AllWithin((open + record + publish)[1..])
  {
    AllWithinConcat(open[1..], record);
    AllWithinConcat(open[1..] + record, publish);
    assert (open + record + publish)[1..] == open[1..] + record + publish;
  }
}
