/** Closed forms for every disk a staging transaction can leave behind. */
module Shapes {
  import opened Names
  import opened Tree
  import opened Transaction
  import opened Moves

  /** The published names in listing order. */
  ghost function Listing(h: Host, run: Run): (names: seq<string>)
    requires Published(h, run).Some?
    ensures Ascending(names)
    ensures forall n :: n in names <==> n in Published(h, run).value
  {
    Sorted(Published(h, run).value.Keys)
  }

  /** How many entries the commit loop can rename: a payload entry named like staging blocks the rest. */
  ghost function Movable(h: Host, run: Run): nat
    requires Published(h, run).Some?
  {
    |RenameOps(Listing(h, run))|
  }

  ghost function MovingDisk(h: Host, run: Run, j: nat, i: nat): Disk
    requires Published(h, run).Some? && j <= i <= |Listing(h, run)|
  {
    Halfway(Published(h, run).value, Listing(h, run), CommitState(h, run), j, i)
  }

  ghost function KeptDisk(h: Host, run: Run, i: nat): Disk
    requires Published(h, run).Some? && i <= |Listing(h, run)|
  {
    Restrict(Published(h, run).value, Set(Listing(h, run)[..i]))
  }

  datatype Shape = Empty | Staged | Moving(run: Run, j: nat, i: nat) | Kept(run: Run, i: nat)

  ghost predicate Matches(h: Host, disk: Disk, shape: Shape) {
    match shape
    case Empty => disk == map[]
    case Staged => OnlyStaging(disk)
    case Moving(run, j, i) =>
      && Published(h, run).Some? && j <= i <= Movable(h, run) <= |Listing(h, run)|
      && disk == MovingDisk(h, run, j, i)
    case Kept(run, i) =>
      && Published(h, run).Some? && 0 < i <= Movable(h, run) <= |Listing(h, run)|
      && disk == KeptDisk(h, run, i)
  }

  // ---- From an empty destination to the first rename --------------------------------------

  /** The effects before the first rename. */
  ghost function FrontOps(h: Host, run: Run): seq<Op> {
    OpenOps(h, run) + RecordOps(h, run) + Take(PublishOps(h, run), 2)
  }

  lemma FrontWithin(h: Host, run: Run)
    ensures FrontOps(h, run) != [] && FrontOps(h, run)[0] == MakeStaging
    ensures AllWithin(FrontOps(h, run)[1..])
  {
    OpenWithin(h, run);
    RecordWithin(h, run);
    PublishWithin(h, run);
    AllWithinFront(OpenOps(h, run), RecordOps(h, run), Take(PublishOps(h, run), 2));
  }

  lemma OpenWithin(h: Host, run: Run)
    ensures OpenOps(h, run) != [] && OpenOps(h, run)[0] == MakeStaging && AllWithin(OpenOps(h, run)[1..])
  {
  }

  lemma PublishWithin(h: Host, run: Run)
    ensures AllWithin(Take(PublishOps(h, run), 2))
  {
    PublishSplit(h, run);
  }

  lemma RecordWithin(h: Host, run: Run)
    ensures AllWithin(RecordOps(h, run))
  {
    hide Assess, WithRecord, RecordDir, Pulled;
  }

  lemma PublishSplit(h: Host, run: Run)
    ensures Published(h, run).None? ==> PublishOps(h, run) == []
    ensures Published(h, run).Some? ==>
              PublishOps(h, run) == [TruncateState, WriteState(CommitState(h, run).content)]
                  + RenameOps(Listing(h, run))
  {
  }

  lemma FrontPrefix(h: Host, run: Run, n: nat)
    requires 0 < n <= |FrontOps(h, run)|
    ensures OnlyStaging(ApplyAll(map[], FrontOps(h, run)[..n]))
  {
    FrontWithin(h, run);
    PrefixStaysStaging(FrontOps(h, run), n);
  }

  lemma RecordFill(h: Host, run: Run)
    requires Ready(h, run).Some?
    ensures FillAll(Pulled(h, run), RecordOps(h, run)) == Ready(h, run).value
  {
    if !run.skipChecksum {
      RecordWritten(Pulled(h, run), h.encodeRecord(Assess(h, run).value));
    }
  }

  /** The commit loop starts from everything staged and nothing published. */
  lemma FrontDisk(h: Host, run: Run)
    requires Published(h, run).Some?
    ensures ApplyAll(map[], FrontOps(h, run)) == MovingDisk(h, run, 0, 0)
  {
    var stage, ready, all, names := Pulled(h, run), Ready(h, run).value, Published(h, run).value, Listing(h, run);
    var open, content := OpenOps(h, run), CommitState(h, run).content;
    PublishSplit(h, run);
    OpenWithin(h, run);
    RecordWithin(h, run);
    RecordFill(h, run);
    var pre := open[1..4];
    assert open == [MakeStaging] + (pre + [Fill(stage)]);
    FrontFill(pre, stage, RecordOps(h, run), ready, content);
    assert FrontOps(h, run) == [MakeStaging] + (pre + [Fill(stage)]) + RecordOps(h, run)
        + [TruncateState, WriteState(content)];
    StartsWhole(ready, all, names, content);
  }

  // ---- Every prefix of a session ------------------------------------------------------------

  lemma SessionSplit(h: Host, run: Run)
    ensures SessionOps(h, run) ==
              FrontOps(h, run) + (if Published(h, run).Some? then RenameOps(Listing(h, run)) else [])
              + [Remove(STAGING_DIR)]
  {
    hide OpenOps, RecordOps, Published, Listing, RenameOps;
    PublishSplit(h, run);
  }

  /** The disk after n effects of a session, before any cleanup. */
  ghost function SessionShape(h: Host, run: Run, n: nat): Shape
    requires n < |SessionOps(h, run)|
  {
    if n == 0 then Empty
    else if n <= |FrontOps(h, run)| then Staged
    else Moving(run, 0, n - |FrontOps(h, run)|)
  }

  lemma SessionPrefix(h: Host, run: Run, n: nat)
    requires n < |SessionOps(h, run)|
    ensures Matches(h, ApplyAll(map[], SessionOps(h, run)[..n]), SessionShape(h, run, n))
  {
    hide FrontOps, SessionOps, Published, Listing, RenameOps, ApplyAll, MovingDisk;
    SessionSplit(h, run);
    var ops, front := SessionOps(h, run), FrontOps(h, run);
    if n == 0 {
      assert ops[..0] == [] && ApplyAll(map[], []) == map[] by { NothingDone(); }
    } else if n <= |front| {
      assert ops[..n] == front[..n];
      FrontPrefix(h, run, n);
    } else {
      assert ops[..n] == front + RenameOps(Listing(h, run))[..n - |front|];
      RenamesPrefix(h, run, n - |front|);
    }
  }

  lemma NothingDone()
    ensures ApplyAll(map[], []) == map[]
  {
  }

  /** After t renames the first t entries of the listing are published and the others staged. */
  lemma RenamesPrefix(h: Host, run: Run, t: nat)
    requires Published(h, run).Some? && t <= Movable(h, run)
    ensures t <= Movable(h, run) <= |Listing(h, run)|
    ensures ApplyAll(map[], FrontOps(h, run) + RenameOps(Listing(h, run))[..t]) == MovingDisk(h, run, 0, t)
  {
    var names := Listing(h, run);
    ApplyAllConcat(map[], FrontOps(h, run), RenameOps(names)[..t]);
    FrontDisk(h, run);
    RenameOpsShape(names);
    RenamePrefix(Published(h, run).value, names, CommitState(h, run), t);
  }

  ghost function Cleaned(shape: Shape): Shape {
    match shape
    case Moving(run, _, i) => if i == 0 then Empty else Kept(run, i)
    case _ => Empty
  }

  /** The deferred cleanup keeps what was published and drops what was not. */
  lemma CleanupShape(h: Host, disk: Disk, shape: Shape)
    requires Matches(h, disk, shape) && !shape.Kept? && (shape.Moving? ==> shape.j == 0)
    ensures Matches(h, Apply(disk, Remove(STAGING_DIR)), Cleaned(shape))
  {
    hide Published, Listing, MovingDisk, KeptDisk;
    if shape.Moving? { MovingCleaned(h, shape.run, shape.i); }
  }

  lemma MovingCleaned(h: Host, run: Run, i: nat)
    requires Published(h, run).Some? && i <= Movable(h, run) <= |Listing(h, run)|
    ensures Apply(MovingDisk(h, run, 0, i), Remove(STAGING_DIR)) == KeptDisk(h, run, i)
    ensures i == 0 ==> KeptDisk(h, run, i) == map[]
  {
    hide Published, Listing, RenameOps, Apply, Halfway;
    var names := Listing(h, run);
    RenameOpsShape(names);
    DropStaging(Published(h, run).value, names, CommitState(h, run), i);
    if i == 0 { assert Set(names[..0]) == {}; }
  }

  // ---- Recovery ---------------------------------------------------------------------------

  lemma RecoverMoving(h: Host, run: Run, j: nat, i: nat, uri: string)
    requires Faithful(h)
    requires Published(h, run).Some? && j <= i <= Movable(h, run) <= |Listing(h, run)|
    ensures Recover(h, uri, MovingDisk(h, run, j, i)) ==
            if uri != run.uri then Recovery([], false)
            else Recovery(RemoveOps(Listing(h, run)[j..i]) + [Remove(STAGING_DIR)], true)
  {
    var all, names, disk := Published(h, run).value, Listing(h, run), MovingDisk(h, run, j, i);
    RenameOpsShape(names);
    var state := StagingState(run.uri, COMMITTING, names);
    assert LoadState(h, Staging(disk)) == Some(state);
    if uri == run.uri {
      ScanHalfway(all, names, CommitState(h, run), j, i, state);
    }
  }
}
