/** Every disk that a history of faulty runs can reach from an empty destination. */
module History {
  import opened Names
  import opened Tree
  import opened Transaction
  import opened Moves
  import opened Shapes

  /** One run of the initializer and where it was cut short. */
  datatype Step = Step(run: Run, fault: Fault)

  ghost function DiskAfter(h: Host, steps: seq<Step>): Disk
    decreases |steps|
  {
    if steps == [] then map[] else
      var last := steps[|steps| - 1];
      After(h, last.run, last.fault, DiskAfter(h, steps[..|steps| - 1]))
  }

  // ---- One run ------------------------------------------------------------------------------

  /** The disk after n of `total` recovery effects. */
  function RecoveryShape(shape: Shape, n: nat, total: nat): Shape {
    if n == 0 then shape
    else if n < total && shape.Moving? then Moving(shape.run, shape.j + n, shape.i)
    else Empty
  }

  lemma RecoverNothing(h: Host, uri: string, disk: Disk)
    requires !HasStaging(disk)
    ensures Recover(h, uri, disk) == Recovery([], true)
    ensures Prepares(h, uri, disk) <==> disk == map[]
  {
  }

  lemma RecoverStaged(h: Host, uri: string, disk: Disk)
    requires OnlyStaging(disk)
    ensures Recover(h, uri, disk) == Recovery([], false)
        || Recover(h, uri, disk) == Recovery([Remove(STAGING_DIR)], true)
  {
    SortedOne(STAGING_DIR);
    forall state ensures ScanEntries([STAGING_DIR], state) == Recovery([Remove(STAGING_DIR)], true) {
      assert [STAGING_DIR][1..] == [];
    }
  }

  lemma KeptHasNoStaging(h: Host, run: Run, i: nat)
    requires Published(h, run).Some? && i <= Movable(h, run) <= |Listing(h, run)|
    ensures STAGING_DIR !in KeptDisk(h, run, i)
  {
    RenameOpsShape(Listing(h, run));
    assert STAGING_DIR !in Listing(h, run)[..i];
  }

  lemma MovableNames(h: Host, run: Run, j: nat, i: nat)
    requires Published(h, run).Some? && j <= i <= Movable(h, run)
    ensures Movable(h, run) <= |Listing(h, run)|
    ensures forall k :: j <= k < i ==> Listing(h, run)[k] != STAGING_DIR
    ensures STAGING_DIR !in Listing(h, run)[j..i]
  {
    RenameOpsShape(Listing(h, run));
  }

  lemma RecoverMovingPrefix(h: Host, run: Run, j: nat, i: nat, n: nat)
    requires Faithful(h)
    requires Published(h, run).Some? && j <= i <= Movable(h, run) <= |Listing(h, run)| && n <= i - j + 1
    ensures Recover(h, run.uri, MovingDisk(h, run, j, i)).ok
    ensures |Recover(h, run.uri, MovingDisk(h, run, j, i)).ops| == i - j + 1
    ensures ApplyAll(MovingDisk(h, run, j, i), Recover(h, run.uri, MovingDisk(h, run, j, i)).ops[..n])
         == if n <= i - j then MovingDisk(h, run, j + n, i) else map[]
  {
    hide Recover, Published, CommitState, Listing, Movable, ScanEntries, RenameOps, Split, RemoveOps, Apply, ApplyAll;
    hide Faithful;
    var all, names, state := Published(h, run).value, Listing(h, run), CommitState(h, run);
    MovableNames(h, run, j, i);
    RecoverMoving(h, run, j, i, run.uri);
    var t := if n <= i - j then n else i - j;
    RemovePrefix(all, names, state, j, i, t);
    var removes := RemoveOps(names[j..i]);
    var ops := removes + [Remove(STAGING_DIR)];
    if n <= i - j {
      assert ops[..n] == removes[..n];
    } else {
      assert ops[..n] == removes + [Remove(STAGING_DIR)] && removes[..t] == removes;
      ApplyAllConcat(Halfway(all, names, state, j, i), removes, [Remove(STAGING_DIR)]);
      ApplyOne(Halfway(all, names, state, i, i), Remove(STAGING_DIR));
      LastRemoval(all, names, state, i);
    }
  }

  lemma LastRemoval(all: Disk, names: seq<string>, state: Node, i: nat)
    requires i <= |names|
    ensures Apply(Halfway(all, names, state, i, i), Remove(STAGING_DIR)) == map[]
  {
    assert names[i..i] == [];
    assert Restrict(all, Set(names[i..i])) == map[];
  }

  lemma RecoverPrefix(h: Host, disk: Disk, shape: Shape, uri: string, n: nat)
    requires Faithful(h) && Matches(h, disk, shape) && n <= |Recover(h, uri, disk).ops|
    ensures Matches(h, ApplyAll(disk, Recover(h, uri, disk).ops[..n]),
        RecoveryShape(shape, n, |Recover(h, uri, disk).ops|))
  {
    hide Recover, Published, Listing, Movable, MovingDisk, ScanEntries, RenameOps, Faithful;
    match shape
    case Empty => RecoverNothing(h, uri, disk);
    case Kept(run, i) =>
      KeptHasNoStaging(h, run, i);
      RecoverNothing(h, uri, disk);
    case Staged =>
      RecoverStaged(h, uri, disk);
      if n == 1 {
        assert [Remove(STAGING_DIR)][..1] == [Remove(STAGING_DIR)];
        ApplyOne(disk, Remove(STAGING_DIR));
      }
    case Moving(run, j, i) =>
      RecoverMoving(h, run, j, i, uri);
      RemoveOpsLength(Listing(h, run)[j..i]);
      if uri == run.uri { RecoverMovingPrefix(h, run, j, i, n); }
  }

  /** The disk after the first n effects of a run. */
  ghost function RunShape(h: Host, run: Run, disk: Disk, shape: Shape, n: nat): Shape
    requires n <= |RunOps(h, run, disk)|
  {
    var total := |Recover(h, run.uri, disk).ops|;
    if n <= total then RecoveryShape(shape, n, total)
    else if n < |RunOps(h, run, disk)| then SessionShape(h, run, n - total)
    else Cleaned(SessionShape(h, run, n - total - 1))
  }

  lemma SessionWhole(h: Host, run: Run)
    ensures |SessionOps(h, run)| > 1
    ensures Matches(h, ApplyAll(map[], SessionOps(h, run)), Cleaned(SessionShape(h, run, |SessionOps(h, run)| - 1)))
  {
    var ops := SessionOps(h, run);
    var n := |ops| - 1;
    assert ops == ops[..n] + [Remove(STAGING_DIR)];
    SessionPrefix(h, run, n);
    ApplyAllConcat(map[], ops[..n], [Remove(STAGING_DIR)]);
    ApplyOne(ApplyAll(map[], ops[..n]), Remove(STAGING_DIR));
    CleanupShape(h, ApplyAll(map[], ops[..n]), SessionShape(h, run, n));
  }

  /** The effects of a run that gets past its cache check. */
  lemma RunOpsSplit(h: Host, run: Run, disk: Disk, n: nat)
    requires |Recover(h, run.uri, disk).ops| < n <= |RunOps(h, run, disk)|
    ensures var total := |Recover(h, run.uri, disk).ops|;
            && Prepares(h, run.uri, disk)
            && |RunOps(h, run, disk)| == total + |SessionOps(h, run)|
            && ApplyAll(disk, RunOps(h, run, disk)[..n]) == ApplyAll(map[], SessionOps(h, run)[..n - total])
  {
    hide Recover, SessionOps, Misses, ApplyAll;
    var rec, session := Recover(h, run.uri, disk).ops, SessionOps(h, run);
    assert RunOps(h, run, disk) == rec + session;
    CutAfterRecovery(disk, rec, session, n);
  }

  lemma CutAfterRecovery(disk: Disk, rec: seq<Op>, session: seq<Op>, n: nat)
    requires ApplyAll(disk, rec) == map[] && |rec| < n <= |rec| + |session|
    ensures ApplyAll(disk, (rec + session)[..n]) == ApplyAll(map[], session[..n - |rec|])
  {
    hide ApplyAll;
    assert (rec + session)[..n] == rec + session[..n - |rec|];
    ApplyAllConcat(disk, rec, session[..n - |rec|]);
  }

  lemma RunPrefix(h: Host, run: Run, disk: Disk, shape: Shape, n: nat)
    requires Faithful(h) && Matches(h, disk, shape) && n <= |RunOps(h, run, disk)|
    ensures Matches(h, ApplyAll(disk, RunOps(h, run, disk)[..n]), RunShape(h, run, disk, shape, n))
  {
    hide Matches, Recover, SessionOps, SessionShape, Cleaned, Prepares, Misses, Faithful;
    var ops, total := RunOps(h, run, disk), |Recover(h, run.uri, disk).ops|;
    if n == 0 {
      assert ApplyAll(disk, ops[..0]) == disk;
    } else if n <= total {
      assert ops[..n] == Recover(h, run.uri, disk).ops[..n];
      RecoverPrefix(h, disk, shape, run.uri, n);
    } else {
      RunOpsSplit(h, run, disk, n);
      var session := SessionOps(h, run);
      if n < |ops| {
        SessionPrefix(h, run, n - total);
      } else {
        assert session[..n - total] == session;
        SessionWhole(h, run);
      }
    }
  }

  /** The shape a faulty run leaves. */
  ghost function StepShape(h: Host, run: Run, fault: Fault, disk: Disk, shape: Shape): Shape {
    var ops, total := RunOps(h, run, disk), |Recover(h, run.uri, disk).ops|;
    var n := match fault case NoFault => |ops| case Crash(k) => k case Error(k) => k;
    var kept := if n <= |ops| then n else |ops|;
    if fault.Error? && total < n < |ops| - 1 then Cleaned(SessionShape(h, run, n - total))
    else RunShape(h, run, disk, shape, kept)
  }

  /** A call that fails in a session, and the cleanup after it. */
  lemma ErrorMatches(h: Host, run: Run, disk: Disk, n: nat)
    requires |Recover(h, run.uri, disk).ops| < n < |RunOps(h, run, disk)| - 1
    ensures var total := |Recover(h, run.uri, disk).ops|;
            && |RunOps(h, run, disk)| == total + |SessionOps(h, run)|
            && Matches(h, ApplyAll(disk, RunOps(h, run, disk)[..n] + [Remove(STAGING_DIR)]),
                Cleaned(SessionShape(h, run, n - total)))
  {
    hide RunOps, Recover, SessionOps, Cleaned, ApplyAll, Apply, Matches, Prepares, FrontOps;
    var ops, total := RunOps(h, run, disk), |Recover(h, run.uri, disk).ops|;
    RunOpsSplit(h, run, disk, n);
    SessionPrefix(h, run, n - total);
    ApplyAllConcat(disk, ops[..n], [Remove(STAGING_DIR)]);
    ApplyOne(ApplyAll(disk, ops[..n]), Remove(STAGING_DIR));
    CleanupShape(h, ApplyAll(disk, ops[..n]), SessionShape(h, run, n - total));
  }

  lemma StepMatches(h: Host, run: Run, fault: Fault, disk: Disk, shape: Shape)
    requires Faithful(h) && Matches(h, disk, shape)
    ensures Matches(h, After(h, run, fault, disk), StepShape(h, run, fault, disk, shape))
  {
    hide RunOps, Recover, SessionOps, SessionShape, RunShape, Cleaned, ApplyAll, Faithful, Matches;
    var ops, total := RunOps(h, run, disk), |Recover(h, run.uri, disk).ops|;
    var n := match fault case NoFault => |ops| case Crash(k) => k case Error(k) => k;
    if fault.Error? && total < n < |ops| - 1 {
      ErrorMatches(h, run, disk, n);
    } else {
      assert ops[..|ops|] == ops;
      RunPrefix(h, run, disk, shape, if n <= |ops| then n else |ops|);
    }
  }

  ghost predicate HasRun(shape: Shape) {
    shape.Moving? || shape.Kept?
  }

  /** A step leaves its own payload or the one it found. */
  lemma StepProvenance(h: Host, run: Run, fault: Fault, disk: Disk, shape: Shape)
    ensures var next := StepShape(h, run, fault, disk, shape);
            HasRun(next) ==> next.run == run || (HasRun(shape) && next.run == shape.run)
  {
    hide RunOps, Recover, SessionOps, FrontOps;
  }

  // ---- Whole histories ------------------------------------------------------------------------

  ghost function ShapeAfter(h: Host, steps: seq<Step>): Shape
    decreases |steps|
  {
    if steps == [] then Empty else
      var before, last := steps[..|steps| - 1], steps[|steps| - 1];
      StepShape(h, last.run, last.fault, DiskAfter(h, before), ShapeAfter(h, before))
  }

  /** Every reachable disk has one of the four shapes, and its payload was staged by a run of the history. */
  lemma {:induction false} HistoryMatches(h: Host, steps: seq<Step>)
    requires Faithful(h)
    ensures Matches(h, DiskAfter(h, steps), ShapeAfter(h, steps))
    ensures HasRun(ShapeAfter(h, steps)) ==> exists k :: 0 <= k < |steps| && steps[k].run == ShapeAfter(h, steps).run
    decreases |steps|
  {
    if steps != [] {
      var before, last := steps[..|steps| - 1], steps[|steps| - 1];
      hide After, StepShape, Matches, Faithful;
      HistoryMatches(h, before);
      StepProvenance(h, last.run, last.fault, DiskAfter(h, before), ShapeAfter(h, before));
      StepMatches(h, last.run, last.fault, DiskAfter(h, before), ShapeAfter(h, before));
      var shape := ShapeAfter(h, steps);
      if HasRun(shape) && shape.run != last.run {
        var k :| 0 <= k < |before| && before[k].run == ShapeAfter(h, before).run;
        assert steps[k] == before[k];
      }
    }
  }
}
