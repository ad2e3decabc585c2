/** Histories in which no commit is cut short or fails: there every hit, trusted or digested, is complete. */
module WholeCommits {
  import opened Names
  import opened Tree
  import opened Transaction
  import opened Moves
  import opened Shapes
  import opened History
  import opened Completeness
  import opened CacheHits

  ghost predicate Whole(h: Host, shape: Shape) {
    HasRun(shape) ==>
      && Published(h, shape.run).Some? && shape.i == |Listing(h, shape.run)|
      && (shape.Moving? ==> shape.j == 0)
  }

  ghost function StepEffects(h: Host, step: Step, disk: Disk): seq<Op> {
    Effects(RunOps(h, step.run, disk), |Recover(h, step.run.uri, disk).ops|, step.fault)
  }

  /** Once a step has renamed one entry it goes on to rename every entry it staged. */
  ghost predicate UncutCommit(h: Host, step: Step, disk: Disk) {
    (exists n :: Rename(n) in StepEffects(h, step, disk)) ==>
      && Published(h, step.run).Some?
      && forall n :: n in Listing(h, step.run) ==> Rename(n) in StepEffects(h, step, disk)
  }

  ghost predicate UncutHistory(h: Host, steps: seq<Step>) {
    forall k :: 0 <= k < |steps| ==> UncutCommit(h, steps[k], DiskAfter(h, steps[..k]))
  }

  // ---- Which names a prefix of a session renames -----------------------------------------------------------

  lemma {:induction false} RecoveryNeverRenames(names: seq<string>, state: StagingState)
    ensures forall n :: Rename(n) !in ScanEntries(names, state).ops
  {
    if names != [] { RecoveryNeverRenames(names[1..], state); }
  }

  lemma RecoverNeverRenames(h: Host, uri: string, disk: Disk)
    ensures forall n :: Rename(n) !in Recover(h, uri, disk).ops
  {
    hide ScanEntries, Sorted;
    if HasStaging(disk) && LoadState(h, Staging(disk)).Some? {
      RecoveryNeverRenames(Sorted(disk.Keys), LoadState(h, Staging(disk)).value);
    }
  }

  lemma FrontNeverRenames(h: Host, run: Run)
    ensures forall n :: Rename(n) !in FrontOps(h, run)
  {
    hide FrontOps;
    FrontWithin(h, run);
    var front := FrontOps(h, run);
    forall k | 0 <= k < |front| ensures !front[k].Rename? {
      if k > 0 { assert front[1..][k - 1] == front[k]; }
    }
  }

  /** The renames among the first n effects of a session are the first entries of the listing. */
  lemma SessionRenames(h: Host, run: Run, n: nat, name: string)
    requires n < |SessionOps(h, run)| && Rename(name) in SessionOps(h, run)[..n]
    ensures Published(h, run).Some? && |FrontOps(h, run)| < n <= |FrontOps(h, run)| + Movable(h, run)
    ensures Movable(h, run) <= |Listing(h, run)| && name in Listing(h, run)[..n - |FrontOps(h, run)|]
  {
    hide FrontOps, Published, Listing, RenameOps, SessionOps;
    SessionSplit(h, run);
    FrontNeverRenames(h, run);
    var front, ops := FrontOps(h, run), SessionOps(h, run);
    var k :| 0 <= k < n && ops[k] == Rename(name);
    assert forall t :: 0 <= t < |front| ==> ops[t] == front[t] && front[t] in front;
    assert k >= |front|;
    if Published(h, run).Some? {
      RenameOpsShape(Listing(h, run));
      assert ops[k] == RenameOps(Listing(h, run))[k - |front|];
      assert Listing(h, run)[..n - |front|][k - |front|] == name;
    }
  }

  lemma FirstRename(h: Host, run: Run, n: nat)
    requires |FrontOps(h, run)| < n < |SessionOps(h, run)|
    ensures exists name :: Rename(name) in SessionOps(h, run)[..n]
  {
    hide FrontOps, Published, Listing, RenameOps, SessionOps;
    SessionSplit(h, run);
    RenameOpsShape(Listing(h, run));
    var ops, front := SessionOps(h, run)[..n], |FrontOps(h, run)|;
    assert ops[front] == Rename(Listing(h, run)[0]);
  }

  lemma LastNameLast(names: seq<string>, t: nat)
    requires Ascending(names) && names != [] && t <= |names| && names[|names| - 1] in names[..t]
    ensures t == |names|
  {
    LessIrreflexive(names[|names| - 1]);
  }

  // ---- One step -----------------------------------------------------------------------------------------------

  /** A session that renames everything once it renames anything ends whole. */
  lemma SessionWholeShape(h: Host, run: Run, n: nat)
    requires n < |SessionOps(h, run)|
    requires (exists m :: Rename(m) in SessionOps(h, run)[..n]) ==>
               Published(h, run).Some? && forall m :: m in Listing(h, run) ==> Rename(m) in SessionOps(h, run)[..n]
    ensures Whole(h, SessionShape(h, run, n)) && Whole(h, Cleaned(SessionShape(h, run, n)))
  {
    hide FrontOps, Published, Listing, RenameOps, SessionOps;
    if n > |FrontOps(h, run)| {
      FirstRename(h, run, n);
      var m :| Rename(m) in SessionOps(h, run)[..n];
      SessionRenames(h, run, n, m);
      var names := Listing(h, run);
      assert names[|names| - 1] in names;
      SessionRenames(h, run, n, names[|names| - 1]);
      LastNameLast(names, n - |FrontOps(h, run)|);
    }
  }

  lemma WholeHolds(h: Host, disk: Disk, shape: Shape)
    requires Matches(h, disk, shape) && Whole(h, shape) && HasRun(shape) && Checked(shape.run)
    ensures Holds(h, disk, shape.run) && RECORD_DIR in disk && disk != map[] && WritesRecord(h, shape.run)
  {
    hide Files, Published, Listing, Movable, CommitState, PulledFiles, ProperDisk, Clean;
    var run := shape.run;
    var all, names := Published(h, run).value, Listing(h, run);
    PublishedLists(h, run);
    PublishedFiles(h, run);
    RecordListed(h, run);
    WholeFiles(all, names);
    MovableNames(h, run, 0, shape.i);
    assert names[0..|names|] == names && names[..|names|] == names;
    RestrictFiles(all, names, 0, |names|);
    if shape.Kept? {
      KeptHasNoStaging(h, run, shape.i);
      assert disk - {STAGING_DIR} == disk;
    } else {
      PublishedProper(h, run);
      HalfwayWithoutStaging(all, names, CommitState(h, run), 0, |names|);
      HalfwayDigest(all, names, CommitState(h, run), 0, |names|) by { StateIsFile(h, run); }
    }
  }

  /** What a whole commit left is never touched again: its own URI hits, any other is refused. */
  lemma WholeIsFinal(h: Host, run: Run, disk: Disk, shape: Shape)
    requires Faithful(h) && CollisionFree(h) && Matches(h, disk, shape) && Whole(h, shape)
    requires HasRun(shape) && Checked(shape.run) && Checked(run)
    ensures RunOps(h, run, disk) == []
    ensures SchemeOf(run.uri).Some? && run.clientFound && run.uri == shape.run.uri ==> !CheckCache(h, run, disk).Miss?
  {
    hide Files, Published, Listing, Movable, PulledFiles, Digest, RecordOf, SessionOps, ApplyAll, Recover, MovingDisk;
    hide KeptDisk, ProperDisk, LoadRecord;
    WholeHolds(h, disk, shape);
    var writer := shape.run;
    assert LoadRecord(h, disk) == Some(RecordOf(h, writer)) by { WholeRecord(h, disk, shape); }
    ShapeExact(h, disk, shape);
    RecordFacts(h, writer);
    match shape
    case Moving(r, j, i) => RecoverMoving(h, r, j, i, run.uri);
    case Kept(r, i) =>
      KeptHasNoStaging(h, r, i);
      RecoverNothing(h, run.uri, disk);
  }

  lemma WholeRecord(h: Host, disk: Disk, shape: Shape)
    requires Faithful(h) && Matches(h, disk, shape) && Whole(h, shape) && HasRun(shape) && Checked(shape.run)
    ensures LoadRecord(h, disk) == Some(RecordOf(h, shape.run))
  {
    hide Published, Listing, Movable, CommitState, RecordOf, LoadRecord, ProperDisk;
    var run := shape.run;
    var all, names := Published(h, run).value, Listing(h, run);
    RecordListed(h, run);
    assert names[0..|names|] == names && names[..|names|] == names;
    assert STAGING_DIR != RECORD_DIR by { assert |RECORD_DIR| != |STAGING_DIR|; }
    assert RECORD_DIR in disk && disk[RECORD_DIR] == all[RECORD_DIR];
    PublishedRecord(h, run, disk);
  }

  lemma EffectsFromEmpty(h: Host, step: Step, disk: Disk, n: nat)
    requires |Recover(h, step.run.uri, disk).ops| < n < |RunOps(h, step.run, disk)|
    requires UncutCommit(h, step, disk)
    requires forall m :: Rename(m) in StepEffects(h, step, disk) <==> Rename(m) in RunOps(h, step.run, disk)[..n]
    ensures Whole(h, SessionShape(h, step.run, n - |Recover(h, step.run.uri, disk).ops|))
    ensures Whole(h, Cleaned(SessionShape(h, step.run, n - |Recover(h, step.run.uri, disk).ops|)))
  {
    hide Published, Listing, SessionOps, Recover, SessionShape, Cleaned, StepEffects, Whole, Misses, Prepares;
    var run := step.run;
    var rec, session := Recover(h, run.uri, disk).ops, SessionOps(h, run);
    RecoverNeverRenames(h, run.uri, disk);
    assert RunOps(h, run, disk)[..n] == rec + session[..n - |rec|];
    assert forall m :: Rename(m) in rec + session[..n - |rec|] <==> Rename(m) in session[..n - |rec|];
    SessionWholeShape(h, run, n - |rec|);
  }

  lemma StepWhole(h: Host, step: Step, disk: Disk, shape: Shape)
    requires Faithful(h) && CollisionFree(h) && Matches(h, disk, shape) && Whole(h, shape)
    requires HasRun(shape) ==> Checked(shape.run)
    requires Checked(step.run) && UncutCommit(h, step, disk)
    ensures Whole(h, StepShape(h, step.run, step.fault, disk, shape))
  {
    hide Matches, Whole, RunOps, Recover, SessionOps, SessionShape, Cleaned, UncutCommit, Checked, Faithful;
    hide CollisionFree;
    var run, fault := step.run, step.fault;
    var ops, total := RunOps(h, run, disk), |Recover(h, run.uri, disk).ops|;
    if HasRun(shape) {
      WholeIsFinal(h, run, disk, shape);
    } else {
      assert Whole(h, Empty) && Whole(h, Staged) by { PlainWhole(h); }
      var n := match fault case NoFault => |ops| case Crash(k) => k case Error(k) => k;
      var kept := if n <= |ops| then n else |ops|;
      if total < kept {
        RunOpsSplit(h, run, disk, kept);
        SessionWhole(h, run);
        var last := if kept == |ops| then kept - 1 else kept;
        assert ops[..|ops|] == ops;
        SameRenames(h, step, disk, kept, last);
        EffectsFromEmpty(h, step, disk, last);
      }
    }
  }

  lemma PlainWhole(h: Host)
    ensures Whole(h, Empty) && Whole(h, Staged)
  {
  }

  lemma LastIsCleanup(h: Host, run: Run, disk: Disk)
    requires |Recover(h, run.uri, disk).ops| < |RunOps(h, run, disk)|
    ensures RunOps(h, run, disk)[|RunOps(h, run, disk)| - 1] == Remove(STAGING_DIR)
  {
    hide Recover, OpenOps, RecordOps, PublishOps, Misses, Prepares;
  }

  /** The deferred cleanup renames nothing, so it does not matter whether it happened. */
  lemma SameRenames(h: Host, step: Step, disk: Disk, kept: nat, last: nat)
    requires var ops := RunOps(h, step.run, disk);
             && |Recover(h, step.run.uri, disk).ops| < kept <= |ops|
             && last == (if kept == |ops| then kept - 1 else kept)
             && kept == match step.fault
                  case NoFault => |ops|
                  case Crash(k) => if k <= |ops| then k else |ops|
                  case Error(k) => if k <= |ops| then k else |ops|
    ensures forall m :: Rename(m) in StepEffects(h, step, disk) <==> Rename(m) in RunOps(h, step.run, disk)[..last]
  {
    hide RunOps, Recover;
    var ops, effects := RunOps(h, step.run, disk), StepEffects(h, step, disk);
    LastIsCleanup(h, step.run, disk);
    assert ops == ops[..|ops| - 1] + [Remove(STAGING_DIR)];
    assert effects == ops[..last] || effects == ops[..last] + [Remove(STAGING_DIR)];
  }

  // ---- Whole histories --------------------------------------------------------------------------------------------

  lemma UncutLast(h: Host, steps: seq<Step>)
    requires steps != [] && AllChecked(steps) && UncutHistory(h, steps)
    ensures var before, last := steps[..|steps| - 1], steps[|steps| - 1];
            && AllChecked(before) && UncutHistory(h, before) && Checked(last.run)
                && UncutCommit(h, last, DiskAfter(h, before))
  {
    hide DiskAfter, UncutCommit, Checked;
    var before := steps[..|steps| - 1];
    assert forall k :: 0 <= k < |before| ==> before[..k] == steps[..k] && before[k] == steps[k];
  }

  lemma ShapeChecked(h: Host, steps: seq<Step>)
    requires Faithful(h) && AllChecked(steps) && HasRun(ShapeAfter(h, steps))
    ensures Checked(ShapeAfter(h, steps).run)
  {
    hide DiskAfter, ShapeAfter, Matches, Checked, Faithful;
    HistoryMatches(h, steps);
    var k :| 0 <= k < |steps| && steps[k].run == ShapeAfter(h, steps).run;
  }

  lemma {:induction false} HistoryWhole(h: Host, steps: seq<Step>)
    requires Faithful(h) && CollisionFree(h) && AllChecked(steps) && UncutHistory(h, steps)
    ensures Whole(h, ShapeAfter(h, steps))
    decreases |steps|
  {
    hide Matches, Whole, StepShape, DiskAfter, UncutCommit, UncutHistory, AllChecked, Checked, Faithful, CollisionFree;
    if steps == [] {
      PlainWhole(h);
    } else {
      var before, last := steps[..|steps| - 1], steps[|steps| - 1];
      UncutLast(h, steps);
      HistoryWhole(h, before);
      HistoryMatches(h, before);
      if HasRun(ShapeAfter(h, before)) { ShapeChecked(h, before); }
      StepWhole(h, last, DiskAfter(h, before), ShapeAfter(h, before));
    }
  }

  /** With no commit cut short, a hit of either branch is a hit on a complete payload for its URI. */
  lemma EveryHitIsComplete(h: Host, steps: seq<Step>, run: Run) returns (k: int)
    requires Faithful(h) && CollisionFree(h) && AllChecked(steps) && UncutHistory(h, steps)
    requires CheckCache(h, run, DiskAfter(h, steps)).VerifiedHit? || CheckCache(h, run, DiskAfter(h, steps)).DigestHit?
    ensures 0 <= k < |steps| && steps[k].run.uri == run.uri
    ensures Holds(h, DiskAfter(h, steps), steps[k].run)
  {
    hide Matches, Whole, DiskAfter, ShapeAfter, LoadRecord, RecordOf, Digest, Holds, WritesRecord, Checked, Faithful;
    hide CollisionFree, UncutHistory;
    var disk, shape := DiskAfter(h, steps), ShapeAfter(h, steps);
    HistoryMatches(h, steps);
    HistoryWhole(h, steps);
    assert HasRun(shape) ==> Checked(shape.run);
    ShapeExact(h, disk, shape);
    RecordFacts(h, shape.run);
    WholeHolds(h, disk, shape);
    k :| 0 <= k < |steps| && steps[k].run == shape.run;
  }
}
