/** Which cuts leave a destination that the next run for the same URI can take up again. */
module Recovery {
  import opened Names
  import opened Tree
  import opened Transaction
  import opened Moves
  import opened Shapes
  import opened History
  import opened Completeness
  import opened CacheHits
  import opened WholeCommits

  /** Pull writes none of the names the transaction keeps for itself beside the payload. */
  ghost predicate Tidy(run: Run) {
    && STATE_FILE !in run.payload && STATE_FILE !in run.partial
    && STAGING_DIR !in run.payload
  }

  ghost predicate DigestMatches(h: Host, uri: string, disk: Disk) {
    && LoadRecord(h, disk).Some? && LoadRecord(h, disk).value.subject == uri
    && !LoadRecord(h, disk).value.Verified() && LoadRecord(h, disk).value.contentIntegrityVerified
    && Digest(h, disk) == Some(LoadRecord(h, disk).value.contentDigest)
  }

  /** The next run for the URI either hits on the digest or reaches an empty destination and stages afresh. */
  ghost predicate Resumes(h: Host, uri: string, disk: Disk) {
    DigestMatches(h, uri, disk) || Prepares(h, uri, disk)
  }

  /** No checked run, for any URI, ever changes the disk again. */
  ghost predicate Stuck(h: Host, disk: Disk) {
    forall run: Run, fault: Fault :: !run.skipChecksum ==> After(h, run, fault, disk) == disk
  }

  // ---- The state file over the front of a session -----------------------------------------------------

  ghost predicate Claimed(h: Host, uri: string, disk: Disk) {
    OnlyStaging(disk) && ClaimedStage(h, uri, Staging(disk))
  }

  /** Effects that leave staging without a readable state. */
  predicate Breaking(op: Op) {
    op.MakeStaging? || op.TruncateState?
  }

  ghost predicate Claiming(h: Host, uri: string, op: Op) {
    && op.WriteState? && h.parseState(op.content).Some? && h.parseState(op.content).value.subject == uri
    && (h.parseState(op.content).value.phase == DOWNLOADING || h.parseState(op.content).value.phase == COMMITTING)
  }

  predicate Recording(op: Op) {
    op.MakeRecordDir? || op.TruncateRecord? || op.WriteRecord?
  }

  /** What an effect leaves: 0 no claim, 1 a claim, 2 a claim and no link at the record path. */
  function Level(op: Op): nat {
    if op.WriteState? then 1
    else if op.Fill? then (if RecordLink(op.contents).None? then 2 else 1)
    else if Recording(op) then 2
    else 0
  }

  ghost predicate Keeping(h: Host, uri: string, level: nat, op: Op) {
    (Recording(op) && level == 2) || (op.Fill? && ClaimedStage(h, uri, op.contents) && level > 0)
  }

  ghost predicate Allowed(h: Host, uri: string, level: nat, op: Op) {
    Breaking(op) || Claiming(h, uri, op) || Keeping(h, uri, level, op)
  }

  /** Every effect breaks the claim, makes one, or keeps the one that stands. */
  ghost predicate Disciplined(h: Host, uri: string, level: nat, ops: seq<Op>)
    decreases |ops|
  {
    ops == [] || (Allowed(h, uri, level, ops[0]) && Disciplined(h, uri, Level(ops[0]), ops[1..]))
  }

  function Standing(level: nat, ops: seq<Op>): nat {
    if ops == [] then level else Level(ops[|ops| - 1])
  }

  lemma {:induction false} DisciplinedConcat(h: Host, uri: string, level: nat, a: seq<Op>, b: seq<Op>)
    requires Disciplined(h, uri, level, a) && Disciplined(h, uri, Standing(level, a), b)
    ensures Disciplined(h, uri, level, a + b)
    decreases |a|
  {
    hide Allowed, Level;
    if a == [] {
      assert a + b == b;
    } else {
      assert (a + b)[1..] == a[1..] + b;
      DisciplinedConcat(h, uri, Level(a[0]), a[1..], b);
    }
  }

  lemma {:induction false} DisciplinedAt(h: Host, uri: string, level: nat, ops: seq<Op>, k: nat)
    requires k < |ops| && Disciplined(h, uri, level, ops)
    ensures Allowed(h, uri, Standing(level, ops[..k]), ops[k])
    decreases k
  {
    hide Allowed, Level;
    if k > 0 {
      DisciplinedAt(h, uri, Level(ops[0]), ops[1..], k - 1);
      assert ops[1..][..k - 1] == ops[1..k];
    }
  }

  lemma ClaimStep(h: Host, uri: string, stage: Disk, op: Op)
    requires Claiming(h, uri, op) || (op.Fill? && ClaimedStage(h, uri, op.contents))
          || (Recording(op) && ClaimedStage(h, uri, stage) && RecordLink(stage).None?)
    ensures ClaimedStage(h, uri, InStaging(stage, op))
    ensures Level(op) == 2 ==> RecordLink(InStaging(stage, op)).None?
  {
    assert RECORD_DIR != STATE_FILE by { assert |RECORD_DIR| != |STATE_FILE|; }
  }

  lemma BreakStep(h: Host, stage: Disk)
    requires Faithful(h)
    ensures LoadState(h, InStaging(stage, TruncateState)).None? && LoadState(h, map[]).None?
  {
  }

  /** A cut leaves a claimed stage exactly when its last effect did not break the claim. */
  lemma {:induction false} ClaimPrefix(h: Host, uri: string, ops: seq<Op>, n: nat)
    requires Faithful(h) && 0 < n <= |ops| && Disciplined(h, uri, 0, ops)
    requires ops[0] == MakeStaging && AllWithin(ops[1..])
    ensures OnlyStaging(ApplyAll(map[], ops[..n]))
    ensures !Breaking(ops[n - 1]) ==> Claimed(h, uri, ApplyAll(map[], ops[..n]))
    ensures Level(ops[n - 1]) == 2 ==> RecordLink(Staging(ApplyAll(map[], ops[..n]))).None?
    ensures Breaking(ops[n - 1]) ==> LoadState(h, Staging(ApplyAll(map[], ops[..n]))).None?
    decreases n
  {
    PrefixStaysStaging(ops, n);
    DisciplinedAt(h, uri, 0, ops, n - 1);
    hide ApplyAll, Faithful, LoadState, OnlyStaging, Disciplined, Claiming, RecordLink, InStaging;
    assert ops[..n] == ops[..n - 1] + [ops[n - 1]];
    var before := ApplyAll(map[], ops[..n - 1]);
    ApplyAllConcat(map[], ops[..n - 1], [ops[n - 1]]);
    ApplyOne(before, ops[n - 1]);
    if n > 1 {
      ClaimPrefix(h, uri, ops, n - 1);
      assert ops[1..][n - 2] == ops[n - 1];
      assert HasStaging(before) by { PlainStaging(before); }
      if Breaking(ops[n - 1]) {
        BreakStep(h, Staging(before));
      } else {
        assert ops[..n - 1][n - 2] == ops[n - 2];
        ClaimStep(h, uri, Staging(before), ops[n - 1]);
      }
    } else {
      BreakStep(h, map[]);
    }
  }

  lemma PlainStaging(disk: Disk)
    requires OnlyStaging(disk)
    ensures HasStaging(disk)
  {
  }

  lemma StateClaims(h: Host, uri: string, phase: string, files: seq<string>)
    requires Faithful(h) && (phase == DOWNLOADING || phase == COMMITTING)
    ensures Claiming(h, uri, WriteState(h.encodeState(StagingState(uri, phase, files))))
  {
  }

  lemma FillClaims(h: Host, uri: string, extra: Disk)
    requires Faithful(h) && STATE_FILE !in extra
    ensures Keeping(h, uri, 1, Fill(Opened(h, uri) + extra)) && Keeping(h, uri, 2, Fill(Opened(h, uri) + extra))
  {
    var stage := Opened(h, uri) + extra;
    assert stage[STATE_FILE] == StateEntry(h, StagingState(uri, DOWNLOADING, []));
  }

  lemma OpenDisciplined(h: Host, run: Run)
    requires Faithful(h) && Tidy(run) && OwnRecord(run)
    ensures Disciplined(h, run.uri, 0, OpenOps(h, run)) && Standing(0, OpenOps(h, run)) == 2
  {
    StateClaims(h, run.uri, DOWNLOADING, []);
    FillClaims(h, run.uri, run.partial);
    FillClaims(h, run.uri, run.payload);
    PulledLink(h, run);
    var ops := OpenOps(h, run);
    var mid := Level(ops[3]);
    assert Level(ops[2]) == 1 && (mid == 1 || mid == 2) && Level(ops[4]) == 2;
    assert Allowed(h, run.uri, 0, ops[0]) && Allowed(h, run.uri, 0, ops[1]) && Allowed(h, run.uri, 0, ops[2]);
    assert Allowed(h, run.uri, 1, ops[3]) && Allowed(h, run.uri, mid, ops[4]);
    hide Allowed, Faithful, OpenOps, Level;
    assert ops == [ops[0]] + [ops[1]] + [ops[2]] + [ops[3]] + [ops[4]];
    DisciplinedConcat(h, run.uri, 0, [ops[0]], [ops[1]]);
    DisciplinedConcat(h, run.uri, 0, [ops[0]] + [ops[1]], [ops[2]]);
    DisciplinedConcat(h, run.uri, 0, [ops[0]] + [ops[1]] + [ops[2]], [ops[3]]);
    DisciplinedConcat(h, run.uri, 0, [ops[0]] + [ops[1]] + [ops[2]] + [ops[3]], [ops[4]]);
  }

  lemma PulledLink(h: Host, run: Run)
    ensures RecordLink(Pulled(h, run)) == RecordLink(run.payload)
  {
    assert RECORD_DIR != STATE_FILE by { assert |RECORD_DIR| != |STATE_FILE|; }
  }

  lemma FrontDisciplined(h: Host, run: Run)
    requires Faithful(h) && Tidy(run) && OwnRecord(run)
    ensures Disciplined(h, run.uri, 0, FrontOps(h, run))
  {
    var open, record, publish := OpenOps(h, run), RecordOps(h, run), Take(PublishOps(h, run), 2);
    OpenDisciplined(h, run);
    RecordDisciplined(h, run);
    PublishDisciplined(h, run, Standing(0, open + record));
    hide Disciplined, Faithful, RecordOps, PublishOps, Opened, Pulled;
    DisciplinedConcat(h, run.uri, 0, open, record);
    DisciplinedConcat(h, run.uri, 0, open + record, publish);
  }

  lemma PublishDisciplined(h: Host, run: Run, level: nat)
    requires Faithful(h)
    ensures Disciplined(h, run.uri, level, Take(PublishOps(h, run), 2))
  {
    PublishSplit(h, run);
    if Published(h, run).Some? {
      StateClaims(h, run.uri, COMMITTING, Listing(h, run));
      var write := WriteState(CommitState(h, run).content);
      assert Take(PublishOps(h, run), 2) == [TruncateState] + [write];
      assert Allowed(h, run.uri, 0, write) && Allowed(h, run.uri, level, TruncateState);
      hide Claiming, Faithful, PublishOps, Published, Listing, Allowed;
      DisciplinedConcat(h, run.uri, level, [TruncateState], [write]);
    }
  }

  lemma RecordDisciplined(h: Host, run: Run)
    ensures Disciplined(h, run.uri, 2, RecordOps(h, run))
  {
    DisciplinedRecord(h, run.uri, if Assess(h, run).Some? then h.encodeRecord(Assess(h, run).value) else "");
    hide Disciplined, Assess, WithRecord, RecordDir;
  }

  lemma DisciplinedRecord(h: Host, uri: string, content: string)
    ensures Disciplined(h, uri, 2, []) && Disciplined(h, uri, 2, [MakeRecordDir])
    ensures Disciplined(h, uri, 2, [MakeRecordDir, TruncateRecord, WriteRecord(content)])
  {
    assert [MakeRecordDir, TruncateRecord, WriteRecord(content)] == [MakeRecordDir] + [TruncateRecord]
        + [WriteRecord(content)];
    assert Allowed(h, uri, 2, MakeRecordDir) && Allowed(h, uri, 2, TruncateRecord)
        && Allowed(h, uri, 2, WriteRecord(content));
    hide Allowed;
    DisciplinedConcat(h, uri, 2, [MakeRecordDir], [TruncateRecord]);
    DisciplinedConcat(h, uri, 2, [MakeRecordDir] + [TruncateRecord], [WriteRecord(content)]);
  }

  // ---- Disks that can be taken up again ----------------------------------------------------------------

  /** What uninterrupted recovery keeps true: the payload in transit is this URI's and nothing blocks its renames. */
  ghost predicate Good(h: Host, uri: string, disk: Disk, shape: Shape) {
    && Matches(h, disk, shape)
    && (shape.Staged? ==> Claimed(h, uri, disk))
    && (HasRun(shape) ==>
        shape.run.uri == uri && Checked(shape.run)
        && Movable(h, shape.run) == |Listing(h, shape.run)|)
    && (shape.Kept? ==> KeepsFiles(h, shape.run, shape.i))
  }

  /** The first i entries hold the record and every hashed file. */
  ghost predicate KeepsFiles(h: Host, run: Run, i: nat)
    requires Published(h, run).Some? && i <= |Listing(h, run)|
  {
    RECORD_DIR in Listing(h, run)[..i] && Slice(Published(h, run).value, Listing(h, run), i, |Listing(h, run)|) == []
  }

  lemma AllKept(h: Host, run: Run)
    requires WritesRecord(h, run) && OwnRecord(run)
    ensures KeepsFiles(h, run, |Listing(h, run)|)
  {
    var names := Listing(h, run);
    RecordListed(h, run);
    PublishedLists(h, run);
    hide Published, Listing;
    assert names[..|names|] == names && names[|names|..|names|] == [];
  }

  lemma ClaimedPrepares(h: Host, uri: string, disk: Disk)
    requires Claimed(h, uri, disk)
    ensures Prepares(h, uri, disk)
  {
    SortedOne(STAGING_DIR);
    var state := LoadState(h, Staging(disk)).value;
    assert ScanEntries([STAGING_DIR], state) == Recovery([Remove(STAGING_DIR)], true) by {
      assert [STAGING_DIR][1..] == [];
    }
    hide ScanEntries, Sorted, LoadState;
    ApplyOne(disk, Remove(STAGING_DIR));
  }

  lemma MovingPrepares(h: Host, run: Run, j: nat, i: nat)
    requires Faithful(h)
    requires Published(h, run).Some? && j <= i <= Movable(h, run) <= |Listing(h, run)|
    ensures Prepares(h, run.uri, MovingDisk(h, run, j, i))
  {
    hide Recover, MovingDisk, Published, Listing, Movable, ApplyAll, Faithful;
    RecoverMovingPrefix(h, run, j, i, i - j + 1);
    var ops := Recover(h, run.uri, MovingDisk(h, run, j, i)).ops;
    assert ops[..|ops|] == ops;
  }

  /** Every good disk resumes: by a digest hit, or by reaching an empty destination. */
  lemma GoodResumes(h: Host, uri: string, disk: Disk, shape: Shape)
    requires Faithful(h) && CollisionFree(h) && !IsOci(uri) && Good(h, uri, disk, shape)
    ensures Resumes(h, uri, disk)
  {
    hide DigestMatches, Prepares, Published, Listing, Movable, MovingDisk, KeptDisk, Checked, Faithful, CollisionFree;
    hide IsOci, Claimed, KeepsFiles;
    match shape
    case Empty => RecoverNothing(h, uri, disk);
    case Staged => ClaimedPrepares(h, uri, disk);
    case Moving(run, j, i) => MovingPrepares(h, run, j, i);
    case Kept(run, i) => FailedCommitExactly(h, run, i);
  }

  // ---- One cut --------------------------------------------------------------------------------------------

  lemma TidyMovable(h: Host, run: Run)
    requires WritesRecord(h, run) && OwnRecord(run) && Tidy(run)
    ensures Movable(h, run) == |Listing(h, run)|
  {
    PublishedForm(h, run);
    hide Published, RecordOf, Listing, RecordDir, OwnRecord;
    assert STAGING_DIR != STATE_FILE by { assert |STAGING_DIR| != |STATE_FILE|; }
    assert STAGING_DIR != RECORD_DIR by { assert |STAGING_DIR| != |RECORD_DIR|; }
    assert STAGING_DIR !in Published(h, run).value;
    RenameOpsShape(Listing(h, run));
  }

  lemma ListingNonempty(h: Host, run: Run)
    requires WritesRecord(h, run) && OwnRecord(run)
    ensures |Listing(h, run)| > 0
  {
    hide Published, Listing;
    RecordListed(h, run);
  }

  ghost predicate CutAt(h: Host, run: Run, n: nat)
    requires 0 < n <= |SessionOps(h, run)|
  {
    var disk := ApplyAll(map[], SessionOps(h, run)[..n]);
    var shape := if n < |SessionOps(h, run)| then SessionShape(h, run, n) else Cleaned(SessionShape(h, run, n - 1));
    if Breaking(SessionOps(h, run)[n - 1]) then OnlyStaging(disk) && LoadState(h, Staging(disk)).None?
    else Good(h, run.uri, disk, shape)
  }

  lemma PublishingFacts(h: Host, run: Run)
    requires Checked(run) && Tidy(run) && Published(h, run).Some?
    ensures Movable(h, run) == |Listing(h, run)| > 0 && |RenameOps(Listing(h, run))| == |Listing(h, run)|
    ensures forall t :: 0 <= t < |Listing(h, run)| ==> !Breaking(RenameOps(Listing(h, run))[t])
  {
    hide Published, Listing, Tidy, ProperDisk;
    TidyMovable(h, run);
    ListingNonempty(h, run);
    RenameOpsShape(Listing(h, run));
  }

  lemma FrontCut(h: Host, run: Run, n: nat)
    requires Faithful(h) && Checked(run) && Tidy(run) && 0 < n < |SessionOps(h, run)| && n <= |FrontOps(h, run)|
    ensures CutAt(h, run, n)
  {
    hide FrontOps, Published, Listing, SessionOps, ApplyAll, Tidy, ProperDisk, Faithful, LoadState, Claimed, Matches;
    hide OnlyStaging, RenameOps;
    SessionSplit(h, run);
    FrontWithin(h, run);
    FrontDisciplined(h, run);
    var ops, front := SessionOps(h, run), FrontOps(h, run);
    if Published(h, run).Some? { PublishingFacts(h, run); }
    SessionPrefix(h, run, n);
    assert ops[..n] == front[..n] && ops[n - 1] == front[n - 1];
    ClaimPrefix(h, run.uri, front, n);
  }

  lemma RenameCut(h: Host, run: Run, n: nat)
    requires Faithful(h) && Checked(run) && Tidy(run) && |FrontOps(h, run)| < n <= |SessionOps(h, run)|
    ensures CutAt(h, run, n)
  {
    hide FrontOps, Published, Listing, SessionOps, ApplyAll, Tidy, ProperDisk, Faithful, LoadState, Claimed, Matches;
    hide OnlyStaging, RenameOps, KeepsFiles;
    SessionSplit(h, run);
    FrontWithin(h, run);
    var ops, front := SessionOps(h, run), FrontOps(h, run);
    if Published(h, run).Some? { PublishingFacts(h, run); }
    if n < |ops| {
      SessionPrefix(h, run, n);
      assert ops[n - 1] == RenameOps(Listing(h, run))[n - 1 - |front|];
    } else {
      assert ops[..n] == ops && ops[n - 1] == Remove(STAGING_DIR);
      SessionWhole(h, run);
      if Published(h, run).Some? { AllKept(h, run); }
    }
  }

  /** After n effects of a session: claimable unless the last effect broke the claim, and then lost. */
  lemma SessionCut(h: Host, run: Run, n: nat)
    requires Faithful(h) && Checked(run) && Tidy(run) && 0 < n <= |SessionOps(h, run)|
    ensures CutAt(h, run, n)
  {
    hide CutAt, FrontOps, Published, Listing, Tidy, ProperDisk, Faithful;
    SessionSplit(h, run);
    if n <= |FrontOps(h, run)| { FrontCut(h, run, n); } else { RenameCut(h, run, n); }
  }

  lemma {:induction false} ScanOnlyRemoves(names: seq<string>, state: StagingState)
    ensures forall k :: 0 <= k < |ScanEntries(names, state).ops| ==> ScanEntries(names, state).ops[k].Remove?
  {
    if names != [] { ScanOnlyRemoves(names[1..], state); }
  }

  lemma RecoverOnlyRemoves(h: Host, uri: string, disk: Disk)
    ensures forall k :: 0 <= k < |Recover(h, uri, disk).ops| ==> Recover(h, uri, disk).ops[k].Remove?
  {
    hide ScanEntries, Sorted;
    if HasStaging(disk) && LoadState(h, Staging(disk)).Some? {
      ScanOnlyRemoves(Sorted(disk.Keys), LoadState(h, Staging(disk)).value);
    }
  }

  lemma RecoveryGood(h: Host, uri: string, disk: Disk, shape: Shape, n: nat)
    requires Faithful(h) && Good(h, uri, disk, shape) && n <= |Recover(h, uri, disk).ops|
    ensures Good(h, uri, ApplyAll(disk, Recover(h, uri, disk).ops[..n]),
        RecoveryShape(shape, n, |Recover(h, uri, disk).ops|))
  {
    hide Recover, Matches, Claimed, Published, Listing, Movable, Checked, Faithful, KeepsFiles;
    RecoverPrefix(h, disk, shape, uri, n);
    if n == 0 { assert Recover(h, uri, disk).ops[..0] == []; }
    if shape.Kept? && n > 0 { KeptRecoversNothing(h, uri, disk, shape); }
  }

  lemma KeptRecoversNothing(h: Host, uri: string, disk: Disk, shape: Shape)
    requires Matches(h, disk, shape) && shape.Kept?
    ensures Recover(h, uri, disk) == Recovery([], true) && !Prepares(h, uri, disk)
  {
    hide Published, Listing, Movable, Recover, Prepares;
    KeptHasNoStaging(h, shape.run, shape.i);
    RecoverNothing(h, uri, disk);
    assert disk != map[] by {
      var names := Listing(h, shape.run);
      assert names[0] in names[..shape.i] && names[0] in names;
      assert names[0] in disk;
    }
  }

  /** The disk after n effects of a run for the URI. */
  lemma RunCut(h: Host, run: Run, disk: Disk, shape: Shape, n: nat)
    requires Faithful(h) && Good(h, run.uri, disk, shape) && Checked(run) && Tidy(run) && n <= |RunOps(h, run, disk)|
    ensures var cut := ApplyAll(disk, RunOps(h, run, disk)[..n]);
            if n > 0 && Breaking(RunOps(h, run, disk)[n - 1])
            then OnlyStaging(cut) && LoadState(h, Staging(cut)).None?
            else Good(h, run.uri, cut, RunShape(h, run, disk, shape, n))
  {
    hide Good, Recover, SessionOps, SessionShape, Cleaned, Misses, Prepares, Faithful, Checked, Tidy, LoadState;
    hide OnlyStaging;
    var ops, rec := RunOps(h, run, disk), Recover(h, run.uri, disk).ops;
    if n == 0 {
      assert ops[..0] == [];
    } else if n <= |rec| {
      assert ops[..n] == rec[..n] && ops[n - 1] == rec[n - 1];
      RecoverOnlyRemoves(h, run.uri, disk);
      RecoveryGood(h, run.uri, disk, shape, n);
    } else {
      RunOpsSplit(h, run, disk, n);
      assert ops[n - 1] == SessionOps(h, run)[n - 1 - |rec|];
      SessionCut(h, run, n - |rec|);
    }
  }

  /** Staging without a readable state is refused by every later run. */
  lemma LostIsStuck(h: Host, disk: Disk)
    requires OnlyStaging(disk) && LoadState(h, Staging(disk)).None?
    ensures Stuck(h, disk) && forall uri :: !Resumes(h, uri, disk)
  {
    hide LoadState, SessionOps, Digest, Sorted;
    assert STAGING_DIR != RECORD_DIR by { assert |STAGING_DIR| != |RECORD_DIR|; }
    assert LoadRecord(h, disk) == None;
    forall uri ensures Recover(h, uri, disk) == Recovery([], false) { }
    forall run: Run, fault: Fault | !run.skipChecksum ensures After(h, run, fault, disk) == disk {
      assert RunOps(h, run, disk) == [];
    }
  }

  ghost predicate BrokenCut(h: Host, run: Run, disk: Disk, n: nat) {
    0 < n <= |RunOps(h, run, disk)| && Breaking(RunOps(h, run, disk)[n - 1])
  }

  /** Exactly which cuts can be taken up again, from any disk that such runs left; the others are final. */
  lemma CutResumesExactly(h: Host, run: Run, disk: Disk, shape: Shape, n: nat)
    requires Faithful(h) && CollisionFree(h) && Checked(run) && Tidy(run) && !IsOci(run.uri)
    requires Good(h, run.uri, disk, shape)
    ensures Resumes(h, run.uri, After(h, run, Crash(n), disk)) <==> !BrokenCut(h, run, disk, n)
    ensures BrokenCut(h, run, disk, n) ==> Stuck(h, After(h, run, Crash(n), disk))
  {
    hide Good, RunOps, Faithful, CollisionFree, Checked, Tidy, IsOci, Resumes, Stuck, ApplyAll, StepShape;
    CrashLeaves(h, run, disk, shape, n);
    var cut := After(h, run, Crash(n), disk);
    if BrokenCut(h, run, disk, n) {
      LostIsStuck(h, cut);
    } else {
      GoodResumes(h, run.uri, cut, StepShape(h, run, Crash(n), disk, shape));
    }
  }

  lemma CrashLeaves(h: Host, run: Run, disk: Disk, shape: Shape, n: nat)
    requires Faithful(h) && Checked(run) && Tidy(run) && Good(h, run.uri, disk, shape)
    ensures var cut := After(h, run, Crash(n), disk);
            if BrokenCut(h, run, disk, n) then OnlyStaging(cut) && LoadState(h, Staging(cut)).None?
            else Good(h, run.uri, cut, StepShape(h, run, Crash(n), disk, shape))
  {
    hide Good, RunOps, RunShape, Faithful, Checked, Tidy, LoadState, OnlyStaging, ApplyAll, Recover;
    var ops := RunOps(h, run, disk);
    assert ops[..|ops|] == ops;
    LastIsNotBreaking(h, run, disk);
    RunCut(h, run, disk, shape, if n <= |ops| then n else |ops|);
  }

  // ---- Every fault --------------------------------------------------------------------------------------

  /** The renames that happened before call n of a run failed and its cleanup ran. */
  ghost function RenamedAtError(h: Host, run: Run, disk: Disk, n: nat): nat {
    var ops, total := RunOps(h, run, disk), |Recover(h, run.uri, disk).ops|;
    if total + |FrontOps(h, run)| < n < |ops| - 1 then n - total - |FrontOps(h, run)| else 0
  }

  /**
   * The faults that later runs cannot take up: a lost state, or a commit that failed and dropped the record or a file.
   */
  ghost predicate Loses(h: Host, run: Run, disk: Disk, fault: Fault) {
    match fault
    case NoFault => false
    case Crash(n) => BrokenCut(h, run, disk, n)
    case Error(n) =>
      var t := RenamedAtError(h, run, disk, n);
      t > 0 && !(Published(h, run).Some? && t <= |Listing(h, run)| && KeepsFiles(h, run, t))
  }

  /** Before the last effect of a run, its effects never end in a broken claim. */
  lemma BeforeLastNotBreaking(h: Host, run: Run, disk: Disk)
    ensures var ops := RunOps(h, run, disk); |ops| > 1 ==> !Breaking(ops[|ops| - 2])
  {
    hide Recover, SessionOps, Misses, Prepares;
    var ops, rec := RunOps(h, run, disk), Recover(h, run.uri, disk).ops;
    RecoverOnlyRemoves(h, run.uri, disk);
    if |ops| > |rec| {
      SessionBeforeLast(h, run);
      assert ops == rec + SessionOps(h, run);
    }
  }

  lemma SessionBeforeLast(h: Host, run: Run)
    ensures |SessionOps(h, run)| > 1 && !Breaking(SessionOps(h, run)[|SessionOps(h, run)| - 2])
  {
    hide FrontOps, Published, Listing, RenameOps, SessionOps;
    SessionSplit(h, run);
    FrontEnds(h, run);
    if Published(h, run).Some? { RenameOpsShape(Listing(h, run)); }
  }

  lemma FrontEnds(h: Host, run: Run)
    ensures FrontOps(h, run) != [] && !Breaking(FrontOps(h, run)[|FrontOps(h, run)| - 1])
  {
    hide Published, Listing, RenameOps, Assess, WithRecord, RecordDir, Pulled, Opened;
    PublishSplit(h, run);
  }

  /** What a failed call leaves: a disk that can be taken up, or the entries renamed so far. */
  lemma ErrorLeaves(h: Host, run: Run, disk: Disk, shape: Shape, n: nat)
    requires Faithful(h) && Checked(run) && Tidy(run) && Good(h, run.uri, disk, shape)
    ensures var after, t := After(h, run, Error(n), disk), RenamedAtError(h, run, disk, n);
            if t == 0 then Good(h, run.uri, after, StepShape(h, run, Error(n), disk, shape))
            else
              && Published(h, run).Some? && 0 < t <= Movable(h, run) == |Listing(h, run)|
              && after == KeptDisk(h, run, t) && StepShape(h, run, Error(n), disk, shape) == Kept(run, t)
  {
    hide RunOps, RunShape, Faithful, Tidy, LoadState, OnlyStaging, ApplyAll, Recover, SessionOps, FrontOps, Published;
    hide Listing, Movable, KeptDisk, MovingDisk, ProperDisk, OwnRecord, KeepsFiles;
    var ops, total := RunOps(h, run, disk), |Recover(h, run.uri, disk).ops|;
    if total < n < |ops| - 1 {
      StepMatches(h, run, Error(n), disk, shape);
      RunOpsSplit(h, run, disk, n);
      if Published(h, run).Some? { PublishingFacts(h, run); }
    } else {
      hide Good;
      var kept := if n <= |ops| then n else |ops|;
      assert ops[..|ops|] == ops;
      LastIsNotBreaking(h, run, disk);
      BeforeLastNotBreaking(h, run, disk);
      if 0 < kept <= total { RecoverOnlyRemoves(h, run.uri, disk); RecoveryFirst(h, run, disk, kept); }
      RunCut(h, run, disk, shape, kept);
    }
  }

  lemma RecoveryFirst(h: Host, run: Run, disk: Disk, n: nat)
    requires 0 < n <= |Recover(h, run.uri, disk).ops| && n <= |RunOps(h, run, disk)|
    ensures RunOps(h, run, disk)[n - 1] == Recover(h, run.uri, disk).ops[n - 1]
  {
    hide Recover, SessionOps, Misses, Prepares;
  }

  /** For every fault: the next run resumes exactly when the fault loses nothing, and otherwise no run ever does. */
  lemma FaultResumesExactly(h: Host, run: Run, disk: Disk, shape: Shape, fault: Fault)
    requires Faithful(h) && CollisionFree(h) && Checked(run) && Tidy(run) && !IsOci(run.uri)
    requires Good(h, run.uri, disk, shape)
    ensures Resumes(h, run.uri, After(h, run, fault, disk)) <==> !Loses(h, run, disk, fault)
    ensures Loses(h, run, disk, fault) ==> Stuck(h, After(h, run, fault, disk))
    ensures !Loses(h, run, disk, fault) ==>
              Good(h, run.uri, After(h, run, fault, disk), StepShape(h, run, fault, disk, shape))
  {
    hide RunOps, RunShape, Faithful, CollisionFree, Tidy, IsOci, Resumes, Stuck, After, StepShape, Recover, FrontOps;
    hide Published, Listing, Movable, KeptDisk, KeepsFiles, ProperDisk, OwnRecord, RenamedAtError, BrokenCut, LoadState;
    hide OnlyStaging;
    var after, next := After(h, run, fault, disk), StepShape(h, run, fault, disk, shape);
    match fault
    case NoFault =>
      NoFaultLeaves(h, run, disk, shape);
      GoodResumes(h, run.uri, after, next);
    case Crash(n) =>
      CrashLeaves(h, run, disk, shape, n);
      CutResumesExactly(h, run, disk, shape, n);
    case Error(n) =>
      ErrorLeaves(h, run, disk, shape, n);
      var t := RenamedAtError(h, run, disk, n);
      if t == 0 { GoodResumes(h, run.uri, after, next); } else { FailedCommitExactly(h, run, t); }
  }

  lemma NoFaultLeaves(h: Host, run: Run, disk: Disk, shape: Shape)
    requires Faithful(h) && Checked(run) && Tidy(run) && Good(h, run.uri, disk, shape)
    ensures Good(h, run.uri, After(h, run, NoFault, disk), StepShape(h, run, NoFault, disk, shape))
  {
    hide Good, RunOps, RunShape, Faithful, Checked, Tidy, ApplyAll, Recover;
    var ops := RunOps(h, run, disk);
    assert ops[..|ops|] == ops;
    LastIsNotBreaking(h, run, disk);
    RunCut(h, run, disk, shape, |ops|);
  }

  /** A run that is not cut ends in a removal. */
  lemma LastIsNotBreaking(h: Host, run: Run, disk: Disk)
    ensures var ops := RunOps(h, run, disk); ops != [] ==> !Breaking(ops[|ops| - 1])
  {
    hide Recover, SessionOps, Misses, Prepares;
    var ops, rec := RunOps(h, run, disk), Recover(h, run.uri, disk).ops;
    if |ops| > |rec| {
      LastIsCleanup(h, run, disk);
    } else if ops != [] {
      RecoverOnlyRemoves(h, run.uri, disk);
      assert ops == rec;
    }
  }

  // ---- Whole histories for one URI --------------------------------------------------------------------------

  ghost predicate ForUri(uri: string, steps: seq<Step>) {
    forall k :: 0 <= k < |steps| ==> steps[k].run.uri == uri && Checked(steps[k].run) && Tidy(steps[k].run)
  }

  ghost predicate Surviving(h: Host, steps: seq<Step>) {
    forall k :: 0 <= k < |steps| ==> !Loses(h, steps[k].run, DiskAfter(h, steps[..k]), steps[k].fault)
  }

  lemma SurvivingLast(h: Host, steps: seq<Step>)
    requires steps != []
    ensures var before, last := steps[..|steps| - 1], steps[|steps| - 1];
            Surviving(h, steps) <==> Surviving(h, before) && !Loses(h, last.run, DiskAfter(h, before), last.fault)
  {
    hide DiskAfter, Loses;
    var before := steps[..|steps| - 1];
    assert forall k :: 0 <= k < |before| ==> before[..k] == steps[..k] && before[k] == steps[k];
  }

  lemma {:induction false} HistoryKept(h: Host, uri: string, steps: seq<Step>)
    requires Faithful(h) && CollisionFree(h) && !IsOci(uri) && ForUri(uri, steps)
    ensures if Surviving(h, steps) then Good(h, uri, DiskAfter(h, steps), ShapeAfter(h, steps))
            else Stuck(h, DiskAfter(h, steps)) && !Resumes(h, uri, DiskAfter(h, steps))
    decreases |steps|
  {
    hide After, StepShape, Faithful, CollisionFree, IsOci, Loses, Resumes, Checked, Tidy;
    if steps == [] {
      assert Good(h, uri, map[], Empty);
    } else {
      hide Good, Surviving;
      var before, last := steps[..|steps| - 1], steps[|steps| - 1];
      SurvivingLast(h, steps);
      HistoryKept(h, uri, before);
      if Surviving(h, before) {
        FaultResumesExactly(h, last.run, DiskAfter(h, before), ShapeAfter(h, before), last.fault);
      } else {
        assert !last.run.skipChecksum by { CheckedSkipsNothing(last.run); }
      }
    }
  }

  lemma CheckedSkipsNothing(run: Run)
    requires Checked(run)
    ensures !run.skipChecksum
  {
  }

  /**
   * However often runs for one URI are cut or fail, recovery included: the next one resumes exactly if no fault lost
   * anything.
   */
  lemma HistoryResumes(h: Host, uri: string, steps: seq<Step>)
    requires Faithful(h) && CollisionFree(h) && !IsOci(uri) && ForUri(uri, steps)
    ensures Resumes(h, uri, DiskAfter(h, steps)) <==> Surviving(h, steps)
  {
    hide Good, Surviving, DiskAfter, ShapeAfter, Faithful, CollisionFree, IsOci, Resumes, ForUri, Stuck;
    HistoryKept(h, uri, steps);
    if Surviving(h, steps) { GoodResumes(h, uri, DiskAfter(h, steps), ShapeAfter(h, steps)); }
  }

  // ---- A commit that fails instead of crashing -----------------------------------------------------------------

  /** An error after t renames runs the cleanup, which throws the rest of the payload away. */
  lemma ErrorDuringCommit(h: Host, run: Run, t: nat)
    requires Misses(h, run, map[]) && Published(h, run).Some? && t < Movable(h, run)
    ensures Movable(h, run) <= |Listing(h, run)|
    ensures After(h, run, Error(|FrontOps(h, run)| + t), map[]) == KeptDisk(h, run, t)
  {
    hide FrontOps, Published, Listing, RenameOps, SessionOps, ApplyAll, Misses, Halfway, Set, CommitState;
    RecoverNothing(h, run.uri, map[]);
    SessionSplit(h, run);
    FrontWithin(h, run);
    RenamesPrefix(h, run, t);
    MovableNames(h, run, 0, t);
    var ops, cut := RunOps(h, run, map[]), FrontOps(h, run) + RenameOps(Listing(h, run))[..t];
    assert ops == SessionOps(h, run);
    assert ops[..|FrontOps(h, run)| + t] == cut;
    ApplyAllConcat(map[], cut, [Remove(STAGING_DIR)]);
    ApplyOne(MovingDisk(h, run, 0, t), Remove(STAGING_DIR));
    DropStaging(Published(h, run).value, Listing(h, run), CommitState(h, run), t);
  }

  /** What a failed commit left is final for every run, and resumes only if no hashed file was thrown away. */
  lemma FailedCommitExactly(h: Host, run: Run, t: nat)
    requires Faithful(h) && CollisionFree(h) && Checked(run) && !IsOci(run.uri)
    requires Published(h, run).Some? && 0 < t <= Movable(h, run) <= |Listing(h, run)|
    ensures Stuck(h, KeptDisk(h, run, t))
    ensures Resumes(h, run.uri, KeptDisk(h, run, t)) <==> KeepsFiles(h, run, t)
  {
    hide Published, Listing, Movable, Files, Digest, RecordOf, Faithful, CollisionFree, PulledFiles, Prepares, Recover;
    hide SessionOps, IsOci, Slice, ProperDisk;
    var disk, shape := KeptDisk(h, run, t), Kept(run, t);
    var all, names := Published(h, run).value, Listing(h, run);
    forall other: Run, fault: Fault | !other.skipChecksum ensures After(h, other, fault, disk) == disk {
      KeptRecoversNothing(h, other.uri, disk, shape);
    }
    KeptRecoversNothing(h, run.uri, disk, shape);
    KeptHasNoStaging(h, run, t);
    assert disk - {STAGING_DIR} == disk;
    PublishedLists(h, run);
    PublishedFiles(h, run);
    RecordFacts(h, run);
    VerifiedExactlyOci(h, run);
    WholeFiles(all, names);
    SliceSplit(all, names, 0, t, |names|);
    assert names[0..t] == names[..t];
    RestrictFiles(all, names, 0, t);
    if RECORD_DIR in names[..t] {
      RecordListed(h, run);
      PublishedRecord(h, run, disk);
      ShapeExact(h, disk, shape);
    }
  }

  // ---- A run that completes ------------------------------------------------------------------------------------

  /** A run that is not cut leaves exactly what it pulled, and the next run for its URI answers with its record. */
  lemma CompletedRunHits(h: Host, run: Run, disk: Disk)
    requires Faithful(h) && CollisionFree(h) && Checked(run) && Tidy(run) && Published(h, run).Some?
    requires Misses(h, run, disk) && Prepares(h, run.uri, disk)
    ensures var after := After(h, run, NoFault, disk);
            && after == KeptDisk(h, run, |Listing(h, run)|) && Holds(h, after, run)
            && CheckCache(h, run, after) == (if IsOci(run.uri) then VerifiedHit(RecordOf(h, run))
                else DigestHit(RecordOf(h, run)))
  {
    hide Published, Listing, RenameOps, SessionOps, FrontOps, ApplyAll, Recover, KeptDisk, Digest, RecordOf, LoadRecord;
    hide Faithful, CollisionFree, IsOci, ProperDisk, Tidy, Prepares;
    var ops, n, m := RunOps(h, run, disk), |Listing(h, run)|, |SessionOps(h, run)|;
    TidyMovable(h, run);
    ListingNonempty(h, run);
    SessionWhole(h, run);
    SessionSplit(h, run);
    FrontWithin(h, run);
    RunOpsSplit(h, run, disk, |ops|);
    assert ops[..|ops|] == ops && SessionOps(h, run)[..m] == SessionOps(h, run);
    var after, shape := After(h, run, NoFault, disk), Kept(run, n);
    assert Matches(h, after, shape) && Whole(h, shape);
    WholeHolds(h, after, shape);
    WholeRecord(h, after, shape);
    ShapeExact(h, after, shape);
    RecordFacts(h, run);
    VerifiedExactlyOci(h, run);
  }
}
