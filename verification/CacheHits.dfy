/** When a run may answer from what an earlier, possibly interrupted, history left behind. */
module CacheHits {
  import opened Names
  import opened Tree
  import opened Transaction
  import opened Moves
  import opened Shapes
  import opened History
  import opened Completeness

  ghost predicate AllChecked(steps: seq<Step>) {
    forall k :: 0 <= k < |steps| ==> Checked(steps[k].run)
  }

  /** The destination holds exactly the hashed files the run pulled, and none of them in staging. */
  ghost predicate Holds(h: Host, disk: Disk, run: Run) {
    Files(disk) == PulledFiles(h, run) && Files(disk - {STAGING_DIR}) == PulledFiles(h, run)
  }

  /** A record found after any history names the step that wrote it, and its digest tells completeness. */
  ghost predicate Explains(h: Host, steps: seq<Step>, k: int, r: Record) {
    && 0 <= k < |steps| && WritesRecord(h, steps[k].run)
    && r == RecordOf(h, steps[k].run) && steps[k].run.uri == r.subject
    && (Digest(h, DiskAfter(h, steps)) == Some(r.contentDigest) <==> Holds(h, DiskAfter(h, steps), steps[k].run))
  }

  /** For every history of checked runs, each cut anywhere: the digest matches exactly on a complete payload. */
  lemma RecordExact(h: Host, steps: seq<Step>) returns (k: int)
    requires Faithful(h) && CollisionFree(h) && AllChecked(steps)
    requires LoadRecord(h, DiskAfter(h, steps)).Some?
    ensures Explains(h, steps, k, LoadRecord(h, DiskAfter(h, steps)).value)
  {
    hide Matches, DiskAfter, ShapeAfter, LoadRecord, RecordOf, Digest, Files, PulledFiles, Published, Faithful;
    hide CollisionFree, Checked;
    HistoryMatches(h, steps);
    var disk, shape := DiskAfter(h, steps), ShapeAfter(h, steps);
    if HasRun(shape) {
      k :| 0 <= k < |steps| && steps[k].run == shape.run;
      ShapeExact(h, disk, shape);
      RecordFacts(h, shape.run);
    } else {
      ShapeExact(h, disk, shape);
      k := 0;
    }
  }

  /** A hit through the digest branch is always a hit on the complete payload of an earlier run for that URI. */
  lemma DigestHitIsComplete(h: Host, steps: seq<Step>, run: Run) returns (k: int)
    requires Faithful(h) && CollisionFree(h) && AllChecked(steps)
    requires CheckCache(h, run, DiskAfter(h, steps)).DigestHit?
    ensures 0 <= k < |steps| && steps[k].run.uri == run.uri && WritesRecord(h, steps[k].run)
    ensures Files(DiskAfter(h, steps)) == PulledFiles(h, steps[k].run) && Holds(h, DiskAfter(h, steps), steps[k].run)
  {
    hide DiskAfter, LoadRecord, RecordOf, Digest, Files, PulledFiles, WritesRecord, Faithful, CollisionFree, AllChecked;
    k := RecordExact(h, steps);
  }

  /** A hit on a Verified record skips the digest; it is complete exactly when that digest would have matched. */
  lemma VerifiedHitExact(h: Host, steps: seq<Step>, run: Run) returns (k: int)
    requires Faithful(h) && CollisionFree(h) && AllChecked(steps)
    requires CheckCache(h, run, DiskAfter(h, steps)).VerifiedHit?
    ensures 0 <= k < |steps| && steps[k].run.uri == run.uri && WritesRecord(h, steps[k].run) && IsOci(run.uri)
    ensures Holds(h, DiskAfter(h, steps), steps[k].run) <==>
            Digest(h, DiskAfter(h, steps)) == Some(CheckCache(h, run, DiskAfter(h, steps)).record.contentDigest)
  {
    hide DiskAfter, LoadRecord, RecordOf, Digest, Holds, WritesRecord, Faithful, CollisionFree, AllChecked, IsOci;
    k := RecordExact(h, steps);
    VerifiedExactlyOci(h, steps[k].run);
  }

  // ---- The trusted branch after an interrupted commit -------------------------------------------------

  lemma CrashDuringCommit(h: Host, run: Run, t: nat)
    requires Misses(h, run, map[]) && Published(h, run).Some? && t <= Movable(h, run)
    ensures Movable(h, run) <= |Listing(h, run)|
    ensures After(h, run, Crash(|FrontOps(h, run)| + t), map[]) == MovingDisk(h, run, 0, t)
  {
    hide FrontOps, Published, Listing, RenameOps, ApplyAll, MovingDisk, Misses;
    RecoverNothing(h, run.uri, map[]);
    SessionSplit(h, run);
    RenamesPrefix(h, run, t);
    var ops := RunOps(h, run, map[]);
    assert ops == SessionOps(h, run);
    assert Take(ops, |FrontOps(h, run)| + t) == FrontOps(h, run) + RenameOps(Listing(h, run))[..t];
  }

  /** Cut after t renames, the record among them: complete exactly when the rest holds no hashed file. */
  lemma HalfwayHolds(h: Host, run: Run, t: nat)
    requires Checked(run) && Published(h, run).Some? && t <= Movable(h, run) <= |Listing(h, run)|
    requires RECORD_DIR in Listing(h, run)[..t]
    ensures Holds(h, MovingDisk(h, run, 0, t), run) <==>
            Slice(Published(h, run).value, Listing(h, run), t, |Listing(h, run)|) == []
  {
    hide Files, Published, Listing, Movable, CommitState, Slice, PulledFiles, ProperDisk, Halfway, OwnRecord;
    var all, names, state := Published(h, run).value, Listing(h, run), CommitState(h, run);
    PublishedLists(h, run);
    MovableNames(h, run, 0, t);
    assert names[0..t] == names[..t];
    HalfwayWithoutStaging(all, names, state, 0, t);
    RestrictFiles(all, names, 0, t);
    SliceSplit(all, names, 0, t, |names|);
    WholeFiles(all, names);
    PublishedFiles(h, run);
    PublishedProper(h, run);
    StateIsFile(h, run);
    HalfwayDigest(all, names, state, 0, t);
    assert Slice(all, names, t, |names|) == [] <==> Slice(all, names, 0, t) == Files(all);
  }

  /** Cut after t renames: an OCI run trusts the record as soon as it arrived, whole payload or not. */
  lemma InterruptedOciCommit(h: Host, run: Run, t: nat)
    requires Faithful(h) && CollisionFree(h) && Checked(run) && IsOci(run.uri)
    requires Misses(h, run, map[]) && Published(h, run).Some? && t <= Movable(h, run) <= |Listing(h, run)|
    requires RECORD_DIR in Listing(h, run)[..t]
    ensures var disk := After(h, run, Crash(|FrontOps(h, run)| + t), map[]);
            && CheckCache(h, run, disk) == VerifiedHit(RecordOf(h, run))
            && (Holds(h, disk, run) <==> Slice(Published(h, run).value, Listing(h, run), t, |Listing(h, run)|) == [])
  {
    hide RecordOf, Published, Listing, Movable, CommitState, Digest, Faithful, CollisionFree, Slice, After, FrontOps;
    hide Misses, IsOci, Holds, ProperDisk, OwnRecord, LoadRecord;
    var all, names, disk := Published(h, run).value, Listing(h, run), MovingDisk(h, run, 0, t);
    CrashDuringCommit(h, run, t);
    HalfwayHolds(h, run, t);
    assert names[0..t] == names[..t];
    assert disk != map[] && RECORD_DIR in disk && disk[RECORD_DIR] == all[RECORD_DIR] by {
      assert STAGING_DIR != RECORD_DIR by { assert |RECORD_DIR| != |STAGING_DIR|; }
      assert RECORD_DIR in names;
    }
    PublishedRecord(h, run, disk);
    RecordFacts(h, run);
    VerifiedExactlyOci(h, run);
  }

  /** A run that can store its payload: a single file that sorts after the record. */
  ghost predicate OneFile(run: Run, name: string) {
    && SchemeOf(run.uri).Some? && !run.skipChecksum && run.clientFound && run.pullSucceeds && run.verifierConfigured
    && (IsOci(run.uri) ==> run.cosign.CosignOutput?)
    && name in run.payload && run.payload.Keys == {name} && run.payload[name].File?
    && ProperName(name) && Less(RECORD_DIR, name) && name != STAGING_DIR && name != STATE_FILE
  }

  lemma OneFilePublished(h: Host, run: Run, name: string)
    requires OneFile(run, name)
    ensures Misses(h, run, map[]) && Checked(run) && Published(h, run).Some?
    ensures Published(h, run).value.Keys == {RECORD_DIR, name} && Published(h, run).value[name] == run.payload[name]
    ensures Listing(h, run) == [RECORD_DIR, name]
  {
    hide Digest, SchemeOf, Sorted, RecordOf, RecordWritable, PutRecord;
    var stage := Pulled(h, run);
    LessIrreflexive(name);
    assert RECORD_DIR != STATE_FILE by { assert |RECORD_DIR| != |STATE_FILE|; }
    assert stage.Keys == {STATE_FILE, name} && RECORD_DIR !in stage;
    assert Assess(h, run).Some? by { OneFileClean(h, run, name); }
    FreshRecord(stage, h.encodeRecord(Assess(h, run).value));
    hide Assess, Pulled;
    var ready := Ready(h, run).value;
    assert ready.Keys == {RECORD_DIR, STATE_FILE, name} && ready[STATE_FILE] == stage[STATE_FILE];
    assert Published(h, run).value.Keys == {RECORD_DIR, name};
    SortedTwo(RECORD_DIR, name);
  }

  lemma FreshRecord(stage: Disk, content: string)
    requires RECORD_DIR !in stage
    ensures RecordWritable(stage) && PutRecord(stage, content).Keys == stage.Keys + {RECORD_DIR}
    ensures forall n :: n in stage ==> PutRecord(stage, content)[n] == stage[n]
  {
  }

  lemma OneFileClean(h: Host, run: Run, name: string)
    requires OneFile(run, name)
    ensures Digest(h, Pulled(h, run)).Some?
  {
    hide Files, Stream, Less, IsOci;
    assert Clean(Pulled(h, run));
  }

  /** Halfway through such a listing the published part holds no file, and the staged part the only one. */
  lemma OneFileHalfway(all: Disk, names: seq<string>, state: Node, name: string)
    requires Lists(names, all) && names == [RECORD_DIR, name] && all[RECORD_DIR].Dir? && all[name].File?
    ensures Files(all) == Slice(all, names, 1, 2) == [Hashed(name, all[name].content)]
    ensures Files(Halfway(all, names, state, 0, 1) - {STAGING_DIR}) == []
  {
    hide Entry, Less, Files, Halfway, Restrict, Ascending;
    assert name != STATE_FILE && name in all && RECORD_DIR in all;
    assert names[1..2] == [name] && names[0..1] == [RECORD_DIR];
    assert RECORD_DIR != STAGING_DIR by { assert |RECORD_DIR| != |STAGING_DIR|; }
    WholeFiles(all, names);
    SliceSplit(all, names, 0, 1, 2);
    WalkOne("", Dir(all), name);
    WalkOne("", Dir(all), RECORD_DIR);
    FileEntry(name, all[name]);
    RecordUnseen(all[RECORD_DIR].children);
    HalfwayWithoutStaging(all, names, state, 0, 1);
    RestrictFiles(all, names, 0, 1);
  }

  /** A crash right after the record was renamed leaves a trusted hit on a missing payload. */
  lemma VerifiedHitOnMissingPayload(h: Host, run: Run, name: string)
    requires Faithful(h) && CollisionFree(h) && OneFile(run, name) && IsOci(run.uri)
    ensures var disk := After(h, run, Crash(|FrontOps(h, run)| + 1), map[]);
            && CheckCache(h, run, disk).VerifiedHit? && !Holds(h, disk, run)
            && Files(disk - {STAGING_DIR}) == [] && PulledFiles(h, run) == [Hashed(name, run.payload[name].content)]
  {
    hide After, FrontOps, CheckCache, Published, CollisionFree, Faithful, Entry, Less, IsOci, Misses, Checked, Pulled;
    hide RecordOf, Files, Slice, Halfway;
    OneFilePublished(h, run, name);
    var all, names := Published(h, run).value, Listing(h, run);
    RenameOpsShape(names);
    assert RECORD_DIR != STAGING_DIR by { assert |RECORD_DIR| != |STAGING_DIR|; }
    assert STAGING_DIR !in names && names[..1] == [RECORD_DIR] && Movable(h, run) == 2;
    InterruptedOciCommit(h, run, 1);
    CrashDuringCommit(h, run, 1);
    PublishedLists(h, run);
    PublishedFiles(h, run);
    RecordIsDir(h, run);
    OneFileHalfway(all, names, CommitState(h, run), name);
  }

  lemma FileEntry(name: string, node: Node)
    requires node.File? && name != STATE_FILE
    ensures Entry("", name, node) == [Hashed(name, node.content)]
  {
    assert "" + name == name;
  }

  lemma RecordIsDir(h: Host, run: Run)
    requires WritesRecord(h, run) && OwnRecord(run)
    ensures RECORD_DIR in Published(h, run).value && Published(h, run).value[RECORD_DIR].Dir?
  {
    hide Published, Pulled, RecordOf, RecordDir, OwnRecord;
    PublishedForm(h, run);
    assert RECORD_DIR != STATE_FILE by { assert |RECORD_DIR| != |STATE_FILE|; }
  }
}
