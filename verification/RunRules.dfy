/** What a run makes of its inputs, in terms of the URI, the payload and the destination alone. */
module RunRules {
  import opened Names
  import opened Tree
  import opened TreePaths
  import opened Transaction
  import opened Moves
  import opened Shapes
  import opened History
  import opened Completeness
  import opened CacheHits
  import opened RecordLinks
  import opened Protocol

  // ---- The scheme -----------------------------------------------------------------------------------------

  ghost predicate SeparatorAt(uri: string, i: int) {
    0 <= i <= |uri| - 3 && uri[i..i + 3] == "://"
  }

  /** The scheme is what stands before the first separator; a URI without one has none and is refused. */
  lemma {:induction false} SchemeExactly(uri: string)
    ensures SchemeOf(uri).None? <==> forall i :: !SeparatorAt(uri, i)
    ensures SchemeOf(uri).Some? ==>
              var s := SchemeOf(uri).value;
              SeparatorAt(uri, |s|) && uri[..|s|] == s && forall i :: 0 <= i < |s| ==> !SeparatorAt(uri, i)
    decreases |uri|
  {
    if |uri| < 3 {
    } else if uri[..3] == "://" {
      assert SeparatorAt(uri, 0);
    } else {
      assert !SeparatorAt(uri, 0);
      hide SeparatorAt;
      var rest := uri[1..];
      SchemeExactly(rest);
      forall i ensures SeparatorAt(uri, i + 1) && i >= 0 <==> SeparatorAt(rest, i) { SeparatorShifts(uri, i); }
      if SchemeOf(rest).None? {
        forall i ensures !SeparatorAt(uri, i) { NoneBefore(uri, i); assert !SeparatorAt(rest, i - 1); }
      } else {
        var s := SchemeOf(rest).value;
        assert SeparatorAt(uri, |s| + 1) && uri[..|s| + 1] == [uri[0]] + s;
        forall i | 0 <= i < |s| + 1 ensures !SeparatorAt(uri, i) { assert i > 0 ==> !SeparatorAt(rest, i - 1); }
      }
    }
  }

  lemma SeparatorShifts(uri: string, i: int)
    requires uri != []
    ensures SeparatorAt(uri, i + 1) && i >= 0 <==> SeparatorAt(uri[1..], i)
  {
    if 0 <= i <= |uri| - 4 {
      assert uri[1..][i..i + 3] == uri[i + 1..i + 4];
    }
  }

  lemma NoneBefore(uri: string, i: int)
    ensures SeparatorAt(uri, i) ==> i >= 0
  {
  }

  // ---- The record -------------------------------------------------------------------------------------------

  /** Every field of the record a run writes, for each kind of scheme. */
  lemma RecordFieldsExactly(h: Host, run: Run)
    requires WritesRecord(h, run)
    ensures var r := RecordOf(h, run);
            && r.subject == run.uri && SchemeOf(run.uri) == Some(r.scheme) && r.error == ""
            && r.contentIntegrityVerified && r.contentDigest == "sha256:" + h.hash(Stream(Files(Pulled(h, run))))
            && (r.scheme != "oci" && r.scheme != "ocis" ==>
                  && !r.signatureVerified && !r.attestationVerified && !r.sbomVerified
                  && r.signatureDigest == "" && r.attestationUri == "" && r.sbomDigest == "")
            && (r.scheme == "oci" || r.scheme == "ocis" ==>
                  && run.cosign.CosignOutput? && r.signatureVerified && r.attestationVerified && r.sbomVerified
                  && r.attestationUri == run.uri + "#attestation:slsaprovenance1"
                  && r.sbomDigest == "sha256:" + h.hash(run.cosign.sbom)
                  && (run.cosign.manifestDigest != "" ==> r.signatureDigest == run.cosign.manifestDigest)
                  && (run.cosign.manifestDigest == "" ==>
                      r.signatureDigest == "sha256:" + h.hash(run.cosign.provenance)))
  {
    hide Stream, Files, Pulled, WithRecord, SchemeOf;
  }

  // ---- When a payload is published ----------------------------------------------------------------------------

  /** The record path takes a file: nothing stands there, or a regular file does, or a link to one or to nothing. */
  ghost predicate TakesRecord(payload: Disk) {
    RECORD_DIR in payload ==>
      && payload[RECORD_DIR].Dir?
      && var children := payload[RECORD_DIR].children;
         RECORD_FILE in children ==>
           match children[RECORD_FILE]
           case File(_) => true
           case Symlink(target) => target in payload ==> payload[target].File?
           case _ => false
  }

  lemma PulledClean(h: Host, run: Run)
    ensures Clean(Pulled(h, run)) <==> Clean(run.payload)
  {
    hide LinkFree;
    var stage := Pulled(h, run);
    StateUnseen(h.encodeState(StagingState(run.uri, DOWNLOADING, [])));
    assert forall n :: n in run.payload ==> stage[n] == run.payload[n];
    assert forall n :: n in stage ==> n in run.payload || n == STATE_FILE;
  }

  lemma PulledTakesRecord(h: Host, run: Run)
    requires STATE_FILE in run.payload ==> run.payload[STATE_FILE].File?
    ensures RecordWritable(Pulled(h, run)) <==> TakesRecord(run.payload)
  {
    Reserved();
    var stage := Pulled(h, run);
    assert RECORD_DIR in stage <==> RECORD_DIR in run.payload;
    assert RECORD_DIR in stage ==> stage[RECORD_DIR] == run.payload[RECORD_DIR];
    forall n | n in run.payload ensures n in stage && stage[n] == run.payload[n] { }
  }

  /** A run gets to its renames exactly when these conditions on its inputs hold. */
  lemma PublishesExactly(h: Host, run: Run)
    ensures Published(h, run).Some? <==>
            && run.pullSucceeds && (STATE_FILE in run.payload ==> run.payload[STATE_FILE].File?)
            && (run.skipChecksum ||
                (&& run.verifierConfigured && SchemeOf(run.uri).Some?
                 && (SchemeOf(run.uri) == Some("oci") || SchemeOf(run.uri) == Some("ocis") ==> run.cosign.CosignOutput?)
                 && (forall t, target :: Leads(Dir(run.payload), t, Symlink(target)) ==> Last(t) == STATE_FILE)
                 && TakesRecord(run.payload)))
  {
    hide Assess, SchemeOf, Clean, Leads, TakesRecord, Published, Pulled, RecordWritable, Ready;
    CleanExactly(run.payload);
    PulledClean(h, run);
    AssessedExactly(h, run);
    ReadyExactly(h, run);
    PublishedWhenReady(h, run);
    if STATE_FILE in run.payload ==> run.payload[STATE_FILE].File? { PulledTakesRecord(h, run); }
    if Ready(h, run).Some? { StateAfterRecord(h, run); }
  }

  lemma ReadyExactly(h: Host, run: Run)
    ensures Ready(h, run).Some? <==>
            run.pullSucceeds && (run.skipChecksum || (Assess(h, run).Some? && RecordWritable(Pulled(h, run))))
  {
    hide Assess, Pulled, RecordWritable, PutRecord;
  }

  lemma PublishedWhenReady(h: Host, run: Run)
    ensures Published(h, run).Some? <==>
            && Ready(h, run).Some? && STATE_FILE in Ready(h, run).value && Ready(h, run).value[STATE_FILE].File?
  {
    hide Ready;
  }

  lemma AssessedExactly(h: Host, run: Run)
    ensures Assess(h, run).Some? <==>
            && run.verifierConfigured && SchemeOf(run.uri).Some? && Clean(Pulled(h, run))
            && (SchemeOf(run.uri) == Some("oci") || SchemeOf(run.uri) == Some("ocis") ==> run.cosign.CosignOutput?)
  {
    hide SchemeOf, Clean, Stream, Files, Pulled;
  }

  /** Writing the record leaves a regular state file regular, and does not mend one that is not. */
  lemma StateAfterRecord(h: Host, run: Run)
    requires Ready(h, run).Some?
    ensures STATE_FILE in Ready(h, run).value
    ensures Ready(h, run).value[STATE_FILE].File? <==> (STATE_FILE in run.payload ==> run.payload[STATE_FILE].File?)
  {
    hide Assess, Pulled;
    PulledState(h, run);
    if !run.skipChecksum {
      assert Ready(h, run).value == PutRecord(Pulled(h, run), h.encodeRecord(Assess(h, run).value));
      hide Ready;
      RecordKeepsState(Pulled(h, run), h.encodeRecord(Assess(h, run).value));
    }
  }

  lemma PulledState(h: Host, run: Run)
    ensures STATE_FILE in Pulled(h, run)
    ensures Pulled(h, run)[STATE_FILE].File? <==> (STATE_FILE in run.payload ==> run.payload[STATE_FILE].File?)
  {
  }

  lemma RecordKeepsState(stage: Disk, content: string)
    requires STATE_FILE in stage && RecordWritable(stage)
    ensures STATE_FILE in PutRecord(stage, content)
    ensures PutRecord(stage, content)[STATE_FILE].File? <==> stage[STATE_FILE].File?
  {
    Reserved();
  }

  // ---- When a destination is taken up -------------------------------------------------------------------------

  /** Staging holds a readable state of this subject. */
  ghost predicate StateOf(h: Host, uri: string, disk: Disk, state: StagingState) {
    && STAGING_DIR in disk && disk[STAGING_DIR].Dir?
    && var stage := disk[STAGING_DIR].children;
       && STATE_FILE in stage && stage[STATE_FILE].File?
       && h.parseState(stage[STATE_FILE].content) == Some(state) && state.subject == uri
  }

  /** A download stands alone; a commit lists everything that stands beside it. */
  ghost predicate Covers(state: StagingState, disk: Disk) {
    || (state.phase == "downloading" && disk.Keys == {STAGING_DIR})
    || (state.phase == "committing" && forall n :: n in disk && n != STAGING_DIR ==> n in state.files)
  }

  /** Recovery and its rechecks reach an empty destination from these destinations and no others. */
  lemma PreparesExactly(h: Host, uri: string, disk: Disk)
    ensures Prepares(h, uri, disk) <==>
            disk == map[] || exists state :: StateOf(h, uri, disk, state) && Covers(state, disk)
  {
    RecoveryTouchesOnlyItsOwn(h, uri, disk);
    if OwnState(h, uri, disk) {
      var state := LoadState(h, Staging(disk)).value;
      assert StateOf(h, uri, disk, state);
      RecoverScans(h, uri, disk);
      hide ApplyAll, ScanEntries, Recover;
      assert |"downloading"| != |"committing"|;
      if state.phase == DOWNLOADING {
        assert disk.Keys == {STAGING_DIR} <==> forall n :: n in disk && n != STAGING_DIR ==> ListedFor(state, n);
      }
    } else {
      NotOwned(h, uri, disk);
    }
  }

  lemma NotOwned(h: Host, uri: string, disk: Disk)
    requires !OwnState(h, uri, disk)
    ensures Prepares(h, uri, disk) <==> disk == map[]
    ensures forall state :: StateOf(h, uri, disk, state) ==> state.phase != "downloading" && state.phase != "committing"
  {
    hide ScanEntries;
    assert Recover(h, uri, disk).ops == [];
    NothingApplied(disk);
  }

  // ---- Runs that come to nothing -----------------------------------------------------------------------------------

  /** A URI without a scheme or without a client changes nothing, whatever fails. */
  lemma RefusedLeavesAlone(h: Host, run: Run, fault: Fault, disk: Disk)
    requires SchemeOf(run.uri).None? || !run.clientFound
    ensures After(h, run, fault, disk) == disk
  {
    hide Recover, SchemeOf, CheckCache;
    assert RunOps(h, run, disk) == [];
  }

  /** A run that is not interrupted and has nothing to publish leaves an empty destination behind. */
  lemma UnpublishedLeavesNothing(h: Host, run: Run, disk: Disk)
    requires Misses(h, run, disk) && Prepares(h, run.uri, disk) && Published(h, run).None?
    ensures After(h, run, NoFault, disk) == map[]
  {
    hide Misses, Published, SessionOps, FrontOps, ApplyAll, Recover, Prepares;
    var ops := RunOps(h, run, disk);
    SessionSplit(h, run);
    SessionWhole(h, run);
    RunOpsSplit(h, run, disk, |ops|);
    assert ops[..|ops|] == ops && SessionOps(h, run)[..|SessionOps(h, run)|] == SessionOps(h, run);
  }

  // ---- What is persisted --------------------------------------------------------------------------------------------

  /** The state on disk once staging is open, and once the commit has announced what it will rename. */
  lemma StatesPersisted(h: Host, run: Run)
    requires Misses(h, run, map[])
    ensures After(h, run, Crash(3), map[]) ==
            map[STAGING_DIR := Dir(map[STATE_FILE := File(h.encodeState(StagingState(run.uri, "downloading", [])))])]
    ensures Published(h, run).Some? ==>
              After(h, run, Crash(|FrontOps(h, run)|), map[]) ==
              map[STAGING_DIR := Dir(Published(h, run).value[STATE_FILE :=
                File(h.encodeState(StagingState(run.uri, "committing", Sorted(Published(h, run).value.Keys))))])]
  {
    hide Misses, Published, Sorted, After, FrontOps;
    OpenedState(h, run);
    if Published(h, run).Some? {
      Announced(h, run);
      AnnouncedState(h, run);
    }
  }

  lemma Announced(h: Host, run: Run)
    requires Misses(h, run, map[]) && Published(h, run).Some?
    ensures After(h, run, Crash(|FrontOps(h, run)|), map[]) == MovingDisk(h, run, 0, 0)
  {
    hide Misses, Published, After, FrontOps, Movable, MovingDisk;
    CrashDuringCommit(h, run, 0);
    assert Crash(|FrontOps(h, run)| + 0) == Crash(|FrontOps(h, run)|);
  }

  lemma OpenedState(h: Host, run: Run)
    requires Misses(h, run, map[])
    ensures After(h, run, Crash(3), map[]) ==
            map[STAGING_DIR := Dir(map[STATE_FILE := File(h.encodeState(StagingState(run.uri, "downloading", [])))])]
  {
    hide Misses, RecordOps, PublishOps, Recover;
    RecoverNothing(h, run.uri, map[]);
    var content := h.encodeState(StagingState(run.uri, DOWNLOADING, []));
    assert Take(RunOps(h, run, map[]), 3) == [MakeStaging, TruncateState, WriteState(content)];
    OpenedDisk(content);
  }

  lemma OpenedDisk(content: string)
    ensures ApplyAll(map[], [MakeStaging, TruncateState, WriteState(content)]) ==
            map[STAGING_DIR := Dir(map[STATE_FILE := File(content)])]
  {
    var ops := [MakeStaging, TruncateState, WriteState(content)];
    assert ops[1..] == [TruncateState, WriteState(content)] && ops[1..][1..] == [WriteState(content)];
    var made := Apply(map[], MakeStaging);
    var torn := Apply(made, TruncateState);
    assert made == map[STAGING_DIR := Dir(map[])] && torn == map[STAGING_DIR := Dir(map[STATE_FILE := File("")])];
    ApplyOne(torn, WriteState(content));
    assert map[STATE_FILE := File("")][STATE_FILE := File(content)] == map[STATE_FILE := File(content)];
  }

  lemma AnnouncedState(h: Host, run: Run)
    requires Published(h, run).Some?
    ensures MovingDisk(h, run, 0, 0) ==
            map[STAGING_DIR := Dir(Published(h, run).value[STATE_FILE :=
              File(h.encodeState(StagingState(run.uri, "committing", Sorted(Published(h, run).value.Keys))))])]
  {
    hide Published;
    var all, names := Published(h, run).value, Listing(h, run);
    assert names[0..0] == [] && names[0..] == names;
    assert Restrict(all, Set(names)) == all && Restrict(all, Set([])) == map[];
  }

  // ---- The cache check -------------------------------------------------------------------------------------------

  /** Which branch answers, for every run and destination, with the conditions of the source. */
  lemma CacheAnswerExactly(h: Host, run: Run, disk: Disk, r: Record)
    ensures CheckCache(h, run, disk) == SkipHit <==> disk != map[] && run.skipChecksum
    ensures CheckCache(h, run, disk) == VerifiedHit(r) <==>
            && disk != map[] && !run.skipChecksum && LoadRecord(h, disk) == Some(r) && r.subject == run.uri
            && r.error == "" && r.signatureVerified && r.attestationVerified && r.sbomVerified
            && r.signatureDigest != "" && r.attestationUri != "" && r.sbomDigest != ""
    ensures CheckCache(h, run, disk) == DigestHit(r) <==>
            && disk != map[] && !run.skipChecksum && LoadRecord(h, disk) == Some(r) && r.subject == run.uri
            && CheckCache(h, run, disk) != VerifiedHit(r) && r.contentIntegrityVerified && Clean(disk)
            && r.contentDigest == "sha256:" + h.hash(Stream(Files(disk)))
  {
    hide Stream, Files, Clean, LoadRecord;
  }

  // ---- Runs that skip the checks -----------------------------------------------------------------------------------

  /** On a destination that holds anything, a skip run answers at once and changes nothing, whatever fails. */
  lemma SkipLeavesAlone(h: Host, run: Run, fault: Fault, disk: Disk)
    requires SchemeOf(run.uri).Some? && run.clientFound && run.skipChecksum && disk != map[]
    ensures CheckCache(h, run, disk) == SkipHit && After(h, run, fault, disk) == disk
  {
    hide Recover, SchemeOf;
  }

  /**
   * On an empty destination, a skip run that is not interrupted leaves exactly its payload, and no record of its own.
   */
  lemma SkipStoresPayload(h: Host, run: Run)
    requires SchemeOf(run.uri).Some? && run.clientFound && run.skipChecksum && run.pullSucceeds
    requires (STATE_FILE in run.payload ==> run.payload[STATE_FILE].File?) && STAGING_DIR !in run.payload
    ensures After(h, run, NoFault, map[]) == run.payload - {STATE_FILE}
  {
    Reserved();
    var stage := Pulled(h, run);
    assert Published(h, run) == Some(stage - {STATE_FILE});
    assert stage - {STATE_FILE} == run.payload - {STATE_FILE};
    hide Published, Pulled, SchemeOf, After;
    StoresAll(h, run);
  }
}
