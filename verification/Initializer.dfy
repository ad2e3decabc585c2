/**
 * The storage initializer as it runs: a volume whose directory tree it mutates call by call. Each method is tied to
 * the effects it is specified to have, also when one filesystem call fails.
 */
module Initializer {
  import opened Names
  import opened Tree
  import opened Transaction
  import opened Moves
  import opened History

  // ---- Reading directories -------------------------------------------------------------------------

  method FindLeast(names: set<string>) returns (least: string)
    requires names != {}
    ensures IsLeast(least, names)
  {
    var rest := names;
    least :| least in rest;
    rest := rest - {least};
    while rest != {}
      invariant rest <= names && least in names
      invariant forall y :: y in names - rest ==> Leq(least, y)
      decreases rest
    {
      var x :| x in rest;
      LessTotal(x, least);
      if Less(x, least) {
        forall y | y in names - rest && y != least ensures Less(x, y) { LessTransitive(x, least, y); }
        least := x;
      }
      rest := rest - {x};
    }
  }

  /** os.ReadDir: the entry names in ascending order. */
  method ReadDir(disk: Disk) returns (names: seq<string>)
    ensures names == Sorted(disk.Keys)
  {
    names := [];
    var rest := disk.Keys;
    while rest != {}
      invariant rest <= disk.Keys && Ascending(names)
      invariant forall n :: n in names <==> n in disk.Keys - rest
      invariant forall n, m :: n in names && m in rest ==> Less(n, m)
      decreases rest
    {
      var x := FindLeast(rest);
      forall m | m in rest - {x} ensures Less(x, m) { assert Leq(x, m); }
      names := names + [x];
      rest := rest - {x};
    }
    AscendingUnique(names, Sorted(disk.Keys));
  }

  // ---- The digest --------------------------------------------------------------------------------------

  lemma {:induction false} StreamConcat(a: seq<Hashed>, b: seq<Hashed>)
    ensures Stream(a + b) == Stream(a) + Stream(b)
  {
    if a == [] {
      assert a + b == b;
    } else {
      assert (a + b)[1..] == a[1..] + b;
      StreamConcat(a[1..], b);
    }
  }

  ghost predicate CleanNames(dir: Node, names: seq<string>)
    requires dir.Dir? && forall n :: n in names ==> n in dir.children
  {
    forall n :: n in names ==> LinkFree(n, dir.children[n])
  }

  /** filepath.WalkDir: the bytes written to the hash, or a symbolic link met on the way. */
  method HashTree(prefix: string, dir: Node) returns (clean: bool, bytes: string)
    requires dir.Dir?
    ensures clean <==> Clean(dir.children)
    ensures clean ==> bytes == Stream(Walk(prefix, dir, Sorted(dir.children.Keys)))
    decreases dir, 0
  {
    hide Entry, LinkFree, Stream, Sorted;
    var names := ReadDir(dir.children);
    clean, bytes := true, "";
    assert bytes == Stream(Walk(prefix, dir, names[..0])) by { NothingHashed(prefix, dir, names[..0]); }
    var i := 0;
    while i < |names|
      invariant 0 <= i <= |names| && clean
      invariant CleanNames(dir, names[..i])
      invariant bytes == Stream(Walk(prefix, dir, names[..i]))
    {
      var name := names[i];
      assert name in names;
      var piece;
      clean, piece := HashEntry(prefix, name, dir.children[name]);
      if !clean { return false, ""; }
      NextEntry(prefix, dir, names, i, bytes, piece);
      bytes := bytes + piece;
      i := i + 1;
    }
    assert names[..i] == names;
  }

  lemma NothingHashed(prefix: string, dir: Node, names: seq<string>)
    requires dir.Dir? && names == []
    ensures Stream(Walk(prefix, dir, names)) == ""
  {
  }

  /** The digest's callback for one entry. */
  method HashEntry(prefix: string, name: string, node: Node) returns (clean: bool, piece: string)
    ensures clean <==> LinkFree(name, node)
    ensures clean ==> piece == Stream(Entry(prefix, name, node))
    decreases node, 1
  {
    clean, piece := true, "";
    if node.Dir? {
      if name != RECORD_DIR { clean, piece := HashTree(prefix + name + "/", node); }
    } else if name == STATE_FILE {
    } else if node.Symlink? {
      clean := false;
    } else if node.File? {
      piece := prefix + name + [NUL] + node.content + [NUL];
      FileBytes(prefix, name, node);
    }
  }

  lemma FileBytes(prefix: string, name: string, node: Node)
    requires node.File? && name != STATE_FILE
    ensures Stream(Entry(prefix, name, node)) == prefix + name + [NUL] + node.content + [NUL]
  {
    StreamOfOne(Hashed(prefix + name, node.content));
  }

  lemma NextEntry(prefix: string, dir: Node, names: seq<string>, i: nat, bytes: string, piece: string)
    requires dir.Dir? && i < |names| && forall n :: n in names ==> n in dir.children
    requires CleanNames(dir, names[..i]) && bytes == Stream(Walk(prefix, dir, names[..i]))
    requires LinkFree(names[i], dir.children[names[i]])
        && piece == Stream(Entry(prefix, names[i], dir.children[names[i]]))
    ensures forall n :: n in names[..i + 1] ==> n in dir.children
    ensures CleanNames(dir, names[..i + 1]) && bytes + piece == Stream(Walk(prefix, dir, names[..i + 1]))
  {
    hide Entry, LinkFree, Stream;
    var l, x := names[..i], names[i];
    assert names[..i + 1] == l + [x] && l + [x] == l + [x] + [];
    WalkSplice(prefix, dir, l, x, []);
    StreamConcat(Walk(prefix, dir, l), Entry(prefix, x, dir.children[x]));
    assert Walk(prefix, dir, l) + Entry(prefix, x, dir.children[x]) + [] == Walk(prefix, dir, l)
        + Entry(prefix, x, dir.children[x]);
  }

  method DirectoryDigest(h: Host, disk: Disk) returns (digest: Option<string>)
    ensures digest == Digest(h, disk)
  {
    var clean, bytes := HashTree("", Dir(disk));
    digest := if clean then Some("sha256:" + h.hash(bytes)) else None;
  }

  // ---- A countdown to the call that fails ------------------------------------------------------------------

  /** How many of `n` calls succeed when call number `e` fails; a negative `e` fails none. */
  function Reached(e: int, n: nat): nat {
    if 0 <= e < n then e else n
  }

  function Left(e: int, n: nat): int {
    if e < n then -1 else e - n
  }

  predicate Fails(e: int, n: nat) {
    0 <= e < n
  }

  class Volume {
    const host: Host
    var entries: Disk
    /** The next call to fail, counted from now; negative for none. */
    var errorIn: int
    /** Where this run found the destination and what it has done to it since. */
    ghost var base: Disk
    ghost var trace: seq<Op>

    ghost predicate Valid()
      reads this
    {
      entries == ApplyAll(base, trace) && errorIn >= -1
    }

    constructor (host: Host, entries: Disk, errorIn: int)
      requires errorIn >= -1
      ensures Valid() && this.host == host && this.entries == base == entries && trace == [] && this.errorIn == errorIn
    {
      this.host, this.entries, this.base, this.trace, this.errorIn := host, entries, entries, [], errorIn;
    }

    /** One filesystem call: it fails without effect, or has the effect. */
    method Call(op: Op) returns (ok: bool)
      requires Valid()
      modifies this`entries, this`errorIn, this`trace
      ensures Valid()
      ensures ok == !Fails(old(errorIn), 1) && errorIn == Left(old(errorIn), 1)
      ensures trace == old(trace) + (if ok then [op] else [])
      ensures entries == if ok then Apply(old(entries), op) else old(entries)
    {
      ok := errorIn != 0;
      if ok {
        ApplyAllConcat(base, trace, [op]);
        ApplyOne(entries, op);
        entries := Apply(entries, op);
        trace := trace + [op];
      }
      errorIn := if errorIn > 0 then errorIn - 1 else -1;
    }

    /** os.WriteFile on the state file: truncate, then write. */
    method WriteStagingState(state: StagingState) returns (ok: bool)
      requires Valid()
      modifies this`entries, this`errorIn, this`trace
      ensures Valid()
      ensures ok == !Fails(old(errorIn), 2) && errorIn == Left(old(errorIn), 2)
      ensures trace == old(trace) + [TruncateState, WriteState(host.encodeState(state))][..Reached(old(errorIn), 2)]
      ensures HasStaging(old(entries)) ==> HasStaging(entries)
      ensures ok && HasStaging(old(entries)) ==>
                entries == Apply(Apply(old(entries), TruncateState), WriteState(host.encodeState(state)))
    {
      ok := Call(TruncateState);
      if ok { ok := Call(WriteState(host.encodeState(state))); }
    }

    /** recoverStagingTransaction over the entries just read. */
    method RecoverStagingTransaction(uri: string, names: seq<string>) returns (ok: bool)
      requires Valid() && names == Sorted(entries.Keys)
      modifies this`entries, this`errorIn, this`trace
      ensures Valid()
      ensures var rec := Recover(host, uri, old(entries));
              && ok == (rec.ok && !Fails(old(errorIn), |rec.ops|)) && errorIn == Left(old(errorIn), |rec.ops|)
              && trace == old(trace) + rec.ops[..Reached(old(errorIn), |rec.ops|)]
    {
      hide ApplyAll, Apply, ScanEntries, LoadState;
      if !HasStaging(entries) { return true; }
      var found := LoadState(host, Staging(entries));
      if found.None? || found.value.subject != uri { return false; }
      if found.value.phase != DOWNLOADING && found.value.phase != COMMITTING { return false; }
      ok := RemoveListed(names, found.value);
    }

    method RemoveListed(names: seq<string>, state: StagingState) returns (ok: bool)
      requires Valid()
      modifies this`entries, this`errorIn, this`trace
      ensures Valid()
      ensures var rec := ScanEntries(names, state);
              && ok == (rec.ok && !Fails(old(errorIn), |rec.ops|)) && errorIn == Left(old(errorIn), |rec.ops|)
              && trace == old(trace) + rec.ops[..Reached(old(errorIn), |rec.ops|)]
    {
      assert errorIn >= -1;
      ghost var all, e, done: seq<Op> := ScanEntries(names, state), errorIn, [];
      assert Scanning(all, done, ScanEntries(names[0..], state), e, errorIn) by { assert names[0..] == names; }
      hide Valid, ScanEntries, Scanning, Fails, Left, Reached;
      var allowed := set n | n in state.files;
      var i := 0;
      while i < |names|
        invariant 0 <= i <= |names| && Valid() && trace == old(trace) + done
        invariant Scanning(all, done, ScanEntries(names[i..], state), e, errorIn)
      {
        ScanStep(names, i, state);
        ghost var here, next := ScanEntries(names[i..], state), ScanEntries(names[i + 1..], state);
        var name := names[i];
        if name != STAGING_DIR {
          if state.phase != COMMITTING { ScanFinished(all, done, here, e, errorIn); return false; }
          if name !in allowed { ScanFinished(all, done, here, e, errorIn); return false; }
          ScanAdvance(all, done, here, Remove(name), next, e, errorIn);
          ok := Call(Remove(name));
          if !ok { return false; }
          done := done + [Remove(name)];
        }
        i := i + 1;
      }
      ScanStop(names[i..], state);
      ScanAdvance(all, done, ScanEntries(names[i..], state), Remove(STAGING_DIR), Recovery([], true), e, errorIn);
      ok := Call(Remove(STAGING_DIR));
      if ok { ScanFinished(all, done + [Remove(STAGING_DIR)], Recovery([], true), e, errorIn); }
    }

    /** The destination is empty, or what an earlier run left there has been dealt with. */
    method Recovered(uri: string) returns (ok: bool)
      requires Valid()
      modifies this`entries, this`errorIn, this`trace
      ensures Valid()
      ensures var rec := Recover(host, uri, old(entries));
              && ok == (rec.ok && !Fails(old(errorIn), |rec.ops|)) && errorIn == Left(old(errorIn), |rec.ops|)
              && trace == old(trace) + rec.ops[..Reached(old(errorIn), |rec.ops|)]
      ensures ok ==> entries == ApplyAll(old(entries), Recover(host, uri, old(entries)).ops)
    {
      var names := ReadDir(entries);
      EmptyListing(entries);
      if |names| > 0 {
        ok := RecoverStagingTransaction(uri, names);
        ghost var rec := Recover(host, uri, old(entries)).ops;
        TraceApplied(base, old(trace), rec, old(entries));
        assert rec[..|rec|] == rec;
      } else {
        RecoverNothing(host, uri, entries);
        ok := true;
      }
    }

    /** A failed state write takes the fresh directory away again. */
    method OpenStaging(uri: string) returns (ok: bool)
      requires Valid()
      modifies this`entries, this`errorIn, this`trace
      ensures Valid()
      ensures ok == !Fails(old(errorIn), 3) && errorIn == Left(old(errorIn), 3)
      ensures trace == old(trace) + ClaimOps(host, uri)[..Reached(old(errorIn), 3)]
          + (if 0 < old(errorIn) < 3 then [Remove(STAGING_DIR)] else [])
      ensures ok ==> HasStaging(entries)
    {
      ghost var write := [TruncateState, WriteState(host.encodeState(StagingState(uri, DOWNLOADING, [])))];
      assert ClaimOps(host, uri) == [MakeStaging] + write;
      CutConcat([MakeStaging], write, errorIn);
      hide ClaimOps, ApplyAll;
      ok := Call(MakeStaging);
      if !ok { return false; }
      assert HasStaging(entries);
      ok := WriteStagingState(StagingState(uri, DOWNLOADING, []));
      if !ok { var _ := Call(Remove(STAGING_DIR)); }
    }

    method PrepareStagingDirectory(uri: string) returns (ok: bool)
      requires Valid()
      modifies this`entries, this`errorIn, this`trace
      ensures Valid()
      ensures var n := |PreparePlan(host, uri, old(entries))|;
              ok == (Prepares(host, uri, old(entries)) && !Fails(old(errorIn), n)) && errorIn == Left(old(errorIn), n)
      ensures trace == old(trace) + PrepareTrace(host, uri, old(entries), old(errorIn))
      ensures ok ==> HasStaging(entries)
    {
      assert errorIn >= -1;
      PrepareCases(host, uri, entries, errorIn);
      ghost var rec, later := Recover(host, uri, entries).ops, Left(errorIn, |Recover(host, uri, entries).ops|);
      ghost var undo := if 0 < later < 3 then [Remove(STAGING_DIR)] else [];
      Regroup(trace, rec, ClaimOps(host, uri)[..Reached(later, 3)], undo);
      hide Valid, Recover, ApplyAll, ClaimOps, HasStaging, PreparePlan, PrepareTrace, Reached, Left, Fails, Sorted;
      ok := Recovered(uri);
      if !ok { return false; }
      var names := ReadDir(entries);
      EmptyListing(entries);
      if |names| > 0 { return false; }
      ok := OpenStaging(uri);
    }

    // ---- After prepare ----------------------------------------------------------------------------

    /** Pull writes part of the payload, then the rest, and may still report failure. */
    method PullInto(run: Run) returns (ok: bool)
      requires Valid() && HasStaging(entries)
      modifies this`entries, this`errorIn, this`trace
      ensures Valid()
      ensures ok == (run.pullSucceeds && !Fails(old(errorIn), 2)) && errorIn == Left(old(errorIn), 2)
      ensures trace == old(trace) + PullOps(host, run)[..Reached(old(errorIn), 2)]
      ensures ok ==> HasStaging(entries) && Staging(entries) == Pulled(host, run)
    {
      ok := Call(Fill(Opened(host, run.uri) + run.partial));
      if ok {
        ok := Call(Fill(Pulled(host, run)));
        ok := ok && run.pullSucceeds;
      }
    }

    /** assessProvenance on what was pulled: provenance first, then the digest. */
    method AssessProvenance(run: Run) returns (record: Option<Record>)
      requires HasStaging(entries) && Staging(entries) == Pulled(host, run)
      ensures record == Assess(host, run)
    {
      hide Pulled, Provenance, Digest;
      record := Provenance(host, run);
      if record.None? { return; }
      var digest := DirectoryDigest(host, Staging(entries));
      record := if digest.None? then None
                else Some(record.value.(contentDigest := digest.value, contentIntegrityVerified := true));
    }

    /** writeCacheRuntimeVerificationRecord: MkdirAll, then WriteFile. */
    method WriteCacheRecord(run: Run, record: Record) returns (ok: bool)
      requires Valid() && HasStaging(entries) && Staging(entries) == Pulled(host, run)
      requires run.pullSucceeds && !run.skipChecksum && Assess(host, run) == Some(record)
      modifies this`entries, this`errorIn, this`trace
      ensures Valid()
      ensures var ops := RecordOps(host, run);
              && ok == (Ready(host, run).Some? && !Fails(old(errorIn), |ops|)) && errorIn == Left(old(errorIn), |ops|)
              && trace == old(trace) + ops[..Reached(old(errorIn), |ops|)]
      ensures ok ==> HasStaging(entries) && Staging(entries) == Ready(host, run).value
    {
      hide Assess, Pulled, ApplyAll;
      ghost var stage := Staging(entries);
      var dir := RecordDir(Staging(entries));
      if dir.None? { return false; }
      ok := Call(MakeRecordDir);
      if !ok { return false; }
      if !RecordWritable(Staging(entries)) { return false; }
      ok := Call(TruncateRecord);
      if !ok { return false; }
      ok := Call(WriteRecord(host.encodeRecord(record)));
      if ok {
        RecordWritten(stage, host.encodeRecord(record));
        ThreeFills(stage, MakeRecordDir, TruncateRecord, WriteRecord(host.encodeRecord(record)));
      }
    }

    /** commitStagingDirectory: list, persist the list, then rename entry by entry. */
    method CommitStagingDirectory(uri: string) returns (ok: bool)
      requires Valid() && HasStaging(entries) && STATE_FILE in Staging(entries)
      modifies this`entries, this`errorIn, this`trace
      ensures Valid()
      ensures var stage := Staging(old(entries));
              var ops := CommitOps(host, uri, stage);
              && ok == (stage[STATE_FILE].File? && STAGING_DIR !in stage && !Fails(old(errorIn), |ops|))
              && errorIn == Left(old(errorIn), |ops|) && trace == old(trace) + ops[..Reached(old(errorIn), |ops|)]
    {
      assert errorIn >= -1;
      CommitCases(host, uri, Staging(entries), errorIn);
      ghost var names := Sorted((Staging(entries) - {STATE_FILE}).Keys);
      ghost var write := [TruncateState, WriteState(host.encodeState(StagingState(uri, COMMITTING, names)))];
      ghost var renames := RenameOps(names);
      Regroup(trace, write[..Reached(errorIn, 2)], renames[..Reached(Left(errorIn, 2), |renames|)], []);
      assert errorIn == Left(errorIn, 0) && Reached(errorIn, 0) == 0 && !Fails(errorIn, 0);
      hide Valid, Sorted, RenameOps, Apply, CommitOps, Reached, Left, Fails;
      var files := PayloadNames(Staging(entries));
      if !Staging(entries)[STATE_FILE].File? { return false; }
      ok := WriteStagingState(StagingState(uri, COMMITTING, files));
      if !ok { return false; }
      ok := RenameAll(files);
    }

    method RenameAll(files: seq<string>) returns (ok: bool)
      requires Valid()
      modifies this`entries, this`errorIn, this`trace
      ensures Valid()
      ensures var ops := RenameOps(files);
              && ok == (STAGING_DIR !in files && !Fails(old(errorIn), |ops|))
              && errorIn == Left(old(errorIn), |ops|) && trace == old(trace) + ops[..Reached(old(errorIn), |ops|)]
    {
      assert errorIn >= -1;
      hide Valid, RenameOps;
      RenameOpsShape(files);
      ghost var ops, e := RenameOps(files), errorIn;
      var i := 0;
      while i < |files|
        invariant 0 <= i <= |ops| && Valid()
        invariant trace == old(trace) + ops[..i] && !Fails(e, i) && errorIn == Left(e, i)
      {
        // Renaming onto the staging directory itself fails: it still holds the state file.
        if files[i] == STAGING_DIR {
          assert i == |ops|;
          return false;
        }
        assert i < |ops| by { RenamesGoOn(files, i); }
        ok := Call(Rename(files[i]));
        if !ok { return false; }
        i := i + 1;
      }
      ok := true;
    }

    /** Assess what was pulled and write the record, or neither under --skip-checksum. */
    method RecordStage(run: Run) returns (ok: bool)
      requires Valid() && HasStaging(entries) && Staging(entries) == Pulled(host, run) && run.pullSucceeds
      modifies this`entries, this`errorIn, this`trace
      ensures Valid()
      ensures var ops := RecordOps(host, run);
              && ok == (Ready(host, run).Some? && !Fails(old(errorIn), |ops|)) && errorIn == Left(old(errorIn), |ops|)
              && trace == old(trace) + ops[..Reached(old(errorIn), |ops|)]
      ensures ok ==> HasStaging(entries) && Staging(entries) == Ready(host, run).value
    {
      assert errorIn >= -1;
      hide Valid, RecordOps, Ready, Pulled, Assess;
      if run.skipChecksum {
        SkipsRecord(host, run, errorIn);
        return true;
      }
      var assessed := AssessProvenance(run);
      if assessed.None? {
        NoRecord(host, run, errorIn);
        return false;
      }
      ok := WriteCacheRecord(run, assessed.value);
    }

    /** Everything between prepare and the deferred cleanup. */
    method StageAndPublish(run: Run) returns (ok: bool)
      requires Valid() && HasStaging(entries)
      modifies this`entries, this`errorIn, this`trace
      ensures Valid()
      ensures var n := |BodyPlan(host, run)|;
              && ok == (Publishes(host, run) && !Fails(old(errorIn), n)) && errorIn == Left(old(errorIn), n)
              && trace == old(trace) + BodyPlan(host, run)[..Reached(old(errorIn), n)]
    {
      assert errorIn >= -1;
      ghost var t, e := trace, errorIn;
      ghost var e1, record := Left(e, 2), RecordOps(host, run);
      ghost var e2, publish := Left(e1, |record|), PublishOps(host, run);
      BodyCases(host, run, e);
      Regroup(t, PullOps(host, run), record, publish[..Reached(e2, |publish|)]);
      Regroup(t, PullOps(host, run), record[..Reached(e1, |record|)], []);
      hide Valid, PullOps, RecordOps, PublishOps, BodyPlan, CommitOps, Reached, Left, Fails, Ready, Pulled, Publishes;
      hide Staging, HasStaging;
      ok := PullInto(run);
      if !ok { return false; }
      ok := RecordStage(run);
      if !ok { return false; }
      ReadyState(host, run);
      ok := CommitStagingDirectory(run.uri);
    }

    /** Whether the destination can already answer the run. */
    method CheckDestination(run: Run) returns (cached: Cache)
      ensures cached == CheckCache(host, run, entries)
    {
      hide Sorted, Digest;
      var names := ReadDir(entries);
      EmptyListing(entries);
      if |names| == 0 { return Miss; }
      if run.skipChecksum { return SkipHit; }
      var found := LoadRecord(host, entries);
      if found.None? || found.value.subject != run.uri { return Miss; }
      if found.value.Verified() { return VerifiedHit(found.value); }
      if found.value.contentIntegrityVerified {
        var digest := DirectoryDigest(host, entries);
        if digest == Some(found.value.contentDigest) { return DigestHit(found.value); }
      }
      cached := Miss;
    }

    /** One run, from the cache check to the deferred cleanup, with at most one failing call. */
    method Execute(run: Run) returns (cached: Cache, stored: bool)
      requires Valid()
      modifies this`entries, this`errorIn, this`trace
      ensures Valid()
      ensures SchemeOf(run.uri).Some? && run.clientFound ==> cached == CheckCache(host, run, old(entries))
      ensures trace == old(trace) + RunTrace(host, run, old(entries), old(errorIn))
      ensures entries == After(host, run, FaultAt(old(errorIn)), old(entries))
      ensures stored <==>
                && Misses(host, run, old(entries)) && Prepares(host, run.uri, old(entries)) && Publishes(host, run)
                && !Fails(old(errorIn), |PreparePlan(host, run.uri, old(entries))| + |BodyPlan(host, run)|)
    {
      assert errorIn >= -1;
      ghost var disk, t, e := entries, trace, errorIn;
      TraceApplied(base, t, RunTrace(host, run, disk, e), disk);
      cached, stored := Miss, false;
      if SchemeOf(run.uri).None? || !run.clientFound {
        NoRun(host, run, disk, e);
        return;
      }
      cached := CheckDestination(run);
      if cached != Miss {
        NoRun(host, run, disk, e);
        return;
      }
      RunCases(host, run, disk, e);
      ghost var plan, body := PreparePlan(host, run.uri, disk), BodyPlan(host, run);
      ghost var e1 := Left(e, |plan|);
      assert Fails(e, |plan|) || Fails(e1, |body|) <==> Fails(e, |plan| + |body|);
      Regroup(t, plan, body[..Reached(e1, |body|)], [Remove(STAGING_DIR)]);
      hide PreparePlan, PrepareTrace, BodyPlan, RunTrace, Prepares, Publishes, Reached, Left, Fails, HasStaging;
      hide ApplyAll, Apply, CheckCache;
      var ok := PrepareStagingDirectory(run.uri);
      if !ok { return; }
      stored := StageAndPublish(run);
      var _ := Call(Remove(STAGING_DIR));
    }
  }

  function FaultAt(e: int): Fault {
    if e < 0 then NoFault else Error(e)
  }

  ghost function RunTrace(h: Host, run: Run, disk: Disk, e: int): seq<Op> {
    Effects(RunOps(h, run, disk), |Recover(h, run.uri, disk).ops|, FaultAt(e))
  }

  lemma NoRun(h: Host, run: Run, disk: Disk, e: int)
    requires !Misses(h, run, disk)
    ensures RunTrace(h, run, disk, e) == []
  {
  }

  lemma RunPlan(h: Host, run: Run, disk: Disk)
    requires Misses(h, run, disk)
    ensures RunOps(h, run, disk) ==
              PreparePlan(h, run.uri, disk) +
              if Prepares(h, run.uri, disk) then BodyPlan(h, run) + [Remove(STAGING_DIR)] else []
  {
    hide Recover, Prepares, RecordOps, PublishOps, Misses;
    var rec, claim, pull, record, publish := Recover(h, run.uri, disk).ops, ClaimOps(h, run.uri), PullOps(h, run),
        RecordOps(h, run), PublishOps(h, run);
    assert OpenOps(h, run) == claim + pull;
    hide OpenOps, ClaimOps, PullOps;
    if Prepares(h, run.uri, disk) {
      assert rec + (claim + pull + record + publish + [Remove(STAGING_DIR)]) == rec + claim
          + (pull + record + publish + [Remove(STAGING_DIR)]);
    }
  }

  /** The effects of a plan, a body and the closing cleanup, when call `e` fails. */
  lemma CutRun(recovered: nat, plan: seq<Op>, body: seq<Op>, e: int)
    requires e >= -1 && recovered + 3 == |plan|
    ensures var done, e1 := Effects(plan + body + [Remove(STAGING_DIR)], recovered, FaultAt(e)), Left(e, |plan|);
            if Fails(e, |plan|) then done == plan[..e] + if recovered < e then [Remove(STAGING_DIR)] else []
            else done == plan + body[..Reached(e1, |body|)] + if Fails(Left(e1, |body|), 1) then []
                else [Remove(STAGING_DIR)]
  {
    var parts := plan + body;
    var ops := parts + [Remove(STAGING_DIR)];
    if 0 <= e < |plan| {
      assert ops[..e] == plan[..e];
    } else if 0 <= e <= |parts| {
      assert ops[..e] == parts[..e] && parts[..e] == plan + body[..e - |plan|];
    } else {
      assert body[..|body|] == body;
    }
  }

  /** The effects of a run against the calls it makes, for every call that may fail. */
  lemma RunCases(h: Host, run: Run, disk: Disk, e: int)
    requires e >= -1 && Misses(h, run, disk)
    ensures var plan, body, done := PreparePlan(h, run.uri, disk), BodyPlan(h, run), RunTrace(h, run, disk, e);
            var e1 := Left(e, |plan|);
            if !Prepares(h, run.uri, disk) || Fails(e, |plan|) then done == PrepareTrace(h, run.uri, disk, e)
            else
              && PrepareTrace(h, run.uri, disk, e) == plan
              && done == plan + body[..Reached(e1, |body|)] + if Fails(Left(e1, |body|), 1) then []
                  else [Remove(STAGING_DIR)]
  {
    RunPlan(h, run, disk);
    var rec, plan, body, ops := Recover(h, run.uri, disk).ops, PreparePlan(h, run.uri, disk), BodyPlan(h, run),
        RunOps(h, run, disk);
    assert |rec| <= |plan| && (!Prepares(h, run.uri, disk) ==> plan == rec)
        && (Prepares(h, run.uri, disk) ==> |rec| + 3 == |plan|);
    hide Recover, Prepares, PreparePlan, BodyPlan, RunOps, Misses;
    if Prepares(h, run.uri, disk) {
      hide Effects;
      assert ops == plan + (body + [Remove(STAGING_DIR)]);
      assert ops == plan + body + [Remove(STAGING_DIR)];
      CutRun(|rec|, plan, body, e);
      if !Fails(e, |plan|) { assert plan[..|plan|] == plan; }
    }
  }

  ghost function BodyPlan(h: Host, run: Run): seq<Op> {
    PullOps(h, run) + RecordOps(h, run) + PublishOps(h, run)
  }

  /** The run has everything ready and no entry of it is named like staging. */
  ghost predicate Publishes(h: Host, run: Run) {
    Published(h, run).Some? && STAGING_DIR !in Published(h, run).value
  }

  lemma ReadyState(h: Host, run: Run)
    requires Ready(h, run).Some?
    ensures STATE_FILE in Ready(h, run).value
    ensures PublishOps(h, run) == CommitOps(h, run.uri, Ready(h, run).value)
    ensures Publishes(h, run) <==> Ready(h, run).value[STATE_FILE].File? && STAGING_DIR !in Ready(h, run).value
  {
    hide Assess, CommitOps;
    assert STAGING_DIR != STATE_FILE by { assert |STAGING_DIR| != |STATE_FILE|; }
  }

  lemma NoRecord(h: Host, run: Run, e: int)
    requires Assess(h, run).None? && !run.skipChecksum && e >= -1
    ensures Ready(h, run).None? && RecordOps(h, run) == [] && Left(e, 0) == e && !Fails(e, 0) && !Publishes(h, run)
  {
  }

  lemma SkipsRecord(h: Host, run: Run, e: int)
    requires run.skipChecksum && run.pullSucceeds && e >= -1
    ensures Ready(h, run) == Some(Pulled(h, run)) && RecordOps(h, run) == [] && Left(e, 0) == e && !Fails(e, 0)
  {
  }

  lemma BodyCases(h: Host, run: Run, e: int)
    requires e >= -1
    ensures Left(e, 2) >= -1
    ensures var pull, record, publish, plan := PullOps(h, run), RecordOps(h, run), PublishOps(h, run), BodyPlan(h, run);
            var e1 := Left(e, 2);
            var e2, done := Left(e1, |record|), plan[..Reached(e, |plan|)];
            if Fails(e, 2) then Fails(e, |plan|) && Left(e, |plan|) == e1 && done == pull[..Reached(e, 2)]
            else if !run.pullSucceeds then Left(e, |plan|) == e1 && done == pull[..Reached(e, 2)] && !Publishes(h, run)
            else
              && pull[..Reached(e, 2)] == pull
              && if Fails(e1, |record|) then Fails(e, |plan|) && Left(e, |plan|) == e2
                  && done == pull + record[..Reached(e1, |record|)]
                 else if Ready(h, run).None? then Left(e, |plan|) == e2 && done == pull + record
                     && record[..Reached(e1, |record|)] == record && !Publishes(h, run)
                 else
                   && (Fails(e, |plan|) <==> Fails(e2, |publish|)) && Left(e, |plan|) == Left(e2, |publish|)
                   && done == pull + record + publish[..Reached(e2, |publish|)]
                       && record[..Reached(e1, |record|)] == record
  {
    var pull, record, publish := PullOps(h, run), RecordOps(h, run), PublishOps(h, run);
    assert |pull| == 2;
    assert !run.pullSucceeds ==> record == [] && publish == [] && Published(h, run).None?;
    assert Ready(h, run).None? ==> publish == [] && Published(h, run).None?;
    hide PullOps, RecordOps, PublishOps, Ready, Published;
    CutConcat(pull + record, publish, e);
    CutConcat(pull, record, e);
  }

  lemma CommitCases(h: Host, uri: string, stage: Disk, e: int)
    requires e >= -1 && STATE_FILE in stage
    ensures var files, ops := Sorted((stage - {STATE_FILE}).Keys), CommitOps(h, uri, stage);
            var write := [TruncateState, WriteState(h.encodeState(StagingState(uri, COMMITTING, files)))];
            && (STAGING_DIR in files <==> STAGING_DIR in stage)
            && (if !stage[STATE_FILE].File? then ops == []
                else
                  && (Fails(e, |ops|) <==> Fails(e, 2) || Fails(Left(e, 2), |RenameOps(files)|))
                  && Left(e, |ops|) == Left(Left(e, 2), |RenameOps(files)|)
                  && ops[..Reached(e, |ops|)] == write[..Reached(e, 2)] +
                       if Fails(e, 2) then [] else RenameOps(files)[..Reached(Left(e, 2), |RenameOps(files)|)])
  {
    var files := Sorted((stage - {STATE_FILE}).Keys);
    assert STAGING_DIR != STATE_FILE by { assert |STAGING_DIR| != |STATE_FILE|; }
    assert STAGING_DIR in files <==> STAGING_DIR in stage;
    hide Sorted, RenameOps;
    CutConcat([TruncateState, WriteState(h.encodeState(StagingState(uri, COMMITTING, files)))], RenameOps(files), e);
  }

  lemma {:induction false} RenamesGoOn(files: seq<string>, i: nat)
    requires i < |files| && i <= |RenameOps(files)| && files[i] != STAGING_DIR
    ensures i < |RenameOps(files)|
    decreases i
  {
    if i > 0 { RenamesGoOn(files[1..], i - 1); }
  }

  lemma NextName(names: seq<string>, i: nat, files: seq<string>)
    requires Ascending(names) && Ascending(files) && i < |names|
    requires forall n :: n in files ==> n in names[..i]
    ensures Ascending(files + [names[i]])
    ensures forall n :: n in names[..i + 1] <==> n in names[..i] || n == names[i]
  {
    forall k | 0 <= k < |files| ensures Less(files[k], names[i]) { assert files[k] in names[..i]; }
    assert names[..i + 1] == names[..i] + [names[i]];
  }

  /** The names the commit loop will rename: everything but the state file, in listing order. */
  method PayloadNames(stage: Disk) returns (files: seq<string>)
    ensures files == Sorted((stage - {STATE_FILE}).Keys)
  {
    hide Sorted;
    var names := ReadDir(stage);
    files := [];
    var i := 0;
    while i < |names|
      invariant 0 <= i <= |names| && Ascending(files)
      invariant forall n :: n in files <==> n in names[..i] && n != STATE_FILE
    {
      NextName(names, i, files);
      if names[i] != STATE_FILE { files := files + [names[i]]; }
      i := i + 1;
    }
    assert names[..i] == names;
    AscendingUnique(files, Sorted((stage - {STATE_FILE}).Keys));
  }

  function PullOps(h: Host, run: Run): seq<Op> {
    [Fill(Opened(h, run.uri) + run.partial), Fill(Pulled(h, run))]
  }

  lemma ThreeFills(stage: Disk, a: Op, b: Op, c: Op)
    ensures FillAll(stage, [a, b, c]) == InStaging(InStaging(InStaging(stage, a), b), c)
  {
    assert [a, b, c][1..] == [b, c];
    FillTwo(InStaging(stage, a), b, c);
  }

  ghost function PreparePlan(h: Host, uri: string, disk: Disk): seq<Op> {
    Recover(h, uri, disk).ops + if Prepares(h, uri, disk) then ClaimOps(h, uri) else []
  }

  /** The effects of prepareStagingDirectory when call number `e` fails. */
  ghost function PrepareTrace(h: Host, uri: string, disk: Disk, e: int): seq<Op> {
    var plan := PreparePlan(h, uri, disk);
    plan[..Reached(e, |plan|)] + if |Recover(h, uri, disk).ops| < e < |plan| then [Remove(STAGING_DIR)] else []
  }

  lemma PrepareCases(h: Host, uri: string, disk: Disk, e: int)
    requires e >= -1
    ensures var rec, n := Recover(h, uri, disk).ops, |PreparePlan(h, uri, disk)|;
            var later := Left(e, |rec|);
            var done := PrepareTrace(h, uri, disk, e);
            if Fails(e, |rec|) then Fails(e, n) && Left(e, n) == later && done == rec[..Reached(e, |rec|)]
            else if !Prepares(h, uri, disk) then n == |rec| && done == rec && rec[..Reached(e, |rec|)] == rec
            else
              && (Fails(e, n) <==> Fails(later, 3)) && Left(e, n) == Left(later, 3) && rec[..Reached(e, |rec|)] == rec
              && done == rec + ClaimOps(h, uri)[..Reached(later, 3)] + if 0 < later < 3 then [Remove(STAGING_DIR)]
                  else []
  {
    var rec, claim := Recover(h, uri, disk).ops, ClaimOps(h, uri);
    assert |claim| == 3;
    hide Recover, ClaimOps, Prepares;
    CutConcat(rec, claim, e);
  }

  lemma Regroup(t: seq<Op>, a: seq<Op>, b: seq<Op>, c: seq<Op>)
    ensures t + a + b + c == t + (a + b + c) && t + a + b == t + (a + b)
  {
  }

  /** Counting the failing call down over two lists of calls. */
  lemma CutConcat(a: seq<Op>, b: seq<Op>, e: int)
    requires e >= -1
    ensures Fails(e, |a + b|) <==> Fails(e, |a|) || Fails(Left(e, |a|), |b|)
    ensures Fails(e, |a|) ==>
        (a + b)[..Reached(e, |a + b|)] == a[..Reached(e, |a|)]
        && Left(e, |a + b|) == -1 == Left(e, |a|)
    ensures !Fails(e, |a|) ==>
              && a[..Reached(e, |a|)] == a
              && (a + b)[..Reached(e, |a + b|)] == a + b[..Reached(Left(e, |a|), |b|)]
              && Left(e, |a + b|) == Left(Left(e, |a|), |b|)
  {
  }

  /** The effects that open a transaction. */
  function ClaimOps(h: Host, uri: string): seq<Op> {
    [MakeStaging, TruncateState, WriteState(h.encodeState(StagingState(uri, DOWNLOADING, [])))]
  }

  lemma EmptyListing(disk: Disk)
    ensures Sorted(disk.Keys) == [] <==> disk == map[]
  {
    if disk.Keys != {} {
      var n :| n in disk.Keys;
      assert n in Sorted(disk.Keys);
    } else {
      assert forall n :: n !in Sorted(disk.Keys);
      assert Sorted(disk.Keys) == [];
      assert disk == map[];
    }
  }

  lemma TraceApplied(base: Disk, before: seq<Op>, ops: seq<Op>, disk: Disk)
    requires disk == ApplyAll(base, before)
    ensures ApplyAll(base, before + ops) == ApplyAll(disk, ops)
  {
    ApplyAllConcat(base, before, ops);
  }

  /** A scan that has done part of its removals, `left` counting down to the failing one. */
  ghost predicate Scanning(all: Recovery, done: seq<Op>, rest: Recovery, e: int, left: int) {
    && e >= -1 && all == Recovery(done + rest.ops, rest.ok)
    && !Fails(e, |done|) && left == Left(e, |done|)
  }

  /** The next removal: it fails and the scan ends there, or it succeeds and the scan goes on. */
  lemma ScanAdvance(all: Recovery, done: seq<Op>, rest: Recovery, op: Op, next: Recovery, e: int, left: int)
    requires Scanning(all, done, rest, e, left) && rest == Recovery([op] + next.ops, next.ok)
    ensures Fails(left, 1) ==>
              && Fails(e, |all.ops|) && Left(left, 1) == Left(e, |all.ops|) && all.ops[..Reached(e, |all.ops|)] == done
    ensures !Fails(left, 1) ==> Scanning(all, done + [op], next, e, Left(left, 1))
  {
    assert all.ops == done + [op] + next.ops;
  }

  lemma ScanFinished(all: Recovery, done: seq<Op>, rest: Recovery, e: int, left: int)
    requires Scanning(all, done, rest, e, left) && rest.ops == []
    ensures all.ok == rest.ok && !Fails(e, |all.ops|) && left == Left(e, |all.ops|)
    ensures all.ops[..Reached(e, |all.ops|)] == done
  {
  }

  lemma ScanStop(names: seq<string>, state: StagingState)
    requires names == []
    ensures ScanEntries(names, state) == Recovery([Remove(STAGING_DIR)], true)
  {
  }

  lemma ScanStep(names: seq<string>, i: nat, state: StagingState)
    requires i < |names|
    ensures var here, next := ScanEntries(names[i..], state), ScanEntries(names[i + 1..], state);
            if names[i] == STAGING_DIR then here == next
            else if state.phase != COMMITTING || names[i] !in state.files then here == Recovery([], false)
            else here == Recovery([Remove(names[i])] + next.ops, next.ok)
  {
    assert names[i..][0] == names[i] && names[i..][1..] == names[i + 1..];
  }
}
