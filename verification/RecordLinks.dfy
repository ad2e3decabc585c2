/** Payloads that bring their own link at the record path: what the record then does to them. */
module RecordLinks {
  import opened Names
  import opened Tree
  import opened Transaction
  import opened Moves
  import opened Shapes
  import opened History
  import opened Completeness
  import opened CacheHits

  /** Replacing one entry keeps the list of hashed files exactly when that entry hashes alike. */
  lemma FilesReplacedExactly(rest: Disk, x: string, a: Node, b: Node)
    requires x !in rest && x != STATE_FILE && a.File? && b.File?
    ensures Files(rest[x := a]) == Files(rest[x := b]) <==> a == b
    ensures Files(rest[x := a]) != Files(rest)
  {
    hide Files, Entry;
    FileEntry(x, a);
    FileEntry(x, b);
    BagWith(rest, x, a);
    BagWith(rest, x, b);
    var fa, fb := Hashed(x, a.content), Hashed(x, b.content);
    if Files(rest[x := a]) == Files(rest[x := b]) {
      assert (multiset(Files(rest)) + multiset{fa})[fa] == (multiset(Files(rest)) + multiset{fb})[fa];
    }
    assert |multiset(Files(rest)) + multiset{fa}| == |multiset(Files(rest))| + 1;
  }

  lemma BagWith(rest: Disk, x: string, node: Node)
    requires x !in rest
    ensures multiset(Files(rest[x := node])) == multiset(Files(rest)) + multiset(Entry("", x, node))
  {
    hide Walk, Entry, Sorted;
    var before, after := WalkInsert("", rest, x, node);
  }

  /** The record of a run whose payload links the record path to `target` is written there. */
  lemma LinkedForm(h: Host, run: Run, target: string)
    requires WritesRecord(h, run) && RecordLink(run.payload) == Some(target)
    ensures target != RECORD_DIR && RECORD_DIR in Pulled(h, run)
    ensures target in Pulled(h, run) ==> Pulled(h, run)[target].File?
    ensures STATE_FILE in Pulled(h, run) && Pulled(h, run)[STATE_FILE].File?
    ensures Published(h, run).value == Pulled(h, run)[target := File(h.encodeRecord(RecordOf(h, run)))] - {STATE_FILE}
  {
    hide Digest, Provenance, Sorted;
    assert RECORD_DIR != STATE_FILE by { assert |RECORD_DIR| != |STATE_FILE|; }
    assert RecordLink(Pulled(h, run)) == Some(target);
  }

  /** The link spares the payload: it leads to the state file, or to a file that already reads like the record. */
  ghost predicate Spared(h: Host, run: Run, target: string)
    requires WritesRecord(h, run)
  {
    target == STATE_FILE || (target in run.payload && run.payload[target] == File(h.encodeRecord(RecordOf(h, run))))
  }

  /**
   * What is published hashes like what was assessed exactly when no link at the record path leads to a payload file.
   */
  lemma PublishedFilesExactly(h: Host, run: Run)
    requires WritesRecord(h, run)
    ensures Files(Published(h, run).value) == PulledFiles(h, run) <==>
            OwnRecord(run) || Spared(h, run, RecordLink(run.payload).value)
  {
    if OwnRecord(run) {
      PublishedFiles(h, run);
    } else {
      LinkedFilesExactly(h, run, RecordLink(run.payload).value);
    }
  }

  lemma OverwrittenExactly(stage: Disk, target: string, text: Node)
    requires STATE_FILE in stage && target != STATE_FILE && text.File? && (target in stage ==> stage[target].File?)
    ensures Files(stage[target := text] - {STATE_FILE}) == Files(stage - {STATE_FILE}) <==>
            target in stage && stage[target] == text
  {
    hide Files;
    var bare := stage - {STATE_FILE};
    var rest := bare - {target};
    assert stage[target := text] - {STATE_FILE} == rest[target := text];
    if target in stage {
      assert bare == rest[target := stage[target]];
      FilesReplacedExactly(rest, target, text, stage[target]);
    } else {
      assert bare == rest;
      FilesReplacedExactly(rest, target, text, text);
    }
  }

  lemma PulledEntry(h: Host, run: Run, n: string)
    requires n != STATE_FILE
    ensures n in Pulled(h, run) <==> n in run.payload
    ensures n in run.payload ==> Pulled(h, run)[n] == run.payload[n]
  {
  }

  lemma LinkedFilesExactly(h: Host, run: Run, target: string)
    requires WritesRecord(h, run) && RecordLink(run.payload) == Some(target)
    ensures Files(Published(h, run).value) == PulledFiles(h, run) <==> Spared(h, run, target)
  {
    hide Files, Published, Pulled, RecordOf, PulledFiles, RecordLink;
    LinkedForm(h, run, target);
    StateAside(h, run);
    var stage, text := Pulled(h, run), File(h.encodeRecord(RecordOf(h, run)));
    if target == STATE_FILE {
      assert stage[target := text] - {STATE_FILE} == stage - {STATE_FILE};
    } else {
      PulledEntry(h, run, target);
      OverwrittenExactly(stage, target, text);
    }
  }

  lemma StateAside(h: Host, run: Run)
    requires STATE_FILE in Pulled(h, run) && Pulled(h, run)[STATE_FILE].File?
    ensures Files(Pulled(h, run) - {STATE_FILE}) == PulledFiles(h, run)
  {
    var stage := Pulled(h, run);
    hide Files, Entry, Pulled, LinkFree;
    StateUnseen(stage[STATE_FILE].content);
    FilesWithout(stage, STATE_FILE);
  }

  /** A completed OCI run with such a link: the next run trusts its record, on a payload it has overwritten. */
  lemma LinkedRecordTrusted(h: Host, run: Run, target: string)
    requires Faithful(h) && WritesRecord(h, run) && IsOci(run.uri) && Misses(h, run, map[])
    requires RecordLink(run.payload) == Some(target) && target != STATE_FILE && target != STAGING_DIR
    requires STAGING_DIR !in run.payload
    ensures var disk := After(h, run, NoFault, map[]);
            && CheckCache(h, run, disk) == VerifiedHit(RecordOf(h, run))
            && (Holds(h, disk, run) <==> Spared(h, run, target))
  {
    hide Published, Pulled, RecordOf, After, Files, Faithful, Misses, IsOci, Spared, PulledFiles, RecordText;
    hide LoadRecord;
    LinkedEntries(h, run, target);
    StoresAll(h, run);
    LinkedFilesExactly(h, run, target);
    var all := Published(h, run).value;
    assert all - {STAGING_DIR} == all;
    LinkedParsed(h, run, all);
    RecordFacts(h, run);
    VerifiedExactlyOci(h, run);
  }

  lemma LinkedEntries(h: Host, run: Run, target: string)
    requires WritesRecord(h, run) && RecordLink(run.payload) == Some(target) && target != STATE_FILE
        && target != STAGING_DIR
    requires STAGING_DIR !in run.payload
    ensures var all := Published(h, run).value;
            all != map[] && STAGING_DIR !in all && RecordText(all) == Some(h.encodeRecord(RecordOf(h, run)))
  {
    hide Published, Pulled, RecordOf;
    LinkedForm(h, run, target);
    Reserved();
    PulledEntry(h, run, RECORD_DIR);
    PulledEntry(h, run, STAGING_DIR);
    var all := Published(h, run).value;
    assert all[RECORD_DIR] == run.payload[RECORD_DIR] && target in all;
  }

  lemma Reserved()
    ensures RECORD_DIR != STATE_FILE && RECORD_DIR != STAGING_DIR && STATE_FILE != STAGING_DIR
  {
    assert |RECORD_DIR| != |STATE_FILE| && |RECORD_DIR| != |STAGING_DIR| && |STATE_FILE| != |STAGING_DIR|;
  }

  lemma LinkedParsed(h: Host, run: Run, disk: Disk)
    requires Faithful(h) && WritesRecord(h, run) && RecordText(disk) == Some(h.encodeRecord(RecordOf(h, run)))
    ensures LoadRecord(h, disk) == Some(RecordOf(h, run))
  {
    hide RecordOf, RecordText;
  }

  /** A run that is not cut and finds nothing leaves exactly its published entries. */
  lemma StoresAll(h: Host, run: Run)
    requires Misses(h, run, map[]) && Published(h, run).Some? && STAGING_DIR !in Published(h, run).value
    ensures After(h, run, NoFault, map[]) == Published(h, run).value
  {
    hide Published, Listing, RenameOps, SessionOps, FrontOps, ApplyAll, Misses, Restrict;
    var all, names := Published(h, run).value, Listing(h, run);
    RecoverNothing(h, run.uri, map[]);
    RenameOpsShape(names);
    assert names == [] ==> all == map[];
    SessionSplit(h, run);
    FrontWithin(h, run);
    SessionWhole(h, run);
    assert RunOps(h, run, map[]) == SessionOps(h, run);
    WholeListing(all, names);
    assert names[..|names|] == names;
  }

  lemma WholeListing(all: Disk, names: seq<string>)
    requires forall n :: n in names <==> n in all
    ensures Restrict(all, Set(names)) == all
  {
  }
}
