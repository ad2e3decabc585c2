/** What the steps of the transaction keep: digest, entries, and everything recovery may not touch. */
module Protocol {
  import opened Names
  import opened Tree
  import opened Transaction
  import opened Moves
  import opened Shapes
  import opened History
  import opened Completeness

  // ---- The commit conserves the payload -------------------------------------------------------------

  /** After any number of renames every entry is in exactly one place, unchanged, and none is lost. */
  lemma CommitConserves(h: Host, run: Run, t: nat)
    requires Misses(h, run, map[]) && Published(h, run).Some? && t <= Movable(h, run)
    ensures var disk, all := ApplyAll(map[], FrontOps(h, run) + RenameOps(Listing(h, run))[..t]),
        Published(h, run).value;
            && HasStaging(disk)
            && (disk - {STAGING_DIR}).Keys !! (Staging(disk) - {STATE_FILE}).Keys
            && (disk - {STAGING_DIR}) + (Staging(disk) - {STATE_FILE}) == all
            && |(disk - {STAGING_DIR}).Keys| == t
  {
    hide Published, Listing, Movable, FrontOps, RenameOps, ApplyAll, Halfway, CommitState;
    RenamesPrefix(h, run, t);
    MovableNames(h, run, 0, t);
    PublishedLists(h, run);
    HalfwayConserves(Published(h, run).value, Listing(h, run), CommitState(h, run), t);
  }

  lemma HalfwayConserves(all: Disk, names: seq<string>, state: Node, t: nat)
    requires Lists(names, all) && t <= |names| && STAGING_DIR !in names[0..t]
    ensures var disk := Halfway(all, names, state, 0, t);
            && HasStaging(disk)
            && (disk - {STAGING_DIR}).Keys !! (Staging(disk) - {STATE_FILE}).Keys
            && (disk - {STAGING_DIR}) + (Staging(disk) - {STATE_FILE}) == all
            && |(disk - {STAGING_DIR}).Keys| == t
  {
    hide Halfway, Restrict, Set;
    HalfwayWithoutStaging(all, names, state, 0, t);
    HalfwayStaging(all, names, state, t);
    SplitsListing(names, t);
    ListingSize(names, t);
    assert names[0..t] == names[..t];
    assert Set(names) == all.Keys by { ListsSet(names, all); }
    RestrictSplit(all, Set(names[..t]), Set(names[t..]));
  }

  lemma ListsSet(names: seq<string>, all: Disk)
    requires Lists(names, all)
    ensures Set(names) == all.Keys
  {
  }

  lemma HalfwayStaging(all: Disk, names: seq<string>, state: Node, t: nat)
    requires t <= |names| && STATE_FILE !in all
    ensures HasStaging(Halfway(all, names, state, 0, t))
    ensures Staging(Halfway(all, names, state, 0, t)) - {STATE_FILE} == Restrict(all, Set(names[t..]))
  {
  }

  lemma RestrictSplit(all: Disk, l: set<string>, r: set<string>)
    requires l !! r && l + r == all.Keys
    ensures Restrict(all, l).Keys == l && Restrict(all, r).Keys == r
    ensures Restrict(all, l) + Restrict(all, r) == all
  {
  }

  lemma SplitsListing(names: seq<string>, t: nat)
    requires Ascending(names) && t <= |names|
    ensures Set(names[..t]) !! Set(names[t..])
    ensures Set(names[..t]) + Set(names[t..]) == Set(names)
  {
    assert names == names[..t] + names[t..];
    forall n | n in names[..t] ensures n !in names[t..] {
      var i :| 0 <= i < t && names[i] == n;
      LessIrreflexive(n);
    }
  }

  lemma OneMoreListed(names: seq<string>, t: nat)
    requires Ascending(names) && 0 < t <= |names|
    ensures Set(names[..t]) == Set(names[..t - 1]) + {names[t - 1]} && names[t - 1] !in Set(names[..t - 1])
  {
    assert names[..t] == names[..t - 1] + [names[t - 1]];
    LessIrreflexive(names[t - 1]);
  }

  lemma {:induction false} ListingSize(names: seq<string>, t: nat)
    requires Ascending(names) && t <= |names|
    ensures |Set(names[..t])| == t
    decreases t
  {
    if t == 0 {
      assert Set(names[..0]) == {};
    } else {
      hide Set, Ascending;
      ListingSize(names, t - 1);
      OneMoreListed(names, t);
    }
  }

  // ---- The digest does not move ---------------------------------------------------------------------------

  /** Same digest when assessed, with the record added, after the last rename, and after cleanup. */
  lemma DigestInvariant(h: Host, run: Run)
    requires WritesRecord(h, run) && OwnRecord(run) && Movable(h, run) == |Listing(h, run)|
    ensures var n := |Listing(h, run)|;
            && Digest(h, Pulled(h, run)) == Some(RecordOf(h, run).contentDigest)
            && Digest(h, Ready(h, run).value) == Digest(h, Pulled(h, run))
            && Digest(h, MovingDisk(h, run, 0, n)) == Digest(h, Pulled(h, run))
            && Digest(h, KeptDisk(h, run, n)) == Digest(h, Pulled(h, run))
  {
    hide Published, Listing, Movable, Ready, Pulled, RecordOf, CommitState, Files, Clean, Stream, Halfway;
    RecordFacts(h, run);
    PublishedFiles(h, run);
    PublishedLists(h, run);
    StateIsFile(h, run);
    ReadyForm(h, run);
    var all, names := Published(h, run).value, Listing(h, run);
    MovableNames(h, run, 0, |names|);
    HalfwayWhole(all, names, CommitState(h, run));
  }

  lemma HalfwayWhole(all: Disk, names: seq<string>, state: Node)
    requires Lists(names, all) && STAGING_DIR !in names[0..|names|] && state.File? && Clean(all)
    ensures Files(Halfway(all, names, state, 0, |names|)) == Files(all) && Clean(Halfway(all, names, state, 0, |names|))
    ensures Files(Restrict(all, Set(names[..|names|]))) == Files(all) && Clean(Restrict(all, Set(names[..|names|])))
  {
    hide Files, Clean, Halfway, Prefixed, Slice;
    var n := |names|;
    assert names[0..n] == names && names[..n] == names;
    WholeFiles(all, names);
    RestrictFiles(all, names, 0, n);
    HalfwayClean(all, names, state, 0, n);
    var b1, b2 := HalfwayFiles(all, names, state, 0, n);
    NothingStaged(all, names);
    assert b1 + [] + b2 == b1 + b2;
  }

  lemma NothingStaged(all: Disk, names: seq<string>)
    requires Lists(names, all)
    ensures Prefixed(STAGING_DIR + "/", Slice(all, names, |names|, |names|)) == []
  {
    assert names[|names|..|names|] == [];
  }

  lemma ReadyHasState(h: Host, run: Run)
    requires WritesRecord(h, run)
    ensures Ready(h, run).Some? && STATE_FILE in Ready(h, run).value && Ready(h, run).value[STATE_FILE].File?
    ensures Published(h, run).value == Ready(h, run).value - {STATE_FILE}
  {
    hide Ready;
  }

  /** Staging at commit differs from what is published by the state file alone. */
  lemma ReadyForm(h: Host, run: Run)
    requires WritesRecord(h, run)
    ensures Files(Ready(h, run).value) == Files(Published(h, run).value)
    ensures Clean(Published(h, run).value) ==> Clean(Ready(h, run).value)
  {
    hide Files, Ready, Published, Entry, LinkFree;
    ReadyHasState(h, run);
    var stage := Ready(h, run).value;
    assert stage[STATE_FILE] == File(stage[STATE_FILE].content);
    StateUnseen(stage[STATE_FILE].content);
    FilesWithout(stage, STATE_FILE);
    assert forall n :: n in stage && n != STATE_FILE ==> (stage - {STATE_FILE})[n] == stage[n];
  }

  // ---- Recovery touches only what it owns ---------------------------------------------------------------------

  ghost predicate ListedFor(state: StagingState, name: string) {
    state.phase == COMMITTING && name in state.files
  }

  /** What a scan of `names` may do: only listed entries go, and staging goes exactly when all of them were listed. */
  ghost predicate Scanned(disk: Disk, names: set<string>, state: StagingState, ok: bool, after: Disk) {
    && after.Keys <= disk.Keys && (forall n :: n in after ==> after[n] == disk[n])
    && (forall n :: n in disk && n !in after && n != STAGING_DIR ==> n in names && ListedFor(state, n))
    && (STAGING_DIR in disk ==> (STAGING_DIR !in after <==> ok))
    && (ok <==> forall n :: n in names && n != STAGING_DIR ==> ListedFor(state, n))
    && (ok ==> after.Keys == disk.Keys - {STAGING_DIR} - names)
  }

  lemma {:induction false} ScanSafe(disk: Disk, names: seq<string>, state: StagingState)
    ensures Scanned(disk, Set(names), state, ScanEntries(names, state).ok,
        ApplyAll(disk, ScanEntries(names, state).ops))
    decreases |names|
  {
    if names == [] {
      ApplyOne(disk, Remove(STAGING_DIR));
    } else {
      assert names == [names[0]] + names[1..];
      assert Set(names) == {names[0]} + Set(names[1..]);
      if names[0] == STAGING_DIR {
        ScanSafe(disk, names[1..], state);
      } else if ListedFor(state, names[0]) {
        var rest := ScanEntries(names[1..], state);
        ScanSafe(disk - {names[0]}, names[1..], state);
        assert ([Remove(names[0])] + rest.ops)[1..] == rest.ops;
      }
    }
  }

  ghost predicate OwnState(h: Host, uri: string, disk: Disk) {
    HasStaging(disk) && ClaimedStage(h, uri, Staging(disk))
  }

  /**
   * Recovery on any destination: a foreign or unreadable transaction, or a download beside other files, leaves it
   * untouched; otherwise only listed entries go, the rest stay as they were, and staging goes exactly when all others
   * did.
   */
  lemma RecoveryTouchesOnlyItsOwn(h: Host, uri: string, disk: Disk)
    ensures var rec := Recover(h, uri, disk);
            var after := ApplyAll(disk, rec.ops);
            && (!OwnState(h, uri, disk) ==> after == disk)
            && (OwnState(h, uri, disk) ==>
                  var state := LoadState(h, Staging(disk)).value;
                  && Scanned(disk, disk.Keys, state, rec.ok, after)
                  && (rec.ok <==> after == map[])
                  && (state.phase == DOWNLOADING && !OnlyStaging(disk) ==> after == disk))
  {
    hide LoadState, ApplyAll, ScanEntries;
    if OwnState(h, uri, disk) {
      var state := LoadState(h, Staging(disk)).value;
      RecoverScans(h, uri, disk);
      ScanSafe(disk, Sorted(disk.Keys), state);
      assert Set(Sorted(disk.Keys)) == disk.Keys;
      hide Sorted, Recover, Scanned;
      ScannedAll(disk, state, Recover(h, uri, disk).ok, ApplyAll(disk, Recover(h, uri, disk).ops));
    } else {
      assert Recover(h, uri, disk).ops == [];
      NothingApplied(disk);
    }
  }

  /** Scanning the whole destination empties it or keeps staging; a download beside other files keeps everything. */
  lemma ScannedAll(disk: Disk, state: StagingState, ok: bool, after: Disk)
    requires HasStaging(disk) && Scanned(disk, disk.Keys, state, ok, after)
    ensures ok <==> after == map[]
    ensures state.phase == DOWNLOADING && !OnlyStaging(disk) ==> after == disk
  {
    assert |DOWNLOADING| != |COMMITTING|;
    if state.phase == DOWNLOADING && !OnlyStaging(disk) {
      assert exists n :: n in disk && n != STAGING_DIR;
      assert forall n :: n in disk ==> n in after;
    }
  }

  lemma NothingApplied(disk: Disk)
    ensures ApplyAll(disk, []) == disk
  {
  }

  lemma RecoverScans(h: Host, uri: string, disk: Disk)
    requires OwnState(h, uri, disk)
    ensures Recover(h, uri, disk) == ScanEntries(Sorted(disk.Keys), LoadState(h, Staging(disk)).value)
  {
  }
}
