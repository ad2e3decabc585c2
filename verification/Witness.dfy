/** The assumptions of the storage theorems can be met, and the hits they speak of do occur. */
module Witness {
  import opened Names
  import opened Tree
  import opened Transaction
  import opened History
  import opened Completeness
  import opened CacheHits
  import opened Recovery

  /** A text behind its length in unary. */
  function Framed(s: string): string {
    seq(|s|, i => '1') + ['0'] + s
  }

  lemma FramedLength(a: string, b: string, x: string, y: string)
    requires Framed(a) + x == Framed(b) + y
    ensures |a| == |b|
  {
    var text := Framed(a) + x;
    assert forall i :: 0 <= i < |a| ==> text[i] == '1';
    assert forall i :: 0 <= i < |b| ==> text[i] == '1';
    assert text[|a|] == '0' && text[|b|] == '0';
  }

  lemma FramedInjective(a: string, b: string, x: string, y: string)
    requires Framed(a) + x == Framed(b) + y
    ensures a == b && x == y
  {
    FramedLength(a, b, x, y);
    var n, text := |a|, Framed(a) + x;
    assert text[n + 1..][..n] == a && text[n + 1..][..n] == b;
    assert text[n + 1..][n..] == x && text[n + 1..][n..] == y;
  }

  function FramedAll(list: seq<string>): string {
    if list == [] then "0" else ['1'] + (Framed(list[0]) + FramedAll(list[1..]))
  }

  lemma {:induction false} FramedAllInjective(a: seq<string>, b: seq<string>)
    requires FramedAll(a) == FramedAll(b)
    ensures a == b
  {
    hide Framed;
    assert a == [] <==> FramedAll(a)[0] == '0';
    assert b == [] <==> FramedAll(b)[0] == '0';
    if a != [] {
      assert FramedAll(a)[1..] == Framed(a[0]) + FramedAll(a[1..]);
      assert FramedAll(b)[1..] == Framed(b[0]) + FramedAll(b[1..]);
      FramedInjective(a[0], b[0], FramedAll(a[1..]), FramedAll(b[1..]));
      FramedAllInjective(a[1..], b[1..]);
      assert a == [a[0]] + a[1..] && b == [b[0]] + b[1..];
    }
  }

  function StateTexts(s: StagingState): seq<string> {
    [s.subject, s.phase] + s.files
  }

  function Bit(b: bool): string {
    if b then "1" else ""
  }

  function RecordTexts(r: Record): seq<string> {
    [r.subject, r.scheme, Bit(r.signatureVerified), Bit(r.attestationVerified), Bit(r.sbomVerified), r.signatureDigest,
     r.attestationUri, r.sbomDigest, r.contentDigest, Bit(r.contentIntegrityVerified), r.error]
  }

  function EncodeState(s: StagingState): string {
    FramedAll(StateTexts(s))
  }

  function EncodeRecord(r: Record): string {
    FramedAll(RecordTexts(r))
  }

  ghost function ParseState(text: string): Option<StagingState> {
    if exists s :: EncodeState(s) == text then var s :| EncodeState(s) == text; Some(s) else None
  }

  ghost function ParseRecord(text: string): Option<Record> {
    if exists r :: EncodeRecord(r) == text then var r :| EncodeRecord(r) == text; Some(r) else None
  }

  lemma StateParsedBack(s: StagingState)
    ensures ParseState(EncodeState(s)) == Some(s) && EncodeState(s) != ""
  {
    var t := ParseState(EncodeState(s)).value;
    FramedAllInjective(StateTexts(s), StateTexts(t));
    assert s.files == StateTexts(s)[2..] && t.files == StateTexts(t)[2..];
    assert StateTexts(s)[0] == s.subject && StateTexts(s)[1] == s.phase && StateTexts(t)[0] == t.subject
        && StateTexts(t)[1] == t.phase;
  }

  lemma RecordParsedBack(r: Record)
    ensures ParseRecord(EncodeRecord(r)) == Some(r) && EncodeRecord(r) != ""
  {
    hide FramedAll;
    var t := ParseRecord(EncodeRecord(r)).value;
    FramedAllInjective(RecordTexts(r), RecordTexts(t));
    SameRecord(r, t);
    FramedSomething(RecordTexts(r));
  }

  lemma FramedSomething(list: seq<string>)
    ensures FramedAll(list) != ""
  {
  }

  lemma SameRecord(r: Record, t: Record)
    requires RecordTexts(r) == RecordTexts(t)
    ensures r == t
  {
    var a, b := RecordTexts(r), RecordTexts(t);
    assert a[0] == b[0] && a[1] == b[1] && a[2] == b[2] && a[3] == b[3] && a[4] == b[4] && a[5] == b[5];
    assert a[6] == b[6] && a[7] == b[7] && a[8] == b[8] && a[9] == b[9] && a[10] == b[10];
  }

  /** Some host has faithful codecs and a hash without collisions. */
  lemma HostExists() returns (h: Host)
    ensures Faithful(h) && CollisionFree(h)
  {
    h := Host(x => x, EncodeState, ParseState, EncodeRecord, ParseRecord);
    forall s ensures h.parseState(h.encodeState(s)) == Some(s) { StateParsedBack(s); }
    forall r ensures h.parseRecord(h.encodeRecord(r)) == Some(r) { RecordParsedBack(r); }
    assert ParseState("") == None by { forall s ensures EncodeState(s) != "" { StateParsedBack(s); } }
    assert ParseRecord("") == None by { forall r ensures EncodeRecord(r) != "" { RecordParsedBack(r); } }
  }

  /** Storing one file and asking again: a complete hit, by the branch the scheme calls for. */
  lemma StoredThenHit(h: Host, run: Run, name: string)
    requires Faithful(h) && CollisionFree(h) && OneFile(run, name) && STATE_FILE !in run.partial
    ensures var disk := DiskAfter(h, [Step(run, NoFault)]);
            && Holds(h, disk, run)
            && (if IsOci(run.uri) then CheckCache(h, run, disk).VerifiedHit? else CheckCache(h, run, disk).DigestHit?)
  {
    hide After, CheckCache, Holds, Faithful, CollisionFree, IsOci, Misses, Checked, Published, SchemeOf, Less;
    OneFilePublished(h, run, name);
    RecoverNothing(h, run.uri, map[]);
    CompletedRunHits(h, run, map[]);
    var steps := [Step(run, NoFault)];
    assert steps[..0] == [] && DiskAfter(h, steps[..0]) == map[];
  }

  lemma {:induction false} SchemeBefore(scheme: string, rest: string)
    requires ':' !in scheme
    ensures SchemeOf(scheme + "://" + rest) == Some(scheme)
    decreases |scheme|
  {
    var uri := scheme + "://" + rest;
    if scheme == "" {
      assert uri[..3] == "://";
    } else {
      SchemeBefore(scheme[1..], rest);
      assert uri[1..] == scheme[1..] + "://" + rest && uri[..3][0] == scheme[0] != ':';
      assert [scheme[0]] + scheme[1..] == scheme;
    }
  }

  /** A run that stores the one file `name`, for a scheme without provenance. */
  lemma PlainRun(uri: string, name: string, content: string) returns (run: Run)
    requires SchemeOf(uri).Some? && !IsOci(uri) && ProperName(name) && Less(RECORD_DIR, name)
    requires name != STAGING_DIR && name != STATE_FILE && name != RECORD_DIR
    ensures OneFile(run, name) && run.uri == uri && run.partial == map[]
  {
    hide SchemeOf, IsOci, ProperName, Less;
    run := Run(uri, false, true, map[], map[name := File(content)], true, true, CosignFails);
  }

  lemma PlainUri()
    ensures SchemeOf("s3://m") == Some("s3") && !IsOci("s3://m")
  {
    SchemeBefore("s3", "m");
    assert "s3://m" == "s3" + "://" + "m";
    hide SchemeOf;
    assert |"s3"| != |"oci"| && |"s3"| != |"ocis"|;
  }

  lemma PlainName()
    ensures ProperName("w") && Less(RECORD_DIR, "w") && "w" != STAGING_DIR && "w" != STATE_FILE && "w" != RECORD_DIR
  {
    assert |"w"| != |STAGING_DIR| && |"w"| != |STATE_FILE| && |"w"| != |RECORD_DIR|;
    assert RECORD_DIR[0] == '.';
  }

  /** The digest theorem is not about nothing: some history ends in a digest hit. */
  lemma DigestHitsOccur() returns (h: Host, run: Run)
    ensures Faithful(h) && CollisionFree(h) && Checked(run)
    ensures CheckCache(h, run, DiskAfter(h, [Step(run, NoFault)])).DigestHit?
  {
    hide Faithful, CollisionFree, CheckCache, DiskAfter, OneFile, IsOci, Checked;
    hide SchemeOf, ProperName, Less;
    h := HostExists();
    PlainUri();
    PlainName();
    run := PlainRun("s3://m", "w", "x");
    OneFilePublished(h, run, "w");
    StoredThenHit(h, run, "w");
  }
}
