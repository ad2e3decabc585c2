/** The conformance suite: registered vectors, and the verdict lattice that sums up their results. */
module Conformance {

  const SATISFIED := "satisfied"
  const DEGRADED := "degraded"
  const REJECTED := "rejected"
  const QUARANTINED := "quarantined"
  const HALT := "halt_violation"
  const HARD_ANTI := "hard_anti_invariant"

  datatype VectorResult = VectorResult(id: string, class_: string, severity: string, verdict: string)

  datatype Summary = Summary(
    total: nat, passed: nat, degraded: nat, rejected: nat, quarantined: nat, halted: nat,
    verdict: string, dominance: bool, trust: string, coverage: map<string, nat>, results: seq<VectorResult>)

  function Rank(v: string): nat {
    if v == HALT then 5 else if v == QUARANTINED then 4 else if v == REJECTED then 3
    else if v == DEGRADED then 2 else if v == SATISFIED then 1 else 0
  }

  predicate Known(v: string) {
    Rank(v) > 0
  }

  predicate Viable(s: Summary) {
    s.verdict != HALT && s.halted == 0
  }

  // ---- What a summary means --------------------------------------------------------------------------------

  /** What a counter counts: a verdict or a class. */
  datatype Mark = OfVerdict(verdict: string) | OfClass(class_: string)

  predicate Bears(r: VectorResult, m: Mark) {
    match m case OfVerdict(v) => r.verdict == v case OfClass(c) => r.class_ == c
  }

  function Count(rs: seq<VectorResult>, m: Mark): nat {
    if rs == [] then 0 else Count(rs[..|rs| - 1], m) + if Bears(rs[|rs| - 1], m) then 1 else 0
  }

  predicate Violates(r: VectorResult) {
    r.severity == HARD_ANTI && r.verdict != SATISFIED
  }

  predicate Hard(rs: seq<VectorResult>) {
    exists r :: r in rs && Violates(r)
  }

  /** `v` is the least upper bound of the verdicts; results with an unknown verdict do not move it. */
  ghost predicate IsJoin(rs: seq<VectorResult>, v: string) {
    && Known(v)
    && (forall r :: r in rs ==> Rank(r.verdict) <= Rank(v))
    && (v == SATISFIED || exists r :: r in rs && r.verdict == v)
  }

  function TrustOf(v: string): string {
    if v == SATISFIED then "verified" else if v == DEGRADED then "asserted" else if v == REJECTED then "untrusted"
    else if v == QUARANTINED then "quarantined" else "denied"
  }

  ghost predicate Verdict(rs: seq<VectorResult>, v: string) {
    if Hard(rs) then v == HALT else IsJoin(rs, v)
  }

  ghost predicate Covers(rs: seq<VectorResult>, coverage: map<string, nat>) {
    forall c :: (c in coverage <==> Count(rs, OfClass(c)) > 0)
        && (c in coverage ==> coverage[c] == Count(rs, OfClass(c)))
  }

  ghost predicate Tallies(rs: seq<VectorResult>, s: Summary) {
    && s.passed == Count(rs, OfVerdict(SATISFIED)) && s.degraded == Count(rs, OfVerdict(DEGRADED))
        && s.rejected == Count(rs, OfVerdict(REJECTED))
    && s.quarantined == Count(rs, OfVerdict(QUARANTINED)) && s.halted == Count(rs, OfVerdict(HALT))
  }

  ghost predicate Summarizes(rs: seq<VectorResult>, s: Summary) {
    && s.total == |rs| && s.results == rs && Tallies(rs, s) && Covers(rs, s.coverage)
    && Verdict(rs, s.verdict) && s.dominance == Hard(rs) && s.trust == TrustOf(s.verdict)
  }

  // ---- The evaluation ------------------------------------------------------------------------------------------

  method TallyResult(s: Summary, v: string) returns (t: Summary)
    ensures t.passed == s.passed + (if v == SATISFIED then 1 else 0)
        && t.degraded == s.degraded + (if v == DEGRADED then 1 else 0)
    ensures t.rejected == s.rejected + (if v == REJECTED then 1 else 0)
        && t.halted == s.halted + (if v == HALT then 1 else 0)
    ensures t.quarantined == s.quarantined + (if v == QUARANTINED then 1 else 0)
    ensures t.total == s.total && t.results == s.results && t.coverage == s.coverage
  {
    DistinctVerdicts();
    if v == SATISFIED { t := s.(passed := s.passed + 1); }
    else if v == DEGRADED { t := s.(degraded := s.degraded + 1); }
    else if v == REJECTED { t := s.(rejected := s.rejected + 1); }
    else if v == QUARANTINED { t := s.(quarantined := s.quarantined + 1); }
    else if v == HALT { t := s.(halted := s.halted + 1); }
    else { t := s; }
  }

  lemma DistinctVerdicts()
    ensures SATISFIED != DEGRADED && SATISFIED != REJECTED && SATISFIED != QUARANTINED && SATISFIED != HALT
    ensures DEGRADED != REJECTED && DEGRADED != QUARANTINED && DEGRADED != HALT
    ensures REJECTED != QUARANTINED && REJECTED != HALT && QUARANTINED != HALT
  {
    assert SATISFIED[0] == 's' && DEGRADED[0] == 'd' && REJECTED[0] == 'r' && QUARANTINED[0] == 'q' && HALT[0] == 'h';
  }

  lemma CountGrows(rs: seq<VectorResult>, r: VectorResult, m: Mark)
    ensures Count(rs + [r], m) == Count(rs, m) + if Bears(r, m) then 1 else 0
  {
    assert (rs + [r])[..|rs|] == rs;
  }

  lemma CoverageGrows(rs: seq<VectorResult>, r: VectorResult, coverage: map<string, nat>)
    requires Covers(rs, coverage)
    ensures Covers(rs + [r], coverage[r.class_ := CountOf(coverage, r.class_) + 1])
  {
    assert (rs + [r])[..|rs|] == rs;
  }

  lemma JoinGrows(rs: seq<VectorResult>, r: VectorResult, v: string)
    requires IsJoin(rs, v)
    ensures IsJoin(rs + [r], if Rank(r.verdict) > Rank(v) then r.verdict else v)
  {
    assert r in rs + [r];
  }

  /** What the loop knows of the results it has seen. */
  ghost predicate Seen(rs: seq<VectorResult>, s: Summary, aggregated: string, hard: bool) {
    Tallies(rs, s) && Covers(rs, s.coverage) && IsJoin(rs, aggregated) && hard == Hard(rs)
  }

  lemma NothingSeen(s: Summary)
    requires s.passed == s.degraded == s.rejected == s.quarantined == s.halted == 0 && s.coverage == map[]
    ensures Seen([], s, SATISFIED, false)
  {
  }

  lemma OneMoreSeen(rs: seq<VectorResult>, r: VectorResult, s: Summary, t: Summary, aggregated: string, hard: bool)
    requires Seen(rs, s, aggregated, hard)
    requires t.passed == s.passed + (if r.verdict == SATISFIED then 1 else 0)
        && t.degraded == s.degraded + (if r.verdict == DEGRADED then 1 else 0)
    requires t.rejected == s.rejected + (if r.verdict == REJECTED then 1 else 0)
        && t.halted == s.halted + (if r.verdict == HALT then 1 else 0)
    requires t.quarantined == s.quarantined + (if r.verdict == QUARANTINED then 1 else 0)
    requires t.coverage == s.coverage[r.class_ := CountOf(s.coverage, r.class_) + 1]
    ensures Seen(rs + [r], t, if Rank(r.verdict) > Rank(aggregated) then r.verdict else aggregated, hard || Violates(r))
  {
    hide Count, Covers, IsJoin, Rank;
    CountGrows(rs, r, OfVerdict(SATISFIED)); CountGrows(rs, r, OfVerdict(DEGRADED));
    CountGrows(rs, r, OfVerdict(REJECTED));
    CountGrows(rs, r, OfVerdict(QUARANTINED)); CountGrows(rs, r, OfVerdict(HALT));
    CoverageGrows(rs, r, s.coverage);
    JoinGrows(rs, r, aggregated);
    assert r in rs + [r];
  }

  method Evaluate(results: seq<VectorResult>) returns (s: Summary)
    ensures Summarizes(results, s)
  {
    hide Tallies, Covers, Hard, IsJoin, Rank, TrustOf;
    s := Summary(|results|, 0, 0, 0, 0, 0, "", false, "", map[], results);
    var highest, aggregated, hard, i := Rank(SATISFIED), SATISFIED, false, 0;
    NothingSeen(s);
    assert results[..0] == [];
    while i < |results|
      invariant 0 <= i <= |results| && s.total == |results| && s.results == results
      invariant Seen(results[..i], s, aggregated, hard) && highest == Rank(aggregated)
    {
      hide Seen;
      var r := results[i];
      ghost var before := s;
      assert results[..i + 1] == results[..i] + [r];
      s := s.(coverage := s.coverage[r.class_ := CountOf(s.coverage, r.class_) + 1]);
      s := TallyResult(s, r.verdict);
      OneMoreSeen(results[..i], r, before, s, aggregated, hard);
      var rank := Rank(r.verdict);
      if rank > highest { highest, aggregated := rank, r.verdict; }
      if r.severity == HARD_ANTI && r.verdict != SATISFIED { hard := true; }
      i := i + 1;
    }
    assert results[..i] == results;
    assert Known(aggregated) by { JoinKnown(results, aggregated); }
    ghost var counted := s;
    s := Resolve(s, aggregated, hard);
    SameTallies(results, counted, s);
  }

  lemma JoinKnown(rs: seq<VectorResult>, v: string)
    requires IsJoin(rs, v)
    ensures Known(v)
  {
  }

  lemma SameTallies(rs: seq<VectorResult>, s: Summary, t: Summary)
    requires Tallies(rs, s) && t == s.(verdict := t.verdict, dominance := t.dominance, trust := t.trust)
    ensures Tallies(rs, t)
  {
  }

  method Resolve(s: Summary, lattice: string, hard: bool) returns (t: Summary)
    requires Known(lattice)
    ensures var verdict := if hard then HALT else lattice;
            t == s.(verdict := verdict, dominance := hard, trust := TrustOf(verdict))
  {
    DistinctVerdicts();
    if hard { return s.(verdict := HALT, dominance := true, trust := "denied"); }
    t := s.(verdict := lattice, dominance := false);
    if lattice == SATISFIED { t := t.(trust := "verified"); }
    else if lattice == DEGRADED { t := t.(trust := "asserted"); }
    else if lattice == REJECTED { t := t.(trust := "untrusted"); }
    else if lattice == QUARANTINED { t := t.(trust := "quarantined"); }
    else if lattice == HALT { t := t.(trust := "denied"); }
  }

  // ---- The lattice laws ----------------------------------------------------------------------------------------

  function Join(a: string, b: string): string {
    if Rank(b) > Rank(a) then b else a
  }

  lemma RankInjective(a: string, b: string)
    requires Known(a) && Rank(a) == Rank(b)
    ensures a == b
  {
  }

  lemma JoinUnique(rs: seq<VectorResult>, a: string, b: string)
    requires IsJoin(rs, a) && IsJoin(rs, b)
    ensures a == b
  {
    assert Rank(SATISFIED) == 1 by { DistinctVerdicts(); }
    assert Rank(a) <= Rank(b) && Rank(b) <= Rank(a);
    RankInjective(a, b);
  }

  lemma {:induction false} CountFinds(rs: seq<VectorResult>, v: string)
    ensures Count(rs, OfVerdict(v)) > 0 <==> exists r :: r in rs && r.verdict == v
  {
    if rs != [] {
      var front, last := rs[..|rs| - 1], rs[|rs| - 1];
      CountFinds(front, v);
      assert rs == front + [last];
      if last.verdict == v { assert last in rs; }
    }
  }

  lemma {:induction false} CountsAdd(a: seq<VectorResult>, b: seq<VectorResult>, m: Mark)
    ensures Count(a + b, m) == Count(a, m) + Count(b, m)
    decreases |b|
  {
    if b == [] {
      assert a + b == a;
    } else {
      var front := b[..|b| - 1];
      CountsAdd(a, front, m);
      assert (a + b)[..|a + b| - 1] == a + front;
    }
  }

  lemma CountRemoved(rs: seq<VectorResult>, k: nat, m: Mark)
    requires k < |rs|
    ensures Count(rs, m) == Count(rs[..k] + rs[k + 1..], m) + if Bears(rs[k], m) then 1 else 0
  {
    hide Count, Bears;
    assert rs == (rs[..k] + [rs[k]]) + rs[k + 1..];
    CountsAdd(rs[..k] + [rs[k]], rs[k + 1..], m);
    CountsAdd(rs[..k], rs[k + 1..], m);
    CountGrows(rs[..k], rs[k], m);
  }

  lemma BagWithout<T>(s: seq<T>, k: nat)
    requires k < |s|
    ensures multiset(s[..k] + s[k + 1..]) == multiset(s) - multiset{s[k]}
  {
    assert s == s[..k] + [s[k]] + s[k + 1..];
  }

  lemma {:induction false} CountsPermute(a: seq<VectorResult>, b: seq<VectorResult>, m: Mark)
    requires multiset(a) == multiset(b)
    ensures Count(a, m) == Count(b, m)
    decreases |a|
  {
    hide Count, Bears;
    assert |a| == |multiset(a)| == |multiset(b)| == |b|;
    if a == [] {
      assert b == [];
    } else {
      assert a[0] in multiset(b);
      var k :| 0 <= k < |b| && b[k] == a[0];
      BagWithout(a, 0); BagWithout(b, k);
      CountsPermute(a[..0] + a[1..], b[..k] + b[k + 1..], m);
      CountRemoved(a, 0, m); CountRemoved(b, k, m);
    }
  }

  lemma SameMembers(a: seq<VectorResult>, b: seq<VectorResult>)
    requires multiset(a) == multiset(b)
    ensures forall r :: r in a <==> r in b
  {
    forall r ensures r in a <==> r in b { assert r in a <==> r in multiset(a); assert r in b <==> r in multiset(b); }
  }

  /** Permuting the results changes nothing but their order in the report. */
  lemma PermutationInvariant(a: seq<VectorResult>, b: seq<VectorResult>, sa: Summary, sb: Summary)
    requires multiset(a) == multiset(b) && Summarizes(a, sa) && Summarizes(b, sb)
    ensures sb == sa.(results := b)
  {
    hide Count, Rank;
    SameMembers(a, b);
    assert |a| == |multiset(a)| == |multiset(b)| == |b|;
    CountsPermute(a, b, OfVerdict(SATISFIED)); CountsPermute(a, b, OfVerdict(DEGRADED));
    CountsPermute(a, b, OfVerdict(REJECTED));
    CountsPermute(a, b, OfVerdict(QUARANTINED)); CountsPermute(a, b, OfVerdict(HALT));
    forall c ensures Count(a, OfClass(c)) == Count(b, OfClass(c)) { CountsPermute(a, b, OfClass(c)); }
    assert sa.coverage == sb.coverage;
    assert Hard(a) <==> Hard(b);
    if !Hard(a) {
      assert IsJoin(b, sa.verdict);
      JoinUnique(b, sa.verdict, sb.verdict);
    }
  }

  /** A summary halts exactly when it is not viable. */
  lemma ViableExactly(rs: seq<VectorResult>, s: Summary)
    requires Summarizes(rs, s)
    ensures Viable(s) <==> s.verdict != HALT
    ensures Viable(s) <==> !Hard(rs) && forall r :: r in rs ==> r.verdict != HALT
  {
    CountFinds(rs, HALT);
    DistinctVerdicts();
    if r :| r in rs && r.verdict == HALT && !Hard(rs) {
      RankInjective(HALT, s.verdict);
    }
  }

  lemma JoinOfParts(a: seq<VectorResult>, b: seq<VectorResult>, va: string, vb: string)
    requires IsJoin(a, va) && IsJoin(b, vb)
    ensures IsJoin(a + b, Join(va, vb))
  {
    if Join(va, vb) != SATISFIED {
      if Rank(vb) > Rank(va) {
        var r :| r in b && r.verdict == vb;
        assert r in a + b;
      } else {
        var r :| r in a && r.verdict == va;
        assert r in a + b;
      }
    }
  }

  lemma VerdictOfParts(a: seq<VectorResult>, b: seq<VectorResult>, va: string, vb: string, v: string)
    requires Verdict(a, va) && Verdict(b, vb) && Verdict(a + b, v)
    ensures v == Join(va, vb)
    ensures Hard(a + b) <==> Hard(a) || Hard(b)
  {
    DistinctVerdicts();
    assert forall r :: r in a + b <==> r in a || r in b;
    if Hard(a) {
      var r :| r in a && Violates(r);
      assert r in a + b;
    } else if Hard(b) {
      var r :| r in b && Violates(r);
      assert r in a + b;
      if Rank(va) == 5 { RankInjective(va, HALT); }
    } else {
      JoinOfParts(a, b, va, vb);
      JoinUnique(a + b, v, Join(va, vb));
    }
  }

  /** Evaluating a concatenation is joining the evaluations of its parts. */
  lemma ConcatenationJoins(a: seq<VectorResult>, b: seq<VectorResult>, sa: Summary, sb: Summary, s: Summary)
    requires Summarizes(a, sa) && Summarizes(b, sb) && Summarizes(a + b, s)
    ensures s.verdict == Join(sa.verdict, sb.verdict) && s.dominance == (sa.dominance || sb.dominance)
    ensures Viable(s) <==> Viable(sa) && Viable(sb)
    ensures s.total == sa.total + sb.total && s.passed == sa.passed + sb.passed
        && s.degraded == sa.degraded + sb.degraded
    ensures s.rejected == sa.rejected + sb.rejected && s.quarantined == sa.quarantined + sb.quarantined
        && s.halted == sa.halted + sb.halted
    ensures forall c :: CountOf(s.coverage, c) == CountOf(sa.coverage, c) + CountOf(sb.coverage, c)
  {
    hide Count, Verdict, Hard;
    VerdictOfParts(a, b, sa.verdict, sb.verdict, s.verdict);
    CountsAdd(a, b, OfVerdict(SATISFIED)); CountsAdd(a, b, OfVerdict(DEGRADED)); CountsAdd(a, b, OfVerdict(REJECTED));
    CountsAdd(a, b, OfVerdict(QUARANTINED)); CountsAdd(a, b, OfVerdict(HALT));
    forall c ensures Count(a + b, OfClass(c)) == Count(a, OfClass(c)) + Count(b, OfClass(c)) {
      CountsAdd(a, b, OfClass(c));
    }
    ViableExactly(a, sa); ViableExactly(b, sb); ViableExactly(a + b, s);
    if Join(sa.verdict, sb.verdict) != HALT && Rank(sa.verdict) == 5 { RankInjective(HALT, sa.verdict); }
  }

  // ---- The verdict by what occurs ---------------------------------------------------------------------------------

  /** Halt over quarantined over rejected over degraded over satisfied, and anything unknown below them all. */
  lemma VerdictOrder(v: string)
    ensures Rank(HALT) > Rank(QUARANTINED) > Rank(REJECTED) > Rank(DEGRADED) > Rank(SATISFIED) > 0
    ensures v != HALT && v != QUARANTINED && v != REJECTED && v != DEGRADED && v != SATISFIED ==>
              Rank(v) < Rank(SATISFIED)
  {
    DistinctVerdicts();
  }

  ghost predicate Occurs(rs: seq<VectorResult>, v: string) {
    exists r :: r in rs && r.verdict == v
  }

  /** The verdict and the trust of a summary, told from which verdicts occur among the results. */
  lemma VerdictByOccurrence(rs: seq<VectorResult>, s: Summary)
    requires Summarizes(rs, s)
    ensures s.dominance <==> exists r :: r in rs && r.severity == "hard_anti_invariant" && r.verdict != "satisfied"
    ensures s.verdict ==
            if s.dominance || Occurs(rs, "halt_violation") then "halt_violation"
            else if Occurs(rs, "quarantined") then "quarantined"
            else if Occurs(rs, "rejected") then "rejected"
            else if Occurs(rs, "degraded") then "degraded"
            else "satisfied"
    ensures s.verdict == "halt_violation" ==> s.trust == "denied"
    ensures s.verdict == "quarantined" ==> s.trust == "quarantined"
    ensures s.verdict == "rejected" ==> s.trust == "untrusted"
    ensures s.verdict == "degraded" ==> s.trust == "asserted"
    ensures s.verdict == "satisfied" ==> s.trust == "verified"
  {
    DistinctVerdicts();
    if !Hard(rs) {
      VerdictOrder(s.verdict);
      forall v | Occurs(rs, v) ensures Rank(v) <= Rank(s.verdict) { }
      hide Tallies, Covers, Rank;
      assert s.verdict == SATISFIED || Occurs(rs, s.verdict);
    }
  }

  // ---- The counters -----------------------------------------------------------------------------------------------

  function CountOf(coverage: map<string, nat>, c: string): nat {
    if c in coverage then coverage[c] else 0
  }

  function SumOver(coverage: map<string, nat>, classes: seq<string>): nat {
    if classes == [] then 0 else CountOf(coverage, classes[0]) + SumOver(coverage, classes[1..])
  }

  function CoveredIn(rs: seq<VectorResult>, classes: seq<string>): nat {
    if classes == [] then 0 else Count(rs, OfClass(classes[0])) + CoveredIn(rs, classes[1..])
  }

  ghost predicate Distinct(names: seq<string>) {
    forall i, j :: 0 <= i < j < |names| ==> names[i] != names[j]
  }

  lemma {:induction false} OneMoreCovered(rs: seq<VectorResult>, classes: seq<string>)
    requires rs != [] && Distinct(classes)
    ensures CoveredIn(rs, classes) ==
              CoveredIn(rs[..|rs| - 1], classes) + if rs[|rs| - 1].class_ in classes then 1 else 0
    decreases |classes|
  {
    if classes != [] {
      OneMoreCovered(rs, classes[1..]);
      assert classes == [classes[0]] + classes[1..];
    }
  }

  lemma {:induction false} AllCovered(rs: seq<VectorResult>, classes: seq<string>)
    requires Distinct(classes) && forall r :: r in rs ==> r.class_ in classes
    ensures CoveredIn(rs, classes) == |rs|
    decreases |rs|
  {
    if rs == [] {
      NoneCovered(classes);
    } else {
      AllCovered(rs[..|rs| - 1], classes);
      OneMoreCovered(rs, classes);
      assert rs[|rs| - 1] in rs;
    }
  }

  lemma {:induction false} NoneCovered(classes: seq<string>)
    ensures CoveredIn([], classes) == 0
  {
    if classes != [] { NoneCovered(classes[1..]); }
  }

  lemma {:induction false} SumIsCovered(rs: seq<VectorResult>, coverage: map<string, nat>, classes: seq<string>)
    requires Covers(rs, coverage)
    ensures SumOver(coverage, classes) == CoveredIn(rs, classes)
  {
    if classes != [] { SumIsCovered(rs, coverage, classes[1..]); }
  }

  lemma {:induction false} MemberCovered(rs: seq<VectorResult>, r: VectorResult)
    requires r in rs
    ensures Count(rs, OfClass(r.class_)) > 0
  {
    var front, last := rs[..|rs| - 1], rs[|rs| - 1];
    assert rs == front + [last];
    if r != last { MemberCovered(front, r); }
  }

  /** Listed without repetition, the class counts add up to the number of results. */
  lemma CoverageSumsToTotal(rs: seq<VectorResult>, s: Summary, classes: seq<string>)
    requires Summarizes(rs, s) && Distinct(classes) && forall c :: c in s.coverage ==> c in classes
    ensures SumOver(s.coverage, classes) == s.total
  {
    hide Tallies, Verdict;
    forall r | r in rs ensures r.class_ in classes { MemberCovered(rs, r); }
    AllCovered(rs, classes);
    SumIsCovered(rs, s.coverage, classes);
  }

  function KnownCount(rs: seq<VectorResult>): nat {
    if rs == [] then 0 else KnownCount(rs[..|rs| - 1]) + if Known(rs[|rs| - 1].verdict) then 1 else 0
  }

  lemma {:induction false} TalliesAreKnown(rs: seq<VectorResult>)
    ensures Count(rs, OfVerdict(SATISFIED)) + Count(rs, OfVerdict(DEGRADED)) + Count(rs, OfVerdict(REJECTED))
        + Count(rs, OfVerdict(QUARANTINED)) + Count(rs, OfVerdict(HALT)) == KnownCount(rs)
  {
    DistinctVerdicts();
    if rs != [] { TalliesAreKnown(rs[..|rs| - 1]); }
  }

  lemma {:induction false} AllKnownExactly(rs: seq<VectorResult>)
    ensures KnownCount(rs) <= |rs|
    ensures KnownCount(rs) == |rs| <==> forall r :: r in rs ==> Known(r.verdict)
  {
    if rs != [] {
      var front, last := rs[..|rs| - 1], rs[|rs| - 1];
      AllKnownExactly(front);
      assert rs == front + [last] && last in rs;
    }
  }

  /** The five tallies add up to the total exactly when every verdict is one of the five. */
  lemma TalliesSumExactly(rs: seq<VectorResult>, s: Summary)
    requires Summarizes(rs, s)
    ensures s.passed + s.degraded + s.rejected + s.quarantined + s.halted == s.total <==>
            forall r :: r in rs ==> Known(r.verdict)
  {
    hide Covers, Verdict, Count;
    TalliesAreKnown(rs);
    AllKnownExactly(rs);
  }

  // ---- Registration ------------------------------------------------------------------------------------------------

  datatype Vector = Vector(id: string, class_: string, severity: string, target: string, executable: bool)

  predicate Valid(v: Vector) {
    v.id != "" && v.class_ != "" && v.executable
  }

  ghost predicate Registrable(vs: seq<Vector>) {
    && (forall v :: v in vs ==> v.id != "" && v.class_ != "" && v.executable)
    && (forall i, j :: 0 <= i < j < |vs| ==> vs[i].id != vs[j].id)
  }

  class Suite {
    var vectors: seq<Vector>

    constructor ()
      ensures vectors == [] && Registrable(vectors)
    {
      vectors := [];
    }

    /** Accepts exactly the vectors that keep the suite valid and free of repeated identifiers. */
    method Register(v: Vector) returns (ok: bool)
      requires Registrable(vectors)
      modifies this
      ensures ok <==> Registrable(old(vectors) + [v])
      ensures vectors == if ok then old(vectors) + [v] else old(vectors)
    {
      if !Valid(v) { assert v in vectors + [v]; return false; }
      var i := 0;
      while i < |vectors|
        invariant 0 <= i <= |vectors| && vectors == old(vectors)
        invariant forall j :: 0 <= j < i ==> vectors[j].id != v.id
      {
        if vectors[i].id == v.id {
          ghost var longer := vectors + [v];
          assert longer[i].id == longer[|vectors|].id;
          return false;
        }
        i := i + 1;
      }
      vectors := vectors + [v];
      ok := true;
    }

    /** Registers the longest acceptable prefix, and succeeds exactly when that is the whole batch. */
    method RegisterMany(batch: seq<Vector>) returns (ok: bool, ghost taken: nat)
      requires Registrable(vectors)
      modifies this
      ensures taken <= |batch| && vectors == old(vectors) + batch[..taken] && Registrable(vectors)
      ensures ok <==> Registrable(old(vectors) + batch)
      ensures ok ==> taken == |batch|
      ensures !ok ==> taken < |batch| && !Registrable(old(vectors) + batch[..taken + 1])
    {
      var i := 0;
      taken := 0;
      while i < |batch|
        invariant taken == i <= |batch| && vectors == old(vectors) + batch[..i] && Registrable(vectors)
      {
        ok := Register(batch[i]);
        ghost var longer := old(vectors) + batch[..i + 1];
        assert longer == old(vectors) + batch[..i] + [batch[i]];
        if !ok {
          PrefixRegistrable(old(vectors) + batch, |longer|);
          assert (old(vectors) + batch)[..|longer|] == longer;
          return;
        }
        i := i + 1;
        taken := i;
      }
      assert batch[..i] == batch;
      ok := true;
    }
  }

  lemma PrefixRegistrable(vs: seq<Vector>, n: nat)
    requires n <= |vs|
    ensures Registrable(vs) ==> Registrable(vs[..n])
  {
  }
}
