/** The token budget ledger under every interleaving of its critical sections. */
module TokenBudget {

  const MIN64: int := -0x8000_0000_0000_0000
  const MAX64: int := 0x7fff_ffff_ffff_ffff

  type Int64 = x: int | MIN64 <= x <= MAX64

  /** Subtraction on int64, which wraps around. */
  function Minus(a: Int64, b: Int64): Int64 {
    var d := a - b;
    if d > MAX64 then d - 0x1_0000_0000_0000_0000 else if d < MIN64 then d + 0x1_0000_0000_0000_0000 else d
  }

  type Ledger = map<string, Int64>

  /** Claims a request may carry: its subject and the budget declared in the token. */
  datatype Claims = NoClaims | Claims(subject: string, budget: Int64)

  /** One critical section of the enforcer. */
  datatype Event =
    | Restore(subject: string, remaining: Int64)
    | Consume(subject: string, n: Int64)
    | Request(claims: Claims)
    | Record(claims: Claims, used: Int64)

  predicate Budgeted(claims: Claims) {
    claims.Claims? && claims.budget != 0 && claims.subject != ""
  }

  function Spend(l: Ledger, s: string, n: Int64): Ledger {
    if s !in l || l[s] < n then l else l[s := Minus(l[s], n)]
  }

  function Next(l: Ledger, e: Event): Ledger {
    match e
    case Restore(s, v) => l[s := v]
    case Consume(s, n) => Spend(l, s, n)
    case Request(c) => if Budgeted(c) && c.subject !in l then l[c.subject := c.budget] else l
    case Record(c, n) => if Budgeted(c) then Spend(l, c.subject, n) else l
  }

  /** The caller's answer: no error, or the request passes the gate. */
  predicate Granted(l: Ledger, e: Event) {
    match e
    case Restore(_, _) => true
    case Consume(s, n) => s !in l || l[s] >= n
    case Request(c) => !Budgeted(c) || Next(l, e)[c.subject] > 0
    case Record(c, n) => !Budgeted(c) || c.subject !in l || l[c.subject] >= n
  }

  function After(l: Ledger, events: seq<Event>): Ledger
    decreases |events|
  {
    if events == [] then l else After(Next(l, events[0]), events[1..])
  }

  function Answers(l: Ledger, events: seq<Event>): (answers: seq<bool>)
    ensures |answers| == |events|
    decreases |events|
  {
    if events == [] then [] else [Granted(l, events[0])] + Answers(Next(l, events[0]), events[1..])
  }

  // ---- The enforcer -------------------------------------------------------------------------------

  class Enforcer {
    var budgets: Ledger

    constructor ()
      ensures budgets == map[]
    {
      budgets := map[];
    }

    method RestoreFromAnnotation(subject: string, remaining: Int64)
      modifies this
      ensures budgets == Next(old(budgets), Restore(subject, remaining))
    {
      budgets := budgets[subject := remaining];
    }

    method Remaining(subject: string) returns (v: Int64)
      ensures v == if subject in budgets then budgets[subject] else -1
    {
      if subject in budgets { v := budgets[subject]; } else { v := -1; }
    }

    method Consume(subject: string, n: Int64) returns (ok: bool)
      modifies this
      ensures ok == Granted(old(budgets), Event.Consume(subject, n))
          && budgets == Next(old(budgets), Event.Consume(subject, n))
    {
      if subject !in budgets { return true; }
      var remaining := budgets[subject];
      if remaining < n { return false; }
      budgets := budgets[subject := Minus(remaining, n)];
      ok := true;
    }

    /** The middleware up to its decision; `passes` is whether the next handler runs. */
    method EnforceBudget(claims: Claims) returns (passes: bool)
      modifies this
      ensures passes == Granted(old(budgets), Request(claims)) && budgets == Next(old(budgets), Request(claims))
    {
      if !claims.Claims? || claims.budget == 0 { return true; }
      if claims.subject == "" { return true; }
      if claims.subject !in budgets { budgets := budgets[claims.subject := claims.budget]; }
      var remaining := budgets[claims.subject];
      passes := remaining > 0;
    }

    method RecordConsumption(claims: Claims, used: Int64)
      modifies this
      ensures budgets == Next(old(budgets), Record(claims, used))
    {
      if !claims.Claims? || claims.budget == 0 || claims.subject == "" { return; }
      var _ := Consume(claims.subject, used);
    }
  }

  // ---- The gate and the charge, by the fields of the claims --------------------------------------------------

  /**
   * When a request passes, and what it leaves in the ledger: a first budgeted request opens the balance it declares.
   */
  lemma GateExactly(l: Ledger, c: Claims)
    ensures Granted(l, Request(c)) <==>
            || c.NoClaims? || c.budget == 0 || c.subject == ""
            || (if c.subject in l then l[c.subject] else c.budget) > 0
    ensures Next(l, Request(c)) ==
            if c.NoClaims? || c.budget == 0 || c.subject == "" || c.subject in l then l else l[c.subject := c.budget]
  {
  }

  /** When a report is charged: only for budgeted claims of a tracked subject whose balance covers it. */
  lemma ReportExactly(l: Ledger, c: Claims, n: Int64)
    ensures Next(l, Record(c, n)) ==
            if c.Claims? && c.budget != 0 && c.subject != "" && c.subject in l && l[c.subject] >= n
            then l[c.subject := Minus(l[c.subject], n)] else l
    ensures c.Claims? && c.budget != 0 && c.subject != "" ==> Next(l, Record(c, n)) == Next(l, Consume(c.subject, n))
  {
  }

  // ---- The audit ------------------------------------------------------------------------------------

  /** A subject's account as an outsider reads it from the calls and their answers alone. */
  datatype Account = Untracked | Account(base: int, spent: int)

  function Audited(a: Account, s: string, e: Event, granted: bool): Account {
    match e
    case Restore(t, v) => if t == s then Account(v, 0) else a
    case Consume(t, n) => if t == s && granted && a.Account? then a.(spent := a.spent + n) else a
    case Request(c) => if Budgeted(c) && c.subject == s && a.Untracked? then Account(c.budget, 0) else a
    case Record(c, n) => if Budgeted(c) && c.subject == s && granted && a.Account? then a.(spent := a.spent + n) else a
  }

  function Audit(a: Account, s: string, events: seq<Event>, answers: seq<bool>): Account
    requires |events| == |answers|
    decreases |events|
  {
    if events == [] then a else Audit(Audited(a, s, events[0], answers[0]), s, events[1..], answers[1..])
  }

  predicate Charges(e: Event, s: string) {
    (e.Consume? && e.subject == s) || (e.Record? && Budgeted(e.claims) && e.claims.subject == s)
  }

  /** What a charge asks for. */
  function Amount(e: Event): Int64 {
    match e case Consume(_, n) => n case Record(_, n) => n case _ => 0
  }

  /** Restored and declared budgets are not negative. */
  predicate Funded(e: Event) {
    match e case Restore(_, v) => v >= 0 case Request(c) => c.Claims? ==> c.budget >= 0 case _ => true
  }

  /** The int64 that a whole number wraps to. */
  function Wrapped(x: int): Int64 {
    (x - MIN64) % 0x1_0000_0000_0000_0000 + MIN64
  }

  lemma WrappedMinus(x: int, n: Int64)
    ensures Minus(Wrapped(x), n) == Wrapped(x - n)
  {
  }

  lemma WrappedExactly(x: int)
    ensures Wrapped(x) == x <==> MIN64 <= x <= MAX64
  {
  }

  ghost predicate Balances(l: Ledger, s: string, a: Account) {
    (s in l <==> a.Account?) && (s in l ==> l[s] == Wrapped(a.base - a.spent))
  }

  lemma AuditStep(l: Ledger, s: string, a: Account, e: Event)
    requires Balances(l, s, a)
    ensures Balances(Next(l, e), s, Audited(a, s, e, Granted(l, e)))
  {
    hide Wrapped, Minus;
    if a.Account? { WrappedMinus(a.base - a.spent, Amount(e)); }
    match e
    case Restore(_, v) => WrappedExactly(v);
    case Request(c) => if c.Claims? { WrappedExactly(c.budget); }
    case _ =>
  }

  /**
   * Under every interleaving and for reports of either sign, the balance is the last base minus the accepted
   * consumptions, wrapped to int64; the plain difference exactly when that is an int64.
   */
  lemma {:induction false} LedgerAudited(l: Ledger, s: string, a: Account, events: seq<Event>)
    requires Balances(l, s, a)
    ensures var end := Audit(a, s, events, Answers(l, events));
            && Balances(After(l, events), s, end)
            && (s in After(l, events) ==>
                  (After(l, events)[s] == end.base - end.spent <==> MIN64 <= end.base - end.spent <= MAX64))
    decreases |events|
  {
    hide Wrapped;
    if events == [] {
      if s in l { WrappedExactly(a.base - a.spent); }
    } else {
      AuditStep(l, s, a, events[0]);
      assert Answers(l, events)[1..] == Answers(Next(l, events[0]), events[1..]);
      LedgerAudited(Next(l, events[0]), s, Audited(a, s, events[0], Granted(l, events[0])), events[1..]);
    }
  }

  ghost predicate Solvent(l: Ledger) {
    forall s :: s in l ==> l[s] >= 0
  }

  /** An accepted charge does not push the balance past int64. */
  ghost predicate Fits(l: Ledger, e: Event) {
    forall s :: s in l && Charges(e, s) && l[s] >= Amount(e) ==> l[s] - Amount(e) <= MAX64
  }

  ghost predicate AllFit(l: Ledger, events: seq<Event>)
    decreases |events|
  {
    events == [] || (Fits(l, events[0]) && AllFit(Next(l, events[0]), events[1..]))
  }

  ghost predicate SolventThroughout(l: Ledger, events: seq<Event>)
    decreases |events|
  {
    Solvent(l) && (events == [] || SolventThroughout(Next(l, events[0]), events[1..]))
  }

  lemma SolventStep(l: Ledger, e: Event)
    requires Solvent(l) && Funded(e)
    ensures Solvent(Next(l, e)) <==> Fits(l, e)
  {
    if !Fits(l, e) {
      var s :| s in l && Charges(e, s) && l[s] >= Amount(e) && l[s] - Amount(e) > MAX64;
      assert Next(l, e)[s] < 0;
    }
  }

  /**
   * No interleaving overdraws any subject, exactly as long as no accepted report wraps around; only negative ones can.
   */
  lemma {:induction false} NeverNegative(l: Ledger, events: seq<Event>)
    requires Solvent(l) && forall i :: 0 <= i < |events| ==> Funded(events[i])
    ensures SolventThroughout(l, events) <==> AllFit(l, events)
    ensures (forall i :: 0 <= i < |events| ==> Amount(events[i]) >= 0) ==> AllFit(l, events)
    decreases |events|
  {
    hide Next, Fits, Solvent;
    if events != [] {
      SolventStep(l, events[0]);
      if Amount(events[0]) >= 0 { NonNegativeFits(l, events[0]); }
      if Fits(l, events[0]) { NeverNegative(Next(l, events[0]), events[1..]); }
      else { StaysInsolvent(Next(l, events[0]), events[1..]); }
    }
  }

  lemma NonNegativeFits(l: Ledger, e: Event)
    requires Amount(e) >= 0
    ensures Fits(l, e)
  {
  }

  lemma StaysInsolvent(l: Ledger, events: seq<Event>)
    requires !Solvent(l)
    ensures !SolventThroughout(l, events)
  {
  }

  // ---- Isolation and exhaustion -------------------------------------------------------------------------

  function SubjectOf(e: Event): string {
    match e
    case Restore(s, _) => s
    case Consume(s, _) => s
    case Request(c) => (if c.Claims? then c.subject else "")
    case Record(c, _) => (if c.Claims? then c.subject else "")
  }

  /** A refused consumption changes nothing, and no critical section touches another subject. */
  lemma OthersUntouched(l: Ledger, e: Event, t: string)
    ensures !Granted(l, e) && !e.Request? ==> Next(l, e) == l
    ensures t != SubjectOf(e) ==> (t in Next(l, e) <==> t in l) && (t in l ==> Next(l, e)[t] == l[t])
  {
  }

  predicate RestoresSubject(e: Event, s: string) {
    e.Restore? && e.subject == s
  }

  predicate Asks(e: Event, s: string) {
    e.Request? && Budgeted(e.claims) && e.claims.subject == s
  }

  /** A negative charge that makes an exhausted balance positive again. */
  predicate Lifts(l: Ledger, e: Event, s: string) {
    s in l && Charges(e, s) && Amount(e) < l[s] && l[s] - Amount(e) <= MAX64
  }

  ghost predicate NoneLifts(l: Ledger, events: seq<Event>, s: string)
    decreases |events|
  {
    events == [] || (!Lifts(l, events[0], s) && NoneLifts(Next(l, events[0]), events[1..], s))
  }

  ghost predicate ExhaustedThroughout(l: Ledger, events: seq<Event>, s: string)
    decreases |events|
  {
    s in l && l[s] <= 0 && (events == [] || ExhaustedThroughout(Next(l, events[0]), events[1..], s))
  }

  lemma ExhaustedStep(l: Ledger, e: Event, s: string)
    requires s in l && l[s] <= 0 && !RestoresSubject(e, s)
    ensures s in Next(l, e) && (Next(l, e)[s] <= 0 <==> !Lifts(l, e, s))
    ensures Asks(e, s) ==> !Granted(l, e)
    ensures Charges(e, s) && Amount(e) >= 0 ==> !Lifts(l, e, s)
  {
  }

  /** Once used up, a balance stays used up until a restore exactly when no negative charge lifts it. */
  lemma {:induction false} ExhaustedExactly(l: Ledger, s: string, events: seq<Event>)
    requires s in l && l[s] <= 0 && forall i :: 0 <= i < |events| ==> !RestoresSubject(events[i], s)
    ensures ExhaustedThroughout(l, events, s) <==> NoneLifts(l, events, s)
    ensures (forall i :: 0 <= i < |events| && Charges(events[i], s) ==> Amount(events[i]) >= 0) ==>
              NoneLifts(l, events, s)
    decreases |events|
  {
    hide Next, Lifts, Granted;
    if events != [] {
      var e, next := events[0], Next(l, events[0]);
      ExhaustedStep(l, e, s);
      assert !Charges(e, s) ==> !Lifts(l, e, s) by { OnlyChargesLift(l, e, s); }
      if !Lifts(l, e, s) { ExhaustedExactly(next, s, events[1..]); }
    }
  }

  lemma OnlyChargesLift(l: Ledger, e: Event, s: string)
    ensures Lifts(l, e, s) ==> Charges(e, s)
  {
  }

  /** While it is used up, no budgeted request of that subject passes. */
  lemma {:induction false} ExhaustedStaysClosed(l: Ledger, s: string, events: seq<Event>)
    requires s in l && l[s] <= 0 && NoneLifts(l, events, s)
    requires forall i :: 0 <= i < |events| ==> !RestoresSubject(events[i], s)
    ensures forall i :: 0 <= i < |events| && Asks(events[i], s) ==> !Answers(l, events)[i]
    decreases |events|
  {
    hide Next, Lifts, Granted;
    if events != [] {
      var next := Next(l, events[0]);
      ExhaustedStep(l, events[0], s);
      ExhaustedStaysClosed(next, s, events[1..]);
      var later := Answers(next, events[1..]);
      assert Answers(l, events) == [Granted(l, events[0])] + later;
      forall i | 0 <= i < |events| && Asks(events[i], s) ensures !Answers(l, events)[i] {
        if i > 0 { assert Answers(l, events)[i] == later[i - 1] && events[i] == events[1..][i - 1]; }
      }
    }
  }

  // ---- What the gate does not promise ---------------------------------------------------------------------

  /** What the events ask of one subject in all, accepted or not. */
  function Demand(events: seq<Event>, s: string): int {
    if events == [] then 0 else (if Charges(events[0], s) then Amount(events[0]) else 0) + Demand(events[1..], s)
  }

  ghost predicate ChargesGranted(l: Ledger, events: seq<Event>, s: string)
    decreases |events|
  {
    events == [] || ((Charges(events[0], s) ==> Granted(l, events[0]))
        && ChargesGranted(Next(l, events[0]), events[1..], s))
  }

  /** Whatever is interleaved, all charges of a subject are accepted exactly when their total fits the balance. */
  lemma {:induction false} AcceptedExactlyIfCovered(l: Ledger, s: string, events: seq<Event>)
    requires s in l && l[s] >= 0
    requires forall i :: 0 <= i < |events| ==>
        !RestoresSubject(events[i], s)
        && (Charges(events[i], s) ==> Amount(events[i]) >= 0)
    ensures ChargesGranted(l, events, s) <==> Demand(events, s) <= l[s]
    ensures ChargesGranted(l, events, s) ==> s in After(l, events) && After(l, events)[s] == l[s] - Demand(events, s)
    ensures Demand(events, s) >= 0
    decreases |events|
  {
    if events != [] { AcceptedExactlyIfCovered(Next(l, events[0]), s, events[1..]); }
  }

  /** k rounds of: pass the gate, then report. */
  function Rounds(c: Claims, used: Int64, k: nat): (events: seq<Event>)
    ensures |events| == 2 * k
  {
    if k == 0 then [] else [Request(c), Record(c, used)] + Rounds(c, used, k - 1)
  }

  ghost predicate RoundsPass(l: Ledger, c: Claims, used: Int64, k: nat) {
    forall i :: 0 <= i < k ==> Answers(l, Rounds(c, used, k))[2 * i]
  }

  lemma RoundsStep(l: Ledger, c: Claims, used: Int64, k: nat)
    requires k > 0
    ensures var asked := Next(l, Request(c));
            RoundsPass(l, c, used, k) <==>
                Granted(l, Request(c))
                && RoundsPass(Next(asked, Record(c, used)), c, used, k - 1)
  {
    hide Granted, Next;
    var events, rest := Rounds(c, used, k), Rounds(c, used, k - 1);
    var asked := Next(l, Request(c));
    var next := Next(asked, Record(c, used));
    var answers, later := Answers(l, events), Answers(next, rest);
    assert events[1..] == [Record(c, used)] + rest && events[1..][1..] == rest;
    assert events[0] == Request(c) && events[1..][0] == Record(c, used);
    assert Answers(asked, events[1..]) == [Granted(asked, Record(c, used))] + later;
    assert answers == [Granted(l, Request(c))] + ([Granted(asked, Record(c, used))] + later);
    if RoundsPass(l, c, used, k) {
      assert answers[2 * 0];
      forall i | 0 <= i < k - 1 ensures later[2 * i] {
        assert answers[2 * (i + 1)] && answers[2 * (i + 1)] == later[2 * i];
      }
    }
    if Granted(l, Request(c)) && RoundsPass(next, c, used, k - 1) {
      forall i | 0 <= i < k ensures answers[2 * i] { if i > 0 { assert answers[2 * i] == later[2 * (i - 1)]; } }
    }
  }

  /** Exhausted by k rounds of the same report: only if the report divides the balance. */
  predicate RunsOut(balance: int, used: int, k: nat)
    requires used >= 0
  {
    used > 0 && balance % used == 0 && k * used > balance
  }

  lemma RunsOutStep(balance: int, used: int, k: nat)
    requires balance > 0 && used >= 0 && k > 0
    ensures balance < used ==> !RunsOut(balance, used, k) && !RunsOut(balance, used, k - 1)
    ensures balance > used ==> (RunsOut(balance, used, k) <==> RunsOut(balance - used, used, k - 1))
    ensures balance == used ==> (RunsOut(balance, used, k) <==> k > 1)
  {
    assert (k - 1) * used == k * used - used;
    if used > 0 {
      assert balance < used ==> balance % used == balance;
      ModLess(balance, used);
      if balance == used && k > 1 { assert k * used >= 2 * used; }
    }
  }

  lemma ModLess(x: int, m: int)
    requires m > 0
    ensures (x - m) % m == x % m
  {
    var q, r := x / m, x % m;
    assert x - m == (q - 1) * m + r;
    ModUnique(x - m, m, q - 1, r);
  }

  lemma ModUnique(x: int, m: int, q: int, r: int)
    requires m > 0 && 0 <= r < m && x == q * m + r
    ensures x % m == r
  {
    var d := q - x / m;
    assert d * m == x % m - r;
    assert d >= 1 ==> d * m >= m;
    assert d <= -1 ==> d * m <= -m;
  }

  /**
   * What the gate caps: with a fixed report, k rounds pass unless the report divides the balance and k of it exceed it.
   */
  lemma {:induction false} RoundsPassExactly(l: Ledger, c: Claims, used: Int64, k: nat)
    requires Budgeted(c) && c.subject in l && l[c.subject] > 0 && used >= 0
    ensures RoundsPass(l, c, used, k) <==> !RunsOut(l[c.subject], used, k)
    decreases k
  {
    hide RoundsPass, RunsOut;
    if k == 0 {
      NoRounds(l, c, used);
    } else {
      var b, next := l[c.subject], Next(Next(l, Request(c)), Record(c, used));
      RoundsStep(l, c, used, k);
      RunsOutStep(b, used, k);
      if b != used {
        RoundsPassExactly(next, c, used, k - 1);
      } else if k > 1 {
        RoundsStep(next, c, used, k - 1);
      } else {
        NoRounds(next, c, used);
      }
    }
  }

  /** The same for a subject that is not tracked yet: its first request opens the declared budget. */
  lemma FirstRoundsExactly(l: Ledger, c: Claims, used: Int64, k: nat)
    requires Budgeted(c) && c.subject !in l && used >= 0 && k > 0
    ensures RoundsPass(l, c, used, k) <==> c.budget > 0 && !RunsOut(c.budget, used, k)
  {
    hide RoundsPass, RunsOut;
    var tracked := l[c.subject := c.budget];
    RoundsStep(l, c, used, k);
    RoundsStep(tracked, c, used, k);
    assert Next(l, Request(c)) == tracked && Next(tracked, Request(c)) == tracked;
    if c.budget > 0 { RoundsPassExactly(tracked, c, used, k); }
  }

  lemma NoRounds(l: Ledger, c: Claims, used: Int64)
    requires Budgeted(c) && c.subject in l && l[c.subject] >= 0 && used >= 0
    ensures RoundsPass(l, c, used, 0) && !RunsOut(l[c.subject], used, 0)
  {
  }

  /** A charge raises the balance exactly when it is negative, accepted and does not wrap around. */
  lemma RaisesExactly(l: Ledger, s: string, e: Event)
    requires s in l && Charges(e, s)
    ensures Next(l, e)[s] > l[s] <==> Amount(e) < 0 && l[s] >= Amount(e) && l[s] - Amount(e) <= MAX64
  {
  }

  /** The input behind the wrap-around: one more token on a full balance is accepted and empties it far below zero. */
  lemma WrapClosesGate(l: Ledger, c: Claims)
    requires Budgeted(c) && c.subject in l && l[c.subject] == MAX64
    ensures Granted(l, Consume(c.subject, -1)) && Next(l, Consume(c.subject, -1))[c.subject] == MIN64
    ensures !Granted(Next(l, Consume(c.subject, -1)), Request(c))
  {
  }
}
