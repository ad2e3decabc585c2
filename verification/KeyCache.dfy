/** The verifier's cache of signing keys: one object behind a read/write lock, any number of concurrent callers. */
module KeyCache {

  type Key = string

  /** A key of the published set; its material is kept only when it is an RSA key. */
  datatype Material = Rsa(key: Key) | Other

  datatype Jwk = Jwk(kid: string, material: Material)

  datatype Response = Unavailable | KeySet(keys: seq<Jwk>)

  datatype Lookup = Found(key: Key) | NotFound | FetchFailed

  // ---- The published set --------------------------------------------------------------------------------

  /** `key` is the last RSA key published under `kid`. */
  ghost predicate LastPublished(published: seq<Jwk>, kid: string, key: Key) {
    exists i :: LastAt(published, kid, key, i)
  }

  ghost predicate LastAt(published: seq<Jwk>, kid: string, key: Key, i: int) {
    && 0 <= i < |published|
    && published[i] == Jwk(kid, Rsa(key))
    && forall j :: i < j < |published| && published[j].material.Rsa? ==> published[j].kid != kid
  }

  ghost predicate Indexes(keys: map<string, Key>, published: seq<Jwk>) {
    && (forall kid :: kid in keys ==> LastPublished(published, kid, keys[kid]))
    && (forall i :: 0 <= i < |published| && published[i].material.Rsa? ==> published[i].kid in keys)
  }

  /** A published set has one index. */
  lemma IndexUnique(keys: map<string, Key>, other: map<string, Key>, published: seq<Jwk>)
    requires Indexes(keys, published) && Indexes(other, published)
    ensures keys == other
  {
    forall kid | kid in keys ensures kid in other && other[kid] == keys[kid] {
      SameKey(keys, other, published, kid);
    }
    forall kid | kid in other ensures kid in keys { SameKey(other, keys, published, kid); }
  }

  lemma SameKey(keys: map<string, Key>, other: map<string, Key>, published: seq<Jwk>, kid: string)
    requires Indexes(keys, published) && Indexes(other, published) && kid in keys
    ensures kid in other && other[kid] == keys[kid]
  {
    var i :| LastAt(published, kid, keys[kid], i);
    assert kid in other;
    var j :| LastAt(published, kid, other[kid], j);
    assert i == j;
  }

  lemma IndexExtended(keys: map<string, Key>, published: seq<Jwk>, k: Jwk)
    requires Indexes(keys, published)
    ensures k.material.Other? ==> Indexes(keys, published + [k])
    ensures k.material.Rsa? ==> Indexes(keys[k.kid := k.material.key], published + [k])
  {
    var longer := published + [k];
    assert k.material.Rsa? ==> LastAt(longer, k.kid, k.material.key, |published|);
    forall kid | kid in keys && (k.material.Other? || kid != k.kid) ensures LastPublished(longer, kid, keys[kid]) {
      var i :| LastAt(published, kid, keys[kid], i);
      assert LastAt(longer, kid, keys[kid], i);
    }
  }

  predicate FreshIn(keys: map<string, Key>, lastFetch: int, ttl: int, kid: string, now: int) {
    kid in keys && now - lastFetch < ttl
  }

  // ---- Concurrent callers -----------------------------------------------------------------------------------

  datatype Install = Install(keys: map<string, Key>, at: int)

  /** Where a caller stands: before the first read, before the lock, inside it, before the second read. */
  datatype Stage = Calling | Waiting | Holding | Rereading

  datatype Caller = Caller(stage: Stage, kid: string, start: int)

  /** An answer, with the number of installs when it was read and whether it came from the first read. */
  datatype Answer = Answer(kid: string, start: int, result: Lookup, installs: nat, first: bool)

  datatype State = State(
    keys: map<string, Key>, lastFetch: int, locked: bool, now: int,
    callers: map<nat, Caller>, log: seq<Install>, answers: seq<Answer>)

  datatype Event =
    | Tick(elapsed: nat)
    | Call(id: nat, kid: string)
    | FirstRead(id: nat)
    | Lock(id: nat)
    | Fetch(id: nat, response: Response, index: map<string, Key>)
    | SecondRead(id: nat)

  predicate At(s: State, id: nat, stage: Stage) {
    id in s.callers && s.callers[id].stage == stage
  }

  ghost predicate Enabled(s: State, e: Event) {
    match e
    case Tick(_) => true
    case Call(id, _) => id !in s.callers
    case FirstRead(id) => At(s, id, Calling) && !s.locked
    case Lock(id) => At(s, id, Waiting) && !s.locked
    case Fetch(id, response, index) => At(s, id, Holding) && (response.KeySet? ==> Indexes(index, response.keys))
    case SecondRead(id) => At(s, id, Rereading) && !s.locked
  }

  function Moved(s: State, id: nat, stage: Stage): State
    requires id in s.callers
  {
    s.(callers := s.callers[id := s.callers[id].(stage := stage)])
  }

  function Answered(s: State, id: nat, result: Lookup, first: bool): State
    requires id in s.callers
  {
    var c := s.callers[id];
    s.(callers := s.callers - {id}, answers := s.answers + [Answer(c.kid, c.start, result, |s.log|, first)])
  }

  ghost function Next(s: State, e: Event, ttl: int): State
    requires Enabled(s, e)
  {
    match e
    case Tick(d) => s.(now := s.now + d)
    case Call(id, kid) => s.(callers := s.callers[id := Caller(Calling, kid, s.now)])
    case FirstRead(id) =>
      var kid := s.callers[id].kid;
      if FreshIn(s.keys, s.lastFetch, ttl, kid, s.now) then Answered(s, id, Found(s.keys[kid]), true)
          else Moved(s, id, Waiting)
    case Lock(id) => Moved(s, id, Holding).(locked := true)
    case Fetch(id, response, index) =>
      if response.Unavailable? then Answered(s, id, FetchFailed, false).(locked := false)
      else Moved(s, id, Rereading).(keys := index, lastFetch := s.now, locked := false, log := s.log
          + [Install(index, s.now)])
    case SecondRead(id) =>
      var kid := s.callers[id].kid;
      Answered(s, id, if kid in s.keys then Found(s.keys[kid]) else NotFound, false)
  }

  ghost predicate Runs(s: State, events: seq<Event>, ttl: int)
    decreases |events|
  {
    events == [] || (Enabled(s, events[0]) && Runs(Next(s, events[0], ttl), events[1..], ttl))
  }

  ghost function After(s: State, events: seq<Event>, ttl: int): State
    requires Runs(s, events, ttl)
    decreases |events|
  {
    if events == [] then s else After(Next(s, events[0], ttl), events[1..], ttl)
  }

  function Start(zeroTime: int, now: int): State {
    State(map[], zeroTime, false, now, map[], [], [])
  }

  lemma {:induction false} RunsOn(s: State, events: seq<Event>, e: Event, ttl: int)
    requires Runs(s, events, ttl) && Enabled(After(s, events, ttl), e)
    ensures Runs(s, events + [e], ttl) && After(s, events + [e], ttl) == Next(After(s, events, ttl), e, ttl)
    decreases |events|
  {
    hide Enabled, Next;
    if events == [] {
      assert events + [e] == [e] && [e][1..] == [];
    } else {
      assert (events + [e])[1..] == events[1..] + [e];
      RunsOn(Next(s, events[0], ttl), events[1..], e, ttl);
    }
  }

  // ---- The cache object -----------------------------------------------------------------------------------

  /** The answer given last. */
  ghost predicate Answers(s: State, r: Lookup) {
    s.answers != [] && s.answers[|s.answers| - 1].result == r
  }

  class Verifier {
    const ttl: int
    var publicKeys: map<string, Key>
    var lastFetch: int
    /** The state of the transition system that this object takes part in. */
    ghost var view: State

    ghost predicate Valid()
      reads this
    {
      view.keys == publicKeys && view.lastFetch == lastFetch
    }

    constructor (ttl: int, zeroTime: int, ghost now: int)
      ensures this.ttl == ttl && Valid() && view == Start(zeroTime, now)
    {
      this.ttl, publicKeys, lastFetch, view := ttl, map[], zeroTime, Start(zeroTime, now);
    }

    /** The critical section of the first read. */
    method ReadFresh(kid: string, now: int, ghost id: nat) returns (hit: bool, key: Key)
      requires Valid() && Enabled(view, FirstRead(id)) && view.callers[id].kid == kid && view.now == now
      modifies this`view
      ensures Valid() && view == Next(old(view), FirstRead(id), ttl)
      ensures hit <==> kid in publicKeys && now - lastFetch < ttl
      ensures if hit then Answers(view, Found(key)) else At(view, id, Waiting)
    {
      view := Next(view, FirstRead(id), ttl);
      if kid in publicKeys && now - lastFetch < ttl { return true, publicKeys[kid]; }
      return false, "";
    }

    /** The exclusive section: the keys and their time are replaced together or not at all. */
    method RefreshJwks(response: Response, now: int, ghost id: nat) returns (ok: bool)
      requires Valid() && At(view, id, Holding) && view.now == now
      modifies this
      ensures Valid() && Enabled(old(view), Fetch(id, response, publicKeys))
      ensures view == Next(old(view), Fetch(id, response, publicKeys), ttl)
      ensures ok <==> response.KeySet?
      ensures if ok then Indexes(publicKeys, response.keys) && lastFetch == now && At(view, id, Rereading)
              else publicKeys == old(publicKeys) && lastFetch == old(lastFetch) && Answers(view, FetchFailed)
    {
      if response.Unavailable? {
        view := Next(view, Fetch(id, response, publicKeys), ttl);
        return false;
      }
      var newKeys := IndexKeys(response.keys);
      view := Next(view, Fetch(id, response, newKeys), ttl);
      publicKeys, lastFetch, ok := newKeys, now, true;
    }

    /** The critical section of the second read. */
    method ReadAgain(kid: string, ghost id: nat) returns (r: Lookup)
      requires Valid() && Enabled(view, SecondRead(id)) && view.callers[id].kid == kid
      modifies this`view
      ensures Valid() && view == Next(old(view), SecondRead(id), ttl) && Answers(view, r)
      ensures r == if kid in publicKeys then Found(publicKeys[kid]) else NotFound
    {
      view := Next(view, SecondRead(id), ttl);
      if kid in publicKeys { r := Found(publicKeys[kid]); } else { r := NotFound; }
    }

    /** One caller with the cache to itself: a run of the transition system, ending in the answer it returns. */
    method GetPublicKey(kid: string, start: int, response: Response, elapsed: nat, ghost id: nat)
      returns (r: Lookup, ghost events: seq<Event>)
      requires Valid() && id !in view.callers && !view.locked && view.now == start
      modifies this
      ensures Valid() && Runs(old(view), events, ttl) && view == After(old(view), events, ttl) && Answers(view, r)
      ensures |events| == 2 <==> kid in old(publicKeys) && start - old(lastFetch) < ttl
      ensures |events| == 2 ==> r == Found(old(publicKeys)[kid])
      ensures |events| > 2 && response.Unavailable? ==>
                r == FetchFailed && publicKeys == old(publicKeys) && lastFetch == old(lastFetch)
      ensures |events| > 2 && response.KeySet? ==>
                && lastFetch == start + elapsed && Indexes(publicKeys, response.keys)
                && r == if kid in publicKeys then Found(publicKeys[kid]) else NotFound
    {
      hide Indexes;
      ghost var s := view;
      events := [];
      events := Step(s, events, Call(id, kid));
      var hit, key := ReadFresh(kid, start, id);
      RunsOn(s, events, FirstRead(id), ttl);
      events := events + [FirstRead(id)];
      if hit { return Found(key), events; }
      events := Step(s, events, Lock(id));
      events := Step(s, events, Tick(elapsed));
      var ok := RefreshJwks(response, start + elapsed, id);
      RunsOn(s, events, Fetch(id, response, publicKeys), ttl);
      events := events + [Fetch(id, response, publicKeys)];
      if !ok { return FetchFailed, events; }
      r := ReadAgain(kid, id);
      RunsOn(s, events, SecondRead(id), ttl);
      events := events + [SecondRead(id)];
    }

    /** A step that touches neither keys nor time: a call arrives, the lock is taken, the clock moves. */
    ghost method Step(s: State, events: seq<Event>, e: Event) returns (more: seq<Event>)
      requires Valid() && Runs(s, events, ttl) && view == After(s, events, ttl)
      requires Enabled(view, e) && (e.Call? || e.Lock? || e.Tick?)
      modifies this`view
      ensures Valid() && view == Next(old(view), e, ttl) && more == events + [e]
      ensures Runs(s, more, ttl) && view == After(s, more, ttl)
    {
      RunsOn(s, events, e, ttl);
      view := Next(view, e, ttl);
      more := events + [e];
    }
  }

  /** The loop over the published set. */
  method IndexKeys(published: seq<Jwk>) returns (keys: map<string, Key>)
    ensures Indexes(keys, published)
  {
    keys := map[];
    var i := 0;
    while i < |published|
      invariant 0 <= i <= |published| && Indexes(keys, published[..i])
    {
      var k := published[i];
      IndexExtended(keys, published[..i], k);
      assert published[..i + 1] == published[..i] + [k];
      if k.material.Rsa? { keys := keys[k.kid := k.material.key]; }
      i := i + 1;
    }
    assert published[..i] == published;
  }

  // ---- Safety --------------------------------------------------------------------------------------------------

  /** The object holds the last installed set with its time. */
  ghost predicate Together(s: State) {
    && (s.log == [] ==> s.keys == map[])
    && (s.log != [] ==> s.keys == s.log[|s.log| - 1].keys && s.lastFetch == s.log[|s.log| - 1].at <= s.now)
  }

  ghost predicate CallerOk(s: State, c: Caller) {
    c.start <= s.now && (c.stage == Rereading ==> s.log != [] && c.start <= s.log[|s.log| - 1].at)
  }

  /**
   * A first-read answer comes from a set younger than the TTL at the call; any other from one installed since the call.
   */
  ghost predicate AnswerOk(log: seq<Install>, ttl: int, a: Answer) {
    && a.installs <= |log|
    && (a.first ==> a.result.Found?)
    && (!a.result.FetchFailed? ==> a.installs > 0)
    && (!a.result.FetchFailed? ==>
          var source := log[a.installs - 1];
          && (if a.first then a.start - ttl < source.at else a.start <= source.at)
          && (a.result.NotFound? ==> a.kid !in source.keys)
          && (a.result.Found? ==> a.kid in source.keys && source.keys[a.kid] == a.result.key))
  }

  ghost predicate Safe(s: State, ttl: int) {
    && Together(s)
    && (forall id :: id in s.callers ==> CallerOk(s, s.callers[id]))
    && (forall i :: 0 <= i < |s.answers| ==> AnswerOk(s.log, ttl, s.answers[i]))
  }

  lemma CallersKept(s: State, e: Event, ttl: int)
    requires Safe(s, ttl) && Enabled(s, e)
    ensures var n := Next(s, e, ttl); Together(n) && forall id :: id in n.callers ==> CallerOk(n, n.callers[id])
  {
  }

  lemma AnswersKept(s: State, e: Event, ttl: int)
    requires Safe(s, ttl) && Enabled(s, e)
    ensures var n := Next(s, e, ttl); forall i :: 0 <= i < |n.answers| ==> AnswerOk(n.log, ttl, n.answers[i])
  {
    var n := Next(s, e, ttl);
    forall i | 0 <= i < |s.answers| ensures AnswerOk(n.log, ttl, s.answers[i]) {
      var a := s.answers[i];
      assert AnswerOk(s.log, ttl, a);
    }
    assert |n.answers| == |s.answers| + 1 ==> AnswerOk(n.log, ttl, n.answers[|s.answers|]);
  }

  /** In every interleaving of every number of callers, every answer is as fresh as promised. */
  lemma {:induction false} EveryAnswerFresh(s: State, events: seq<Event>, ttl: int)
    requires Safe(s, ttl) && Runs(s, events, ttl)
    ensures Safe(After(s, events, ttl), ttl)
    decreases |events|
  {
    hide CallerOk, AnswerOk, Together, Enabled, Next;
    if events != [] {
      CallersKept(s, events[0], ttl);
      AnswersKept(s, events[0], ttl);
      EveryAnswerFresh(Next(s, events[0], ttl), events[1..], ttl);
    }
  }

  /** The same from the new verifier, for one answer and without the bookkeeping. */
  lemma ReturnedKeyIsFresh(zeroTime: int, now: int, events: seq<Event>, ttl: int, a: Answer)
    requires Runs(Start(zeroTime, now), events, ttl) && a in After(Start(zeroTime, now), events, ttl).answers
        && a.result.Found?
    ensures exists i :: 0 <= i < |After(Start(zeroTime, now), events, ttl).log|
              && var source := After(Start(zeroTime, now), events, ttl).log[i];
                 a.kid in source.keys && source.keys[a.kid] == a.result.key
                     && source.at >= a.start - (if ttl > 0 then ttl else 0)
  {
    var s := Start(zeroTime, now);
    EveryAnswerFresh(s, events, ttl);
    var log := After(s, events, ttl).log;
    assert AnswerOk(log, ttl, a);
    var source := log[a.installs - 1];
    assert a.kid in source.keys && source.keys[a.kid] == a.result.key;
  }

  /** A first read answers from the last installed set exactly while that is younger than the TTL and holds the key. */
  lemma FirstReadExactly(s: State, id: nat, ttl: int)
    requires Together(s) && Enabled(s, FirstRead(id))
    ensures var c, n := s.callers[id], Next(s, FirstRead(id), ttl);
            if s.log != [] && c.kid in s.log[|s.log| - 1].keys && s.now - s.log[|s.log| - 1].at < ttl then
              && n.answers == s.answers + [Answer(c.kid, c.start, Found(s.log[|s.log| - 1].keys[c.kid]), |s.log|, true)]
              && id !in n.callers
            else n.answers == s.answers && At(n, id, Waiting)
  {
  }

  /** A second read answers from the last installed set, whatever its age. */
  lemma SecondReadExactly(s: State, id: nat, ttl: int)
    requires Together(s) && Enabled(s, SecondRead(id)) && s.log != []
    ensures var c, n, last := s.callers[id], Next(s, SecondRead(id), ttl), s.log[|s.log| - 1];
            && id !in n.callers
            && n.answers == s.answers +
                 [Answer(c.kid, c.start, if c.kid in last.keys then Found(last.keys[c.kid])
                     else NotFound, |s.log|, false)]
  {
  }

  /** Keys and their time change only together, by a fetch that succeeded, and each change is one install. */
  lemma ChangesTogether(s: State, e: Event, ttl: int)
    requires Enabled(s, e)
    ensures var n := Next(s, e, ttl);
            if e.Fetch? && e.response.KeySet? then n.log == s.log + [Install(n.keys, n.lastFetch)]
                && n.lastFetch == s.now
            else n.keys == s.keys && n.lastFetch == s.lastFetch && n.log == s.log
  {
  }
}
