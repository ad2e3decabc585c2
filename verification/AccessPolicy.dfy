/** Tenant admission and model routing: what a decision is, and how it moves with the observed load. */
module AccessPolicy {

  datatype Target = Target(model: string, maxInFlight: int)
  datatype Tenant = Tenant(id: string, maxInFlight: int, maxQueueDepth: int, routes: map<string, seq<Target>>)
  type Catalog = map<string, Tenant>

  datatype Load = Load(ready: bool, inFlight: int)
  datatype Observation = Observation(inFlight: int, queueDepth: int, models: map<string, Load>)

  datatype Disposition = Admit | Backpressure | Reject
  datatype Decision = Decision(disposition: Disposition, model: string, reason: string, queueCapacityRemaining: int)

  // ---- Validation ------------------------------------------------------------------------------

  predicate ValidTargets(targets: seq<Target>) {
    && targets != []
    && (forall i :: 0 <= i < |targets| ==> targets[i].model != "" && targets[i].maxInFlight > 0)
    && (forall i, j :: 0 <= i < j < |targets| ==> targets[i].model != targets[j].model)
  }

  predicate ValidTenant(t: Tenant) {
    && t.id != "" && t.maxInFlight > 0 && t.maxQueueDepth >= 0 && t.routes != map[]
    && forall name :: name in t.routes ==> name != "" && ValidTargets(t.routes[name])
  }

  predicate ValidObservation(o: Observation) {
    && o.inFlight >= 0 && o.queueDepth >= 0
    && forall m :: m in o.models ==> o.models[m].inFlight >= 0
  }

  ghost predicate ValidCatalog(c: Catalog) {
    forall id :: id in c ==> ValidTenant(c[id]) && c[id].id == id
  }

  // ---- Evaluation --------------------------------------------------------------------------------

  predicate Eligible(target: Target, o: Observation) {
    target.model in o.models && o.models[target.model].ready && o.models[target.model].inFlight < target.maxInFlight
  }

  function Rejected(reason: string): Decision {
    Decision(Reject, "", reason, 0)
  }

  function CapacityDecision(t: Tenant, o: Observation, reason: string): Decision {
    var remaining := t.maxQueueDepth - o.queueDepth;
    if remaining > 0 then Decision(Backpressure, "", reason, remaining) else Rejected("queue-capacity-exhausted")
  }

  /** The first eligible target in preference order, or the number of targets. */
  function FirstEligible(targets: seq<Target>, o: Observation): (i: nat)
    ensures i <= |targets| && (i < |targets| ==> Eligible(targets[i], o))
    ensures forall k :: 0 <= k < i ==> !Eligible(targets[k], o)
  {
    if targets == [] || Eligible(targets[0], o) then 0 else 1 + FirstEligible(targets[1..], o)
  }

  function Decide(c: Catalog, tenant: string, route: string, o: Observation): Decision {
    if tenant !in c then Rejected("tenant-not-admitted")
    else if !ValidObservation(o) then Rejected("invalid-runtime-observation")
    else if route !in c[tenant].routes then Rejected("route-not-admitted")
    else if o.inFlight >= c[tenant].maxInFlight then CapacityDecision(c[tenant], o, "tenant-concurrency-limit")
    else
      var targets := c[tenant].routes[route];
      var i := FirstEligible(targets, o);
      if i < |targets| then Decision(Admit, targets[i].model, "target-eligible", 0)
      else CapacityDecision(c[tenant], o, "no-eligible-target")
  }

  /** No count of the observation is negative. */
  ghost predicate Plausible(o: Observation) {
    o.inFlight >= 0 && o.queueDepth >= 0 && forall m :: m in o.models ==> o.models[m].inFlight >= 0
  }

  /** A request is within the tenant boundary and its observation usable. */
  ghost predicate Within(c: Catalog, tenant: string, route: string, o: Observation) {
    tenant in c && Plausible(o) && route in c[tenant].routes
  }

  /** Admission, backpressure and rejection, each exactly, with the reason that goes with it. */
  lemma DecisionExact(c: Catalog, tenant: string, route: string, o: Observation)
    ensures var d := Decide(c, tenant, route, o);
            && (d.disposition == Admit <==>
                  && Within(c, tenant, route, o) && o.inFlight < c[tenant].maxInFlight
                  && exists i :: 0 <= i < |c[tenant].routes[route]| &&
                       var t := c[tenant].routes[route][i];
                       t.model in o.models && o.models[t.model].ready && o.models[t.model].inFlight < t.maxInFlight)
            && (d.disposition == Backpressure <==>
                  Within(c, tenant, route, o) && d.disposition != Admit && o.queueDepth < c[tenant].maxQueueDepth)
            && (d.disposition == Backpressure ==> d.queueCapacityRemaining == c[tenant].maxQueueDepth - o.queueDepth)
            && (d.disposition != Admit ==> d.model == "")
            && d.reason ==
                 if tenant !in c then "tenant-not-admitted"
                 else if !Plausible(o) then "invalid-runtime-observation"
                 else if route !in c[tenant].routes then "route-not-admitted"
                 else if d.disposition == Admit then "target-eligible"
                 else if o.queueDepth >= c[tenant].maxQueueDepth then "queue-capacity-exhausted"
                 else if o.inFlight >= c[tenant].maxInFlight then "tenant-concurrency-limit"
                 else "no-eligible-target"
  {
    if Within(c, tenant, route, o) {
      var targets := c[tenant].routes[route];
      var i := FirstEligible(targets, o);
      assert i < |targets| ==> Eligible(targets[i], o);
      assert forall k :: 0 <= k < |targets| && k < i ==> !Eligible(targets[k], o);
    }
  }

  /**
   * The admitted model is that of the first ready target below its limit, and no other target of the route names it.
   */
  lemma AdmitsFirstEligible(c: Catalog, tenant: string, route: string, o: Observation) returns (i: nat)
    requires ValidCatalog(c) && Decide(c, tenant, route, o).disposition == Admit
    ensures var targets := c[tenant].routes[route];
            && i < |targets| && Decide(c, tenant, route, o).model == targets[i].model
            && targets[i].model in o.models && o.models[targets[i].model].ready
            && o.models[targets[i].model].inFlight < targets[i].maxInFlight
            && (forall k :: 0 <= k < i && targets[k].model in o.models && o.models[targets[k].model].ready ==>
                  o.models[targets[k].model].inFlight >= targets[k].maxInFlight)
            && (forall k :: 0 <= k < |targets| && targets[k].model == targets[i].model ==> k == i)
  {
    var targets := c[tenant].routes[route];
    i := FirstEligible(targets, o);
    assert ValidTargets(targets);
    assert Eligible(targets[i], o);
    forall k | 0 <= k < i && targets[k].model in o.models && o.models[targets[k].model].ready
      ensures o.models[targets[k].model].inFlight >= targets[k].maxInFlight
    {
      assert !Eligible(targets[k], o);
    }
  }

  // ---- Monotonicity --------------------------------------------------------------------------------

  function Rank(d: Disposition): nat {
    match d case Reject => 0 case Backpressure => 1 case Admit => 2
  }

  /** No count is higher and no ready model is lost. */
  ghost predicate Lighter(o: Observation, o': Observation) {
    && o'.inFlight <= o.inFlight && o'.queueDepth <= o.queueDepth
    && forall m :: m in o.models ==>
         m in o'.models && (o.models[m].ready ==> o'.models[m].ready) && o'.models[m].inFlight <= o.models[m].inFlight
  }

  lemma {:induction false} FirstEligibleMonotone(targets: seq<Target>, o: Observation, o': Observation)
    requires Lighter(o, o')
    ensures FirstEligible(targets, o') <= FirstEligible(targets, o)
    decreases |targets|
  {
    if targets != [] && !Eligible(targets[0], o) { FirstEligibleMonotone(targets[1..], o, o'); }
  }

  /** Less load never worsens the answer, and never moves an admission later in preference order. */
  lemma AdmissionMonotone(c: Catalog, tenant: string, route: string, o: Observation, o': Observation)
    requires ValidObservation(o) && ValidObservation(o') && Lighter(o, o')
    ensures Rank(Decide(c, tenant, route, o).disposition) <= Rank(Decide(c, tenant, route, o').disposition)
    ensures Decide(c, tenant, route, o).disposition == Admit ==>
              FirstEligible(c[tenant].routes[route], o') <= FirstEligible(c[tenant].routes[route], o) <
                  |c[tenant].routes[route]|
    ensures Decide(c, tenant, route, o).disposition == Decide(c, tenant, route, o').disposition == Backpressure ==>
              Decide(c, tenant, route, o).queueCapacityRemaining <= Decide(c, tenant, route, o').queueCapacityRemaining
  {
    if tenant in c && route in c[tenant].routes {
      FirstEligibleMonotone(c[tenant].routes[route], o, o');
    }
  }

  // ---- A request plane that obeys the decisions -------------------------------------------------------

  datatype Request = Request(tenant: string, model: string)

  /** Requests in flight, waiting counts, and which models the plane sees as ready. */
  datatype Plane = Plane(active: seq<Request>, queued: map<string, nat>, ready: map<string, bool>)

  /** A request arrives, a waiting one is tried again, one in flight completes, readiness changes. */
  datatype Event =
    | Arrive(tenant: string, route: string)
    | Retry(tenant: string, route: string)
    | Complete(k: nat)
    | Readiness(ready: map<string, bool>)

  function Waiting(p: Plane, tenant: string): nat {
    if tenant in p.queued then p.queued[tenant] else 0
  }

  function TenantLoad(active: seq<Request>, tenant: string): nat {
    if active == [] then 0 else (if active[0].tenant == tenant then 1 else 0) + TenantLoad(active[1..], tenant)
  }

  function ModelLoad(active: seq<Request>, model: string): nat {
    if active == [] then 0 else (if active[0].model == model then 1 else 0) + ModelLoad(active[1..], model)
  }

  lemma {:induction false} LoadsConcat(a: seq<Request>, b: seq<Request>, tenant: string, model: string)
    ensures TenantLoad(a + b, tenant) == TenantLoad(a, tenant) + TenantLoad(b, tenant)
    ensures ModelLoad(a + b, model) == ModelLoad(a, model) + ModelLoad(b, model)
    decreases |a|
  {
    if a == [] {
      assert a + b == b;
    } else {
      assert (a + b)[1..] == a[1..] + b;
      LoadsConcat(a[1..], b, tenant, model);
    }
  }

  lemma LoadsAdd(active: seq<Request>, r: Request, tenant: string, model: string)
    ensures TenantLoad(active + [r], tenant) == TenantLoad(active, tenant) + (if r.tenant == tenant then 1 else 0)
    ensures ModelLoad(active + [r], model) == ModelLoad(active, model) + (if r.model == model then 1 else 0)
  {
    LoadsConcat(active, [r], tenant, model);
    assert [r][1..] == [];
  }

  lemma LoadsDrop(active: seq<Request>, k: nat, tenant: string, model: string)
    requires k < |active|
    ensures TenantLoad(active[..k] + active[k + 1..], tenant) <= TenantLoad(active, tenant)
    ensures ModelLoad(active[..k] + active[k + 1..], model) <= ModelLoad(active, model)
  {
    assert active == active[..k] + ([active[k]] + active[k + 1..]);
    LoadsConcat(active[..k], [active[k]] + active[k + 1..], tenant, model);
    LoadsConcat([active[k]], active[k + 1..], tenant, model);
    LoadsConcat(active[..k], active[k + 1..], tenant, model);
  }

  function Observe(p: Plane, tenant: string): Observation {
    Observation(TenantLoad(p.active, tenant), Waiting(p, tenant),
                map m | m in p.ready :: Load(p.ready[m], ModelLoad(p.active, m)))
  }

  function Obey(p: Plane, tenant: string, d: Decision): Plane {
    match d.disposition
    case Admit => p.(active := p.active + [Request(tenant, d.model)])
    case Backpressure => p.(queued := p.queued[tenant := Waiting(p, tenant) + 1])
    case Reject => p
  }

  function Next(c: Catalog, p: Plane, e: Event): Plane {
    match e
    case Arrive(tenant, route) => Obey(p, tenant, Decide(c, tenant, route, Observe(p, tenant)))
    case Retry(tenant, route) =>
      if Waiting(p, tenant) == 0 then p
      else
        var q := p.(queued := p.queued[tenant := Waiting(p, tenant) - 1]);
        Obey(q, tenant, Decide(c, tenant, route, Observe(q, tenant)))
    case Complete(k) => if k < |p.active| then p.(active := p.active[..k] + p.active[k + 1..]) else p
    case Readiness(ready) => p.(ready := ready)
  }

  function Run(c: Catalog, p: Plane, events: seq<Event>): Plane
    decreases |events|
  {
    if events == [] then p else Run(c, Next(c, p, events[0]), events[1..])
  }

  /** Some target names the model and allows that many requests in flight. */
  ghost predicate Allowed(c: Catalog, model: string, n: nat) {
    exists tenant, route, i ::
      tenant in c && route in c[tenant].routes && 0 <= i < |c[tenant].routes[route]|
      && c[tenant].routes[route][i].model == model && n <= c[tenant].routes[route][i].maxInFlight
  }

  ghost predicate TenantSafe(c: Catalog, p: Plane, tenant: string) {
    if tenant in c then TenantLoad(p.active, tenant) <= c[tenant].maxInFlight
        && Waiting(p, tenant) <= c[tenant].maxQueueDepth
    else TenantLoad(p.active, tenant) == 0 && Waiting(p, tenant) == 0
  }

  ghost predicate ModelSafe(c: Catalog, p: Plane, model: string) {
    ModelLoad(p.active, model) == 0 || Allowed(c, model, ModelLoad(p.active, model))
  }

  /** Tenants stay within both of their limits, models within the largest limit that names them. */
  ghost predicate Safe(c: Catalog, p: Plane) {
    (forall tenant :: TenantSafe(c, p, tenant)) && (forall model :: ModelSafe(c, p, model))
  }

  lemma AllowedFewer(c: Catalog, model: string, n: nat, m: nat)
    requires Allowed(c, model, n) && m <= n
    ensures Allowed(c, model, m)
  {
    var tenant, route, i :|
      tenant in c && route in c[tenant].routes && 0 <= i < |c[tenant].routes[route]|
      && c[tenant].routes[route][i].model == model && n <= c[tenant].routes[route][i].maxInFlight;
    assert m <= c[tenant].routes[route][i].maxInFlight;
  }

  lemma AdmitSafe(c: Catalog, p: Plane, tenant: string, route: string)
    requires ValidCatalog(c) && Safe(c, p) && Decide(c, tenant, route, Observe(p, tenant)).disposition == Admit
    ensures Safe(c, Obey(p, tenant, Decide(c, tenant, route, Observe(p, tenant))))
  {
    hide Decide, TenantLoad, ModelLoad, ValidCatalog, Allowed;
    var o := Observe(p, tenant);
    var d := Decide(c, tenant, route, o);
    DecisionExact(c, tenant, route, o);
    var i := AdmitsFirstEligible(c, tenant, route, o);
    var r, next := Request(tenant, d.model), Obey(p, tenant, d);
    assert o.models[d.model].inFlight == ModelLoad(p.active, d.model);
    forall t ensures TenantSafe(c, next, t) {
      LoadsAdd(p.active, r, t, d.model);
      assert TenantSafe(c, p, t);
    }
    forall m ensures ModelSafe(c, next, m) {
      LoadsAdd(p.active, r, tenant, m);
      assert ModelSafe(c, p, m);
      if m == d.model { TargetAllows(c, tenant, route, i, ModelLoad(next.active, m)); }
    }
  }

  lemma TargetAllows(c: Catalog, tenant: string, route: string, i: nat, n: nat)
    requires tenant in c && route in c[tenant].routes && i < |c[tenant].routes[route]|
    requires n <= c[tenant].routes[route][i].maxInFlight
    ensures Allowed(c, c[tenant].routes[route][i].model, n)
  {
  }

  lemma MoreWaitingSafe(c: Catalog, p: Plane, tenant: string)
    requires Safe(c, p) && tenant in c && Waiting(p, tenant) < c[tenant].maxQueueDepth
    ensures Safe(c, p.(queued := p.queued[tenant := Waiting(p, tenant) + 1]))
  {
    hide Allowed, TenantLoad, ModelLoad;
    var q := p.(queued := p.queued[tenant := Waiting(p, tenant) + 1]);
    forall t ensures TenantSafe(c, q, t) { assert TenantSafe(c, p, t); }
    forall m ensures ModelSafe(c, q, m) { assert ModelSafe(c, p, m); }
  }

  lemma ObeySafe(c: Catalog, p: Plane, tenant: string, route: string)
    requires ValidCatalog(c) && Safe(c, p)
    ensures Safe(c, Obey(p, tenant, Decide(c, tenant, route, Observe(p, tenant))))
  {
    hide Decide, Safe, ValidCatalog;
    var d := Decide(c, tenant, route, Observe(p, tenant));
    if d.disposition == Admit {
      AdmitSafe(c, p, tenant, route);
    } else if d.disposition == Backpressure {
      DecisionExact(c, tenant, route, Observe(p, tenant));
      MoreWaitingSafe(c, p, tenant);
    }
  }

  lemma FewerWaitingSafe(c: Catalog, p: Plane, tenant: string)
    requires Safe(c, p) && Waiting(p, tenant) > 0
    ensures Safe(c, p.(queued := p.queued[tenant := Waiting(p, tenant) - 1]))
  {
    hide Allowed, TenantLoad, ModelLoad;
    var q := p.(queued := p.queued[tenant := Waiting(p, tenant) - 1]);
    forall t ensures TenantSafe(c, q, t) { assert TenantSafe(c, p, t); }
    forall m ensures ModelSafe(c, q, m) { assert ModelSafe(c, p, m); }
  }

  lemma CompleteSafe(c: Catalog, p: Plane, k: nat)
    requires Safe(c, p) && k < |p.active|
    ensures Safe(c, p.(active := p.active[..k] + p.active[k + 1..]))
  {
    hide Allowed, TenantLoad, ModelLoad;
    var q := p.(active := p.active[..k] + p.active[k + 1..]);
    forall t ensures TenantSafe(c, q, t) {
      LoadsDrop(p.active, k, t, "");
      assert TenantSafe(c, p, t);
    }
    forall m ensures ModelSafe(c, q, m) {
      LoadsDrop(p.active, k, "", m);
      assert ModelSafe(c, p, m);
      if ModelLoad(p.active, m) > 0 { AllowedFewer(c, m, ModelLoad(p.active, m), ModelLoad(q.active, m)); }
    }
  }

  lemma NextSafe(c: Catalog, p: Plane, e: Event)
    requires ValidCatalog(c) && Safe(c, p)
    ensures Safe(c, Next(c, p, e))
  {
    hide Safe, Decide, Obey, ValidCatalog;
    match e
    case Arrive(tenant, route) => ObeySafe(c, p, tenant, route);
    case Retry(tenant, route) =>
      if Waiting(p, tenant) > 0 {
        FewerWaitingSafe(c, p, tenant);
        ObeySafe(c, p.(queued := p.queued[tenant := Waiting(p, tenant) - 1]), tenant, route);
      }
    case Complete(k) => if k < |p.active| { CompleteSafe(c, p, k); }
    case Readiness(ready) => ReadinessSafe(c, p, ready);
  }

  lemma ReadinessSafe(c: Catalog, p: Plane, ready: map<string, bool>)
    requires Safe(c, p)
    ensures Safe(c, p.(ready := ready))
  {
    hide Allowed, TenantLoad, ModelLoad;
    var q := p.(ready := ready);
    forall t ensures TenantSafe(c, q, t) { assert TenantSafe(c, p, t); }
    forall m ensures ModelSafe(c, q, m) { assert ModelSafe(c, p, m); }
  }

  /** Every request the plane puts in flight goes to a model it sees as ready, below a limit of the route it came by. */
  lemma AdmittedIsReady(c: Catalog, p: Plane, e: Event)
    requires ValidCatalog(c) && |Next(c, p, e).active| > |p.active|
    ensures e.Arrive? || e.Retry?
    ensures exists model, i ::
              && Next(c, p, e).active == p.active + [Request(e.tenant, model)]
              && model in p.ready && p.ready[model] && e.tenant in c && e.route in c[e.tenant].routes
              && 0 <= i < |c[e.tenant].routes[e.route]| && c[e.tenant].routes[e.route][i].model == model
              && ModelLoad(p.active, model) < c[e.tenant].routes[e.route][i].maxInFlight
  {
    hide Decide, ModelLoad, TenantLoad, ValidCatalog;
    assert e.Arrive? || e.Retry?;
    var q := if e.Arrive? then p else p.(queued := p.queued[e.tenant := Waiting(p, e.tenant) - 1]);
    var o := Observe(q, e.tenant);
    var d := Decide(c, e.tenant, e.route, o);
    DecisionExact(c, e.tenant, e.route, o);
    assert d.disposition == Admit && Next(c, p, e).active == p.active + [Request(e.tenant, d.model)];
    var i := AdmitsFirstEligible(c, e.tenant, e.route, o);
    assert o.models[d.model] == Load(p.ready[d.model], ModelLoad(p.active, d.model));
    assert c[e.tenant].routes[e.route][i].model == d.model;
  }

  lemma {:induction false} RunSafe(c: Catalog, p: Plane, events: seq<Event>)
    requires ValidCatalog(c) && Safe(c, p)
    ensures Safe(c, Run(c, p, events))
    decreases |events|
  {
    hide Safe, Next, ValidCatalog;
    if events != [] {
      NextSafe(c, p, events[0]);
      RunSafe(c, Next(c, p, events[0]), events[1..]);
    }
  }

  /** From an idle plane, whatever arrives, completes or changes readiness: every limit holds throughout. */
  lemma EveryRunSafe(c: Catalog, ready: map<string, bool>, events: seq<Event>)
    requires ValidCatalog(c)
    ensures Safe(c, Run(c, Plane([], map[], ready), events))
  {
    assert forall t :: t in c ==> c[t].maxInFlight > 0 && c[t].maxQueueDepth >= 0;
    RunSafe(c, Plane([], map[], ready), events);
  }
}
