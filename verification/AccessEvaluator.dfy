/** The evaluator as an object: it validates and copies the caller's policies and answers from its own copies. */
module AccessEvaluator {
  import opened AccessPolicy

  /** A caller's route map: shared by reference, and so are the target slices in it. */
  class RouteTable {
    var routes: map<string, array<Target>>

    constructor (routes: map<string, array<Target>>)
      ensures this.routes == routes
    {
      this.routes := routes;
    }
  }

  /** A caller's policy value: copying it copies the reference to its routes. */
  datatype Policy = Policy(id: string, maxInFlight: int, maxQueueDepth: int, table: RouteTable)

  /** What a policy says right now, told from the objects in `parts`. */
  ghost predicate Says(p: Policy, t: Tenant, parts: set<object>)
    reads parts
  {
    && p.id == t.id && p.maxInFlight == t.maxInFlight && p.maxQueueDepth == t.maxQueueDepth
    && p.table in parts && p.table.routes.Keys == t.routes.Keys
    && forall name :: name in p.table.routes ==>
         p.table.routes[name] in parts && p.table.routes[name][..] == t.routes[name]
  }

  // ---- Validation ----------------------------------------------------------------------------------

  method ValidateTargets(targets: array<Target>) returns (ok: bool)
    ensures ok <==> ValidTargets(targets[..])
  {
    if targets.Length == 0 { return false; }
    var seen: set<string> := {};
    var i := 0;
    while i < targets.Length
      invariant 0 <= i <= targets.Length
      invariant seen == set k | 0 <= k < i :: targets[k].model
      invariant forall k :: 0 <= k < i ==> targets[k].model != "" && targets[k].maxInFlight > 0
      invariant forall j, k :: 0 <= j < k < i ==> targets[j].model != targets[k].model
    {
      if targets[i].model == "" || targets[i].maxInFlight <= 0 {
        assert !(targets[..][i].model != "" && targets[..][i].maxInFlight > 0);
        return false;
      }
      if targets[i].model in seen {
        var k :| 0 <= k < i && targets[k].model == targets[i].model;
        assert targets[..][k].model == targets[..][i].model;
        return false;
      }
      seen := seen + {targets[i].model};
      i := i + 1;
    }
    ok := true;
  }

  method ValidatePolicy(p: Policy, ghost t: Tenant, ghost parts: set<object>) returns (ok: bool)
    requires Says(p, t, parts)
    ensures ok <==> ValidTenant(t)
  {
    if p.id == "" || p.maxInFlight <= 0 || p.maxQueueDepth < 0 { return false; }
    if p.table.routes == map[] {
      assert t.routes == map[];
      return false;
    }
    var rest := p.table.routes.Keys;
    while rest != {}
      invariant rest <= p.table.routes.Keys
      invariant forall name :: name in p.table.routes.Keys - rest ==> name != "" && ValidTargets(t.routes[name])
      decreases rest
    {
      var name :| name in rest;
      if name == "" { return false; }
      var valid := ValidateTargets(p.table.routes[name]);
      if !valid { return false; }
      rest := rest - {name};
    }
    ok := true;
  }

  // ---- Copying -----------------------------------------------------------------------------------------

  method CopyTargets(targets: array<Target>) returns (copy: array<Target>)
    ensures fresh(copy) && copy[..] == targets[..]
  {
    copy := new Target[targets.Length](i requires 0 <= i < targets.Length reads targets => targets[i]);
  }

  /** cloneTenantPolicy: a new route map with new slices; the caller's are not kept. */
  method ClonePolicy(p: Policy, ghost t: Tenant, ghost parts: set<object>)
      returns (copy: Policy, ghost mine: set<object>)
    requires Says(p, t, parts)
    ensures fresh(mine) && Says(copy, t, mine)
  {
    var routes: map<string, array<Target>> := map[];
    mine := {};
    var rest := p.table.routes.Keys;
    while rest != {}
      invariant rest <= p.table.routes.Keys && routes.Keys == p.table.routes.Keys - rest && fresh(mine)
      invariant forall name :: name in routes ==> routes[name] in mine && routes[name][..] == t.routes[name]
      decreases rest
    {
      var name :| name in rest;
      var targets := CopyTargets(p.table.routes[name]);
      routes, mine := routes[name := targets], mine + {targets};
      rest := rest - {name};
    }
    var table := new RouteTable(routes);
    mine := mine + {table};
    copy := Policy(p.id, p.maxInFlight, p.maxQueueDepth, table);
  }

  // ---- The evaluator ---------------------------------------------------------------------------------------

  method CheckObservation(o: Observation) returns (ok: bool)
    ensures ok == ValidObservation(o)
  {
    if o.inFlight < 0 || o.queueDepth < 0 { return false; }
    var rest := o.models.Keys;
    while rest != {}
      invariant rest <= o.models.Keys && forall m :: m in o.models.Keys - rest ==> o.models[m].inFlight >= 0
      decreases rest
    {
      var m :| m in rest;
      if o.models[m].inFlight < 0 { return false; }
      rest := rest - {m};
    }
    ok := true;
  }

  class Evaluator {
    const tenants: map<string, Policy>
    /** The objects it answers from. */
    ghost const owned: set<object>

    constructor (tenants: map<string, Policy>, ghost owned: set<object>)
      ensures this.tenants == tenants && this.owned == owned
    {
      this.tenants, this.owned := tenants, owned;
    }

    /** The catalog this evaluator answers from. */
    ghost predicate Holds(c: Catalog)
      reads owned
    {
      Held(tenants, c, owned)
    }

    method Evaluate(tenant: string, route: string, o: Observation, ghost c: Catalog) returns (d: Decision)
      requires Holds(c)
      ensures d == Decide(c, tenant, route, o)
    {
      if tenant !in tenants { return Rejected("tenant-not-admitted"); }
      assert Says(tenants[tenant], c[tenant], owned);
      var policy := tenants[tenant];
      var usable := CheckObservation(o);
      if !usable { return Rejected("invalid-runtime-observation"); }
      if route !in policy.table.routes { return Rejected("route-not-admitted"); }
      var limits := Tenant(policy.id, policy.maxInFlight, policy.maxQueueDepth, map[]);
      if o.inFlight >= policy.maxInFlight { return CapacityDecision(limits, o, "tenant-concurrency-limit"); }
      var targets := policy.table.routes[route];
      var i := 0;
      while i < targets.Length
        invariant 0 <= i <= targets.Length
        invariant forall k :: 0 <= k < i ==> !Eligible(targets[..][k], o)
      {
        if Eligible(targets[i], o) {
          FoundFirst(targets[..], o, i);
          return Decision(Admit, targets[i].model, "target-eligible", 0);
        }
        i := i + 1;
      }
      FoundFirst(targets[..], o, i);
      d := CapacityDecision(limits, o, "no-eligible-target");
    }
  }

  lemma FoundFirst(targets: seq<Target>, o: Observation, i: nat)
    requires i <= |targets| && (i < |targets| ==> Eligible(targets[i], o))
    requires forall k :: 0 <= k < i ==> !Eligible(targets[k], o)
    ensures FirstEligible(targets, o) == i
  {
  }

  // ---- Building it -----------------------------------------------------------------------------------------------

  /** Each policy is valid and its tenant not among the ones before. */
  ghost predicate Acceptable(values: seq<Tenant>) {
    values == [] ||
    var last := |values| - 1;
    Acceptable(values[..last]) && ValidTenant(values[last]) && values[last].id !in CatalogOf(values[..last])
  }

  ghost function CatalogOf(values: seq<Tenant>): Catalog {
    if values == [] then map[]
    else
      var last := |values| - 1;
      CatalogOf(values[..last])[values[last].id := values[last]]
  }

  lemma {:induction false} CatalogIds(values: seq<Tenant>, id: string)
    ensures id in CatalogOf(values) <==> exists i :: 0 <= i < |values| && values[i].id == id
    decreases |values|
  {
    if values != [] {
      var init := values[..|values| - 1];
      CatalogIds(init, id);
      assert forall i :: 0 <= i < |init| ==> values[i] == init[i];
    }
  }

  /**
   * Accepted exactly when every policy is valid and no two name the same tenant; then each is found under its tenant.
   */
  lemma {:induction false} AcceptableExactly(values: seq<Tenant>)
    ensures Acceptable(values) <==>
              && (forall i :: 0 <= i < |values| ==> ValidTenant(values[i]))
              && (forall i, j :: 0 <= i < j < |values| ==> values[i].id != values[j].id)
    ensures Acceptable(values) ==> ValidCatalog(CatalogOf(values))
    ensures Acceptable(values) ==> forall i :: 0 <= i < |values| ==>
        values[i].id in CatalogOf(values)
        && CatalogOf(values)[values[i].id] == values[i]
    decreases |values|
  {
    hide ValidTenant;
    if values != [] {
      var init := values[..|values| - 1];
      AcceptableExactly(init);
      CatalogIds(init, values[|values| - 1].id);
      assert forall i :: 0 <= i < |init| ==> values[i] == init[i];
    }
  }

  lemma AcceptableNext(values: seq<Tenant>, i: nat)
    requires i < |values|
    ensures CatalogOf(values[..i + 1]) == CatalogOf(values[..i])[values[i].id := values[i]]
    ensures Acceptable(values[..i + 1]) <==>
        Acceptable(values[..i]) && ValidTenant(values[i])
        && values[i].id !in CatalogOf(values[..i])
  {
    hide ValidTenant;
    assert values[..i + 1][..i] == values[..i] && values[..i + 1][i] == values[i];
  }

  lemma {:induction false} AcceptablePrefix(values: seq<Tenant>, i: nat)
    requires i <= |values| && Acceptable(values)
    ensures Acceptable(values[..i])
    decreases |values|
  {
    if i < |values| {
      AcceptablePrefix(values[..|values| - 1], i);
      assert values[..|values| - 1][..i] == values[..i];
    } else {
      assert values[..i] == values;
    }
  }

  lemma NothingYet(values: seq<Tenant>)
    ensures Acceptable(values[..0]) && CatalogOf(values[..0]) == map[]
  {
  }

  /** Succeeds exactly on acceptable policies, and then holds copies in objects that nobody else can reach. */
  method NewEvaluator(policies: seq<Policy>, ghost values: seq<Tenant>, ghost theirs: set<object>)
      returns (e: Evaluator?)
    requires |values| == |policies| && forall k :: 0 <= k < |policies| ==> Says(policies[k], values[k], theirs)
    ensures e != null <==> Acceptable(values)
    ensures e != null ==> fresh(e) && fresh(e.owned) && e.Holds(CatalogOf(values))
  {
    hide ValidTenant, Acceptable, CatalogOf;
    var tenants: map<string, Policy>, i := map[], 0;
    ghost var owned: set<object> := {};
    NothingYet(values);
    while i < |policies|
      invariant 0 <= i <= |policies| && Acceptable(values[..i]) && fresh(owned)
      invariant Held(tenants, CatalogOf(values[..i]), owned)
    {
      var p := policies[i];
      AcceptableNext(values, i);
      assert Says(p, values[i], theirs);
      var valid := ValidatePolicy(p, values[i], theirs);
      if !valid || p.id in tenants {
        if Acceptable(values) { AcceptablePrefix(values, i + 1); }
        return null;
      }
      var copy, mine := ClonePolicy(p, values[i], theirs);
      HeldOneMore(tenants, CatalogOf(values[..i]), owned, copy, values[i], mine);
      tenants, owned := tenants[p.id := copy], owned + mine;
      i := i + 1;
    }
    assert values[..i] == values;
    e := new Evaluator(tenants, owned);
  }

  ghost predicate Held(tenants: map<string, Policy>, c: Catalog, owned: set<object>)
    reads owned
  {
    tenants.Keys == c.Keys && forall id :: id in tenants ==> Says(tenants[id], c[id], owned)
  }

  lemma HeldOneMore(tenants: map<string, Policy>, c: Catalog, owned: set<object>, copy: Policy, t: Tenant,
      mine: set<object>)
    requires Held(tenants, c, owned) && Says(copy, t, mine)
    ensures Held(tenants[t.id := copy], c[t.id := t], owned + mine)
  {
  }

  datatype Intent = Intent(tenant: string, route: string, observed: Observation)

  /**
   * A caller that builds an evaluator and keeps rewriting its own policies between the requests: every answer is the
   * one the policies gave when the evaluator was built.
   */
  method AnswerAmidMutation(policies: seq<Policy>, values: seq<Tenant>, theirs: set<object>, intents: seq<Intent>)
    returns (built: bool, answers: seq<Decision>)
    requires |values| == |policies| && forall k :: 0 <= k < |policies| ==> Says(policies[k], values[k], theirs)
    modifies theirs
    ensures built <==> Acceptable(values)
    ensures built ==> |answers| == |intents|
    ensures built ==> forall k :: 0 <= k < |intents| ==>
              answers[k] == Decide(CatalogOf(values), intents[k].tenant, intents[k].route, intents[k].observed)
  {
    hide Acceptable, CatalogOf, Decide, Says;
    answers := [];
    var e := NewEvaluator(policies, values, theirs);
    built := e != null;
    if !built { return; }
    while |answers| < |intents|
      invariant |answers| <= |intents| && e.Holds(CatalogOf(values))
      invariant forall k :: 0 <= k < |answers| ==>
                  answers[k] == Decide(CatalogOf(values), intents[k].tenant, intents[k].route, intents[k].observed)
    {
      modify theirs;
      var next := intents[|answers|];
      var d := e.Evaluate(next.tenant, next.route, next.observed, CatalogOf(values));
      answers := answers + [d];
    }
  }
}
