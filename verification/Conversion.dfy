/** The v1alpha2 to v1 conversion and back: a retraction onto normal forms. */
module Conversion {
  import opened ApiObjects

  // ---- Slices and maps --------------------------------------------------------------------------------------

  function Items<T>(l: Nilable<seq<T>>): seq<T> {
    if l.Ptr? then l.value else []
  }

  /** A nil slice, or one with elements. */
  predicate Trimmed<T>(l: Nilable<seq<T>>) {
    l.Nil? || |l.value| > 0
  }

  /** Appending to a nil slice keeps the elements and turns an empty slice into a nil one. */
  function CopyStrings(l: Nilable<seq<string>>): (r: Nilable<seq<string>>)
    ensures Items(r) == Items(l) && Trimmed(r) && (r == l <==> Trimmed(l))
  {
    if l.Nil? then Nil else if |l.value| == 0 then Nil else l
  }

  method CopyEnv(l: Nilable<seq<EnvVar>>) returns (r: Nilable<seq<EnvVar>>)
    ensures r == l
  {
    if l.Nil? { return Nil; }
    var items, i := [], 0;
    while i < |l.value|
      invariant 0 <= i <= |l.value| && items == l.value[..i]
    {
      items, i := items + [l.value[i]], i + 1;
    }
    assert l.value[..i] == l.value;
    r := Ptr(items);
  }

  method CopyStringMap(m: Nilable<map<string, string>>) returns (r: Nilable<map<string, string>>)
    ensures r == m
  {
    if m.Nil? { return Nil; }
    var copy: map<string, string>, left := map[], m.value.Keys;
    while left != {}
      invariant left <= m.value.Keys && copy.Keys == m.value.Keys - left
      invariant forall k :: k in copy ==> copy[k] == m.value[k]
      decreases |left|
    {
      var k :| k in left;
      copy, left := copy[k := m.value[k]], left - {k};
    }
    assert copy == m.value;
    r := Ptr(copy);
  }

  method ConvertBaseRefs(l: Nilable<seq<BaseRef>>) returns (r: Nilable<seq<BaseRef>>)
    ensures r == l
  {
    if l.Nil? { return Nil; }
    var items, i := [], 0;
    while i < |l.value|
      invariant 0 <= i <= |l.value| && items == l.value[..i]
    {
      items, i := items + [BaseRef(l.value[i].name)], i + 1;
    }
    assert l.value[..i] == l.value;
    r := Ptr(items);
  }

  // ---- Components that survive unchanged ----------------------------------------------------------------------

  method ConvertExternalSecret(src: Nilable<ExternalSecret>) returns (dst: Nilable<ExternalSecret>)
    ensures dst == src
  {
    if src.Nil? { return Nil; }
    var s := src.value;
    var e := ExternalSecret(StoreRef(s.store.name, s.store.kind), s.refreshInterval, Nil);
    if s.data.Ptr? {
      var items, i := [], 0;
      while i < |s.data.value|
        invariant 0 <= i <= |s.data.value| && items == s.data.value[..i]
      {
        var item := s.data.value[i];
        items, i := items + [SecretData(item.secretKey, RemoteRef(item.remoteRef.key, item.remoteRef.property))], i + 1;
      }
      assert s.data.value[..i] == s.data.value;
      e := e.(data := Ptr(items));
    }
    dst := Ptr(e);
  }

  method ConvertModel(src: Model) returns (dst: Model)
    ensures dst == src
  {
    dst := Model(src.uri, src.revision, src.name, Nil, src.hardwareAware);
    if src.storage.Ptr? {
      var s := src.storage.value;
      var storage := Storage(Nil, s.serviceAccount, s.containerRef, s.vaultRef, s.vaultAddr, Nil);
      if s.secretRef.Ptr? { storage := storage.(secretRef := Ptr(s.secretRef.value)); }
      if s.externalSecret.Ptr? {
        var e := ConvertExternalSecret(s.externalSecret);
        storage := storage.(externalSecret := e);
      }
      dst := dst.(storage := Ptr(storage));
    }
  }

  method ConvertScaling(src: Nilable<Scaling>) returns (dst: Nilable<Scaling>)
    ensures dst == src
  {
    if src.Nil? { return Nil; }
    var s := src.value;
    var d := Scaling(s.minReplicas, s.maxReplicas, Nil, Nil, Nil);
    if s.wva.Ptr? { d := d.(wva := Ptr(Wva(s.wva.value.variantCost))); }
    if s.keda.Ptr? {
      var k := s.keda.value;
      var keda := Keda(k.pollingInterval, k.cooldown, k.initialCooldown, k.idleReplicas, Nil);
      if k.fallback.Ptr? {
        keda := keda.(fallback := Ptr(Fallback(k.fallback.value.failureThreshold, k.fallback.value.replicas)));
      }
      d := d.(keda := Ptr(keda));
    }
    if s.hpa.Ptr? { d := d.(hpa := Ptr(Hpa(s.hpa.value.targetCpu))); }
    dst := Ptr(d);
  }

  method ConvertKvCache(src: Nilable<KvCache>) returns (dst: Nilable<KvCache>)
    ensures dst == src
  {
    if src.Nil? { return Nil; }
    var d := KvCache(src.value.dtype, src.value.swapSpaceGb, Nil);
    if src.value.transfer.Ptr? {
      var t := src.value.transfer.value;
      var extra := CopyStringMap(t.extraConfig);
      var env := CopyEnv(t.env);
      var transfer := KvTransfer(t.connector, t.role, extra, env, Nil);
      if t.lmCache.Ptr? {
        var c := t.lmCache.value;
        var cache := LmCache(c.mode, c.chunkSize, c.localCpu, c.localCpuGiB, Nil);
        if c.engineRef.Ptr? { cache := cache.(engineRef := Ptr(c.engineRef.value)); }
        transfer := transfer.(lmCache := Ptr(cache));
      }
      d := d.(transfer := Ptr(transfer));
    }
    dst := Ptr(d);
  }

  function ConvertResilience(src: Nilable<Resilience>): (dst: Nilable<Resilience>)
    ensures dst == src
  {
    if src.Nil? then Nil else Ptr(Resilience(src.value.timeout, src.value.maxRetries, src.value.retryOn))
  }

  function ConvertSlo(src: Nilable<Slo>): (dst: Nilable<Slo>)
    ensures dst == src
  {
    if src.Nil? then Nil else Ptr(Slo(src.value.p99LatencyMs, src.value.availability, src.value.errorBudgetDays))
  }

  function ConvertCanary(src: Nilable<Canary>): (dst: Nilable<Canary>)
    ensures dst == src
  {
    if src.Nil? then Nil else Ptr(Canary(src.value.weight, src.value.baseModel))
  }

  function ConvertSpeculation(src: Nilable<Speculation>): (dst: Nilable<Speculation>)
    ensures dst == src
  {
    if src.Nil? then Nil else Ptr(Speculation(src.value.draftMethod, src.value.numTokens, src.value.draftModel))
  }

  function ConvertQuantization(src: Nilable<Quantization>): (dst: Nilable<Quantization>)
    ensures dst == src
  {
    if src.Nil? then Nil else Ptr(Quantization(src.value.quantMethod, src.value.checkpointPath))
  }

  function ConvertObservability(src: Nilable<Observability>): (dst: Nilable<Observability>)
    ensures dst == src
  {
    if src.Nil? then Nil
    else Ptr(Observability(if src.value.sink.Nil? then Nil
        else Ptr(Sink(src.value.sink.value.kind, src.value.sink.value.endpoint))))
  }

  function ConvertMetrics(src: Nilable<Metrics>): (dst: Nilable<Metrics>)
    ensures dst == src
  {
    if src.Nil? then Nil
    else Ptr(Metrics(src.value.p50, src.value.p95, src.value.p99, src.value.queueDepth, src.value.loadLevel))
  }

  function ConvertStatus(src: Status): (dst: Status)
    ensures dst == src
  {
    Status(Planes(src.planes.lifecycle, src.planes.trust, src.planes.binding, src.planes.composition, src.planes.risk),
           src.conditions, src.url, src.replicas, src.modelReady, src.modelRevision, src.observedGeneration,
           src.optimized, src.hardware, ConvertMetrics(src.metrics))
  }

  // ---- Components that are normalised --------------------------------------------------------------------------

  predicate NormalConfig(c: Nilable<SchedulerConfig>) {
    c.Nil? || (c.value.inlined.Nil? && c.value.reference.Ptr?)
  }

  predicate NormalScheduler(s: Nilable<Scheduler>) {
    s.Nil? || NormalConfig(s.value.config)
  }

  function ReferenceOf(c: Nilable<SchedulerConfig>): Nilable<ConfigRef> {
    if c.Nil? then Nil else c.value.reference
  }

  /** Keeps the reference of a configuration and nothing else of it. */
  function ConvertScheduler(src: Nilable<Scheduler>): (dst: Nilable<Scheduler>)
    ensures dst.Ptr? <==> src.Ptr?
    ensures src.Ptr? ==>
        dst.value == src.value.(config := dst.value.config)
        && ReferenceOf(dst.value.config) == ReferenceOf(src.value.config)
    ensures NormalScheduler(dst) && (dst == src <==> NormalScheduler(src))
  {
    if src.Nil? then Nil else
    var s := src.value;
    Ptr(Scheduler(Pool(s.pool.selector),
                  if s.config.Ptr? && s.config.value.reference.Ptr? then
                    var r := s.config.value.reference.value; Ptr(SchedulerConfig(Nil, Ptr(ConfigRef(r.name, r.key))))
                  else Nil,
                  s.replicas))
  }

  predicate NormalHttp(h: Nilable<HttpRoute>) {
    h.Nil? || Trimmed(h.value.hostnames)
  }

  function ConvertHttp(src: Nilable<HttpRoute>): (dst: Nilable<HttpRoute>)
    ensures dst.Ptr? <==> src.Ptr?
    ensures src.Ptr? ==>
        dst.value.resilience == src.value.resilience
        && Items(dst.value.hostnames) == Items(src.value.hostnames)
    ensures NormalHttp(dst) && (dst == src <==> NormalHttp(src))
  {
    if src.Nil? then Nil else Ptr(HttpRoute(CopyStrings(src.value.hostnames), ConvertResilience(src.value.resilience)))
  }

  predicate NormalRouter(r: Router) {
    NormalScheduler(r.scheduler) && NormalHttp(r.route.http)
  }

  /** The router as both directions rebuild it, piece by piece. */
  method ConvertRouter(src: Router) returns (dst: Router)
    ensures dst == RouterOf(src)
  {
    dst := Router(Gateway(Nil, Nil), Route(Nil), Nil);
    if src.scheduler.Ptr? { dst := dst.(scheduler := ConvertScheduler(src.scheduler)); }
    if src.gateway.managed.Ptr? {
      dst := dst.(gateway := dst.gateway.(managed := Ptr(Managed(src.gateway.managed.value.className))));
    }
    if src.gateway.existingRef.Ptr? {
      var g := src.gateway.existingRef.value;
      dst := dst.(gateway := dst.gateway.(existingRef := Ptr(GatewayRef(g.name, g.namespace))));
    }
    if src.route.http.Ptr? { dst := dst.(route := Route(ConvertHttp(src.route.http))); }
  }

  /** The gateway survives; the scheduler and the route are normalised. */
  function RouterOf(src: Router): (dst: Router)
    ensures NormalRouter(dst) && (dst == src <==> NormalRouter(src))
  {
    src.(scheduler := ConvertScheduler(src.scheduler), route := Route(ConvertHttp(src.route.http)))
  }

  predicate NormalParallelism(p: Nilable<Parallelism>) {
    p.Nil? || Trimmed(p.value.gpuDevices)
  }

  function ConvertParallelism(src: Nilable<Parallelism>): (dst: Nilable<Parallelism>)
    ensures dst.Ptr? <==> src.Ptr?
    ensures src.Ptr? ==>
        dst.value == src.value.(gpuDevices := dst.value.gpuDevices)
        && Items(dst.value.gpuDevices) == Items(src.value.gpuDevices)
    ensures NormalParallelism(dst) && (dst == src <==> NormalParallelism(src))
  {
    if src.Nil? then Nil else
    var p := src.value;
    Ptr(Parallelism(p.tensor, p.data, p.dataLocal, CopyStrings(p.gpuDevices), p.expert, p.pipeline, p.eplbEnabled))
  }

  predicate NormalTools(t: Nilable<ToolSurface>) {
    t.Nil? || (Trimmed(t.value.apis) && Trimmed(t.value.cidrs))
  }

  function ConvertTools(src: Nilable<ToolSurface>): (dst: Nilable<ToolSurface>)
    ensures dst.Ptr? <==> src.Ptr?
    ensures src.Ptr? ==>
        Items(dst.value.apis) == Items(src.value.apis)
        && Items(dst.value.cidrs) == Items(src.value.cidrs)
    ensures NormalTools(dst) && (dst == src <==> NormalTools(src))
  {
    if src.Nil? then Nil else Ptr(ToolSurface(CopyStrings(src.value.apis), CopyStrings(src.value.cidrs)))
  }

  // ---- What the two directions compute ------------------------------------------------------------------------

  predicate NormalCommon(c: Common) {
    NormalParallelism(c.parallelism) && NormalRouter(c.router)
  }

  function CommonOf(c: Common): (d: Common)
    ensures NormalCommon(d) && (d == c <==> NormalCommon(c))
  {
    c.(parallelism := ConvertParallelism(c.parallelism), router := RouterOf(c.router))
  }

  function ExperimentalOf(e: Experimental): (d: Experimental)
    ensures NormalTools(d.toolSurface) && (d == e <==> NormalTools(e.toolSurface))
    ensures d == NO_EXPERIMENTAL <==> e == NO_EXPERIMENTAL
  {
    e.(toolSurface := ConvertTools(e.toolSurface))
  }

  /** Folding leaves the destination's block alone when the spoke has none of the eight fields. */
  function Folded(e: Experimental, stale: Nilable<Experimental>): Nilable<Experimental> {
    if e == NO_EXPERIMENTAL then stale else Ptr(ExperimentalOf(e))
  }

  /** Unfolding overwrites three of the fields only with something, and nothing at all from a nil block. */
  function Unfolded(b: Nilable<Experimental>, stale: Experimental): Experimental {
    if b.Nil? then stale else
    ExperimentalOf(b.value).(prefill := Over(b.value.prefill, stale.prefill),
        worker := Over(b.value.worker, stale.worker),
                             kvCache := Over(b.value.kvCache, stale.kvCache))
  }

  function Over<T>(new_: Nilable<T>, stale: Nilable<T>): Nilable<T> {
    if new_.Ptr? then new_ else stale
  }

  function ToHub(s: SpokeValue, stale: Nilable<Experimental>): HubValue {
    HubValue(s.meta, CommonOf(s.common), Folded(s.experimental, stale), s.status)
  }

  function FromHub(h: HubValue, stale: Experimental): SpokeValue {
    SpokeValue(h.meta, CommonOf(h.common), Unfolded(h.experimental, stale), h.status)
  }

  // ---- The conversions -----------------------------------------------------------------------------------------

  method ConvertCommon(src: Common) returns (dst: Common)
    ensures dst == CommonOf(src)
  {
    var model := ConvertModel(src.model);
    var scaling := ConvertScaling(src.scaling);
    var router := ConvertRouter(src.router);
    var baseRefs := ConvertBaseRefs(src.baseRefs);
    dst := Common(model, src.replicas, ConvertParallelism(src.parallelism), scaling, src.template, router, baseRefs,
                  src.autoOptimize, src.allowedTenants, src.costTags, ConvertSlo(src.slo), ConvertCanary(src.canary));
  }

  method ConvertTo(src: Spoke, dst: Hub)
    modifies dst
    ensures dst.Value() == ToHub(src.Value(), old(dst.experimental)) && dst.typeMeta == old(dst.typeMeta)
  {
    dst.meta := src.meta;
    dst.common := ConvertCommon(src.common);
    ConvertExperimentalTo(src, dst);
    dst.status := ConvertStatus(src.status);
  }

  method ConvertExperimentalTo(src: Spoke, dst: Hub)
    modifies dst`experimental
    ensures dst.experimental == Folded(src.experimental, old(dst.experimental))
  {
    var x := src.experimental;
    if x.prefill.Nil? && x.worker.Nil? && x.kvCache.Nil? && x.speculation.Nil? && x.quantization.Nil? && x.engine == ""
       && x.toolSurface.Nil? && x.observability.Nil? {
      return;
    }
    var b := NO_EXPERIMENTAL;
    if x.prefill.Ptr? { b := b.(prefill := Ptr(Prefill(x.prefill.value.replicas, x.prefill.value.template))); }
    if x.worker.Ptr? { b := b.(worker := Ptr(Worker(x.worker.value.template))); }
    if x.kvCache.Ptr? {
      var k := ConvertKvCache(x.kvCache);
      b := b.(kvCache := k);
    }
    b := b.(speculation := ConvertSpeculation(x.speculation), quantization := ConvertQuantization(x.quantization),
        engine := x.engine,
            toolSurface := ConvertTools(x.toolSurface), observability := ConvertObservability(x.observability));
    dst.experimental := Ptr(b);
  }

  method ConvertFrom(src: Hub, dst: Spoke)
    modifies dst
    ensures dst.Value() == FromHub(src.Value(), old(dst.experimental)) && dst.typeMeta == old(dst.typeMeta)
  {
    dst.meta := src.meta;
    dst.common := ConvertCommon(src.common);
    ConvertExperimentalFrom(src, dst);
    dst.status := ConvertStatus(src.status);
  }

  method ConvertExperimentalFrom(src: Hub, dst: Spoke)
    modifies dst`experimental
    ensures dst.experimental == Unfolded(src.experimental, old(dst.experimental))
  {
    if src.experimental.Nil? { return; }
    var b := src.experimental.value;
    if b.prefill.Ptr? {
      var prefill := Prefill(b.prefill.value.replicas, b.prefill.value.template);
      dst.experimental := dst.experimental.(prefill := Ptr(prefill));
    }
    if b.worker.Ptr? { dst.experimental := dst.experimental.(worker := Ptr(Worker(b.worker.value.template))); }
    if b.kvCache.Ptr? {
      var k := ConvertKvCache(b.kvCache);
      dst.experimental := dst.experimental.(kvCache := k);
    }
    dst.experimental := dst.experimental.(
      speculation := ConvertSpeculation(b.speculation), quantization := ConvertQuantization(b.quantization),
      engine := b.engine,
      toolSurface := ConvertTools(b.toolSurface), observability := ConvertObservability(b.observability));
  }

  // ---- Round trips -------------------------------------------------------------------------------------------------

  function ToFresh(s: SpokeValue): HubValue {
    ToHub(s, Nil)
  }

  function FromFresh(h: HubValue): SpokeValue {
    FromHub(h, NO_EXPERIMENTAL)
  }

  predicate NormalSpoke(s: SpokeValue) {
    NormalCommon(s.common) && NormalTools(s.experimental.toolSurface)
  }

  predicate NormalHub(h: HubValue) {
    && NormalCommon(h.common)
    && (h.experimental.Ptr? ==>
          h.experimental.value != NO_EXPERIMENTAL && NormalTools(h.experimental.value.toolSurface))
  }

  lemma UnfoldFresh(b: Nilable<Experimental>)
    ensures Unfolded(b, NO_EXPERIMENTAL) == if b.Nil? then NO_EXPERIMENTAL else ExperimentalOf(b.value)
  {
  }

  /** Spoke to hub and back is the identity exactly on normal forms. */
  lemma SpokeRoundTripExactly(s: SpokeValue)
    ensures FromFresh(ToFresh(s)) == s <==> NormalSpoke(s)
  {
    hide CommonOf, ExperimentalOf, NormalCommon, NormalTools, Unfolded;
    UnfoldFresh(Folded(s.experimental, Nil));
    assert CommonOf(CommonOf(s.common)) == CommonOf(s.common);
    assert ExperimentalOf(ExperimentalOf(s.experimental)) == ExperimentalOf(s.experimental);
  }

  /** Hub to spoke and back is the identity exactly on normal forms without an all-empty experimental block. */
  lemma HubRoundTripExactly(h: HubValue)
    ensures ToFresh(FromFresh(h)) == h <==> NormalHub(h)
  {
    hide CommonOf, ExperimentalOf, NormalCommon, NormalTools, Unfolded;
    UnfoldFresh(h.experimental);
    assert CommonOf(CommonOf(h.common)) == CommonOf(h.common);
    if h.experimental.Ptr? {
      var e := h.experimental.value;
      assert ExperimentalOf(ExperimentalOf(e)) == ExperimentalOf(e);
    }
  }

  /** The first conversion loses everything that is ever lost, in both directions. */
  lemma Retraction(s: SpokeValue, h: HubValue)
    ensures NormalHub(ToFresh(s)) && NormalSpoke(FromFresh(h))
    ensures ToFresh(FromFresh(ToFresh(s))) == ToFresh(s)
    ensures FromFresh(ToFresh(FromFresh(h))) == FromFresh(h)
  {
    hide CommonOf, NormalCommon, NormalTools, Unfolded;
    UnfoldFresh(h.experimental);
    ConvertedHubNormal(s);
    HubRoundTripExactly(ToFresh(s));
    ConvertedSpokeNormal(h);
    SpokeRoundTripExactly(FromFresh(h));
  }

  lemma ConvertedHubNormal(s: SpokeValue)
    ensures NormalHub(ToFresh(s))
  {
    hide CommonOf, ExperimentalOf, NormalCommon, NormalTools;
  }

  lemma ConvertedSpokeNormal(h: HubValue)
    ensures NormalSpoke(FromFresh(h))
  {
    hide CommonOf, ExperimentalOf, NormalCommon, Unfolded;
    UnfoldFresh(h.experimental);
  }

  // ---- What is lost ------------------------------------------------------------------------------------------------

  predicate SameTools(a: Nilable<ToolSurface>, b: Nilable<ToolSurface>) {
    a.Ptr? == b.Ptr? && (a.Ptr? ==>
        Items(a.value.apis) == Items(b.value.apis)
        && Items(a.value.cidrs) == Items(b.value.cidrs))
  }

  predicate SameParallelism(a: Nilable<Parallelism>, b: Nilable<Parallelism>) {
    a.Ptr? == b.Ptr? && (a.Ptr? ==>
        a.value == b.value.(gpuDevices := a.value.gpuDevices)
        && Items(a.value.gpuDevices) == Items(b.value.gpuDevices))
  }

  predicate SameScheduler(a: Nilable<Scheduler>, b: Nilable<Scheduler>) {
    a.Ptr? == b.Ptr? && (a.Ptr? ==>
        a.value == b.value.(config := a.value.config)
        && ReferenceOf(a.value.config) == ReferenceOf(b.value.config))
  }

  predicate SameHttp(a: Nilable<HttpRoute>, b: Nilable<HttpRoute>) {
    a.Ptr? == b.Ptr? && (a.Ptr? ==>
        a.value.resilience == b.value.resilience
        && Items(a.value.hostnames) == Items(b.value.hostnames))
  }

  /**
   * Equal but for nil against empty in the four lists, and for what a scheduler configuration holds beside its
   * reference.
   */
  predicate SameCommon(a: Common, b: Common) {
    && a == b.(parallelism := a.parallelism, router := a.router) && a.router.gateway == b.router.gateway
    && SameParallelism(a.parallelism, b.parallelism) && SameScheduler(a.router.scheduler, b.router.scheduler)
    && SameHttp(a.router.route.http, b.router.route.http)
  }

  predicate SameSpoke(a: SpokeValue, b: SpokeValue) {
    && a.meta == b.meta && a.status == b.status && SameCommon(a.common, b.common)
    && a.experimental == b.experimental.(toolSurface := a.experimental.toolSurface)
    && SameTools(a.experimental.toolSurface, b.experimental.toolSurface)
  }

  lemma ComponentsMerge(a: Common, b: Common)
    ensures CommonOf(a) == CommonOf(b) <==> SameCommon(a, b)
  {
    assert ConvertParallelism(a.parallelism) == ConvertParallelism(b.parallelism) <==>
        SameParallelism(a.parallelism, b.parallelism);
    assert ConvertScheduler(a.router.scheduler) == ConvertScheduler(b.router.scheduler) <==>
        SameScheduler(a.router.scheduler, b.router.scheduler);
    assert ConvertHttp(a.router.route.http) == ConvertHttp(b.router.route.http) <==>
        SameHttp(a.router.route.http, b.router.route.http);
  }

  lemma ExperimentalMerges(a: Experimental, b: Experimental)
    ensures Folded(a, Nil) == Folded(b, Nil) <==>
              a == b.(toolSurface := a.toolSurface) && SameTools(a.toolSurface, b.toolSurface)
  {
    assert ConvertTools(a.toolSurface) == ConvertTools(b.toolSurface) <==> SameTools(a.toolSurface, b.toolSurface);
  }

  /** Two spoke objects reach the same hub object exactly when they differ only in what is lost. */
  lemma LostExactly(a: SpokeValue, b: SpokeValue)
    ensures ToFresh(a) == ToFresh(b) <==> SameSpoke(a, b)
  {
    hide CommonOf, SameCommon, Folded, SameTools;
    ComponentsMerge(a.common, b.common);
    ExperimentalMerges(a.experimental, b.experimental);
  }

  // ---- Reused destinations -----------------------------------------------------------------------------------------

  /** A reused hub object shows through exactly when the spoke has no experimental field and the hub had a block. */
  lemma StaleHubShowsExactly(s: SpokeValue, stale: Nilable<Experimental>)
    ensures ToHub(s, stale) == ToFresh(s) <==> s.experimental != NO_EXPERIMENTAL || stale.Nil?
  {
  }

  predicate Overwritten<T>(new_: Nilable<T>, stale: Nilable<T>) {
    new_.Ptr? || stale.Nil?
  }

  /** A reused spoke object is clean exactly when its three conditional fields are overwritten or were nil. */
  lemma StaleSpokeShowsExactly(h: HubValue, stale: Experimental)
    ensures FromHub(h, stale) == FromFresh(h) <==>
              if h.experimental.Nil? then stale == NO_EXPERIMENTAL
              else var b := h.experimental.value;
                   Overwritten(b.prefill, stale.prefill) && Overwritten(b.worker, stale.worker)
                       && Overwritten(b.kvCache, stale.kvCache)
  {
  }
}
