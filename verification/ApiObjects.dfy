/** The LLMInferenceService as both API versions declare it; shared components have the same fields in both. */
module ApiObjects {

  /** A pointer, slice or map that may be nil. */
  datatype Nilable<T> = Nil | Ptr(value: T)

  // Kubernetes values that the conversion only carries along.
  type ObjectMeta = string
  type TypeMeta = string
  type PodTemplate = string
  type ObjectRef = string
  type EnvVar = string
  type Condition = string
  type PickerConfig = string

  datatype RemoteRef = RemoteRef(key: string, property: string)
  datatype SecretData = SecretData(secretKey: string, remoteRef: RemoteRef)
  datatype StoreRef = StoreRef(name: string, kind: string)
  datatype ExternalSecret = ExternalSecret(store: StoreRef, refreshInterval: string, data: Nilable<seq<SecretData>>)
  datatype Storage = Storage(
    secretRef: Nilable<ObjectRef>, serviceAccount: string, containerRef: string, vaultRef: string, vaultAddr: string,
    externalSecret: Nilable<ExternalSecret>)
  datatype Model = Model(uri: string, revision: string, name: string, storage: Nilable<Storage>, hardwareAware: bool)

  datatype Parallelism = Parallelism(
    tensor: Nilable<int>, data: Nilable<int>, dataLocal: Nilable<int>, gpuDevices: Nilable<seq<string>>, expert: bool,
    pipeline: Nilable<int>, eplbEnabled: bool)

  datatype Fallback = Fallback(failureThreshold: int, replicas: int)
  datatype Keda = Keda(
    pollingInterval: Nilable<int>, cooldown: Nilable<int>, initialCooldown: Nilable<int>, idleReplicas: Nilable<int>,
    fallback: Nilable<Fallback>)
  datatype Wva = Wva(variantCost: string)
  datatype Hpa = Hpa(targetCpu: Nilable<int>)
  datatype Scaling = Scaling(minReplicas: Nilable<int>, maxReplicas: Nilable<int>, wva: Nilable<Wva>,
      keda: Nilable<Keda>, hpa: Nilable<Hpa>)

  datatype GatewayRef = GatewayRef(name: string, namespace: string)
  datatype Managed = Managed(className: string)
  datatype Gateway = Gateway(managed: Nilable<Managed>, existingRef: Nilable<GatewayRef>)
  datatype Resilience = Resilience(timeout: string, maxRetries: int, retryOn: string)
  datatype HttpRoute = HttpRoute(hostnames: Nilable<seq<string>>, resilience: Nilable<Resilience>)
  datatype Route = Route(http: Nilable<HttpRoute>)
  datatype ConfigRef = ConfigRef(name: string, key: string)
  datatype SchedulerConfig = SchedulerConfig(inlined: Nilable<PickerConfig>, reference: Nilable<ConfigRef>)
  datatype Pool = Pool(selector: Nilable<map<string, string>>)
  datatype Scheduler = Scheduler(pool: Pool, config: Nilable<SchedulerConfig>, replicas: Nilable<int>)
  datatype Router = Router(gateway: Gateway, route: Route, scheduler: Nilable<Scheduler>)

  datatype BaseRef = BaseRef(name: string)
  datatype Slo = Slo(p99LatencyMs: int, availability: real, errorBudgetDays: int)
  datatype Canary = Canary(weight: int, baseModel: string)

  datatype LmCache = LmCache(mode: string, chunkSize: Nilable<int>, localCpu: Nilable<bool>, localCpuGiB: Nilable<int>,
      engineRef: Nilable<ObjectRef>)
  datatype KvTransfer = KvTransfer(
    connector: string, role: string, extraConfig: Nilable<map<string, string>>, env: Nilable<seq<EnvVar>>,
    lmCache: Nilable<LmCache>)
  datatype KvCache = KvCache(dtype: string, swapSpaceGb: Nilable<int>, transfer: Nilable<KvTransfer>)
  datatype Prefill = Prefill(replicas: Nilable<int>, template: PodTemplate)
  datatype Worker = Worker(template: PodTemplate)
  datatype Speculation = Speculation(draftMethod: string, numTokens: Nilable<int>, draftModel: string)
  datatype Quantization = Quantization(quantMethod: string, checkpointPath: string)
  datatype ToolSurface = ToolSurface(apis: Nilable<seq<string>>, cidrs: Nilable<seq<string>>)
  datatype Sink = Sink(kind: string, endpoint: string)
  datatype Observability = Observability(sink: Nilable<Sink>)

  /** The eight fields that are inline in the spoke's spec and one optional block in the hub's. */
  datatype Experimental = Experimental(
    prefill: Nilable<Prefill>, worker: Nilable<Worker>, kvCache: Nilable<KvCache>, speculation: Nilable<Speculation>,
    quantization: Nilable<Quantization>, engine: string, toolSurface: Nilable<ToolSurface>,
    observability: Nilable<Observability>)

  const NO_EXPERIMENTAL := Experimental(Nil, Nil, Nil, Nil, Nil, "", Nil, Nil)

  datatype Planes = Planes(lifecycle: string, trust: string, binding: string, composition: string, risk: string)
  datatype Metrics = Metrics(p50: string, p95: string, p99: string, queueDepth: int, loadLevel: string)
  datatype Status = Status(
    planes: Planes, conditions: Nilable<seq<Condition>>, url: string, replicas: int, modelReady: bool,
    modelRevision: string,
    observedGeneration: int, optimized: bool, hardware: string, metrics: Nilable<Metrics>)

  /** The spec fields that both versions hold in the same place. */
  datatype Common = Common(
    model: Model, replicas: Nilable<int>, parallelism: Nilable<Parallelism>, scaling: Nilable<Scaling>,
    template: PodTemplate,
    router: Router, baseRefs: Nilable<seq<BaseRef>>, autoOptimize: Nilable<bool>, allowedTenants: Nilable<seq<string>>,
    costTags: Nilable<map<string, string>>, slo: Nilable<Slo>, canary: Nilable<Canary>)

  /** What a conversion is to carry; the type metadata is the caller's. */
  datatype SpokeValue = SpokeValue(meta: ObjectMeta, common: Common, experimental: Experimental, status: Status)
  datatype HubValue = HubValue(meta: ObjectMeta, common: Common, experimental: Nilable<Experimental>, status: Status)

  class Spoke {
    var typeMeta: TypeMeta
    var meta: ObjectMeta
    var common: Common
    var experimental: Experimental
    var status: Status

    function Value(): SpokeValue
      reads this
    {
      SpokeValue(meta, common, experimental, status)
    }
  }

  class Hub {
    var typeMeta: TypeMeta
    var meta: ObjectMeta
    var common: Common
    var experimental: Nilable<Experimental>
    var status: Status

    function Value(): HubValue
      reads this
    {
      HubValue(meta, common, experimental, status)
    }
  }
}
