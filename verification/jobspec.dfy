/**
 The two vocabularies the converter and the generator translate between: the decoded job spec
 (internal/jobspec/parse.go) and the reconciler's desired-state record (internal/reconciler/types.go).
 An absent optional string or list decodes to its zero value, as gohcl decodes it.
 */
module JobSpec {
  import opened Wrappers

  // ---- shared by both vocabularies --------------------------------------

  datatype Storage = Storage(
    name: string, kind: string, bucket: string, endpoint: string, authRef: string, mode: string,
    server: string, exportPath: string, share: string, options: string, path: string, create: bool)

  datatype IPRestriction = IPRestriction(allow: seq<string>, deny: seq<string>)

  datatype RateLimit = RateLimit(requests: int, window: string, per: string, burst: int)

  datatype Headers = Headers(
    requestSet: map<string, string>, requestRemove: seq<string>,
    responseSet: map<string, string>, responseRemove: seq<string>)

  /** The three middleware blocks an expose and a publish block share. */
  datatype Middleware = Middleware(
    ip: Option<IPRestriction>, rate: Option<RateLimit>, headers: Option<Headers>)

  datatype JwtAuth = JwtAuth(
    algorithm: string, secretRef: string, publicKeyRef: string, issuer: string, audience: string)

  datatype Auth = Auth(basicRef: string, bearerRef: string, jwt: Option<JwtAuth>)

  datatype Device = Device(name: string, grant: string)

  datatype Socket = Socket(name: string, grant: string, mountPath: string, readOnly: bool)

  datatype Build = Build(
    context: string, dockerfile: string, target: string, tag: string, cacheRepo: string,
    registryAuthRef: string)

  // ---- the spec ----------------------------------------------------------

  datatype ResourcesBlock = ResourcesBlock(cpu: Option<int>, memory: Option<int>, pids: Option<int>)

  datatype UserBlock = UserBlock(uid: Option<int>, gid: Option<int>, groups: seq<int>)

  datatype TaskBlock = TaskBlock(
    image: string, command: seq<string>, args: seq<string>, capabilities: seq<string>,
    env: map<string, string>, resources: Option<ResourcesBlock>, user: Option<UserBlock>,
    registryAuthRef: string, pullPolicy: string, readOnlyRootfs: bool,
    devices: seq<Device>, sockets: seq<Socket>)

  datatype InitBlock = InitBlock(
    name: string, image: string, command: seq<string>, args: seq<string>, capabilities: seq<string>,
    env: map<string, string>, resources: Option<ResourcesBlock>, user: Option<UserBlock>,
    registryAuthRef: string, pullPolicy: string, timeout: string)

  /** A file's content: plain bytes, or bytes whose placeholders index into `refs`. */
  datatype Content = Plain(bytes: string) | Interpolated(bytes: string, refs: seq<string>, nonce: string)

  datatype FileBlock = FileBlock(name: string, path: string, mode: string, content: Content)

  datatype PortBlock = PortBlock(name: string, container: int, protocol: string)

  datatype PublishBlock = PublishBlock(
    port: string, host: int, mode: string, maxConns: int, middleware: Middleware)

  datatype NetworkBlock = NetworkBlock(
    ports: seq<PortBlock>, publish: seq<PublishBlock>, allowFrom: seq<string>)

  datatype TlsBlock = TlsBlock(mode: string, name: string, letsEncrypt: Option<bool>)

  datatype ExposeBlock = ExposeBlock(
    domains: seq<string>, port: string, tls: Option<TlsBlock>, middleware: Middleware,
    auth: Option<Auth>, protocol: string)

  datatype HealthCheckBlock = HealthCheckBlock(
    kind: string, path: string, port: string, command: seq<string>, interval: string,
    timeout: string, failures: int)

  datatype VolumeBlock = VolumeBlock(
    name: string, storage: string, mountPath: string, readOnly: bool,
    uid: Option<int>, gid: Option<int>, mode: Option<string>, size: Option<string>)

  datatype MetricBlock = MetricBlock(name: string, target: int)

  datatype ScalingBlock = ScalingBlock(min: int, max: int, metrics: seq<MetricBlock>, cooldown: string)

  datatype UpdateBlock = UpdateBlock(
    strategy: string, maxParallel: int, minHealthy: string, auto: Option<bool>,
    interval: string, deadline: string)

  datatype RestartBlock = RestartBlock(attempts: int, backoff: string)

  /** `references` are the services its expressions name (${service.x.host}); literals name none. */
  datatype ServiceBlock = ServiceBlock(
    name: string, project: string, count: Option<int>, hardening: string, dependsOn: seq<string>,
    references: seq<string>, build: Option<Build>, inits: seq<InitBlock>, tasks: seq<TaskBlock>,
    files: seq<FileBlock>, network: Option<NetworkBlock>, exposes: seq<ExposeBlock>,
    healthChecks: seq<HealthCheckBlock>, volumes: seq<VolumeBlock>, scaling: Option<ScalingBlock>,
    update: Option<UpdateBlock>, restart: Option<RestartBlock>)

  datatype Spec = Spec(projects: seq<string>, storages: seq<Storage>, services: seq<ServiceBlock>)

  // ---- the record --------------------------------------------------------

  datatype Resources = Resources(cpuMillis: int, memoryBytes: int, pidsLimit: int)

  datatype User = User(uid: int, gid: int, additionalGids: seq<int>)

  datatype InitContainer = InitContainer(
    name: string, image: string, command: seq<string>, args: seq<string>, capabilities: seq<string>,
    env: map<string, string>, user: Option<User>, resources: Resources, registryAuthRef: string,
    pullPolicy: string, timeout: int)

  datatype FileMount = FileMount(
    name: string, path: string, mode: string, content: string, secretRefs: seq<string>, nonce: string)

  datatype Port = Port(name: string, container: int, protocol: string)

  datatype PublishedPort = PublishedPort(
    port: string, host: int, mode: string, maxConns: int, middleware: Middleware)

  datatype Peer = Peer(project: string, service: string)

  datatype Expose = Expose(
    domains: seq<string>, port: int, tlsMode: string, tlsName: string, middleware: Middleware,
    auth: Option<Auth>, protocol: string)

  datatype HealthCheck = HealthCheck(
    kind: string, path: string, port: int, command: seq<string>, interval: int, timeout: int,
    failures: int)

  datatype Volume = Volume(
    name: string, storage: string, resource: Storage, mountPath: string, readOnly: bool,
    uid: Option<int>, gid: Option<int>, mode: Option<nat>, sizeBytes: int)

  datatype Metric = Metric(name: string, target: real)

  datatype ScalingPolicy = ScalingPolicy(min: int, max: int, metrics: seq<Metric>, cooldown: string)

  datatype UpdatePolicy = UpdatePolicy(
    strategy: string, auto: bool, interval: int, deadline: int, maxParallel: int, minHealthy: int)

  datatype RestartPolicy = RestartPolicy(attempts: int, backoff: seq<int>)

  /** What the apply path owns and a spec never carries. */
  datatype ServerOwned = ServerOwned(
    pinnedImage: string, rollbackImage: string, imageCheckedAt: int, imageUpdatedAt: int,
    generation: int)

  const UNOWNED := ServerOwned("", "", 0, 0, 0)

  datatype Desired = Desired(
    project: string, service: string, count: int, image: string, registryAuthRef: string,
    pullPolicy: string, init: seq<InitContainer>, command: seq<string>, args: seq<string>,
    capabilities: seq<string>, hardening: string, env: map<string, string>, files: seq<FileMount>,
    user: Option<User>, resources: Resources, volumes: seq<Volume>, devices: seq<Device>,
    sockets: seq<Socket>, ports: seq<Port>, allowFrom: seq<Peer>, expose: Option<Expose>,
    extraExposes: seq<Expose>, publish: seq<PublishedPort>, dependsOn: seq<string>,
    check: Option<HealthCheck>, scaling: Option<ScalingPolicy>, readOnlyRootfs: bool,
    restart: RestartPolicy, update: UpdatePolicy, server: ServerOwned)
  {
    /** Every route, the first block first; without a first there are none. */
    function AllExposes(): seq<Expose> {
      if expose.None? then [] else [expose.value] + extraExposes
    }

    /** The record as a spec can state it. */
    function Declared(): Desired {
      this.(server := UNOWNED)
    }
  }

  /** A project's pipeline, as far as the generator reads it. */
  datatype Pipeline = Pipeline(project: string, notifications: bool, builds: map<string, Build>)

  /**
   Go's time.Duration text, in nanoseconds: `spell` is String and `read` is time.ParseDuration.
   The standard library is not part of this model; Faithful is what is assumed of it.
   */
  datatype DurationCodec = DurationCodec(spell: int -> string, read: string -> Option<int>)
}
