/**
 From a decoded job spec to desired state: internal/jobspec's lowering (parse.go, user.go,
 expose.go, capabilities.go, diagnostics.go) followed by toDesired (cmd/kanea/convert.go).
 */
module Convert {
  import opened Wrappers
  import opened Text
  import opened Numerals
  import opened JobSpec

  const NOMINAL_CORE_MHZ: nat := 1000
  const DEFAULT_PIDS_LIMIT: int := 256
  const DEFAULT_COUNT: int := 1
  const UINT32: nat := 0x1_0000_0000
  const DEFAULT_VOLUME_MODE: nat := 448  // 0o700
  const MAX_NAME_LENGTH: nat := 63

  datatype ConvertError =
    | TaskCount
    | InitDeclaresPids
    | NoImage
    | UndeclaredStorage(storage: string)
    | InvalidSize
    | InvalidMode
    | InvalidDuration
    | InvalidBackoff

  /** Durations spell to clean, comma-free text that reads back; empty text is no duration. */
  ghost predicate Faithful(codec: DurationCodec) {
    && codec.read("").None?
    && forall d :: codec.read(codec.spell(d)) == Some(d) && codec.spell(d) != ""
                   && ',' !in codec.spell(d) && Trimmed(codec.spell(d))
  }

  // ---- capabilities, hardening, dependencies -----------------------------

  function CanonicalCapability(c: string): string {
    var name := Upper(Trim(c));
    if name == "NONE" then "none" else name
  }

  function DropEmpty(s: seq<string>): seq<string> {
    if s == [] then []
    else if s[0] == "" then DropEmpty(s[1..])
    else [s[0]] + DropEmpty(s[1..])
  }

  /** jobspec.NormalizeCapabilities: canonical names, no duplicate, in string order. */
  function NormalizeCapabilities(list: seq<string>): seq<string> {
    SortUnique(DropEmpty(Map(CanonicalCapability, list)))
  }

  function CanonicalHardening(s: string): string {
    var folded := Lower(Trim(s));
    if folded == "compatible" then "" else if folded == "restricted" then "restricted" else s
  }

  // ---- resources and identity --------------------------------------------

  function OrZero(x: Option<int>): int {
    if x.Some? then x.value else 0
  }

  function DeclaredPids(r: Option<ResourcesBlock>): int {
    if r.Some? then OrZero(r.value.pids) else 0
  }

  /** CPU is scaled to millicores and memory to bytes, in int64 arithmetic. */
  function ConvertResources(r: Option<ResourcesBlock>, pids: int): Resources {
    var cpu := if r.Some? then OrZero(r.value.cpu) else 0;
    var memory := if r.Some? then OrZero(r.value.memory) else 0;
    Resources(TruncDiv(WrapInt64(cpu * 1000), NOMINAL_CORE_MHZ), WrapInt64(memory * MIB), pids)
  }

  function TaskPids(r: Option<ResourcesBlock>): int {
    if DeclaredPids(r) == 0 then DEFAULT_PIDS_LIMIT else DeclaredPids(r)
  }

  function ToUint32(x: int): int {
    x % UINT32
  }

  function ConvertUser(u: Option<UserBlock>): Option<User> {
    if u.None? then None
    else Some(User(ToUint32(OrZero(u.value.uid)), ToUint32(OrZero(u.value.gid)),
                   Map(ToUint32, u.value.groups)))
  }

  function ConvertID(id: Option<int>): Option<int> {
    if id.None? then None else Some(ToUint32(id.value))
  }

  // ---- durations ---------------------------------------------------------

  /** jobspec.ParseDuration: no negatives. */
  function ParseDuration(codec: DurationCodec, s: string): Option<int> {
    match codec.read(s)
    case None => None
    case Some(d) => if d < 0 then None else Some(d)
  }

  /** An optional duration field: empty stays zero, anything else must parse. */
  function OptionalDuration(codec: DurationCodec, s: string): Result<int, ConvertError> {
    if s == "" then Ok(0)
    else match ParseDuration(codec, s)
      case None => Err(InvalidDuration)
      case Some(d) => Ok(d)
  }

  function ParseBackoffParts(codec: DurationCodec, parts: seq<string>): Result<seq<int>, ConvertError> {
    if parts == [] then Ok([])
    else
      match ParseDuration(codec, Trim(parts[0]))
      case None => Err(InvalidBackoff)
      case Some(d) =>
        if Trim(parts[0]) == "" || d == 0 then Err(InvalidBackoff)
        else
          var rest :- ParseBackoffParts(codec, parts[1..]);
          Ok([d] + rest)
  }

  /** jobspec.ParseBackoff: a comma-separated schedule of positive durations. */
  function ParseBackoff(codec: DurationCodec, s: string): Result<seq<int>, ConvertError> {
    if s == "" then Ok([]) else ParseBackoffParts(codec, Split(s, ','))
  }

  // ---- ports and routes --------------------------------------------------

  function ConvertPort(p: PortBlock): Port {
    Port(p.name, p.container, if Lower(Trim(p.protocol)) == "udp" then "udp" else "")
  }

  /** The ports an edge route may use: udp has no frontend. */
  function Streams(ports: seq<Port>): seq<Port> {
    if ports == [] then []
    else if ports[0].protocol == "udp" then Streams(ports[1..])
    else [ports[0]] + Streams(ports[1..])
  }

  function Named(ports: seq<Port>, name: string): Option<Port> {
    if ports == [] then None
    else if ports[0].name == name then Some(ports[0])
    else Named(ports[1..], name)
  }

  /** EdgePortFor: an explicit name beats every convention; then "grpc", "http", the sole stream port. */
  function EdgePortFor(ports: seq<Port>, name: string, protocol: string): Option<Port> {
    var candidates := Streams(ports);
    if name != "" then Named(candidates, name)
    else if protocol == "grpc" && Named(candidates, "grpc").Some? then Named(candidates, "grpc")
    else if Named(candidates, "http").Some? then Named(candidates, "http")
    else if |candidates| == 1 then Some(candidates[0])
    else None
  }

  function ConvertTlsMode(tls: Option<TlsBlock>): string {
    if tls.None? then ""
    else if tls.value.mode == "" && tls.value.letsEncrypt == Some(true) then "acme"
    else tls.value.mode
  }

  /** One route, or None when nothing resolves its port. */
  function ConvertExpose(ports: seq<Port>, e: ExposeBlock): Option<Expose> {
    var protocol := if e.protocol == "http" then "" else e.protocol;
    match EdgePortFor(ports, e.port, protocol)
    case None => None
    case Some(p) =>
      Some(Expose(e.domains, p.container, ConvertTlsMode(e.tls),
                  if e.tls.None? then "" else e.tls.value.name, e.middleware, e.auth, protocol))
  }

  /** The routes that resolve, in declaration order. */
  function ConvertExposes(ports: seq<Port>, blocks: seq<ExposeBlock>): seq<Expose> {
    if blocks == [] then []
    else
      match ConvertExpose(ports, blocks[0])
      case None => ConvertExposes(ports, blocks[1..])
      case Some(e) => [e] + ConvertExposes(ports, blocks[1..])
  }

  function FirstRoute(routes: seq<Expose>): Option<Expose> {
    if routes == [] then None else Some(routes[0])
  }

  function OtherRoutes(routes: seq<Expose>): seq<Expose> {
    if routes == [] then [] else routes[1..]
  }

  /** toDesired's expose loop: the first route that resolves lands on Expose, the rest on ExtraExposes. */
  method SplitExposes(ports: seq<Port>, blocks: seq<ExposeBlock>)
    returns (first: Option<Expose>, extra: seq<Expose>)
    ensures first == FirstRoute(ConvertExposes(ports, blocks))
    ensures extra == OtherRoutes(ConvertExposes(ports, blocks))
  {
    first, extra := None, [];
    ghost var routes: seq<Expose> := [];
    var i := 0;
    while i < |blocks|
      invariant 0 <= i <= |blocks|
      invariant routes + ConvertExposes(ports, blocks[i..]) == ConvertExposes(ports, blocks)
      invariant first == FirstRoute(routes) && extra == OtherRoutes(routes)
    {
      assert blocks[i..][0] == blocks[i] && blocks[i..][1..] == blocks[i + 1..];
      match ConvertExpose(ports, blocks[i]) {
        case None =>
        case Some(e) =>
          routes := routes + [e];
          if first.None? {
            first := Some(e);
          } else {
            extra := extra + [e];
          }
      }
      i := i + 1;
    }
    assert routes + [] == routes;
  }

  function ConvertPublish(p: PublishBlock): PublishedPort {
    PublishedPort(p.port, p.host, if p.mode == "" then "http" else p.mode, p.maxConns, p.middleware)
  }

  predicate LabelChar(c: char) {
    'a' <= c <= 'z' || '0' <= c <= '9'
  }

  /** A DNS-1123 label of at most 63 characters. */
  predicate IsLabel(s: string) {
    && 0 < |s| <= MAX_NAME_LENGTH
    && LabelChar(s[0]) && LabelChar(s[|s| - 1])
    && forall i :: 0 <= i < |s| ==> LabelChar(s[i]) || s[i] == '-'
  }

  /** jobspec.ParsePeerRef: "<project>/<service>", both halves labels. */
  function ParsePeerRef(s: string): Option<Peer> {
    match Cut(s, '/')
    case None => None
    case Some((project, service)) =>
      if '/' !in service && IsLabel(project) && IsLabel(service) then Some(Peer(project, service)) else None
  }

  function ParsePeers(entries: seq<string>): seq<Peer> {
    if entries == [] then []
    else
      match ParsePeerRef(entries[0])
      case None => ParsePeers(entries[1..])
      case Some(p) => [p] + ParsePeers(entries[1..])
  }

  // ---- health checks, scaling, files, init steps -------------------------

  function ReadOrZero(codec: DurationCodec, s: string): int {
    match codec.read(s) case None => 0 case Some(d) => d
  }

  function CheckPort(ports: seq<Port>, name: string): int {
    if name == "" then 0
    else match Named(ports, name) case None => 0 case Some(p) => p.container
  }

  /** Only the first declared check is used. */
  function ConvertCheck(codec: DurationCodec, ports: seq<Port>, checks: seq<HealthCheckBlock>): Option<HealthCheck> {
    if checks == [] then None
    else
      var hc := checks[0];
      Some(HealthCheck(hc.kind, hc.path, CheckPort(ports, hc.port), hc.command,
                       ReadOrZero(codec, hc.interval), ReadOrZero(codec, hc.timeout), hc.failures))
  }

  function ConvertMetric(m: MetricBlock): Metric {
    Metric(m.name, m.target as real)
  }

  function ConvertScaling(s: Option<ScalingBlock>): Option<ScalingPolicy> {
    if s.None? then None
    else Some(ScalingPolicy(s.value.min, s.value.max, Map(ConvertMetric, s.value.metrics), s.value.cooldown))
  }

  function ConvertFile(f: FileBlock): FileMount {
    match f.content
    case Plain(bytes) => FileMount(f.name, f.path, f.mode, bytes, [], "")
    case Interpolated(bytes, refs, nonce) =>
      FileMount(f.name, f.path, f.mode, bytes, refs, if refs == [] then "" else nonce)
  }

  function ConvertInit(codec: DurationCodec, i: InitBlock): InitContainer {
    InitContainer(i.name, i.image, i.command, i.args, NormalizeCapabilities(i.capabilities), i.env,
                  ConvertUser(i.user), ConvertResources(i.resources, 0), i.registryAuthRef,
                  i.pullPolicy,
                  match ParseDuration(codec, i.timeout) case None => 0 case Some(d) => d)
  }

  // ---- volumes -----------------------------------------------------------

  function StorageByName(storages: seq<Storage>, name: string): Option<Storage> {
    if storages == [] then None
    else if storages[0].name == name then Some(storages[0])
    else StorageByName(storages[1..], name)
  }

  /** The drivers that cannot carry ownership. */
  predicate RefusesOwnership(kind: string) {
    kind == "host" || kind == "nfs"
  }

  /** resolveVolumeOwnership: undeclared ids inherit task.user; an owned volume gets a mode. */
  function ResolveOwnership(kind: string, user: Option<UserBlock>, v: VolumeBlock): VolumeBlock {
    if RefusesOwnership(kind) then v
    else
      var uid := if v.uid.None? && user.Some? then Some(OrZero(user.value.uid)) else v.uid;
      var gid := if v.gid.None? && user.Some? then Some(OrZero(user.value.gid)) else v.gid;
      var mode := if v.mode.None? && (uid.Some? || gid.Some?) then Some(FormatMode(DEFAULT_VOLUME_MODE))
                  else v.mode;
      v.(uid := uid, gid := gid, mode := mode)
  }

  function ConvertMode(mode: Option<string>): Result<Option<nat>, ConvertError> {
    if mode.None? then Ok(None)
    else match ParseMode(mode.value) case None => Err(InvalidMode) case Some(m) => Ok(Some(m))
  }

  function ConvertSize(size: Option<string>): Result<int, ConvertError> {
    if size.None? then Ok(0)
    else match ParseByteSize(size.value) case None => Err(InvalidSize) case Some(n) => Ok(n)
  }

  function ConvertVolume(storages: seq<Storage>, user: Option<UserBlock>, v: VolumeBlock): Result<Volume, ConvertError> {
    match StorageByName(storages, v.storage)
    case None => Err(UndeclaredStorage(v.storage))
    case Some(st) =>
      var owned := ResolveOwnership(st.kind, user, v);
      var size :- ConvertSize(v.size);
      var mode :- ConvertMode(owned.mode);
      Ok(Volume(v.name, v.storage, st, v.mountPath, v.readOnly,
                ConvertID(owned.uid), ConvertID(owned.gid), mode, size))
  }

  function ConvertVolumes(storages: seq<Storage>, user: Option<UserBlock>, vs: seq<VolumeBlock>): Result<seq<Volume>, ConvertError> {
    if vs == [] then Ok([])
    else
      var head :- ConvertVolume(storages, user, vs[0]);
      var tail :- ConvertVolumes(storages, user, vs[1..]);
      Ok([head] + tail)
  }

  // ---- update and restart ------------------------------------------------

  const NO_UPDATE := UpdateBlock("", 0, "", None, "", "")

  /** `pull_policy = "always"` lowers to auto-update unless `auto` was written out. */
  function LowerUpdate(u: Option<UpdateBlock>, pullPolicy: string): UpdateBlock {
    var declared := if u.None? then NO_UPDATE else u.value;
    if pullPolicy == "always" && declared.auto.None? then declared.(auto := Some(true)) else declared
  }

  function ConvertUpdate(codec: DurationCodec, u: Option<UpdateBlock>, pullPolicy: string): Result<UpdatePolicy, ConvertError> {
    var low := LowerUpdate(u, pullPolicy);
    var minHealthy :- OptionalDuration(codec, low.minHealthy);
    var interval :- OptionalDuration(codec, low.interval);
    var deadline :- OptionalDuration(codec, low.deadline);
    Ok(UpdatePolicy(low.strategy, low.auto == Some(true), interval, deadline, low.maxParallel, minHealthy))
  }

  function ConvertRestart(codec: DurationCodec, r: Option<RestartBlock>): Result<RestartPolicy, ConvertError> {
    if r.None? then Ok(RestartPolicy(0, []))
    else
      var backoff :- ParseBackoff(codec, r.value.backoff);
      Ok(RestartPolicy(r.value.attempts, backoff))
  }

  // ---- the service -------------------------------------------------------

  function PortsOf(n: Option<NetworkBlock>): seq<Port> {
    if n.None? then [] else Map(ConvertPort, n.value.ports)
  }

  function PublishOf(n: Option<NetworkBlock>): seq<PublishedPort> {
    if n.None? then [] else Map(ConvertPublish, n.value.publish)
  }

  function PeersOf(n: Option<NetworkBlock>): seq<Peer> {
    if n.None? then [] else ParsePeers(n.value.allowFrom)
  }

  predicate DeclaresPids(i: InitBlock) {
    i.resources.Some? && i.resources.value.pids.Some?
  }

  function ConvertService(codec: DurationCodec, storages: seq<Storage>, b: ServiceBlock): Result<Desired, ConvertError> {
    if |b.tasks| != 1 then Err(TaskCount)
    else if exists i :: 0 <= i < |b.inits| && DeclaresPids(b.inits[i]) then Err(InitDeclaresPids)
    else if b.tasks[0].image == "" && b.build.None? then Err(NoImage)
    else
      var t := b.tasks[0];
      var volumes :- ConvertVolumes(storages, t.user, b.volumes);
      var restart :- ConvertRestart(codec, b.restart);
      var update :- ConvertUpdate(codec, b.update, t.pullPolicy);
      var ports := PortsOf(b.network);
      var routes := ConvertExposes(ports, b.exposes);
      Ok(Desired(
           b.project, b.name, if b.count.None? then DEFAULT_COUNT else b.count.value, t.image,
           t.registryAuthRef, t.pullPolicy, Map(i => ConvertInit(codec, i), b.inits), t.command, t.args,
           NormalizeCapabilities(t.capabilities), CanonicalHardening(b.hardening), t.env,
           Map(ConvertFile, b.files), ConvertUser(t.user),
           ConvertResources(t.resources, TaskPids(t.resources)), volumes, t.devices, t.sockets, ports,
           PeersOf(b.network), FirstRoute(routes), OtherRoutes(routes), PublishOf(b.network),
           SortUnique(b.dependsOn + b.references), ConvertCheck(codec, ports, b.healthChecks),
           ConvertScaling(b.scaling), t.readOnlyRootfs, restart, update, UNOWNED))
  }

  function ConvertServices(codec: DurationCodec, storages: seq<Storage>, bs: seq<ServiceBlock>): Result<seq<Desired>, ConvertError> {
    if bs == [] then Ok([])
    else
      var head :- ConvertService(codec, storages, bs[0]);
      var tail :- ConvertServices(codec, storages, bs[1..]);
      Ok([head] + tail)
  }

  /** toDesired over a parsed spec. */
  function ToDesired(codec: DurationCodec, spec: Spec): Result<seq<Desired>, ConvertError> {
    ConvertServices(codec, spec.storages, spec.services)
  }
}
