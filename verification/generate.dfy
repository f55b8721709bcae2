/** From desired state back to a job spec: toHCL and its write functions (cmd/kanea/generate.go). */
module Generate {
  import opened Wrappers
  import opened Text
  import opened Numerals
  import opened JobSpec
  import opened Convert

  /** What the generator refuses by name rather than emit as something else. */
  datatype Refusal =
    | StorageDrift(storage: string)
    | Notifications(project: string)
    | FileSecret(file: string)
    | UnmatchedExpose(port: int)
    | UnmatchedCheck(port: int)
    | FractionalTarget(metric: string)

  // ---- resources, identity, durations ------------------------------------

  function Positive(n: int): Option<int> {
    if n > 0 then Some(n) else None
  }

  /** writeResourceValues: only the declared limits, the pids cap only when it is not the default. */
  function WriteResources(r: Resources, includePids: bool): Option<ResourcesBlock> {
    var cpu := TruncDiv(WrapInt64(r.cpuMillis * NOMINAL_CORE_MHZ), 1000);
    var memory := r.memoryBytes / MIB;
    var pids := if includePids && r.pidsLimit != 0 && r.pidsLimit != DEFAULT_PIDS_LIMIT then r.pidsLimit else 0;
    if cpu <= 0 && memory <= 0 && pids <= 0 then None
    else Some(ResourcesBlock(Positive(cpu), Positive(memory), Positive(pids)))
  }

  function WriteUser(u: Option<User>): Option<UserBlock> {
    if u.None? then None
    else Some(UserBlock(Some(u.value.uid), Some(u.value.gid), u.value.additionalGids))
  }

  function WriteNonzeroDuration(codec: DurationCodec, d: int): string {
    if d != 0 then codec.spell(d) else ""
  }

  function WritePositiveDuration(codec: DurationCodec, d: int): string {
    if d > 0 then codec.spell(d) else ""
  }

  // ---- init steps, files, volumes ----------------------------------------

  function WriteInit(codec: DurationCodec, s: InitContainer): InitBlock {
    InitBlock(s.name, s.image, s.command, s.args, s.capabilities, s.env,
              WriteResources(s.resources, false), WriteUser(s.user), s.registryAuthRef, s.pullPolicy,
              WritePositiveDuration(codec, s.timeout))
  }

  function WriteFile(f: FileMount): FileBlock {
    FileBlock(f.name, f.path, f.mode, Plain(f.content))
  }

  function WriteVolume(v: Volume): VolumeBlock {
    VolumeBlock(v.name, v.storage, v.mountPath, v.readOnly, v.uid, v.gid,
                if v.mode.None? then None else Some(FormatMode(v.mode.value)),
                if v.sizeBytes > 0 then Some(FormatByteSize(v.sizeBytes)) else None)
  }

  // ---- network and routes ------------------------------------------------

  function WriteRate(r: Option<RateLimit>): Option<RateLimit> {
    if r.Some? && r.value.burst < 0 then Some(r.value.(burst := 0)) else r
  }

  function WriteMiddleware(m: Middleware): Middleware {
    m.(rate := WriteRate(m.rate))
  }

  function WritePort(p: Port): PortBlock {
    PortBlock(p.name, p.container, p.protocol)
  }

  function WritePublish(p: PublishedPort): PublishBlock {
    PublishBlock(p.port, p.host, p.mode, if p.maxConns > 0 then p.maxConns else 0, WriteMiddleware(p.middleware))
  }

  function WritePeer(p: Peer): string {
    p.project + "/" + p.service
  }

  function WriteNetwork(d: Desired): Option<NetworkBlock> {
    if d.ports == [] && d.publish == [] && d.allowFrom == [] then None
    else Some(NetworkBlock(Map(WritePort, d.ports), Map(WritePublish, d.publish), Map(WritePeer, d.allowFrom)))
  }

  /** The first declared port with this container number. */
  function Numbered(ports: seq<Port>, number: int): Option<Port> {
    if ports == [] then None
    else if ports[0].container == number then Some(ports[0])
    else Numbered(ports[1..], number)
  }

  function NumberedName(ports: seq<Port>, number: int): string {
    match Numbered(ports, number) case None => "" case Some(p) => p.name
  }

  /** The name the conventions would pick, or "" when they pick nothing. */
  function ConventionName(ports: seq<Port>, protocol: string): string {
    match EdgePortFor(ports, "", protocol) case None => "" case Some(p) => p.name
  }

  /** The `port` attribute of an expose block: omitted exactly when the conventions re-select it. */
  function ExposedPort(ports: seq<Port>, number: int, protocol: string): Result<string, Refusal> {
    var matched := NumberedName(ports, number);
    if matched == "" then Err(UnmatchedExpose(number))
    else if ConventionName(ports, protocol) == matched then Ok("")
    else Ok(matched)
  }

  /** The names of the stream ports. */
  function StreamNames(ports: seq<Port>): seq<string> {
    Map((p: Port) => p.name, Streams(ports))
  }

  lemma {:induction false} NamedIffListed(ports: seq<Port>, name: string)
    ensures Named(ports, name).Some? <==> name in Map((p: Port) => p.name, ports)
    ensures Named(ports, name).Some? ==> Named(ports, name).value.name == name && Named(ports, name).value in ports
  {
    if ports != [] {
      NamedIffListed(ports[1..], name);
      var names := Map((p: Port) => p.name, ports);
      assert names == [ports[0].name] + Map((p: Port) => p.name, ports[1..]);
    }
  }

  lemma {:induction false} StreamsAppend(a: seq<Port>, p: Port)
    ensures Streams(a + [p]) == Streams(a) + (if p.protocol == "udp" then [] else [p])
  {
    if a == [] {
      assert a + [p] == [p];
    } else {
      assert (a + [p])[1..] == a[1..] + [p];
      StreamsAppend(a[1..], p);
    }
  }

  /** writeExpose's first loop: the name of the first port with this number, else "". */
  method MatchNumber(ports: seq<Port>, number: int) returns (matched: string)
    ensures matched == NumberedName(ports, number)
  {
    matched := "";
    var i := 0;
    while i < |ports|
      invariant 0 <= i <= |ports| && matched == ""
      invariant NumberedName(ports[i..], number) == NumberedName(ports, number)
    {
      assert ports[i..][1..] == ports[i + 1..];
      if ports[i].container == number {
        return ports[i].name;
      }
      i := i + 1;
    }
  }

  /** writeExpose's second loop: the stream ports' names, in declaration order. */
  method CollectStreamNames(ports: seq<Port>) returns (names: seq<string>)
    ensures names == StreamNames(ports)
  {
    names := [];
    var i := 0;
    while i < |ports|
      invariant 0 <= i <= |ports|
      invariant names == StreamNames(ports[..i])
    {
      assert ports[..i + 1] == ports[..i] + [ports[i]];
      StreamsAppend(ports[..i], ports[i]);
      if ports[i].protocol != "udp" {
        names := names + [ports[i].name];
      }
      i := i + 1;
    }
    assert ports[..|ports|] == ports;
  }

  /** writeExpose's port choice: the conventions mirrored over the record's port names. */
  method ChooseExposedPort(ports: seq<Port>, number: int, protocol: string) returns (r: Result<string, Refusal>)
    ensures r == ExposedPort(ports, number, protocol)
  {
    var matched := MatchNumber(ports, number);
    if matched == "" {
      return Err(UnmatchedExpose(number));
    }
    var names := CollectStreamNames(ports);
    NamedIffListed(Streams(ports), "grpc");
    NamedIffListed(Streams(ports), "http");
    var convention := "";
    if protocol == "grpc" && "grpc" in names {
      convention := "grpc";
    }
    if convention == "" && "http" in names {
      convention := "http";
    }
    if convention == "" && |names| == 1 {
      convention := names[0];
    }
    r := Ok(if convention == matched then "" else matched);
  }

  function WriteTls(e: Expose): Option<TlsBlock> {
    if e.tlsMode != "" || e.tlsName != "" then Some(TlsBlock(e.tlsMode, e.tlsName, None)) else None
  }

  function WriteExpose(ports: seq<Port>, e: Expose): Result<ExposeBlock, Refusal> {
    var port :- ExposedPort(ports, e.port, e.protocol);
    Ok(ExposeBlock(e.domains, port, WriteTls(e), WriteMiddleware(e.middleware), e.auth, e.protocol))
  }

  function WriteExposes(ports: seq<Port>, es: seq<Expose>): Result<seq<ExposeBlock>, Refusal> {
    if es == [] then Ok([])
    else
      var head :- WriteExpose(ports, es[0]);
      var tail :- WriteExposes(ports, es[1..]);
      Ok([head] + tail)
  }

  // ---- checks, scaling, update, restart ----------------------------------

  function WriteCheck(codec: DurationCodec, ports: seq<Port>, check: Option<HealthCheck>): Result<seq<HealthCheckBlock>, Refusal> {
    if check.None? then Ok([])
    else
      var c := check.value;
      var name := if c.port == 0 then "" else NumberedName(ports, c.port);
      if c.port != 0 && name == "" then Err(UnmatchedCheck(c.port))
      else Ok([HealthCheckBlock(c.kind, c.path, name, c.command, WritePositiveDuration(codec, c.interval),
                                WritePositiveDuration(codec, c.timeout), c.failures)])
  }

  function WriteMetrics(ms: seq<Metric>): Result<seq<MetricBlock>, Refusal> {
    if ms == [] then Ok([])
    else if ms[0].target.Floor as real != ms[0].target then Err(FractionalTarget(ms[0].name))
    else
      var tail :- WriteMetrics(ms[1..]);
      Ok([MetricBlock(ms[0].name, ms[0].target.Floor)] + tail)
  }

  function WriteScaling(s: Option<ScalingPolicy>): Result<Option<ScalingBlock>, Refusal> {
    if s.None? then Ok(None)
    else
      var metrics :- WriteMetrics(s.value.metrics);
      Ok(Some(ScalingBlock(s.value.min, s.value.max, metrics, s.value.cooldown)))
  }

  function WriteUpdate(codec: DurationCodec, u: UpdatePolicy): Option<UpdateBlock> {
    if u.strategy == "" && u.maxParallel == 0 && u.minHealthy == 0 && !u.auto && u.interval == 0 && u.deadline == 0
    then None
    else Some(UpdateBlock(u.strategy, u.maxParallel, WriteNonzeroDuration(codec, u.minHealthy),
                          if u.auto then Some(true) else None,
                          WriteNonzeroDuration(codec, u.interval), WriteNonzeroDuration(codec, u.deadline)))
  }

  function WriteRestart(codec: DurationCodec, r: RestartPolicy): Option<RestartBlock> {
    if r.attempts == 0 && r.backoff == [] then None
    else Some(RestartBlock(r.attempts, Join(Map(codec.spell, r.backoff), ',')))
  }

  // ---- the service -------------------------------------------------------

  function WriteTask(d: Desired): TaskBlock {
    TaskBlock(d.image, d.command, d.args, d.capabilities, d.env, WriteResources(d.resources, true),
              WriteUser(d.user), d.registryAuthRef, d.pullPolicy, d.readOnlyRootfs, d.devices, d.sockets)
  }

  /** The first file that interpolates a secret, if any. */
  function SecretFile(files: seq<FileMount>): Option<string> {
    if files == [] then None
    else if files[0].secretRefs != [] then Some(files[0].name)
    else SecretFile(files[1..])
  }

  function WriteService(codec: DurationCodec, d: Desired, build: Option<Build>): Result<ServiceBlock, Refusal> {
    if SecretFile(d.files).Some? then Err(FileSecret(SecretFile(d.files).value))
    else
      var exposes :- WriteExposes(d.ports, d.AllExposes());
      var checks :- WriteCheck(codec, d.ports, d.check);
      var scaling :- WriteScaling(d.scaling);
      Ok(ServiceBlock(
           d.service, d.project, Some(d.count), d.hardening, d.dependsOn, [], build,
           Map(s => WriteInit(codec, s), d.init), [WriteTask(d)], Map(WriteFile, d.files), WriteNetwork(d), exposes,
           checks, Map(WriteVolume, d.volumes), scaling, WriteUpdate(codec, d.update),
           WriteRestart(codec, d.restart)))
  }

  // ---- the whole spec ----------------------------------------------------

  function AllVolumes(services: seq<Desired>): seq<Volume> {
    if services == [] then [] else services[0].volumes + AllVolumes(services[1..])
  }

  /** The union of the inlined storage declarations; two unequal copies of one name are refused. */
  function Unite(m: map<string, Storage>, vs: seq<Volume>): Result<map<string, Storage>, Refusal>
    decreases |vs|
  {
    if vs == [] then Ok(m)
    else if vs[0].storage !in m then Unite(m[vs[0].storage := vs[0].resource], vs[1..])
    else if m[vs[0].storage] != vs[0].resource then Err(StorageDrift(vs[0].storage))
    else Unite(m, vs[1..])
  }

  /** No storage name is carried with two different declarations. */
  ghost predicate Consistent(vs: seq<Volume>) {
    forall i, j :: 0 <= i < |vs| && 0 <= j < |vs| && vs[i].storage == vs[j].storage ==> vs[i].resource == vs[j].resource
  }

  ghost predicate Agrees(m: map<string, Storage>, vs: seq<Volume>) {
    forall i :: 0 <= i < |vs| && vs[i].storage in m ==> m[vs[i].storage] == vs[i].resource
  }

  /** The union is refused exactly when two volumes disagree about one storage. */
  lemma {:induction false} UniteIffConsistent(m: map<string, Storage>, vs: seq<Volume>)
    ensures Unite(m, vs).Ok? <==> Consistent(vs) && Agrees(m, vs)
    decreases |vs|
  {
    if vs != [] {
      var v, rest := vs[0], vs[1..];
      assert vs == [v] + rest;
      var next := m[v.storage := v.resource];
      if v.storage in m && m[v.storage] != v.resource {
        assert !Agrees(m, vs);
      } else {
        assert v.storage in m ==> next == m;
        UniteIffConsistent(next, rest);
        if Consistent(rest) && Agrees(next, rest) {
          assert Agrees(m, vs);
          assert forall i :: 0 <= i < |rest| && rest[i].storage == v.storage ==> rest[i].resource == v.resource;
        }
        if Consistent(vs) && Agrees(m, vs) {
          forall i | 0 <= i < |rest| && rest[i].storage in next ensures next[rest[i].storage] == rest[i].resource {
            assert rest[i] == vs[i + 1];
          }
          assert Consistent(rest) by {
            assert forall i :: 0 <= i < |rest| ==> rest[i] == vs[i + 1];
          }
        }
      }
    }
  }

  function StorageNames(vs: seq<Volume>): seq<string> {
    SortUnique(Map((v: Volume) => v.storage, vs))
  }

  function StorageBlocks(m: map<string, Storage>, names: seq<string>): (r: seq<Storage>)
    requires forall i :: 0 <= i < |names| ==> names[i] in m
    ensures |r| == |names|
  {
    if names == [] then [] else [m[names[0]].(name := names[0])] + StorageBlocks(m, names[1..])
  }

  /** A project's pipeline; the last one listed wins, as filling a map does. */
  function PipelineOf(pipelines: seq<Pipeline>, project: string): Option<Pipeline> {
    if pipelines == [] then None
    else if pipelines[|pipelines| - 1].project == project then Some(pipelines[|pipelines| - 1])
    else PipelineOf(pipelines[..|pipelines| - 1], project)
  }

  function BuildOf(pipelines: seq<Pipeline>, d: Desired): Option<Build> {
    match PipelineOf(pipelines, d.project)
    case None => None
    case Some(p) => if d.service in p.builds then Some(p.builds[d.service]) else None
  }

  function ProjectNames(services: seq<Desired>, pipelines: seq<Pipeline>): seq<string> {
    SortUnique(Map((d: Desired) => d.project, services) + Map((p: Pipeline) => p.project, pipelines))
  }

  function Notified(names: seq<string>, pipelines: seq<Pipeline>): Option<string> {
    if names == [] then None
    else if PipelineOf(pipelines, names[0]).Some? && PipelineOf(pipelines, names[0]).value.notifications
    then Some(names[0])
    else Notified(names[1..], pipelines)
  }

  function WriteServices(codec: DurationCodec, ds: seq<Desired>, pipelines: seq<Pipeline>): Result<seq<ServiceBlock>, Refusal> {
    if ds == [] then Ok([])
    else
      var head :- WriteService(codec, ds[0], BuildOf(pipelines, ds[0]));
      var tail :- WriteServices(codec, ds[1..], pipelines);
      Ok([head] + tail)
  }

  lemma {:induction false} UniteCovers(m: map<string, Storage>, vs: seq<Volume>)
    requires Unite(m, vs).Ok?
    ensures forall k :: k in m ==> k in Unite(m, vs).value && Unite(m, vs).value[k] == m[k]
    ensures forall i :: 0 <= i < |vs| ==>
              vs[i].storage in Unite(m, vs).value && Unite(m, vs).value[vs[i].storage] == vs[i].resource
    decreases |vs|
  {
    if vs != [] {
      var next := if vs[0].storage in m then m else m[vs[0].storage := vs[0].resource];
      UniteCovers(next, vs[1..]);
      assert next[vs[0].storage] == vs[0].resource;
      forall i | 0 < i < |vs|
        ensures vs[i].storage in Unite(m, vs).value && Unite(m, vs).value[vs[i].storage] == vs[i].resource
      {
        assert vs[i] == vs[1..][i - 1];
      }
    }
  }

  lemma {:induction false} NamesCovered(vs: seq<Volume>)
    requires Unite(map[], vs).Ok?
    ensures forall i :: 0 <= i < |StorageNames(vs)| ==> StorageNames(vs)[i] in Unite(map[], vs).value
  {
    UniteCovers(map[], vs);
    var raw := Map((v: Volume) => v.storage, vs);
    SortUniqueSpec(raw);
    forall i | 0 <= i < |StorageNames(vs)| ensures StorageNames(vs)[i] in Unite(map[], vs).value {
      assert StorageNames(vs)[i] in raw;
    }
  }

  lemma {:induction false} UniteSplits(m: map<string, Storage>, a: seq<Volume>, b: seq<Volume>)
    ensures Unite(m, a + b) == if Unite(m, a).Ok? then Unite(Unite(m, a).value, b) else Unite(m, a)
    decreases |a|
  {
    if a == [] {
      assert a + b == b;
    } else {
      assert (a + b)[1..] == a[1..] + b;
      UniteSplits(if a[0].storage in m then m else m[a[0].storage := a[0].resource], a[1..], b);
    }
  }

  lemma {:induction false} AllVolumesSplits(a: seq<Desired>, d: Desired)
    ensures AllVolumes(a + [d]) == AllVolumes(a) + d.volumes
  {
    if a == [] {
      assert a + [d] == [d] && d.volumes + [] == d.volumes;
    } else {
      assert (a + [d])[1..] == a[1..] + [d];
      AllVolumesSplits(a[1..], d);
    }
  }

  /** toHCL's nested storage loop: fills the map and lists each name once, or refuses the first drift. */
  method CollectStorages(services: seq<Desired>) returns (r: Result<map<string, Storage>, Refusal>, names: seq<string>)
    ensures r == Unite(map[], AllVolumes(services))
    ensures r.Ok? ==> (forall n :: n in names <==> n in r.value) && forall a, b :: 0 <= a < b < |names| ==> names[a] != names[b]
  {
    var m: map<string, Storage> := map[];
    names := [];
    var i := 0;
    while i < |services|
      invariant 0 <= i <= |services|
      invariant Unite(map[], AllVolumes(services[..i])) == Ok(m)
      invariant forall n :: n in names <==> n in m
      invariant forall a, b :: 0 <= a < b < |names| ==> names[a] != names[b]
    {
      assert services[..i + 1] == services[..i] + [services[i]];
      AllVolumesSplits(services[..i], services[i]);
      UniteSplits(map[], AllVolumes(services[..i]), services[i].volumes);
      ghost var before := m;
      var vs := services[i].volumes;
      var j := 0;
      while j < |vs|
        invariant 0 <= j <= |vs|
        invariant Unite(before, vs) == Unite(m, vs[j..])
        invariant forall n :: n in names <==> n in m
        invariant forall a, b :: 0 <= a < b < |names| ==> names[a] != names[b]
      {
        assert vs[j..][1..] == vs[j + 1..];
        if vs[j].storage !in m {
          m := m[vs[j].storage := vs[j].resource];
          names := names + [vs[j].storage];
        } else if m[vs[j].storage] != vs[j].resource {
          r := Err(StorageDrift(vs[j].storage));
          AllVolumesPrefix(services, i + 1);
          return;
        }
        j := j + 1;
      }
      i := i + 1;
    }
    assert services[..|services|] == services;
    r := Ok(m);
  }

  /** A refusal on a prefix of the services is a refusal of them all. */
  lemma {:induction false} AllVolumesPrefix(services: seq<Desired>, n: nat)
    requires n <= |services|
    ensures Unite(map[], AllVolumes(services[..n])).Err? ==>
              Unite(map[], AllVolumes(services)) == Unite(map[], AllVolumes(services[..n]))
    decreases |services| - n
  {
    if n == |services| {
      assert services[..n] == services;
    } else {
      assert services[..n + 1] == services[..n] + [services[n]];
      AllVolumesSplits(services[..n], services[n]);
      UniteSplits(map[], AllVolumes(services[..n]), services[n].volumes);
      AllVolumesPrefix(services, n + 1);
    }
  }

  /** toHCL, up to the text form. */
  function ToSpec(codec: DurationCodec, services: seq<Desired>, pipelines: seq<Pipeline>): Result<Spec, Refusal> {
    var vs := AllVolumes(services);
    var storages :- Unite(map[], vs);
    var projects := ProjectNames(services, pipelines);
    if Notified(projects, pipelines).Some? then Err(Notifications(Notified(projects, pipelines).value))
    else
      var blocks :- WriteServices(codec, services, pipelines);
      NamesCovered(vs);
      Ok(Spec(projects, StorageBlocks(storages, StorageNames(vs)), blocks))
  }

  // ---- what the whole spec lists -----------------------------------------

  /** The projects: those of the services and of the pipelines, once each and in order. */
  lemma {:induction false} ProjectsListed(codec: DurationCodec, services: seq<Desired>, pipelines: seq<Pipeline>)
    requires ToSpec(codec, services, pipelines).Ok?
    ensures var names := ToSpec(codec, services, pipelines).value.projects;
            && Ascending(names)
            && forall x :: x in names <==>
                 (exists i :: 0 <= i < |services| && services[i].project == x)
                 || (exists i :: 0 <= i < |pipelines| && pipelines[i].project == x)
  {
    hide Unite, WriteServices, Notified, SortUnique;
    var a, b := Map((d: Desired) => d.project, services), Map((p: Pipeline) => p.project, pipelines);
    SortUniqueSpec(a + b);
    forall x ensures x in ProjectNames(services, pipelines) <==>
                     (exists i :: 0 <= i < |services| && services[i].project == x)
                     || (exists i :: 0 <= i < |pipelines| && pipelines[i].project == x)
    {
      if x in a {
        var i :| 0 <= i < |a| && a[i] == x;
        assert services[i].project == x;
      }
      if x in b {
        var i :| 0 <= i < |b| && b[i] == x;
        assert pipelines[i].project == x;
      }
      if i :| 0 <= i < |services| && services[i].project == x {
        assert a[i] == x;
      }
      if i :| 0 <= i < |pipelines| && pipelines[i].project == x {
        assert b[i] == x;
      }
    }
  }

  /** The storages: each mounted one once, in the order of their names. */
  lemma {:induction false} StoragesListed(codec: DurationCodec, services: seq<Desired>, pipelines: seq<Pipeline>)
    requires ToSpec(codec, services, pipelines).Ok?
    ensures var blocks := ToSpec(codec, services, pipelines).value.storages;
            var names := StorageNames(AllVolumes(services));
            && |blocks| == |names| && Ascending(names)
            && (forall i :: 0 <= i < |blocks| ==> blocks[i].name == names[i])
            && forall x :: x in names <==> exists i :: 0 <= i < |AllVolumes(services)| && AllVolumes(services)[i].storage == x
  {
    hide Unite, WriteServices, Notified, SortUnique, AllVolumes, ProjectNames;
    var vs := AllVolumes(services);
    var raw := Map((v: Volume) => v.storage, vs);
    SortUniqueSpec(raw);
    NamesCovered(vs);
    BlocksAreNamed(Unite(map[], vs).value, StorageNames(vs));
    forall x ensures x in raw <==> exists i :: 0 <= i < |vs| && vs[i].storage == x {
      if x in raw {
        var i :| 0 <= i < |raw| && raw[i] == x;
        assert vs[i].storage == x;
      }
      if i :| 0 <= i < |vs| && vs[i].storage == x {
        assert raw[i] == x;
      }
    }
  }

  lemma {:induction false} BlocksAreNamed(m: map<string, Storage>, names: seq<string>)
    requires forall i :: 0 <= i < |names| ==> names[i] in m
    ensures forall i :: 0 <= i < |names| ==> StorageBlocks(m, names)[i].name == names[i]
  {
    if names != [] {
      BlocksAreNamed(m, names[1..]);
    }
  }

  /** The last pipeline of a project is the one that counts. */
  ghost predicate LastPipeline(pipelines: seq<Pipeline>, project: string, p: Pipeline) {
    exists i :: 0 <= i < |pipelines| && pipelines[i] == p && p.project == project
                && forall j :: i < j < |pipelines| ==> pipelines[j].project != project
  }

  lemma {:induction false} PipelineLaw(pipelines: seq<Pipeline>, project: string)
    ensures match PipelineOf(pipelines, project)
            case Some(p) => LastPipeline(pipelines, project, p)
            case None => forall i :: 0 <= i < |pipelines| ==> pipelines[i].project != project
  {
    if pipelines != [] && pipelines[|pipelines| - 1].project != project {
      var front := pipelines[..|pipelines| - 1];
      PipelineLaw(front, project);
      match PipelineOf(front, project)
      case Some(p) =>
        var i :| 0 <= i < |front| && front[i] == p && p.project == project
                 && forall j :: i < j < |front| ==> front[j].project != project;
        assert pipelines[i] == p;
      case None =>
    }
  }

  /** A service's build block is its project's pipeline's, if that builds it, and only then. */
  lemma {:induction false} BuildIsThePipelines(codec: DurationCodec, d: Desired, pipelines: seq<Pipeline>)
    requires WriteService(codec, d, BuildOf(pipelines, d)).Ok?
    ensures var build := WriteService(codec, d, BuildOf(pipelines, d)).value.build;
            && (forall p :: LastPipeline(pipelines, d.project, p) ==>
                  build == if d.service in p.builds then Some(p.builds[d.service]) else None)
            && ((forall i :: 0 <= i < |pipelines| ==> pipelines[i].project != d.project) ==> build == None)
  {
    hide WriteExposes, WriteCheck, WriteScaling, SecretFile, PipelineOf;
    PipelineLaw(pipelines, d.project);
    OnePipelineIsLast(pipelines, d.project);
  }

  lemma {:induction false} OnePipelineIsLast(pipelines: seq<Pipeline>, project: string)
    ensures forall p, q :: LastPipeline(pipelines, project, p) && LastPipeline(pipelines, project, q) ==> p == q
  {
  }
}
