/**
 The generator's contract: converting the generated spec reproduces the desired state minus the
 server-owned fields, and exactly when it does not.
 */
module RoundTrip {
  import opened Wrappers
  import opened Text
  import opened Numerals
  import opened JobSpec
  import opened Convert
  import opened Generate
  import opened SpecFields

  /** The invariant the converter establishes on every record it produces. */
  ghost predicate Converted(d: Desired) {
    && NormalizeCapabilities(d.capabilities) == d.capabilities
    && CanonicalHardening(d.hardening) == d.hardening
    && SortUnique(d.dependsOn) == d.dependsOn
    && ConvertedResources(d.resources, true)
    && ConvertedUser(d.user)
    && ConvertedPorts(d.ports)
    && ConvertedCheck(d.ports, d.check)
    && ConvertedUpdate(d.update, d.pullPolicy)
    && ConvertedScaling(d.scaling)
    && (d.expose.None? ==> d.extraExposes == [])
    && (forall i :: 0 <= i < |d.AllExposes()| ==> ConvertedExpose(d.ports, d.AllExposes()[i]))
    && (forall i :: 0 <= i < |d.publish| ==> ConvertedPublish(d.publish[i]))
    && (forall i :: 0 <= i < |d.allowFrom| ==> ConvertedPeer(d.allowFrom[i]))
    && (forall i :: 0 <= i < |d.files| ==> d.files[i].secretRefs == [] ==> d.files[i].nonce == "")
    && AllPositive(d.restart.backoff)
    && (forall i :: 0 <= i < |d.volumes| ==> ConvertedVolume(d.volumes[i], d.user))
    && (forall i :: 0 <= i < |d.init| ==> ConvertedInit(d.init[i]))
  }

  ghost predicate ConvertedInit(s: InitContainer) {
    && NormalizeCapabilities(s.capabilities) == s.capabilities
    && ConvertedUser(s.user)
    && ConvertedResources(s.resources, false)
    && s.timeout >= 0
  }

  /** What a caller can test on a record to know its generated spec reproduces it. */
  ghost predicate Reproducible(d: Desired, build: Option<Build>) {
    && (d.image != "" || build.Some?)
    && SizesSurvive(d.volumes)
    && LimitsSurvive(d.resources)
    && (forall i :: 0 <= i < |d.init| ==> LimitsSurvive(d.init[i].resources))
    && RoutesSurvive(d.ports, d.AllExposes())
  }

  // ---- one service -------------------------------------------------------

  lemma {:induction false} InitRoundTrip(codec: DurationCodec, s: InitContainer)
    requires Faithful(codec) && ConvertedInit(s)
    ensures ConvertInit(codec, WriteInit(codec, s)) == s <==> LimitsSurvive(s.resources)
    ensures !DeclaresPids(WriteInit(codec, s))
  {
    hide NormalizeCapabilities, Faithful;
    UserRoundTrip(s.user);
    ResourcesRoundTrip(s.resources, false);
    DurationRoundTrip(codec, s.timeout);
  }

  lemma {:induction false} InitsRoundTrip(codec: DurationCodec, steps: seq<InitContainer>)
    requires Faithful(codec) && forall i :: 0 <= i < |steps| ==> ConvertedInit(steps[i])
    ensures var blocks := Map(s => WriteInit(codec, s), steps);
            && (Map(i => ConvertInit(codec, i), blocks) == steps
                <==> forall i :: 0 <= i < |steps| ==> LimitsSurvive(steps[i].resources))
            && forall i :: 0 <= i < |blocks| ==> !DeclaresPids(blocks[i])
  {
    hide ConvertInit, WriteInit, DeclaresPids, ConvertedInit, LimitsSurvive;
    var blocks := Map(s => WriteInit(codec, s), steps);
    var again := Map(i => ConvertInit(codec, i), blocks);
    forall i | 0 <= i < |steps|
      ensures again[i] == steps[i] <==> LimitsSurvive(steps[i].resources)
      ensures !DeclaresPids(blocks[i])
    {
      InitRoundTrip(codec, steps[i]);
      assert blocks[i] == WriteInit(codec, steps[i]);
      assert again[i] == ConvertInit(codec, blocks[i]);
    }
  }

  lemma {:induction false} NetworkRoundTrip(d: Desired)
    requires Converted(d)
    ensures PortsOf(WriteNetwork(d)) == d.ports
    ensures PublishOf(WriteNetwork(d)) == d.publish
    ensures PeersOf(WriteNetwork(d)) == d.allowFrom
  {
    PortsRoundTrip(d.ports);
    PublishRoundTrip(d.publish);
    PeersRoundTrip(d.allowFrom);
  }

  /** The first-versus-rest split of the routes is undone by listing them again. */
  lemma {:induction false} RoutesSplit(d: Desired, routes: seq<Expose>)
    requires d.expose.None? ==> d.extraExposes == []
    ensures FirstRoute(routes) == d.expose && OtherRoutes(routes) == d.extraExposes <==> routes == d.AllExposes()
  {
    if routes != [] {
      assert routes == [routes[0]] + routes[1..];
    }
  }

  /** Everything but the image rule: the generated block converts to `d` exactly when `d` is reproducible. */
  lemma {:induction false} ServiceRoundTrip(codec: DurationCodec, storages: seq<Storage>, d: Desired, build: Option<Build>)
    requires Faithful(codec) && Converted(d)
    requires WriteService(codec, d, build).Ok?
    requires forall i :: 0 <= i < |d.volumes| ==> StorageByName(storages, d.volumes[i].storage) == Some(d.volumes[i].resource)
    ensures ConvertService(codec, storages, WriteService(codec, d, build).value) == Ok(d.Declared())
            <==> Reproducible(d, build)
  {
    hide Faithful, NormalizeCapabilities, CanonicalHardening, SortUnique, ConvertedResources, ConvertedUser,
      ConvertedPorts, ConvertedCheck, ConvertedExpose, ConvertedPublish, ConvertedPeer, ConvertedVolume,
      ConvertedInit, ConvertedScaling, ConvertVolumes, ConvertRestart, ConvertUpdate, ConvertExposes, WriteExposes, WriteCheck,
      WriteResources, ConvertResources, TaskPids, WriteRestart, WriteUpdate, ConvertInit, WriteInit, DeclaresPids,
      WriteNetwork, PortsOf, PublishOf, PeersOf, ConvertCheck, ConvertUser, WriteUser, WriteVolume, SecretFile,
      SizesSurvive, LimitsSurvive, RoutesSurvive, FirstRoute, OtherRoutes, WriteMetrics, WriteFile, ConvertFile;
    var b := WriteService(codec, d, build).value;
    assert d.dependsOn + [] == d.dependsOn;
    InitsRoundTrip(codec, d.init);
    FilesRoundTrip(d.files);
    NetworkRoundTrip(d);
    ExposesRoundTrip(d.ports, d.AllExposes());
    RoutesSplit(d, ConvertExposes(d.ports, b.exposes));
    CheckRoundTrip(codec, d.ports, d.check);
    if d.scaling.Some? {
      MetricsRoundTrip(d.scaling.value.metrics);
    }
    UpdateRoundTrip(codec, d.update, d.pullPolicy);
    BackoffRoundTrip(codec, d.restart);
    UserRoundTrip(d.user);
    ResourcesRoundTrip(d.resources, true);
    VolumesRoundTrip(storages, d.user, d.volumes);
  }

  // ---- the whole spec ----------------------------------------------------

  lemma {:induction false} StorageRewritten(m: map<string, Storage>, names: seq<string>, n: string)
    requires forall i :: 0 <= i < |names| ==> names[i] in m
    requires n in names
    ensures StorageByName(StorageBlocks(m, names), n) == Some(m[n].(name := n))
  {
    var blocks := StorageBlocks(m, names);
    if names[0] != n {
      assert n in names[1..];
      assert blocks[1..] == StorageBlocks(m, names[1..]);
      StorageRewritten(m, names[1..], n);
    }
  }

  lemma {:induction false} VolumesGathered(services: seq<Desired>, i: nat, j: nat)
    requires i < |services| && j < |services[i].volumes|
    ensures services[i].volumes[j] in AllVolumes(services)
  {
    if i > 0 {
      VolumesGathered(services[1..], i - 1, j);
    }
  }

  /** Every mounted storage is declared in the generated spec with the resource the record carried. */
  lemma {:induction false} StoragesDeclared(services: seq<Desired>, i: nat, j: nat)
    requires Unite(map[], AllVolumes(services)).Ok?
    requires i < |services| && j < |services[i].volumes|
    requires services[i].volumes[j].resource.name == services[i].volumes[j].storage
    ensures var vs := AllVolumes(services);
            && (forall k :: 0 <= k < |StorageNames(vs)| ==> StorageNames(vs)[k] in Unite(map[], vs).value)
            && StorageByName(StorageBlocks(Unite(map[], vs).value, StorageNames(vs)), services[i].volumes[j].storage)
               == Some(services[i].volumes[j].resource)
  {
    var vs := AllVolumes(services);
    var v := services[i].volumes[j];
    VolumesGathered(services, i, j);
    UniteCovers(map[], vs);
    NamesCovered(vs);
    var raw := Map((v: Volume) => v.storage, vs);
    var k :| 0 <= k < |vs| && vs[k] == v;
    assert raw[k] == v.storage;
    SortUniqueSpec(raw);
    StorageRewritten(Unite(map[], vs).value, StorageNames(vs), v.storage);
  }

  ghost predicate AllReproducible(ds: seq<Desired>, pipelines: seq<Pipeline>) {
    forall i :: 0 <= i < |ds| ==> Reproducible(ds[i], BuildOf(pipelines, ds[i]))
  }

  function DeclaredParts(ds: seq<Desired>): seq<Desired> {
    Map((d: Desired) => d.Declared(), ds)
  }

  lemma {:induction false} ServicesRoundTrip(codec: DurationCodec, storages: seq<Storage>, ds: seq<Desired>, pipelines: seq<Pipeline>)
    requires Faithful(codec) && WriteServices(codec, ds, pipelines).Ok?
    requires forall i :: 0 <= i < |ds| ==> Converted(ds[i])
    requires forall i, j :: 0 <= i < |ds| && 0 <= j < |ds[i].volumes| ==>
               StorageByName(storages, ds[i].volumes[j].storage) == Some(ds[i].volumes[j].resource)
    ensures ConvertServices(codec, storages, WriteServices(codec, ds, pipelines).value) == Ok(DeclaredParts(ds))
            <==> AllReproducible(ds, pipelines)
  {
    hide Faithful, Converted, Reproducible, WriteService, ConvertService, BuildOf;
    if ds != [] {
      var build := BuildOf(pipelines, ds[0]);
      ServiceRoundTrip(codec, storages, ds[0], build);
      ServicesRoundTrip(codec, storages, ds[1..], pipelines);
      assert AllReproducible(ds, pipelines) <==> Reproducible(ds[0], build) && AllReproducible(ds[1..], pipelines) by {
        assert forall i :: 0 <= i < |ds[1..]| ==> ds[1..][i] == ds[i + 1];
      }
      var blocks := WriteServices(codec, ds, pipelines).value;
      assert blocks[1..] == WriteServices(codec, ds[1..], pipelines).value;
      assert DeclaredParts(ds) == [ds[0].Declared()] + DeclaredParts(ds[1..]);
      var again := ConvertServices(codec, storages, blocks);
      if again.Ok? {
        assert again.value[1..] == ConvertServices(codec, storages, blocks[1..]).value;
        assert again.value[0] == ConvertService(codec, storages, blocks[0]).value;
        assert DeclaredParts(ds)[1..] == DeclaredParts(ds[1..]);
      }
    }
  }

  lemma {:induction false} ServicesWritten(codec: DurationCodec, ds: seq<Desired>, pipelines: seq<Pipeline>)
    requires Faithful(codec) && forall i :: 0 <= i < |ds| ==> Converted(ds[i])
    ensures WriteServices(codec, ds, pipelines).Ok? <==> NoSecretFiles(ds)
  {
    hide Faithful, Converted, WriteService, SecretFile;
    if ds != [] {
      ServiceWritten(codec, ds[0], BuildOf(pipelines, ds[0]));
      ServicesWritten(codec, ds[1..], pipelines);
      assert NoSecretFiles(ds) <==> SecretFile(ds[0].files).None? && NoSecretFiles(ds[1..]) by {
        assert forall i :: 0 <= i < |ds[1..]| ==> ds[1..][i] == ds[i + 1];
      }
    }
  }

  lemma {:induction false} ServiceWritten(codec: DurationCodec, d: Desired, build: Option<Build>)
    requires Faithful(codec) && Converted(d)
    ensures WriteService(codec, d, build).Ok? <==> SecretFile(d.files).None?
  {
    hide Faithful, NormalizeCapabilities, CanonicalHardening, SortUnique, SecretFile, WriteExposes, WriteCheck;
    ExposesRoundTrip(d.ports, d.AllExposes());
    CheckRoundTrip(codec, d.ports, d.check);
    if d.scaling.Some? {
      MetricsWritten(d.scaling.value.metrics);
    }
  }

  ghost predicate NoSecretFiles(ds: seq<Desired>) {
    forall i :: 0 <= i < |ds| ==> SecretFile(ds[i].files).None?
  }

  /** On converted records the generator refuses three things only: storage drift, notifications, secret files. */
  lemma {:induction false} GeneratorRefusesOnly(codec: DurationCodec, services: seq<Desired>, pipelines: seq<Pipeline>)
    requires Faithful(codec) && forall i :: 0 <= i < |services| ==> Converted(services[i])
    ensures ToSpec(codec, services, pipelines).Ok? <==>
              && Consistent(AllVolumes(services))
              && Notified(ProjectNames(services, pipelines), pipelines).None?
              && NoSecretFiles(services)
  {
    hide Faithful, Converted, WriteServices, Notified, NoSecretFiles;
    UniteIffConsistent(map[], AllVolumes(services));
    ServicesWritten(codec, services, pipelines);
  }

  /**
   The generator's contract. For any set of converted records, possibly from different applies, that
   it does not refuse: converting the generated spec gives them back, server-owned fields aside, if
   and only if every record is reproducible.
   */
  lemma {:induction false} GeneratedSpecReproduces(codec: DurationCodec, services: seq<Desired>, pipelines: seq<Pipeline>)
    requires Faithful(codec)
    requires forall i :: 0 <= i < |services| ==> Converted(services[i])
    requires ToSpec(codec, services, pipelines).Ok?
    ensures ToDesired(codec, ToSpec(codec, services, pipelines).value) == Ok(DeclaredParts(services))
            <==> AllReproducible(services, pipelines)
  {
    hide Faithful, WriteServices, ConvertServices, AllReproducible, ConvertedVolume;
    var spec := ToSpec(codec, services, pipelines).value;
    forall i, j | 0 <= i < |services| && 0 <= j < |services[i].volumes|
      ensures StorageByName(spec.storages, services[i].volumes[j].storage) == Some(services[i].volumes[j].resource)
    {
      assert ConvertedVolume(services[i].volumes[j], services[i].user);
      ResourceNamed(services[i].volumes[j], services[i].user);
      StoragesDeclared(services, i, j);
    }
    ServicesRoundTrip(codec, spec.storages, services, pipelines);
  }

  lemma {:induction false} ResourceNamed(v: Volume, user: Option<User>)
    requires ConvertedVolume(v, user)
    ensures v.resource.name == v.storage
  {
  }

  // ---- the converter establishes the invariant ---------------------------

  /** The validation rules (internal/jobspec/validate.go, expose.go, publish.go) conversion relies on. */
  ghost predicate Validated(codec: DurationCodec, b: ServiceBlock) {
    && ValidNetwork(b.network)
    && (forall i :: 0 <= i < |b.exposes| ==> ConvertedMiddleware(b.exposes[i].middleware))
    && (forall i :: 0 <= i < |b.healthChecks| ==>
          ValidDuration(codec, b.healthChecks[i].interval) && ValidDuration(codec, b.healthChecks[i].timeout))
    && (forall i :: 0 <= i < |b.tasks| ==>
          && DeclaredPids(b.tasks[i].resources) >= 0
          && (b.tasks[i].pullPolicy == "always" && b.update.Some? && b.update.value.auto.Some? ==> b.update.value.auto.value))
  }

  ghost predicate ValidNetwork(n: Option<NetworkBlock>) {
    n.Some? ==>
      && (forall i :: 0 <= i < |n.value.ports| ==> IsLabel(n.value.ports[i].name))
      && (forall i, j :: 0 <= i < j < |n.value.ports| ==> n.value.ports[i].name != n.value.ports[j].name)
      && (forall i :: 0 <= i < |n.value.publish| ==>
            n.value.publish[i].maxConns >= 0 && ConvertedMiddleware(n.value.publish[i].middleware))
  }

  ghost predicate ValidDuration(codec: DurationCodec, s: string) {
    s == "" || ParseDuration(codec, s).Some?
  }

  lemma {:induction false} ExposesConverted(ports: seq<Port>, blocks: seq<ExposeBlock>)
    requires forall i :: 0 <= i < |blocks| ==> ConvertedMiddleware(blocks[i].middleware)
    ensures forall i :: 0 <= i < |ConvertExposes(ports, blocks)| ==> ConvertedExpose(ports, ConvertExposes(ports, blocks)[i])
  {
    if blocks != [] {
      ExposesConverted(ports, blocks[1..]);
      var protocol := if blocks[0].protocol == "http" then "" else blocks[0].protocol;
      EdgePortIsAStream(ports, blocks[0].port, protocol);
      if ConvertExpose(ports, blocks[0]).Some? {
        assert ConvertedExpose(ports, ConvertExpose(ports, blocks[0]).value);
      }
    }
  }

  lemma {:induction false} PeersConverted(entries: seq<string>)
    ensures forall i :: 0 <= i < |ParsePeers(entries)| ==> ConvertedPeer(ParsePeers(entries)[i])
  {
    if entries != [] {
      PeersConverted(entries[1..]);
    }
  }

  lemma {:induction false} BackoffConverted(codec: DurationCodec, parts: seq<string>)
    ensures ParseBackoffParts(codec, parts).Ok? ==> AllPositive(ParseBackoffParts(codec, parts).value)
  {
    if parts != [] {
      BackoffConverted(codec, parts[1..]);
    }
  }

  lemma {:induction false} RestartConverted(codec: DurationCodec, r: Option<RestartBlock>)
    ensures ConvertRestart(codec, r).Ok? ==> AllPositive(ConvertRestart(codec, r).value.backoff)
  {
    if r.Some? && r.value.backoff != "" {
      BackoffConverted(codec, Split(r.value.backoff, ','));
    }
  }

  lemma {:induction false} ScalingConverted(s: Option<ScalingBlock>)
    ensures ConvertedScaling(ConvertScaling(s))
  {
  }

  lemma {:induction false} UpdateConverted(codec: DurationCodec, u: Option<UpdateBlock>, pullPolicy: string)
    requires pullPolicy == "always" && u.Some? && u.value.auto.Some? ==> u.value.auto.value
    ensures var p := ConvertUpdate(codec, u, pullPolicy);
            p.Ok? ==> ConvertedUpdate(p.value, pullPolicy)
  {
  }

  lemma {:induction false} StorageFound(storages: seq<Storage>, name: string)
    ensures var r := StorageByName(storages, name); r.Some? ==> r.value.name == name
  {
    if storages != [] {
      StorageFound(storages[1..], name);
    }
  }

  lemma {:induction false} ParsedSizeInRange(s: string, units: seq<Unit>)
    ensures var r := ParseSuffixed(s, units); r.Some? ==> 0 < r.value <= INT64_MAX
  {
    if units != [] && !HasSuffix(s, units[0].suffix) {
      ParsedSizeInRange(s, units[1..]);
    } else if units != [] && ParseSuffixed(s, units).Some? {
      var n := ParseInt64(Trim(s[..|s| - |units[0].suffix|])).value;
      ScaledWithinCeiling(n, units[0].scale);
    }
  }

  lemma {:induction false} ScaledWithinCeiling(n: int, scale: nat)
    requires 0 < n && 0 < scale && n <= SIZE_CEILING / scale
    ensures 0 < n * scale <= SIZE_CEILING
  {
    var q := SIZE_CEILING / scale;
    assert q * scale <= SIZE_CEILING;
    assert n * scale <= q * scale;
  }

  lemma {:induction false} VolumeConverted(storages: seq<Storage>, user: Option<UserBlock>, v: VolumeBlock)
    ensures var r := ConvertVolume(storages, user, v);
            r.Ok? ==> ConvertedVolume(r.value, ConvertUser(user))
  {
    hide ParseByteSize, ParseMode, FormatMode;
    StorageFound(storages, v.storage);
    if v.size.Some? {
      SizeInRange(v.size.value);
    }
    if ConvertVolume(storages, user, v).Ok? {
      var st := StorageByName(storages, v.storage).value;
      var owned := ResolveOwnership(st.kind, user, v);
      if owned.mode.Some? {
        ModeInRange(owned.mode.value);
      }
    }
  }

  lemma {:induction false} SizeInRange(s: string)
    ensures ParseByteSize(s).Some? ==> 0 < ParseByteSize(s).value <= INT64_MAX
  {
    ParsedSizeInRange(Trim(s), BYTE_UNITS);
  }

  lemma {:induction false} ModeInRange(s: string)
    ensures ParseMode(s).Some? ==> ParseMode(s).value <= MAX_MODE
  {
  }

  lemma {:induction false} VolumesConverted(storages: seq<Storage>, user: Option<UserBlock>, vs: seq<VolumeBlock>)
    ensures var r := ConvertVolumes(storages, user, vs);
            r.Ok? ==> forall i :: 0 <= i < |r.value| ==> ConvertedVolume(r.value[i], ConvertUser(user))
  {
    if vs != [] {
      hide ConvertVolume, ConvertedVolume, ConvertUser;
      VolumeConverted(storages, user, vs[0]);
      VolumesConverted(storages, user, vs[1..]);
      var r := ConvertVolumes(storages, user, vs);
      if r.Ok? {
        var rest := ConvertVolumes(storages, user, vs[1..]).value;
        assert r.value == [ConvertVolume(storages, user, vs[0]).value] + rest;
      }
    }
  }

  lemma {:induction false} PortsConverted(n: Option<NetworkBlock>)
    requires ValidNetwork(n)
    ensures ConvertedPorts(PortsOf(n))
    ensures forall i :: 0 <= i < |PublishOf(n)| ==> ConvertedPublish(PublishOf(n)[i])
  {
  }

  lemma {:induction false} CheckConverted(codec: DurationCodec, ports: seq<Port>, checks: seq<HealthCheckBlock>)
    requires Faithful(codec)
    requires forall i :: 0 <= i < |checks| ==>
               ValidDuration(codec, checks[i].interval) && ValidDuration(codec, checks[i].timeout)
    ensures ConvertedCheck(ports, ConvertCheck(codec, ports, checks))
  {
    if checks != [] && Named(ports, checks[0].port).Some? {
      NamedIffListed(ports, checks[0].port);
      var p := Named(ports, checks[0].port).value;
      var j :| 0 <= j < |ports| && ports[j] == p;
      assert ports[j].container == p.container;
    }
  }

  lemma {:induction false} InitConverted(codec: DurationCodec, i: InitBlock)
    ensures ConvertedInit(ConvertInit(codec, i))
  {
    NormalizeIdempotent(i.capabilities);
    ResourcesAreConverted(i.resources, 0, false);
  }

  /** Every record toDesired produces from a validated service is one the generator's contract covers. */
  lemma {:induction false} ConverterEstablishesConverted(codec: DurationCodec, storages: seq<Storage>, b: ServiceBlock)
    requires Faithful(codec) && Validated(codec, b)
    requires ConvertService(codec, storages, b).Ok?
    ensures Converted(ConvertService(codec, storages, b).value)
  {
    hide NormalizeCapabilities, CanonicalHardening, SortUnique, ConvertedResources, ConvertedPorts, ConvertedCheck,
      ConvertedExpose, ConvertedPublish, ConvertedPeer, ConvertedVolume, ConvertedInit, ConvertVolumes,
      ConvertExposes, ConvertResources, ConvertInit, PortsOf, PublishOf, ConvertCheck, ConvertRestart, ConvertUpdate,
      ConvertedUpdate, ConvertedScaling, ConvertScaling,
      Faithful, ValidNetwork, ValidDuration, ConvertUser, ConvertedUser;
    var d := ConvertService(codec, storages, b).value;
    var t := b.tasks[0];
    NormalizeIdempotent(t.capabilities);
    HardeningIdempotent(b.hardening);
    SortUniqueSpec(b.dependsOn + b.references);
    SortUniqueKeepsAscending(d.dependsOn);
    ResourcesAreConverted(t.resources, TaskPids(t.resources), true);
    UserConverted(t.user);
    PortsConverted(b.network);
    CheckConverted(codec, d.ports, b.healthChecks);
    ExposesConverted(d.ports, b.exposes);
    RoutesSplit(d, ConvertExposes(d.ports, b.exposes));
    if b.network.Some? {
      PeersConverted(b.network.value.allowFrom);
    }
    RestartConverted(codec, b.restart);
    UpdateConverted(codec, b.update, t.pullPolicy);
    ScalingConverted(b.scaling);
    VolumesConverted(storages, t.user, b.volumes);
    assert d.volumes == ConvertVolumes(storages, t.user, b.volumes).value;
    assert d.restart == ConvertRestart(codec, b.restart).value;
    assert d.update == ConvertUpdate(codec, b.update, t.pullPolicy).value;
    forall i | 0 <= i < |d.init| ensures ConvertedInit(d.init[i]) {
      InitConverted(codec, b.inits[i]);
    }
  }

  lemma {:induction false} UserConverted(u: Option<UserBlock>)
    ensures ConvertedUser(ConvertUser(u))
  {
  }

  lemma {:induction false} SpecConverted(codec: DurationCodec, storages: seq<Storage>, bs: seq<ServiceBlock>)
    requires Faithful(codec) && forall i :: 0 <= i < |bs| ==> Validated(codec, bs[i])
    requires ConvertServices(codec, storages, bs).Ok?
    ensures var ds := ConvertServices(codec, storages, bs).value;
            && (forall i :: 0 <= i < |ds| ==> Converted(ds[i]))
            && DeclaredParts(ds) == ds
  {
    hide Faithful, Validated, Converted, ConvertService;
    if bs != [] {
      ConverterEstablishesConverted(codec, storages, bs[0]);
      SpecConverted(codec, storages, bs[1..]);
      ServerFieldsUnset(codec, storages, bs[0]);
    }
  }

  lemma {:induction false} ServerFieldsUnset(codec: DurationCodec, storages: seq<Storage>, b: ServiceBlock)
    requires ConvertService(codec, storages, b).Ok?
    ensures ConvertService(codec, storages, b).value.server == UNOWNED
  {
  }

  /**
   convert(generate(convert(spec))) = convert(spec): for every validated spec, once its desired state
   is generated back into a spec, that spec means the same thing.
   */
  lemma {:induction false} RegeneratedSpecMeansTheSame(codec: DurationCodec, spec: Spec, pipelines: seq<Pipeline>)
    requires Faithful(codec) && forall i :: 0 <= i < |spec.services| ==> Validated(codec, spec.services[i])
    requires ToDesired(codec, spec).Ok?
    requires ToSpec(codec, ToDesired(codec, spec).value, pipelines).Ok?
    ensures var ds := ToDesired(codec, spec).value;
            ToDesired(codec, ToSpec(codec, ds, pipelines).value) == Ok(ds) <==> AllReproducible(ds, pipelines)
  {
    hide Faithful, Validated, ConvertServices, AllReproducible, ToSpec;
    SpecConverted(codec, spec.storages, spec.services);
    GeneratedSpecReproduces(codec, ToDesired(codec, spec).value, pipelines);
  }
}
