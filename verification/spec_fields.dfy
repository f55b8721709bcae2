/** Field by field: what the converter makes of what the generator wrote. */
module SpecFields {
  import opened Wrappers
  import opened Text
  import opened Numerals
  import opened JobSpec
  import opened Convert
  import opened Generate

  // ---- capabilities, hardening -------------------------------------------

  lemma {:induction false} UpperKeepsTrimmed(s: string)
    requires Trimmed(s)
    ensures Trimmed(Upper(s)) && Upper(Upper(s)) == Upper(s)
  {
    hide Upper;
  }

  lemma {:induction false} CanonicalIsCanonical(c: string)
    ensures CanonicalCapability(CanonicalCapability(c)) == CanonicalCapability(c)
  {
    hide Upper, Trim;
    TrimIsTrimmed(c);
    UpperKeepsTrimmed(Trim(c));
    TrimKeeps(Upper(Trim(c)));
    NoneFolds();
  }

  lemma {:induction false} NoneFolds()
    ensures Upper(Trim("none")) == "NONE"
  {
    TrimKeeps("none");
  }

  lemma {:induction false} EmptyFolds()
    ensures Lower(Trim("")) == ""
  {
  }

  lemma {:induction false} RestrictedFolds()
    ensures Lower(Trim("restricted")) == "restricted"
  {
    hide Lower, Trim;
    TrimKeeps("restricted");
  }

  lemma {:induction false} DropEmptySpec(s: seq<string>)
    ensures forall y :: y in DropEmpty(s) <==> y in s && y != ""
    ensures (forall i :: 0 <= i < |s| ==> s[i] != "") ==> DropEmpty(s) == s
  {
    if s != [] {
      DropEmptySpec(s[1..]);
      assert s == [s[0]] + s[1..];
    }
  }

  /** NormalizeCapabilities changes nothing it has already normalized. */
  lemma {:induction false} NormalizeIdempotent(list: seq<string>)
    ensures NormalizeCapabilities(NormalizeCapabilities(list)) == NormalizeCapabilities(list)
  {
    var raw := Map(CanonicalCapability, list);
    var out := NormalizeCapabilities(list);
    DropEmptySpec(raw);
    SortUniqueSpec(DropEmpty(raw));
    forall i | 0 <= i < |out| ensures out[i] != "" && CanonicalCapability(out[i]) == out[i] {
      assert out[i] in DropEmpty(raw);
      var j :| 0 <= j < |raw| && raw[j] == out[i];
      CanonicalIsCanonical(list[j]);
    }
    assert Map(CanonicalCapability, out) == out;
    DropEmptySpec(out);
    SortUniqueKeepsAscending(out);
  }

  lemma {:induction false} HardeningIdempotent(s: string)
    ensures CanonicalHardening(CanonicalHardening(s)) == CanonicalHardening(s)
  {
    hide Lower, Trim;
    RestrictedFolds();
    EmptyFolds();
  }

  // ---- resources ---------------------------------------------------------

  /** What toDesired's arithmetic can produce: scaled CPU, whole MiB, and a pids cap on a task only. */
  ghost predicate ConvertedResources(r: Resources, task: bool) {
    && -INT64_MAX <= r.cpuMillis * 1000 <= INT64_MAX
    && -INT64_MAX - 1 <= r.memoryBytes <= INT64_MAX && r.memoryBytes % MIB == 0
    && (if task then r.pidsLimit > 0 else r.pidsLimit == 0)
  }

  /** Neither limit is negative; one is when it wrapped past the top of int64 and stopped below zero. */
  predicate LimitsSurvive(r: Resources) {
    r.cpuMillis >= 0 && r.memoryBytes >= 0
  }

  lemma {:induction false} WrapKeepsMultiples(n: int)
    ensures WrapInt64(n * MIB) % MIB == 0
  {
    var top := INT64_MAX + 1;
    assert top == 0x800_0000_0000 * MIB;
    var m := (n + 0x800_0000_0000) % (2 * 0x800_0000_0000);
    var k := (n + 0x800_0000_0000) / (2 * 0x800_0000_0000);
    assert n + 0x800_0000_0000 == k * (2 * 0x800_0000_0000) + m;
    assert n * MIB + top == k * (2 * top) + m * MIB;
    assert 0 <= m * MIB < 2 * top;
    assert (n * MIB + top) % (2 * top) == m * MIB;
    assert WrapInt64(n * MIB) == (m - 0x800_0000_0000) * MIB;
  }

  lemma {:induction false} ResourcesAreConverted(r: Option<ResourcesBlock>, pids: int, task: bool)
    requires if task then pids > 0 else pids == 0
    ensures ConvertedResources(ConvertResources(r, pids), task)
  {
    var memory := if r.Some? then OrZero(r.value.memory) else 0;
    WrapKeepsMultiples(memory);
  }

  /** CPU and memory scaling and the pids default undo each other exactly when no limit is negative. */
  lemma {:induction false} ResourcesRoundTrip(r: Resources, task: bool)
    requires ConvertedResources(r, task)
    ensures var block := WriteResources(r, task);
            ConvertResources(block, if task then TaskPids(block) else 0) == r <==> LimitsSurvive(r)
    ensures !task ==> DeclaredPids(WriteResources(r, task)) == 0
  {
    var q := r.memoryBytes / MIB;
    assert r.memoryBytes == q * MIB;
    assert r.cpuMillis * 1000 / 1000 == r.cpuMillis;
    var block := WriteResources(r, task);
    var cpu := if block.Some? then OrZero(block.value.cpu) else 0;
    assert cpu == if r.cpuMillis > 0 then r.cpuMillis else 0;
    var memory := if block.Some? then OrZero(block.value.memory) else 0;
    assert memory == if q > 0 then q else 0;
  }

  // ---- identity ----------------------------------------------------------

  ghost predicate ConvertedUser(u: Option<User>) {
    u.Some? ==> 0 <= u.value.uid < UINT32 && 0 <= u.value.gid < UINT32
                && forall i :: 0 <= i < |u.value.additionalGids| ==> 0 <= u.value.additionalGids[i] < UINT32
  }

  lemma {:induction false} UserRoundTrip(u: Option<User>)
    requires ConvertedUser(u)
    ensures ConvertUser(WriteUser(u)) == u
  {
    if u.Some? {
      assert Map(ToUint32, u.value.additionalGids) == u.value.additionalGids;
    }
  }

  // ---- durations ---------------------------------------------------------

  ghost predicate AllPositive(ds: seq<int>) {
    forall i :: 0 <= i < |ds| ==> ds[i] > 0
  }

  lemma {:induction false} BackoffPartsRoundTrip(codec: DurationCodec, ds: seq<int>)
    requires Faithful(codec) && AllPositive(ds)
    ensures ParseBackoffParts(codec, Map(codec.spell, ds)) == Ok(ds)
  {
    if ds != [] {
      var parts := Map(codec.spell, ds);
      assert parts[1..] == Map(codec.spell, ds[1..]);
      BackoffPartsRoundTrip(codec, ds[1..]);
      assert parts[0] == codec.spell(ds[0]);
      TrimKeeps(parts[0]);
      assert [ds[0]] + ds[1..] == ds;
    }
  }

  /** The comma-joined restart schedule parses back entry for entry. */
  lemma {:induction false} BackoffRoundTrip(codec: DurationCodec, r: RestartPolicy)
    requires Faithful(codec) && AllPositive(r.backoff)
    ensures ConvertRestart(codec, WriteRestart(codec, r)) == Ok(r)
  {
    if r.backoff != [] {
      var parts := Map(codec.spell, r.backoff);
      assert parts[0] == codec.spell(r.backoff[0]) && parts[0] != "";
      forall i | 0 <= i < |parts| ensures ',' !in parts[i] {
        assert parts[i] == codec.spell(r.backoff[i]);
      }
      SplitInvertsJoin(parts, ',');
      BackoffPartsRoundTrip(codec, r.backoff);
      assert Join(parts, ',') != "";
    }
  }

  ghost predicate ConvertedUpdate(u: UpdatePolicy, pullPolicy: string) {
    && u.interval >= 0 && u.deadline >= 0 && u.minHealthy >= 0
    && (pullPolicy == "always" ==> u.auto)
  }

  lemma {:induction false} DurationRoundTrip(codec: DurationCodec, d: int)
    requires Faithful(codec) && d >= 0
    ensures OptionalDuration(codec, WriteNonzeroDuration(codec, d)) == Ok(d)
    ensures ReadOrZero(codec, WritePositiveDuration(codec, d)) == d
    ensures ParseDuration(codec, WritePositiveDuration(codec, d)) == if d > 0 then Some(d) else None
  {
    assert codec.read(codec.spell(d)) == Some(d) && codec.spell(d) != "";
  }

  /** An omitted update block, and `pull_policy = "always"` lowering, both come back to the same policy. */
  lemma {:induction false} UpdateRoundTrip(codec: DurationCodec, u: UpdatePolicy, pullPolicy: string)
    requires Faithful(codec) && ConvertedUpdate(u, pullPolicy)
    ensures ConvertUpdate(codec, WriteUpdate(codec, u), pullPolicy) == Ok(u)
  {
    DurationRoundTrip(codec, u.minHealthy);
    DurationRoundTrip(codec, u.interval);
    DurationRoundTrip(codec, u.deadline);
  }

  // ---- ports -------------------------------------------------------------

  ghost predicate ConvertedPorts(ports: seq<Port>) {
    && (forall i :: 0 <= i < |ports| ==> ports[i].name != "" && (ports[i].protocol == "" || ports[i].protocol == "udp"))
    && (forall i, j :: 0 <= i < j < |ports| ==> ports[i].name != ports[j].name)
  }

  lemma {:induction false} NamedFinds(ports: seq<Port>, p: Port)
    requires ConvertedPorts(ports) && p in ports
    ensures Named(ports, p.name) == Some(p)
  {
    if ports[0] != p {
      var j :| 0 <= j < |ports| && ports[j] == p;
      assert p == ports[1..][j - 1];
      NamedFinds(ports[1..], p);
    }
  }

  lemma {:induction false} NumberedIn(ports: seq<Port>, number: int)
    ensures var m := Numbered(ports, number);
            m.Some? ==> m.value in ports && m.value.container == number
    ensures Numbered(ports, number).None? ==> forall i :: 0 <= i < |ports| ==> ports[i].container != number
  {
    if ports != [] {
      NumberedIn(ports[1..], number);
      assert ports == [ports[0]] + ports[1..];
    }
  }

  /** Filtering out udp ports before a lookup by name, or after it, is the same. */
  lemma {:induction false} NamedStream(ports: seq<Port>, name: string)
    requires ConvertedPorts(ports)
    ensures Named(Streams(ports), name) ==
            match Named(ports, name) case None => None case Some(p) => if p.protocol == "udp" then None else Some(p)
  {
    if ports != [] {
      NamedStream(ports[1..], name);
      if ports[0].name == name {
        NamedIffListed(ports[1..], name);
        assert forall j :: 0 <= j < |ports[1..]| ==> ports[1..][j].name != name;
      }
    }
  }

  lemma {:induction false} StreamsAreStreams(ports: seq<Port>)
    ensures forall p :: p in Streams(ports) <==> p in ports && p.protocol != "udp"
  {
    if ports != [] {
      StreamsAreStreams(ports[1..]);
      assert ports == [ports[0]] + ports[1..];
    }
  }

  lemma {:induction false} EdgePortIsAStream(ports: seq<Port>, name: string, protocol: string)
    ensures var p := EdgePortFor(ports, name, protocol);
            p.Some? ==> p.value in ports && p.value.protocol != "udp"
  {
    StreamsAreStreams(ports);
    NamedIffListed(Streams(ports), name);
    NamedIffListed(Streams(ports), "grpc");
    NamedIffListed(Streams(ports), "http");
  }

  /** The first declared port with this number is one an edge route may name. */
  predicate RouteSurvives(ports: seq<Port>, number: int) {
    Numbered(ports, number).Some? && Numbered(ports, number).value.protocol != "udp"
  }

  /**
   Port re-selection: whether the generator omitted `port` or wrote it, the converter resolves the
   route back to a port with the same number, exactly when the first port declared with that number
   is a stream port; otherwise the regenerated route resolves to nothing.
   */
  lemma {:induction false} PortReselection(ports: seq<Port>, number: int, protocol: string)
    requires ConvertedPorts(ports)
    requires ExposedPort(ports, number, protocol).Ok?
    ensures var again := EdgePortFor(ports, ExposedPort(ports, number, protocol).value, protocol);
            if RouteSurvives(ports, number) then again.Some? && again.value.container == number else again.None?
  {
    NumberedIn(ports, number);
    var m := Numbered(ports, number).value;
    NamedFinds(ports, m);
    NamedStream(ports, m.name);
    EdgePortIsAStream(ports, "", protocol);
    if ConventionName(ports, protocol) == m.name {
      var p := EdgePortFor(ports, "", protocol).value;
      NamedFinds(ports, p);
    }
  }

  /** A tcp and a udp port on one number, the udp one first: the regenerated route is lost. */
  lemma {:induction false} SharedNumberLosesRoute(number: int)
    ensures var ports := [Port("dns-udp", number, "udp"), Port("dns", number, "")];
            && EdgePortFor(ports, "", "") == Some(ports[1])
            && ExposedPort(ports, number, "") == Ok("dns-udp")
            && EdgePortFor(ports, "dns-udp", "") == None
  {
    var ports := [Port("dns-udp", number, "udp"), Port("dns", number, "")];
    assert ports[1..] == [ports[1]] && ports[1..][1..] == [];
    assert Streams(ports[1..]) == [ports[1]];
    assert Streams(ports) == [ports[1]];
    assert Named([ports[1]], "http") == None;
    assert Named([ports[1]], "dns-udp") == None;
  }

  // ---- routes ------------------------------------------------------------

  ghost predicate ConvertedMiddleware(m: Middleware) {
    m.rate.Some? ==> m.rate.value.burst >= 0
  }

  ghost predicate ConvertedExpose(ports: seq<Port>, e: Expose) {
    && e.protocol != "http"
    && ConvertedMiddleware(e.middleware)
    && exists i :: 0 <= i < |ports| && ports[i].container == e.port && ports[i].protocol != "udp"
  }

  lemma {:induction false} ExposeRoundTrip(ports: seq<Port>, e: Expose)
    requires ConvertedPorts(ports) && ConvertedExpose(ports, e)
    ensures WriteExpose(ports, e).Ok?
    ensures ConvertExpose(ports, WriteExpose(ports, e).value) == if RouteSurvives(ports, e.port) then Some(e) else None
  {
    NumberedIn(ports, e.port);
    PortReselection(ports, e.port, e.protocol);
  }

  ghost predicate RoutesSurvive(ports: seq<Port>, es: seq<Expose>) {
    forall i :: 0 <= i < |es| ==> RouteSurvives(ports, es[i].port)
  }

  lemma {:induction false} ExposesRoundTrip(ports: seq<Port>, es: seq<Expose>)
    requires ConvertedPorts(ports)
    requires forall i :: 0 <= i < |es| ==> ConvertedExpose(ports, es[i])
    ensures WriteExposes(ports, es).Ok?
    ensures var again := ConvertExposes(ports, WriteExposes(ports, es).value);
            if RoutesSurvive(ports, es) then again == es else |again| < |es|
  {
    hide ConvertExpose, WriteExpose, RouteSurvives, ConvertedExpose, ConvertedPorts;
    if es != [] {
      ExposeRoundTrip(ports, es[0]);
      ExposesRoundTrip(ports, es[1..]);
      var blocks := WriteExposes(ports, es).value;
      assert blocks[1..] == WriteExposes(ports, es[1..]).value;
      assert es == [es[0]] + es[1..];
      assert RoutesSurvive(ports, es) <==> RouteSurvives(ports, es[0].port) && RoutesSurvive(ports, es[1..]) by {
        assert forall i :: 0 <= i < |es[1..]| ==> es[1..][i] == es[i + 1];
      }
    }
  }

  // ---- peers -------------------------------------------------------------

  ghost predicate ConvertedPeer(p: Peer) {
    IsLabel(p.project) && IsLabel(p.service)
  }

  lemma {:induction false} LabelHasNoSlash(s: string)
    requires IsLabel(s)
    ensures '/' !in s
  {
  }

  lemma {:induction false} PeersRoundTrip(ps: seq<Peer>)
    requires forall i :: 0 <= i < |ps| ==> ConvertedPeer(ps[i])
    ensures ParsePeers(Map(WritePeer, ps)) == ps
  {
    if ps != [] {
      LabelHasNoSlash(ps[0].project);
      LabelHasNoSlash(ps[0].service);
      CutAtFirst(ps[0].project, '/', ps[0].service);
      assert WritePeer(ps[0]) == ps[0].project + ['/'] + ps[0].service;
      assert Map(WritePeer, ps)[1..] == Map(WritePeer, ps[1..]);
      PeersRoundTrip(ps[1..]);
    }
  }

  // ---- checks, scaling, files, publishes ---------------------------------

  ghost predicate ConvertedCheck(ports: seq<Port>, c: Option<HealthCheck>) {
    c.Some? ==>
      && c.value.interval >= 0 && c.value.timeout >= 0
      && (c.value.port == 0 || exists i :: 0 <= i < |ports| && ports[i].container == c.value.port)
  }

  lemma {:induction false} CheckRoundTrip(codec: DurationCodec, ports: seq<Port>, c: Option<HealthCheck>)
    requires Faithful(codec) && ConvertedPorts(ports) && ConvertedCheck(ports, c)
    ensures WriteCheck(codec, ports, c).Ok?
    ensures ConvertCheck(codec, ports, WriteCheck(codec, ports, c).value) == c
  {
    if c.Some? {
      DurationRoundTrip(codec, c.value.interval);
      DurationRoundTrip(codec, c.value.timeout);
      if c.value.port != 0 {
        NumberedIn(ports, c.value.port);
        NamedFinds(ports, Numbered(ports, c.value.port).value);
      }
    }
  }

  lemma {:induction false} MetricsRoundTrip(ms: seq<Metric>)
    requires WriteMetrics(ms).Ok?
    ensures Map(ConvertMetric, WriteMetrics(ms).value) == ms
  {
    if ms != [] {
      MetricsRoundTrip(ms[1..]);
      var blocks := WriteMetrics(ms).value;
      assert blocks[1..] == WriteMetrics(ms[1..]).value;
      assert Map(ConvertMetric, blocks)[1..] == Map(ConvertMetric, blocks[1..]);
      assert ms == [ms[0]] + ms[1..];
      assert Map(ConvertMetric, blocks) == [ConvertMetric(blocks[0])] + Map(ConvertMetric, blocks[1..]);
    }
  }

  ghost predicate ConvertedScaling(s: Option<ScalingPolicy>) {
    s.Some? ==> forall i :: 0 <= i < |s.value.metrics| ==>
      s.value.metrics[i].target.Floor as real == s.value.metrics[i].target
  }

  lemma {:induction false} MetricsWritten(ms: seq<Metric>)
    requires forall i :: 0 <= i < |ms| ==> ms[i].target.Floor as real == ms[i].target
    ensures WriteMetrics(ms).Ok?
  {
    if ms != [] {
      MetricsWritten(ms[1..]);
    }
  }

  lemma {:induction false} FilesRoundTrip(files: seq<FileMount>)
    requires SecretFile(files).None?
    requires forall i :: 0 <= i < |files| ==> files[i].secretRefs == [] ==> files[i].nonce == ""
    ensures Map(ConvertFile, Map(WriteFile, files)) == files
  {
    NoSecrets(files);
    forall i | 0 <= i < |files| ensures ConvertFile(WriteFile(files[i])) == files[i] {
      assert files[i].secretRefs == [];
    }
  }

  lemma {:induction false} NoSecrets(files: seq<FileMount>)
    ensures SecretFile(files).None? <==> forall i :: 0 <= i < |files| ==> files[i].secretRefs == []
  {
    if files != [] {
      NoSecrets(files[1..]);
      if SecretFile(files).None? {
        forall i | 0 <= i < |files| ensures files[i].secretRefs == [] {
          assert i > 0 ==> files[i] == files[1..][i - 1];
        }
      } else if files[0].secretRefs == [] {
        var j :| 0 <= j < |files[1..]| && files[1..][j].secretRefs != [];
        assert files[j + 1].secretRefs != [];
      }
    }
  }

  ghost predicate ConvertedPublish(p: PublishedPort) {
    p.mode != "" && p.maxConns >= 0 && ConvertedMiddleware(p.middleware)
  }

  lemma {:induction false} PortsRoundTrip(ports: seq<Port>)
    requires ConvertedPorts(ports)
    ensures Map(ConvertPort, Map(WritePort, ports)) == ports
  {
    assert Lower("udp") == "udp" && Lower("") == "";
    TrimKeeps("udp");
    TrimKeeps("");
  }

  lemma {:induction false} PublishRoundTrip(ps: seq<PublishedPort>)
    requires forall i :: 0 <= i < |ps| ==> ConvertedPublish(ps[i])
    ensures Map(ConvertPublish, Map(WritePublish, ps)) == ps
  {
  }

  // ---- volumes -----------------------------------------------------------

  /** Ownership already resolved: inheriting or defaulting again would change nothing. */
  ghost predicate OwnershipClosed(v: Volume, user: Option<User>) {
    RefusesOwnership(v.resource.kind) ||
    (&& (user.Some? ==> v.uid.Some? && v.gid.Some?)
     && (v.uid.Some? || v.gid.Some? ==> v.mode.Some?))
  }

  ghost predicate ConvertedVolume(v: Volume, user: Option<User>) {
    && v.resource.name == v.storage
    && OwnershipClosed(v, user)
    && (v.uid.Some? ==> 0 <= v.uid.value < UINT32)
    && (v.gid.Some? ==> 0 <= v.gid.value < UINT32)
    && (v.mode.Some? ==> v.mode.value <= MAX_MODE)
    && 0 <= v.sizeBytes <= INT64_MAX
  }

  lemma {:induction false} VolumeRoundTrip(storages: seq<Storage>, user: Option<User>, v: Volume)
    requires ConvertedVolume(v, user)
    requires StorageByName(storages, v.storage) == Some(v.resource)
    ensures ConvertVolume(storages, WriteUser(user), WriteVolume(v)) ==
            if SizeSurvives(v.sizeBytes) then Ok(v) else Err(InvalidSize)
  {
    hide FormatMode, ParseMode, FormatByteSize, ParseByteSize;
    if v.mode.Some? {
      ModeRoundTrip(v.mode.value);
    }
    if v.sizeBytes > 0 {
      ByteSizeRoundTrip(v.sizeBytes);
    }
  }

  ghost predicate SizesSurvive(vs: seq<Volume>) {
    forall i :: 0 <= i < |vs| ==> SizeSurvives(vs[i].sizeBytes)
  }

  lemma {:induction false} VolumesRoundTrip(storages: seq<Storage>, user: Option<User>, vs: seq<Volume>)
    requires forall i :: 0 <= i < |vs| ==> ConvertedVolume(vs[i], user)
    requires forall i :: 0 <= i < |vs| ==> StorageByName(storages, vs[i].storage) == Some(vs[i].resource)
    ensures ConvertVolumes(storages, WriteUser(user), Map(WriteVolume, vs)) ==
            if SizesSurvive(vs) then Ok(vs) else Err(InvalidSize)
  {
    hide ConvertVolume, WriteVolume, SizeSurvives, ConvertedVolume, StorageByName, WriteUser;
    if vs != [] {
      var blocks := Map(WriteVolume, vs);
      assert blocks[0] == WriteVolume(vs[0]) && blocks[1..] == Map(WriteVolume, vs[1..]);
      VolumeRoundTrip(storages, user, vs[0]);
      VolumesRoundTrip(storages, user, vs[1..]);
      assert vs == [vs[0]] + vs[1..];
      assert SizesSurvive(vs) <==> SizeSurvives(vs[0].sizeBytes) && SizesSurvive(vs[1..]) by {
        assert forall i :: 0 <= i < |vs[1..]| ==> vs[1..][i] == vs[i + 1];
      }
    }
  }
}
