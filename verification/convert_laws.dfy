/**
 What the converter makes of a written block, field by field and without the converter's own functions:
 the meaning a job spec has (internal/jobspec, cmd/kanea/convert.go).
 */
module ConvertLaws {
  import opened Wrappers
  import opened Text
  import opened Numerals
  import opened JobSpec
  import opened Convert

  // ---- ports and routes --------------------------------------------------

  /** The first port of this name that an edge route may use. */
  ghost predicate FirstStreamNamed(ports: seq<Port>, name: string, p: Port) {
    exists i :: 0 <= i < |ports| && ports[i] == p && p.name == name && p.protocol != "udp"
                && forall j :: 0 <= j < i ==> !(ports[j].name == name && ports[j].protocol != "udp")
  }

  ghost predicate HasStream(ports: seq<Port>, name: string) {
    exists i :: 0 <= i < |ports| && ports[i].name == name && ports[i].protocol != "udp"
  }

  /** The only port that is not udp. */
  ghost predicate SoleStream(ports: seq<Port>, p: Port) {
    exists i :: 0 <= i < |ports| && ports[i] == p && p.protocol != "udp"
                && forall j :: 0 <= j < |ports| && j != i ==> ports[j].protocol == "udp"
  }

  /** The order of the rules: a name given beats every convention; then grpc for grpc, http, the sole one. */
  ghost predicate Picks(ports: seq<Port>, name: string, protocol: string, p: Port) {
    if name != "" then FirstStreamNamed(ports, name, p)
    else if protocol == "grpc" && HasStream(ports, "grpc") then FirstStreamNamed(ports, "grpc", p)
    else if HasStream(ports, "http") then FirstStreamNamed(ports, "http", p)
    else SoleStream(ports, p)
  }

  lemma {:induction false} NamedStreamLaw(ports: seq<Port>, name: string)
    ensures match Named(Streams(ports), name)
            case Some(p) => FirstStreamNamed(ports, name, p) && HasStream(ports, name)
            case None => !HasStream(ports, name)
  {
    if ports != [] && !(ports[0].name == name && ports[0].protocol != "udp") {
      NamedStreamLaw(ports[1..], name);
      var rest := ports[1..];
      match Named(Streams(rest), name)
      case Some(p) =>
        var i :| 0 <= i < |rest| && rest[i] == p && p.name == name && p.protocol != "udp"
                 && forall j :: 0 <= j < i ==> !(rest[j].name == name && rest[j].protocol != "udp");
        assert ports[i + 1] == p;
        assert forall j :: 1 <= j < i + 1 ==> ports[j] == rest[j - 1];
      case None =>
        assert forall j :: 1 <= j < |ports| ==> ports[j] == rest[j - 1];
    }
  }

  lemma {:induction false} SoleStreamLaw(ports: seq<Port>)
    ensures |Streams(ports)| == 1 ==> SoleStream(ports, Streams(ports)[0])
    ensures |Streams(ports)| == 0 <==> forall j :: 0 <= j < |ports| ==> ports[j].protocol == "udp"
    ensures (exists p :: SoleStream(ports, p)) ==> |Streams(ports)| == 1
  {
    if ports != [] {
      var rest := ports[1..];
      SoleStreamLaw(rest);
      assert forall j :: 1 <= j < |ports| ==> ports[j] == rest[j - 1];
      if ports[0].protocol == "udp" {
        if |Streams(rest)| == 1 {
          var p := Streams(rest)[0];
          var i :| 0 <= i < |rest| && rest[i] == p && p.protocol != "udp"
                   && forall j :: 0 <= j < |rest| && j != i ==> rest[j].protocol == "udp";
          assert ports[i + 1] == p;
        }
        if p :| SoleStream(ports, p) {
          var i :| 0 <= i < |ports| && ports[i] == p && p.protocol != "udp"
                   && forall j :: 0 <= j < |ports| && j != i ==> ports[j].protocol == "udp";
          assert rest[i - 1] == p;
          assert SoleStream(rest, p);
        }
      } else {
        assert |Streams(rest)| == 0 ==> SoleStream(ports, ports[0]);
        if p :| SoleStream(ports, p) {
          assert forall j :: 0 <= j < |rest| ==> rest[j] == ports[j + 1];
        }
      }
    }
  }

  /** EdgePortFor, both ways: what it picks is the port the rules pick, and it picks nothing only when they do. */
  lemma {:induction false} EdgePortLaw(ports: seq<Port>, name: string, protocol: string)
    ensures match EdgePortFor(ports, name, protocol)
            case Some(p) => Picks(ports, name, protocol, p)
            case None => forall p :: !Picks(ports, name, protocol, p)
  {
    hide FirstStreamNamed, HasStream, SoleStream, Named, Streams;
    NamedStreamLaw(ports, name);
    NamedStreamLaw(ports, "grpc");
    NamedStreamLaw(ports, "http");
    SoleStreamLaw(ports);
    FirstIsStream(ports, name);
  }

  lemma {:induction false} FirstIsStream(ports: seq<Port>, name: string)
    ensures forall p :: FirstStreamNamed(ports, name, p) ==> HasStream(ports, name)
  {
  }

  /** The route a block stands for, given its port. */
  ghost predicate RouteOf(ports: seq<Port>, e: ExposeBlock, x: Expose) {
    && x.domains == e.domains && x.middleware == e.middleware && x.auth == e.auth
    && x.protocol == (if e.protocol == "http" then "" else e.protocol)
    && (exists p :: Picks(ports, e.port, x.protocol, p) && p.container == x.port)
    && match e.tls
       case None => x.tlsMode == "" && x.tlsName == ""
       case Some(t) =>
         && x.tlsName == t.name
         && x.tlsMode == if t.mode != "" then t.mode else if t.letsEncrypt == Some(true) then "acme" else ""
  }

  ghost predicate Resolves(ports: seq<Port>, e: ExposeBlock) {
    PicksSomething(ports, e.port, if e.protocol == "http" then "" else e.protocol)
  }

  ghost predicate PicksSomething(ports: seq<Port>, name: string, protocol: string) {
    exists p :: Picks(ports, name, protocol, p)
  }

  lemma {:induction false} ExposeLaw(ports: seq<Port>, e: ExposeBlock)
    ensures match ConvertExpose(ports, e)
            case Some(x) => RouteOf(ports, e, x) && Resolves(ports, e)
            case None => !Resolves(ports, e)
  {
    hide EdgePortFor, Picks;
    EdgePortLaw(ports, e.port, if e.protocol == "http" then "" else e.protocol);
  }

  /** The routes, one for each block that resolves, in the blocks' order. */
  ghost predicate RoutesOf(ports: seq<Port>, blocks: seq<ExposeBlock>, routes: seq<Expose>)
    decreases |blocks|
  {
    if blocks == [] then routes == []
    else if Resolves(ports, blocks[0]) then
      routes != [] && RouteOf(ports, blocks[0], routes[0]) && RoutesOf(ports, blocks[1..], routes[1..])
    else RoutesOf(ports, blocks[1..], routes)
  }

  lemma {:induction false} ExposesLaw(ports: seq<Port>, blocks: seq<ExposeBlock>)
    ensures RoutesOf(ports, blocks, ConvertExposes(ports, blocks))
    decreases |blocks|
  {
    hide ConvertExpose, RouteOf, Resolves;
    if blocks != [] {
      ExposeLaw(ports, blocks[0]);
      ExposesLaw(ports, blocks[1..]);
      match ConvertExpose(ports, blocks[0])
      case Some(x) => assert ([x] + ConvertExposes(ports, blocks[1..]))[1..] == ConvertExposes(ports, blocks[1..]);
      case None =>
    }
  }

  // ---- peers -------------------------------------------------------------

  /** A lower-case DNS label: letters and digits, dashes inside, 1 to 63 characters. */
  predicate DnsLabel(s: string) {
    && 1 <= |s| <= 63 && s[0] != '-' && s[|s| - 1] != '-'
    && forall i :: 0 <= i < |s| ==> s[i] in "abcdefghijklmnopqrstuvwxyz0123456789-"
  }

  lemma {:induction false} LabelLaw(s: string)
    ensures IsLabel(s) <==> DnsLabel(s)
  {
    forall i | 0 <= i < |s| ensures LabelChar(s[i]) || s[i] == '-' <==> s[i] in "abcdefghijklmnopqrstuvwxyz0123456789-" {
      CharLaw(s[i]);
    }
  }

  lemma {:induction false} CharLaw(c: char)
    ensures (LabelChar(c) || c == '-') <==> c in "abcdefghijklmnopqrstuvwxyz0123456789-"
  {
  }

  /** What is allowed in is exactly the well-formed entries, as project and service. */
  lemma {:induction false} PeersLaw(entries: seq<string>)
    ensures forall p: Peer :: p in ParsePeers(entries) <==>
              DnsLabel(p.project) && DnsLabel(p.service) && p.project + "/" + p.service in entries
  {
    hide IsLabel, DnsLabel, ParsePeerRef;
    if entries != [] {
      PeersLaw(entries[1..]);
      forall p: Peer
        ensures p in ParsePeers(entries) <==>
                DnsLabel(p.project) && DnsLabel(p.service) && p.project + "/" + p.service in entries
      {
        PeerLaw(entries[0], p);
        assert entries == [entries[0]] + entries[1..];
      }
    }
  }

  lemma {:induction false} PeerLaw(entry: string, p: Peer)
    ensures ParsePeerRef(entry) == Some(p) <==>
              DnsLabel(p.project) && DnsLabel(p.service) && p.project + "/" + p.service == entry
  {
    hide IsLabel, DnsLabel;
    LabelLaw(p.project);
    LabelLaw(p.service);
    assert p.project + "/" + p.service == p.project + ['/'] + p.service;
    if DnsLabel(p.project) && DnsLabel(p.service) {
      LabelHasNoSlash(p.project);
      LabelHasNoSlash(p.service);
      CutAtFirst(p.project, '/', p.service);
    }
  }

  lemma {:induction false} LabelHasNoSlash(s: string)
    requires DnsLabel(s)
    ensures '/' !in s
  {
  }

  // ---- capabilities, dependencies ----------------------------------------

  /** A capability as it is stored: upper case, but `none` as it is. */
  predicate Stored(declared: string, x: string) {
    var name := Upper(Trim(declared));
    x != "" && x == if name == "NONE" then "none" else name
  }

  lemma {:induction false} CapabilitiesLaw(declared: seq<string>)
    ensures var list := NormalizeCapabilities(declared);
            Ascending(list) && forall x :: x in list <==> exists i :: 0 <= i < |declared| && Stored(declared[i], x)
  {
    hide Upper, Trim, SortUnique, DropEmpty;
    var named := Map(CanonicalCapability, declared);
    SortUniqueSpec(DropEmpty(named));
    DropEmptyLaw(named);
    forall x ensures x in NormalizeCapabilities(declared) <==> exists i :: 0 <= i < |declared| && Stored(declared[i], x) {
      if x in named && x != "" {
        var i :| 0 <= i < |named| && named[i] == x;
        assert Stored(declared[i], x);
      }
      if i :| 0 <= i < |declared| && Stored(declared[i], x) {
        assert named[i] == x;
      }
    }
  }

  lemma {:induction false} DropEmptyLaw(s: seq<string>)
    ensures forall y :: y in DropEmpty(s) <==> y in s && y != ""
  {
    if s != [] {
      DropEmptyLaw(s[1..]);
    }
  }

  lemma {:induction false} DependenciesLaw(b: ServiceBlock)
    ensures var list := SortUnique(b.dependsOn + b.references);
            Ascending(list) && forall x :: x in list <==> x in b.dependsOn || x in b.references
  {
    SortUniqueSpec(b.dependsOn + b.references);
  }

  // ---- limits, identity, files -------------------------------------------

  /** A declared number, or zero. */
  function Declared(x: Option<int>): int {
    match x case None => 0 case Some(n) => n
  }

  predicate Int64(x: int) {
    -0x8000_0000_0000_0000 <= x <= 0x7fff_ffff_ffff_ffff
  }

  /** A nominal core is 1000 MHz and a MiB is 2^20 bytes, as long as neither product leaves an int64. */
  ghost predicate LimitsOf(r: Option<ResourcesBlock>, x: Resources) {
    var cpu, memory := if r.None? then 0 else Declared(r.value.cpu), if r.None? then 0 else Declared(r.value.memory);
    && (Int64(cpu * 1000) ==> x.cpuMillis == cpu)
    && (Int64(memory * 1048576) ==> x.memoryBytes == memory * 1048576)
  }

  lemma {:induction false} LimitsLaw(r: Option<ResourcesBlock>, pids: int)
    ensures LimitsOf(r, ConvertResources(r, pids)) && ConvertResources(r, pids).pidsLimit == pids
  {
    var cpu := if r.None? then 0 else Declared(r.value.cpu);
    Thousandths(cpu);
  }

  lemma {:induction false} Thousandths(cpu: int)
    ensures TruncDiv(cpu * 1000, 1000) == cpu
  {
    assert (-cpu) * 1000 == -(cpu * 1000);
  }

  predicate Id32(x: int) {
    0 <= x < 0x1_0000_0000
  }

  /** Declared ids in range are kept, undeclared ones are zero. */
  ghost predicate UserOf(u: Option<UserBlock>, x: Option<User>) {
    match u
    case None => x.None?
    case Some(b) =>
      && x.Some?
      && (Id32(Declared(b.uid)) ==> x.value.uid == Declared(b.uid))
      && (Id32(Declared(b.gid)) ==> x.value.gid == Declared(b.gid))
      && |x.value.additionalGids| == |b.groups|
      && forall i :: 0 <= i < |b.groups| && Id32(b.groups[i]) ==> x.value.additionalGids[i] == b.groups[i]
  }

  lemma {:induction false} UserLaw(u: Option<UserBlock>)
    ensures UserOf(u, ConvertUser(u))
  {
  }

  ghost predicate FileOf(f: FileBlock, x: FileMount) {
    && x.name == f.name && x.path == f.path && x.mode == f.mode && x.content == f.content.bytes
    && match f.content
       case Plain(_) => x.secretRefs == [] && x.nonce == ""
       case Interpolated(_, refs, nonce) => x.secretRefs == refs && (refs != [] ==> x.nonce == nonce)
  }

  ghost predicate InitOf(codec: DurationCodec, i: InitBlock, x: InitContainer) {
    && x.name == i.name && x.image == i.image && x.command == i.command && x.args == i.args && x.env == i.env
    && x.registryAuthRef == i.registryAuthRef && x.pullPolicy == i.pullPolicy
    && (Ascending(x.capabilities)
        && forall c :: c in x.capabilities <==> exists k :: 0 <= k < |i.capabilities| && Stored(i.capabilities[k], c))
    && UserOf(i.user, x.user) && LimitsOf(i.resources, x.resources) && x.resources.pidsLimit == 0
    && match codec.read(i.timeout)
       case Some(d) => x.timeout == if d < 0 then 0 else d
       case None => x.timeout == 0
  }

  lemma {:induction false} InitLaw(codec: DurationCodec, i: InitBlock)
    ensures InitOf(codec, i, ConvertInit(codec, i))
  {
    hide NormalizeCapabilities, ConvertUser, ConvertResources, Stored, UserOf, LimitsOf;
    CapabilitiesLaw(i.capabilities);
    UserLaw(i.user);
    LimitsLaw(i.resources, 0);
  }

  // ---- volumes -----------------------------------------------------------

  ghost predicate FirstStorage(storages: seq<Storage>, name: string, st: Storage) {
    exists i :: 0 <= i < |storages| && storages[i] == st && st.name == name
                && forall j :: 0 <= j < i ==> storages[j].name != name
  }

  lemma {:induction false} StorageLaw(storages: seq<Storage>, name: string)
    ensures match StorageByName(storages, name)
            case Some(st) => FirstStorage(storages, name, st)
            case None => forall i :: 0 <= i < |storages| ==> storages[i].name != name
  {
    if storages != [] && storages[0].name != name {
      var rest := storages[1..];
      StorageLaw(rest, name);
      assert forall j :: 1 <= j < |storages| ==> storages[j] == rest[j - 1];
      match StorageByName(rest, name)
      case Some(st) =>
        var i :| 0 <= i < |rest| && rest[i] == st && st.name == name && forall j :: 0 <= j < i ==> rest[j].name != name;
        assert storages[i + 1] == st;
      case None =>
    }
  }

  /** An id a volume ends up with: its own, or its task's user's where the driver can carry ownership. */
  function Owner(kind: string, own: Option<int>, user: Option<UserBlock>, ofUser: Option<int>): Option<int> {
    if own.Some? then own
    else if kind == "host" || kind == "nfs" || user.None? then None
    else Some(Declared(ofUser))
  }

  function UserId(user: Option<UserBlock>): Option<int> {
    match user case None => None case Some(u) => u.uid
  }

  function GroupId(user: Option<UserBlock>): Option<int> {
    match user case None => None case Some(u) => u.gid
  }

  ghost predicate SameId(id: Option<int>, x: Option<int>) {
    match id case None => x.None? case Some(n) => x.Some? && (Id32(n) ==> x.value == n)
  }

  ghost predicate VolumeOf(storages: seq<Storage>, user: Option<UserBlock>, v: VolumeBlock, x: Volume) {
    && x.name == v.name && x.storage == v.storage && x.mountPath == v.mountPath && x.readOnly == v.readOnly
    && FirstStorage(storages, v.storage, x.resource)
    && var uid := Owner(x.resource.kind, v.uid, user, UserId(user));
       var gid := Owner(x.resource.kind, v.gid, user, GroupId(user));
       && SameId(uid, x.uid) && SameId(gid, x.gid)
       && (match v.mode
           case Some(m) => ParseMode(m).Some? && x.mode == Some(ParseMode(m).value)
           case None =>
             // 0700 for a volume that is owned, where the driver can carry ownership
             x.mode == if x.resource.kind == "host" || x.resource.kind == "nfs" || (uid.None? && gid.None?) then None
                       else Some(448))
       && match v.size
          case None => x.sizeBytes == 0
          case Some(t) => ParseByteSize(t) == Some(x.sizeBytes)
  }

  /** A volume converts when its storage is declared and its size and mode parse. */
  ghost predicate VolumeConverts(storages: seq<Storage>, v: VolumeBlock) {
    && (exists i :: 0 <= i < |storages| && storages[i].name == v.storage)
    && (v.size.Some? ==> ParseByteSize(v.size.value).Some?)
    && (v.mode.Some? ==> ParseMode(v.mode.value).Some?)
  }

  lemma {:induction false} VolumeLaw(storages: seq<Storage>, user: Option<UserBlock>, v: VolumeBlock)
    ensures var r := ConvertVolume(storages, user, v);
            && (r.Ok? <==> VolumeConverts(storages, v))
            && (r.Ok? ==> VolumeOf(storages, user, v, r.value))
  {
    hide ParseByteSize, ParseMode, FormatMode, FirstStorage, StorageByName;
    StorageLaw(storages, v.storage);
    ModeRoundTrip(448);
    assert DEFAULT_VOLUME_MODE == 448;
    match StorageByName(storages, v.storage)
    case Some(st) =>
      StorageNamed(storages, v.storage, st);
    case None =>
  }

  lemma {:induction false} StorageNamed(storages: seq<Storage>, name: string, st: Storage)
    requires FirstStorage(storages, name, st)
    ensures exists i :: 0 <= i < |storages| && storages[i].name == name
  {
  }

  lemma {:induction false} VolumesLaw(storages: seq<Storage>, user: Option<UserBlock>, vs: seq<VolumeBlock>)
    ensures var r := ConvertVolumes(storages, user, vs);
            && (r.Ok? <==> forall i :: 0 <= i < |vs| ==> VolumeConverts(storages, vs[i]))
            && (r.Ok? ==> |r.value| == |vs| && forall i :: 0 <= i < |vs| ==> VolumeOf(storages, user, vs[i], r.value[i]))
  {
    hide ConvertVolume, VolumeOf, VolumeConverts;
    if vs != [] {
      VolumeLaw(storages, user, vs[0]);
      VolumesLaw(storages, user, vs[1..]);
      assert forall i :: 1 <= i < |vs| ==> vs[i] == vs[1..][i - 1];
      assert forall i :: 0 <= i < |vs[1..]| ==> vs[1..][i] == vs[i + 1];
    }
  }

  // ---- durations and policies --------------------------------------------

  /** An optional duration: none written is zero, otherwise it reads as a non-negative one. */
  ghost predicate Duration(codec: DurationCodec, text: string, d: int) {
    if text == "" then d == 0 else codec.read(text) == Some(d) && d >= 0
  }

  lemma {:induction false} DurationLaw(codec: DurationCodec, text: string)
    ensures match OptionalDuration(codec, text)
            case Ok(d) => Duration(codec, text, d)
            case Err(_) => forall d :: !Duration(codec, text, d)
  {
  }

  /** The schedule's entries, one positive duration for each part between commas. */
  ghost predicate Schedule(codec: DurationCodec, text: string, delays: seq<int>) {
    if text == "" then delays == []
    else exists parts: seq<string> :: Parts(text, parts) && |parts| == |delays| && Entries(codec, parts, delays)
  }

  /** The text cut at its commas. */
  ghost predicate Parts(text: string, parts: seq<string>) {
    parts != [] && Join(parts, ',') == text && forall i :: 0 <= i < |parts| ==> ',' !in parts[i]
  }

  ghost predicate Entries(codec: DurationCodec, parts: seq<string>, delays: seq<int>)
    requires |parts| == |delays|
  {
    forall i :: 0 <= i < |parts| ==> Trim(parts[i]) != "" && codec.read(Trim(parts[i])) == Some(delays[i]) && delays[i] > 0
  }

  lemma {:induction false} SplitLaw(s: string)
    ensures Parts(s, Split(s, ','))
    decreases |s|
  {
    match Cut(s, ',')
    case None =>
    case Some((before, after)) =>
      SplitLaw(after);
      assert ([before] + Split(after, ','))[1..] == Split(after, ',');
  }

  lemma {:induction false} PartsAreSplit(text: string, parts: seq<string>)
    requires Parts(text, parts)
    ensures parts == Split(text, ',')
  {
    SplitInvertsJoin(parts, ',');
  }

  lemma {:induction false} EntriesLaw(codec: DurationCodec, parts: seq<string>)
    ensures var r := ParseBackoffParts(codec, parts);
            && (r.Ok? ==> |r.value| == |parts| && Entries(codec, parts, r.value))
            && (forall ds: seq<int> :: |ds| == |parts| && Entries(codec, parts, ds) ==> r.Ok?)
  {
    hide Trim;
    if parts != [] {
      EntriesLaw(codec, parts[1..]);
      forall ds: seq<int> | |ds| == |parts| && Entries(codec, parts, ds) ensures ParseBackoffParts(codec, parts).Ok? {
        assert Entries(codec, parts[1..], ds[1..]);
      }
    }
  }

  /** The restart schedule converts exactly when every entry is one, and to those entries. */
  lemma {:induction false} ScheduleLaw(codec: DurationCodec, text: string)
    ensures match ParseBackoff(codec, text)
            case Ok(ds) => Schedule(codec, text, ds)
            case Err(_) => forall ds :: !Schedule(codec, text, ds)
  {
    hide Split, Entries, Parts, ParseBackoffParts;
    if text != "" {
      SplitLaw(text);
      EntriesLaw(codec, Split(text, ','));
      forall ds | Schedule(codec, text, ds) ensures ParseBackoff(codec, text).Ok? {
        var parts :| Parts(text, parts) && |parts| == |ds| && Entries(codec, parts, ds);
        PartsAreSplit(text, parts);
      }
    }
  }

  ghost predicate RestartOf(codec: DurationCodec, r: Option<RestartBlock>, x: RestartPolicy) {
    match r
    case None => x.attempts == 0 && x.backoff == []
    case Some(b) => x.attempts == b.attempts && Schedule(codec, b.backoff, x.backoff)
  }

  /** `auto` as written, or implied by a pull policy of `always` when it is not. */
  ghost predicate UpdateOf(codec: DurationCodec, u: Option<UpdateBlock>, pullPolicy: string, x: UpdatePolicy) {
    match u
    case None =>
      x.strategy == "" && x.maxParallel == 0 && x.minHealthy == 0 && x.interval == 0 && x.deadline == 0
      && x.auto == (pullPolicy == "always")
    case Some(b) =>
      && x.strategy == b.strategy && x.maxParallel == b.maxParallel
      && Duration(codec, b.minHealthy, x.minHealthy) && Duration(codec, b.interval, x.interval)
      && Duration(codec, b.deadline, x.deadline)
      && x.auto == match b.auto case Some(written) => written case None => pullPolicy == "always"
  }

  ghost predicate HasDuration(codec: DurationCodec, text: string) {
    exists d :: Duration(codec, text, d)
  }

  ghost predicate HasSchedule(codec: DurationCodec, text: string) {
    exists ds :: Schedule(codec, text, ds)
  }

  lemma {:induction false} UpdateLaw(codec: DurationCodec, u: Option<UpdateBlock>, pullPolicy: string)
    ensures var r := ConvertUpdate(codec, u, pullPolicy);
            && (r.Ok? ==> UpdateOf(codec, u, pullPolicy, r.value))
            && (r.Ok? <==> u.Some? ==>
                  HasDuration(codec, u.value.minHealthy) && HasDuration(codec, u.value.interval) && HasDuration(codec, u.value.deadline))
  {
    hide OptionalDuration, Duration;
    var low := LowerUpdate(u, pullPolicy);
    DurationLaw(codec, low.minHealthy);
    DurationLaw(codec, low.interval);
    DurationLaw(codec, low.deadline);
    NoDuration(codec);
  }

  lemma {:induction false} NoDuration(codec: DurationCodec)
    ensures OptionalDuration(codec, "") == Ok(0)
  {
  }

  lemma {:induction false} RestartLaw(codec: DurationCodec, r: Option<RestartBlock>)
    ensures var x := ConvertRestart(codec, r);
            && (x.Ok? ==> RestartOf(codec, r, x.value))
            && (x.Ok? <==> r.Some? ==> HasSchedule(codec, r.value.backoff))
  {
    hide ParseBackoff, Schedule;
    if r.Some? {
      ScheduleLaw(codec, r.value.backoff);
    }
  }

  // ---- health checks, ports, publications --------------------------------

  ghost predicate FirstNamed(ports: seq<Port>, name: string, p: Port) {
    exists i :: 0 <= i < |ports| && ports[i] == p && p.name == name && forall j :: 0 <= j < i ==> ports[j].name != name
  }

  lemma {:induction false} NamedLaw(ports: seq<Port>, name: string)
    ensures match Named(ports, name)
            case Some(p) => FirstNamed(ports, name, p)
            case None => forall i :: 0 <= i < |ports| ==> ports[i].name != name
  {
    if ports != [] && ports[0].name != name {
      var rest := ports[1..];
      NamedLaw(rest, name);
      assert forall j :: 1 <= j < |ports| ==> ports[j] == rest[j - 1];
      match Named(rest, name)
      case Some(p) =>
        var i :| 0 <= i < |rest| && rest[i] == p && p.name == name && forall j :: 0 <= j < i ==> rest[j].name != name;
        assert ports[i + 1] == p;
      case None =>
    }
  }

  function ReadOr(codec: DurationCodec, text: string): int {
    match codec.read(text) case Some(d) => d case None => 0
  }

  /** The first check that is declared, its port by name. */
  ghost predicate CheckOf(codec: DurationCodec, ports: seq<Port>, checks: seq<HealthCheckBlock>, x: Option<HealthCheck>) {
    if checks == [] then x.None?
    else
      var c := checks[0];
      && x.Some?
      && x.value.kind == c.kind && x.value.path == c.path && x.value.command == c.command
      && x.value.failures == c.failures
      && x.value.interval == ReadOr(codec, c.interval) && x.value.timeout == ReadOr(codec, c.timeout)
      && (forall p :: c.port != "" && FirstNamed(ports, c.port, p) ==> x.value.port == p.container)
      && (c.port == "" || (forall i :: 0 <= i < |ports| ==> ports[i].name != c.port) ==> x.value.port == 0)
  }

  lemma {:induction false} CheckLaw(codec: DurationCodec, ports: seq<Port>, checks: seq<HealthCheckBlock>)
    ensures CheckOf(codec, ports, checks, ConvertCheck(codec, ports, checks))
  {
    hide Named;
    if checks != [] {
      NamedLaw(ports, checks[0].port);
      FirstNamedIsOne(ports, checks[0].port);
    }
  }

  lemma {:induction false} FirstNamedIsOne(ports: seq<Port>, name: string)
    ensures forall p, q :: FirstNamed(ports, name, p) && FirstNamed(ports, name, q) ==> p == q
    ensures forall p :: FirstNamed(ports, name, p) ==> exists i :: 0 <= i < |ports| && ports[i].name == name
  {
  }

  ghost predicate PortOf(b: PortBlock, x: Port) {
    x.name == b.name && x.container == b.container && x.protocol == if Lower(Trim(b.protocol)) == "udp" then "udp" else ""
  }

  ghost predicate PublishedOf(b: PublishBlock, x: PublishedPort) {
    && x.port == b.port && x.host == b.host && x.maxConns == b.maxConns && x.middleware == b.middleware
    && x.mode == if b.mode != "" then b.mode else "http"
  }

  ghost predicate ScalingOf(b: Option<ScalingBlock>, x: Option<ScalingPolicy>) {
    match b
    case None => x.None?
    case Some(s) =>
      && x.Some? && x.value.min == s.min && x.value.max == s.max && x.value.cooldown == s.cooldown
      && |x.value.metrics| == |s.metrics|
      && forall i :: 0 <= i < |s.metrics| ==>
           x.value.metrics[i].name == s.metrics[i].name && x.value.metrics[i].target == s.metrics[i].target as real
  }

  ghost predicate NetworkOf(n: Option<NetworkBlock>, d: Desired) {
    match n
    case None => d.ports == [] && d.publish == [] && d.allowFrom == []
    case Some(b) =>
      && |d.ports| == |b.ports| && (forall i :: 0 <= i < |b.ports| ==> PortOf(b.ports[i], d.ports[i]))
      && |d.publish| == |b.publish| && (forall i :: 0 <= i < |b.publish| ==> PublishedOf(b.publish[i], d.publish[i]))
      && forall p: Peer :: p in d.allowFrom <==>
           DnsLabel(p.project) && DnsLabel(p.service) && p.project + "/" + p.service in b.allowFrom
  }

  lemma {:induction false} NetworkLaw(n: Option<NetworkBlock>, d: Desired)
    requires d.ports == PortsOf(n) && d.publish == PublishOf(n) && d.allowFrom == PeersOf(n)
    ensures NetworkOf(n, d)
  {
    hide DnsLabel, ParsePeers, Lower, Trim;
    if n.Some? {
      PeersLaw(n.value.allowFrom);
    }
  }

  // ---- the record --------------------------------------------------------

  ghost predicate TaskOf(t: TaskBlock, d: Desired) {
    && d.image == t.image && d.command == t.command && d.args == t.args && d.env == t.env
    && d.registryAuthRef == t.registryAuthRef && d.pullPolicy == t.pullPolicy
    && d.readOnlyRootfs == t.readOnlyRootfs && d.devices == t.devices && d.sockets == t.sockets
    && Ascending(d.capabilities)
    && (forall c :: c in d.capabilities <==> exists k :: 0 <= k < |t.capabilities| && Stored(t.capabilities[k], c))
    && UserOf(t.user, d.user) && LimitsOf(t.resources, d.resources)
    && var pids := if t.resources.None? then 0 else Declared(t.resources.value.pids);
       d.resources.pidsLimit == if pids == 0 then 256 else pids
  }

  /** The record a service block stands for. */
  ghost predicate RecordOf(codec: DurationCodec, storages: seq<Storage>, b: ServiceBlock, d: Desired) {
    && d.project == b.project && d.service == b.name
    && d.count == (match b.count case Some(n) => n case None => 1)
    && (var h := Lower(Trim(b.hardening));
        d.hardening == if h == "compatible" then "" else if h == "restricted" then "restricted" else b.hardening)
    && |b.tasks| == 1 && TaskOf(b.tasks[0], d)
    && |d.init| == |b.inits| && (forall i :: 0 <= i < |b.inits| ==> InitOf(codec, b.inits[i], d.init[i]))
    && |d.files| == |b.files| && (forall i :: 0 <= i < |b.files| ==> FileOf(b.files[i], d.files[i]))
    && |d.volumes| == |b.volumes|
    && (forall i :: 0 <= i < |b.volumes| ==> VolumeOf(storages, b.tasks[0].user, b.volumes[i], d.volumes[i]))
    && NetworkOf(b.network, d)
    && (d.expose.None? ==> d.extraExposes == []) && RoutesOf(d.ports, b.exposes, d.AllExposes())
    && Ascending(d.dependsOn) && (forall x :: x in d.dependsOn <==> x in b.dependsOn || x in b.references)
    && CheckOf(codec, d.ports, b.healthChecks, d.check)
    && ScalingOf(b.scaling, d.scaling)
    && UpdateOf(codec, b.update, b.tasks[0].pullPolicy, d.update)
    && RestartOf(codec, b.restart, d.restart)
    && d.server == UNOWNED
  }

  /** The blocks that convert at all. */
  ghost predicate Convertible(codec: DurationCodec, storages: seq<Storage>, b: ServiceBlock) {
    && |b.tasks| == 1
    && (forall i :: 0 <= i < |b.inits| ==> !(b.inits[i].resources.Some? && b.inits[i].resources.value.pids.Some?))
    && (b.tasks[0].image != "" || b.build.Some?)
    && (forall i :: 0 <= i < |b.volumes| ==> VolumeConverts(storages, b.volumes[i]))
    && (b.restart.Some? ==> HasSchedule(codec, b.restart.value.backoff))
    && (b.update.Some? ==>
          HasDuration(codec, b.update.value.minHealthy) && HasDuration(codec, b.update.value.interval)
          && HasDuration(codec, b.update.value.deadline))
  }

  /** A block converts exactly when it can, and to the record it stands for. */
  lemma {:induction false} ConverterMeansTheBlock(codec: DurationCodec, storages: seq<Storage>, b: ServiceBlock)
    ensures var r := ConvertService(codec, storages, b);
            && (r.Ok? <==> Convertible(codec, storages, b))
            && (r.Ok? ==> RecordOf(codec, storages, b, r.value))
  {
    hide ConvertVolumes, ConvertRestart, ConvertUpdate, ConvertExposes, VolumeOf, VolumeConverts, RestartOf, UpdateOf,
         HasSchedule, HasDuration, SortUnique, NormalizeCapabilities, Lower, Trim, ConvertUser, ConvertResources,
         ConvertInit, ConvertCheck, CheckOf, InitOf, UserOf, LimitsOf, RoutesOf, NetworkOf, PortsOf, PublishOf, PeersOf,
         Stored, Ascending, FileOf, ScalingOf, ConvertFile, ConvertScaling, TaskOf, TaskPids;
    if |b.tasks| == 1 {
      var t := b.tasks[0];
      VolumesLaw(storages, t.user, b.volumes);
      RestartLaw(codec, b.restart);
      UpdateLaw(codec, b.update, t.pullPolicy);
    }
    var r := ConvertService(codec, storages, b);
    if r.Ok? {
      var d := r.value;
      TaskLaw(codec, storages, b);
      HardeningLaw(b.hardening);
      forall i | 0 <= i < |b.inits| ensures InitOf(codec, b.inits[i], d.init[i]) {
        InitLaw(codec, b.inits[i]);
      }
      forall i | 0 <= i < |b.files| ensures FileOf(b.files[i], d.files[i]) {
        FileLaw(b.files[i]);
      }
      NetworkLaw(b.network, d);
      ExposesLaw(d.ports, b.exposes);
      var routes := ConvertExposes(d.ports, b.exposes);
      assert d.AllExposes() == routes;
      DependenciesLaw(b);
      CheckLaw(codec, d.ports, b.healthChecks);
      ScalingLaw(b.scaling);
    }
  }

  lemma {:induction false} TaskLaw(codec: DurationCodec, storages: seq<Storage>, b: ServiceBlock)
    requires ConvertService(codec, storages, b).Ok?
    ensures TaskOf(b.tasks[0], ConvertService(codec, storages, b).value)
  {
    hide ConvertVolumes, ConvertRestart, ConvertUpdate, ConvertExposes, SortUnique, NormalizeCapabilities, ConvertUser,
         ConvertResources, ConvertCheck, UserOf, LimitsOf, Stored, Ascending, CanonicalHardening;
    var t := b.tasks[0];
    CapabilitiesLaw(t.capabilities);
    UserLaw(t.user);
    LimitsLaw(t.resources, TaskPids(t.resources));
  }

  lemma {:induction false} HardeningLaw(s: string)
    ensures var h := Lower(Trim(s));
            CanonicalHardening(s) == if h == "compatible" then "" else if h == "restricted" then "restricted" else s
  {
  }

  lemma {:induction false} FileLaw(f: FileBlock)
    ensures FileOf(f, ConvertFile(f))
  {
  }

  lemma {:induction false} ScalingLaw(b: Option<ScalingBlock>)
    ensures ScalingOf(b, ConvertScaling(b))
  {
  }

  /** A whole spec: every service, in order, and exactly when all of them can. */
  lemma {:induction false} SpecMeansItsServices(codec: DurationCodec, storages: seq<Storage>, bs: seq<ServiceBlock>)
    ensures var r := ConvertServices(codec, storages, bs);
            && (r.Ok? <==> forall i :: 0 <= i < |bs| ==> Convertible(codec, storages, bs[i]))
            && (r.Ok? ==> |r.value| == |bs| && forall i :: 0 <= i < |bs| ==> RecordOf(codec, storages, bs[i], r.value[i]))
  {
    hide ConvertService, Convertible, RecordOf;
    if bs != [] {
      ConverterMeansTheBlock(codec, storages, bs[0]);
      SpecMeansItsServices(codec, storages, bs[1..]);
      assert forall i :: 1 <= i < |bs| ==> bs[i] == bs[1..][i - 1];
      assert forall i :: 0 <= i < |bs[1..]| ==> bs[1..][i] == bs[i + 1];
    }
  }
}
