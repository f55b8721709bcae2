/**
 The round trip on services that declare next to nothing: its assumptions are met, the smallest one comes
 back, and two do not.
 */
module RoundTripExample {
  import opened Wrappers
  import opened Text
  import opened Numerals
  import opened JobSpec
  import opened Convert
  import opened Generate
  import opened SpecFields
  import opened RoundTrip

  /** Durations in decimal. */
  function Spell(d: int): string {
    if d < 0 then "-" + Digits(10, -d) else Digits(10, d)
  }

  function Read(s: string): Option<int> {
    if s == "" || s == "-" then None
    else if s[0] == '-' then
      var magnitude: int := if AllDigits(10, s[1..]) then Value(10, s[1..]) else 0;
      if AllDigits(10, s[1..]) then Some(-magnitude) else None
    else if AllDigits(10, s) then Some(Value(10, s))
    else None
  }

  const DECIMAL := DurationCodec(Spell, Read)

  lemma {:induction false} SpelledReadsBack(d: int)
    ensures Read(Spell(d)) == Some(d) && Spell(d) != "" && ',' !in Spell(d) && Trimmed(Spell(d))
  {
    var n := if d < 0 then -d else d;
    var digits := Digits(10, n);
    ValueOfDigits(10, n);
    assert forall i :: 0 <= i < |digits| ==> IsDigit(10, digits[i]);
    assert ("-" + digits)[1..] == digits;
    assert digits[0] != '-';
  }

  lemma {:induction false} DecimalIsFaithful()
    ensures Faithful(DECIMAL)
  {
    forall d ensures Read(Spell(d)) == Some(d) && Spell(d) != "" && ',' !in Spell(d) && Trimmed(Spell(d)) {
      SpelledReadsBack(d);
    }
  }

  /** A service that declares an image, limits or a build, and nothing else. */
  function Bare(
    project: string, service: string, image: string, resources: Option<ResourcesBlock>, build: Option<Build>): ServiceBlock
  {
    ServiceBlock(
      service, project, None, "", [], [], build, [],
      [TaskBlock(image, [], [], [], map[], resources, None, "", "", false, [], [])],
      [], None, [], [], [], None, None, None)
  }

  lemma {:induction false} BareConverts(
    codec: DurationCodec, project: string, service: string, image: string, resources: Option<ResourcesBlock>, build: Option<Build>)
    requires (image != "" || build.Some?) && DeclaredPids(resources) >= 0
    ensures Validated(codec, Bare(project, service, image, resources, build))
    ensures var r := ConvertService(codec, [], Bare(project, service, image, resources, build));
            && r.Ok? && r.value.image == image && r.value.volumes == [] && r.value.files == []
            && r.value.init == [] && r.value.expose == None && r.value.extraExposes == []
            && r.value.resources == ConvertResources(resources, TaskPids(resources))
  {
    hide NormalizeCapabilities, CanonicalHardening, SortUnique, ConvertResources, TaskPids;
  }

  /** Generated without a pipeline, such a service comes back exactly when it has an image and no negative limit. */
  lemma {:induction false} BareIsReproducedIff(
    codec: DurationCodec, project: string, service: string, image: string, resources: Option<ResourcesBlock>, build: Option<Build>)
    requires Faithful(codec) && (image != "" || build.Some?) && DeclaredPids(resources) >= 0
    ensures var spec := Spec([project], [], [Bare(project, service, image, resources, build)]);
            var ds := ToDesired(codec, spec);
            && ds.Ok? && |ds.value| == 1
            && ToSpec(codec, ds.value, []).Ok?
            && (ToDesired(codec, ToSpec(codec, ds.value, []).value) == ds <==>
                  image != "" && LimitsSurvive(ConvertResources(resources, TaskPids(resources))))
  {
    hide ConvertService, Validated, Faithful, Converted, ToSpec, Reproducible, Bare, ConvertResources, TaskPids, LimitsSurvive;
    var b := Bare(project, service, image, resources, build);
    var spec := Spec([project], [], [b]);
    BareConverts(codec, project, service, image, resources, build);
    var d := ConvertService(codec, [], b).value;
    OneServiceConverts(codec, b, d);
    assert forall i :: 0 <= i < |spec.services| ==> Validated(codec, spec.services[i]);
    SpecConverted(codec, [], spec.services);
    assert Notified(ProjectNames([d], []), []).None? by {
      NobodyNotified(ProjectNames([d], []));
    }
    assert [d][1..] == [];
    assert AllVolumes([d]) == [];
    GeneratorRefusesOnly(codec, [d], []);
    BareReproducible(d);
    assert BuildOf([], d) == None;
    assert AllReproducible([d], []) <==> Reproducible([d][0], None);
    RegeneratedSpecMeansTheSame(codec, spec, []);
  }

  /** A service that declares only its image comes back. */
  lemma {:induction false} SmallestIsReproduced(codec: DurationCodec, project: string, service: string, image: string)
    requires Faithful(codec) && image != ""
    ensures var spec := Spec([project], [], [Bare(project, service, image, None, None)]);
            var ds := ToDesired(codec, spec);
            && ds.Ok? && |ds.value| == 1
            && ToSpec(codec, ds.value, []).Ok?
            && ToDesired(codec, ToSpec(codec, ds.value, []).value) == ds
  {
    hide ToDesired, ToSpec, Faithful, Bare;
    BareIsReproducedIff(codec, project, service, image, None, None);
  }

  /** 2^43 MiB is 2^63 bytes, one more than an int64 holds: the limit converts to a negative one and is dropped. */
  const WRAPPING_MEMORY := ResourcesBlock(None, Some(0x800_0000_0000), None)

  lemma {:induction false} WrappedMemoryIsLost(codec: DurationCodec, project: string, service: string, image: string)
    requires Faithful(codec) && image != ""
    ensures ConvertResources(Some(WRAPPING_MEMORY), TaskPids(Some(WRAPPING_MEMORY))).memoryBytes == -INT64_MAX - 1
    ensures var spec := Spec([project], [], [Bare(project, service, image, Some(WRAPPING_MEMORY), None)]);
            var ds := ToDesired(codec, spec);
            ds.Ok? && ToSpec(codec, ds.value, []).Ok? && ToDesired(codec, ToSpec(codec, ds.value, []).value) != ds
  {
    hide ToDesired, ToSpec, Faithful, Bare;
    BareIsReproducedIff(codec, project, service, image, Some(WRAPPING_MEMORY), None);
  }

  /** A service built by its pipeline, generated when the pipeline no longer builds it. */
  lemma {:induction false} ImagelessIsLost(codec: DurationCodec, project: string, service: string, build: Build)
    requires Faithful(codec)
    ensures var spec := Spec([project], [], [Bare(project, service, "", None, Some(build))]);
            var ds := ToDesired(codec, spec);
            ds.Ok? && ToSpec(codec, ds.value, []).Ok? && ToDesired(codec, ToSpec(codec, ds.value, []).value) != ds
  {
    hide ToDesired, ToSpec, Faithful, Bare;
    BareIsReproducedIff(codec, project, service, "", None, Some(build));
  }

  lemma {:induction false} OneServiceConverts(codec: DurationCodec, b: ServiceBlock, d: Desired)
    requires ConvertService(codec, [], b) == Ok(d)
    ensures ConvertServices(codec, [], [b]) == Ok([d])
  {
    hide ConvertService;
    var bs := [b];
    assert bs[1..] == [] && ConvertServices(codec, [], bs[1..]) == Ok([]);
    assert bs[0] == b;
    assert [d] + [] == [d];
  }

  lemma {:induction false} NobodyNotified(names: seq<string>)
    ensures Notified(names, []).None?
  {
    if names != [] {
      NobodyNotified(names[1..]);
    }
  }

  lemma {:induction false} BareReproducible(d: Desired)
    requires d.volumes == [] && d.init == [] && d.expose == None
    ensures Reproducible(d, None) <==> d.image != "" && LimitsSurvive(d.resources)
  {
  }
}
