/**
 The agent's subnets (cmd/kanea/agent.go): what its checks on prefixes say about addresses, where a
 prefix is the block of addresses that share its leading bits (section 3.1 of RFC 4632).
 */
module Cidr {
  import opened Wrappers

  datatype Family = V4 | V6 {
    function Width(): nat {
      if V4? then 32 else 128
    }
  }

  function Pow2(n: nat): (p: nat)
    ensures p > 0
  {
    if n == 0 then 1 else 2 * Pow2(n - 1)
  }

  /** The multiple of `s` at or below `a`. */
  function Floor(a: nat, s: nat): (n: nat)
    requires s > 0
    ensures n <= a < n + s
  {
    s * (a / s)
  }

  datatype Prefix = Prefix(family: Family, address: nat, bits: nat) {
    ghost predicate Valid() {
      bits <= family.Width() && address < Pow2(family.Width())
    }

    /** How many addresses the block has. */
    function Size(): nat
      requires bits <= family.Width()
    {
      Pow2(family.Width() - bits)
    }

    /** The first address of the block. */
    function Network(): (n: nat)
      requires bits <= family.Width()
      ensures n <= address
    {
      Floor(address, Size())
    }

    function Masked(): Prefix
      requires bits <= family.Width()
    {
      Prefix(family, Network(), bits)
    }

    /** An address is in the block. */
    predicate Has(f: Family, a: nat)
      requires bits <= family.Width()
    {
      f == family && Network() <= a < Network() + Size()
    }

    /** netip's Contains: the leading bits agree. */
    predicate Contains(f: Family, a: nat)
      requires bits <= family.Width()
    {
      f == family && a / Size() == address / Size()
    }

    /** netip's Overlaps: the leading bits agree as far as the shorter prefix goes. */
    predicate Overlaps(o: Prefix)
      requires bits <= family.Width() && o.bits <= o.family.Width()
    {
      && family == o.family
      && var size := if bits < o.bits then Size() else o.Size();
         address / size == o.address / size
    }
  }

  // ---- arithmetic --------------------------------------------------------

  lemma {:induction false} Pow2Sum(a: nat, b: nat)
    ensures Pow2(a + b) == Pow2(a) * Pow2(b)
  {
    if a > 0 {
      Pow2Sum(a - 1, b);
    }
  }

  lemma {:induction false} Pow2Grows(a: nat, b: nat)
    requires a < b
    ensures Pow2(a) < Pow2(b)
  {
    if a < b - 1 {
      Pow2Grows(a, b - 1);
    }
  }

  lemma {:induction false} SameQuotientIff(a: nat, b: nat, s: nat)
    requires s > 0
    ensures a / s == b / s <==> Floor(b, s) <= a < Floor(b, s) + s
  {
    var p, q := a / s, b / s;
    assert Floor(a, s) == s * p && Floor(b, s) == s * q;
    if p < q {
      Scaled(s, p, q);
    } else if q < p {
      Scaled(s, q, p);
    }
  }

  lemma {:induction false} Scaled(s: nat, p: nat, q: nat)
    requires p < q
    ensures s * p + s <= s * q
  {
    Monotone(s, p + 1, q);
    assert s * (p + 1) == s * p + s;
  }

  lemma {:induction false} QuotientUnique(a: nat, s: nat, q: nat)
    requires s > 0 && s * q <= a < s * q + s
    ensures a / s == q
  {
    var p := a / s;
    assert Floor(a, s) == s * p;
    if p < q {
      Scaled(s, p, q);
    } else if q < p {
      Scaled(s, q, p);
    }
  }

  /** Dropping low bits twice. */
  lemma {:induction false} QuotientTwice(a: nat, s: nat, k: nat)
    requires s > 0 && k > 0
    ensures s * k > 0 && a / (s * k) == (a / s) / k
  {
    var q := a / s;
    var t := q / k;
    assert Floor(a, s) == s * q && Floor(q, k) == k * t;
    assert s * (k * t) <= s * q by {
      Monotone(s, k * t, q);
    }
    assert s * q + s <= s * (k * t + k) by {
      Scaled(s, q, k * t + k);
    }
    Regroup(s, k, t);
    QuotientUnique(a, s * k, t);
  }

  lemma {:induction false} Monotone(s: nat, p: nat, q: nat)
    requires p <= q
    ensures s * p <= s * q
  {
  }

  lemma {:induction false} Regroup(s: nat, k: nat, t: nat)
    ensures s * (k * t) == (s * k) * t
    ensures s * (k * t + k) == (s * k) * t + s * k
  {
    assert s * (k * t) == (s * k) * t;
    assert s * (k * t + k) == s * (k * t) + s * k;
  }

  // ---- prefixes as blocks ------------------------------------------------

  lemma {:induction false} ContainsIffHas(p: Prefix, f: Family, a: nat)
    requires p.Valid()
    ensures p.Contains(f, a) <==> p.Has(f, a)
  {
    SameQuotientIff(a, p.address, p.Size());
  }

  /** The block is the same one whichever of its addresses the prefix was written with. */
  lemma {:induction false} MaskedIsSameBlock(p: Prefix, f: Family, a: nat)
    requires p.Valid()
    ensures p.Masked().Valid() && (p.Masked().Has(f, a) <==> p.Has(f, a))
  {
    QuotientUnique(p.Network(), p.Size(), p.address / p.Size());
  }

  /** A longer prefix of the same family divides the shorter one's block evenly. */
  lemma {:induction false} SizesNest(short: Prefix, long: Prefix)
    requires short.Valid() && long.Valid() && short.family == long.family && short.bits <= long.bits
    ensures short.Size() == long.Size() * Pow2(long.bits - short.bits)
  {
    Pow2Sum(short.family.Width() - long.bits, long.bits - short.bits);
  }

  /** Two addresses that agree on a longer prefix agree on a shorter one. */
  lemma {:induction false} AgreeOnShorter(short: Prefix, long: Prefix, a: nat, b: nat)
    requires short.Valid() && long.Valid() && short.family == long.family && short.bits <= long.bits
    requires a / long.Size() == b / long.Size()
    ensures a / short.Size() == b / short.Size()
  {
    SizesNest(short, long);
    var k := Pow2(long.bits - short.bits);
    QuotientTwice(a, long.Size(), k);
    QuotientTwice(b, long.Size(), k);
  }

  ghost predicate ShareAddress(p: Prefix, o: Prefix)
    requires p.Valid() && o.Valid()
  {
    exists f, a :: p.Has(f, a) && o.Has(f, a)
  }

  lemma {:induction false} OwnAddress(p: Prefix)
    requires p.Valid()
    ensures p.Has(p.family, p.address)
  {
  }

  /** Overlaps is exactly having an address in common. */
  lemma {:induction false} OverlapsIffShareAddress(p: Prefix, o: Prefix)
    requires p.Valid() && o.Valid()
    ensures p.Overlaps(o) <==> ShareAddress(p, o)
  {
    if p.Overlaps(o) {
      var long, short := if p.bits < o.bits then o else p, if p.bits < o.bits then p else o;
      OwnAddress(long);
      ContainsIffHas(short, short.family, long.address);
      assert short.Has(short.family, long.address) && long.Has(short.family, long.address);
    }
    if ShareAddress(p, o) {
      var f, a :| p.Has(f, a) && o.Has(f, a);
      ContainsIffHas(p, f, a);
      ContainsIffHas(o, f, a);
      if p.bits < o.bits {
        AgreeOnShorter(p, o, a, o.address);
      } else {
        AgreeOnShorter(o, p, a, p.address);
      }
    }
  }

  ghost predicate Within(p: Prefix, o: Prefix)
    requires p.Valid() && o.Valid()
  {
    forall f, a :: p.Has(f, a) ==> o.Has(f, a)
  }

  /** The agent's containment test is exactly inclusion of the blocks. */
  lemma {:induction false} WithinIff(p: Prefix, o: Prefix)
    requires p.Valid() && o.Valid() && p.family == o.family
    ensures o.Contains(p.family, p.address) && p.bits >= o.bits <==> Within(p, o)
  {
    ContainsIffHas(o, p.family, p.address);
    if o.Contains(p.family, p.address) && p.bits >= o.bits {
      forall f, a | p.Has(f, a) ensures o.Has(f, a) {
        ContainsIffHas(p, f, a);
        AgreeOnShorter(o, p, a, p.address);
        ContainsIffHas(o, f, a);
      }
    }
    if Within(p, o) {
      OwnAddress(p);
      assert p.Has(p.family, p.Network()) && p.Has(p.family, p.Network() + p.Size() - 1);
      if p.bits < o.bits {
        Pow2Grows(o.family.Width() - o.bits, p.family.Width() - p.bits);
        assert false;
      }
    }
  }

  /** The resolver's address, the block's first plus one, is in the block unless the block is one address. */
  lemma {:induction false} ResolverAddressIff(p: Prefix)
    requires p.Valid()
    ensures p.Has(p.family, p.Network() + 1) <==> p.bits < p.family.Width()
  {
    if p.bits < p.family.Width() {
      Pow2Grows(0, p.family.Width() - p.bits);
    }
  }

  // ---- validation --------------------------------------------------------

  /** A flag's text, as parsed: not a CIDR, or a prefix, an IPv4-mapped IPv6 one included. */
  datatype Flag = Empty | Malformed | Parsed(prefix: Prefix, mapped: bool)

  datatype Error = NotACidr | WrongFamily | NotWithinCluster | OverlapsService | NotATrio

  datatype Trio = Ranges(node: Prefix, cluster: Prefix, service: Prefix)

  datatype Subnets = Subnets(v4: Trio, v6: Option<Trio>)

  predicate Accepts(f: Flag, family: Family) {
    f.Parsed? && f.prefix.family == family && (family == V6 ==> !f.mapped)
  }

  /** One family's three flags. */
  datatype Flags = Flags(node: Flag, cluster: Flag, service: Flag) {
    ghost predicate Valid() {
      && (node.Parsed? ==> node.prefix.Valid())
      && (cluster.Parsed? ==> cluster.prefix.Valid())
      && (service.Parsed? ==> service.prefix.Valid())
    }

    predicate Accepted(family: Family) {
      Accepts(node, family) && Accepts(cluster, family) && Accepts(service, family)
    }

    predicate Empty() {
      node.Empty? && cluster.Empty? && service.Empty?
    }

    ghost function Trio(family: Family): Trio
      requires Valid() && Accepted(family)
    {
      Ranges(node.prefix.Masked(), cluster.prefix.Masked(), service.prefix.Masked())
    }
  }

  /** What the three ranges of one family have to be to each other, address by address. */
  ghost predicate Sound(t: Trio) {
    && t.node.Valid() && t.cluster.Valid() && t.service.Valid()
    && Within(t.node, t.cluster)
    && !ShareAddress(t.node, t.service) && !ShareAddress(t.cluster, t.service)
  }

  /** The parsed prefixes, in order; fails at the first flag that is not one of this family. */
  method ParseFamily(flags: seq<Flag>, family: Family) returns (r: Result<seq<Prefix>, Error>)
    ensures r.Ok? <==> forall i :: 0 <= i < |flags| ==>
              flags[i].Parsed? && flags[i].prefix.family == family && !(family == V6 && flags[i].mapped)
    ensures r.Ok? <==> forall i :: 0 <= i < |flags| ==> Accepts(flags[i], family)
    ensures r.Ok? ==> |r.value| == |flags| && forall i :: 0 <= i < |flags| ==> r.value[i] == flags[i].prefix
    ensures r.Err? ==> r.error == NotACidr || r.error == WrongFamily
  {
    var out: seq<Prefix> := [];
    for i := 0 to |flags|
      invariant |out| == i
      invariant forall k :: 0 <= k < i ==> Accepts(flags[k], family) && out[k] == flags[k].prefix
    {
      match flags[i] {
        case Parsed(prefix, mapped) =>
          if prefix.family != family || (family == V6 && mapped) {
            return Err(WrongFamily);
          }
          out := out + [prefix];
        case _ =>
          return Err(NotACidr);
      }
    }
    return Ok(out);
  }

  method CheckFamily(flags: Flags, family: Family) returns (r: Result<Trio, Error>)
    requires flags.Valid()
    ensures r.Ok? <==> flags.Accepted(family) && Sound(flags.Trio(family))
    ensures r.Ok? ==> r.value == flags.Trio(family)
    ensures r == Err(NotACidr) || r == Err(WrongFamily) <==> !flags.Accepted(family)
    ensures r == Err(NotWithinCluster) <==>
              flags.Accepted(family) && !Within(flags.Trio(family).node, flags.Trio(family).cluster)
  {
    var given := [flags.node, flags.cluster, flags.service];
    var parsed := ParseFamily(given, family);
    assert flags.node == given[0] && flags.cluster == given[1] && flags.service == given[2];
    if parsed.Err? {
      return Err(parsed.error);
    }
    assert flags.Accepted(family);
    var node, cluster, service := parsed.value[0].Masked(), parsed.value[1].Masked(), parsed.value[2].Masked();
    MaskedIsSameBlock(flags.node.prefix, V4, 0);
    MaskedIsSameBlock(flags.cluster.prefix, V4, 0);
    MaskedIsSameBlock(flags.service.prefix, V4, 0);
    WithinIff(node, cluster);
    OverlapsIffShareAddress(node, service);
    OverlapsIffShareAddress(cluster, service);
    if !cluster.Contains(node.family, node.address) || node.bits < cluster.bits {
      return Err(NotWithinCluster);
    }
    if node.Overlaps(service) || cluster.Overlaps(service) {
      return Err(OverlapsService);
    }
    return Ok(Ranges(node, cluster, service));
  }

  /** IPv4 always, IPv6 as a trio or not at all. */
  method ParseAgentCidrs(v4: Flags, v6: Flags) returns (r: Result<Subnets, Error>)
    requires v4.Valid() && v6.Valid()
    ensures r.Ok? <==>
              && v4.Accepted(V4) && Sound(v4.Trio(V4))
              && (v6.Empty() || (v6.Accepted(V6) && Sound(v6.Trio(V6))))
    ensures r.Ok? ==> r.value == Subnets(v4.Trio(V4), if v6.Empty() then None else Some(v6.Trio(V6)))
  {
    hide Sound;
    var first := CheckFamily(v4, V4);
    if first.Err? {
      return Err(first.error);
    }
    var given := (if v6.node.Empty? then 0 else 1) + (if v6.cluster.Empty? then 0 else 1) + (if v6.service.Empty? then 0 else 1);
    if given == 0 {
      return Ok(Subnets(first.value, None));
    }
    if given != 3 {
      return Err(NotATrio);
    }
    var second := CheckFamily(v6, V6);
    if second.Err? {
      return Err(second.error);
    }
    return Ok(Subnets(first.value, Some(second.value)));
  }

  // ---- the families ------------------------------------------------------

  /** How wide each family's addresses are. */
  lemma {:induction false} FamilyLaw(p: Prefix)
    ensures p.family == V4 ==> (p.Valid() <==> p.bits <= 32 && p.address < 0x1_0000_0000)
    ensures p.family == V6 ==> (p.Valid() <==> p.bits <= 128 && p.address < 0x1_0000_0000 * 0x1_0000_0000 * 0x1_0000_0000 * 0x1_0000_0000)
    ensures p.Valid() ==> p.Size() * Pow2(p.bits) == Pow2(p.family.Width())
  {
    Pow2Of32();
    Pow2Sum(32, 32);
    Pow2Sum(64, 64);
    if p.Valid() {
      Pow2Sum(p.family.Width() - p.bits, p.bits);
    }
  }

  lemma {:induction false} Pow2Of32()
    ensures Pow2(32) == 0x1_0000_0000
  {
    Pow2Sum(16, 16);
    Pow2Sum(8, 8);
    assert Pow2(8) == 256 by {
      assert Pow2(4) == 16;
    }
  }

  /** What a flag has to be: a prefix of the family asked for, and not an IPv4 one in IPv6 clothes. */
  lemma {:induction false} AcceptedFlag(f: Flag)
    ensures Accepts(f, V4) <==> f.Parsed? && f.prefix.family == V4
    ensures Accepts(f, V6) <==> f.Parsed? && f.prefix.family == V6 && !f.mapped
  {
  }
}
