/**
 The certificate pass (cmd/kanea/certs.go): every source is run in turn, what it returns is reported and
 published, and a source that cannot run leaves what it last published in place.
 */
module CertPass {
  import opened Wrappers
  import opened AcmeSync

  datatype Mode = Mode(name: string)

  datatype Event = CertIssued(name: string) | CertRenewed(name: string) | CertFailed(name: string)

  /** What a source returned: nothing at all, or certificates and the primary names that failed. */
  datatype Answer = Unavailable | Ensured(certificates: seq<Certificate>, failures: seq<string>)

  /** One source in one pass; `accepted` is whether the publisher took its set. */
  datatype Turn = Turn(mode: Mode, answer: Answer, accepted: bool)

  /** The API listener's own certificate rides along under one mode. */
  datatype Listener = Listener(mode: Mode, domains: seq<string>)

  // ---- reporting ---------------------------------------------------------

  /** When a name was last sighted with a certificate, and issued when. */
  function LastSighting(sightings: seq<Certificate>, name: string): Option<int> {
    if sightings == [] then None
    else
      var c := sightings[|sightings| - 1];
      if c.domains != [] && c.Key() == name then Some(c.issuedAt)
      else LastSighting(sightings[..|sightings| - 1], name)
  }

  /** What sighting `c` after `earlier` is worth saying. */
  function Verdict(earlier: seq<Certificate>, c: Certificate): seq<Event> {
    if c.domains == [] then []
    else
      match LastSighting(earlier, c.Key())
      case None => [CertIssued(c.Key())]
      case Some(at) => if c.issuedAt > at then [CertRenewed(c.Key())] else []
  }

  /** Everything said about a history of sightings. */
  function Report(sightings: seq<Certificate>): seq<Event> {
    if sightings == [] then []
    else
      var earlier := sightings[..|sightings| - 1];
      Report(earlier) + Verdict(earlier, sightings[|sightings| - 1])
  }

  /** The map the daemon keeps: each name's last issue time. */
  ghost predicate Remembers(seen: map<string, int>, sightings: seq<Certificate>) {
    forall name :: (if name in seen then Some(seen[name]) else None) == LastSighting(sightings, name)
  }

  /** One more sighting, against the map. */
  lemma {:induction false} SightingCounts(seen: map<string, int>, before: seq<Certificate>, c: Certificate)
    requires Remembers(seen, before)
    ensures Report(before + [c]) == Report(before) + Verdict(before, c)
    ensures if c.domains == [] then Remembers(seen, before + [c]) && Verdict(before, c) == []
            else
              && Remembers(seen[c.domains[0] := c.issuedAt], before + [c])
              && Verdict(before, c) == if c.domains[0] !in seen then [CertIssued(c.domains[0])]
                                       else if c.issuedAt > seen[c.domains[0]] then [CertRenewed(c.domains[0])]
                                       else []
  {
    var after := before + [c];
    assert after[..|before|] == before && after[|before|] == c;
    forall name ensures LastSighting(after, name) == if c.domains != [] && c.Key() == name then Some(c.issuedAt) else LastSighting(before, name) {
    }
  }

  function CountIssued(events: seq<Event>, name: string): nat {
    if events == [] then 0
    else CountIssued(events[..|events| - 1], name) + if events[|events| - 1] == CertIssued(name) then 1 else 0
  }

  lemma {:induction false} CountIssuedAppend(events: seq<Event>, e: Event, name: string)
    ensures CountIssued(events + [e], name) == CountIssued(events, name) + if e == CertIssued(name) then 1 else 0
  {
    assert (events + [e])[..|events|] == events;
  }

  /** Over any history a name is reported issued once, when first sighted. */
  lemma {:induction false} IssuedOnce(sightings: seq<Certificate>, name: string)
    ensures CountIssued(Report(sightings), name) == if LastSighting(sightings, name).Some? then 1 else 0
  {
    if sightings != [] {
      var earlier, c := sightings[..|sightings| - 1], sightings[|sightings| - 1];
      IssuedOnce(earlier, name);
      var v := Verdict(earlier, c);
      if v != [] {
        assert v == [v[0]];
        CountIssuedAppend(Report(earlier), v[0], name);
      } else {
        assert Report(earlier) + v == Report(earlier);
      }
    }
  }

  // ---- listener or bundle ------------------------------------------------

  predicate ForListener(listener: Option<Listener>, mode: Mode, c: Certificate) {
    listener.Some? && listener.value.mode == mode && c.Covers(listener.value.domains)
  }

  function Bundled(listener: Option<Listener>, mode: Mode, cs: seq<Certificate>): seq<Certificate> {
    if cs == [] then []
    else
      var c := cs[|cs| - 1];
      Bundled(listener, mode, cs[..|cs| - 1]) + if ForListener(listener, mode, c) then [] else [c]
  }

  function Delivered(listener: Option<Listener>, mode: Mode, cs: seq<Certificate>): seq<Certificate> {
    if cs == [] then []
    else
      var c := cs[|cs| - 1];
      Delivered(listener, mode, cs[..|cs| - 1]) + if ForListener(listener, mode, c) then [c] else []
  }

  /** Every returned certificate goes to exactly one place. */
  lemma {:induction false} EachGoesToOnePlace(listener: Option<Listener>, mode: Mode, cs: seq<Certificate>)
    ensures multiset(cs) == multiset(Bundled(listener, mode, cs)) + multiset(Delivered(listener, mode, cs))
    ensures forall c :: c in Bundled(listener, mode, cs) ==>
              !(listener.Some? && listener.value.mode == mode && c.domains == listener.value.domains)
    ensures forall c :: c in Delivered(listener, mode, cs) ==>
              listener.Some? && listener.value.mode == mode && c.domains == listener.value.domains
  {
    hide Bundled, Delivered;
    NoneAreLost(listener, mode, cs);
    BundledAreBundled(listener, mode, cs);
    DeliveredAreDelivered(listener, mode, cs);
  }

  lemma {:induction false} NoneAreLost(listener: Option<Listener>, mode: Mode, cs: seq<Certificate>)
    ensures multiset(cs) == multiset(Bundled(listener, mode, cs)) + multiset(Delivered(listener, mode, cs))
  {
    hide ForListener;
    if cs != [] {
      var front, c := cs[..|cs| - 1], cs[|cs| - 1];
      var bundled, delivered := Bundled(listener, mode, front), Delivered(listener, mode, front);
      NoneAreLost(listener, mode, front);
      assert cs == front + [c];
      if ForListener(listener, mode, c) {
        assert Bundled(listener, mode, cs) == bundled && Delivered(listener, mode, cs) == delivered + [c];
      } else {
        assert Bundled(listener, mode, cs) == bundled + [c] && Delivered(listener, mode, cs) == delivered;
      }
      hide Bundled, Delivered;
    }
  }

  lemma {:induction false} BundledAreBundled(listener: Option<Listener>, mode: Mode, cs: seq<Certificate>)
    ensures forall c :: c in Bundled(listener, mode, cs) ==> !ForListener(listener, mode, c)
  {
    hide ForListener;
    if cs != [] {
      BundledAreBundled(listener, mode, cs[..|cs| - 1]);
    }
  }

  lemma {:induction false} DeliveredAreDelivered(listener: Option<Listener>, mode: Mode, cs: seq<Certificate>)
    ensures forall c :: c in Delivered(listener, mode, cs) ==> ForListener(listener, mode, c)
  {
    hide ForListener;
    if cs != [] {
      DeliveredAreDelivered(listener, mode, cs[..|cs| - 1]);
    }
  }

  // ---- the pass ----------------------------------------------------------

  /** The certificates a turn looks at. */
  function Looked(t: Turn): seq<Certificate> {
    if t.answer.Ensured? then t.answer.certificates else []
  }

  /** What it hands the listener. */
  function Handed(listener: Option<Listener>, t: Turn): seq<Certificate> {
    if t.answer.Ensured? then Delivered(listener, t.mode, t.answer.certificates) else []
  }

  /** The failures it reports. */
  function Said(t: Turn): seq<Event> {
    if t.answer.Unavailable? then [CertFailed("")] else AsFailures(t.answer.failures)
  }

  function AsFailures(names: seq<string>): seq<Event> {
    Map(name => CertFailed(name), names)
  }

  /** Its effect on the published sets, when the publisher accepts. */
  function Publish(published: map<Mode, seq<Certificate>>, listener: Option<Listener>, t: Turn): map<Mode, seq<Certificate>> {
    if t.answer.Unavailable? then published
    else published[t.mode := Bundled(listener, t.mode, t.answer.certificates)]
  }

  function Sighted(turns: seq<Turn>): seq<Certificate> {
    if turns == [] then [] else Sighted(turns[..|turns| - 1]) + Looked(turns[|turns| - 1])
  }

  function DeliveredBy(listener: Option<Listener>, turns: seq<Turn>): seq<Certificate> {
    if turns == [] then [] else DeliveredBy(listener, turns[..|turns| - 1]) + Handed(listener, turns[|turns| - 1])
  }

  function FailuresOf(turns: seq<Turn>): seq<Event> {
    if turns == [] then [] else FailuresOf(turns[..|turns| - 1]) + Said(turns[|turns| - 1])
  }

  function Published(published: map<Mode, seq<Certificate>>, listener: Option<Listener>, turns: seq<Turn>): map<Mode, seq<Certificate>> {
    if turns == [] then published
    else Publish(Published(published, listener, turns[..|turns| - 1]), listener, turns[|turns| - 1])
  }

  predicate Troubled(t: Turn) {
    t.answer.Unavailable? || t.answer.failures != []
  }

  /** How many turns complete before a publication is refused, which ends the pass. */
  function Completed(turns: seq<Turn>): (n: nat)
    ensures n <= |turns|
    ensures forall i :: 0 <= i < n ==> turns[i].answer.Unavailable? || turns[i].accepted
    ensures n < |turns| ==> turns[n].answer.Ensured? && !turns[n].accepted
  {
    if turns == [] || (turns[0].answer.Ensured? && !turns[0].accepted) then 0 else 1 + Completed(turns[1..])
  }

  /** The turns that were begun. */
  function Begun(turns: seq<Turn>): nat {
    if Completed(turns) < |turns| then Completed(turns) + 1 else |turns|
  }

  /** The events of one kind, in order. */
  function Select(events: seq<Event>, failed: bool): seq<Event> {
    if events == [] then []
    else Select(events[..|events| - 1], failed) + if events[|events| - 1].CertFailed? == failed then [events[|events| - 1]] else []
  }

  lemma {:induction false} SelectAppend(events: seq<Event>, e: Event, failed: bool)
    ensures Select(events + [e], failed) == Select(events, failed) + if e.CertFailed? == failed then [e] else []
  {
    assert (events + [e])[..|events|] == events;
  }

  class Certificates {
    const listener: Option<Listener>
    var seen: map<string, int>
    var published: map<Mode, seq<Certificate>>
    var delivered: seq<Certificate>
    var events: seq<Event>
    ghost var sightings: seq<Certificate>  // every certificate reported on so far

    /** The map remembers the history, and what was said about it is what it is worth saying. */
    ghost predicate Valid()
      reads this`seen, this`events, this`sightings
    {
      Remembers(seen, sightings) && Select(events, false) == Report(sightings)
    }

    constructor (listener: Option<Listener>)
      ensures Valid() && sightings == [] && events == [] && published == map[] && delivered == []
      ensures this.listener == listener
    {
      this.listener, seen, published, delivered, events, sightings := listener, map[], map[], [], [], [];
    }

    /** Reports each certificate against the last sighting of its name. */
    method EmitChanges(cs: seq<Certificate>)
      requires Valid()
      modifies this`seen, this`events, this`sightings
      ensures Valid() && sightings == old(sightings) + cs
      ensures Select(events, true) == Select(old(events), true)
    {
      hide Valid, Select;
      assert cs[..0] == [];
      for i := 0 to |cs|
        invariant Valid() && sightings == old(sightings) + cs[..i]
        invariant Select(events, true) == Select(old(events), true)
      {
        EmitChange(cs[i]);
        assert cs[..i + 1] == cs[..i] + [cs[i]];
      }
    }

    method EmitChange(c: Certificate)
      requires Valid()
      modifies this`seen, this`events, this`sightings
      ensures Valid() && sightings == old(sightings) + [c]
      ensures Select(events, true) == Select(old(events), true)
    {
      hide Select, Report, LastSighting, Verdict, Remembers;
      ghost var before := sightings;
      sightings := sightings + [c];
      SightingCounts(seen, before, c);
      if |c.domains| == 0 {
        assert Report(before) + [] == Report(before);
        return;
      }
      var primary := c.domains[0];
      var known := primary in seen;
      var settled := known && c.issuedAt <= seen[primary];
      seen := seen[primary := c.issuedAt];
      if settled {
        assert Report(before) + [] == Report(before);
        return;
      }
      var event := if known then CertRenewed(primary) else CertIssued(primary);
      SelectAppend(events, event, true);
      SelectAppend(events, event, false);
      events := events + [event];
      assert Select(old(events), true) + [] == Select(old(events), true);
    }

    method Fail(name: string)
      requires Valid()
      modifies this`events
      ensures Valid() && Select(events, true) == Select(old(events), true) + [CertFailed(name)]
    {
      SelectAppend(events, CertFailed(name), true);
      SelectAppend(events, CertFailed(name), false);
      events := events + [CertFailed(name)];
    }

    method FailEach(names: seq<string>)
      requires Valid()
      modifies this`events
      ensures Valid() && Select(events, true) == Select(old(events), true) + AsFailures(names)
    {
      hide Valid, Select;
      assert AsFailures(names[..0]) == [];
      for i := 0 to |names|
        invariant Valid() && Select(events, true) == Select(old(events), true) + AsFailures(names[..i])
      {
        Fail(names[i]);
        assert AsFailures(names[..i + 1]) == AsFailures(names[..i]) + [CertFailed(names[i])];
      }
      assert names[..|names|] == names;
    }

    /** Hands the listener its own certificate and keeps it out of the bundle. */
    method Sort(mode: Mode, cs: seq<Certificate>) returns (bundle: seq<Certificate>)
      modifies this`delivered
      ensures bundle == Bundled(listener, mode, cs)
      ensures delivered == old(delivered) + Delivered(listener, mode, cs)
    {
      bundle := [];
      for i := 0 to |cs|
        invariant bundle == Bundled(listener, mode, cs[..i])
        invariant delivered == old(delivered) + Delivered(listener, mode, cs[..i])
      {
        assert cs[..i + 1][..i] == cs[..i];
        if listener.Some? && mode == listener.value.mode && cs[i].Covers(listener.value.domains) {
          delivered := delivered + [cs[i]];
          continue;
        }
        bundle := bundle + [cs[i]];
      }
      assert cs[..|cs|] == cs;
    }

    /** One source's turn; `ok` if nothing failed, `stop` if its publication was refused. */
    method TakeTurn(t: Turn) returns (ok: bool, stop: bool)
      requires Valid()
      modifies this
      ensures Valid()
      ensures sightings == old(sightings) + Looked(t)
      ensures Select(events, true) == Select(old(events), true) + Said(t)
      ensures delivered == old(delivered) + Handed(listener, t)
      ensures stop <==> t.answer.Ensured? && !t.accepted
      ensures published == if stop then old(published) else Publish(old(published), listener, t)
      ensures ok <==> !Troubled(t)
    {
      hide Valid, Select;
      if t.answer.Unavailable? {
        Fail("");
        return false, false;
      }
      FailEach(t.answer.failures);
      EmitChanges(t.answer.certificates);
      var bundle := Sort(t.mode, t.answer.certificates);
      if t.accepted {
        published := published[t.mode := bundle];
      }
      return |t.answer.failures| == 0, !t.accepted;
    }

    /** One pass over the sources. */
    method Sync(turns: seq<Turn>) returns (ok: bool)
      requires Valid()
      modifies this
      ensures Valid()
      ensures var begun := turns[..Begun(turns)];
              && sightings == old(sightings) + Sighted(begun)
              && Select(events, true) == Select(old(events), true) + FailuresOf(begun)
              && delivered == old(delivered) + DeliveredBy(listener, begun)
      ensures published == Published(old(published), listener, turns[..Completed(turns)])
      ensures ok <==> Completed(turns) == |turns| && forall i :: 0 <= i < |turns| ==> !Troubled(turns[i])
    {
      hide Valid, Completed, Select, Troubled, Looked, Said, Handed, Publish, Sighted, FailuresOf, DeliveredBy, Published;
      NoTurns(published, listener);
      assert turns[..0] == [];
      ok := true;
      for i := 0 to |turns|
        invariant Valid() && i <= Completed(turns)
        invariant sightings == old(sightings) + Sighted(turns[..i])
        invariant Select(events, true) == Select(old(events), true) + FailuresOf(turns[..i])
        invariant delivered == old(delivered) + DeliveredBy(listener, turns[..i])
        invariant published == Published(old(published), listener, turns[..i])
        invariant ok <==> forall k :: 0 <= k < i ==> !Troubled(turns[k])
      {
        NextTurn(old(published), listener, turns, i);
        var fine, stop := TakeTurn(turns[i]);
        if stop {
          assert Completed(turns) == i;
          return false;
        }
        ok := ok && fine;
      }
      assert turns[..|turns|] == turns;
    }
  }

  lemma {:induction false} NoTurns(published: map<Mode, seq<Certificate>>, listener: Option<Listener>)
    ensures Sighted([]) == [] && FailuresOf([]) == [] && DeliveredBy(listener, []) == []
    ensures Published(published, listener, []) == published
  {
  }

  lemma {:induction false} NextTurn(published: map<Mode, seq<Certificate>>, listener: Option<Listener>, turns: seq<Turn>, i: nat)
    requires i < |turns|
    ensures Sighted(turns[..i + 1]) == Sighted(turns[..i]) + Looked(turns[i])
    ensures FailuresOf(turns[..i + 1]) == FailuresOf(turns[..i]) + Said(turns[i])
    ensures DeliveredBy(listener, turns[..i + 1]) == DeliveredBy(listener, turns[..i]) + Handed(listener, turns[i])
    ensures Published(published, listener, turns[..i + 1]) == Publish(Published(published, listener, turns[..i]), listener, turns[i])
  {
    hide Looked, Said, Handed, Publish;
    assert turns[..i + 1][..i] == turns[..i];
  }

  // ---- what a pass means for each source ---------------------------------

  ghost predicate DistinctModes(turns: seq<Turn>) {
    forall i, j :: 0 <= i < j < |turns| ==> turns[i].mode != turns[j].mode
  }

  function SetOf(published: map<Mode, seq<Certificate>>, mode: Mode): Option<seq<Certificate>> {
    if mode in published then Some(published[mode]) else None
  }

  /**
   With publication succeeding, a source that cannot run keeps the set it last published, and every other
   source publishes what it returned, less what went to the listener.
   */
  lemma {:induction false} FailureStaysLocal(
    published: map<Mode, seq<Certificate>>, listener: Option<Listener>, turns: seq<Turn>, i: nat)
    requires DistinctModes(turns) && i < |turns|
    ensures SetOf(Published(published, listener, turns), turns[i].mode)
         == if turns[i].answer.Unavailable? then SetOf(published, turns[i].mode)
            else Some(Bundled(listener, turns[i].mode, turns[i].answer.certificates))
  {
    hide Bundled;
    var last := |turns| - 1;
    if i < last {
      FailureStaysLocal(published, listener, turns[..last], i);
    } else {
      OthersLeaveAlone(published, listener, turns[..last], turns[i].mode);
    }
  }

  lemma {:induction false} OthersLeaveAlone(
    published: map<Mode, seq<Certificate>>, listener: Option<Listener>, turns: seq<Turn>, mode: Mode)
    requires forall i :: 0 <= i < |turns| ==> turns[i].mode != mode
    ensures SetOf(Published(published, listener, turns), mode) == SetOf(published, mode)
  {
    hide Bundled;
    if turns != [] {
      OthersLeaveAlone(published, listener, turns[..|turns| - 1], mode);
    }
  }

  // ---- sightings by position ---------------------------------------------

  /** The last place before `k` where a name was sighted. */
  ghost predicate LastBefore(sightings: seq<Certificate>, name: string, k: nat, j: nat) {
    && j < k <= |sightings| && sightings[j].domains != [] && sightings[j].domains[0] == name
    && forall i :: j < i < k ==> !(sightings[i].domains != [] && sightings[i].domains[0] == name)
  }

  ghost predicate NeverBefore(sightings: seq<Certificate>, name: string, k: nat) {
    k <= |sightings| && forall i :: 0 <= i < k ==> !(sightings[i].domains != [] && sightings[i].domains[0] == name)
  }

  lemma {:induction false} LastSightingLaw(sightings: seq<Certificate>, name: string, k: nat)
    requires k <= |sightings|
    ensures match LastSighting(sightings[..k], name)
            case Some(at) => exists j: nat :: LastBefore(sightings, name, k, j) && sightings[j].issuedAt == at
            case None => NeverBefore(sightings, name, k)
  {
    if k > 0 {
      assert sightings[..k][..k - 1] == sightings[..k - 1];
      LastSightingLaw(sightings, name, k - 1);
      if sightings[k - 1].domains != [] && sightings[k - 1].domains[0] == name {
        assert LastBefore(sightings, name, k, k - 1);
      } else if LastSighting(sightings[..k - 1], name).Some? {
        var j: nat :| LastBefore(sightings, name, k - 1, j) && sightings[j].issuedAt == LastSighting(sightings[..k - 1], name).value;
        assert LastBefore(sightings, name, k, j);
      }
    }
  }

  /**
   What the `k`-th sighting is worth: an issue if its name was never sighted before, a renewal if it was
   issued later than at the last place its name was sighted, nothing otherwise.
   */
  lemma {:induction false} VerdictLaw(sightings: seq<Certificate>, k: nat)
    requires k < |sightings|
    ensures var c := sightings[k]; var v := Verdict(sightings[..k], c);
            && (c.domains == [] ==> v == [])
            && (c.domains != [] && NeverBefore(sightings, c.domains[0], k) ==> v == [CertIssued(c.domains[0])])
            && (c.domains != [] ==> forall j: nat :: LastBefore(sightings, c.domains[0], k, j) ==>
                  v == if c.issuedAt > sightings[j].issuedAt then [CertRenewed(c.domains[0])] else [])
  {
    var c := sightings[k];
    if c.domains != [] {
      LastSightingLaw(sightings, c.domains[0], k);
    }
  }
}
