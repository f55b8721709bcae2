/**
 Keeping certificates (internal/acme/acme.go): each pass serves what is good, asks the CA for what is
 missing, due or no longer matching, and keeps serving the old certificate where the CA refuses.
 */
module AcmeSync {
  import opened Wrappers
  import opened Text
  import opened AcmePlan

  datatype Certificate = Certificate(domains: seq<string>, notBefore: int, notAfter: int, issuedAt: int) {
    /** The primary name. */
    function Key(): string {
      if domains == [] then "" else domains[0]
    }

    /** Two thirds into its life; at once if it has none. */
    function RenewAfter(): int {
      var life := notAfter - notBefore;
      if life <= 0 then notBefore else notBefore + life * 2 / 3
    }

    predicate NeedsRenewal(now: int) {
      now >= RenewAfter()
    }

    /** For exactly these names, in this order. */
    predicate Covers(names: seq<string>) {
      domains == names
    }
  }

  /** The certs bucket by primary name; `None` is a record that does not decode. */
  type CertStore = map<string, Option<Certificate>>

  /** What the CA and the store do with one request. */
  datatype Outcome = Refused | Obtained(notBefore: int, notAfter: int, issuedAt: int, saved: bool)

  /** Certificates are stored under their own primary name. */
  ghost predicate WellKeyed(certs: CertStore) {
    forall k :: k in certs && certs[k].Some? ==> certs[k].value.Key() == k
  }

  function Existing(certs: CertStore): map<string, Certificate> {
    map k | k in certs && certs[k].Some? :: certs[k].value
  }

  // ---- one request -------------------------------------------------------

  /** A stored certificate that needs nothing done. */
  predicate Good(existing: map<string, Certificate>, r: Request, now: int) {
    && r.domains != [] && r.domains[0] in existing
    && existing[r.domains[0]].Covers(r.domains) && !existing[r.domains[0]].NeedsRenewal(now)
  }

  /** Whether the pass asks the CA. */
  predicate Asks(existing: map<string, Certificate>, r: Request, now: int) {
    r.domains != [] && !Good(existing, r, now)
  }

  function Issued(r: Request, o: Outcome): Certificate
    requires o.Obtained?
  {
    Certificate(r.domains, o.notBefore, o.notAfter, o.issuedAt)
  }

  /** The certificate the pass returns for a request, if it has one. */
  function Serve(existing: map<string, Certificate>, r: Request, now: int, o: Outcome): Option<Certificate> {
    if r.domains == [] then None
    else if Asks(existing, r, now) && o.Obtained? then Some(Issued(r, o))
    else if r.domains[0] in existing then Some(existing[r.domains[0]])
    else None
  }

  predicate Saves(existing: map<string, Certificate>, r: Request, now: int, o: Outcome) {
    Asks(existing, r, now) && o.Obtained? && o.saved
  }

  // ---- a pass ------------------------------------------------------------

  datatype Pass = Pass(requests: seq<Request>, now: int, outcomes: seq<Outcome>) {
    predicate Complete() {
      |outcomes| == |requests|
    }
  }

  function Served(existing: map<string, Certificate>, p: Pass, n: nat): seq<Certificate>
    requires p.Complete() && n <= |p.requests|
  {
    if n == 0 then []
    else
      var s := Serve(existing, p.requests[n - 1], p.now, p.outcomes[n - 1]);
      Served(existing, p, n - 1) + if s.Some? then [s.value] else []
  }

  function Stored(certs: CertStore, existing: map<string, Certificate>, p: Pass, n: nat): CertStore
    requires p.Complete() && n <= |p.requests|
  {
    if n == 0 then certs
    else
      var before := Stored(certs, existing, p, n - 1);
      var r, o := p.requests[n - 1], p.outcomes[n - 1];
      if Saves(existing, r, p.now, o) then before[r.domains[0] := Some(Issued(r, o))] else before
  }

  function After(certs: CertStore, p: Pass): CertStore
    requires p.Complete()
  {
    Stored(certs, Existing(certs), p, |p.requests|)
  }

  ghost predicate ByKey(cs: seq<Certificate>) {
    forall i, j :: 0 <= i < j < |cs| ==> !Less(cs[j].Key(), cs[i].Key())
  }

  function InsertByKey(c: Certificate, cs: seq<Certificate>): seq<Certificate> {
    if cs == [] || !Less(cs[0].Key(), c.Key()) then [c] + cs else [cs[0]] + InsertByKey(c, cs[1..])
  }

  lemma {:induction false} InsertKeepsOrder(c: Certificate, cs: seq<Certificate>)
    requires ByKey(cs)
    ensures ByKey(InsertByKey(c, cs)) && multiset(InsertByKey(c, cs)) == multiset(cs) + multiset{c}
  {
    if cs == [] || !Less(cs[0].Key(), c.Key()) {
      forall j | 0 <= j < |cs| ensures !Less(cs[j].Key(), c.Key()) {
        if j > 0 && Less(cs[j].Key(), c.Key()) {
          LessTotal(cs[0].Key(), cs[j].Key());
          if Less(cs[0].Key(), cs[j].Key()) {
            LessTransitive(cs[0].Key(), cs[j].Key(), c.Key());
          }
        }
      }
    } else {
      InsertKeepsOrder(c, cs[1..]);
      var rest := InsertByKey(c, cs[1..]);
      assert cs == [cs[0]] + cs[1..];
      forall j | 0 <= j < |rest| ensures !Less(rest[j].Key(), cs[0].Key()) {
        assert rest[j] in multiset(cs[1..]) + multiset{c};
        if rest[j] == c && Less(c.Key(), cs[0].Key()) {
          LessTransitive(cs[0].Key(), c.Key(), cs[0].Key());
          LessIrreflexive(cs[0].Key());
        }
      }
    }
  }

  class Manager {
    var certs: CertStore

    ghost predicate Valid()
      reads this
    {
      WellKeyed(certs)
    }

    constructor ()
      ensures Valid() && certs == map[]
    {
      certs := map[];
    }

    /** Reads the readable certificates; the order the store lists them in does not matter. */
    method Load() returns (existing: map<string, Certificate>)
      requires Valid()
      ensures existing == Existing(certs)
    {
      existing := map[];
      var rest := certs.Keys;
      while rest != {}
        invariant rest <= certs.Keys
        invariant existing == map k | k in certs && certs[k].Some? && k !in rest :: certs[k].value
        decreases |rest|
      {
        var k :| k in rest;
        rest := rest - {k};
        if certs[k].Some? {
          existing := existing[certs[k].value.Key() := certs[k].value];
        }
      }
    }

    /** A pass; nothing is asked for or stored when the stored certificates cannot be listed. */
    method Sync(p: Pass, listed: bool) returns (out: seq<Certificate>, ok: bool)
      requires Valid() && p.Complete()
      modifies this
      ensures Valid() && ok == listed
      ensures certs == if listed then After(old(certs), p) else old(certs)
      ensures multiset(out) == if listed then multiset(Served(Existing(old(certs)), p, |p.requests|)) else multiset{}
      ensures ByKey(out)
    {
      ok := listed;
      if !listed {
        EmptyInOrder();
        return [], false;
      }
      hide Certificate.NeedsRenewal, InsertByKey, Existing, Less, ByKey;
      var existing := Load();
      ghost var served := [];
      out := [];
      EmptyInOrder();
      for i := 0 to |p.requests|
        invariant certs == Stored(old(certs), existing, p, i) && Valid()
        invariant served == Served(existing, p, i)
        invariant multiset(out) == multiset(served) && ByKey(out)
      {
        var r, o := p.requests[i], p.outcomes[i];
        if |r.domains| == 0 {
          continue;
        }
        var key := r.domains[0];
        var current := if key in existing then Some(existing[key]) else None;
        var serve := current;
        if current.None? || !current.value.Covers(r.domains) || current.value.NeedsRenewal(p.now) {
          if o.Obtained? {
            if o.saved {
              certs := certs[key := Some(Issued(r, o))];
            }
            serve := Some(Issued(r, o));
          }
        }
        assert serve == Serve(existing, r, p.now, o);
        if serve.Some? {
          InsertKeepsOrder(serve.value, out);
          out := InsertByKey(serve.value, out);
          served := served + [serve.value];
        }
      }
    }
  }

  lemma {:induction false} EmptyInOrder()
    ensures ByKey([])
  {
  }

  // ---- what is stored stays stored ---------------------------------------

  lemma {:induction false} StoredKeeps(certs: CertStore, existing: map<string, Certificate>, p: Pass, n: nat)
    requires p.Complete() && n <= |p.requests| && WellKeyed(certs)
    ensures WellKeyed(Stored(certs, existing, p, n))
    ensures Existing(certs).Keys <= Existing(Stored(certs, existing, p, n)).Keys
  {
    if n > 0 {
      StoredKeeps(certs, existing, p, n - 1);
    }
  }

  ghost predicate AllComplete(ps: seq<Pass>) {
    forall i :: 0 <= i < |ps| ==> ps[i].Complete()
  }

  function AfterAll(certs: CertStore, ps: seq<Pass>): CertStore
    requires AllComplete(ps)
    decreases |ps|
  {
    if ps == [] then certs else AfterAll(After(certs, ps[0]), ps[1..])
  }

  lemma {:induction false} KeptThroughPasses(certs: CertStore, ps: seq<Pass>)
    requires WellKeyed(certs) && AllComplete(ps)
    ensures WellKeyed(AfterAll(certs, ps)) && Existing(certs).Keys <= Existing(AfterAll(certs, ps)).Keys
    decreases |ps|
  {
    hide Existing, WellKeyed, Stored;
    if ps != [] {
      StoredKeeps(certs, Existing(certs), ps[0], |ps[0].requests|);
      KeptThroughPasses(After(certs, ps[0]), ps[1..]);
    }
  }

  lemma {:induction false} ServedIncludes(existing: map<string, Certificate>, p: Pass, n: nat, i: nat)
    requires p.Complete() && i < n <= |p.requests|
    requires Serve(existing, p.requests[i], p.now, p.outcomes[i]).Some?
    ensures Serve(existing, p.requests[i], p.now, p.outcomes[i]).value in Served(existing, p, n)
  {
    hide Serve;
    if i < n - 1 {
      ServedIncludes(existing, p, n - 1, i);
    }
  }

  /**
   However issuance and saving go in any number of passes: a request whose primary name had a readable
   certificate at any time before gets a certificate for that name.
   */
  lemma {:induction false} OnceStoredAlwaysServed(certs: CertStore, earlier: seq<Pass>, p: Pass, i: nat)
    requires WellKeyed(certs) && AllComplete(earlier) && p.Complete()
    requires i < |p.requests| && p.requests[i].domains != [] && p.requests[i].domains[0] in Existing(certs)
    ensures exists c :: c in Served(Existing(AfterAll(certs, earlier)), p, |p.requests|) && c.Key() == p.requests[i].domains[0]
  {
    KeptThroughPasses(certs, earlier);
    var existing := Existing(AfterAll(certs, earlier));
    var r := p.requests[i];
    var s := Serve(existing, r, p.now, p.outcomes[i]);
    assert s.Some? && s.value.Key() == r.domains[0];
    ServedIncludes(existing, p, |p.requests|, i);
  }

  // ---- a pass after a clean one is idle ----------------------------------

  ghost predicate DistinctPrimaries(rs: seq<Request>) {
    forall i, j :: 0 <= i < j < |rs| && rs[i].domains != [] && rs[j].domains != [] ==> rs[i].domains[0] != rs[j].domains[0]
  }

  /** Everything asked for was obtained and saved. */
  ghost predicate AllSucceed(existing: map<string, Certificate>, p: Pass)
    requires p.Complete()
  {
    forall i :: 0 <= i < |p.requests| && Asks(existing, p.requests[i], p.now) ==>
      Saves(existing, p.requests[i], p.now, p.outcomes[i])
  }

  /** With distinct primaries, a request's name holds what the pass saved for it, or what it held before. */
  lemma {:induction false} StoredForPrimary(certs: CertStore, p: Pass, n: nat, i: nat)
    requires p.Complete() && i < |p.requests| && n <= |p.requests| && p.requests[i].domains != []
    requires DistinctPrimaries(p.requests)
    ensures var existing := Existing(certs);
            var r, o := p.requests[i], p.outcomes[i];
            var after := Existing(Stored(certs, existing, p, n));
            if i < n && Saves(existing, r, p.now, o) then r.domains[0] in after && after[r.domains[0]] == Issued(r, o)
            else
              && (r.domains[0] in after <==> r.domains[0] in existing)
              && (r.domains[0] in existing ==> after[r.domains[0]] == existing[r.domains[0]])
  {
    hide Certificate.NeedsRenewal;
    if n > 0 {
      StoredForPrimary(certs, p, n - 1, i);
    }
  }

  /**
   Saving is what keeps a pass from asking twice: a certificate obtained but not saved is served, and then
   asked for again by the next pass, which is what serving it was meant to avoid.
   */
  lemma {:induction false} AskedAgainIffNotSaved(certs: CertStore, p: Pass, later: int, i: nat)
    requires p.Complete() && i < |p.requests| && DistinctPrimaries(p.requests) && p.now <= later
    requires Asks(Existing(certs), p.requests[i], p.now) && p.outcomes[i].Obtained?
    requires !Issued(p.requests[i], p.outcomes[i]).NeedsRenewal(later)
    ensures Asks(Existing(After(certs, p)), p.requests[i], later) <==> !p.outcomes[i].saved
  {
    hide Existing, Stored;
    StoredForPrimary(certs, p, |p.requests|, i);
  }

  /**
   A pass over the same requests right after a clean one asks the CA for nothing and serves the same
   certificates, as long as none of them is due by then.
   */
  lemma {:induction false} IdleAfterCleanPass(certs: CertStore, p: Pass, later: int, outcomes: seq<Outcome>, i: nat)
    requires p.Complete() && |outcomes| == |p.requests| && i < |p.requests|
    requires DistinctPrimaries(p.requests) && AllSucceed(Existing(certs), p)
    requires forall c :: c in Served(Existing(certs), p, |p.requests|) ==> !c.NeedsRenewal(later)
    ensures var after := Existing(After(certs, p));
            && !Asks(after, p.requests[i], later)
            && Serve(after, p.requests[i], later, outcomes[i]) == Serve(Existing(certs), p.requests[i], p.now, p.outcomes[i])
  {
    hide Certificate.NeedsRenewal, Stored, Served, Existing;
    var r := p.requests[i];
    if r.domains != [] {
      StoredForPrimary(certs, p, |p.requests|, i);
      ServedIncludes(Existing(certs), p, |p.requests|, i);
    }
  }

  /** One name, a certificate obtained for it, and a store that refused to keep it. */
  const UNSAVED := Pass([Request(["shop.example"], "shop/web")], 0, [Obtained(0, 90, 0, false)])

  lemma {:induction false} UnsavedIsAskedForAgain()
    ensures UNSAVED.Complete() && Served(map[], UNSAVED, 1) == [Certificate(["shop.example"], 0, 90, 0)]
    ensures Asks(Existing(After(map[], UNSAVED)), UNSAVED.requests[0], 1)
  {
    assert Existing(map[]) == map[];
    assert Served(map[], UNSAVED, 0) == [];
    assert Asks(Existing(map[]), UNSAVED.requests[0], 0);
    AskedAgainIffNotSaved(map[], UNSAVED, 1, 0);
  }

  // ---- when the CA is asked ----------------------------------------------

  /**
   For a request whose primary name has a certificate for exactly its names: the CA is asked once two
   thirds of the certificate's life have passed, or, if it has no life at all, once it has begun.
   */
  lemma {:induction false} AskedWhenDue(existing: map<string, Certificate>, r: Request, now: int)
    requires r.domains != [] && r.domains[0] in existing && existing[r.domains[0]].domains == r.domains
    ensures var c := existing[r.domains[0]];
            Asks(existing, r, now) <==>
              if c.notAfter <= c.notBefore then now >= c.notBefore
              else 3 * (now - c.notBefore + 1) > 2 * (c.notAfter - c.notBefore)
  {
  }

  /** With no certificate for those names it is always asked, and for no names never. */
  lemma {:induction false} AskedWithoutOne(existing: map<string, Certificate>, r: Request, now: int)
    ensures r.domains == [] ==> !Asks(existing, r, now)
    ensures r.domains != [] && (r.domains[0] !in existing || existing[r.domains[0]].domains != r.domains) ==> Asks(existing, r, now)
  {
  }

  /** What a request gets: what is newly obtained, else what is stored under its primary name, else nothing. */
  lemma {:induction false} ServedIs(existing: map<string, Certificate>, r: Request, now: int, o: Outcome)
    ensures Serve(existing, r, now, o) ==
            if r.domains == [] then None
            else if Asks(existing, r, now) && o != Refused then Some(Certificate(r.domains, o.notBefore, o.notAfter, o.issuedAt))
            else if r.domains[0] in existing then Some(existing[r.domains[0]])
            else None
    ensures Saves(existing, r, now, o) <==> Asks(existing, r, now) && o.Obtained? && o.saved
  {
  }

  /**
   An expired certificate is asked for, with one exception: one whose validity ends before it begins is
   not due until it begins. So a stored certificate past its end is served only where the CA refused or
   the certificate has not begun.
   */
  lemma {:induction false} ExpiredIsAskedForIff(existing: map<string, Certificate>, r: Request, now: int, o: Outcome)
    requires r.domains != [] && r.domains[0] in existing && existing[r.domains[0]].domains == r.domains
    requires existing[r.domains[0]].notAfter < now
    ensures var c := existing[r.domains[0]];
            && (Asks(existing, r, now) <==> c.notBefore <= now)
            && (Serve(existing, r, now, o) == Some(c) && c.notBefore <= now && (o.Obtained? ==> Issued(r, o) != c) ==> o.Refused?)
  {
    AskedWhenDue(existing, r, now);
  }

  /** A certificate valid from 100 to 0: at 50 it has expired, and the pass asks for nothing. */
  lemma {:induction false} BackwardsIsNotAskedFor()
    ensures var c := Certificate(["shop.example"], 100, 0, 0);
            !Asks(map["shop.example" := c], Request(["shop.example"], "shop/web"), 50)
  {
  }

  /** Only readable records are known, each under its own key. */
  lemma {:induction false} ExistingIs(certs: CertStore, k: string)
    ensures k in Existing(certs) <==> k in certs && certs[k] != None
    ensures k in Existing(certs) ==> Some(Existing(certs)[k]) == certs[k]
  {
  }
}
