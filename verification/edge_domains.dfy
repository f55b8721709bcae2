/**
 The names the edge routes (internal/reconciler/routes.go) against the certificates planned for them: a
 generated name is service.project.base, and the keyring (internal/edge/tls.go) matches hosts after
 normalising both sides.
 */
module EdgeDomains {
  import opened Wrappers
  import opened Text
  import opened Convert
  import opened AcmePlan

  /** One expose block of a service; only the first may go without declared domains. */
  datatype Route = Route(service: string, project: string, declared: seq<string>, first: bool)

  function Canonical(d: string): string {
    Lower(TrimDots(Trim(d)))
  }

  function DomainsFor(r: Route, baseDomain: string): seq<string> {
    if r.declared != [] then DropEmpty(Map(Canonical, r.declared))
    else
      var base := TrimDots(Trim(baseDomain));
      if !r.first || base == "" then [] else [Canonical(r.service + "." + r.project + "." + base)]
  }

  /** What the certificate pass asks the planner for on a route's behalf. */
  function ExposureOf(r: Route, baseDomain: string): Exposure {
    Exposure(r.project + "/" + r.service, r.project, DomainsFor(r, baseDomain), r.declared == [])
  }

  /** The edge's spelling of a name without a port. */
  function Normalized(host: string): string {
    var h := Trim(host);
    Lower(if h != "" && h[|h| - 1] == '.' then h[..|h| - 1] else h)
  }

  /** Exact match, or a wildcard over the immediate parent. */
  predicate CoversHost(domains: seq<string>, host: string) {
    Normalized(host) != "" && exists i :: 0 <= i < |domains| && Matches(Normalized(domains[i]), Normalized(host))
  }

  // ---- spelling ----------------------------------------------------------

  predicate NoSpaces(s: string) {
    forall i :: 0 <= i < |s| ==> !IsSpace(s[i])
  }

  /** A name with no whitespace and no dot at either end. */
  predicate Clean(s: string) {
    s != "" && NoSpaces(s) && s[0] != '.' && s[|s| - 1] != '.'
  }

  /** Neither end is whitespace or a dot, so that no trimming goes past it. */
  predicate SolidEnds(s: string) {
    s != "" && !IsSpace(s[0]) && !IsSpace(s[|s| - 1]) && s[0] != '.' && s[|s| - 1] != '.'
  }

  /** The dots at the end, gone. */
  function TrimDotsRight(s: string): string {
    if s != "" && s[|s| - 1] == '.' then TrimDotsRight(s[..|s| - 1]) else s
  }

  /** One dot at the end, gone. */
  function DropDot(s: string): string {
    if s != "" && s[|s| - 1] == '.' then s[..|s| - 1] else s
  }

  lemma {:induction false} LowerConcat(a: string, b: string)
    ensures Lower(a + b) == Lower(a) + Lower(b)
  {
  }

  lemma {:induction false} LowerTwice(s: string)
    ensures Lower(Lower(s)) == Lower(s)
  {
  }

  /** Folding case keeps dots and whitespace where they are. */
  lemma {:induction false} LowerKeepsMarks(s: string, i: nat)
    requires i < |s|
    ensures Lower(s)[i] == '.' <==> s[i] == '.'
    ensures IsSpace(Lower(s)[i]) <==> IsSpace(s[i])
  {
  }

  lemma {:induction false} LowerKeepsEnds(s: string)
    requires SolidEnds(s)
    ensures SolidEnds(Lower(s))
  {
    LowerKeepsMarks(s, 0);
    LowerKeepsMarks(s, |s| - 1);
  }

  // ---- trimming stops at a solid prefix ----------------------------------

  lemma {:induction false} TrimAfter(q: string, y: string)
    requires SolidEnds(q)
    ensures Trim(q + y) == q + TrimRight(y)
  {
    assert (q + y)[0] == q[0];
    TrimRightAfter(q, y);
  }

  lemma {:induction false} TrimRightAfter(q: string, y: string)
    requires SolidEnds(q)
    ensures TrimRight(q + y) == q + TrimRight(y)
    decreases |y|
  {
    if y == "" {
      assert q + y == q;
    } else if IsSpace(y[|y| - 1]) {
      assert (q + y)[..|q + y| - 1] == q + y[..|y| - 1];
      TrimRightAfter(q, y[..|y| - 1]);
    }
  }

  lemma {:induction false} TrimDotsAfter(q: string, y: string)
    requires SolidEnds(q)
    ensures TrimDots(q + y) == q + TrimDotsRight(y)
    decreases |y|
  {
    assert (q + y)[0] == q[0];
    if y == "" {
      assert q + y == q;
    } else if y[|y| - 1] == '.' {
      assert (q + y)[..|q + y| - 1] == q + y[..|y| - 1];
      TrimDotsAfter(q, y[..|y| - 1]);
    }
  }

  lemma {:induction false} DropDotAfter(q: string, y: string)
    requires SolidEnds(q)
    ensures DropDot(q + y) == q + DropDot(y)
  {
    if y == "" {
      assert q + y == q;
    } else {
      assert (q + y)[..|q + y| - 1] == q + y[..|y| - 1];
    }
  }

  lemma {:induction false} NormalizedAfter(q: string, y: string)
    requires SolidEnds(q)
    ensures Normalized(q + y) == Lower(q) + Lower(DropDot(TrimRight(y)))
  {
    hide Lower, Trim, TrimRight;
    TrimAfter(q, y);
    DropDotAfter(q, TrimRight(y));
    LowerConcat(q, DropDot(TrimRight(y)));
  }

  lemma {:induction false} CanonicalAfter(q: string, y: string)
    requires SolidEnds(q)
    ensures Canonical(q + y) == Lower(q) + Lower(TrimDotsRight(TrimRight(y)))
  {
    hide Lower, Trim, TrimRight, TrimDots, TrimDotsRight;
    TrimAfter(q, y);
    TrimDotsAfter(q, TrimRight(y));
    LowerConcat(q, TrimDotsRight(TrimRight(y)));
  }

  // ---- both spellings of the base domain ---------------------------------

  /** What the base domain contributes to a routed name, as the keyring spells the host. */
  function RoutedTail(baseDomain: string): string {
    Lower(DropDot(TrimRight(Lower(TrimDotsRight(TrimRight("." + TrimDots(Trim(baseDomain))))))))
  }

  /** What it contributes to the project's wildcard, as the keyring spells the certificate's name. */
  function PlannedTail(baseDomain: string): string {
    Lower(DropDot(TrimRight("." + TrimDots(baseDomain))))
  }

  /** A route that gets a generated name. */
  predicate Generates(r: Route, o: Options) {
    IsLabel(r.service) && IsLabel(r.project) && r.declared == [] && r.first && TrimDots(Trim(o.baseDomain)) != ""
  }

  lemma {:induction false} LabelIsSolid(s: string)
    requires IsLabel(s)
    ensures SolidEnds(s)
  {
  }

  /** How the keyring spells a routed host. */
  lemma {:induction false} RoutedHost(r: Route, o: Options)
    requires Generates(r, o)
    ensures |DomainsFor(r, o.baseDomain)| == 1
    ensures Normalized(DomainsFor(r, o.baseDomain)[0])
         == Lower(r.service + "." + r.project) + RoutedTail(o.baseDomain)
  {
    hide Lower, Trim, TrimRight, TrimDots, TrimDotsRight, Canonical, Normalized, IsLabel, DropDot;
    var q, y := r.service + "." + r.project, "." + TrimDots(Trim(o.baseDomain));
    LabelIsSolid(r.service);
    LabelIsSolid(r.project);
    assert SolidEnds(q) by {
      assert q[0] == r.service[0] && q[|q| - 1] == r.project[|r.project| - 1];
    }
    assert r.service + "." + r.project + "." + TrimDots(Trim(o.baseDomain)) == q + y;
    CanonicalAfter(q, y);
    LowerKeepsEnds(q);
    NormalizedAfter(Lower(q), Lower(TrimDotsRight(TrimRight(y))));
    LowerTwice(q);
  }

  /** And the two names of a project's wildcard certificate. */
  lemma {:induction false} PlannedNames(project: string, o: Options)
    requires IsLabel(project)
    ensures var names := Wildcard(project, o).domains;
            && |names| == 2
            && Normalized(names[0]) == "*." + (Lower(project) + PlannedTail(o.baseDomain))
            && Normalized(names[1]) == Lower(project) + PlannedTail(o.baseDomain)
  {
    hide Lower, Trim, TrimRight, TrimDots, Normalized, IsLabel, DropDot;
    var y := "." + TrimDots(o.baseDomain);
    LabelIsSolid(project);
    assert Suffix(project, o) == project + y;
    NormalizedAfter(project, y);
    var q := "*." + project;
    assert SolidEnds(q) by {
      assert q[0] == '*' && q[|q| - 1] == project[|project| - 1];
    }
    assert "*." + Suffix(project, o) == q + y;
    NormalizedAfter(q, y);
    LowerStarred(project);
    assert ("*." + Lower(project)) + PlannedTail(o.baseDomain) == "*." + (Lower(project) + PlannedTail(o.baseDomain));
  }

  lemma {:induction false} LowerStarred(b: string)
    ensures Lower("*." + b) == "*." + Lower(b)
  {
    LowerConcat("*.", b);
    assert Lower("*.") == "*.";
  }

  // ---- a route and its project's wildcard --------------------------------

  /** How many characters are neither whitespace nor dots: trimming never changes it. */
  function Letters(s: string): nat {
    if s == "" then 0 else Letters(s[..|s| - 1]) + if IsSpace(s[|s| - 1]) || s[|s| - 1] == '.' then 0 else 1
  }

  lemma {:induction false} LettersConcat(a: string, b: string)
    ensures Letters(a + b) == Letters(a) + Letters(b)
    decreases |b|
  {
    if b == "" {
      assert a + b == a;
    } else {
      assert (a + b)[..|a + b| - 1] == a + b[..|b| - 1];
      LettersConcat(a, b[..|b| - 1]);
    }
  }

  lemma {:induction false} LettersFirst(s: string)
    requires s != ""
    ensures Letters(s) == Letters(s[1..]) + if IsSpace(s[0]) || s[0] == '.' then 0 else 1
  {
    assert s == s[..1] + s[1..];
    LettersConcat(s[..1], s[1..]);
    assert s[..1][..0] == "";
  }

  lemma {:induction false} TrimsKeepLetters(s: string)
    ensures Letters(TrimRight(s)) == Letters(s) && Letters(TrimDotsRight(s)) == Letters(s) && Letters(DropDot(s)) == Letters(s)
    decreases |s|
  {
    if s != "" {
      TrimsKeepLetters(s[..|s| - 1]);
    }
  }

  lemma {:induction false} TrimLeftKeepsLetters(s: string)
    ensures Letters(TrimLeft(s)) == Letters(s)
    decreases |s|
  {
    if s != "" && IsSpace(s[0]) {
      LettersFirst(s);
      TrimLeftKeepsLetters(s[1..]);
    }
  }

  lemma {:induction false} TrimDotsKeepsLetters(s: string)
    ensures Letters(TrimDots(s)) == Letters(s)
    decreases |s|
  {
    if s != "" && s[0] == '.' {
      LettersFirst(s);
      TrimDotsKeepsLetters(s[1..]);
    } else if s != "" && s[|s| - 1] == '.' {
      TrimDotsKeepsLetters(s[..|s| - 1]);
    }
  }

  lemma {:induction false} LowerKeepsLetters(s: string)
    ensures Letters(Lower(s)) == Letters(s)
  {
    if s != "" {
      LowerKeepsLetters(s[..|s| - 1]);
      assert Lower(s)[..|s| - 1] == Lower(s[..|s| - 1]);
      LowerKeepsMarks(s, |s| - 1);
    }
  }

  /** Both tails have the base domain's letters. */
  lemma {:induction false} TailsHaveTheLetters(base: string)
    ensures Letters(RoutedTail(base)) == Letters(base) && Letters(PlannedTail(base)) == Letters(base)
  {
    hide Lower, TrimRight, TrimDots, TrimDotsRight, DropDot, Letters, TrimLeft;
    TrimLeftKeepsLetters(base);
    TrimsKeepLetters(TrimLeft(base));
    TrimDotsKeepsLetters(Trim(base));
    TrimDotsKeepsLetters(base);
    DotHasNoLetters(TrimDots(Trim(base)));
    DotHasNoLetters(TrimDots(base));
    var a := "." + TrimDots(Trim(base));
    TrimsKeepLetters(a);
    TrimsKeepLetters(TrimRight(a));
    var b := Lower(TrimDotsRight(TrimRight(a)));
    LowerKeepsLetters(TrimDotsRight(TrimRight(a)));
    TrimsKeepLetters(b);
    TrimsKeepLetters(TrimRight(b));
    LowerKeepsLetters(DropDot(TrimRight(b)));
    var c := "." + TrimDots(base);
    TrimsKeepLetters(c);
    TrimsKeepLetters(TrimRight(c));
    LowerKeepsLetters(DropDot(TrimRight(c)));
  }

  lemma {:induction false} DotHasNoLetters(s: string)
    ensures Letters("." + s) == Letters(s)
  {
    LettersConcat(".", s);
    assert "."[..0] == "";
  }

  lemma {:induction false} LabelHasNoDot(s: string)
    requires IsLabel(s)
    ensures '.' !in Lower(s) && Lower(s) != "" && Lower(s)[0] != '*' && Letters(Lower(s)) > 0
  {
    hide Lower, Letters;
    forall i | 0 <= i < |s| ensures Lower(s)[i] != '.' {
      LowerKeepsMarks(s, i);
    }
    LowerKeepsLetters(s);
    LowerKeepsStar(s);
    LabelEndsInLetter(s);
  }

  lemma {:induction false} LowerKeepsStar(s: string)
    requires s != "" && s[0] != '*'
    ensures Lower(s)[0] != '*'
  {
  }

  lemma {:induction false} LabelEndsInLetter(s: string)
    requires IsLabel(s)
    ensures Letters(s) > 0
  {
  }

  /**
   For every base domain: a project's wildcard certificate covers the name routed for a service of the
   project if and only if routing and planning spell the end of the name the same way.
   */
  lemma {:induction false} WildcardCoversRouteIff(r: Route, o: Options)
    requires Generates(r, o)
    ensures |DomainsFor(r, o.baseDomain)| == 1
    ensures CoversHost(Wildcard(r.project, o).domains, DomainsFor(r, o.baseDomain)[0])
       <==> RoutedTail(o.baseDomain) == PlannedTail(o.baseDomain)
  {
    hide Lower, Normalized, DomainsFor, IsLabel, RoutedTail, PlannedTail, Wildcard, Letters, Trim, TrimDots;
    RoutedHost(r, o);
    PlannedNames(r.project, o);
    TailsHaveTheLetters(o.baseDomain);
    LabelHasNoDot(r.service);
    LabelHasNoDot(r.project);
    LowerDotted(r.service, r.project);
    var names, host := Wildcard(r.project, o).domains, Normalized(DomainsFor(r, o.baseDomain)[0]);
    var first, parent := Lower(r.service), Lower(r.project) + RoutedTail(o.baseDomain);
    assert host == first + "." + parent;
    var suffix := Lower(r.project) + PlannedTail(o.baseDomain);
    WildcardMatchesOne(first, parent, suffix);
    OneLabelLonger(first, Lower(r.project), RoutedTail(o.baseDomain), PlannedTail(o.baseDomain));
    assert suffix == parent <==> RoutedTail(o.baseDomain) == PlannedTail(o.baseDomain) by {
      SameAfter(Lower(r.project), RoutedTail(o.baseDomain), PlannedTail(o.baseDomain));
    }
    assert !Matches(suffix, host) by {
      assert suffix[0] == Lower(r.project)[0];
    }
    assert Matches(Normalized(names[0]), host) <==> suffix == parent;
  }

  lemma {:induction false} SameAfter(q: string, a: string, b: string)
    ensures q + a == q + b <==> a == b
  {
    assert (q + a)[|q|..] == a && (q + b)[|q|..] == b;
  }

  lemma {:induction false} LowerDotted(a: string, b: string)
    ensures Lower(a + "." + b) == Lower(a) + "." + Lower(b)
  {
    LowerConcat(a + ".", b);
    LowerConcat(a, ".");
    assert Lower(".") == ".";
  }

  /** A wildcard matches a host exactly when its parent is the host's. */
  lemma {:induction false} WildcardMatchesOne(first: string, parent: string, suffix: string)
    requires first != "" && '.' !in first && first[0] != '*'
    ensures Matches("*." + suffix, first + "." + parent) <==> suffix == parent
  {
    var host := first + "." + parent;
    assert host == first + ['.'] + parent;
    CutAtFirst(first, '.', parent);
    assert ("*." + suffix)[2..] == suffix;
    assert host[0] == first[0];
  }

  /** A host has a label more than the project's own name, so it is never that name. */
  lemma {:induction false} OneLabelLonger(first: string, project: string, routed: string, planned: string)
    requires Letters(first) > 0 && Letters(routed) == Letters(planned)
    ensures first + "." + (project + routed) != project + planned
  {
    LettersConcat(first + ".", project + routed);
    LettersConcat(first, ".");
    LettersConcat(project, routed);
    LettersConcat(project, planned);
  }

  // ---- which base domains agree ------------------------------------------

  lemma {:induction false} TrimDotsSpec(s: string)
    ensures var t := TrimDots(s);
            && (t != "" ==> t[0] != '.' && t[|t| - 1] != '.')
            && (NoSpaces(s) ==> NoSpaces(t))
            && (s != "" && s[0] != '.' && s[|s| - 1] != '.' ==> t == s)
    decreases |s|
  {
    if s != "" && s[0] == '.' {
      TrimDotsSpec(s[1..]);
    } else if s != "" && s[|s| - 1] == '.' {
      TrimDotsSpec(s[..|s| - 1]);
    }
  }

  /** A dot and a name without a dot or whitespace at its end, under every trimming of the right. */
  lemma {:induction false} DottedTail(t: string)
    requires t != "" && !IsSpace(t[|t| - 1]) && t[|t| - 1] != '.'
    ensures TrimRight("." + t) == "." + t && TrimDotsRight("." + t) == "." + t && DropDot("." + t) == "." + t
  {
  }

  lemma {:induction false} LowerKeepsEnd(t: string)
    requires t != "" && !IsSpace(t[|t| - 1]) && t[|t| - 1] != '.'
    ensures var u := Lower("." + t);
            TrimRight(u) == u && DropDot(u) == u && Lower(u) == u
  {
    LowerKeepsMarks("." + t, |t|);
    LowerTwice("." + t);
  }

  /** A base domain written without whitespace is spelled one way, whatever dots surround it. */
  lemma {:induction false} AgreesWithoutSpaces(base: string)
    requires NoSpaces(base) && TrimDots(base) != ""
    ensures RoutedTail(base) == PlannedTail(base)
  {
    hide Lower, TrimRight, TrimDots, TrimDotsRight, DropDot, Trim;
    TrimKeeps(base);
    TrimDotsSpec(base);
    var t := TrimDots(base);
    DottedTail(t);
    LowerKeepsEnd(t);
  }

  lemma {:induction false} TrimRightSpec(s: string)
    ensures var t := TrimRight(s);
            && t <= s && (t != "" ==> !IsSpace(t[|t| - 1])) && (s != "" && !IsSpace(s[|s| - 1]) ==> t == s)
  {
    if s != "" && IsSpace(s[|s| - 1]) {
      TrimRightSpec(s[..|s| - 1]);
    }
  }

  lemma {:induction false} TrimRightPrepend(a: string, s: string)
    requires TrimRight(s) != ""
    ensures TrimRight(a + s) == a + TrimRight(s)
    decreases |s|
  {
    if IsSpace(s[|s| - 1]) {
      assert (a + s)[..|a + s| - 1] == a + s[..|s| - 1];
      TrimRightPrepend(a, s[..|s| - 1]);
    }
  }

  /** Trimming the left first or last makes no difference to the right end. */
  lemma {:induction false} TrimEnds(s: string)
    requires Trim(s) != ""
    ensures s != "" && TrimRight(s) != "" && TrimRight(s)[|TrimRight(s)| - 1] == Trim(s)[|Trim(s)| - 1]
    ensures !IsSpace(s[0]) ==> TrimRight(s) == Trim(s)
    ensures TrimRight(s)[0] == s[0]
    decreases |s|
  {
    TrimRightSpec(s);
    if s != "" && IsSpace(s[0]) {
      TrimEnds(s[1..]);
      assert s == s[..1] + s[1..];
      TrimRightPrepend(s[..1], s[1..]);
    }
  }

  /** One that is clean once trimmed is spelled one way exactly when no whitespace comes before it. */
  lemma {:induction false} AgreesIffNoSpaceBefore(base: string)
    requires Clean(Trim(base))
    ensures base != "" && TrimDots(Trim(base)) == Trim(base)
    ensures RoutedTail(base) == PlannedTail(base) <==> !IsSpace(base[0])
  {
    hide Lower, TrimRight, TrimDots, TrimDotsRight, DropDot, Trim;
    var t := Trim(base);
    TrimEnds(base);
    TrimRightSpec(base);
    TrimDotsSpec(t);
    TrimDotsSpec(base);
    assert t[0] != '.' && !IsSpace(t[0]) && t[|t| - 1] != '.' && !IsSpace(t[|t| - 1]);
    var u := TrimRight(base);
    assert TrimDots(base) == base by {
      assert !IsSpace(base[|base| - 1]) ==> u == base;
    }
    DottedTail(t);
    LowerKeepsEnd(t);
    TrimRightPrepend(".", base);
    DottedTail(u);
    assert RoutedTail(base) == Lower("." + t) && PlannedTail(base) == Lower("." + u);
    if IsSpace(base[0]) {
      assert ("." + u)[1] == u[0] && ("." + t)[1] == t[0];
      LowerKeepsMarks("." + u, 1);
      LowerKeepsMarks("." + t, 1);
    }
  }

  // ---- the whole plan ----------------------------------------------------

  /**
   Every name the edge routes is covered by the plan, by name or by its project's wildcard, for services
   and projects with valid names and a base domain both sides spell the same way. The routes are those
   whose certificates come from the ACME source; the other sources plan nothing.
   */
  lemma {:induction false} EveryRouteIsCovered(routes: seq<Route>, o: Options, i: nat, host: string)
    requires i < |routes| && host in DomainsFor(routes[i], o.baseDomain)
    requires IsLabel(routes[i].service) && IsLabel(routes[i].project)
    requires routes[i].declared == [] ==> RoutedTail(o.baseDomain) == PlannedTail(o.baseDomain)
    ensures var es := Map(r => ExposureOf(r, o.baseDomain), routes);
            exists q :: q in Requests(es, o) && (host in q.domains || CoversHost(q.domains, host))
  {
    hide Requests, Collapses, CoversHost, Wildcard, IsLabel, Canonical, Trim, TrimDots, RoutedTail, PlannedTail;
    var es := Map(r => ExposureOf(r, o.baseDomain), routes);
    var r, e := routes[i], es[i];
    assert e in es;
    ExposureIsServed(es, o, e);
    if Collapses(es, o) && Collapsible(e, o) {
      assert r.first && host == DomainsFor(r, o.baseDomain)[0];
      WildcardCoversRouteIff(r, o);
      assert Wildcard(r.project, o) in Requests(es, o);
    } else {
      assert Single(e) in Requests(es, o) && host in Single(e).domains;
    }
  }

  /** A space in front of a base domain takes every name routed under it out of its project's wildcard. */
  lemma {:induction false} SpaceBeforeLosesCoverage(r: Route, base: string, wildcards: bool, threshold: int)
    requires IsLabel(r.service) && IsLabel(r.project) && r.declared == [] && r.first && Clean(base)
    ensures var o := Options(" " + base, wildcards, threshold);
            && |DomainsFor(r, o.baseDomain)| == 1
            && !CoversHost(Wildcard(r.project, o).domains, DomainsFor(r, o.baseDomain)[0])
  {
    hide Trim, TrimDots, Canonical, RoutedTail, PlannedTail, CoversHost, Lower, IsLabel, DomainsFor, Wildcard;
    TrimOneSpace(base);
    AgreesIffNoSpaceBefore(" " + base);
    WildcardCoversRouteIff(r, Options(" " + base, wildcards, threshold));
  }

  /** Service web of project shop under " example.com", which is routed and not covered. */
  lemma {:induction false} SpacedBaseIsNotCovered()
    ensures var r, o := Route("web", "shop", [], true), Options(" example.com", true, 1);
            && |DomainsFor(r, o.baseDomain)| == 1
            && !CoversHost(Wildcard(r.project, o).domains, DomainsFor(r, o.baseDomain)[0])
  {
    hide DomainsFor, CoversHost, Wildcard;
    var base := "example.com";
    assert Clean(base);
    assert IsLabel("web") && IsLabel("shop");
    assert " example.com" == " " + base;
    SpaceBeforeLosesCoverage(Route("web", "shop", [], true), base, true, 1);
  }

  lemma {:induction false} TrimOneSpace(s: string)
    requires Clean(s)
    ensures Trim(" " + s) == s
  {
    assert (" " + s)[1..] == s;
    TrimKeeps(s);
  }

  // ---- which names are routed --------------------------------------------

  lemma {:induction false} DropEmptyLaw(s: seq<string>)
    ensures forall y :: y in DropEmpty(s) <==> y in s && y != ""
  {
    if s != [] {
      DropEmptyLaw(s[1..]);
    }
  }

  /** Declared domains are routed in lower case without the dots and whitespace around them, and no others are. */
  lemma {:induction false} DeclaredAreRouted(r: Route, baseDomain: string)
    requires r.declared != []
    ensures forall host :: host in DomainsFor(r, baseDomain) <==>
              host != "" && exists i :: 0 <= i < |r.declared| && host == Lower(TrimDots(Trim(r.declared[i])))
  {
    hide Lower, TrimDots, Trim;
    var named := Map(Canonical, r.declared);
    DropEmptyLaw(named);
    forall host ensures host in DomainsFor(r, baseDomain) <==>
                        host != "" && exists i :: 0 <= i < |r.declared| && host == Lower(TrimDots(Trim(r.declared[i])))
    {
      if host in named {
        var i :| 0 <= i < |named| && named[i] == host;
        assert host == Lower(TrimDots(Trim(r.declared[i])));
      }
      if i :| 0 <= i < |r.declared| && host == Lower(TrimDots(Trim(r.declared[i]))) {
        assert named[i] == host;
      }
    }
  }

  /** A route without declared domains gets one name, from the first block only and under a base domain only. */
  lemma {:induction false} GeneratedIsRouted(r: Route, baseDomain: string)
    requires r.declared == []
    ensures var base := TrimDots(Trim(baseDomain));
            DomainsFor(r, baseDomain) ==
              if r.first && base != "" then [Lower(TrimDots(Trim(r.service + "." + r.project + "." + base)))] else []
  {
  }

  /** The planner's view of a route: its names, and whether they are generated. */
  lemma {:induction false} ExposureIs(r: Route, baseDomain: string)
    ensures var e := ExposureOf(r, baseDomain);
            && e.service == r.project + "/" + r.service && e.project == r.project
            && e.domains == DomainsFor(r, baseDomain) && (e.auto <==> r.declared == [])
  {
  }
}
