/**
 Planning certificate requests (internal/acme/plan.go): one request per exposed service while there are
 few, one wildcard per project for the generated names once there are many.
 */
module AcmePlan {
  import opened Wrappers
  import opened Text

  datatype Exposure = Exposure(service: string, project: string, domains: seq<string>, auto: bool)

  datatype Request = Request(domains: seq<string>, service: string)

  datatype Options = Options(baseDomain: string, wildcards: bool, threshold: int)

  datatype Plan = Plan(requests: seq<Request>, perService: nat, wildcard: nat, overThreshold: bool)

  const DEFAULT_WILDCARD_THRESHOLD := 20

  // ---- the plan, as a whole ----------------------------------------------

  function Threshold(o: Options): int {
    if o.threshold <= 0 then DEFAULT_WILDCARD_THRESHOLD else o.threshold
  }

  /** Only generated names under a configured base can be collapsed. */
  predicate Collapsible(e: Exposure, o: Options) {
    e.domains != [] && e.auto && o.baseDomain != ""
  }

  function Kept(es: seq<Exposure>, o: Options): seq<Exposure> {
    if es == [] then []
    else
      var e := es[|es| - 1];
      Kept(es[..|es| - 1], o) + if e.domains != [] && !Collapsible(e, o) then [e] else []
  }

  function InProject(es: seq<Exposure>, o: Options, project: string): seq<Exposure> {
    if es == [] then []
    else
      var e := es[|es| - 1];
      InProject(es[..|es| - 1], o, project) + if Collapsible(e, o) && e.project == project then [e] else []
  }

  function ProjectNames(es: seq<Exposure>, o: Options): seq<string> {
    if es == [] then []
    else
      ProjectNames(es[..|es| - 1], o) + if Collapsible(es[|es| - 1], o) then [es[|es| - 1].project] else []
  }

  function Projects(es: seq<Exposure>, o: Options): seq<string> {
    SortUnique(ProjectNames(es, o))
  }

  /** How many exposures want a certificate. */
  function Wanting(es: seq<Exposure>): nat {
    if es == [] then 0 else Wanting(es[..|es| - 1]) + if es[|es| - 1].domains != [] then 1 else 0
  }

  predicate Collapses(es: seq<Exposure>, o: Options) {
    o.wildcards && Wanting(es) > Threshold(o)
  }

  /** strings.Trim(s, "."). */
  function TrimDots(s: string): string {
    if s != "" && s[0] == '.' then TrimDots(s[1..])
    else if s != "" && s[|s| - 1] == '.' then TrimDots(s[..|s| - 1])
    else s
  }

  function Suffix(project: string, o: Options): string {
    project + "." + TrimDots(o.baseDomain)
  }

  function Single(e: Exposure): Request {
    Request(e.domains, e.service)
  }

  function Wildcard(project: string, o: Options): Request {
    Request(["*." + Suffix(project, o), Suffix(project, o)], project + " (wildcard)")
  }

  function ForProject(es: seq<Exposure>, o: Options, project: string): seq<Request> {
    if Collapses(es, o) then [Wildcard(project, o)] else Map(Single, InProject(es, o, project))
  }

  function ForProjects(es: seq<Exposure>, o: Options, projects: seq<string>): seq<Request> {
    if projects == [] then []
    else ForProjects(es, o, projects[..|projects| - 1]) + ForProject(es, o, projects[|projects| - 1])
  }

  function Requests(es: seq<Exposure>, o: Options): seq<Request> {
    Map(Single, Kept(es, o)) + ForProjects(es, o, Projects(es, o))
  }

  // ---- counting ----------------------------------------------------------

  function GroupSizes(es: seq<Exposure>, o: Options, projects: seq<string>): nat {
    if projects == [] then 0
    else GroupSizes(es, o, projects[..|projects| - 1]) + |InProject(es, o, projects[|projects| - 1])|
  }

  lemma {:induction false} GroupSizesGrow(es: seq<Exposure>, o: Options, projects: seq<string>)
    requires es != [] && Ascending(projects)
    ensures var e := es[|es| - 1];
            GroupSizes(es, o, projects) == GroupSizes(es[..|es| - 1], o, projects)
              + if Collapsible(e, o) && e.project in projects then 1 else 0
    decreases |projects|
  {
    if projects != [] {
      var front, last := projects[..|projects| - 1], projects[|projects| - 1];
      GroupSizesGrow(es, o, front);
      if last in front {
        LessIrreflexive(last);
      }
      assert projects == front + [last];
    }
  }

  /** Every exposure that wants a certificate is kept or is in exactly one listed project. */
  lemma {:induction false} GroupsPartition(es: seq<Exposure>, o: Options, projects: seq<string>)
    requires Ascending(projects) && forall p :: p in ProjectNames(es, o) ==> p in projects
    ensures |Kept(es, o)| + GroupSizes(es, o, projects) == Wanting(es)
  {
    if es == [] {
      NoGroups(o, projects);
    } else {
      assert forall p :: p in ProjectNames(es[..|es| - 1], o) ==> p in ProjectNames(es, o);
      GroupsPartition(es[..|es| - 1], o, projects);
      GroupSizesGrow(es, o, projects);
      if Collapsible(es[|es| - 1], o) {
        assert es[|es| - 1].project in ProjectNames(es, o);
      }
    }
  }

  lemma {:induction false} NoGroups(o: Options, projects: seq<string>)
    ensures GroupSizes([], o, projects) == 0
    decreases |projects|
  {
    if projects != [] {
      NoGroups(o, projects[..|projects| - 1]);
    }
  }

  lemma {:induction false} ForProjectsLength(es: seq<Exposure>, o: Options, projects: seq<string>)
    ensures |ForProjects(es, o, projects)| == if Collapses(es, o) then |projects| else GroupSizes(es, o, projects)
    decreases |projects|
  {
    hide Collapses, InProject;
    if projects != [] {
      ForProjectsLength(es, o, projects[..|projects| - 1]);
    }
  }

  /** A project is listed because something in it can be collapsed. */
  lemma {:induction false} ListedHasMembers(es: seq<Exposure>, o: Options, p: string)
    requires p in ProjectNames(es, o)
    ensures InProject(es, o, p) != []
  {
    if !(Collapsible(es[|es| - 1], o) && es[|es| - 1].project == p) {
      ListedHasMembers(es[..|es| - 1], o, p);
    }
  }

  lemma {:induction false} GroupsAreNotEmpty(es: seq<Exposure>, o: Options, projects: seq<string>)
    requires forall p :: p in projects ==> p in ProjectNames(es, o)
    ensures |projects| <= GroupSizes(es, o, projects)
    decreases |projects|
  {
    if projects != [] {
      GroupsAreNotEmpty(es, o, projects[..|projects| - 1]);
      ListedHasMembers(es, o, projects[|projects| - 1]);
    }
  }

  /** Without wildcards, one request an exposure; collapsing never asks for more than that. */
  lemma {:induction false} RequestCount(es: seq<Exposure>, o: Options)
    ensures |Requests(es, o)| <= Wanting(es)
    ensures !Collapses(es, o) ==> |Requests(es, o)| == Wanting(es)
    ensures Collapses(es, o) ==> |Requests(es, o)| == |Kept(es, o)| + |Projects(es, o)|
  {
    hide Collapses, SortUnique;
    SortUniqueSpec(ProjectNames(es, o));
    GroupsPartition(es, o, Projects(es, o));
    ForProjectsLength(es, o, Projects(es, o));
    GroupsAreNotEmpty(es, o, Projects(es, o));
  }

  // ---- coverage ----------------------------------------------------------

  /**
   Whether a certificate name matches a host: the same name, or a wildcard standing for exactly one
   label (section 6.4.3 of RFC 6125; the edge resolves names by the same rule).
   */
  predicate Matches(name: string, host: string) {
    || name == host
    || ("*." <= name && Cut(host, '.').Some? && Cut(host, '.').value.1 == name[2..])
  }

  predicate CoveredBy(host: string, r: Request) {
    exists i :: 0 <= i < |r.domains| && Matches(r.domains[i], host)
  }

  /** A generated name, service.project.base. */
  function Generated(service: string, project: string, o: Options): string {
    service + "." + Suffix(project, o)
  }

  /** A project's wildcard covers a generated name exactly when the service is a single label. */
  lemma {:induction false} WildcardCoversIffOneLabel(service: string, project: string, o: Options)
    ensures CoveredBy(Generated(service, project, o), Wildcard(project, o)) <==> '.' !in service
  {
    var suffix, host := Suffix(project, o), Generated(service, project, o);
    var r := Wildcard(project, o);
    assert host == service + ['.'] + suffix;
    assert ("*." + suffix)[2..] == suffix;
    if '.' !in service {
      CutAtFirst(service, '.', suffix);
      assert Matches(r.domains[0], host);
    } else {
      var cut := Cut(host, '.').value;
      assert host[..|cut.0|] == cut.0 && host[..|service|] == service && ("*." + suffix)[..1] == "*";
      assert cut.1 == suffix ==> cut.0 == service;
      assert r.domains[0] == host ==> service == "*";
      assert |host| > |suffix|;
      assert forall i :: 0 <= i < |r.domains| ==> !Matches(r.domains[i], host) by {
        assert "*." <= suffix ==> |suffix[2..]| < |suffix|;
        assert |cut.1| >= |suffix| by {
          assert '.' in service;
          FirstDotIsEarliest(service, suffix);
        }
      }
    }
  }

  lemma {:induction false} FirstDotIsEarliest(service: string, suffix: string)
    requires '.' in service
    ensures var cut := Cut(service + ['.'] + suffix, '.');
            cut.Some? && |cut.value.0| < |service|
  {
    var host := service + ['.'] + suffix;
    var cut := Cut(host, '.').value;
    var i :| 0 <= i < |service| && service[i] == '.';
    assert host[i] == '.';
    assert forall k :: 0 <= k < |cut.0| ==> cut.0[k] == host[k];
  }

  lemma {:induction false} KeptOrGrouped(es: seq<Exposure>, o: Options, e: Exposure)
    requires e in es && e.domains != []
    ensures Collapsible(e, o) ==> e in InProject(es, o, e.project) && e.project in ProjectNames(es, o)
    ensures !Collapsible(e, o) ==> e in Kept(es, o)
  {
    if e != es[|es| - 1] {
      assert e in es[..|es| - 1];
      KeptOrGrouped(es[..|es| - 1], o, e);
    }
  }

  lemma {:induction false} ProjectIsServed(es: seq<Exposure>, o: Options, projects: seq<string>, p: string, r: Request)
    requires p in projects && r in ForProject(es, o, p)
    ensures r in ForProjects(es, o, projects)
    decreases |projects|
  {
    hide ForProject;
    if p != projects[|projects| - 1] {
      assert p in projects[..|projects| - 1];
      ProjectIsServed(es, o, projects[..|projects| - 1], p, r);
    }
  }

  /** What is asked for on an exposure's behalf: its own names, or its project's wildcard. */
  lemma {:induction false} ExposureIsServed(es: seq<Exposure>, o: Options, e: Exposure)
    requires e in es && e.domains != []
    ensures (if Collapses(es, o) && Collapsible(e, o) then Wildcard(e.project, o) else Single(e)) in Requests(es, o)
  {
    hide Collapses, SortUnique, Collapsible, InProject, Kept;
    KeptOrGrouped(es, o, e);
    if Collapsible(e, o) {
      SortUniqueSpec(ProjectNames(es, o));
      var group := InProject(es, o, e.project);
      var i :| 0 <= i < |group| && group[i] == e;
      assert Map(Single, group)[i] == Single(e);
      ProjectIsServed(es, o, Projects(es, o), e.project,
                      if Collapses(es, o) then Wildcard(e.project, o) else Single(e));
    } else {
      var i :| 0 <= i < |Kept(es, o)| && Kept(es, o)[i] == e;
      assert Map(Single, Kept(es, o))[i] == Single(e);
    }
  }

  /** The name is generated for a service that is one label. */
  ghost predicate GeneratedName(host: string, project: string, o: Options) {
    exists service :: '.' !in service && host == Generated(service, project, o)
  }

  /** Every name of every exposure is covered by some planned request. */
  lemma {:induction false} PlanCovers(es: seq<Exposure>, o: Options, e: Exposure, host: string)
    requires e in es && host in e.domains
    requires Collapses(es, o) && Collapsible(e, o) ==> GeneratedName(host, e.project, o)
    ensures exists r :: r in Requests(es, o) && CoveredBy(host, r)
  {
    hide Collapses, Requests, Generated, Wildcard;
    ExposureIsServed(es, o, e);
    if Collapses(es, o) && Collapsible(e, o) {
      var service :| '.' !in service && host == Generated(service, e.project, o);
      WildcardCoversIffOneLabel(service, e.project, o);
    } else {
      var i :| 0 <= i < |e.domains| && e.domains[i] == host;
      assert Matches(Single(e).domains[i], host);
    }
  }

  // ---- the planner -------------------------------------------------------

  method PlanRequests(exposures: seq<Exposure>, o: Options) returns (plan: Plan)
    ensures plan.requests == Requests(exposures, o)
    ensures plan.perService + plan.wildcard == |plan.requests|
    ensures plan.wildcard == if Collapses(exposures, o) then |Projects(exposures, o)| else 0
    ensures plan.overThreshold <==>
              Wanting(exposures) > (if o.threshold > 0 then o.threshold else DEFAULT_WILDCARD_THRESHOLD) && !o.wildcards
  {
    hide SortUnique, Kept, InProject, Collapsible, ForProjects;
    var threshold := o.threshold;
    if threshold <= 0 {
      threshold := DEFAULT_WILDCARD_THRESHOLD;
    }
    var custom, byProject := GroupExposures(exposures, o);
    var projects := SortedKeys(byProject);
    ProjectsAreKeys(exposures, o, byProject, projects);
    var grouped := SumGroups(exposures, o, byProject, projects);
    var total := |custom| + grouped;
    GroupsPartition(exposures, o, projects);

    var collapse := o.wildcards && total > threshold;
    var collapsed, wildcard := RequestGroups(exposures, o, byProject, projects, collapse);
    plan := Plan(Map(Single, custom) + collapsed, |custom| + |collapsed| - wildcard, wildcard, total > threshold && !collapse);
  }

  method SumGroups(es: seq<Exposure>, o: Options, byProject: map<string, seq<Exposure>>, projects: seq<string>)
    returns (sum: nat)
    requires forall p :: p in projects ==> p in byProject && byProject[p] == InProject(es, o, p)
    ensures sum == GroupSizes(es, o, projects)
  {
    sum := 0;
    for i := 0 to |projects|
      invariant sum == GroupSizes(es, o, projects[..i])
    {
      assert projects[..i + 1][..i] == projects[..i];
      assert projects[i] in projects;
      sum := sum + |byProject[projects[i]]|;
    }
    assert projects[..|projects|] == projects;
  }

  /** The second pass, project by project. */
  method RequestGroups(
    es: seq<Exposure>, o: Options, byProject: map<string, seq<Exposure>>, projects: seq<string>, collapse: bool)
    returns (requests: seq<Request>, wildcard: nat)
    requires forall p :: p in projects ==> p in byProject && byProject[p] == InProject(es, o, p)
    requires collapse == Collapses(es, o)
    ensures requests == ForProjects(es, o, projects)
    ensures wildcard == if collapse then |requests| else 0
    ensures collapse ==> |requests| == |projects|
  {
    hide Collapses, InProject, Wildcard;
    requests, wildcard := [], 0;
    for i := 0 to |projects|
      invariant requests == ForProjects(es, o, projects[..i])
      invariant wildcard == if collapse then |requests| else 0
      invariant collapse ==> |requests| == i
    {
      assert projects[..i + 1][..i] == projects[..i];
      assert projects[i] in projects;
      if !collapse {
        requests := requests + Map(Single, byProject[projects[i]]);
      } else {
        requests := requests + [Wildcard(projects[i], o)];
        wildcard := wildcard + 1;
      }
    }
    assert projects[..|projects|] == projects;
  }

  /** The first pass: what is kept, and the rest by project. */
  method GroupExposures(es: seq<Exposure>, o: Options)
    returns (custom: seq<Exposure>, byProject: map<string, seq<Exposure>>)
    ensures custom == Kept(es, o)
    ensures forall p :: p in byProject <==> p in ProjectNames(es, o)
    ensures forall p :: p in byProject ==> byProject[p] == InProject(es, o, p)
  {
    hide Kept, InProject, ProjectNames;
    custom, byProject := [], map[];
    NoExposures(o);
    assert es[..0] == [];
    for i := 0 to |es|
      invariant custom == Kept(es[..i], o)
      invariant forall p :: p in byProject <==> p in ProjectNames(es[..i], o)
      invariant forall p :: InProject(es[..i], o, p) == if p in byProject then byProject[p] else []
    {
      var e := es[i];
      NextExposure(es, o, i);
      if |e.domains| == 0 {
        continue;
      }
      if e.auto && o.baseDomain != "" {
        var group := if e.project in byProject then byProject[e.project] else [];
        byProject := byProject[e.project := group + [e]];
        continue;
      }
      custom := custom + [e];
    }
    assert es[..|es|] == es;
  }

  lemma {:induction false} NoExposures(o: Options)
    ensures Kept([], o) == [] && ProjectNames([], o) == [] && forall p :: InProject([], o, p) == []
  {
  }

  lemma {:induction false} NextExposure(es: seq<Exposure>, o: Options, i: nat)
    requires i < |es|
    ensures var e, upTo := es[i], es[..i + 1];
            && Kept(upTo, o) == Kept(es[..i], o) + (if e.domains != [] && !Collapsible(e, o) then [e] else [])
            && ProjectNames(upTo, o) == ProjectNames(es[..i], o) + (if Collapsible(e, o) then [e.project] else [])
            && forall p :: InProject(upTo, o, p)
                        == InProject(es[..i], o, p) + if Collapsible(e, o) && e.project == p then [e] else []
  {
    hide Collapsible;
    assert es[..i + 1][..i] == es[..i];
  }

  /** The keys, sorted. */
  method SortedKeys<T>(m: map<string, T>) returns (keys: seq<string>)
    ensures Ascending(keys) && forall k :: k in keys <==> k in m
  {
    keys := [];
    var rest := m.Keys;
    while rest != {}
      invariant rest <= m.Keys && Ascending(keys)
      invariant forall k :: k in keys <==> k in m && k !in rest
      decreases |rest|
    {
      var k :| k in rest;
      InsertAscends(k, keys);
      keys := Insert(k, keys);
      rest := rest - {k};
    }
  }

  lemma {:induction false} ProjectsAreKeys(es: seq<Exposure>, o: Options, byProject: map<string, seq<Exposure>>, keys: seq<string>)
    requires forall p :: p in byProject <==> p in ProjectNames(es, o)
    requires Ascending(keys) && forall k :: k in keys <==> k in byProject
    ensures keys == Projects(es, o)
  {
    SortUniqueSpec(ProjectNames(es, o));
    AscendingUnique(keys, Projects(es, o));
  }

  // ---- the plan, request by request --------------------------------------

  /** How many exposures have a name. */
  lemma {:induction false} WantingCounts(es: seq<Exposure>)
    ensures Wanting(es) == |set i | 0 <= i < |es| && es[i].domains != []|
  {
    if es != [] {
      var front, last := es[..|es| - 1], |es| - 1;
      WantingCounts(front);
      var a, b := set i | 0 <= i < |front| && front[i].domains != [], set i | 0 <= i < |es| && es[i].domains != [];
      assert b == if es[last].domains != [] then a + {last} else a;
    }
  }

  /** Wildcards are used when they can be and more exposures want a certificate than the threshold, 20 unless set. */
  lemma {:induction false} CollapsesIff(es: seq<Exposure>, o: Options)
    ensures Collapses(es, o) <==>
              o.wildcards && |set i | 0 <= i < |es| && es[i].domains != []| > if o.threshold > 0 then o.threshold else 20
  {
    WantingCounts(es);
  }

  /**
   What is asked for an exposure with names: its own, unless wildcards are used, the names are generated
   and there is a base domain; then its project's wildcard and the name above it.
   */
  lemma {:induction false} AskedFor(es: seq<Exposure>, o: Options, e: Exposure)
    requires e in es && e.domains != []
    ensures var suffix := e.project + "." + TrimDots(o.baseDomain);
            (if Collapses(es, o) && e.auto && o.baseDomain != ""
             then Request(["*." + suffix, suffix], e.project + " (wildcard)")
             else Request(e.domains, e.service)) in Requests(es, o)
  {
    ExposureIsServed(es, o, e);
  }

  /** And nothing is asked for but on some exposure's behalf. */
  lemma {:induction false} NothingElseIsAskedFor(es: seq<Exposure>, o: Options, q: Request)
    requires q in Requests(es, o)
    ensures exists e :: e in es && e.domains != [] && q ==
              if Collapses(es, o) && e.auto && o.baseDomain != ""
              then Request(["*." + (e.project + "." + TrimDots(o.baseDomain)), e.project + "." + TrimDots(o.baseDomain)],
                           e.project + " (wildcard)")
              else Request(e.domains, e.service)
  {
    hide Collapses, SortUnique, TrimDots;
    var kept := Map(Single, Kept(es, o));
    if q in kept {
      var i :| 0 <= i < |kept| && kept[i] == q;
      KeptAreKept(es, o, Kept(es, o)[i]);
    } else {
      var p := ProjectAsking(es, o, Projects(es, o), q);
      SortUniqueSpec(ProjectNames(es, o));
      if Collapses(es, o) {
        ListedHasMembers(es, o, p);
        GroupedAreGrouped(es, o, p, InProject(es, o, p)[0]);
      } else {
        var group := Map(Single, InProject(es, o, p));
        var i :| 0 <= i < |group| && group[i] == q;
        GroupedAreGrouped(es, o, p, InProject(es, o, p)[i]);
      }
    }
  }

  lemma {:induction false} ProjectAsking(es: seq<Exposure>, o: Options, projects: seq<string>, q: Request) returns (p: string)
    requires q in ForProjects(es, o, projects)
    ensures p in projects && q in ForProject(es, o, p)
    decreases |projects|
  {
    hide ForProject;
    if q in ForProject(es, o, projects[|projects| - 1]) {
      p := projects[|projects| - 1];
    } else {
      p := ProjectAsking(es, o, projects[..|projects| - 1], q);
    }
  }

  lemma {:induction false} KeptAreKept(es: seq<Exposure>, o: Options, e: Exposure)
    requires e in Kept(es, o)
    ensures e in es && e.domains != [] && !(e.auto && o.baseDomain != "")
  {
    if e in Kept(es[..|es| - 1], o) {
      KeptAreKept(es[..|es| - 1], o, e);
    }
  }

  lemma {:induction false} GroupedAreGrouped(es: seq<Exposure>, o: Options, p: string, e: Exposure)
    requires e in InProject(es, o, p)
    ensures e in es && e.domains != [] && e.auto && o.baseDomain != "" && e.project == p
  {
    if e in InProject(es[..|es| - 1], o, p) {
      GroupedAreGrouped(es[..|es| - 1], o, p, e);
    }
  }

  /** strings.Trim with a dot: dots off both ends and nothing else. */
  lemma {:induction false} TrimDotsLaw(s: string) returns (i: nat, j: nat)
    ensures i <= j <= |s| && TrimDots(s) == s[i..j]
    ensures forall k :: 0 <= k < i || j <= k < |s| ==> s[k] == '.'
    ensures i < j ==> s[i] != '.' && s[j - 1] != '.'
    decreases |s|
  {
    if s != "" && s[0] == '.' {
      var t := s[1..];
      i, j := TrimDotsLaw(t);
      i, j := i + 1, j + 1;
      assert forall k :: 1 <= k < |s| ==> s[k] == t[k - 1];
    } else if s != "" && s[|s| - 1] == '.' {
      i, j := TrimDotsLaw(s[..|s| - 1]);
    } else {
      i, j := 0, |s|;
    }
  }
}
