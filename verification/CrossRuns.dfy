/** From a workspace to the projects that are run (projects.py `resolve`, web/server.py, fanout.py). */
module CrossRuns {
  import opened Collections
  import opened Wrappers
  import opened Text
  import opened Cycles
  import opened Slugs
  import opened Waves
  import opened ProjectDeps
  import opened Workspaces

  const DEFAULT_PROJECT: Slug := "default"

  /** A valid project: the default one for blank or unknown input. */
  function Resolve(known: set<Slug>, s: string): Slug {
    if s == "" then DEFAULT_PROJECT else if Slugify(s) in known then Slugify(s) else DEFAULT_PROJECT
  }

  function Resolver(known: set<Slug>): string -> Slug {
    s => Resolve(known, s)
  }

  /** The images that are not empty, each once, in order. */
  function Each(f: string -> string, names: seq<string>): (r: seq<string>)
    decreases |names|
  {
    if names == [] then []
    else
      var before, x := Each(f, names[..|names| - 1]), f(names[|names| - 1]);
      if x == "" || x in before then before else before + [x]
  }

  /** What is queued: one project, or several with a dependency map. */
  datatype Request = One(project: string) | Many(projects: seq<string>, deps: Relation<Slug>)

  /** What then runs. */
  datatype Launch = Launch(projects: seq<Slug>, deps: Relation<Slug>)

  datatype RunError = UnknownProjects(names: seq<string>) | NoProjects | BadRequest(error: RegistryError)

  /** Validation and the wave builder take the dependencies. */
  ghost predicate Accepted(slugs: seq<Slug>, deps: RawDeps) {
    (forall k :: 0 <= k < |deps| ==> Acceptable(slugs, deps[k])) && !CyclicIn(Normalized(deps), AsSet(slugs))
  }

  /** What is queued for a request, if anything. */
  ghost function Requested(known: set<Slug>, project: string, names: seq<string>, deps: RawDeps): Option<Request> {
    var asked := Each(Strip, names);
    if asked == [] then Some(One(project))
    else if exists s :: s in asked && s !in known then None
    else if |asked| == 1 then Some(One(asked[0]))
    else if Accepted(asked, deps) then Some(Many(asked, Normalized(deps)))
    else None
  }

  /** What runs of several projects, if anything. */
  ghost function CrossLaunch(known: set<Slug>, names: seq<string>, deps: RawDeps): Option<Launch> {
    var slugs := Each(Resolver(known), names);
    if slugs != [] && Accepted(slugs, deps) then Some(Launch(slugs, Normalized(deps))) else None
  }

  /** What runs of a request, its dependency map being read in the order of `again`. */
  ghost function Launched(known: set<Slug>, request: Request, again: RawDeps): Option<Launch> {
    match request
    case One(project) => Some(Launch([Resolve(known, project)], map[]))
    case Many(projects, _) => CrossLaunch(known, projects, again)
  }

  ghost function WholeRun(known: set<Slug>, chosen: seq<Slug>, items: RawDeps, again: RawDeps): Option<Launch> {
    match Requested(known, "", chosen, items)
    case None => None
    case Some(request) => Launched(known, request, again)
  }

  /** `again` lists the dependencies that are queued. */
  ghost predicate ReadAgain(known: set<Slug>, chosen: seq<Slug>, items: RawDeps, again: RawDeps) {
    match Requested(known, "", chosen, items)
    case Some(Many(_, deps)) => Lists(deps, again)
    case _ => true
  }

  // ---- the loops

  lemma EachNext(f: string -> string, names: seq<string>, i: nat)
    requires i < |names|
    ensures var before, x := Each(f, names[..i]), f(names[i]);
            Each(f, names[..i + 1]) == if x == "" || x in before then before else before + [x]
  {
    assert names[..i + 1][..i] == names[..i];
  }

  method ResolveAll(known: set<Slug>, names: seq<string>) returns (slugs: seq<Slug>)
    ensures slugs == Each(Resolver(known), names) && Distinct(slugs) && (slugs == [] <==> names == [])
  {
    hide Each, Resolve, Slugged;
    slugs := [];
    assert Each(Resolver(known), names[..0]) == [] by { NoneEach(Resolver(known)); }
    for i := 0 to |names|
      invariant slugs == Each(Resolver(known), names[..i]) && Distinct(slugs) && (slugs == [] <==> i == 0)
    {
      var s := Resolve(known, names[i]);
      EachNext(Resolver(known), names, i);
      ResolvedIsNamed(known, names[i]);
      if s !in slugs {
        slugs := slugs + [s];
      }
    }
    assert names[..|names|] == names;
  }

  lemma NoneEach(f: string -> string)
    ensures Each(f, []) == []
  {
  }

  lemma ResolvedIsNamed(known: set<Slug>, s: string)
    ensures Resolve(known, s) != ""
  {
    hide Slugify;
    SlugifyHyphenates(s);
  }

  method CleanNames(names: seq<string>) returns (asked: seq<string>)
    ensures asked == Each(Strip, names) && Distinct(asked)
  {
    hide Each, Strip;
    asked := [];
    assert Each(Strip, names[..0]) == [] by { NoneEach(Strip); }
    for i := 0 to |names|
      invariant asked == Each(Strip, names[..i]) && Distinct(asked)
    {
      var s := Strip(names[i]);
      EachNext(Strip, names, i);
      if s != "" && s !in asked {
        asked := asked + [s];
      }
    }
    assert names[..|names|] == names;
  }

  method UnknownOf(known: set<Slug>, asked: seq<string>) returns (unknown: seq<string>)
    ensures unknown == [] <==> forall s :: s in asked ==> s in known
  {
    unknown := [];
    for i := 0 to |asked|
      invariant unknown == [] <==> forall k :: 0 <= k < i ==> asked[k] in known
    {
      if asked[i] !in known {
        unknown := unknown + [asked[i]];
      }
    }
  }

  /** The start of `run_cross_project`: nothing is run before all this is known. */
  method CrossRun(known: set<Slug>, names: seq<string>, deps: RawDeps) returns (r: Result<Launch, RunError>)
    ensures r.Ok? <==> CrossLaunch(known, names, deps).Some?
    ensures r.Ok? ==> r.value == CrossLaunch(known, names, deps).value
  {
    hide Each, Acceptable, CyclicIn, Normalized, WellFormed;
    var slugs := ResolveAll(known, names);
    if slugs == [] {
      return Err(NoProjects);
    }
    var norm := CheckDeps(slugs, deps);
    if norm.Err? {
      return Err(BadRequest(norm.error));
    }
    r := Ok(Launch(slugs, norm.value));
  }

  /** `start_run`, up to what it queues. */
  method StartRun(known: set<Slug>, project: string, names: seq<string>, deps: RawDeps)
    returns (r: Result<Request, RunError>)
    ensures r.Ok? <==> Requested(known, project, names, deps).Some?
    ensures r.Ok? ==> r.value == Requested(known, project, names, deps).value
  {
    hide Each, Acceptable, CyclicIn, Normalized, WellFormed;
    var asked := CleanNames(names);
    if asked == [] {
      return Ok(One(project));
    }
    var unknown := UnknownOf(known, asked);
    if unknown != [] {
      return Err(UnknownProjects(unknown));
    }
    if |asked| == 1 {
      return Ok(One(asked[0]));
    }
    if deps == [] {
      NoDepsAreAccepted(asked);
      return Ok(Many(asked, map[]));
    }
    var norm := CheckDeps(asked, deps);
    if norm.Err? {
      return Err(BadRequest(norm.error));
    }
    r := Ok(Many(asked, norm.value));
  }

  lemma NoDepsAreAccepted(slugs: seq<Slug>)
    ensures Accepted(slugs, []) && Normalized([]) == map[]
  {
    NoEdgesNoCycle(AsSet(slugs));
  }

  /** The entries of a dictionary, in whatever order. */
  method ItemsOf(deps: Relation<Slug>) returns (items: RawDeps)
    ensures Lists(deps, items)
  {
    items := [];
    var rest := deps.Keys;
    while rest != {}
      invariant rest <= deps.Keys
      invariant forall i, j :: 0 <= i < j < |items| ==> items[i].0 != items[j].0
      invariant forall i :: 0 <= i < |items| ==>
                  items[i].0 in deps && deps[items[i].0] == items[i].1 && items[i].0 !in rest
      invariant forall k :: k in deps && k !in rest ==> Named(items, |items|, k)
      decreases |rest|
    {
      var key :| key in rest;
      ghost var before := items;
      rest := rest - {key};
      items := items + [(key, deps[key])];
      forall k | k in deps && k !in rest ensures Named(items, |items|, k) {
        if k == key {
          assert items[|before|].0 == k;
        } else {
          var i :| 0 <= i < |before| && before[i].0 == k;
          assert items[i].0 == k;
        }
      }
    }
  }

  /** The queued request is taken up again. */
  method Begin(known: set<Slug>, request: Request) returns (r: Result<Launch, RunError>, ghost again: RawDeps)
    ensures request.Many? ==> Lists(request.deps, again)
    ensures r.Ok? <==> Launched(known, request, again).Some?
    ensures r.Ok? ==> r.value == Launched(known, request, again).value
  {
    hide Each, Accepted, Normalized, Lists;
    again := [];
    match request
    case One(project) =>
      r := Ok(Launch([Resolve(known, project)], map[]));
    case Many(projects, deps) =>
      var items := ItemsOf(deps);
      again := items;
      r := CrossRun(known, projects, items);
  }

  /** `run_workspace` and what comes of it.  The members that are chosen run, with the edges among
      them, if and only if none has a slug that was cut after a hyphen. */
  method RunWorkspace(registry: Registry, slug: Slug, subset: Option<seq<string>>, known: set<Slug>)
    returns (r: Result<Launch, RunError>)
    requires registry.Valid()
    ensures (forall i :: 0 <= i < |registry.items| ==> registry.items[i].slug != slug) ==> r.Err?
    ensures forall i :: 0 <= i < |registry.items| && registry.items[i].slug == slug ==>
              var w := registry.items[i];
              var chosen := if subset.None? then w.members else DedupSlugs(subset.value);
              var deps := Restrict(w.deps, AsSet(chosen));
              if chosen == [] || exists s :: s in chosen && !(s in w.members && s in known) then r.Err?
              else
                && (r == Ok(Launch(chosen, deps)) <==> forall s :: s in chosen ==> IsSlug(s))
                && (r.Ok? && r.value.deps == deps <==> NamesAreSlugs(deps))
                && (r.Ok? ==> r.value.projects == Each(Resolver(known), chosen))
  {
    hide Slugify, WellFormed, Restrict, Cleaned, Slugged, IsSlug, NamesAreSlugs, Each, Lists, Sound;
    hide Requested, Launched;
    var spec := registry.RunSpec(slug, subset);
    if subset.Some? { DedupHasAll(subset.value); }
    if spec.Err? {
      return Err(BadRequest(spec.error));
    }
    var (chosen, deps) := spec.value;
    if chosen == [] {
      return Err(NoProjects);
    }
    var items := ItemsOf(deps);
    var request := StartRun(known, "", chosen, items);
    ghost var again: RawDeps := [];
    if request.Err? {
      r := Err(request.error);
    } else {
      r, again := Begin(known, request.value);
    }
    if forall s :: s in chosen ==> s in known {
      RunsAsAskedIff(known, chosen, deps, items, again);
    } else {
      UnknownIsRefused(known, chosen, items);
    }
  }

  lemma DedupHasAll(names: seq<string>)
    ensures forall k :: 0 <= k < |names| ==> Slugify(names[k]) in DedupSlugs(names)
  {
    hide Slugify, Cleaned;
    CleanedIs(names, []);
    forall k | 0 <= k < |names| ensures Slugify(names[k]) in DedupSlugs(names) {
      SlugSetHasAll(names, k);
      assert Slugify(names[k]) in AsSet(DedupSlugs(names));
    }
  }

  lemma {:induction false} SlugSetHasAll(ups: seq<string>, k: nat)
    requires k < |ups|
    ensures Slugify(ups[k]) in SlugSet(ups)
  {
    hide Slugify;
    if k > 0 {
      SlugSetHasAll(ups[1..], k - 1);
    }
  }

  // ---- which projects run

  /** Slugs of known projects resolve to themselves if and only if none was cut after a hyphen. */
  lemma ResolvedIff(known: set<Slug>, chosen: seq<Slug>)
    requires forall s :: s in chosen ==> Slugged(s) && s in known
    ensures (forall s :: s in chosen ==> Resolve(known, s) == s) <==> (forall s :: s in chosen ==> IsSlug(s))
    ensures forall s :: s in chosen ==> IsSlug(Resolve(known, s))
  {
    hide Slugged, IsSlug, Resolve, Slugify;
    forall s | s in chosen ensures (Resolve(known, s) == s <==> IsSlug(s)) && IsSlug(Resolve(known, s)) {
      OneResolved(known, s);
    }
  }

  lemma OneResolved(known: set<Slug>, s: Slug)
    requires Slugged(s) && s in known
    ensures Resolve(known, s) == s <==> IsSlug(s)
    ensures IsSlug(Resolve(known, s))
  {
    SluggedTwice(s);
    DefaultIsSlug();
    hide Slugify, Hyphenated;
  }

  lemma DefaultIsSlug()
    ensures IsSlug(DEFAULT_PROJECT)
  {
  }

  lemma {:induction false} EachHas(f: string -> string, names: seq<string>, y: string)
    ensures y in Each(f, names) <==> y != "" && exists x :: x in names && f(x) == y
    decreases |names|
  {
    if names != [] {
      var n := |names| - 1;
      EachHas(f, names[..n], y);
      assert names == names[..n] + [names[n]];
    }
  }

  lemma {:induction false} EachFixed(f: string -> string, names: seq<string>)
    requires Distinct(names) && forall x :: x in names ==> x != "" && f(x) == x
    ensures Each(f, names) == names
    decreases |names|
  {
    if names != [] {
      var n := |names| - 1;
      assert names == names[..n] + [names[n]];
      assert forall x :: x in names[..n] ==> x in names;
      EachFixed(f, names[..n]);
    }
  }

  lemma SluggedStays(s: string)
    requires Slugged(s)
    ensures s != "" && Strip(s) == s
  {
    NothingToStrip(s);
  }

  /** Only the names in a dependency map matter for it to be well formed. */
  lemma WellFormedOver(a: set<Slug>, b: set<Slug>, deps: Relation<Slug>)
    requires WellFormed(a, deps) && forall x, y :: Edge(deps, x, y) ==> x in b && y in b
    ensures WellFormed(b, deps)
  {
    forall k | k in deps ensures k in b { assert Edge(deps, k, deps[k][0]); }
    forall p | IsCycle(deps, p) && (forall i :: 0 <= i < |p| ==> p[i] in b) ensures false {
      forall i | 0 <= i < |p| ensures p[i] in a {
        if i < |p| - 1 { assert Edge(deps, p[i], p[i + 1]); } else { assert Edge(deps, p[0], p[0 + 1]); }
      }
    }
  }

  /** The names of a well-formed map are in `slugs` as soon as those that resolve to themselves are. */
  lemma NamedAreThere(known: set<Slug>, chosen: seq<Slug>, deps: Relation<Slug>)
    requires WellFormed(AsSet(chosen), deps) && NamesAreSlugs(deps)
    requires forall s :: s in chosen ==> Slugged(s) && s in known
    ensures WellFormed(AsSet(Each(Resolver(known), chosen)), deps)
  {
    hide Slugged, IsSlug, Resolve, Slugify, Each, CyclicIn;
    var slugs := Each(Resolver(known), chosen);
    forall x, y | Edge(deps, x, y) ensures x in AsSet(slugs) && y in AsSet(slugs) {
      assert x in AsSet(chosen) && y in AsSet(chosen);
      StaysThere(known, chosen, x);
      StaysThere(known, chosen, y);
    }
    WellFormedOver(AsSet(chosen), AsSet(slugs), deps);
  }

  lemma StaysThere(known: set<Slug>, chosen: seq<Slug>, x: Slug)
    requires x in chosen && Slugged(x) && x in known && IsSlug(x)
    ensures x in Each(Resolver(known), chosen)
  {
    hide Resolve, Slugify, Each;
    OneResolved(known, x);
    assert Resolver(known)(x) == x;
    EachHas(Resolver(known), chosen, x);
  }

  /** Of one project there are no edges. */
  lemma AloneHasNoEdges(s: Slug, deps: Relation<Slug>)
    requires WellFormed(AsSet([s]), deps)
    ensures deps == map[]
  {
    forall k | k in deps ensures false {
      assert Edge(deps, k, deps[k][0]) && k in AsSet([s]);
    }
  }

  lemma ListedNames(nodes: set<Slug>, deps: Relation<Slug>, items: RawDeps)
    requires Lists(deps, items) && Closed(deps, nodes) && deps.Keys <= nodes && forall s :: s in nodes ==> Slugged(s)
    ensures NamesAreSlugs(Normalized(items))
  {
    hide Slugged, NamesAreSlugs, Normalized;
    forall item | item in items ensures Slugged(item.0) && forall u :: u in item.1 ==> Slugged(u) {
      assert item.0 in deps && deps[item.0] == item.1;
      forall u | u in item.1 ensures Slugged(u) { assert Edge(deps, item.0, u); }
    }
    NormalizedNames(items);
  }

  ghost predicate Chosen(known: set<Slug>, chosen: seq<Slug>, deps: Relation<Slug>, items: RawDeps) {
    && chosen != [] && Distinct(chosen) && (forall s :: s in chosen ==> Slugged(s) && s in known)
    && WellFormed(AsSet(chosen), deps) && Lists(deps, items)
  }

  /** A request for chosen members is taken as it is. */
  lemma AskedAsChosen(chosen: seq<Slug>)
    requires Distinct(chosen) && forall s :: s in chosen ==> Slugged(s)
    ensures Each(Strip, chosen) == chosen
  {
    hide Slugged, Strip, Each;
    forall s | s in chosen ensures s != "" && Strip(s) == s { SluggedStays(s); }
    EachFixed(Strip, chosen);
  }

  lemma UnknownIsRefused(known: set<Slug>, chosen: seq<Slug>, items: RawDeps)
    requires Distinct(chosen) && (forall s :: s in chosen ==> Slugged(s)) && exists s :: s in chosen && s !in known
    ensures Requested(known, "", chosen, items) == None
  {
    hide Slugged, Each, Accepted, Normalized, Distinct;
    AskedAsChosen(chosen);
  }

  lemma OneRuns(known: set<Slug>, s: Slug, deps: Relation<Slug>, items: RawDeps, again: RawDeps)
    requires Chosen(known, [s], deps, items)
    ensures deps == map[] && WholeRun(known, [s], items, again) == Some(Launch(Each(Resolver(known), [s]), deps))
  {
    hide Slugged, Resolve, WellFormed, Lists, Accepted;
    AskedAsChosen([s]);
    AloneHasNoEdges(s, deps);
    ResolvedIsNamed(known, s);
    EachOne(Resolver(known), s);
  }

  lemma EachOne(f: string -> string, s: string)
    requires f(s) != ""
    ensures Each(f, [s]) == [f(s)]
  {
    assert [s][..0] == [] && Each(f, []) == [];
  }

  /** What several run: the dependencies come through if and only if all they name are slugs proper. */
  lemma ManyRun(known: set<Slug>, chosen: seq<Slug>, deps: Relation<Slug>, items: RawDeps, again: RawDeps)
    requires Chosen(known, chosen, deps, items) && |chosen| > 1 && ReadAgain(known, chosen, items, again)
    ensures var run := WholeRun(known, chosen, items, again);
            && (run.Some? && run.value.deps == deps <==> NamesAreSlugs(deps))
            && (run.Some? ==> run.value.projects == Each(Resolver(known), chosen))
  {
    hide Slugged, Resolve, WellFormed, Lists, Acceptable, NamesAreSlugs, Each, Normalized, CyclicIn, Distinct;
    AskedAsChosen(chosen);
    AcceptedUnchangedIff(chosen, deps, items);
    ResolvedHas(known, chosen);
    assert Requested(known, "", chosen, items)
           == if Accepted(chosen, items) then Some(Many(chosen, Normalized(items))) else None;
    if NamesAreSlugs(deps) {
      WellFormedIsAccepted(chosen, deps, items);
      NamedAreThere(known, chosen, deps);
      WellFormedIsAccepted(Each(Resolver(known), chosen), deps, again);
    } else if Accepted(chosen, items) && Accepted(Each(Resolver(known), chosen), again) {
      SecondNames(chosen, deps, items, again);
    }
  }

  lemma ResolvedHas(known: set<Slug>, chosen: seq<Slug>)
    requires chosen != []
    ensures Each(Resolver(known), chosen) != []
  {
    hide Each, Resolve;
    ResolvedIsNamed(known, chosen[0]);
    assert Resolver(known)(chosen[0]) == Resolve(known, chosen[0]);
    EachHas(Resolver(known), chosen, Resolve(known, chosen[0]));
  }

  /** What has been validated twice names slugs proper only. */
  lemma SecondNames(chosen: seq<Slug>, deps: Relation<Slug>, items: RawDeps, again: RawDeps)
    requires WellFormed(AsSet(chosen), deps) && Lists(deps, items) && forall s :: s in chosen ==> Slugged(s)
    requires Accepted(chosen, items) && Lists(Normalized(items), again)
    ensures NamesAreSlugs(Normalized(again))
  {
    hide Slugged, Lists, Acceptable, NamesAreSlugs, Normalized, CyclicIn, Distinct;
    NormalizedIs(chosen, items);
    AcceptedIsClosed(chosen, Normalized(items));
    ListedNames(AsSet(chosen), Normalized(items), again);
  }

  /** Members of a workspace that are run together, all of them known: exactly they run, with
      exactly the edges among them, if and only if no slug of theirs was cut after a hyphen.  The
      edges come through if and only if they name no such slug; then there is no error, and other
      projects run in place of those members. */
  lemma RunsAsAskedIff(known: set<Slug>, chosen: seq<Slug>, deps: Relation<Slug>, items: RawDeps, again: RawDeps)
    requires Chosen(known, chosen, deps, items) && ReadAgain(known, chosen, items, again)
    ensures var run := WholeRun(known, chosen, items, again);
            && (run == Some(Launch(chosen, deps)) <==> forall s :: s in chosen ==> IsSlug(s))
            && (run.Some? && run.value.deps == deps <==> NamesAreSlugs(deps))
            && (run.Some? ==> run.value.projects == Each(Resolver(known), chosen))
  {
    hide Slugged, Resolve, WellFormed, Lists, NamesAreSlugs, Each, IsSlug, WholeRun, ReadAgain, Distinct;
    if |chosen| == 1 {
      assert chosen == [chosen[0]];
      OneRuns(known, chosen[0], deps, items, again);
      NoNames();
    } else {
      ManyRun(known, chosen, deps, items, again);
    }
    SameProjectsIff(known, chosen);
    if forall s :: s in chosen ==> IsSlug(s) {
      NamesOfChosen(chosen, deps);
    }
  }

  lemma NoNames()
    ensures NamesAreSlugs(map[])
  {
  }

  lemma NamesOfChosen(chosen: seq<Slug>, deps: Relation<Slug>)
    requires WellFormed(AsSet(chosen), deps) && forall s :: s in chosen ==> IsSlug(s)
    ensures NamesAreSlugs(deps)
  {
    hide IsSlug, CyclicIn;
    forall k | k in deps ensures IsSlug(k) && forall u :: u in deps[k] ==> IsSlug(u) {
      assert k in AsSet(chosen);
      forall u | u in deps[k] ensures IsSlug(u) { assert Edge(deps, k, u); }
    }
  }

  lemma SameProjectsIff(known: set<Slug>, chosen: seq<Slug>)
    requires Distinct(chosen) && forall s :: s in chosen ==> Slugged(s) && s in known
    ensures Each(Resolver(known), chosen) == chosen <==> forall s :: s in chosen ==> IsSlug(s)
  {
    hide Slugged, Resolve, Each, IsSlug;
    ResolvedIff(known, chosen);
    if forall s :: s in chosen ==> IsSlug(s) {
      forall s | s in chosen ensures s != "" && Resolver(known)(s) == s { SluggedStays(s); }
      EachFixed(Resolver(known), chosen);
    }
    if Each(Resolver(known), chosen) == chosen {
      forall s | s in chosen ensures IsSlug(s) {
        EachHas(Resolver(known), chosen, s);
        var x :| x in chosen && Resolver(known)(x) == s;
        assert IsSlug(Resolve(known, x));
      }
    }
  }

  /** A member whose slug was cut runs, without any error, as another project. */
  lemma CutMemberRunsElsewhere(known: set<Slug>, name: string)
    requires Slugify(name) in known && CutAfterHyphen(name)
    ensures var cut := Slugify(name);
            && WholeRun(known, [cut], [], []) == Some(Launch([Resolve(known, cut)], map[]))
            && Resolve(known, cut) != cut
            && (Slugify(cut) !in known ==> Resolve(known, cut) == DEFAULT_PROJECT)
  {
    var cut := Slugify(name);
    SlugifyHyphenates(name);
    SlugifyIdempotence(name);
    OneResolved(known, cut);
    AskedAsChosen([cut]);
    hide Slugify, CutAfterHyphen, Slugged, IsSlug;
    assert cut != "" by { SluggedStays(cut); }
  }

  lemma OneDeduped(name: string)
    ensures DedupSlugs([name]) == [Slugify(name)]
  {
    hide Slugify;
    var u := Slugify(name);
    assert [name][1..] == [] && [] + [u] == [u] && u !in [];
    assert Cleaned([], [u]) == [u];
  }

  lemma DefaultIsShort()
    ensures |DEFAULT_PROJECT| == 7
  {
  }

  lemma AloneIsSound(cut: Slug)
    requires Slugged(cut)
    ensures Sound(Workspace("w", "w", "", [cut], map[]))
  {
    hide Slugged, WellFormed;
    NoEdgesNoCycle(AsSet([cut]));
  }

  /** There is such a name, of a project with which a workspace can be made. */
  lemma RunsInDefault()
    ensures var name, cut := Repeat('a', 47) + "-b", Repeat('a', 47) + "-";
            && Slugify(name) == cut && DedupSlugs([name]) == [cut]
            && Sound(Workspace("w", "w", "", [cut], map[]))
            && WholeRun({cut, DEFAULT_PROJECT}, [cut], [], []) == Some(Launch([DEFAULT_PROJECT], map[]))
  {
    hide *;
    var name, cut := Repeat('a', 47) + "-b", Repeat('a', 47) + "-";
    SlugifyIsNotIdempotent();
    SlugifyHyphenates(name);
    OneDeduped(name);
    AloneIsSound(cut);
    assert |Slugify(cut)| == 47;
    DefaultIsShort();
    CutMemberRunsElsewhere({cut, DEFAULT_PROJECT}, name);
  }
}
