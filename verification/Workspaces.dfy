/** Named groups of projects with a default dependency map (workspaces.py). */
module Workspaces {
  import opened Collections
  import opened Wrappers
  import opened Text
  import opened Cycles
  import opened Decimals
  import opened Slugs
  import opened Waves
  import opened ProjectDeps

  datatype Workspace = Workspace(slug: Slug, name: string, description: string, members: seq<Slug>,
                                 deps: Relation<Slug>)

  datatype RegistryError =
    | NoSuchProject(name: string) | NoSuchWorkspace(slug: Slug) | NotAMember(name: string)
    | BadDeps(error: DepError) | Circular

  // ---- restricting a dependency map

  /** The edges among `keep`; entries left without upstreams are dropped. */
  function Restrict(deps: Relation<Slug>, keep: set<Slug>): Relation<Slug> {
    map k | k in deps && k in keep && Keep(deps[k], keep) != [] :: Keep(deps[k], keep)
  }

  lemma RestrictTwice(deps: Relation<Slug>, a: set<Slug>, b: set<Slug>)
    ensures Restrict(Restrict(deps, a), b) == Restrict(deps, a * b)
  {
    var once, twice, both := Restrict(deps, a), Restrict(Restrict(deps, a), b), Restrict(deps, a * b);
    forall k | k in deps ensures Keep(Keep(deps[k], a), b) == Keep(deps[k], a * b) { KeepTwice(deps[k], a, b); }
    forall k ensures k in twice <==> k in both {
      if k in both { assert Keep(deps[k], a) != []; }
    }
  }

  lemma {:induction false} KeepDistinct(s: seq<Slug>, keep: set<Slug>)
    requires Distinct(s)
    ensures Distinct(Keep(s, keep))
  {
    if s != [] {
      forall i, j | 0 <= i < j < |s[1..]| ensures s[1..][i] != s[1..][j] { assert s[i + 1] != s[j + 1]; }
      KeepDistinct(s[1..], keep);
      KeepMembers(s[1..], keep);
      assert s[0] !in s[1..];
    }
  }

  lemma RestrictHas(deps: Relation<Slug>, keep: set<Slug>, x: Slug, y: Slug)
    ensures Edge(Restrict(deps, keep), x, y) <==> x in keep && y in keep && Edge(deps, x, y)
  {
    if x in deps {
      KeepMembers(deps[x], keep);
      if x in keep && y in keep && y in deps[x] { assert y in Keep(deps[x], keep); }
    }
  }

  /** Restricting keeps a dependency map well formed. */
  lemma RestrictWell(nodes: set<Slug>, deps: Relation<Slug>, keep: set<Slug>)
    requires WellFormed(nodes, deps)
    ensures WellFormed(nodes * keep, Restrict(deps, keep))
  {
    var r := Restrict(deps, keep);
    forall k | k in r ensures r[k] != [] && Distinct(r[k]) && k !in r[k] {
      KeepDistinct(deps[k], keep);
      KeepMembers(deps[k], keep);
    }
    forall x, y | x in nodes * keep && Edge(r, x, y) ensures y in nodes * keep { RestrictHas(deps, keep, x, y); }
    forall p | IsCycle(r, p) && (forall i :: 0 <= i < |p| ==> p[i] in nodes * keep) ensures false {
      forall i | 0 <= i < |p| - 1 ensures Edge(deps, p[i], p[i + 1]) {
        assert Edge(r, p[i], p[i + 1]);
        RestrictHas(deps, keep, p[i], p[i + 1]);
      }
      assert IsCycle(deps, p);
    }
  }

  lemma RestrictAll(nodes: set<Slug>, deps: Relation<Slug>, keep: set<Slug>)
    requires WellFormed(nodes, deps) && nodes <= keep
    ensures Restrict(deps, keep) == deps
  {
    forall k | k in deps ensures Keep(deps[k], keep) == deps[k] {
      forall u | u in deps[k] ensures u in keep { assert Edge(deps, k, u); }
      KeepAll(deps[k], keep);
    }
  }

  // ---- the registry invariant

  /** The members are distinct project slugs, and the dependencies fit them. */
  ghost predicate Sound(w: Workspace) {
    && Distinct(w.members) && WellFormed(AsSet(w.members), w.deps)
    && forall s :: s in w.members ==> Slugged(s)
  }

  /** Every workspace is sound, slugs identify workspaces, and no project is in two of them. */
  ghost predicate RegistryOk(items: seq<Workspace>) {
    && (forall i :: 0 <= i < |items| ==> Sound(items[i]))
    && (forall i, j :: 0 <= i < j < |items| ==> items[i].slug != items[j].slug)
    && forall i, j :: 0 <= i < j < |items| ==> AsSet(items[i].members) !! AsSet(items[j].members)
  }

  /** A workspace without some of its members and without every edge that touches them. */
  function Reduced(w: Workspace, keep: set<Slug>): Workspace {
    w.(members := Keep(w.members, keep), deps := Restrict(w.deps, keep))
  }

  lemma ReducedIsSound(w: Workspace, keep: set<Slug>)
    requires Sound(w)
    ensures Sound(Reduced(w, keep)) && AsSet(Reduced(w, keep).members) == AsSet(w.members) * keep
  {
    hide Slugged;
    KeepDistinct(w.members, keep);
    KeepMembers(w.members, keep);
    assert AsSet(Keep(w.members, keep)) == AsSet(w.members) * keep;
    RestrictWell(AsSet(w.members), w.deps, keep);
  }

  lemma ReducedTwice(w: Workspace, a: set<Slug>, b: set<Slug>)
    ensures Reduced(Reduced(w, a), b) == Reduced(w, a * b)
  {
    KeepTwice(w.members, a, b);
    RestrictTwice(w.deps, a, b);
  }

  lemma ReducedAll(w: Workspace, keep: set<Slug>)
    requires Sound(w) && AsSet(w.members) <= keep
    ensures Reduced(w, keep) == w
  {
    KeepAll(w.members, keep);
    RestrictAll(AsSet(w.members), w.deps, keep);
  }

  /** The workspace without the projects `gone`. */
  function Without(w: Workspace, gone: set<Slug>): Workspace {
    Reduced(w, AsSet(w.members) - gone)
  }

  lemma WithoutMore(w: Workspace, gone: set<Slug>, x: Slug)
    requires Sound(w)
    ensures Without(Without(w, gone), {x}) == Without(w, gone + {x})
    ensures x !in Without(w, gone).members ==> Without(w, gone) == Without(w, gone + {x})
  {
    var keep := AsSet(w.members) - gone;
    ReducedIsSound(w, keep);
    var r := Reduced(w, keep);
    ReducedTwice(w, keep, AsSet(r.members) - {x});
    assert keep * (AsSet(r.members) - {x}) == AsSet(w.members) - (gone + {x});
    if x !in r.members {
      assert x !in AsSet(r.members);
      assert AsSet(w.members) - (gone + {x}) == keep;
    }
  }

  /** `_remove_member`: the member goes, and every edge that touches it. */
  method RemoveMember(w: Workspace, gone: Slug) returns (r: Workspace)
    requires Sound(w)
    ensures r == Without(w, {gone})
  {
    var members := Keep(w.members, AsSet(w.members) - {gone});
    var pruned: Relation<Slug> := map[];
    var rest := w.deps.Keys;
    ghost var keep := AsSet(w.members) - {gone};
    while rest != {}
      invariant rest <= w.deps.Keys
      invariant forall k :: k in pruned <==> k in Restrict(w.deps, keep) && k !in rest
      invariant forall k :: k in pruned ==> pruned[k] == Keep(w.deps[k], keep)
      decreases |rest|
    {
      var key :| key in rest;
      rest := rest - {key};
      assert key in AsSet(w.members);
      if key != gone {
        var kept := Keep(w.deps[key], AsSet(w.deps[key]) - {gone});
        forall u | u in w.deps[key] ensures u in AsSet(w.members) { assert Edge(w.deps, key, u); }
        KeepSame(w.deps[key], AsSet(w.deps[key]) - {gone}, keep);
        if kept != [] {
          pruned := pruned[key := kept];
        }
      }
    }
    assert pruned == Restrict(w.deps, keep);
    r := w.(members := members, deps := pruned);
  }

  function DedupSlugs(names: seq<string>): seq<Slug> {
    Cleaned(names, [])
  }

  lemma DedupedAreSlugged(names: seq<string>)
    ensures Distinct(DedupSlugs(names)) && forall s :: s in DedupSlugs(names) ==> Slugged(s)
  {
    hide Slugify, Slugged;
    CleanedIs(names, []);
    forall s | s in DedupSlugs(names) ensures Slugged(s) {
      assert s in AsSet(DedupSlugs(names));
      SlugSetHas(names, s);
      var name :| name in names && Slugify(name) == s;
      SlugifyHyphenates(name);
    }
  }

  // ---- choosing a slug

  function Numbered(base: Slug, n: nat): Slug {
    if n < 2 then base else base + "-" + Print(n)
  }

  /** The candidates before the `n`-th are taken, and `slug` is the `n`-th, which is not. */
  ghost predicate FirstFree(base: Slug, n: nat, slug: Slug, taken: set<Slug>) {
    n >= 1 && slug == Numbered(base, n) && slug !in taken && forall k: nat :: 1 <= k < n ==> Numbered(base, k) in taken
  }

  ghost predicate IsFree(base: Slug, slug: Slug, taken: set<Slug>) {
    exists n: nat :: FirstFree(base, n, slug, taken)
  }

  function SlugsOf(items: seq<Workspace>): set<Slug> {
    set i | 0 <= i < |items| :: items[i].slug
  }

  /** The candidates before the `n`-th. */
  ghost predicate AllTried(base: Slug, n: nat, tried: set<Slug>) {
    && (forall s :: s in tried ==> exists k: nat :: 1 <= k < n && s == Numbered(base, k))
    && forall k: nat :: 1 <= k < n ==> Numbered(base, k) in tried
  }

  lemma NothingTried(base: Slug)
    ensures Numbered(base, 1) == base && AllTried(base, 1, {})
  {
  }

  lemma NumberedApart(base: Slug, k: nat, n: nat)
    requires 1 <= k < n
    ensures Numbered(base, k) != Numbered(base, n)
  {
    var s := Numbered(base, n);
    assert s[|base| + 1..] == Print(n);
    if k > 1 && Numbered(base, k) == s {
      assert s[|base| + 1..] == Print(k);
      PrintIsInjective(n, k);
    }
  }

  lemma OneMoreTried(base: Slug, n: nat, tried: set<Slug>)
    requires n >= 1 && AllTried(base, n, tried)
    ensures Numbered(base, n) !in tried && AllTried(base, n + 1, tried + {Numbered(base, n)})
  {
    hide Numbered;
    forall k: nat | 1 <= k < n ensures Numbered(base, k) != Numbered(base, n) { NumberedApart(base, k, n); }
    forall s | s in tried + {Numbered(base, n)} ensures exists k: nat :: 1 <= k < n + 1 && s == Numbered(base, k) {
    }
  }

  lemma FreeAtLast(base: Slug, n: nat, tried: set<Slug>, taken: set<Slug>)
    requires n >= 1 && AllTried(base, n, tried) && tried <= taken && Numbered(base, n) !in taken
    ensures IsFree(base, Numbered(base, n), taken)
  {
    hide Numbered;
    assert FirstFree(base, n, Numbered(base, n), taken);
  }

  class Registry {
    var items: seq<Workspace>

    ghost predicate Valid()
      reads this
    {
      RegistryOk(items)
    }

    constructor ()
      ensures Valid() && items == []
    {
      items := [];
    }

    method Find(slug: Slug) returns (found: bool, at: nat)
      ensures found ==> at < |items| && items[at].slug == slug
      ensures !found ==> forall i :: 0 <= i < |items| ==> items[i].slug != slug
    {
      found, at := false, 0;
      while at < |items|
        invariant 0 <= at <= |items| && forall i :: 0 <= i < at ==> items[i].slug != slug
      {
        if items[at].slug == slug {
          return true, at;
        }
        at := at + 1;
      }
    }

    /** The first of `base`, `base-2`, `base-3`, ... that no workspace uses. */
    method FreeSlug(base: Slug) returns (slug: Slug)
      ensures IsFree(base, slug, SlugsOf(items))
    {
      hide Numbered, IsFree, AllTried;
      var taken := SlugsOf(items);
      slug := base;
      var n := 2;
      ghost var tried: set<Slug> := {};
      NothingTried(base);
      while slug in taken
        invariant n >= 2 && tried <= taken && slug == Numbered(base, n - 1) && AllTried(base, n - 1, tried)
        decreases |taken - tried|
      {
        OneMoreTried(base, n - 1, tried);
        assert taken - (tried + {slug}) == (taken - tried) - {slug};
        tried := tried + {slug};
        slug := Numbered(base, n);
        n := n + 1;
      }
      FreeAtLast(base, n - 1, tried, taken);
    }

    /** Remove projects from every workspace that has them. */
    method MoveOut(moved: seq<Slug>, except: int)
      requires Valid()
      modifies this
      ensures |items| == |old(items)|
      ensures forall i :: 0 <= i < |items| ==>
                items[i] == if i == except then old(items)[i] else Without(old(items)[i], AsSet(moved))
    {
      hide Without;
      ghost var before := items;
      var i := 0;
      while i < |items|
        invariant 0 <= i <= |items| == |before|
        invariant forall k :: 0 <= k < i ==>
                    items[k] == if k == except then before[k] else Without(before[k], AsSet(moved))
        invariant forall k :: i <= k < |items| ==> items[k] == before[k]
      {
        if i != except {
          var w := RemoveMembers(items[i], moved);
          items := items[i := w];
        }
        i := i + 1;
      }
    }

    /** `create_workspace`: nothing changes unless every named project exists; projects that
        were elsewhere are moved here. */
    method Create(name: string, description: string, projects: seq<string>, known: set<Slug>)
      returns (r: Result<Workspace, RegistryError>)
      requires Valid()
      modifies this
      ensures Valid()
      ensures r.Err? <==> exists i :: 0 <= i < |projects| && Slugify(projects[i]) !in known
      ensures r.Err? ==> items == old(items)
      ensures r.Ok? ==>
                && r.value.members == DedupSlugs(projects) && r.value.deps == map[]
                && IsFree(Slugify(name), r.value.slug, SlugsOf(old(items)))
                && |items| == |old(items)| + 1 && items[|items| - 1] == r.value
                && forall i :: 0 <= i < |old(items)| ==> items[i] == Without(old(items)[i], AsSet(DedupSlugs(projects)))
    {
      hide Slugify, Without, Sound, Slugged, IsFree;
      var members: seq<Slug> := [];
      var i := 0;
      while i < |projects|
        invariant 0 <= i <= |projects| && Cleaned(projects[i..], members) == DedupSlugs(projects)
        invariant forall k :: 0 <= k < i ==> Slugify(projects[k]) in known
      {
        assert projects[i..][0] == projects[i] && projects[i..][1..] == projects[i + 1..];
        var slug := Slugify(projects[i]);
        if slug !in known {
          return Err(NoSuchProject(projects[i]));
        }
        if slug !in members {
          members := members + [slug];
        }
        i := i + 1;
      }
      assert projects[i..] == [] && members == DedupSlugs(projects);
      var slug := FreeSlug(Slugify(name));
      ghost var before := items;
      NewSlug(Slugify(name), slug, before);
      MoveOut(members, -1);
      var title := Strip(name);
      var entry := Workspace(slug, if title != "" then title else slug, description, members, map[]);
      items := items + [entry];
      DedupedAreSlugged(projects);
      NewcomerOk(before, items[..|before|], entry);
      assert items == items[..|before|] + [entry];
      r := Ok(entry);
    }

    /** `assign_project`: the project moves into the workspace. */
    method Assign(slug: Slug, name: string, known: set<Slug>) returns (r: Result<Workspace, RegistryError>)
      requires Valid()
      modifies this
      ensures Valid()
      ensures r.Err? <==> Slugify(name) !in known || forall i :: 0 <= i < |old(items)| ==> old(items)[i].slug != slug
      ensures r.Err? ==> items == old(items)
      ensures |items| == |old(items)|
      ensures r.Ok? ==> forall i :: 0 <= i < |items| ==>
                items[i] == if old(items)[i].slug == slug then Join(old(items)[i], Slugify(name))
                            else Without(old(items)[i], {Slugify(name)})
      ensures r.Ok? ==> forall i :: 0 <= i < |items| && old(items)[i].slug == slug ==>
                var project, before := Slugify(name), old(items)[i];
                items[i] == before.(members := if project in before.members then before.members
                                               else before.members + [project])
    {
      hide Slugify, Without, Sound, Join, Slugged;
      var project := Slugify(name);
      SlugifyHyphenates(name);
      if project !in known {
        return Err(NoSuchProject(project));
      }
      var found, at := Find(slug);
      if !found {
        return Err(NoSuchWorkspace(slug));
      }
      ghost var before := items;
      MoveOut([project], at);
      assert AsSet([project]) == {project};
      JoinedOk(before, items, at, project);
      JoinIs(items[at], project);
      items := items[at := Join(items[at], project)];
      r := Ok(items[at]);
    }

    /** `unassign_project` */
    method Unassign(slug: Slug, name: string) returns (r: Result<Workspace, RegistryError>)
      requires Valid()
      modifies this
      ensures Valid()
      ensures r.Err? <==> forall i :: 0 <= i < |old(items)| ==> old(items)[i].slug != slug
      ensures r.Err? ==> items == old(items)
      ensures |items| == |old(items)|
      ensures forall i :: 0 <= i < |items| ==>
                items[i] == if old(items)[i].slug == slug then Without(old(items)[i], {Slugify(name)})
                            else old(items)[i]
    {
      hide Slugify, Sound;
      var project := Slugify(name);
      var found, at := Find(slug);
      if !found {
        return Err(NoSuchWorkspace(slug));
      }
      WithoutNone(items[at], project);
      if project in items[at].members {
        var w := RemoveMember(items[at], project);
        WithoutOk(items, at, {project});
        items := items[at := w];
      }
      r := Ok(items[at]);
    }

    /** `delete_workspace`: only the group goes. */
    method Delete(slug: Slug)
      requires Valid()
      modifies this
      ensures Valid()
      ensures forall w :: w in items <==> w in old(items) && w.slug != slug
    {
      hide Sound;
      var found, at := Find(slug);
      if found {
        DeletedOk(items, at);
        items := items[..at] + items[at + 1..];
      }
    }

    /** `set_workspace_deps`: the map is accepted if and only if it is over the members, has no
        self-dependency and no circle. */
    method SetDeps(slug: Slug, deps: RawDeps) returns (r: Result<Workspace, RegistryError>)
      requires Valid()
      modifies this
      ensures Valid()
      ensures r.Err? ==> items == old(items)
      ensures (forall i :: 0 <= i < |old(items)| ==> old(items)[i].slug != slug) ==> r.Err?
      ensures |items| == |old(items)|
      ensures forall i :: 0 <= i < |items| && old(items)[i].slug == slug ==>
                (r.Ok? <==> (forall k :: 0 <= k < |deps| ==> Acceptable(old(items)[i].members, deps[k]))
                            && !CyclicIn(Normalized(deps), AsSet(old(items)[i].members)))
      ensures r.Ok? ==> forall i :: 0 <= i < |items| ==>
                items[i] == if old(items)[i].slug == slug then old(items)[i].(deps := Normalized(deps))
                            else old(items)[i]
    {
      hide Slugify, Acceptable, CyclicIn, WellFormed, Normalized, RegistryOk;
      var found, at := Find(slug);
      if !found {
        return Err(NoSuchWorkspace(slug));
      }
      OnlyOneSlug(items, at);
      var norm := CheckDeps(items[at].members, deps);
      if norm.Err? {
        return Err(norm.error);
      }
      NewDepsOk(items, at, norm.value);
      items := items[at := items[at].(deps := norm.value)];
      r := Ok(items[at]);
    }

    /** `workspace_run_spec`: the members, or a subset of them, with the edges among them. */
    method RunSpec(slug: Slug,
                   subset: Option<seq<string>>) returns (r: Result<(seq<Slug>, Relation<Slug>), RegistryError>)
      requires Valid()
      ensures r.Ok? ==> forall i :: 0 <= i < |items| && items[i].slug == slug ==>
                (&& r.value.0 == (if subset.None? then items[i].members else DedupSlugs(subset.value))
                 && r.value.1 == Restrict(items[i].deps, AsSet(r.value.0))
                 && forall s :: s in r.value.0 ==> s in items[i].members)
      ensures r.Ok? ==> Distinct(r.value.0) && WellFormed(AsSet(r.value.0), r.value.1)
      ensures r.Ok? ==> forall s :: s in r.value.0 ==> Slugged(s)
      ensures (forall i :: 0 <= i < |items| ==> items[i].slug != slug) ==> r.Err?
      ensures forall i :: 0 <= i < |items| && items[i].slug == slug ==>
                (r.Err? <==>
                   subset.Some?
                   && exists k :: 0 <= k < |subset.value| && Slugify(subset.value[k]) !in items[i].members)
    {
      hide Slugify, WellFormed, Restrict, Cleaned, Slugged;
      var found, at := Find(slug);
      if !found {
        return Err(NoSuchWorkspace(slug));
      }
      var w := items[at];
      var chosen := w.members;
      if subset.Some? {
        var choice := Choose(w, subset.value);
        if choice.Err? {
          return Err(choice.error);
        }
        chosen := choice.value;
        CleanedIs(subset.value, []);
      }
      var deps := EdgesAmong(w.deps, chosen);
      RestrictWell(AsSet(w.members), w.deps, AsSet(chosen));
      assert AsSet(w.members) * AsSet(chosen) == AsSet(chosen);
      r := Ok((chosen, deps));
    }
  }

  /** The validator, and the wave builder when there is an edge. */
  method CheckDeps(members: seq<Slug>, deps: RawDeps) returns (r: Result<Relation<Slug>, RegistryError>)
    requires Distinct(members)
    ensures r.Ok? <==> (forall k :: 0 <= k < |deps| ==> Acceptable(members, deps[k]))
                       && !CyclicIn(Normalized(deps), AsSet(members))
    ensures r.Ok? ==> r.value == Normalized(deps) && WellFormed(AsSet(members), r.value)
  {
    hide Slugify, Acceptable, CyclicIn, WellFormed, Closed, Distinct, Normalized;
    var norm := ValidateProjectDeps(members, deps);
    if norm.Err? {
      return Err(BadDeps(norm.error));
    }
    NormalizedIs(members, deps);
    AcceptedIsClosed(members, norm.value);
    if norm.value != map[] {
      var waves, _ := DependencyWaves(members, norm.value);
      if waves.Err? {
        return Err(Circular);
      }
    } else {
      NoEdgesNoCycle(AsSet(members));
    }
    r := Ok(norm.value);
  }

  lemma OnlyOneSlug(items: seq<Workspace>, at: nat)
    requires RegistryOk(items) && at < |items|
    ensures Distinct(items[at].members)
    ensures forall i :: 0 <= i < |items| && items[i].slug == items[at].slug ==> i == at
  {
    hide WellFormed;
    assert Sound(items[at]);
  }

  lemma NewDepsOk(items: seq<Workspace>, at: nat, deps: Relation<Slug>)
    requires RegistryOk(items) && at < |items| && WellFormed(AsSet(items[at].members), deps)
    ensures RegistryOk(items[at := items[at].(deps := deps)])
  {
    hide WellFormed, Distinct, Slugged;
  }

  method Choose(w: Workspace, names: seq<string>) returns (r: Result<seq<Slug>, RegistryError>)
    ensures r.Err? <==> exists k :: 0 <= k < |names| && Slugify(names[k]) !in w.members
    ensures r.Ok? ==> r.value == DedupSlugs(names) && forall s :: s in r.value ==> s in w.members
  {
    hide Slugify;
    var chosen: seq<Slug> := [];
    var i := 0;
    while i < |names|
      invariant 0 <= i <= |names| && Cleaned(names[i..], chosen) == DedupSlugs(names)
      invariant forall s :: s in chosen ==> s in w.members
      invariant forall k :: 0 <= k < i ==> Slugify(names[k]) in w.members
    {
      assert names[i..][0] == names[i] && names[i..][1..] == names[i + 1..];
      var s := Slugify(names[i]);
      if s !in w.members {
        return Err(NotAMember(names[i]));
      }
      if s !in chosen {
        chosen := chosen + [s];
      }
      i := i + 1;
    }
    assert names[i..] == [];
    r := Ok(chosen);
  }

  method EdgesAmong(deps: Relation<Slug>, chosen: seq<Slug>) returns (kept: Relation<Slug>)
    ensures kept == Restrict(deps, AsSet(chosen))
  {
    kept := map[];
    var rest := deps.Keys;
    while rest != {}
      invariant rest <= deps.Keys
      invariant forall k :: k in kept <==> k in Restrict(deps, AsSet(chosen)) && k !in rest
      invariant forall k :: k in kept ==> kept[k] == Keep(deps[k], AsSet(chosen))
      decreases |rest|
    {
      var key :| key in rest;
      rest := rest - {key};
      if key in chosen {
        var ups := Keep(deps[key], AsSet(chosen));
        if ups != [] {
          kept := kept[key := ups];
        }
      }
    }
    assert kept == Restrict(deps, AsSet(chosen));
  }

  method RemoveMembers(w: Workspace, gone: seq<Slug>) returns (r: Workspace)
    requires Sound(w)
    ensures r == Without(w, AsSet(gone))
  {
    hide Without, Sound;
    r := w;
    WithoutEmpty(w);
    var i := 0;
    while i < |gone|
      invariant 0 <= i <= |gone| && Sound(r) && r == Without(w, AsSet(gone[..i]))
    {
      WithoutMore(w, AsSet(gone[..i]), gone[i]);
      assert AsSet(gone[..i + 1]) == AsSet(gone[..i]) + {gone[i]} by { assert gone[..i + 1] == gone[..i] + [gone[i]]; }
      WithoutIsSound(w, AsSet(gone[..i + 1]));
      if gone[i] in r.members {
        r := RemoveMember(r, gone[i]);
      }
      i := i + 1;
    }
    assert gone[..i] == gone;
  }

  lemma WithoutEmpty(w: Workspace)
    requires Sound(w)
    ensures Without(w, AsSet([])) == w
  {
    ReducedAll(w, AsSet(w.members) - AsSet([]));
  }

  lemma WithoutIsSound(w: Workspace, gone: set<Slug>)
    requires Sound(w)
    ensures Sound(Without(w, gone)) && AsSet(Without(w, gone).members) == AsSet(w.members) - gone
    ensures Without(w, gone).slug == w.slug
  {
    ReducedIsSound(w, AsSet(w.members) - gone);
    assert AsSet(w.members) * (AsSet(w.members) - gone) == AsSet(w.members) - gone;
  }

  lemma WithoutNone(w: Workspace, x: Slug)
    requires Sound(w)
    ensures x !in w.members ==> Without(w, {x}) == w
  {
    if x !in w.members {
      assert x !in AsSet(w.members);
      ReducedAll(w, AsSet(w.members) - {x});
    }
  }

  lemma NewSlug(base: Slug, slug: Slug, items: seq<Workspace>)
    requires IsFree(base, slug, SlugsOf(items))
    ensures forall i :: 0 <= i < |items| ==> items[i].slug != slug
  {
    forall i | 0 <= i < |items| ensures items[i].slug in SlugsOf(items) {
    }
  }

  /** The members of a registry entry, pairwise apart. */
  lemma NewcomerOk(before: seq<Workspace>, after: seq<Workspace>, entry: Workspace)
    requires RegistryOk(before) && |after| == |before|
    requires forall i :: 0 <= i < |before| ==> after[i] == Without(before[i], AsSet(entry.members))
    requires forall i :: 0 <= i < |before| ==> before[i].slug != entry.slug
    requires Distinct(entry.members) && entry.deps == map[] && forall s :: s in entry.members ==> Slugged(s)
    ensures RegistryOk(after + [entry])
  {
    hide Without, Slugged;
    NoEdgesNoCycle(AsSet(entry.members));
    forall i | 0 <= i < |before| ensures Sound(after[i]) && after[i].slug == before[i].slug
                                         && AsSet(after[i].members) == AsSet(before[i].members) - AsSet(entry.members) {
      WithoutIsSound(before[i], AsSet(entry.members));
    }
  }

  lemma NoEdgesNoCycle(nodes: set<Slug>)
    ensures WellFormed(nodes, map[])
  {
    var none: Relation<Slug> := map[];
    forall p ensures !IsCycle(none, p) { assert |p| >= 2 ==> !Edge(none, p[0], p[0 + 1]); }
  }

  function Join(w: Workspace, project: Slug): Workspace {
    if project in w.members then w else w.(members := w.members + [project])
  }

  lemma JoinIs(w: Workspace, project: Slug)
    ensures Join(w, project) == w.(members := if project in w.members then w.members else w.members + [project])
  {
  }

  lemma JoinIsSound(w: Workspace, project: Slug)
    requires Sound(w) && Slugged(project)
    ensures Sound(Join(w, project)) && AsSet(Join(w, project).members) == AsSet(w.members) + {project}
    ensures Join(w, project).slug == w.slug
  {
    hide Slugged;
    if project !in w.members {
      var nodes := AsSet(w.members);
      assert AsSet(w.members + [project]) == nodes + {project};
      forall x, y | x in nodes + {project} && Edge(w.deps, x, y)
        ensures x in nodes && y in nodes
      {
        assert x in w.deps;
      }
      forall p | IsCycle(w.deps, p) && (forall i :: 0 <= i < |p| ==> p[i] in nodes + {project}) ensures false {
        forall i | 0 <= i < |p| ensures p[i] in nodes {
          if i < |p| - 1 { assert Edge(w.deps, p[i], p[i + 1]); } else { assert Edge(w.deps, p[0], p[0 + 1]); }
        }
      }
    } else {
      assert project in AsSet(w.members);
    }
  }

  lemma JoinedOk(before: seq<Workspace>, after: seq<Workspace>, at: nat, project: Slug)
    requires RegistryOk(before) && |after| == |before| && at < |before| && Slugged(project)
    requires forall i :: 0 <= i < |before| ==> after[i] == if i == at then before[i] else Without(before[i], {project})
    ensures RegistryOk(after[at := Join(after[at], project)])
    ensures after[at] == before[at]
    ensures forall i :: 0 <= i < |before| && before[i].slug == before[at].slug ==> i == at
  {
    hide Without, Join, Sound, Slugged;
    var items := after[at := Join(after[at], project)];
    JoinIsSound(before[at], project);
    forall i | 0 <= i < |before| && i != at
      ensures Sound(items[i]) && items[i].slug == before[i].slug
      ensures AsSet(items[i].members) == AsSet(before[i].members) - {project}
    {
      WithoutIsSound(before[i], {project});
    }
  }

  lemma WithoutOk(items: seq<Workspace>, at: nat, gone: set<Slug>)
    requires RegistryOk(items) && at < |items|
    ensures RegistryOk(items[at := Without(items[at], gone)])
  {
    hide Without, Sound;
    WithoutIsSound(items[at], gone);
  }

  lemma DeletedOk(items: seq<Workspace>, at: nat)
    requires RegistryOk(items) && at < |items|
    ensures RegistryOk(items[..at] + items[at + 1..])
    ensures forall w :: w in items[..at] + items[at + 1..] <==> w in items && w.slug != items[at].slug
  {
    hide Sound;
    var rest := items[..at] + items[at + 1..];
    forall i | 0 <= i < |rest| ensures rest[i] == items[if i < at then i else i + 1] {}
    forall w | w in items && w.slug != items[at].slug ensures w in rest {
      var k :| 0 <= k < |items| && items[k] == w;
      assert rest[if k < at then k else k - 1] == w;
    }
  }

  lemma AcceptedIsClosed(members: seq<Slug>, deps: Relation<Slug>)
    requires forall k :: k in deps ==> && k in members && deps[k] != [] && Distinct(deps[k]) && k !in deps[k]
                                       && forall u :: u in deps[k] ==> u in members
    ensures Closed(deps, AsSet(members))
    ensures !CyclicIn(deps, AsSet(members)) <==> WellFormed(AsSet(members), deps)
  {
  }

  /** Whatever members of a workspace are chosen, validation accepts the edges among them as they
      are if and only if none names a member whose slug was cut after a hyphen; then there are waves. */
  lemma RunSpecIsAcceptedIff(w: Workspace, chosen: seq<Slug>, items: RawDeps)
    requires Sound(w) && AsSet(chosen) <= AsSet(w.members) && Lists(Restrict(w.deps, AsSet(chosen)), items)
    ensures var deps := Restrict(w.deps, AsSet(chosen));
            (forall i :: 0 <= i < |items| ==> Acceptable(chosen, items[i])) && Normalized(items) == deps
            <==> NamesAreSlugs(deps)
    ensures Normalized(items) == Restrict(w.deps, AsSet(chosen)) ==>
              Closed(Normalized(items), AsSet(chosen)) && !CyclicIn(Normalized(items), AsSet(chosen))
  {
    hide Acceptable, Normalized, NamesAreSlugs, Lists, Slugged, Restrict, Distinct;
    RestrictWell(AsSet(w.members), w.deps, AsSet(chosen));
    assert AsSet(w.members) * AsSet(chosen) == AsSet(chosen);
    forall s | s in chosen ensures Slugged(s) { assert s in AsSet(w.members); }
    AcceptedUnchangedIff(chosen, Restrict(w.deps, AsSet(chosen)), items);
  }

  /** A member whose slug was cut after a hyphen can be given a dependency under its project's
      name; the registry accepts that, and a run of both then rejects it. */
  lemma CutMemberIsRejected(name: string, other: Slug)
    requires CutAfterHyphen(name) && IsSlug(other) && Slugify(Slugify(name)) != other
    ensures var cut := Slugify(name);
            && Acceptable([cut, other], (name, [other]))
            && Normalized([(name, [other])]) == map[cut := [other]]
            && WellFormed(AsSet([cut, other]), map[cut := [other]])
            && !Acceptable([cut, other], (cut, [other]))
  {
    var cut := Slugify(name);
    SlugifyIdempotence(name);
    FixedIffSlug(other);
    FixedIffSlug(cut);
    hide Slugify, WellFormed, IsSlug, CutAfterHyphen;
    var items: RawDeps := [(name, [other])];
    assert items[..0] == [];
    assert Cleaned([other], []) == [other] by { CleanedFixed([other], []); }
    assert Normalized(items) == Enter(map[], items[0]);
    OneEdgeIsWellFormed(cut, other);
  }

  lemma OneEdgeIsWellFormed(x: Slug, y: Slug)
    requires x != y
    ensures WellFormed(AsSet([x, y]), map[x := [y]])
  {
    var deps: Relation<Slug> := map[x := [y]];
    forall p ensures !IsCycle(deps, p) {
      assert |p| >= 2 && Edge(deps, p[0], p[0 + 1]) ==> p[0] == x && p[1] == y;
      assert |p| > 2 && p[1] == y ==> !Edge(deps, p[1], p[1 + 1]);
    }
  }
}
