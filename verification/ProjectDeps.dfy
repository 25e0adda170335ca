/** Validating a dependency map between projects (orchestration/fanout.py, `validate_project_deps`). */
module ProjectDeps {
  import opened Collections
  import opened Wrappers
  import opened Cycles
  import opened Slugs
  import opened Waves

  /** A dependency map as it arrives: raw names, in the order of the mapping. */
  type RawDeps = seq<(string, seq<string>)>

  datatype DepError =
    | UnknownProject(key: string) | UnknownUpstream(upstream: string, key: string) | SelfDependency(key: string)

  /** First occurrences of the slugs of `ups`, after those in `acc`. */
  function Cleaned(ups: seq<string>, acc: seq<Slug>): seq<Slug>
    decreases |ups|
  {
    if ups == [] then acc
    else
      var u := Slugify(ups[0]);
      Cleaned(ups[1..], if u in acc then acc else acc + [u])
  }

  predicate Acceptable(slugs: seq<Slug>, item: (string, seq<string>)) {
    && Slugify(item.0) in slugs
    && forall up | up in item.1 :: Slugify(up) in slugs && Slugify(up) != Slugify(item.0)
  }

  /** One entry of the normalized map; an entry without upstreams is dropped. */
  function Enter(norm: Relation<Slug>, item: (string, seq<string>)): Relation<Slug> {
    if Cleaned(item.1, []) == [] then norm else norm[Slugify(item.0) := Cleaned(item.1, [])]
  }

  function Normalized(deps: RawDeps): Relation<Slug>
    decreases |deps|
  {
    if deps == [] then map[] else Enter(Normalized(deps[..|deps| - 1]), deps[|deps| - 1])
  }

  /** A dependency map the run path accepts: non-empty lists of other, distinct nodes, and no
      circle. */
  ghost predicate WellFormed(nodes: set<Slug>, deps: Relation<Slug>) {
    && deps.Keys <= nodes
    && (forall k :: k in deps ==> deps[k] != [] && Distinct(deps[k]) && k !in deps[k])
    && Closed(deps, nodes)
    && !CyclicIn(deps, nodes)
  }

  function SlugSet(ups: seq<string>): set<Slug> {
    if ups == [] then {} else {Slugify(ups[0])} + SlugSet(ups[1..])
  }

  lemma {:induction false} SlugSetHas(ups: seq<string>, u: Slug)
    ensures u in SlugSet(ups) ==> exists up :: up in ups && Slugify(up) == u
  {
    if ups != [] {
      SlugSetHas(ups[1..], u);
      if u == Slugify(ups[0]) { assert ups[0] in ups; }
    }
  }

  lemma {:induction false} CleanedIs(ups: seq<string>, acc: seq<Slug>)
    requires Distinct(acc)
    ensures Distinct(Cleaned(ups, acc))
    ensures AsSet(Cleaned(ups, acc)) == AsSet(acc) + SlugSet(ups)
    decreases |ups|
  {
    hide Slugify;
    if ups != [] {
      var u := Slugify(ups[0]);
      var acc' := if u in acc then acc else acc + [u];
      CleanedIs(ups[1..], acc');
      assert AsSet(acc') == AsSet(acc) + {u};
    }
  }

  lemma {:induction false} CleanedFixed(ups: seq<string>, acc: seq<Slug>)
    requires Distinct(acc + ups) && forall u :: u in ups ==> Slugify(u) == u
    ensures Cleaned(ups, acc) == acc + ups
    decreases |ups|
  {
    hide Slugify;
    if ups != [] {
      assert Slugify(ups[0]) == ups[0];
      forall i | 0 <= i < |acc| ensures acc[i] != ups[0] {
        assert (acc + ups)[i] != (acc + ups)[|acc|];
      }
      assert acc + [ups[0]] + ups[1..] == acc + ups;
      CleanedFixed(ups[1..], acc + [ups[0]]);
    }
  }

  /** What validation accepts has entries over the given slugs only, none on itself. */
  lemma {:induction false} NormalizedIs(slugs: seq<Slug>, deps: RawDeps)
    requires forall i :: 0 <= i < |deps| ==> Acceptable(slugs, deps[i])
    ensures var n := Normalized(deps);
            forall k :: k in n ==> && k in slugs && n[k] != [] && Distinct(n[k]) && k !in n[k]
                                   && forall u :: u in n[k] ==> u in slugs
    decreases |deps|
  {
    hide Slugify;
    if deps != [] {
      var front, item := deps[..|deps| - 1], deps[|deps| - 1];
      NormalizedIs(slugs, front);
      CleanedIs(item.1, []);
      assert Acceptable(slugs, item);
      forall u | u in Cleaned(item.1, []) ensures u in slugs && u != Slugify(item.0) {
        assert u in AsSet(Cleaned(item.1, []));
        SlugSetHas(item.1, u);
      }
    }
  }

  method ValidateProjectDeps(slugs: seq<Slug>, deps: RawDeps) returns (r: Result<Relation<Slug>, DepError>)
    ensures r.Ok? <==> forall i :: 0 <= i < |deps| ==> Acceptable(slugs, deps[i])
    ensures r.Ok? ==> r.value == Normalized(deps)
  {
    hide Slugify;
    var norm: Relation<Slug> := map[];
    var i := 0;
    while i < |deps|
      invariant 0 <= i <= |deps| && norm == Normalized(deps[..i])
      invariant forall k :: 0 <= k < i ==> Acceptable(slugs, deps[k])
    {
      assert deps[..i + 1][..i] == deps[..i];
      var (key, ups) := deps[i];
      var k := Slugify(key);
      if k !in slugs {
        return Err(UnknownProject(key));
      }
      var cleaned: seq<Slug> := [];
      var j := 0;
      while j < |ups|
        invariant 0 <= j <= |ups| && Cleaned(ups[j..], cleaned) == Cleaned(ups, [])
        invariant forall a :: 0 <= a < j ==> Slugify(ups[a]) in slugs && Slugify(ups[a]) != k
      {
        assert ups[j..][0] == ups[j] && ups[j..][1..] == ups[j + 1..];
        var u := Slugify(ups[j]);
        if u !in slugs {
          assert ups[j] in deps[i].1;
          return Err(UnknownUpstream(ups[j], key));
        }
        if u == k {
          assert ups[j] in deps[i].1;
          return Err(SelfDependency(key));
        }
        if u !in cleaned {
          cleaned := cleaned + [u];
        }
        j := j + 1;
      }
      assert ups[j..] == [] && cleaned == Cleaned(ups, []);
      if cleaned != [] {
        norm := norm[k := cleaned];
      }
      i := i + 1;
    }
    assert deps[..i] == deps;
    r := Ok(norm);
  }

  /** `items` lists the entries of `deps`, each once. */
  ghost predicate Named(items: RawDeps, n: nat, k: Slug) {
    exists i :: 0 <= i < n && i < |items| && items[i].0 == k
  }

  ghost predicate Lists(deps: Relation<Slug>, items: RawDeps) {
    && (forall i, j :: 0 <= i < j < |items| ==> items[i].0 != items[j].0)
    && (forall i :: 0 <= i < |items| ==> items[i].0 in deps && deps[items[i].0] == items[i].1)
    && forall k :: k in deps ==> Named(items, |items|, k)
  }

  lemma {:induction false} NormalizedFixed(deps: Relation<Slug>, items: RawDeps, n: nat)
    requires n <= |items|
    requires forall i, j :: 0 <= i < j < |items| ==> items[i].0 != items[j].0
    requires forall i :: 0 <= i < |items| ==> items[i].0 in deps && deps[items[i].0] == items[i].1
    requires forall k :: k in deps ==> Slugify(k) == k && deps[k] != [] && Distinct(deps[k])
                                       && forall u :: u in deps[k] ==> Slugify(u) == u
    ensures forall k :: k in Normalized(items[..n]) <==> Named(items, n, k)
    ensures forall k :: k in Normalized(items[..n]) ==> k in deps && Normalized(items[..n])[k] == deps[k]
  {
    hide Slugify;
    if n > 0 {
      NormalizedFixed(deps, items, n - 1);
      assert items[..n][..n - 1] == items[..n - 1];
      var (key, ups) := items[n - 1];
      assert [] + ups == ups;
      CleanedFixed(ups, []);
    }
  }

  /** Every name in an entry looks like a slug. */
  ghost predicate NamesAreSlugs(deps: Relation<Slug>) {
    forall k :: k in deps ==> IsSlug(k) && forall u :: u in deps[k] ==> IsSlug(u)
  }

  lemma WellFormedLists(slugs: seq<Slug>, deps: Relation<Slug>)
    requires WellFormed(AsSet(slugs), deps) && NamesAreSlugs(deps)
    ensures forall k | k in deps :: k in slugs && Slugify(k) == k && deps[k] != [] && Distinct(deps[k]) && k !in deps[k]
    ensures forall k, u | k in deps && u in deps[k] :: u in slugs && Slugify(u) == u
    ensures Closed(deps, AsSet(slugs)) && !CyclicIn(deps, AsSet(slugs))
  {
    hide Slugify, CyclicIn, IsSlug;
    forall k, u | k in deps && u in deps[k] ensures u in slugs && Slugify(u) == u {
      assert Edge(deps, k, u);
      FixedIffSlug(u);
    }
    forall k | k in deps ensures k in slugs && Slugify(k) == k {
      assert k in AsSet(slugs);
      FixedIffSlug(k);
    }
  }

  lemma ListedAreAcceptable(slugs: seq<Slug>, deps: Relation<Slug>, items: RawDeps, i: nat)
    requires i < |items| && Lists(deps, items)
    requires forall k | k in deps :: k in slugs && Slugify(k) == k && k !in deps[k]
    requires forall k, u | k in deps && u in deps[k] :: u in slugs && Slugify(u) == u
    ensures Acceptable(slugs, items[i])
  {
    hide Slugify;
    var (key, ups) := items[i];
    assert key in deps && deps[key] == ups;
  }

  lemma ListedAreNormal(deps: Relation<Slug>, items: RawDeps)
    requires Lists(deps, items)
    requires forall k :: k in deps ==> Slugify(k) == k && deps[k] != [] && Distinct(deps[k])
                                       && forall u :: u in deps[k] ==> Slugify(u) == u
    ensures Normalized(items) == deps
  {
    hide Slugify, Distinct, Normalized, Named;
    NormalizedFixed(deps, items, |items|);
    assert items[..|items|] == items;
    forall k ensures k in Normalized(items) <==> k in deps {
    }
  }

  /** A well-formed map whose entries name proper slugs only passes validation unchanged. */
  lemma WellFormedIsAccepted(slugs: seq<Slug>, deps: Relation<Slug>, items: RawDeps)
    requires WellFormed(AsSet(slugs), deps) && Lists(deps, items) && NamesAreSlugs(deps)
    ensures forall i :: 0 <= i < |items| ==> Acceptable(slugs, items[i])
    ensures Normalized(items) == deps
    ensures Closed(deps, AsSet(slugs)) && !CyclicIn(deps, AsSet(slugs))
  {
    hide Slugify, WellFormed, Closed, CyclicIn, Distinct, Normalized, Lists, Acceptable, NamesAreSlugs;
    WellFormedLists(slugs, deps);
    forall i | 0 <= i < |items| ensures Acceptable(slugs, items[i]) {
      ListedAreAcceptable(slugs, deps, items, i);
    }
    ListedAreNormal(deps, items);
  }

  /** Normalizing names that `slugify` returned leaves proper slugs only. */
  lemma {:induction false} NormalizedNames(items: RawDeps)
    requires forall item | item in items :: Slugged(item.0) && forall u :: u in item.1 ==> Slugged(u)
    ensures NamesAreSlugs(Normalized(items))
    decreases |items|
  {
    hide Slugify, Slugged, IsSlug;
    if items != [] {
      var item := items[|items| - 1];
      assert item in items;
      NormalizedNames(items[..|items| - 1]);
      SluggedTwice(item.0);
      CleanedIs(item.1, []);
      forall u | u in Cleaned(item.1, []) ensures IsSlug(u) {
        assert u in AsSet(Cleaned(item.1, []));
        SlugSetHas(item.1, u);
        var up :| up in item.1 && Slugify(up) == u;
        SluggedTwice(up);
      }
    }
  }

  /** A well-formed map over project slugs passes validation unchanged if and only if no entry
      names a slug that was cut after a hyphen. */
  lemma AcceptedUnchangedIff(slugs: seq<Slug>, deps: Relation<Slug>, items: RawDeps)
    requires WellFormed(AsSet(slugs), deps) && Lists(deps, items)
    requires forall s :: s in slugs ==> Slugged(s)
    ensures (forall i :: 0 <= i < |items| ==> Acceptable(slugs, items[i])) && Normalized(items) == deps
            <==> NamesAreSlugs(deps)
  {
    hide Slugged, NamesAreSlugs, Acceptable, CyclicIn, Distinct;
    if NamesAreSlugs(deps) {
      WellFormedIsAccepted(slugs, deps, items);
    }
    forall item | item in items ensures Slugged(item.0) && forall u :: u in item.1 ==> Slugged(u) {
      assert item.0 in AsSet(slugs);
      forall u | u in item.1 ensures Slugged(u) { assert Edge(deps, item.0, u); }
    }
    NormalizedNames(items);
  }

  /** Documented to reject a circle, validation only looks at one entry at a time: it accepts this
      one, and the wave builder is what rejects it. */
  lemma CircleIsAcceptable(a: Slug, b: Slug)
    requires IsSlug(a) && IsSlug(b) && a != b
    ensures var deps: RawDeps := [(a, [b]), (b, [a])];
            && (forall i :: 0 <= i < |deps| ==> Acceptable([a, b], deps[i]))
            && CyclicIn(Normalized(deps), {a, b})
  {
    hide Slugify, IsSlug;
    FixedIffSlug(a);
    FixedIffSlug(b);
    var deps: RawDeps := [(a, [b]), (b, [a])];
    assert deps[..1] == [(a, [b])] && deps[..1][..0] == [];
    CleanedFixed([a], []);
    CleanedFixed([b], []);
    assert [] + [a] == [a] && [] + [b] == [b];
    assert Normalized(deps[..1]) == Enter(map[], deps[0]) by { assert Normalized(deps[..1][..0]) == map[]; }
    assert Normalized(deps) == map[a := [b], b := [a]];
    assert IsCycle(Normalized(deps), [a, b, a]);
  }
}
