/** Merging nodes of the graph one after another (knowledge/distill.py, `_merge_nodes` and
    `_resolve`), and the quotient it arrives at. */
module Quotients {
  import opened Wrappers
  import opened Networks

  datatype Merge = Merge(keep: Id, drop: Id, semantic: bool)

  function Redirect(m: Merge, n: Id): Id {
    if n == m.drop then m.keep else n
  }

  /** Where a node ends up when the merges are done in order. */
  function Resolve(ms: seq<Merge>, n: Id): Id {
    if ms == [] then n else Redirect(ms[|ms| - 1], Resolve(ms[..|ms| - 1], n))
  }

  lemma ResolveMore(ms: seq<Merge>, m: Merge, n: Id)
    ensures Resolve(ms + [m], n) == Redirect(m, Resolve(ms, n))
  {
    assert (ms + [m])[..|ms|] == ms;
  }

  function Moved(m: Merge, k: Key): Key {
    Key(Redirect(m, k.src), Redirect(m, k.dst), k.relation)
  }

  /** The edge of the dropped node that would move to this key, loops aside. */
  function Origin(m: Merge, k: Key): Option<Key> {
    if k.src == m.keep && k.dst != m.keep then Some(Key(m.drop, k.dst, k.relation))
    else if k.dst == m.keep && k.src != m.keep then Some(Key(k.src, m.drop, k.relation))
    else None
  }

  /** The dropped node's edge among `done` that moves to this key. */
  function Arriving(edges: map<Key, Edge>, m: Merge, done: set<Key>, k: Key): Option<Edge> {
    if Origin(m, k).Some? && Origin(m, k).value in edges && Origin(m, k).value in done
    then Some(edges[Origin(m, k).value]) else None
  }

  /** The edges once the dropped node is gone and its edges in `done` have moved. */
  function PartlyMerged(edges: map<Key, Edge>, m: Merge, done: set<Key>): map<Key, Edge> {
    map k | k in edges.Keys + (set p | p in edges.Keys :: Moved(m, p)) && !Mentions(k, m.drop)
            && (k in edges || Arriving(edges, m, done, k).Some?)
      :: var arriving := Arriving(edges, m, done, k);
         if k !in edges then arriving.value
         else if arriving.None? then edges[k]
         else MergeEdge(edges[k], arriving.value)
  }

  function MergedEdges(edges: map<Key, Edge>, m: Merge): map<Key, Edge> {
    PartlyMerged(edges, m, edges.Keys)
  }

  /** `_merge_nodes` */
  function Merged(g: Network, m: Merge): Network {
    Network(g.nodes - {m.drop}, MergedEdges(g.edges, m))
  }

  lemma MergedIsWellFormed(g: Network, m: Merge)
    requires WellFormed(g) && m.keep in g.nodes && m.keep != m.drop
    ensures WellFormed(Merged(g, m))
  {
    forall k | k in Merged(g, m).edges ensures k.src in Merged(g, m).nodes && k.dst in Merged(g, m).nodes {
      if k !in g.edges {
        assert Origin(m, k).value in g.edges;
      }
    }
  }

  lemma OriginOfMoved(m: Merge, p: Key)
    requires m.keep != m.drop && Mentions(p, m.drop) && Moved(m, p).src != Moved(m, p).dst
    ensures Origin(m, Moved(m, p)) == Some(p) && !Mentions(Moved(m, p), m.drop)
  {
  }

  lemma MovedOfOrigin(m: Merge, k: Key)
    requires m.keep != m.drop && Origin(m, k).Some? && !Mentions(k, m.drop)
    ensures Moved(m, Origin(m, k).value) == k && k.src != k.dst && Mentions(Origin(m, k).value, m.drop)
  {
  }

  // ---- the quotient ----

  /** The old edge `p` is one of those the merges carry to `k`. Edges that become loops get lost;
      a loop there is its own only origin. */
  ghost predicate Lands(edges: map<Key, Edge>, ms: seq<Merge>, p: Key, k: Key) {
    && p in edges && p.relation == k.relation
    && Resolve(ms, p.src) == k.src && Resolve(ms, p.dst) == k.dst
    && (k.src == k.dst ==> p == k)
  }

  /** `best` is the greatest of the values the edges landing on `k` have. */
  ghost predicate GreatestIs(f: Edge -> Option<int>, edges: map<Key, Edge>, ms: seq<Merge>, k: Key, best: Option<int>) {
    && (forall p | Lands(edges, ms, p, k) :: f(edges[p]).None? || (best.Some? && f(edges[p]).value <= best.value))
    && (best.Some? ==> exists p :: Lands(edges, ms, p, k) && f(edges[p]) == best)
  }

  ghost predicate SomeLands(edges: map<Key, Edge>, ms: seq<Merge>, k: Key) {
    exists p :: Lands(edges, ms, p, k)
  }

  /** The three quantities a merge takes the greatest of; a smallest time is a greatest negative. */
  const WEIGHT: Edge -> Option<int> := (e: Edge) => Some(e.weight)
  const LAST: Edge -> Option<int> := (e: Edge) => e.last
  const FIRST: Edge -> Option<int> := (e: Edge) => if e.first.None? then None else Some(-e.first.value)

  /** `now` is the quotient of `edges` under the merges: its keys are the images of the old ones,
      loops that merging makes left out, and each edge has the greatest weight, the latest and
      the earliest time among its origins, and their layer. */
  ghost predicate IsQuotient(edges: map<Key, Edge>, ms: seq<Merge>, now: map<Key, Edge>) {
    && (forall k :: k in now <==> SomeLands(edges, ms, k))
    && (forall k | k in now :: GreatestIs(WEIGHT, edges, ms, k, Some(now[k].weight)))
    && (forall k | k in now :: GreatestIs(LAST, edges, ms, k, now[k].last))
    && (forall k | k in now :: GreatestIs(FIRST, edges, ms, k, FIRST(now[k])))
    && (forall k, p | k in now && Lands(edges, ms, p, k) :: now[k].layer == edges[p].layer)
  }

  lemma QuotientByNothing(edges: map<Key, Edge>)
    ensures IsQuotient(edges, [], edges)
  {
    forall k | k in edges ensures Lands(edges, [], k, k) {
    }
    forall k ensures k in edges <==> SomeLands(edges, [], k) {
      if p :| Lands(edges, [], p, k) {
        assert p == k;
      }
    }
    forall k, p | Lands(edges, [], p, k) ensures p == k {
    }
  }

  /** What lands on a key after one more merge: what landed there before, and what landed on the
      dropped node's edge that moves there. */
  lemma LandsAfter(edges: map<Key, Edge>, ms: seq<Merge>, m: Merge, p: Key, k: Key)
    requires m.keep != m.drop && Resolve(ms, m.keep) == m.keep
    ensures Lands(edges, ms + [m], p, k) ==> !Mentions(k, m.drop)
    ensures !Mentions(k, m.drop) ==>
              (Lands(edges, ms + [m], p, k) <==>
               Lands(edges, ms, p, k) || (Origin(m, k).Some? && Lands(edges, ms, p, Origin(m, k).value)))
  {
    ResolveMore(ms, m, p.src);
    ResolveMore(ms, m, p.dst);
  }

  predicate TakesLarger(f: Edge -> Option<int>, a: Edge, b: Edge) {
    f(MergeEdge(a, b)) == Larger(f(a), f(b))
  }

  lemma MergeTakesLarger(a: Edge, b: Edge)
    ensures TakesLarger(WEIGHT, a, b) && TakesLarger(LAST, a, b) && TakesLarger(FIRST, a, b)
  {
  }

  lemma GreatestAfter(f: Edge -> Option<int>, edges: map<Key, Edge>, ms: seq<Merge>, m: Merge, k: Key,
                      here: Option<Edge>, there: Option<Edge>, e: Edge)
    requires m.keep != m.drop && Resolve(ms, m.keep) == m.keep && !Mentions(k, m.drop)
    requires here.Some? || there.Some?
    requires if here.Some? then GreatestIs(f, edges, ms, k, f(here.value)) else !SomeLands(edges, ms, k)
    requires if there.Some? then Origin(m, k).Some? && GreatestIs(f, edges, ms, Origin(m, k).value, f(there.value))
             else Origin(m, k).Some? ==> !SomeLands(edges, ms, Origin(m, k).value)
    requires f(e) == Larger(if here.Some? then f(here.value) else None, if there.Some? then f(there.value) else None)
    ensures GreatestIs(f, edges, ms + [m], k, f(e))
  {
    var more := ms + [m];
    assert forall p | Lands(edges, more, p, k) :: p in edges;
    hide Lands, Mentions;
    forall p ensures Lands(edges, more, p, k) <==>
                     Lands(edges, ms, p, k) || (Origin(m, k).Some? && Lands(edges, ms, p, Origin(m, k).value)) {
      LandsAfter(edges, ms, m, p, k);
    }
    forall p | Lands(edges, more, p, k) ensures f(edges[p]).None? || (f(e).Some? && f(edges[p]).value <= f(e).value) {
      if !Lands(edges, ms, p, k) {
        assert Lands(edges, ms, p, Origin(m, k).value);
      }
    }
  }

  lemma MergedKeys(now: map<Key, Edge>, m: Merge, k: Key)
    requires m.keep != m.drop
    ensures k in MergedEdges(now, m) <==>
              !Mentions(k, m.drop) && (k in now || (Origin(m, k).Some? && Origin(m, k).value in now))
  {
    if !Mentions(k, m.drop) && Origin(m, k).Some? && Origin(m, k).value in now {
      MovedOfOrigin(m, k);
      assert k in (set p | p in now.Keys :: Moved(m, p));
    }
  }

  lemma StepKeys(edges: map<Key, Edge>, ms: seq<Merge>, now: map<Key, Edge>, m: Merge, k: Key)
    requires IsQuotient(edges, ms, now) && m.keep != m.drop && Resolve(ms, m.keep) == m.keep
    ensures k in MergedEdges(now, m) <==> SomeLands(edges, ms + [m], k)
  {
    hide Lands, Mentions, MergedEdges;
    MergedKeys(now, m, k);
    forall p ensures Lands(edges, ms + [m], p, k) ==> !Mentions(k, m.drop)
      ensures !Mentions(k, m.drop) ==>
                (Lands(edges, ms + [m], p, k) <==>
                 Lands(edges, ms, p, k) || (Origin(m, k).Some? && Lands(edges, ms, p, Origin(m, k).value))) {
      LandsAfter(edges, ms, m, p, k);
    }
    assert k in now <==> SomeLands(edges, ms, k);
    if Origin(m, k).Some? {
      assert Origin(m, k).value in now <==> SomeLands(edges, ms, Origin(m, k).value);
    }
  }

  /** What the merge makes of an edge: the edge there, the edge arriving, or the two combined. */
  lemma MergedEdgeIs(now: map<Key, Edge>, m: Merge, k: Key, f: Edge -> Option<int>)
    requires m.keep != m.drop && k in MergedEdges(now, m)
    requires forall a, b :: TakesLarger(f, a, b)
    ensures f(MergedEdges(now, m)[k]) ==
            Larger(if k in now then f(now[k]) else None,
                   if Origin(m, k).Some? && Origin(m, k).value in now then f(now[Origin(m, k).value]) else None)
  {
    var arriving := Arriving(now, m, now.Keys, k);
    if k in now && arriving.Some? {
      assert TakesLarger(f, now[k], arriving.value);
    }
  }

  lemma StepGreatest(f: Edge -> Option<int>, edges: map<Key, Edge>, ms: seq<Merge>, now: map<Key, Edge>,
                     m: Merge, k: Key)
    requires forall key :: key in now <==> SomeLands(edges, ms, key)
    requires forall key | key in now :: GreatestIs(f, edges, ms, key, f(now[key]))
    requires forall a, b :: TakesLarger(f, a, b)
    requires m.keep != m.drop && Resolve(ms, m.keep) == m.keep && k in MergedEdges(now, m)
    ensures GreatestIs(f, edges, ms + [m], k, f(MergedEdges(now, m)[k]))
  {
    hide Lands, Mentions, MergedEdges, GreatestIs, SomeLands;
    MergedKeys(now, m, k);
    MergedEdgeIs(now, m, k, f);
    var here := if k in now then Some(now[k]) else None;
    var there := if Origin(m, k).Some? && Origin(m, k).value in now then Some(now[Origin(m, k).value]) else None;
    GreatestAfter(f, edges, ms, m, k, here, there, MergedEdges(now, m)[k]);
  }

  lemma MergedLayer(now: map<Key, Edge>, m: Merge, k: Key)
    requires m.keep != m.drop && k in MergedEdges(now, m)
    ensures k in now ==> MergedEdges(now, m)[k].layer == now[k].layer
    ensures k !in now ==>
              Origin(m, k).Some? && Origin(m, k).value in now && MergedEdges(now, m)[k] == now[Origin(m, k).value]
  {
  }

  lemma StepLayers(edges: map<Key, Edge>, ms: seq<Merge>, now: map<Key, Edge>, m: Merge, k: Key, p: Key)
    requires IsQuotient(edges, ms, now) && m.keep != m.drop && Resolve(ms, m.keep) == m.keep
    requires forall key | key in now && (Mentions(key, m.keep) || Mentions(key, m.drop)) :: now[key].layer == Domain
    requires k in MergedEdges(now, m) && Lands(edges, ms + [m], p, k)
    ensures p in edges && MergedEdges(now, m)[k].layer == edges[p].layer
  {
    LandsAfter(edges, ms, m, p, k);
    assert p in edges;
    hide MergedEdges, Lands, GreatestIs;
    MergedKeys(now, m, k);
    MergedLayer(now, m, k);
    if Lands(edges, ms, p, k) {
      assert SomeLands(edges, ms, k);
      assert now[k].layer == edges[p].layer;
    } else {
      var o := Origin(m, k).value;
      assert SomeLands(edges, ms, o);
      assert now[o].layer == edges[p].layer;
    }
  }

  /** One more merge of two roots, neither on a run-layer edge, makes the quotient of one more merge. */
  lemma QuotientStep(edges: map<Key, Edge>, ms: seq<Merge>, now: map<Key, Edge>, m: Merge)
    requires IsQuotient(edges, ms, now) && m.keep != m.drop && Resolve(ms, m.keep) == m.keep
    requires forall key | key in now && (Mentions(key, m.keep) || Mentions(key, m.drop)) :: now[key].layer == Domain
    ensures IsQuotient(edges, ms + [m], MergedEdges(now, m))
  {
    hide Lands, MergedEdges, GreatestIs, SomeLands;
    var after := MergedEdges(now, m);
    forall a: Edge, b: Edge ensures TakesLarger(WEIGHT, a, b) && TakesLarger(LAST, a, b) && TakesLarger(FIRST, a, b) {
      MergeTakesLarger(a, b);
    }
    forall k ensures k in after <==> SomeLands(edges, ms + [m], k) {
      StepKeys(edges, ms, now, m, k);
    }
    assert forall key | key in now :: WEIGHT(now[key]) == Some(now[key].weight) && LAST(now[key]) == now[key].last;
    forall k | k in after
      ensures GreatestIs(WEIGHT, edges, ms + [m], k, Some(after[k].weight))
      ensures GreatestIs(LAST, edges, ms + [m], k, after[k].last)
      ensures GreatestIs(FIRST, edges, ms + [m], k, FIRST(after[k]))
    {
      StepGreatest(WEIGHT, edges, ms, now, m, k);
      StepGreatest(LAST, edges, ms, now, m, k);
      StepGreatest(FIRST, edges, ms, now, m, k);
    }
    forall k, p | k in after && Lands(edges, ms + [m], p, k) ensures p in edges && after[k].layer == edges[p].layer {
      StepLayers(edges, ms, now, m, k, p);
    }
  }
}
