/** The distillation editing the graph in place (knowledge/distill.py, `_merge_nodes` and `distill`). */
module DistillRuns {
  import opened Wrappers
  import opened Identifiers
  import opened Networks
  import opened Quotients
  import opened Consolidation
  import opened DistillReports
  import opened Distills
  import opened GraphFiles
  import opened KnowledgeGraphs

  function Moving(edges: map<Key, Edge>, m: Merge): set<Key> {
    set k | k in edges && Mentions(k, m.drop)
  }

  lemma NoneMoved(edges: map<Key, Edge>, m: Merge)
    requires m.keep != m.drop
    ensures PartlyMerged(edges, m, {}) == edges - Moving(edges, m)
  {
  }

  lemma AllMoved(edges: map<Key, Edge>, m: Merge)
    requires m.keep != m.drop
    ensures PartlyMerged(edges, m, Moving(edges, m)) == MergedEdges(edges, m)
  {
    forall k ensures Arriving(edges, m, Moving(edges, m), k) == Arriving(edges, m, edges.Keys, k) {
    }
  }

  /** One more of the dropped node's edges moves: onto an edge already there, to a free key, or,
      if it would become a loop, nowhere. */
  lemma OneMoved(edges: map<Key, Edge>, m: Merge, done: set<Key>, p: Key)
    requires m.keep != m.drop && p in Moving(edges, m) && p !in done
    ensures var now, k := PartlyMerged(edges, m, done), Moved(m, p);
            PartlyMerged(edges, m, done + {p}) ==
              if k.src == k.dst then now
              else if k in now then now[k := MergeEdge(now[k], edges[p])] else now[k := edges[p]]
  {
    var k := Moved(m, p);
    forall x | (x != k || k.src == k.dst) && !Mentions(x, m.drop)
      ensures Arriving(edges, m, done + {p}, x) == Arriving(edges, m, done, x)
    {
      if Origin(m, x) == Some(p) {
        MovedOfOrigin(m, x);
      }
    }
    if k.src != k.dst {
      OriginOfMoved(m, p);
    }
  }

  lemma MergedIsOk(st: Setting, g: Network, m: Merge)
    requires GraphOk(st, g) && m.keep in g.nodes && m.keep != m.drop
    ensures GraphOk(st, Merged(g, m))
  {
    hide NodeOk;
    MergedIsWellFormed(g, m);
  }

  /** `_merge_nodes` */
  method MergeNodes(graph: KnowledgeGraph, m: Merge)
    requires graph.Valid() && m.keep in graph.nodes && m.keep != m.drop
    modifies graph
    ensures graph.Valid() && graph.Net() == Merged(old(graph.Net()), m)
  {
    hide AlphabetOk, GraphOk, PartlyMerged, MergedEdges, Moving;
    ghost var before := graph.Net();
    MergedIsOk(graph.setting, before, m);
    var edges := graph.edges;
    var todo := set k | k in edges && Mentions(k, m.drop);
    MovingIs(edges, m, todo);
    graph.nodes := graph.nodes - {m.drop};
    graph.edges := edges - todo;
    NoneMoved(edges, m);
    AllMoved(edges, m);
    ghost var done: set<Key> := {};
    while todo != {}
      invariant done + todo == Moving(edges, m) && done !! todo
      invariant graph.nodes == before.nodes - {m.drop}
      invariant graph.edges == PartlyMerged(edges, m, done)
      invariant todo <= edges.Keys
      decreases |todo|
    {
      var p :| p in todo;
      todo := todo - {p};
      OneMoved(edges, m, done, p);
      done := done + {p};
      var k := Moved(m, p);
      if k.src == k.dst {
        continue;
      }
      if k in graph.edges {
        graph.edges := graph.edges[k := MergeEdge(graph.edges[k], edges[p])];
      } else {
        graph.edges := graph.edges[k := edges[p]];
      }
    }
    assert done == Moving(edges, m);
  }

  lemma MovingIs(edges: map<Key, Edge>, m: Merge, todo: set<Key>)
    requires todo == set k | k in edges && Mentions(k, m.drop)
    ensures todo == Moving(edges, m) && todo <= edges.Keys
  {
  }

  /** `distill`: the report is made from the graph when none is given.  If the graph is too small
      nothing is done and nothing written; otherwise what is written to disk loads back as the
      distilled graph, the old file having been removed first. */
  method Distill(graph: KnowledgeGraph, given: Option<Report>, p: Params)
    returns (c: Counts, r: Report, file: Option<File>)
    requires graph.Valid()
    modifies graph
    ensures graph.Valid()
    ensures if given.Some? then r == given.value else IsReport(old(graph.Net()), p, r)
    ensures graph.Net() == Applied(old(graph.Net()), r) && c == CountsOf(old(graph.Net()), r)
    ensures file.None? <==> r.TooSmall?
    ensures r.TooSmall? ==> graph.Net() == old(graph.Net())
    ensures file.Some? ==>
              Serializes(graph.Net(), file.value) && FileMerged(graph.setting, EMPTY, file.value) == graph.Net()
  {
    hide AlphabetOk, NodeOk, EdgeOk, IsReport, AfterMerges, AfterPrunes;
    hide AfterOrphans, MergesDone, PrunesDone, OrphansDone, FileMerged, Serializes;
    if given.Some? {
      r := given.value;
    } else {
      r := DistillReport(graph.Net(), p);
    }
    if r.TooSmall? {
      return Counts(0, 0, 0), r, None;
    }
    var merged := MergeAll(graph, r.merges);
    var pruned := PruneAll(graph, r.prunes);
    var removed := RemoveOrphans(graph, r.orphans);
    c := Counts(merged, pruned, removed);
    var saved := graph.Save(None);
    file := Some(saved);
  }

  method MergeAll(graph: KnowledgeGraph, ms: seq<Merge>) returns (merged: nat)
    requires graph.Valid()
    modifies graph
    ensures graph.Valid() && graph.Net() == AfterMerges(old(graph.Net()), ms)
    ensures merged == MergesDone(old(graph.Net()), ms)
  {
    hide AlphabetOk, GraphOk, Merged;
    merged := 0;
    ghost var before := graph.Net();
    for i := 0 to |ms|
      invariant graph.Valid() && graph.Net() == AfterMerges(before, ms[..i]) && merged == MergesDone(before, ms[..i])
    {
      assert ms[..i + 1][..i] == ms[..i];
      if MergeApplies(graph.Net(), ms[i]) {
        MergeNodes(graph, ms[i]);
        merged := merged + 1;
      }
    }
    assert ms[..|ms|] == ms;
  }

  method PruneAll(graph: KnowledgeGraph, ks: seq<Key>) returns (pruned: nat)
    requires graph.Valid()
    modifies graph
    ensures graph.Valid() && graph.Net() == AfterPrunes(old(graph.Net()), ks)
    ensures pruned == PrunesDone(old(graph.Net()), ks)
  {
    hide AlphabetOk, NodeOk, EdgeOk;
    pruned := 0;
    ghost var before := graph.Net();
    for i := 0 to |ks|
      invariant graph.Valid() && graph.Net() == AfterPrunes(before, ks[..i]) && pruned == PrunesDone(before, ks[..i])
    {
      assert ks[..i + 1][..i] == ks[..i];
      if PruneApplies(graph.Net(), ks[i]) {
        graph.edges := graph.edges - {ks[i]};
        pruned := pruned + 1;
      }
    }
    assert ks[..|ks|] == ks;
  }

  method RemoveOrphans(graph: KnowledgeGraph, ns: seq<Id>) returns (removed: nat)
    requires graph.Valid()
    modifies graph
    ensures graph.Valid() && graph.Net() == AfterOrphans(old(graph.Net()), ns)
    ensures removed == OrphansDone(old(graph.Net()), ns)
  {
    hide AlphabetOk, NodeOk, EdgeOk;
    removed := 0;
    ghost var before := graph.Net();
    for i := 0 to |ns|
      invariant graph.Valid() && graph.Net() == AfterOrphans(before, ns[..i]) && removed == OrphansDone(before, ns[..i])
    {
      assert ns[..i + 1][..i] == ns[..i];
      if OrphanGoes(graph.Net(), ns[i]) {
        graph.nodes := graph.nodes - {ns[i]};
        removed := removed + 1;
      }
    }
    assert ns[..|ns|] == ns;
  }
}
