/** Merging a file that has been merged before (knowledge/graph.py, `_merge_from_disk`). */
module GraphMerges {
  import opened Collections
  import opened Wrappers
  import opened Identifiers
  import opened Networks
  import opened GraphFiles

  // ---- nodes

  /** Reading the entry would change nothing. */
  ghost predicate HasNode(st: Setting, g: Network, n: FileNode) {
    var canon := Canonical(st.alphabet, n.id);
    canon in g.nodes && MetNode(g.nodes[canon], n) == g.nodes[canon]
  }

  lemma MetStays(known: Node, n: FileNode, m: FileNode)
    requires MetNode(known, n) == known
    ensures MetNode(MetNode(known, m), n) == MetNode(known, m)
  {
    var met := MetNode(known, m);
    assert known.extra == n.extra + known.extra;
    forall x | x in n.extra ensures x in met.extra { assert x in known.extra; }
    assert n.extra + met.extra == met.extra;
  }

  lemma MetTwice(known: Node, n: FileNode)
    ensures MetNode(MetNode(known, n), n) == MetNode(known, n)
  {
    var met := MetNode(known, n);
    assert n.extra + met.extra == met.extra;
  }

  lemma NewIsMet(st: Setting, canon: Id, n: FileNode)
    ensures MetNode(NewNode(st, canon, n), n) == NewNode(st, canon, n)
  {
    assert n.extra + n.extra == n.extra;
  }

  lemma IngestedHas(st: Setting, g: Network, m: FileNode)
    ensures HasNode(st, NodeIngested(st, g, m), m)
    ensures forall n :: HasNode(st, g, n) ==> HasNode(st, NodeIngested(st, g, m), n)
  {
    hide Canonical, MetNode, NewNode;
    var canon := Canonical(st.alphabet, m.id);
    if canon in g.nodes { MetTwice(g.nodes[canon], m); } else { NewIsMet(st, canon, m); }
    forall n | HasNode(st, g, n) ensures HasNode(st, NodeIngested(st, g, m), n) {
      if Canonical(st.alphabet, n.id) == canon { MetStays(g.nodes[canon], n, m); }
    }
  }

  lemma KnownNode(st: Setting, g: Network, n: FileNode)
    requires HasNode(st, g, n)
    ensures NodeIngested(st, g, n) == g
  {
    hide Canonical, MetNode;
    SameAgain(g.nodes, Canonical(st.alphabet, n.id));
  }

  lemma {:induction false} NodesHave(st: Setting, g: Network, nodes: seq<FileNode>)
    ensures forall i :: 0 <= i < |nodes| ==> HasNode(st, NodesIngested(st, g, nodes), nodes[i])
  {
    hide HasNode, NodeIngested;
    if nodes != [] {
      var k := |nodes| - 1;
      NodesHave(st, g, nodes[..k]);
      IngestedHas(st, NodesIngested(st, g, nodes[..k]), nodes[k]);
      forall i | 0 <= i < k ensures HasNode(st, NodesIngested(st, g, nodes[..k]), nodes[i]) {
        assert nodes[..k][i] == nodes[i];
      }
    }
  }

  lemma {:induction false} KnownNodes(st: Setting, g: Network, nodes: seq<FileNode>)
    requires forall i :: 0 <= i < |nodes| ==> HasNode(st, g, nodes[i])
    ensures NodesIngested(st, g, nodes) == g
  {
    hide HasNode, NodeIngested;
    if nodes != [] {
      KnownNodes(st, g, nodes[..|nodes| - 1]);
      KnownNode(st, g, nodes[|nodes| - 1]);
    }
  }

  /** An edge brings its ends, as entries without attributes. */
  function EndOf(id: string): FileNode {
    FileNode(id, CONCEPT, None, map[])
  }

  function WithEnds(st: Setting, g: Network, e: FileEdge): Network {
    NodeIngested(st, NodeIngested(st, g, EndOf(e.src)), EndOf(e.dst))
  }

  lemma EdgeStep(st: Setting, g: Network, e: FileEdge)
    ensures EdgeIngested(st, g, e).nodes == WithEnds(st, g, e).nodes
    ensures forall n :: HasNode(st, EdgeIngested(st, g, e), n) <==> HasNode(st, WithEnds(st, g, e), n)
    ensures WithEnds(st, g, e).edges == g.edges
    ensures EdgeIngested(st, g, e).edges ==
            g.edges[KeyOf(st, e) := if KeyOf(st, e) in g.edges then MetEdge(g.edges[KeyOf(st, e)], e) else NewEdge(e)]
  {
    hide Canonical, MetNode, NewNode, MetEdge, NewEdge;
  }

  lemma {:induction false} EdgesHave(st: Setting, g: Network, edges: seq<FileEdge>)
    ensures forall n :: HasNode(st, g, n) ==> HasNode(st, EdgesIngested(st, g, edges), n)
    ensures forall i :: 0 <= i < |edges| ==>
              HasNode(st, EdgesIngested(st, g, edges), EndOf(edges[i].src))
              && HasNode(st, EdgesIngested(st, g, edges), EndOf(edges[i].dst))
  {
    hide HasNode, NodeIngested, EdgeIngested;
    if edges != [] {
      var k := |edges| - 1;
      var before := EdgesIngested(st, g, edges[..k]);
      EdgesHave(st, g, edges[..k]);
      EdgeStep(st, before, edges[k]);
      IngestedHas(st, before, EndOf(edges[k].src));
      IngestedHas(st, NodeIngested(st, before, EndOf(edges[k].src)), EndOf(edges[k].dst));
      forall i | 0 <= i < k
        ensures HasNode(st, before, EndOf(edges[i].src)) && HasNode(st, before, EndOf(edges[i].dst))
      {
        assert edges[..k][i] == edges[i];
      }
    }
  }

  /** When all ends are known, reading the edges changes no node. */
  lemma {:induction false} KnownEnds(st: Setting, g: Network, edges: seq<FileEdge>)
    requires forall i :: 0 <= i < |edges| ==> HasNode(st, g, EndOf(edges[i].src)) && HasNode(st, g, EndOf(edges[i].dst))
    ensures EdgesIngested(st, g, edges).nodes == g.nodes
  {
    hide HasNode, NodeIngested, EdgeIngested;
    if edges != [] {
      var k := |edges| - 1;
      var before := EdgesIngested(st, g, edges[..k]);
      KnownEnds(st, g, edges[..k]);
      EdgeStep(st, before, edges[k]);
      SameNodes(st, g, before, EndOf(edges[k].src));
      SameNodes(st, g, before, EndOf(edges[k].dst));
      KnownNode(st, before, EndOf(edges[k].src));
      KnownNode(st, before, EndOf(edges[k].dst));
    }
  }

  lemma SameNodes(st: Setting, g: Network, h: Network, n: FileNode)
    requires g.nodes == h.nodes && HasNode(st, g, n)
    ensures HasNode(st, h, n)
  {
  }

  // ---- times

  function Stamps(early: bool, times: seq<Option<int>>, known: Option<int>): Option<int>
    decreases |times|
  {
    if times == [] then known else Stamped(early, Stamps(early, times[..|times| - 1], known), times[|times| - 1])
  }

  predicate NoTime(times: seq<Option<int>>) {
    forall t | t in times :: t.None?
  }

  predicate Blank(time: Option<int>) {
    time.None? || time.value == 0
  }

  function Better(early: bool, a: int, b: int): int {
    if early == (a <= b) then a else b
  }

  /** What a series of times makes of a known one: what it makes of none, or the better of the two. */
  lemma {:induction false} StampsAre(early: bool, times: seq<Option<int>>, known: Option<int>)
    ensures NoTime(times) ==> Stamps(early, times, known) == known
    ensures !NoTime(times) ==>
              && Stamps(early, times, None).Some?
              && (Blank(known) ==> Stamps(early, times, known) == Stamps(early, times, None))
              && (Stamps(early, times, known) == Stamps(early, times, None)
                  || (!Blank(known)
                      && Stamps(early, times, known)
                         == Some(Better(early, Stamps(early, times, None).value, known.value))))
    decreases |times|
  {
    if times != [] {
      var k := |times| - 1;
      StampsAre(early, times[..k], known);
      StampsAre(early, times[..k], None);
      assert times == times[..k] + [times[k]];
    }
  }

  lemma StampsTwice(early: bool, times: seq<Option<int>>, known: Option<int>)
    ensures Stamps(early, times, Stamps(early, times, known)) == Stamps(early, times, known)
  {
    hide Stamps;
    StampsAre(early, times, known);
    StampsAre(early, times, Stamps(early, times, known));
  }

  // ---- provenance

  lemma {:induction false} AppendedHas(current: seq<string>, incoming: seq<string>)
    ensures current <= Appended(current, incoming)
    ensures forall x | x in incoming :: x == "" || x in Appended(current, incoming)
    decreases incoming
  {
    if incoming != [] {
      var next := if incoming[0] != "" && incoming[0] !in current then current + [incoming[0]] else current;
      AppendedHas(next, incoming[1..]);
      var all := Appended(current, incoming);
      assert forall x | x in incoming :: x == incoming[0] || x in incoming[1..];
      assert forall x | x in next :: x in all by { assert all[..|next|] == next; }
    }
  }

  ghost predicate Full(items: seq<string>, incoming: seq<string>) {
    |items| == PROVENANCE_CAP || forall x | x in incoming :: x == "" || x in items
  }

  lemma FullStays(current: seq<string>, incoming: seq<string>)
    requires |current| <= PROVENANCE_CAP && Full(current, incoming)
    ensures MergeProvenance(current, incoming) == current
  {
    AppendedHas(current, incoming);
    if |current| < PROVENANCE_CAP {
      NothingToAppend(current, incoming);
    }
  }

  lemma MergedIsFull(current: seq<string>, incoming: seq<string>)
    requires |current| <= PROVENANCE_CAP
    ensures Full(MergeProvenance(current, incoming), incoming)
    ensures forall other :: Full(current, other) ==> Full(MergeProvenance(current, incoming), other)
  {
    AppendedHas(current, incoming);
    var all := Appended(current, incoming);
    assert all[..|current|] == current;
    assert forall x | x in current :: x in Capped(all) by {
      assert Capped(all)[..|current|] == current;
    }
  }

  // ---- edges

  /** Reading the edge would change no more than the times. */
  ghost predicate HasEdge(x: Edge, e: FileEdge) {
    && EdgeOk(x) && x.weight >= e.weight && Full(x.sources, AllSources(e)) && Full(x.runIds, e.runIds)
    && forall k | k in e.extra :: k in x.extra
  }

  lemma MetEdgeHas(x: Edge, e: FileEdge)
    requires EdgeOk(x)
    ensures HasEdge(MetEdge(x, e), e)
    ensures forall d :: HasEdge(x, d) ==> HasEdge(MetEdge(x, e), d)
  {
    MergedIsFull(x.sources, AllSources(e));
    MergedIsFull(x.runIds, e.runIds);
    hide Full, MergeProvenance, Stamped;
  }

  lemma NewEdgeHas(e: FileEdge)
    ensures HasEdge(NewEdge(e), e)
  {
  }

  lemma MetAgain(x: Edge, e: FileEdge)
    requires HasEdge(x, e)
    ensures MetEdge(x, e) == x.(first := Stamped(true, x.first, e.first), last := Stamped(false, x.last, e.last))
  {
    FullStays(x.sources, AllSources(e));
    FullStays(x.runIds, e.runIds);
    assert e.extra + x.extra == x.extra;
  }

  /** What the file makes of the edge at `k`. */
  function Folded(st: Setting, edges: seq<FileEdge>, k: Key, start: Option<Edge>): Option<Edge>
    decreases |edges|
  {
    if edges == [] then start
    else
      var before, e := Folded(st, edges[..|edges| - 1], k, start), edges[|edges| - 1];
      if KeyOf(st, e) != k then before
      else if before.Some? then Some(MetEdge(before.value, e)) else Some(NewEdge(e))
  }

  function At(g: Network, k: Key): Option<Edge> {
    if k in g.edges then Some(g.edges[k]) else None
  }

  lemma {:induction false} EdgesAreFolded(st: Setting, g: Network, edges: seq<FileEdge>, k: Key)
    ensures At(EdgesIngested(st, g, edges), k) == Folded(st, edges, k, At(g, k))
    decreases |edges|
  {
    hide EdgeIngested, MetEdge, NewEdge, KeyOf, HasNode;
    if edges != [] {
      var n := |edges| - 1;
      EdgesAreFolded(st, g, edges[..n], k);
      EdgeStep(st, EdgesIngested(st, g, edges[..n]), edges[n]);
    }
  }

  /** The times the file gives the edge at `k`. */
  function Times(st: Setting, edges: seq<FileEdge>, k: Key, early: bool): seq<Option<int>>
    decreases |edges|
  {
    if edges == [] then []
    else
      var before, e := Times(st, edges[..|edges| - 1], k, early), edges[|edges| - 1];
      if KeyOf(st, e) == k then before + [if early then e.first else e.last] else before
  }

  function First(x: Option<Edge>): Option<int> {
    if x.Some? then x.value.first else None
  }

  function Last(x: Option<Edge>): Option<int> {
    if x.Some? then x.value.last else None
  }

  ghost predicate HasAll(st: Setting, edges: seq<FileEdge>, k: Key, x: Option<Edge>) {
    forall i :: 0 <= i < |edges| && KeyOf(st, edges[i]) == k ==> x.Some? && HasEdge(x.value, edges[i])
  }

  lemma {:induction false} FoldedHas(st: Setting, edges: seq<FileEdge>, k: Key, start: Option<Edge>)
    requires start.Some? ==> EdgeOk(start.value)
    ensures var x := Folded(st, edges, k, start);
            && (x.Some? ==> EdgeOk(x.value)) && HasAll(st, edges, k, x)
            && First(x) == Stamps(true, Times(st, edges, k, true), First(start))
            && Last(x) == Stamps(false, Times(st, edges, k, false), Last(start))
    decreases |edges|
  {
    hide KeyOf, HasEdge, MetEdge, NewEdge, EdgeOk, Stamped;
    if edges != [] {
      var n := |edges| - 1;
      var before, e := Folded(st, edges[..n], k, start), edges[n];
      FoldedHas(st, edges[..n], k, start);
      forall i | 0 <= i < n && KeyOf(st, edges[i]) == k ensures before.Some? && HasEdge(before.value, edges[i]) {
        assert edges[..n][i] == edges[i];
      }
      if KeyOf(st, e) == k {
        if before.Some? {
          MetEdgeHas(before.value, e);
          MetTimes(before.value, e);
        } else {
          NewEdgeHas(e);
          NewTimes(e);
        }
        OneTimeMore(true, Times(st, edges[..n], k, true), e.first, First(start));
        OneTimeMore(false, Times(st, edges[..n], k, false), e.last, Last(start));
      }
    }
  }

  lemma OneTimeMore(early: bool, times: seq<Option<int>>, t: Option<int>, known: Option<int>)
    ensures Stamps(early, times + [t], known) == Stamped(early, Stamps(early, times, known), t)
  {
    assert (times + [t])[..|times|] == times;
  }

  lemma MetTimes(x: Edge, e: FileEdge)
    requires EdgeOk(x)
    ensures EdgeOk(MetEdge(x, e))
    ensures MetEdge(x, e).first == Stamped(true, x.first, e.first)
    ensures MetEdge(x, e).last == Stamped(false, x.last, e.last)
  {
  }

  lemma NewTimes(e: FileEdge)
    ensures EdgeOk(NewEdge(e))
    ensures NewEdge(e).first == Stamped(true, None, e.first) && NewEdge(e).last == Stamped(false, None, e.last)
  {
  }

  /** On an edge that has all of the file's, only the times are looked at again. */
  lemma {:induction false} FoldedAgain(st: Setting, edges: seq<FileEdge>, k: Key, x: Edge)
    requires HasAll(st, edges, k, Some(x))
    ensures Folded(st, edges, k, Some(x))
            == Some(x.(first := Stamps(true, Times(st, edges, k, true), x.first),
                       last := Stamps(false, Times(st, edges, k, false), x.last)))
    decreases |edges|
  {
    hide KeyOf, HasEdge, MetEdge, Stamped;
    if edges != [] {
      var n := |edges| - 1;
      var e := edges[n];
      forall i | 0 <= i < n && KeyOf(st, edges[..n][i]) == k ensures HasEdge(x, edges[..n][i]) {
        assert edges[..n][i] == edges[i];
      }
      FoldedAgain(st, edges[..n], k, x);
      if KeyOf(st, e) == k {
        var y := Folded(st, edges[..n], k, Some(x)).value;
        OtherTimes(x, y, e);
        MetAgain(y, e);
        OneTimeMore(true, Times(st, edges[..n], k, true), e.first, x.first);
        OneTimeMore(false, Times(st, edges[..n], k, false), e.last, x.last);
      }
    }
  }

  lemma OtherTimes(x: Edge, y: Edge, e: FileEdge)
    requires HasEdge(x, e) && y == x.(first := y.first, last := y.last)
    ensures HasEdge(y, e)
  {
  }

  lemma FoldedTwice(st: Setting, edges: seq<FileEdge>, k: Key, start: Option<Edge>)
    requires start.Some? ==> EdgeOk(start.value)
    ensures Folded(st, edges, k, Folded(st, edges, k, start)) == Folded(st, edges, k, start)
  {
    hide HasEdge, EdgeOk, Stamps, Times, KeyOf;
    var x := Folded(st, edges, k, start);
    FoldedHas(st, edges, k, start);
    if x.Some? {
      FoldedAgain(st, edges, k, x.value);
      StampsTwice(true, Times(st, edges, k, true), First(start));
      StampsTwice(false, Times(st, edges, k, false), Last(start));
    } else {
      NoneFolded(st, edges, k, start);
    }
  }

  lemma {:induction false} NoneFolded(st: Setting, edges: seq<FileEdge>, k: Key, start: Option<Edge>)
    requires Folded(st, edges, k, start).None?
    ensures start.None?
    decreases |edges|
  {
    hide KeyOf, MetEdge, NewEdge;
    if edges != [] {
      NoneFolded(st, edges[..|edges| - 1], k, start);
    }
  }

  /** Merging any file a second time changes nothing, whatever is in it: repeated and colliding
      entries, blank or too much provenance, times of zero. */
  lemma MergingTwiceIsOnce(st: Setting, g: Network, f: File)
    requires AlphabetOk(st.alphabet) && GraphOk(st, g)
    ensures FileMerged(st, FileMerged(st, g, f), f) == FileMerged(st, g, f)
  {
    hide AlphabetOk, NodesIngested, EdgesIngested, HasNode, Folded, NodeOk;
    var h := NodesIngested(st, g, f.nodes);
    var r := EdgesIngested(st, h, f.edges);
    NodesMerge(st, g, f.nodes);
    NodesHave(st, g, f.nodes);
    EdgesHave(st, h, f.edges);
    KnownNodes(st, r, f.nodes);
    KnownEnds(st, r, f.edges);
    var again := EdgesIngested(st, r, f.edges);
    forall k ensures At(again, k) == At(r, k) {
      EdgesAreFolded(st, h, f.edges, k);
      EdgesAreFolded(st, r, f.edges, k);
      FoldedTwice(st, f.edges, k, At(h, k));
    }
    SameEdges(again, r);
  }

  lemma SameEdges(a: Network, b: Network)
    requires forall k :: At(a, k) == At(b, k)
    ensures a.edges == b.edges
  {
    forall k ensures k in a.edges <==> k in b.edges { assert At(a, k) == At(b, k); }
    forall k | k in a.edges ensures a.edges[k] == b.edges[k] { assert At(a, k) == At(b, k); }
  }
}
