/** Writing facts into the graph, and what its file form keeps (knowledge/graph.py). */
module GraphFiles {
  import opened Collections
  import opened Wrappers
  import opened Text
  import opened Identifiers
  import opened Networks

  /** The alphabet, and the node type that the shape of an identifier suggests. */
  datatype Setting = Setting(alphabet: Alphabet, infer: Id -> string)

  const PLUMBING_RELATIONS: set<string> :=
    {"has_subtask", "assigned_to", "produced_result_by", "review_status", "tests"}

  const EMPTY := Network(map[], map[])

  /** A node and an edge as the file lists them; an absent layer is one the file does not name,
      and a lone source is an old form of provenance. */
  datatype FileNode = FileNode(id: string, nodeType: string, caption: Option<string>, extra: map<string, string>)

  datatype FileEdge = FileEdge(src: string, dst: string, relation: string, layer: Option<Layer>, weight: int,
                               first: Option<int>, last: Option<int>, sources: seq<string>, runIds: seq<string>,
                               source: string, extra: map<string, string>)

  datatype File = File(nodes: seq<FileNode>, edges: seq<FileEdge>)

  // ---- reachable graphs ----

  ghost predicate NodeOk(st: Setting, id: Id, n: Node) {
    Canonical(st.alphabet, id) == id && (n.nodeType == CONCEPT ==> st.infer(id) == CONCEPT)
  }

  ghost predicate EdgeOk(e: Edge) {
    |e.sources| <= PROVENANCE_CAP && |e.runIds| <= PROVENANCE_CAP
  }

  ghost predicate GraphOk(st: Setting, g: Network) {
    && WellFormed(g)
    && (forall id | id in g.nodes :: NodeOk(st, id, g.nodes[id]))
    && (forall k | k in g.edges :: EdgeOk(g.edges[k]))
  }

  // ---- writing ----

  function Typed(st: Setting, id: Id, nodeType: string): string {
    if nodeType == CONCEPT then st.infer(id) else nodeType
  }

  /** The label a node gets when it is first seen. */
  function Shown(id: string, canon: Id): string {
    if Strip(id) != "" then Strip(id) else canon
  }

  /** `_upsert_node`: a known type is not taken back, and the first label stays. */
  function Upserted(st: Setting, g: Network, id: string, nodeType: string): Network {
    var canon := Canonical(st.alphabet, id);
    if canon in g.nodes then
      g.(nodes := g.nodes[canon := if nodeType != CONCEPT then g.nodes[canon].(nodeType := nodeType)
                                       else g.nodes[canon]])
    else g.(nodes := g.nodes[canon := Node(Typed(st, canon, nodeType), Shown(id, canon), map[])])
  }

  function Listed(item: string): seq<string> {
    if item == "" then [] else [item]
  }

  /** `add_fact`: a repeated fact gains weight and provenance; a new one starts at weight 1. */
  function WithFact(st: Setting, g: Network, subject: string, relation: string, object_: string, objectType: string,
                    layer: Layer, source: string, runId: string, now: int): Network {
    var h := Upserted(st, Upserted(st, g, subject, CONCEPT), object_, objectType);
    var k := Key(Canonical(st.alphabet, subject), Canonical(st.alphabet, object_), relation);
    var e :=
      if k in h.edges then
        h.edges[k].(weight := h.edges[k].weight + 1, last := Some(now),
                    sources := MergeProvenance(h.edges[k].sources, Listed(source)),
                    runIds := MergeProvenance(h.edges[k].runIds, Listed(runId)))
      else Edge(layer, 1, Some(now), Some(now), Listed(source), Listed(runId), map[]);
    h.(edges := h.edges[k := e])
  }

  /** A file node on its own, and one that meets a node already there. */
  function NewNode(st: Setting, canon: Id, n: FileNode): Node {
    Node(Typed(st, canon, n.nodeType), if n.caption.Some? then n.caption.value else Strip(n.id), n.extra)
  }

  function MetNode(known: Node, n: FileNode): Node {
    known.(nodeType := if n.nodeType != CONCEPT && known.nodeType == CONCEPT then n.nodeType else known.nodeType,
           extra := n.extra + known.extra)
  }

  /** `_ingest_node`: what is already known wins. */
  function NodeIngested(st: Setting, g: Network, n: FileNode): Network {
    var canon := Canonical(st.alphabet, n.id);
    g.(nodes := g.nodes[canon := if canon in g.nodes then MetNode(g.nodes[canon], n) else NewNode(st, canon, n)])
  }

  function KeyOf(st: Setting, e: FileEdge): Key {
    Key(Canonical(st.alphabet, e.src), Canonical(st.alphabet, e.dst), e.relation)
  }

  function AllSources(e: FileEdge): seq<string> {
    e.sources + Listed(e.source)
  }

  /** A file edge on its own, and one that meets an edge already there. */
  function NewEdge(e: FileEdge): Edge {
    var layer := if e.layer.Some? then e.layer.value else if e.relation in PLUMBING_RELATIONS then Run else Domain;
    Edge(layer, e.weight, e.first, e.last, Capped(AllSources(e)), Capped(e.runIds), e.extra)
  }

  /** The earlier or the later of two times, of which zero counts as none if it is known. */
  function Stamped(early: bool, known: Option<int>, time: Option<int>): Option<int> {
    if time.None? then known
    else if known.None? || known.value == 0 then time
    else if early then Smaller(known, time) else Larger(known, time)
  }

  function MetEdge(known: Edge, e: FileEdge): Edge {
    known.(weight := if known.weight >= e.weight then known.weight else e.weight,
           first := Stamped(true, known.first, e.first),
           last := Stamped(false, known.last, e.last),
           sources := MergeProvenance(known.sources, AllSources(e)),
           runIds := MergeProvenance(known.runIds, e.runIds),
           extra := e.extra + known.extra)
  }

  /** `_ingest_edge` */
  function EdgeIngested(st: Setting, g: Network, e: FileEdge): Network {
    var h := NodeIngested(st, NodeIngested(st, g, FileNode(e.src, CONCEPT, None, map[])),
                          FileNode(e.dst, CONCEPT, None, map[]));
    var k := KeyOf(st, e);
    h.(edges := h.edges[k := if k in h.edges then MetEdge(h.edges[k], e) else NewEdge(e)])
  }

  function NodesIngested(st: Setting, g: Network, nodes: seq<FileNode>): Network {
    if nodes == [] then g else NodeIngested(st, NodesIngested(st, g, nodes[..|nodes| - 1]), nodes[|nodes| - 1])
  }

  function EdgesIngested(st: Setting, g: Network, edges: seq<FileEdge>): Network {
    if edges == [] then g else EdgeIngested(st, EdgesIngested(st, g, edges[..|edges| - 1]), edges[|edges| - 1])
  }

  /** `_merge_from_disk`; `_load` is the same into an empty graph. */
  function FileMerged(st: Setting, g: Network, f: File): Network {
    EdgesIngested(st, NodesIngested(st, g, f.nodes), f.edges)
  }

  // ---- every write keeps the graph legal ----

  lemma NodeAdded(st: Setting, g: Network, id: Id, n: Node)
    requires GraphOk(st, g) && NodeOk(st, id, n)
    ensures GraphOk(st, g.(nodes := g.nodes[id := n]))
  {
    hide NodeOk, EdgeOk;
  }

  lemma UpsertKeeps(st: Setting, g: Network, id: string, nodeType: string)
    requires AlphabetOk(st.alphabet) && GraphOk(st, g)
    ensures GraphOk(st, Upserted(st, g, id, nodeType))
    ensures g.nodes.Keys + {Canonical(st.alphabet, id)} == Upserted(st, g, id, nodeType).nodes.Keys
    ensures g.edges == Upserted(st, g, id, nodeType).edges
  {
    hide AlphabetOk, Canonical, EdgeOk, Shown;
    CanonicalIsIdempotent(st.alphabet, id);
    var canon := Canonical(st.alphabet, id);
    var n := Upserted(st, g, id, nodeType).nodes[canon];
    assert NodeOk(st, canon, n);
    NodeAdded(st, g, canon, n);
    assert canon in g.nodes ==> g.nodes[canon := g.nodes[canon]] == g.nodes;
  }

  lemma FactKeeps(st: Setting, g: Network, subject: string, relation: string, object_: string, objectType: string,
                  layer: Layer, source: string, runId: string, now: int)
    requires AlphabetOk(st.alphabet) && GraphOk(st, g)
    ensures GraphOk(st, WithFact(st, g, subject, relation, object_, objectType, layer, source, runId, now))
  {
    hide AlphabetOk, Canonical, Upserted, NodeOk;
    UpsertKeeps(st, g, subject, CONCEPT);
    UpsertKeeps(st, Upserted(st, g, subject, CONCEPT), object_, objectType);
  }

  lemma NodeKeeps(st: Setting, g: Network, n: FileNode)
    requires AlphabetOk(st.alphabet) && GraphOk(st, g)
    ensures GraphOk(st, NodeIngested(st, g, n))
    ensures NodeIngested(st, g, n).nodes.Keys == g.nodes.Keys + {Canonical(st.alphabet, n.id)}
    ensures NodeIngested(st, g, n).edges == g.edges
    ensures forall id | id in g.nodes :: NodeIngested(st, g, n).nodes[id].caption == g.nodes[id].caption
    ensures forall id | id in g.nodes && g.nodes[id].nodeType != CONCEPT ::
              NodeIngested(st, g, n).nodes[id].nodeType == g.nodes[id].nodeType
  {
    hide AlphabetOk, Canonical;
    CanonicalIsIdempotent(st.alphabet, n.id);
  }

  lemma EdgeKeeps(st: Setting, g: Network, e: FileEdge)
    requires AlphabetOk(st.alphabet) && GraphOk(st, g)
    ensures GraphOk(st, EdgeIngested(st, g, e))
    ensures EdgeIngested(st, g, e).nodes.Keys == g.nodes.Keys + {KeyOf(st, e).src, KeyOf(st, e).dst}
    ensures EdgeIngested(st, g, e).edges ==
            g.edges[KeyOf(st, e) := if KeyOf(st, e) in g.edges then MetEdge(g.edges[KeyOf(st, e)], e) else NewEdge(e)]
    ensures forall id | id in g.nodes :: EdgeIngested(st, g, e).nodes[id].caption == g.nodes[id].caption
    ensures forall id | id in g.nodes && g.nodes[id].nodeType != CONCEPT ::
              EdgeIngested(st, g, e).nodes[id].nodeType == g.nodes[id].nodeType
  {
    hide AlphabetOk, Canonical, NodeIngested, NodeOk;
    var src, dst := FileNode(e.src, CONCEPT, None, map[]), FileNode(e.dst, CONCEPT, None, map[]);
    NodeKeeps(st, g, src);
    NodeKeeps(st, NodeIngested(st, g, src), dst);
  }

  // ---- merging a file ----

  /** What merging keeps: every node with its label and known type, every edge with its layer. */
  ghost predicate Extends(g: Network, r: Network) {
    && (forall id | id in g.nodes :: id in r.nodes && r.nodes[id].caption == g.nodes[id].caption
                                     && (g.nodes[id].nodeType != CONCEPT ==>
                                           r.nodes[id].nodeType == g.nodes[id].nodeType))
    && (forall k | k in g.edges :: k in r.edges && r.edges[k].layer == g.edges[k].layer)
  }

  ghost predicate Lists(st: Setting, nodes: seq<FileNode>, id: Id) {
    exists i :: 0 <= i < |nodes| && Canonical(st.alphabet, nodes[i].id) == id
  }

  ghost predicate HasKey(st: Setting, edges: seq<FileEdge>, k: Key) {
    exists i :: 0 <= i < |edges| && KeyOf(st, edges[i]) == k
  }

  ghost predicate Touches(st: Setting, edges: seq<FileEdge>, id: Id) {
    exists i :: 0 <= i < |edges| && (KeyOf(st, edges[i]).src == id || KeyOf(st, edges[i]).dst == id)
  }

  lemma {:induction false} NodesMerge(st: Setting, g: Network, nodes: seq<FileNode>)
    requires AlphabetOk(st.alphabet) && GraphOk(st, g)
    ensures var r := NodesIngested(st, g, nodes);
            && GraphOk(st, r) && Extends(g, r) && r.edges == g.edges
            && (forall id :: id in r.nodes <==> id in g.nodes || Lists(st, nodes, id))
  {
    hide AlphabetOk, Canonical, NodeIngested, GraphOk;
    if nodes != [] {
      var n := |nodes| - 1;
      NodesMerge(st, g, nodes[..n]);
      NodeKeeps(st, NodesIngested(st, g, nodes[..n]), nodes[n]);
      assert forall i :: 0 <= i < n ==> nodes[..n][i] == nodes[i];
    }
  }

  /** `best` is the greatest of the weight at `k` in `g` and the weights the edges give it. */
  ghost predicate GreatestWeight(st: Setting, g: Network, edges: seq<FileEdge>, k: Key, best: int) {
    && (k in g.edges ==> g.edges[k].weight <= best)
    && (forall i :: 0 <= i < |edges| && KeyOf(st, edges[i]) == k ==> edges[i].weight <= best)
    && ((k in g.edges && g.edges[k].weight == best)
        || exists i :: 0 <= i < |edges| && KeyOf(st, edges[i]) == k && edges[i].weight == best)
  }

  ghost predicate EdgesAreMerged(st: Setting, g: Network, edges: seq<FileEdge>, r: Network) {
    && (forall k :: k in r.edges <==> k in g.edges || HasKey(st, edges, k))
    && (forall k | k in r.edges :: GreatestWeight(st, g, edges, k, r.edges[k].weight))
  }

  lemma OneKeyMore(st: Setting, edges: seq<FileEdge>, e: FileEdge, k: Key)
    ensures HasKey(st, edges + [e], k) <==> HasKey(st, edges, k) || k == KeyOf(st, e)
  {
    hide KeyOf;
    var more := edges + [e];
    assert forall i :: 0 <= i < |edges| ==> more[i] == edges[i];
    assert more[|edges|] == e;
  }

  lemma OneWeightMore(st: Setting, g: Network, edges: seq<FileEdge>, e: FileEdge, k: Key, before: Option<int>)
    requires if before.Some? then GreatestWeight(st, g, edges, k, before.value)
             else k !in g.edges && !HasKey(st, edges, k)
    requires k == KeyOf(st, e) || before.Some?
    ensures var best := if k != KeyOf(st, e) then before.value
                        else if before.Some? && before.value >= e.weight then before.value else e.weight;
            GreatestWeight(st, g, edges + [e], k, best)
  {
    hide KeyOf;
    var more := edges + [e];
    assert forall i :: 0 <= i < |edges| ==> more[i] == edges[i];
    assert more[|edges|] == e;
  }

  lemma OneEdgeMore(st: Setting, g: Network, edges: seq<FileEdge>, r: Network, e: FileEdge)
    requires AlphabetOk(st.alphabet) && GraphOk(st, r) && EdgesAreMerged(st, g, edges, r) && Extends(g, r)
    ensures EdgesAreMerged(st, g, edges + [e], EdgeIngested(st, r, e)) && Extends(g, EdgeIngested(st, r, e))
  {
    hide AlphabetOk, GraphOk, EdgeIngested, Canonical, KeyOf, GreatestWeight;
    EdgeKeeps(st, r, e);
    var after, more := EdgeIngested(st, r, e), edges + [e];
    forall k ensures k in after.edges <==> k in g.edges || HasKey(st, more, k) {
      OneKeyMore(st, edges, e, k);
    }
    forall k | k in after.edges ensures GreatestWeight(st, g, more, k, after.edges[k].weight) {
      OneWeightMore(st, g, edges, e, k, if k in r.edges then Some(r.edges[k].weight) else None);
    }
  }

  lemma {:induction false} EdgesMerge(st: Setting, g: Network, edges: seq<FileEdge>)
    requires AlphabetOk(st.alphabet) && GraphOk(st, g)
    ensures var r := EdgesIngested(st, g, edges);
            GraphOk(st, r) && Extends(g, r) && EdgesAreMerged(st, g, edges, r)
    ensures forall id :: id in EdgesIngested(st, g, edges).nodes <==>
                         id in g.nodes || Touches(st, edges, id)
  {
    hide AlphabetOk, Canonical, EdgeIngested, GraphOk, KeyOf, EdgesAreMerged, Extends, Touches;
    if edges == [] {
      NothingMerged(st, g);
    } else {
      var n := |edges| - 1;
      var before := EdgesIngested(st, g, edges[..n]);
      EdgesMerge(st, g, edges[..n]);
      EdgeKeeps(st, before, edges[n]);
      OneEdgeMore(st, g, edges[..n], before, edges[n]);
      assert edges == edges[..n] + [edges[n]];
      forall id
        ensures Touches(st, edges, id)
                <==> Touches(st, edges[..n], id) || KeyOf(st, edges[n]).src == id || KeyOf(st, edges[n]).dst == id
      {
        TouchesMore(st, edges[..n], edges[n], id);
      }
    }
  }

  lemma TouchesMore(st: Setting, edges: seq<FileEdge>, e: FileEdge, id: Id)
    ensures Touches(st, edges + [e], id) <==> Touches(st, edges, id) || KeyOf(st, e).src == id || KeyOf(st, e).dst == id
  {
    hide KeyOf;
    var more := edges + [e];
    assert forall i :: 0 <= i < |edges| ==> more[i] == edges[i];
    assert more[|edges|] == e;
  }

  lemma NothingMerged(st: Setting, g: Network)
    ensures EdgesAreMerged(st, g, [], g) && Extends(g, g)
    ensures forall id :: !Touches(st, [], id)
  {
  }

  lemma SameBase(st: Setting, g: Network, h: Network, edges: seq<FileEdge>, r: Network)
    requires g.edges == h.edges && EdgesAreMerged(st, h, edges, r)
    ensures EdgesAreMerged(st, g, edges, r)
  {
    hide KeyOf;
    forall k | k in r.edges ensures GreatestWeight(st, g, edges, k, r.edges[k].weight) {
      assert GreatestWeight(st, h, edges, k, r.edges[k].weight);
    }
  }

  /** Merging any file keeps every node and edge of both sides, with the greatest weight; labels,
      known types and layers that were there stay. */
  lemma MergeIsJoin(st: Setting, g: Network, f: File)
    requires AlphabetOk(st.alphabet) && GraphOk(st, g)
    ensures var r := FileMerged(st, g, f);
            && GraphOk(st, r) && Extends(g, r) && EdgesAreMerged(st, g, f.edges, r)
            && (forall i :: 0 <= i < |f.nodes| ==> Canonical(st.alphabet, f.nodes[i].id) in r.nodes)
  {
    hide AlphabetOk, Canonical, GraphOk, KeyOf, EdgesAreMerged, Touches;
    var h := NodesIngested(st, g, f.nodes);
    NodesMerge(st, g, f.nodes);
    EdgesMerge(st, h, f.edges);
    SameBase(st, g, h, f.edges, FileMerged(st, g, f));
    forall i | 0 <= i < |f.nodes| ensures Canonical(st.alphabet, f.nodes[i].id) in h.nodes {
      assert Lists(st, f.nodes, Canonical(st.alphabet, f.nodes[i].id));
    }
  }

  // ---- the file form ----

  function NodeEntry(g: Network, id: Id): FileNode
    requires id in g.nodes
  {
    FileNode(id, g.nodes[id].nodeType, Some(g.nodes[id].caption), g.nodes[id].extra)
  }

  function EdgeEntry(g: Network, k: Key): FileEdge
    requires k in g.edges
  {
    var e := g.edges[k];
    FileEdge(k.src, k.dst, k.relation, Some(e.layer), e.weight, e.first, e.last, e.sources, e.runIds, "", e.extra)
  }

  /** The file lists every node and every edge of the graph, in some order, and nothing else. */
  ghost predicate Serializes(g: Network, f: File) {
    && (forall n | n in f.nodes :: n.id in g.nodes && n == NodeEntry(g, n.id))
    && (forall id | id in g.nodes :: NodeEntry(g, id) in f.nodes)
    && (forall e | e in f.edges :: Key(e.src, e.dst, e.relation) in g.edges
                                             && e == EdgeEntry(g, Key(e.src, e.dst, e.relation)))
    && (forall k | k in g.edges :: EdgeEntry(g, k) in f.edges)
  }

  /** A part of a graph: some of its nodes and some of its edges, as they are. */
  ghost predicate PartOf(h: Network, g: Network) {
    && (forall id | id in h.nodes :: id in g.nodes && h.nodes[id] == g.nodes[id])
    && (forall k | k in h.edges :: k in g.edges && h.edges[k] == g.edges[k])
  }

  lemma MetOwnNode(g: Network, id: Id)
    requires id in g.nodes
    ensures MetNode(g.nodes[id], NodeEntry(g, id)) == g.nodes[id]
    ensures MetNode(g.nodes[id], FileNode(id, CONCEPT, None, map[])) == g.nodes[id]
  {
    var n := g.nodes[id];
    assert n.extra + n.extra == n.extra;
    assert map[] + n.extra == n.extra;
  }

  /** Reading a node's own entry adds it, or changes nothing. */
  lemma OwnNode(st: Setting, g: Network, h: Network, id: Id)
    requires GraphOk(st, g) && PartOf(h, g) && id in g.nodes
    ensures NodeIngested(st, h, NodeEntry(g, id)) == h.(nodes := h.nodes[id := g.nodes[id]])
  {
    assert NodeOk(st, id, g.nodes[id]);
    hide Canonical, MetNode, GraphOk, EdgeOk;
    MetOwnNode(g, id);
  }

  lemma OwnEnd(st: Setting, g: Network, h: Network, id: Id)
    requires GraphOk(st, g) && PartOf(h, g) && id in h.nodes
    ensures NodeIngested(st, h, FileNode(id, CONCEPT, None, map[])) == h
  {
    assert NodeOk(st, id, g.nodes[id]);
    hide Canonical, MetNode, NewNode, GraphOk, EdgeOk;
    MetOwnNode(g, id);
    SameAgain(h.nodes, id);
  }

  lemma {:induction false} NothingToAppend(current: seq<string>, incoming: seq<string>)
    requires forall x | x in incoming :: x == "" || x in current
    ensures Appended(current, incoming) == current
    decreases incoming
  {
    if incoming != [] {
      assert incoming[0] in incoming && forall x | x in incoming[1..] :: x in incoming;
      NothingToAppend(current, incoming[1..]);
    }
  }

  lemma MetItself(g: Network, k: Key)
    requires k in g.edges && EdgeOk(g.edges[k])
    ensures MetEdge(g.edges[k], EdgeEntry(g, k)) == g.edges[k]
    ensures NewEdge(EdgeEntry(g, k)) == g.edges[k]
  {
    var e := g.edges[k];
    assert e.extra + e.extra == e.extra;
    assert e.sources + Listed("") == e.sources;
    NothingToAppend(e.sources, e.sources);
    NothingToAppend(e.runIds, e.runIds);
  }

  /** Reading an edge's own entry adds it, or changes nothing. */
  lemma OwnEdge(st: Setting, g: Network, h: Network, k: Key)
    requires GraphOk(st, g) && PartOf(h, g) && k in g.edges && k.src in h.nodes && k.dst in h.nodes
    ensures EdgeIngested(st, h, EdgeEntry(g, k)) == h.(edges := h.edges[k := g.edges[k]])
  {
    assert NodeOk(st, k.src, g.nodes[k.src]) && NodeOk(st, k.dst, g.nodes[k.dst]) && EdgeOk(g.edges[k]);
    OwnEnd(st, g, h, k.src);
    OwnEnd(st, g, h, k.dst);
    MetItself(g, k);
    hide NodeIngested, Canonical, MetEdge, NewEdge, GraphOk;
    assert KeyOf(st, EdgeEntry(g, k)) == k;
  }

  lemma {:induction false} OwnNodes(st: Setting, g: Network, h: Network, nodes: seq<FileNode>)
    requires GraphOk(st, g) && PartOf(h, g)
    requires forall n | n in nodes :: n.id in g.nodes && n == NodeEntry(g, n.id)
    ensures var r := NodesIngested(st, h, nodes);
            PartOf(r, g) && r.edges == h.edges
            && (forall id | id in h.nodes :: id in r.nodes) && (forall n | n in nodes :: n.id in r.nodes)
  {
    hide GraphOk, NodeIngested;
    if nodes != [] {
      var n := |nodes| - 1;
      OwnNodes(st, g, h, nodes[..n]);
      assert nodes == nodes[..n] + [nodes[n]];
      OwnNode(st, g, NodesIngested(st, h, nodes[..n]), nodes[n].id);
    }
  }

  lemma {:induction false} OwnEdges(st: Setting, g: Network, h: Network, edges: seq<FileEdge>)
    requires GraphOk(st, g) && PartOf(h, g) && h.nodes == g.nodes
    requires forall e | e in edges ::
               Key(e.src, e.dst, e.relation) in g.edges && e == EdgeEntry(g, Key(e.src, e.dst, e.relation))
    ensures var r := EdgesIngested(st, h, edges);
            PartOf(r, g) && r.nodes == g.nodes
            && (forall k | k in h.edges :: k in r.edges)
            && (forall e | e in edges :: Key(e.src, e.dst, e.relation) in r.edges)
  {
    hide NodeOk, EdgeOk, EdgeIngested;
    if edges != [] {
      var n := |edges| - 1;
      OwnEdges(st, g, h, edges[..n]);
      assert edges == edges[..n] + [edges[n]];
      OwnEdge(st, g, EdgesIngested(st, h, edges[..n]), Key(edges[n].src, edges[n].dst, edges[n].relation));
    }
  }

  /** A file of a part of the graph plus what the graph already has: reading it completes the part. */
  lemma ReadBack(st: Setting, g: Network, h: Network, f: File)
    requires GraphOk(st, g) && Serializes(g, f) && PartOf(h, g)
    ensures FileMerged(st, h, f) == g
  {
    hide NodeOk, EdgeOk, NodesIngested, EdgesIngested;
    OwnNodes(st, g, h, f.nodes);
    var mid := NodesIngested(st, h, f.nodes);
    forall id ensures id in mid.nodes <==> id in g.nodes {
      if id in g.nodes {
        assert NodeEntry(g, id) in f.nodes;
      }
    }
    assert mid.nodes == g.nodes;
    OwnEdges(st, g, mid, f.edges);
    var r := EdgesIngested(st, mid, f.edges);
    forall k ensures k in r.edges <==> k in g.edges {
      if k in g.edges {
        assert EdgeEntry(g, k) in f.edges;
      }
    }
    assert r.edges == g.edges;
  }

  /** Loading a file of the graph gives the graph back, whatever order it was written in. */
  lemma LoadInvertsSerialize(st: Setting, g: Network, f: File)
    requires GraphOk(st, g) && Serializes(g, f)
    ensures FileMerged(st, EMPTY, f) == g
  {
    ReadBack(st, g, EMPTY, f);
  }

  /** Merging the graph's own file changes nothing. */
  lemma MergingOwnFileIsIdle(st: Setting, g: Network, f: File)
    requires GraphOk(st, g) && Serializes(g, f)
    ensures FileMerged(st, g, f) == g
  {
    ReadBack(st, g, g, f);
  }

  function Heavier(a: Network, b: Network, k: Key): int
    requires k in a.edges || k in b.edges
  {
    if k !in a.edges then b.edges[k].weight
    else if k !in b.edges || a.edges[k].weight >= b.edges[k].weight then a.edges[k].weight
    else b.edges[k].weight
  }

  /** The entries of a legal graph's file stand under their own identifiers. */
  lemma OwnNodeIds(st: Setting, b: Network, fb: File)
    requires GraphOk(st, b) && Serializes(b, fb)
    ensures forall id :: Lists(st, fb.nodes, id) <==> id in b.nodes
  {
    hide Canonical, EdgeOk;
    forall i | 0 <= i < |fb.nodes|
      ensures Canonical(st.alphabet, fb.nodes[i].id) == fb.nodes[i].id && fb.nodes[i].id in b.nodes
    {
      assert fb.nodes[i] in fb.nodes;
      assert NodeOk(st, fb.nodes[i].id, b.nodes[fb.nodes[i].id]);
    }
    forall id | id in b.nodes ensures Lists(st, fb.nodes, id) {
      var i :| 0 <= i < |fb.nodes| && fb.nodes[i] == NodeEntry(b, id);
    }
  }

  lemma OwnKeys(st: Setting, b: Network, fb: File)
    requires GraphOk(st, b) && Serializes(b, fb)
    ensures forall i :: 0 <= i < |fb.edges| ==>
              KeyOf(st, fb.edges[i]) in b.edges && fb.edges[i].weight == b.edges[KeyOf(st, fb.edges[i])].weight
    ensures forall k :: HasKey(st, fb.edges, k) <==> k in b.edges
  {
    hide Canonical, EdgeOk;
    forall i | 0 <= i < |fb.edges|
      ensures KeyOf(st, fb.edges[i]) == Key(fb.edges[i].src, fb.edges[i].dst, fb.edges[i].relation)
      ensures KeyOf(st, fb.edges[i]) in b.edges
      ensures fb.edges[i].weight == b.edges[KeyOf(st, fb.edges[i])].weight
    {
      var e := fb.edges[i];
      assert e in fb.edges;
      assert NodeOk(st, e.src, b.nodes[e.src]) && NodeOk(st, e.dst, b.nodes[e.dst]);
    }
    hide KeyOf;
    forall k | k in b.edges ensures HasKey(st, fb.edges, k) {
      var i :| 0 <= i < |fb.edges| && fb.edges[i] == EdgeEntry(b, k);
    }
  }

  lemma OwnEnds(st: Setting, b: Network, fb: File)
    requires WellFormed(b) && forall k :: HasKey(st, fb.edges, k) <==> k in b.edges
    ensures forall id :: Touches(st, fb.edges, id) ==> id in b.nodes
  {
    hide KeyOf;
    forall id | Touches(st, fb.edges, id) ensures id in b.nodes {
      var i :| 0 <= i < |fb.edges| && (KeyOf(st, fb.edges[i]).src == id || KeyOf(st, fb.edges[i]).dst == id);
      assert HasKey(st, fb.edges, KeyOf(st, fb.edges[i]));
    }
  }

  lemma MergedNodes(st: Setting, a: Network, b: Network, fb: File)
    requires AlphabetOk(st.alphabet) && GraphOk(st, a) && GraphOk(st, b) && Serializes(b, fb)
    ensures FileMerged(st, a, fb).nodes.Keys == a.nodes.Keys + b.nodes.Keys
  {
    hide AlphabetOk, Canonical, NodeOk;
    assert WellFormed(b);
    hide GraphOk, NodesIngested, EdgesIngested;
    hide Serializes, EdgesAreMerged, Lists, Touches, HasKey, Extends;
    OwnNodeIds(st, b, fb);
    OwnKeys(st, b, fb);
    OwnEnds(st, b, fb);
    NodesMerge(st, a, fb.nodes);
    EdgesMerge(st, NodesIngested(st, a, fb.nodes), fb.edges);
  }

  lemma MergedWeights(st: Setting, a: Network, b: Network, fb: File)
    requires AlphabetOk(st.alphabet) && GraphOk(st, a) && GraphOk(st, b) && Serializes(b, fb)
    ensures FileMerged(st, a, fb).edges.Keys == a.edges.Keys + b.edges.Keys
    ensures forall k | k in a.edges || k in b.edges :: FileMerged(st, a, fb).edges[k].weight == Heavier(a, b, k)
  {
    hide AlphabetOk, GraphOk, FileMerged, Canonical, KeyOf, Serializes, Lists, Touches, Extends;
    OwnKeys(st, b, fb);
    MergeIsJoin(st, a, fb);
  }

  /** Two writers merging each other's files come to the same nodes, the same edges and the same weights. */
  lemma MergesCommute(st: Setting, a: Network, fa: File, b: Network, fb: File)
    requires AlphabetOk(st.alphabet) && GraphOk(st, a) && GraphOk(st, b) && Serializes(a, fa) && Serializes(b, fb)
    ensures var x, y := FileMerged(st, a, fb), FileMerged(st, b, fa);
            && x.nodes.Keys == y.nodes.Keys && x.edges.Keys == y.edges.Keys
            && forall k | k in x.edges :: x.edges[k].weight == y.edges[k].weight
  {
    hide AlphabetOk, GraphOk, FileMerged, Serializes;
    MergedNodes(st, a, b, fb);
    MergedNodes(st, b, a, fa);
    MergedWeights(st, a, b, fb);
    MergedWeights(st, b, a, fa);
  }
}
