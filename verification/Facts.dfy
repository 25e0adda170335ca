/** What recording facts, and reading the nodes and edges of a file, does to the graph
    (knowledge/graph.py, `add_fact`, `_ingest_node` and `_ingest_edge`). */
module Facts {
  import opened Wrappers
  import opened Text
  import opened Identifiers
  import opened Networks
  import opened GraphFiles

  datatype Fact = Fact(subject: string, relation: string, object_: string, objectType: string, layer: Layer,
                       source: string, runId: string, now: int)

  function KeyOfFact(st: Setting, f: Fact): Key {
    Key(Canonical(st.alphabet, f.subject), Canonical(st.alphabet, f.object_), f.relation)
  }

  // ---- one fact

  /** One more item at the end, unless it is empty, known already, or one too many. */
  ghost predicate Noted(before: seq<string>, item: string, after: seq<string>) {
    after == if item == "" || item in before || |before| >= PROVENANCE_CAP then before else before + [item]
  }

  /** A new edge starts at weight 1; one that is met gains 1, and keeps its first time, its layer and
      whatever else it has. */
  ghost predicate EdgeTold(f: Fact, before: Option<Edge>, after: Edge) {
    && after.last == Some(f.now)
    && match before
       case None =>
         && after.weight == 1 && after.first == Some(f.now) && after.layer == f.layer && after.extra == map[]
         && Noted([], f.source, after.sources) && Noted([], f.runId, after.runIds)
       case Some(e) =>
         && after.weight == e.weight + 1 && after.first == e.first && after.layer == e.layer && after.extra == e.extra
         && Noted(e.sources, f.source, after.sources) && Noted(e.runIds, f.runId, after.runIds)
  }

  /** A node is typed by what is told of it, if that says more than "concept", and otherwise by what is
      known, or by its shape; its label is the first it was told by. */
  ghost predicate NodeTold(st: Setting, id: string, nodeType: string, before: Option<Node>, after: Node) {
    && (nodeType != "concept" ==> after.nodeType == nodeType)
    && match before
       case None =>
         && (nodeType == "concept" ==> after.nodeType == st.infer(Canonical(st.alphabet, id)))
         && after.caption == (if IsBlank(id) then Canonical(st.alphabet, id) else Strip(id)) && after.extra == map[]
       case Some(n) =>
         && (nodeType == "concept" ==> after.nodeType == n.nodeType)
         && after.caption == n.caption && after.extra == n.extra
  }

  function NodeAt(g: Network, id: Id): Option<Node> {
    if id in g.nodes then Some(g.nodes[id]) else None
  }

  function EdgeAt(g: Network, k: Key): Option<Edge> {
    if k in g.edges then Some(g.edges[k]) else None
  }

  /** The subject is told first, then the object, which may be the same node. */
  ghost predicate EndsTold(st: Setting, g: Network, h: Network, f: Fact, subject: Node) {
    var k := KeyOfFact(st, f);
    && k.dst in h.nodes && k.src in h.nodes && (k.src != k.dst ==> h.nodes[k.src] == subject)
    && NodeTold(st, f.subject, "concept", NodeAt(g, k.src), subject)
    && NodeTold(st, f.object_, f.objectType, if k.src == k.dst then Some(subject) else NodeAt(g, k.dst), h.nodes[k.dst])
  }

  /** The edge of the fact and its two ends, and nothing else. */
  ghost predicate FactTold(st: Setting, g: Network, h: Network, f: Fact) {
    var k := KeyOfFact(st, f);
    && h.edges.Keys == g.edges.Keys + {k} && EdgeTold(f, EdgeAt(g, k), h.edges[k])
    && (forall x | x in g.edges && x != k :: h.edges[x] == g.edges[x])
    && h.nodes.Keys == g.nodes.Keys + {k.src, k.dst} && (exists subject :: EndsTold(st, g, h, f, subject))
    && forall n | n in g.nodes && n != k.src && n != k.dst :: h.nodes[n] == g.nodes[n]
  }

  function Told(st: Setting, g: Network, f: Fact): Network {
    WithFact(st, g, f.subject, f.relation, f.object_, f.objectType, f.layer, f.source, f.runId, f.now)
  }

  lemma ProvenanceIsNoted(before: seq<string>, item: string)
    requires |before| <= PROVENANCE_CAP
    ensures Noted(before, item, MergeProvenance(before, Listed(item)))
  {
    var more := if item != "" && item !in before then before + [item] else before;
    if item != "" {
      assert [item][1..] == [] && Appended(more, []) == more;
      assert Appended(before, [item]) == more;
    }
    if |more| > PROVENANCE_CAP {
      assert more[..PROVENANCE_CAP] == before;
    }
  }

  lemma UpsertIsTold(st: Setting, g: Network, id: string, nodeType: string)
    ensures var h, canon := Upserted(st, g, id, nodeType), Canonical(st.alphabet, id);
            && h.nodes.Keys == g.nodes.Keys + {canon} && h.edges == g.edges
            && NodeTold(st, id, nodeType, NodeAt(g, canon), h.nodes[canon])
            && forall n | n in g.nodes && n != canon :: h.nodes[n] == g.nodes[n]
  {
    hide Canonical, Strip, IsBlank;
    BlankStrips(id);
  }

  /** Recording a fact does just that. */
  lemma FactIsTold(st: Setting, g: Network, f: Fact)
    requires GraphOk(st, g)
    ensures FactTold(st, g, Told(st, g, f), f)
  {
    hide Canonical, Upserted, NodeTold, Noted, MergeProvenance, NodeOk;
    var k := KeyOfFact(st, f);
    var a := Upserted(st, g, f.subject, CONCEPT);
    var b := Upserted(st, a, f.object_, f.objectType);
    UpsertIsTold(st, g, f.subject, CONCEPT);
    UpsertIsTold(st, a, f.object_, f.objectType);
    var h := Told(st, g, f);
    EdgeIsTold(st, g, f, b);
    assert h.nodes == b.nodes;
    hide WithFact, EdgeTold;
    assert EndsTold(st, g, h, f, a.nodes[k.src]);
  }

  lemma EdgeIsTold(st: Setting, g: Network, f: Fact, b: Network)
    requires GraphOk(st, g) && b == Upserted(st, Upserted(st, g, f.subject, CONCEPT), f.object_, f.objectType)
    requires b.edges == g.edges
    ensures var h, k := Told(st, g, f), KeyOfFact(st, f);
            && h.edges.Keys == g.edges.Keys + {k} && EdgeTold(f, EdgeAt(g, k), h.edges[k])
            && (forall x | x in g.edges && x != k :: h.edges[x] == g.edges[x])
  {
    hide Canonical, Upserted, Noted, MergeProvenance, NodeOk;
    var k := KeyOfFact(st, f);
    if k in g.edges {
      assert EdgeOk(g.edges[k]);
      ProvenanceIsNoted(g.edges[k].sources, f.source);
      ProvenanceIsNoted(g.edges[k].runIds, f.runId);
    } else {
      ListedIsNoted(f.source);
      ListedIsNoted(f.runId);
    }
  }

  lemma ListedIsNoted(item: string)
    ensures Noted([], item, Listed(item))
  {
    assert [] + [item] == [item];
  }

  // ---- many facts

  function AllTold(st: Setting, g: Network, facts: seq<Fact>): Network
    decreases |facts|
  {
    if facts == [] then g else Told(st, AllTold(st, g, facts[..|facts| - 1]), facts[|facts| - 1])
  }

  /** How often a fact of this key is told. */
  function Times(st: Setting, facts: seq<Fact>, k: Key): nat
    decreases |facts|
  {
    if facts == [] then 0
    else Times(st, facts[..|facts| - 1], k) + if KeyOfFact(st, facts[|facts| - 1]) == k then 1 else 0
  }

  /** The last fact of this key is told at this time. */
  ghost predicate LastTold(st: Setting, facts: seq<Fact>, k: Key, i: nat) {
    i < |facts| && KeyOfFact(st, facts[i]) == k && forall j :: i < j < |facts| ==> KeyOfFact(st, facts[j]) != k
  }

  /** One more fact, and the edge of any key. */
  lemma OneMoreTold(st: Setting, g: Network, f: Fact, k: Key)
    requires AlphabetOk(st.alphabet) && GraphOk(st, g)
    ensures GraphOk(st, Told(st, g, f))
    ensures KeyOfFact(st, f) != k ==> EdgeAt(Told(st, g, f), k) == EdgeAt(g, k)
    ensures KeyOfFact(st, f) == k ==>
              EdgeAt(Told(st, g, f), k).Some? && EdgeTold(f, EdgeAt(g, k), EdgeAt(Told(st, g, f), k).value)
  {
    hide AlphabetOk, GraphOk, Told, KeyOfFact, EdgeTold;
    FactIsTold(st, g, f);
    ToldKeeps(st, g, f);
    assert k in Told(st, g, f).edges <==> k in g.edges || k == KeyOfFact(st, f);
  }

  function WeightAt(g: Network, k: Key): int {
    if k in g.edges then g.edges[k].weight else 0
  }

  /** Whatever else is told in between: an edge weighs as much more as its fact was told, and keeps its
      first time and its layer. */
  lemma {:induction false} WeightIsTimesTold(st: Setting, g: Network, facts: seq<Fact>, k: Key)
    requires AlphabetOk(st.alphabet) && GraphOk(st, g)
    ensures var h := AllTold(st, g, facts);
            && GraphOk(st, h) && (k in h.edges <==> k in g.edges || Times(st, facts, k) > 0)
            && WeightAt(h, k) == WeightAt(g, k) + Times(st, facts, k)
            && (k in g.edges ==> h.edges[k].first == g.edges[k].first && h.edges[k].layer == g.edges[k].layer)
            && (Times(st, facts, k) == 0 ==> EdgeAt(h, k) == EdgeAt(g, k))
    decreases |facts|
  {
    hide AlphabetOk, GraphOk, Told, KeyOfFact, Noted;
    if facts != [] {
      var n := |facts| - 1;
      WeightIsTimesTold(st, g, facts[..n], k);
      OneMoreTold(st, AllTold(st, g, facts[..n]), facts[n], k);
    }
  }

  /** And it was last seen when its fact was told last. */
  lemma {:induction false} LastIsLastTold(st: Setting, g: Network, facts: seq<Fact>, k: Key, i: nat)
    requires AlphabetOk(st.alphabet) && GraphOk(st, g) && LastTold(st, facts, k, i)
    ensures var h := AllTold(st, g, facts); k in h.edges && h.edges[k].last == Some(facts[i].now)
    decreases |facts|
  {
    hide AlphabetOk, GraphOk, Told, KeyOfFact, Noted;
    var n := |facts| - 1;
    WeightIsTimesTold(st, g, facts[..n], k);
    OneMoreTold(st, AllTold(st, g, facts[..n]), facts[n], k);
    if i < n {
      assert forall j :: 0 <= j < n ==> facts[..n][j] == facts[j];
      LastIsLastTold(st, g, facts[..n], k, i);
    }
  }

  lemma ToldKeeps(st: Setting, g: Network, f: Fact)
    requires AlphabetOk(st.alphabet) && GraphOk(st, g)
    ensures GraphOk(st, Told(st, g, f))
  {
    hide AlphabetOk, GraphOk, WithFact;
    FactKeeps(st, g, f.subject, f.relation, f.object_, f.objectType, f.layer, f.source, f.runId, f.now);
  }

  // ---- reading a file

  predicate IsPlumbing(relation: string) {
    relation in {"has_subtask", "assigned_to", "produced_result_by", "review_status", "tests"}
  }

  /** What is known of a node wins; but a type that says more than "concept" is taken over by one that does not. */
  ghost predicate NodeRead(st: Setting, n: FileNode, before: Option<Node>, after: Node) {
    match before
    case None =>
      && after.nodeType == (if n.nodeType == "concept" then st.infer(Canonical(st.alphabet, n.id)) else n.nodeType)
      && after.caption == (if n.caption.Some? then n.caption.value else Strip(n.id)) && after.extra == n.extra
    case Some(known) =>
      && after.nodeType == (if known.nodeType != "concept" then known.nodeType else n.nodeType)
      && after.caption == known.caption && after.extra.Keys == known.extra.Keys + n.extra.Keys
      && (forall a | a in known.extra :: after.extra[a] == known.extra[a])
      && (forall a | a in n.extra && a !in known.extra :: after.extra[a] == n.extra[a])
  }

  /** A new edge is as the file has it, of the run layer if it is not said but one of the engine's own
      relations; of a known one the rest is kept, and provenance is pooled. */
  ghost predicate EdgeRead(e: FileEdge, before: Option<Edge>, after: Edge) {
    var sources := if e.source == "" then e.sources else e.sources + [e.source];
    match before
    case None =>
      && (e.layer.Some? ==> after.layer == e.layer.value)
      && (e.layer.None? ==> (after.layer == Run <==> IsPlumbing(e.relation)))
      && after.weight == e.weight && after.first == e.first && after.last == e.last && after.extra == e.extra
      && after.sources == (if |sources| > 10 then sources[..10] else sources)
      && after.runIds == (if |e.runIds| > 10 then e.runIds[..10] else e.runIds)
    case Some(known) =>
      && after.layer == known.layer && after.weight >= known.weight && after.weight >= e.weight
      && (after.weight == known.weight || after.weight == e.weight)
      && Pooled(known.sources, sources, after.sources) && Pooled(known.runIds, e.runIds, after.runIds)
      && after.extra.Keys == known.extra.Keys + e.extra.Keys
      && (forall a | a in known.extra :: after.extra[a] == known.extra[a])
      && (forall a | a in e.extra && a !in known.extra :: after.extra[a] == e.extra[a])
  }

  lemma NodeIsRead(st: Setting, g: Network, n: FileNode)
    ensures var h, canon := NodeIngested(st, g, n), Canonical(st.alphabet, n.id);
            && h.nodes.Keys == g.nodes.Keys + {canon} && h.edges == g.edges
            && NodeRead(st, n, NodeAt(g, canon), h.nodes[canon])
            && forall x | x in g.nodes && x != canon :: h.nodes[x] == g.nodes[x]
  {
    hide Canonical, Strip;
  }

  lemma EdgeIsRead(st: Setting, g: Network, e: FileEdge)
    ensures var h, k := EdgeIngested(st, g, e), KeyOf(st, e);
            && h.edges.Keys == g.edges.Keys + {k} && EdgeRead(e, EdgeAt(g, k), h.edges[k])
            && (forall x | x in g.edges && x != k :: h.edges[x] == g.edges[x])
            && h.nodes.Keys == g.nodes.Keys + {k.src, k.dst}
            && forall n | n in g.nodes && n != k.src && n != k.dst :: h.nodes[n] == g.nodes[n]
  {
    hide Canonical, NodeRead, NodeIngested, Pooled, MergeProvenance, Stamped;
    var src, dst := FileNode(e.src, CONCEPT, None, map[]), FileNode(e.dst, CONCEPT, None, map[]);
    NodeIsRead(st, g, src);
    NodeIsRead(st, NodeIngested(st, g, src), dst);
    var k := KeyOf(st, e);
    if k in g.edges {
      ProvenanceIsPooled(g.edges[k].sources, AllSources(e));
      ProvenanceIsPooled(g.edges[k].runIds, e.runIds);
      assert e.sources + [] == e.sources;
    }
  }
}
