/** The knowledge graph as a value: typed nodes, and edges told apart by their endpoints and
    relation (knowledge/graph.py). */
module Networks {
  import opened Wrappers

  type Id = string

  /** Agent knowledge, or the engine's own bookkeeping. */
  datatype Layer = Domain | Run

  datatype Node = Node(nodeType: string, caption: string, extra: map<string, string>)

  datatype Key = Key(src: Id, dst: Id, relation: string)

  datatype Edge = Edge(layer: Layer, weight: int, first: Option<int>, last: Option<int>,
                       sources: seq<string>, runIds: seq<string>, extra: map<string, string>)

  datatype Network = Network(nodes: map<Id, Node>, edges: map<Key, Edge>)

  const PROVENANCE_CAP: nat := 10
  const CONCEPT := "concept"

  predicate Mentions(k: Key, n: Id) {
    k.src == n || k.dst == n
  }

  ghost predicate WellFormed(g: Network) {
    forall k | k in g.edges :: k.src in g.nodes && k.dst in g.nodes
  }

  function Larger(a: Option<int>, b: Option<int>): Option<int> {
    if a.None? then b else if b.None? || a.value >= b.value then a else b
  }

  function Smaller(a: Option<int>, b: Option<int>): Option<int> {
    if a.None? then b else if b.None? || a.value <= b.value then a else b
  }

  /** The incoming items that are not blank and not there yet, at the end. */
  function Appended(current: seq<string>, incoming: seq<string>): seq<string>
    decreases incoming
  {
    if incoming == [] then current
    else Appended(if incoming[0] != "" && incoming[0] !in current then current + [incoming[0]] else current,
                  incoming[1..])
  }

  function Capped(items: seq<string>): (r: seq<string>)
    ensures |r| <= PROVENANCE_CAP
  {
    if |items| > PROVENANCE_CAP then items[..PROVENANCE_CAP] else items
  }

  /** `_merge_provenance`, for one of the two lists */
  function MergeProvenance(current: seq<string>, incoming: seq<string>): seq<string> {
    Capped(Appended(current, incoming))
  }

  /** Two edges under one key become one: the greater weight, the union of the time spans, both
      provenances; everything else stays as the first one has it. */
  function MergeEdge(e: Edge, other: Edge): Edge {
    e.(weight := if e.weight >= other.weight then e.weight else other.weight,
       first := Smaller(e.first, other.first),
       last := Larger(e.last, other.last),
       sources := MergeProvenance(e.sources, other.sources),
       runIds := MergeProvenance(e.runIds, other.runIds),
       extra := other.extra + e.extra)
  }

  // ---- provenance

  lemma {:induction false} AppendedHas(current: seq<string>, incoming: seq<string>)
    ensures current <= Appended(current, incoming)
    ensures forall x :: x in Appended(current, incoming) <==> x in current || (x in incoming && x != "")
    ensures (forall i, j :: 0 <= i < j < |current| ==> current[i] != current[j]) ==>
              forall i, j :: 0 <= i < j < |Appended(current, incoming)| ==>
                               Appended(current, incoming)[i] != Appended(current, incoming)[j]
    decreases incoming
  {
    if incoming != [] {
      var more := if incoming[0] != "" && incoming[0] !in current then current + [incoming[0]] else current;
      AppendedHas(more, incoming[1..]);
      assert incoming == [incoming[0]] + incoming[1..];
    }
  }

  /** `after` is what is kept of two lists of provenance: all that was there, in its place, then items of
      the other that are new; ten at most, and if there are fewer, all of the other. */
  ghost predicate Pooled(before: seq<string>, more: seq<string>, after: seq<string>) {
    && |after| <= 10 && (|before| <= 10 ==> before <= after)
    && (forall x | x in after :: x in before || (x in more && x != ""))
    && (|after| < 10 ==> forall x | x in before || (x in more && x != "") :: x in after)
    && ((forall i, j :: 0 <= i < j < |before| ==> before[i] != before[j]) ==>
          forall i, j :: 0 <= i < j < |after| ==> after[i] != after[j])
  }

  lemma ProvenanceIsPooled(before: seq<string>, more: seq<string>)
    ensures Pooled(before, more, MergeProvenance(before, more))
  {
    AppendedHas(before, more);
    var all, after := Appended(before, more), MergeProvenance(before, more);
    assert |all| < 10 || |after| == 10;
    assert forall x | x in after :: x in all;
    assert |after| < 10 ==> after == all;
  }

  /** Two edges under one key: what is known wins, the rest is added. */
  lemma EdgesMeet(e: Edge, other: Edge)
    ensures var r := MergeEdge(e, other);
            && Pooled(e.sources, other.sources, r.sources) && Pooled(e.runIds, other.runIds, r.runIds)
            && r.extra.Keys == e.extra.Keys + other.extra.Keys && r.layer == e.layer
            && (forall a | a in e.extra :: r.extra[a] == e.extra[a])
            && (forall a | a in other.extra && a !in e.extra :: r.extra[a] == other.extra[a])
  {
    hide Pooled, MergeProvenance;
    ProvenanceIsPooled(e.sources, other.sources);
    ProvenanceIsPooled(e.runIds, other.runIds);
  }
}
