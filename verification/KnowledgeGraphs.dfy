/** The graph in memory (knowledge/graph.py, `NetworkXKnowledgeGraph`). */
module KnowledgeGraphs {
  import opened Collections
  import opened Wrappers
  import opened Identifiers
  import opened Networks
  import opened GraphFiles
  import opened Facts

  class KnowledgeGraph {
    const setting: Setting
    var nodes: map<Id, Node>
    var edges: map<Key, Edge>

    function Net(): Network
      reads this
    {
      Network(nodes, edges)
    }

    ghost predicate Valid()
      reads this
    {
      AlphabetOk(setting.alphabet) && GraphOk(setting, Net())
    }

    /** An empty graph, or one loaded from its file; a file that cannot be read counts as none. */
    constructor (st: Setting, f: Option<File>)
      requires AlphabetOk(st.alphabet)
      ensures Valid() && setting == st
      ensures Net() == if f.Some? then FileMerged(st, EMPTY, f.value) else EMPTY
    {
      hide AlphabetOk, FileMerged;
      setting := st;
      nodes, edges := map[], map[];
      new;
      assert Net() == EMPTY;
      MergeFromDisk(f);
    }

    /** `_upsert_node`, without further attributes */
    method UpsertNode(id: string, nodeType: string) returns (canon: Id)
      requires Valid()
      modifies this
      ensures Valid() && canon == Canonical(setting.alphabet, id)
      ensures Net() == Upserted(setting, old(Net()), id, nodeType)
    {
      hide AlphabetOk, GraphOk, Canonical;
      UpsertKeeps(setting, Net(), id, nodeType);
      canon := Canonical(setting.alphabet, id);
      if canon in nodes {
        if nodeType != CONCEPT {
          nodes := nodes[canon := nodes[canon].(nodeType := nodeType)];
        } else {
          SameAgain(nodes, canon);
        }
      } else {
        var kind := if nodeType == CONCEPT then setting.infer(canon) else nodeType;
        var shown := Shown(id, canon);
        nodes := nodes[canon := Node(kind, shown, map[])];
      }
    }

    /** `add_fact`; an empty source or run is none.  Nothing changes but the edge of the fact and its ends. */
    method AddFact(subject: string, relation: string, object_: string, objectType: string, layer: Layer,
                   source: string, runId: string, now: int)
      requires Valid()
      modifies this
      ensures Valid()
      ensures Net() == WithFact(setting, old(Net()), subject, relation, object_, objectType, layer, source, runId, now)
      ensures FactTold(setting, old(Net()), Net(),
                       Fact(subject, relation, object_, objectType, layer, source, runId, now))
    {
      hide AlphabetOk, GraphOk, Canonical, Upserted, FactTold;
      FactIsTold(setting, Net(), Fact(subject, relation, object_, objectType, layer, source, runId, now));
      FactKeeps(setting, Net(), subject, relation, object_, objectType, layer, source, runId, now);
      var s := UpsertNode(subject, CONCEPT);
      var o := UpsertNode(object_, objectType);
      var k := Key(s, o, relation);
      if k in edges {
        var e := edges[k];
        e := e.(weight := e.weight + 1, last := Some(now));
        e := e.(sources := MergeProvenance(e.sources, Listed(source)),
               runIds := MergeProvenance(e.runIds, Listed(runId)));
        edges := edges[k := e];
      } else {
        edges := edges[k := Edge(layer, 1, Some(now), Some(now), Listed(source), Listed(runId), map[])];
      }
    }

    /** `_ingest_node` */
    method IngestNode(n: FileNode)
      requires Valid()
      modifies this
      ensures Valid() && Net() == NodeIngested(setting, old(Net()), n) && edges == old(edges)
      ensures var canon := Canonical(setting.alphabet, n.id);
              && nodes.Keys == old(nodes).Keys + {canon}
              && NodeRead(setting, n, NodeAt(old(Net()), canon), nodes[canon])
              && forall x | x in old(nodes) && x != canon :: nodes[x] == old(nodes)[x]
    {
      hide AlphabetOk, GraphOk, Canonical, NodeRead;
      NodeKeeps(setting, Net(), n);
      NodeIsRead(setting, Net(), n);
      var canon := Canonical(setting.alphabet, n.id);
      if canon in nodes {
        nodes := nodes[canon := MetNode(nodes[canon], n)];
      } else {
        nodes := nodes[canon := NewNode(setting, canon, n)];
      }
    }

    /** `_ingest_edge` */
    method IngestEdge(e: FileEdge)
      requires Valid()
      modifies this
      ensures Valid() && Net() == EdgeIngested(setting, old(Net()), e)
      ensures var k := KeyOf(setting, e);
              && edges.Keys == old(edges).Keys + {k} && EdgeRead(e, EdgeAt(old(Net()), k), edges[k])
              && forall x | x in old(edges) && x != k :: edges[x] == old(edges)[x]
    {
      hide AlphabetOk, GraphOk, Canonical, NodeIngested, EdgeRead;
      EdgeKeeps(setting, Net(), e);
      EdgeIsRead(setting, Net(), e);
      IngestNode(FileNode(e.src, CONCEPT, None, map[]));
      IngestNode(FileNode(e.dst, CONCEPT, None, map[]));
      var k := KeyOf(setting, e);
      if k in edges {
        edges := edges[k := MetEdge(edges[k], e)];
      } else {
        edges := edges[k := NewEdge(e)];
      }
    }

    /** `_merge_from_disk`, and `_load` when the graph is empty */
    method MergeFromDisk(f: Option<File>)
      requires Valid()
      modifies this
      ensures Valid() && Net() == if f.Some? then FileMerged(setting, old(Net()), f.value) else old(Net())
    {
      hide AlphabetOk, GraphOk, NodeIngested, EdgeIngested;
      if f.None? {
        return;
      }
      ghost var before := Net();
      var ns, es := f.value.nodes, f.value.edges;
      for i := 0 to |ns|
        invariant Valid() && Net() == NodesIngested(setting, before, ns[..i])
      {
        assert ns[..i + 1][..i] == ns[..i];
        IngestNode(ns[i]);
      }
      assert ns[..|ns|] == ns;
      ghost var mid := Net();
      for i := 0 to |es|
        invariant Valid() && Net() == EdgesIngested(setting, mid, es[..i])
      {
        assert es[..i + 1][..i] == es[..i];
        IngestEdge(es[i]);
      }
      assert es[..|es|] == es;
    }

    /** `_serialize`; the order of the lists is the graph's own. */
    method Serialize() returns (f: File)
      requires Valid()
      ensures Serializes(Net(), f)
    {
      hide AlphabetOk, GraphOk;
      var ns: seq<FileNode> := [];
      var todo := nodes.Keys;
      while todo != {}
        invariant todo <= nodes.Keys
        invariant forall n | n in ns :: n.id in nodes && n == NodeEntry(Net(), n.id)
        invariant forall id | id in nodes.Keys - todo :: NodeEntry(Net(), id) in ns
        decreases |todo|
      {
        var id :| id in todo;
        todo := todo - {id};
        ns := ns + [NodeEntry(Net(), id)];
      }
      var es: seq<FileEdge> := [];
      var left := edges.Keys;
      while left != {}
        invariant left <= edges.Keys
        invariant forall e | e in es ::
                    Key(e.src, e.dst, e.relation) in edges && e == EdgeEntry(Net(), Key(e.src, e.dst, e.relation))
        invariant forall k | k in edges.Keys - left :: EdgeEntry(Net(), k) in es
        decreases |left|
      {
        var k :| k in left;
        left := left - {k};
        es := es + [EdgeEntry(Net(), k)];
      }
      f := File(ns, es);
    }

    /** `save`: what is on disk is merged in first, and then everything is written. */
    method Save(disk: Option<File>) returns (f: File)
      requires Valid()
      modifies this
      ensures Valid() && Net() == if disk.Some? then FileMerged(setting, old(Net()), disk.value) else old(Net())
      ensures Serializes(Net(), f) && FileMerged(setting, EMPTY, f) == Net()
    {
      hide AlphabetOk, GraphOk, FileMerged;
      MergeFromDisk(disk);
      f := Serialize();
      LoadInvertsSerialize(setting, Net(), f);
    }
  }
}
