/** Applying a distillation report (knowledge/distill.py, `distill`), and what it does to the graph. */
module Distills {
  import opened Collections
  import opened Wrappers
  import opened Sorting
  import opened Networks
  import opened Quotients
  import opened Consolidation
  import opened DistillReports

  datatype Counts = Counts(merged: nat, pruned: nat, orphansRemoved: nat)

  // ---- the three passes ----

  /** A merge is applied when it names two nodes of one type that are there and no run-layer edge
      would be redirected. */
  predicate MergeApplies(g: Network, m: Merge) {
    && m.keep != "" && m.drop != "" && m.keep != m.drop && m.keep in g.nodes && m.drop in g.nodes
    && g.nodes[m.keep].nodeType == g.nodes[m.drop].nodeType
    && forall k | k in g.edges :: Mentions(k, m.drop) ==> g.edges[k].layer == Domain
  }

  function OneMerge(g: Network, m: Merge): Network {
    if MergeApplies(g, m) then Merged(g, m) else g
  }

  function AfterMerges(g: Network, ms: seq<Merge>): Network {
    if ms == [] then g else OneMerge(AfterMerges(g, ms[..|ms| - 1]), ms[|ms| - 1])
  }

  function MergesDone(g: Network, ms: seq<Merge>): (n: nat)
    ensures n <= |ms|
  {
    if ms == [] then 0
    else
      var before := ms[..|ms| - 1];
      MergesDone(g, before) + if MergeApplies(AfterMerges(g, before), ms[|ms| - 1]) then 1 else 0
  }

  predicate KeyNamed(k: Key) {
    k.src != "" && k.dst != "" && k.relation != ""
  }

  predicate PruneApplies(g: Network, k: Key) {
    KeyNamed(k) && k in g.edges && g.edges[k].layer == Domain
  }

  function AfterPrunes(g: Network, ks: seq<Key>): Network {
    if ks == [] then g
    else
      var before := AfterPrunes(g, ks[..|ks| - 1]);
      if PruneApplies(before, ks[|ks| - 1]) then before.(edges := before.edges - {ks[|ks| - 1]}) else before
  }

  function PrunesDone(g: Network, ks: seq<Key>): (n: nat)
    ensures n <= |ks|
  {
    if ks == [] then 0
    else
      var before := ks[..|ks| - 1];
      PrunesDone(g, before) + if PruneApplies(AfterPrunes(g, before), ks[|ks| - 1]) then 1 else 0
  }

  predicate OrphanGoes(g: Network, n: Id) {
    n in g.nodes && g.nodes[n].nodeType == CONCEPT && forall k | k in g.edges :: !Mentions(k, n)
  }

  function AfterOrphans(g: Network, ns: seq<Id>): Network {
    if ns == [] then g
    else
      var before := AfterOrphans(g, ns[..|ns| - 1]);
      if OrphanGoes(before, ns[|ns| - 1]) then before.(nodes := before.nodes - {ns[|ns| - 1]}) else before
  }

  function OrphansDone(g: Network, ns: seq<Id>): (n: nat)
    ensures n <= |ns|
  {
    if ns == [] then 0
    else
      var before := ns[..|ns| - 1];
      OrphansDone(g, before) + if OrphanGoes(AfterOrphans(g, before), ns[|ns| - 1]) then 1 else 0
  }

  function Applied(g: Network, r: Report): Network {
    if r.TooSmall? then g else AfterOrphans(AfterPrunes(AfterMerges(g, r.merges), r.prunes), r.orphans)
  }

  function CountsOf(g: Network, r: Report): Counts {
    if r.TooSmall? then Counts(0, 0, 0)
    else
      var merged := AfterMerges(g, r.merges);
      Counts(MergesDone(g, r.merges), PrunesDone(merged, r.prunes),
             OrphansDone(AfterPrunes(merged, r.prunes), r.orphans))
  }

  // ---- the run layer ----

  lemma {:induction false} MergesKeepRunEdges(g: Network, ms: seq<Merge>, k: Key)
    requires WellFormed(g)
    ensures WellFormed(AfterMerges(g, ms))
    ensures k in RunKeys(AfterMerges(g, ms)) <==> k in RunKeys(g)
    decreases |ms|
  {
    hide MergedEdges;
    if ms != [] {
      var before, m := AfterMerges(g, ms[..|ms| - 1]), ms[|ms| - 1];
      MergesKeepRunEdges(g, ms[..|ms| - 1], k);
      if MergeApplies(before, m) {
        MergedIsWellFormed(before, m);
        MergedKeys(before.edges, m, k);
        if k in Merged(before, m).edges {
          MergedLayer(before.edges, m, k);
          if k !in before.edges {
            MovedOfOrigin(m, k);
          }
        }
      }
    }
  }

  lemma {:induction false} PrunesKeepRunEdges(g: Network, ks: seq<Key>, k: Key)
    requires WellFormed(g)
    ensures WellFormed(AfterPrunes(g, ks)) && AfterPrunes(g, ks).nodes == g.nodes
    ensures k in RunKeys(g) ==> k in AfterPrunes(g, ks).edges
    ensures k in AfterPrunes(g, ks).edges ==> k in g.edges && AfterPrunes(g, ks).edges[k] == g.edges[k]
    decreases |ks|
  {
    if ks != [] {
      PrunesKeepRunEdges(g, ks[..|ks| - 1], k);
      assert forall x | x in AfterPrunes(g, ks).edges :: x in AfterPrunes(g, ks[..|ks| - 1]).edges;
    }
  }

  lemma {:induction false} OrphansKeepEdges(g: Network, ns: seq<Id>)
    requires WellFormed(g)
    ensures WellFormed(AfterOrphans(g, ns)) && AfterOrphans(g, ns).edges == g.edges
    ensures forall n | n in AfterOrphans(g, ns).nodes :: n in g.nodes && AfterOrphans(g, ns).nodes[n] == g.nodes[n]
    decreases |ns|
  {
    if ns != [] {
      OrphansKeepEdges(g, ns[..|ns| - 1]);
    }
  }

  /** Whatever the report, the run-layer edges afterwards are the run-layer edges before. */
  lemma RunEdgesSurvive(g: Network, r: Report)
    requires WellFormed(g)
    ensures WellFormed(Applied(g, r)) && RunKeys(Applied(g, r)) == RunKeys(g)
  {
    hide AfterMerges, AfterPrunes, AfterOrphans;
    if r.Report? {
      var merged := AfterMerges(g, r.merges);
      MergesKeepRunEdges(g, r.merges, Key("", "", ""));
      var pruned := AfterPrunes(merged, r.prunes);
      PrunesKeepRunEdges(merged, r.prunes, Key("", "", ""));
      OrphansKeepEdges(pruned, r.orphans);
      forall k ensures k in RunKeys(Applied(g, r)) <==> k in RunKeys(g) {
        MergesKeepRunEdges(g, r.merges, k);
        PrunesKeepRunEdges(merged, r.prunes, k);
      }
    }
  }

  // ---- node types ----

  /** The edge `k` of `h` stands for one of `g` between nodes of the same types. */
  ghost predicate SameEnds(g: Network, h: Network, o: Key, k: Key)
    requires WellFormed(g) && WellFormed(h) && k in h.edges
  {
    && o in g.edges && o.relation == k.relation && g.edges[o].layer == h.edges[k].layer
    && g.nodes[o.src].nodeType == h.nodes[k.src].nodeType && g.nodes[o.dst].nodeType == h.nodes[k.dst].nodeType
  }

  ghost predicate HasType(h: Network, t: string) {
    exists n :: n in h.nodes && h.nodes[n].nodeType == t
  }

  /** What is left of a graph under safe changes: nodes as they were, none but concepts gone for good, and
      no edge carried to a node of another type. */
  ghost predicate TypesKept(g: Network, h: Network)
    requires WellFormed(g) && WellFormed(h)
  {
    && (forall n | n in h.nodes :: n in g.nodes && h.nodes[n] == g.nodes[n])
    && (forall n | n in g.nodes && g.nodes[n].nodeType != "concept" :: HasType(h, g.nodes[n].nodeType))
    && forall k | k in h.edges :: exists o :: SameEnds(g, h, o, k)
  }

  lemma TypesKeptTwice(a: Network, b: Network, c: Network)
    requires WellFormed(a) && WellFormed(b) && WellFormed(c) && TypesKept(a, b) && TypesKept(b, c)
    ensures TypesKept(a, c)
  {
    forall k | k in c.edges ensures exists o :: SameEnds(a, c, o, k) {
      var p :| SameEnds(b, c, p, k);
      var o :| SameEnds(a, b, o, p);
      assert SameEnds(a, c, o, k);
    }
    forall n | n in a.nodes && a.nodes[n].nodeType != "concept" ensures HasType(c, a.nodes[n].nodeType) {
      var m :| m in b.nodes && b.nodes[m].nodeType == a.nodes[n].nodeType;
      assert HasType(c, b.nodes[m].nodeType);
    }
  }

  lemma LessKeepsTypes(g: Network, h: Network)
    requires WellFormed(g) && WellFormed(h)
    requires forall n | n in h.nodes :: n in g.nodes && h.nodes[n] == g.nodes[n]
    requires forall n | n in g.nodes && g.nodes[n].nodeType != "concept" :: n in h.nodes
    requires forall k | k in h.edges :: k in g.edges && h.edges[k] == g.edges[k]
    ensures TypesKept(g, h)
  {
    forall k | k in h.edges ensures exists o :: SameEnds(g, h, o, k) {
      assert SameEnds(g, h, k, k);
    }
  }

  lemma MergeKeepsTypes(g: Network, m: Merge)
    requires WellFormed(g) && MergeApplies(g, m)
    ensures WellFormed(Merged(g, m)) && TypesKept(g, Merged(g, m))
  {
    MergedIsWellFormed(g, m);
    hide MergedEdges, WellFormed;
    var h := Merged(g, m);
    forall n | n in g.nodes && g.nodes[n].nodeType != "concept" ensures HasType(h, g.nodes[n].nodeType) {
      var x := if n == m.drop then m.keep else n;
      assert x in h.nodes && h.nodes[x].nodeType == g.nodes[n].nodeType;
    }
    forall k | k in h.edges ensures exists o :: SameEnds(g, h, o, k) {
      MergedKeys(g.edges, m, k);
      MergedLayer(g.edges, m, k);
      EndsOfMerged(g, m, k);
      if k in g.edges {
        assert SameEnds(g, h, k, k);
      } else {
        MovedOfOrigin(m, k);
        assert SameEnds(g, h, Origin(m, k).value, k);
      }
    }
  }

  lemma EndsOfMerged(g: Network, m: Merge, k: Key)
    requires WellFormed(g) && MergeApplies(g, m) && k in Merged(g, m).edges
    ensures k.src in Merged(g, m).nodes && k.dst in Merged(g, m).nodes
  {
    MergedIsWellFormed(g, m);
  }

  lemma {:induction false} MergesKeepTypes(g: Network, ms: seq<Merge>)
    requires WellFormed(g)
    ensures WellFormed(AfterMerges(g, ms)) && TypesKept(g, AfterMerges(g, ms))
    decreases |ms|
  {
    hide TypesKept, MergeApplies, Merged, WellFormed;
    if ms == [] {
      NothingKeepsTypes(g);
    } else {
      var before, m := AfterMerges(g, ms[..|ms| - 1]), ms[|ms| - 1];
      MergesKeepTypes(g, ms[..|ms| - 1]);
      if MergeApplies(before, m) {
        MergeKeepsTypes(before, m);
        TypesKeptTwice(g, before, Merged(before, m));
      }
    }
  }

  lemma NothingKeepsTypes(g: Network)
    requires WellFormed(g)
    ensures TypesKept(g, g)
  {
    LessKeepsTypes(g, g);
  }

  /** Whatever the report, nodes stay as they are, no type but concept dies out, and no edge is carried
      to a node of another type or layer. */
  lemma NoReportCrossesTypes(g: Network, r: Report)
    requires WellFormed(g)
    ensures WellFormed(Applied(g, r)) && TypesKept(g, Applied(g, r))
  {
    hide AfterMerges, AfterPrunes, AfterOrphans, TypesKept, WellFormed;
    NothingKeepsTypes(g);
    if r.Report? {
      var merged := AfterMerges(g, r.merges);
      MergesKeepTypes(g, r.merges);
      var pruned := AfterPrunes(merged, r.prunes);
      PrunesKeepRunEdges(merged, r.prunes, Key("", "", ""));
      PrunesDo(merged, r.prunes);
      LessKeepsTypes(merged, pruned);
      TypesKeptTwice(g, merged, pruned);
      OrphansKeepEdges(pruned, r.orphans);
      OrphansDo(pruned, r.orphans);
      LessKeepsTypes(pruned, AfterOrphans(pruned, r.orphans));
      TypesKeptTwice(g, pruned, AfterOrphans(pruned, r.orphans));
    }
  }

  // ---- applying a report to the graph it was made from ----

  /** Every merge and every prune of the report has names that are not empty. */
  predicate AllNamed(r: Report)
    requires r.Report?
  {
    (forall m | m in r.merges :: m.keep != "" && m.drop != "") && (forall k | k in r.prunes :: KeyNamed(k))
  }

  lemma EndOfRunKey(g: Network, k: Key)
    requires k in RunKeys(g)
    ensures k.src in Ends(RunKeys(g)) && k.dst in Ends(RunKeys(g))
  {
  }

  /** In the quotient, the edges of a candidate are of the domain layer. */
  lemma CandidateEdgesAreDomain(g: Network, w: map<Id, int>, ms: seq<Merge>, now: map<Key, Edge>, n: Id, k: Key)
    requires Links(g, w, ms) && IsQuotient(g.edges, ms, now)
    requires n in Candidates(g) && k in now && Mentions(k, n)
    ensures now[k].layer == Domain
  {
    hide GreatestIs, Links, Resolve;
    assert SomeLands(g.edges, ms, k);
    var p :| Lands(g.edges, ms, p, k);
    assert now[k].layer == g.edges[p].layer;
    ClassesKeepTypes(g, w, ms, p.src);
    ClassesKeepTypes(g, w, ms, p.dst);
    if g.edges[p].layer == Run {
      EndOfRunKey(g, p);
    }
  }

  lemma {:induction false} FreshMerges(g: Network, w: map<Id, int>, ms: seq<Merge>)
    requires WellFormed(g) && Links(g, w, ms) && forall m | m in ms :: m.keep != "" && m.drop != ""
    ensures MergesDone(g, ms) == |ms|
    ensures AfterMerges(g, ms).nodes == g.nodes - Drops(ms)
    ensures IsQuotient(g.edges, ms, AfterMerges(g, ms).edges)
    decreases |ms|
  {
    hide Links, IsQuotient, MergedEdges, Candidates, RankLess, WellFormed;
    if ms == [] {
      QuotientByNothing(g.edges);
      assert g.nodes - {} == g.nodes;
    } else {
      LinksLess(g, w, ms);
      var before, m := ms[..|ms| - 1], ms[|ms| - 1];
      FreshMerges(g, w, before);
      RankIsAsymmetric(w, m.keep, m.drop);
      RankFalls(g, w, before, m.keep);
      RankFalls(g, w, before, m.drop);
      var h := AfterMerges(g, before);
      forall k | k in h.edges && (Mentions(k, m.keep) || Mentions(k, m.drop)) ensures h.edges[k].layer == Domain {
        CandidateEdgesAreDomain(g, w, before, h.edges, if Mentions(k, m.keep) then m.keep else m.drop, k);
      }
      assert m in ms;
      assert MergeApplies(h, m);
      QuotientStep(g.edges, before, h.edges, m);
      assert h.nodes - {m.drop} == g.nodes - Drops(ms);
    }
  }

  lemma LastIsNew<T(!new)>(s: seq<T>)
    requires Distinct(s) && s != []
    ensures var n := |s| - 1; s == s[..n] + [s[n]] && s[n] !in s[..n] && Distinct(s[..n])
  {
    var n := |s| - 1;
    assert s == s[..n] + [s[n]];
  }

  lemma {:induction false} PrunesDo(h: Network, ks: seq<Key>)
    ensures AfterPrunes(h, ks) == h.(edges := h.edges - set k | k in ks && PruneApplies(h, k))
    decreases |ks|
  {
    hide KeyNamed;
    if ks == [] {
      assert h.edges - {} == h.edges;
    } else {
      var before, last := ks[..|ks| - 1], ks[|ks| - 1];
      assert ks == before + [last];
      PrunesDo(h, before);
      var gone := set k | k in before && PruneApplies(h, k);
      var all := set k | k in ks && PruneApplies(h, k);
      assert all == if PruneApplies(h, last) then gone + {last} else gone;
      assert PruneApplies(h.(edges := h.edges - gone), last) <==> PruneApplies(h, last) && last !in gone;
      assert h.edges - gone - {last} == h.edges - (gone + {last});
      assert last in gone ==> gone + {last} == gone;
    }
  }

  lemma {:induction false} PrunesAll(h: Network, ks: seq<Key>)
    requires Distinct(ks) && forall k | k in ks :: PruneApplies(h, k)
    ensures PrunesDone(h, ks) == |ks|
    decreases |ks|
  {
    hide Distinct, AfterPrunes, KeyNamed;
    if ks != [] {
      LastIsNew(ks);
      PrunesAll(h, ks[..|ks| - 1]);
      PrunesDo(h, ks[..|ks| - 1]);
      assert PruneApplies(h, ks[|ks| - 1]);
    }
  }

  lemma {:induction false} OrphansDo(h: Network, ns: seq<Id>)
    ensures AfterOrphans(h, ns) == h.(nodes := h.nodes - set n | n in ns && OrphanGoes(h, n))
    decreases |ns|
  {
    hide Mentions;
    if ns == [] {
      assert h.nodes - {} == h.nodes;
    } else {
      var before, last := ns[..|ns| - 1], ns[|ns| - 1];
      assert ns == before + [last];
      OrphansDo(h, before);
      var gone := set n | n in before && OrphanGoes(h, n);
      var all := set n | n in ns && OrphanGoes(h, n);
      assert all == if OrphanGoes(h, last) then gone + {last} else gone;
      assert OrphanGoes(h.(nodes := h.nodes - gone), last) <==> OrphanGoes(h, last) && last !in gone;
      assert h.nodes - gone - {last} == h.nodes - (gone + {last});
      assert last in gone ==> gone + {last} == gone;
    }
  }

  lemma {:induction false} OrphansAll(h: Network, ns: seq<Id>)
    requires Distinct(ns) && forall n | n in ns :: OrphanGoes(h, n)
    ensures OrphansDone(h, ns) == |ns|
    decreases |ns|
  {
    hide Distinct, Mentions, AfterOrphans;
    if ns != [] {
      LastIsNew(ns);
      OrphansAll(h, ns[..|ns| - 1]);
      OrphansDo(h, ns[..|ns| - 1]);
      assert OrphanGoes(h, ns[|ns| - 1]);
    }
  }

  /** A proposed prune is still there after the merges. */
  lemma PruneStays(g: Network, ms: seq<Merge>, p: Params, now: map<Key, Edge>, k: Key)
    requires Prunable(g, ms, p, k) && IsQuotient(g.edges, ms, now)
    ensures k in now && now[k].layer == Domain
  {
    hide GreatestIs, Resolve, Hub;
    assert Lands(g.edges, ms, k, k);
    assert SomeLands(g.edges, ms, k);
  }

  /** Only a keeper has others in its class. */
  lemma {:induction false} AloneInClass(ms: seq<Merge>, x: Id, n: Id)
    requires Resolve(ms, x) == n && n !in Keeps(ms)
    ensures x == n
    decreases |ms|
  {
    if ms != [] {
      var before, m := ms[..|ms| - 1], ms[|ms| - 1];
      assert ms == before + [m];
      assert m in ms && forall y | y in before :: y in ms;
      AloneInClass(before, x, n);
    }
  }

  /** Every edge a proposed orphan has after the merges is a proposed prune. */
  lemma OrphanEdgesArePruned(g: Network, w: map<Id, int>, r: Report, p: Params, now: map<Key, Edge>, n: Id, k: Key)
    requires r.Report? && Links(g, w, r.merges) && IsQuotient(g.edges, r.merges, now)
    requires forall x :: x in r.prunes <==> Prunable(g, r.merges, p, x)
    requires BecomesOrphan(g, r.merges, r.prunes, n) && k in now && Mentions(k, n)
    ensures k in r.prunes
  {
    hide GreatestIs, Hub, Links, Resolve, Keeps, Drops;
    assert SomeLands(g.edges, r.merges, k);
    var o :| Lands(g.edges, r.merges, o, k);
    if k.src == n { AloneInClass(r.merges, o.src, n); } else { AloneInClass(r.merges, o.dst, n); }
    assert o in r.prunes;
    assert o == k;
  }

  lemma {:induction false} DoneAreNamed(g: Network, ms: seq<Merge>)
    requires MergesDone(g, ms) == |ms|
    ensures forall m | m in ms :: m.keep != "" && m.drop != ""
    decreases |ms|
  {
    if ms != [] {
      DoneAreNamed(g, ms[..|ms| - 1]);
      assert ms == ms[..|ms| - 1] + [ms[|ms| - 1]];
    }
  }

  lemma {:induction false} PrunedAreNamed(g: Network, ks: seq<Key>)
    requires PrunesDone(g, ks) == |ks|
    ensures forall k | k in ks :: KeyNamed(k)
    decreases |ks|
  {
    if ks != [] {
      PrunedAreNamed(g, ks[..|ks| - 1]);
      assert ks == ks[..|ks| - 1] + [ks[|ks| - 1]];
    }
  }

  /** The prunes of a report that are carried out: the others have an empty name. */
  ghost function Carried(r: Report): set<Key>
    requires r.Report?
  {
    set k | k in r.prunes && KeyNamed(k)
  }

  /** The orphans that go: those that keep no nameless edge. */
  ghost function Gone(r: Report): set<Id>
    requires r.Report?
  {
    set n | n in r.orphans && forall k | k in r.prunes && Mentions(k, n) :: KeyNamed(k)
  }

  ghost predicate MergesNamed(r: Report)
    requires r.Report?
  {
    forall m | m in r.merges :: m.keep != "" && m.drop != ""
  }

  /** What is left of a graph after a report that was made from it, when the merges have names. */
  lemma FreshReportLeaves(g: Network, p: Params, r: Report)
    requires WellFormed(g) && IsReport(g, p, r) && r.Report? && MergesNamed(r)
    ensures IsQuotient(g.edges, r.merges, AfterMerges(g, r.merges).edges)
    ensures Applied(g, r).edges == AfterMerges(g, r.merges).edges - Carried(r)
    ensures Applied(g, r).nodes == g.nodes - Drops(r.merges) - Gone(r)
  {
    hide IsQuotient, Links, Hub, AfterMerges, AfterPrunes, AfterOrphans;
    hide Prunable, BecomesOrphan, AllJustified, NothingLeft, Degrees, WellFormed, Distinct, KeyNamed, Drops;
    FreshMerges(g, Degrees(g), r.merges);
    var merged := AfterMerges(g, r.merges);
    forall k | k in r.prunes ensures PruneApplies(merged, k) <==> KeyNamed(k) {
      PruneStays(g, r.merges, p, merged.edges, k);
    }
    PrunesDo(merged, r.prunes);
    assert (set k | k in r.prunes && PruneApplies(merged, k)) == Carried(r);
    var pruned := AfterPrunes(merged, r.prunes);
    assert pruned.edges == merged.edges - Carried(r);
    forall n | n in r.orphans ensures OrphanGoes(pruned, n) <==> n in Gone(r) { OrphanGoesIff(g, p, r, pruned, n); }
    OrphansDo(pruned, r.orphans);
    assert (set n | n in r.orphans && OrphanGoes(pruned, n)) == Gone(r);
  }

  lemma OrphanGoesIff(g: Network, p: Params, r: Report, pruned: Network, n: Id)
    requires WellFormed(g) && IsReport(g, p, r) && r.Report? && n in r.orphans
    requires IsQuotient(g.edges, r.merges, AfterMerges(g, r.merges).edges)
    requires pruned.nodes == g.nodes - Drops(r.merges)
    requires pruned.edges == AfterMerges(g, r.merges).edges - Carried(r)
    ensures OrphanGoes(pruned, n) <==> n in Gone(r)
  {
    hide IsQuotient, Links, Hub, AfterMerges, Mentions;
    hide Prunable, BecomesOrphan, AllJustified, NothingLeft, Degrees, WellFormed, Distinct, KeyNamed, Drops;
    var now := AfterMerges(g, r.merges).edges;
    OrphanNode(g, r.merges, r.prunes, n);
    forall k | k in now && Mentions(k, n) ensures k in r.prunes {
      OrphanEdgesArePruned(g, Degrees(g), r, p, now, n, k);
    }
    forall k | k in r.prunes ensures k in now { PruneStays(g, r.merges, p, now, k); }
  }

  /** Applying a report to the graph it was made from does exactly what the dry run listed: the
      merges make the quotient, the prunes and the orphans then go, and the counts are the lengths
      of the lists. */
  lemma NamedReportIsApplied(g: Network, p: Params, r: Report)
    requires WellFormed(g) && IsReport(g, p, r) && r.Report? && AllNamed(r)
    ensures CountsOf(g, r) == Counts(|r.merges|, |r.prunes|, |r.orphans|)
    ensures IsQuotient(g.edges, r.merges, AfterMerges(g, r.merges).edges)
    ensures Applied(g, r).edges == AfterMerges(g, r.merges).edges - set k | k in r.prunes
    ensures Applied(g, r).nodes == g.nodes - Drops(r.merges) - set n | n in r.orphans
  {
    hide IsQuotient, Links, Hub, AfterMerges, AfterPrunes, AfterOrphans, PrunesDone, OrphansDone, MergesDone;
    hide Prunable, BecomesOrphan, AllJustified, NothingLeft, Degrees, WellFormed, Distinct, KeyNamed, Drops, Mentions;
    FreshReportLeaves(g, p, r);
    assert Carried(r) == (set k | k in r.prunes) && Gone(r) == set n | n in r.orphans;
    FreshMerges(g, Degrees(g), r.merges);
    var merged := AfterMerges(g, r.merges);
    forall k | k in r.prunes ensures PruneApplies(merged, k) { PruneStays(g, r.merges, p, merged.edges, k); }
    PrunesAll(merged, r.prunes);
    var pruned := AfterPrunes(merged, r.prunes);
    PrunesDo(merged, r.prunes);
    assert pruned.edges == merged.edges - Carried(r);
    forall n | n in r.orphans ensures OrphanGoes(pruned, n) { OrphanGoesIff(g, p, r, pruned, n); }
    OrphansAll(pruned, r.orphans);
  }

  lemma OrphanNode(g: Network, ms: seq<Merge>, prunes: seq<Key>, n: Id)
    requires BecomesOrphan(g, ms, prunes, n)
    ensures n in g.nodes && n !in Drops(ms) && g.nodes[n].nodeType == CONCEPT
  {
  }

  /** A prune is not looked at again after the merges: it goes even when it has become heavy, which
      is so exactly when a heavy edge was redirected onto it. */
  lemma PrunedThoughHeavyIff(g: Network, p: Params, r: Report, k: Key)
    requires WellFormed(g) && IsReport(g, p, r) && r.Report? && AllNamed(r) && k in r.prunes
    ensures k in AfterMerges(g, r.merges).edges && k !in Applied(g, r).edges
    ensures AfterMerges(g, r.merges).edges[k].weight >= p.minKeep
            <==> exists o :: Lands(g.edges, r.merges, o, k) && g.edges[o].weight >= p.minKeep
  {
    hide AfterMerges, AfterPrunes, AfterOrphans, Applied, AllNamed, Links;
    hide Resolve, Hub, BecomesOrphan, AllJustified, NothingLeft, Lands;
    NamedReportIsApplied(g, p, r);
    var now := AfterMerges(g, r.merges).edges;
    PruneStays(g, r.merges, p, now, k);
    assert GreatestIs(WEIGHT, g.edges, r.merges, k, Some(now[k].weight));
    LandedAreEdges(g.edges, r.merges, k);
    forall o | Lands(g.edges, r.merges, o, k) ensures WEIGHT(g.edges[o]) == Some(g.edges[o].weight) {
    }
  }

  lemma LandedAreEdges(edges: map<Key, Edge>, ms: seq<Merge>, k: Key)
    ensures forall o | Lands(edges, ms, o, k) :: o in edges
  {
  }

  lemma NamesOf(r: Report)
    requires r.Report?
    ensures AllNamed(r) <==>
              (forall m | m in r.merges :: m.keep != "" && m.drop != "")
              && forall k | k in r.prunes :: k.src != "" && k.dst != "" && k.relation != ""
  {
  }

  /** All merges and prunes of a fresh report are carried out exactly when all their names are
      non-empty; then the orphans go too. */
  lemma FreshReportIff(g: Network, p: Params, r: Report)
    requires WellFormed(g) && IsReport(g, p, r) && r.Report?
    ensures (CountsOf(g, r).merged == |r.merges| && CountsOf(g, r).pruned == |r.prunes|) <==> AllNamed(r)
    ensures AllNamed(r) <==>
              (forall m | m in r.merges :: m.keep != "" && m.drop != "")
              && forall k | k in r.prunes :: k.src != "" && k.dst != "" && k.relation != ""
    ensures AllNamed(r) ==> CountsOf(g, r).orphansRemoved == |r.orphans|
  {
    NamesOf(r);
    hide IsReport, AfterMerges, AfterPrunes, PrunesDone, OrphansDone, MergesDone, KeyNamed;
    if AllNamed(r) {
      NamedReportIsApplied(g, p, r);
    }
    if CountsOf(g, r).merged == |r.merges| && CountsOf(g, r).pruned == |r.prunes| {
      DoneAreNamed(g, r.merges);
      PrunedAreNamed(AfterMerges(g, r.merges), r.prunes);
    }
  }

  // ---- run-layer edges under a fresh report ----

  lemma {:induction false} MergesSpareRunEdges(g: Network, w: map<Id, int>, all: seq<Merge>, ms: seq<Merge>, k: Key)
    requires WellFormed(g) && Links(g, w, all) && k in RunKeys(g) && forall m | m in ms :: m in all
    ensures k in AfterMerges(g, ms).edges && AfterMerges(g, ms).edges[k] == g.edges[k]
    decreases |ms|
  {
    if ms != [] {
      var before, m := ms[..|ms| - 1], ms[|ms| - 1];
      assert ms == before + [m];
      assert m in ms;
      MergesSpareRunEdges(g, w, all, before, k);
      LinkIsCandidate(g, w, all, m);
      EndOfRunKey(g, k);
      hide Links, Candidates, RunKeys, MergedEdges, Ends;
      var h := AfterMerges(g, before);
      if MergeApplies(h, m) {
        SparedEdge(h.edges, m, k);
      }
    }
  }

  lemma LinkIsCandidate(g: Network, w: map<Id, int>, ms: seq<Merge>, m: Merge)
    requires Links(g, w, ms) && m in ms
    ensures m.keep !in Ends(RunKeys(g)) && m.drop !in Ends(RunKeys(g))
  {
    var i :| 0 <= i < |ms| && ms[i] == m;
    assert LinkOk(g, w, ms[..i], m);
  }

  lemma SparedEdge(edges: map<Key, Edge>, m: Merge, k: Key)
    requires k in edges && !Mentions(k, m.keep) && !Mentions(k, m.drop)
    ensures k in MergedEdges(edges, m) && MergedEdges(edges, m)[k] == edges[k]
  {
  }

  /** A fresh report leaves each run-layer edge with its weight, times and provenance. */
  lemma RunEdgesAreUntouched(g: Network, p: Params, r: Report, k: Key)
    requires WellFormed(g) && IsReport(g, p, r) && k in RunKeys(g)
    ensures k in Applied(g, r).edges && Applied(g, r).edges[k] == g.edges[k]
  {
    hide AfterMerges, AfterPrunes, AfterOrphans, Links, WellFormed;
    if r.Report? {
      MergesSpareRunEdges(g, Degrees(g), r.merges, r.merges, k);
      MergesKeepRunEdges(g, r.merges, k);
      var merged := AfterMerges(g, r.merges);
      PrunesKeepRunEdges(merged, r.prunes, k);
      OrphansKeepEdges(AfterPrunes(merged, r.prunes), r.orphans);
    }
  }

  // ---- a second report ----

  lemma DomainEnd(g: Network, k: Key)
    requires k in g.edges && g.edges[k].layer == Domain
    ensures k.src in Ends(DomainKeys(g)) && k.dst in Ends(DomainKeys(g))
  {
    assert k in DomainKeys(g);
  }

  lemma EndOfDomainKey(g: Network, n: Id) returns (k: Key)
    requires n in Ends(DomainKeys(g))
    ensures k in g.edges && g.edges[k].layer == Domain && Mentions(k, n)
  {
    k :| k in DomainKeys(g) && Mentions(k, n);
  }

  /** A node of the domain layer afterwards is the root of one before. */
  lemma DomainNodeComesFrom(g: Network, p: Params, r: Report, n: Id) returns (x: Id)
    requires WellFormed(g) && IsReport(g, p, r) && r.Report? && MergesNamed(r)
    requires n in Ends(DomainKeys(Applied(g, r)))
    ensures x in Ends(DomainKeys(g)) && Resolve(r.merges, x) == n
  {
    hide AfterMerges, AfterPrunes, AfterOrphans, Applied, IsReport;
    hide MergesNamed, Resolve, GreatestIs, Ends, DomainKeys, WellFormed;
    var k := EndOfDomainKey(Applied(g, r), n);
    FreshReportLeaves(g, p, r);
    PrunedIsSame(g, p, r, k);
    assert SomeLands(g.edges, r.merges, k);
    var o :| Lands(g.edges, r.merges, o, k);
    assert AfterMerges(g, r.merges).edges[k].layer == g.edges[o].layer;
    DomainEnd(g, o);
    x := if k.src == n then o.src else o.dst;
  }

  lemma CandidatesShrink(g: Network, p: Params, r: Report, n: Id)
    requires WellFormed(g) && IsReport(g, p, r) && r.Report? && MergesNamed(r)
    requires n in Candidates(Applied(g, r))
    ensures n in Candidates(g) && Resolve(r.merges, n) == n
  {
    hide Applied, AllJustified, NothingLeft, Prunable, BecomesOrphan, MergesNamed;
    hide Resolve, Links, Ends, DomainKeys, RunKeys, WellFormed;
    var x := DomainNodeComesFrom(g, p, r, n);
    RunEdgesSurvive(g, r);
    ClassesKeepTypes(g, Degrees(g), r.merges, x);
    ResolveTwice(g, Degrees(g), r.merges, x);
  }

  lemma PrunedIsSame(g: Network, p: Params, r: Report, k: Key)
    requires WellFormed(g) && r.Report? && k in Applied(g, r).edges
    ensures k in AfterMerges(g, r.merges).edges && AfterMerges(g, r.merges).edges[k] == Applied(g, r).edges[k]
  {
    hide AfterMerges, AfterPrunes, AfterOrphans;
    MergesKeepRunEdges(g, r.merges, k);
    var merged := AfterMerges(g, r.merges);
    PrunesKeepRunEdges(merged, r.prunes, k);
    OrphansKeepEdges(AfterPrunes(merged, r.prunes), r.orphans);
  }

  /** Once a fresh report is applied, a second report with the same embedder proposes no merge. */
  lemma SecondReportMergesNothing(g: Network, p: Params, r: Report, q: Params, second: Report)
    requires WellFormed(g) && IsReport(g, p, r) && r.Report? && MergesNamed(r)
    requires q.score == p.score && q.similarity == p.similarity
    requires IsReport(Applied(g, r), q, second) && second.Report?
    ensures second.merges == []
  {
    hide Applied, Candidates, Degrees, Prunable, BecomesOrphan;
    hide MergesNamed, RankLess, StrLess, VariantKey, Hub, Distinct;
    var after := Applied(g, r);
    if second.merges != [] {
      var m := second.merges[0];
      assert second.merges[..0] == [];
      assert LinkOk(after, Degrees(after), [], m) && Justified(after, q, [], m);
      CandidatesShrink(g, p, r, m.keep);
      CandidatesShrink(g, p, r, m.drop);
      FreshReportLeaves(g, p, r);
      RankIsAsymmetric(Degrees(after), m.keep, m.drop);
      FirstMergeIsNew(g, p, after, q, m);
      assert false;
    }
  }

  lemma FirstMergeIsNew(g: Network, p: Params, after: Network, q: Params, m: Merge)
    requires m.keep in after.nodes && m.drop in after.nodes && m.keep in g.nodes && m.drop in g.nodes
    requires after.nodes[m.keep] == g.nodes[m.keep] && after.nodes[m.drop] == g.nodes[m.drop]
    requires q.score == p.score && q.similarity == p.similarity
    requires Justified(after, q, [], m)
    ensures SameGroup(g, m.keep, m.drop) || Similar(g, p, m.keep, m.drop) || Similar(g, p, m.drop, m.keep)
  {
    hide VariantKey, StrLess, Candidates;
    if m.semantic {
      var a, b :| SimilarRoots(after, q, [], m, a, b);
    }
  }

  lemma GreatestIsUnique(f: Edge -> Option<int>, edges: map<Key, Edge>, ms: seq<Merge>, k: Key,
                         a: Option<int>, b: Option<int>)
    requires GreatestIs(f, edges, ms, k, a) && GreatestIs(f, edges, ms, k, b)
    ensures a == b
  {
    LandedAreEdges(edges, ms, k);
    hide Lands;
    if a.Some? {
      var o :| Lands(edges, ms, o, k) && f(edges[o]) == a;
    }
    if b.Some? {
      var o :| Lands(edges, ms, o, k) && f(edges[o]) == b;
    }
  }

  /** Every edge the merges carry to this key is a light one of the domain layer. */
  ghost predicate LightOrigins(g: Network, ms: seq<Merge>, minKeep: int, k: Key) {
    forall o | Lands(g.edges, ms, o, k) :: g.edges[o].layer == Domain && g.edges[o].weight < minKeep
  }

  /** The latest time of the edges carried to this key is known, and too long ago. */
  ghost predicate StaleOrigins(g: Network, ms: seq<Merge>, q: Params, k: Key) {
    exists last :: GreatestIs(LAST, g.edges, ms, k, Some(last)) && last != 0 && q.now - last > q.staleAfter
  }

  /** Left for a second pass to prune: the merges carry edges to this key, all of them light and stale,
      it is not pruned at once, and neither end is a hub of what the first pass leaves. */
  ghost predicate Leftover(g: Network, r: Report, q: Params, k: Key)
    requires r.Report?
  {
    && SomeLands(g.edges, r.merges, k) && k !in Carried(r)
    && LightOrigins(g, r.merges, q.minKeep, k) && StaleOrigins(g, r.merges, q, k)
    && !Hub(Applied(g, r), k.src) && !Hub(Applied(g, r), k.dst)
  }

  /** Left for it to remove: a concept that is still there, no hub, and all of whose edges were
      pruned, are left to prune, or were lost as loops. */
  ghost predicate Bare(g: Network, r: Report, q: Params, n: Id)
    requires r.Report?
  {
    && n in g.nodes && g.nodes[n].nodeType == CONCEPT && n !in Drops(r.merges) && n !in Gone(r)
    && !Hub(Applied(g, r), n)
    && forall k | SomeLands(g.edges, r.merges, k) && Mentions(k, n) :: k in Carried(r) || Leftover(g, r, q, k)
  }

  /** An edge of the quotient is stale and light when its origins are. */
  lemma QuotientEdge(g: Network, ms: seq<Merge>, q: Params, now: map<Key, Edge>, k: Key)
    requires IsQuotient(g.edges, ms, now) && k in now
    ensures LightOrigins(g, ms, q.minKeep, k) <==> now[k].layer == Domain && now[k].weight < q.minKeep
    ensures StaleOrigins(g, ms, q, k)
            <==> now[k].last.Some? && now[k].last.value != 0 && q.now - now[k].last.value > q.staleAfter
  {
    var e := now[k];
    assert GreatestIs(WEIGHT, g.edges, ms, k, Some(e.weight));
    assert GreatestIs(LAST, g.edges, ms, k, e.last);
    assert SomeLands(g.edges, ms, k);
    LandedAreEdges(g.edges, ms, k);
    hide Lands;
    var some :| Lands(g.edges, ms, some, k);
    var best :| Lands(g.edges, ms, best, k) && WEIGHT(g.edges[best]) == Some(e.weight);
    forall o | Lands(g.edges, ms, o, k) ensures g.edges[o].layer == e.layer && g.edges[o].weight <= e.weight {
      assert WEIGHT(g.edges[o]) == Some(g.edges[o].weight);
    }
    if StaleOrigins(g, ms, q, k) {
      var last :| GreatestIs(LAST, g.edges, ms, k, Some(last)) && last != 0 && q.now - last > q.staleAfter;
      GreatestIsUnique(LAST, g.edges, ms, k, Some(last), e.last);
    }
    if e.last.Some? {
      assert GreatestIs(LAST, g.edges, ms, k, Some(e.last.value));
    }
  }

  lemma SecondPrunes(g: Network, p: Params, r: Report, q: Params, k: Key)
    requires WellFormed(g) && IsReport(g, p, r) && r.Report? && MergesNamed(r)
    ensures Prunable(Applied(g, r), [], q, k) <==> Leftover(g, r, q, k)
  {
    hide IsReport, MergesNamed, AfterMerges, Applied, GreatestIs, Hub, LightOrigins, StaleOrigins;
    FreshReportLeaves(g, p, r);
    var now := AfterMerges(g, r.merges).edges;
    assert k in now <==> SomeLands(g.edges, r.merges, k);
    hide SomeLands;
    assert k in Applied(g, r).edges <==> k in now && k !in Carried(r);
    if k in Applied(g, r).edges {
      QuotientEdge(g, r.merges, q, now, k);
    }
  }

  lemma SecondOrphans(g: Network, p: Params, r: Report, q: Params, prunes: seq<Key>, n: Id)
    requires WellFormed(g) && IsReport(g, p, r) && r.Report? && MergesNamed(r)
    requires forall k :: k in prunes <==> Leftover(g, r, q, k)
    ensures BecomesOrphan(Applied(g, r), [], prunes, n) <==> Bare(g, r, q, n)
  {
    hide IsReport, MergesNamed, AfterMerges, Applied, GreatestIs, Hub, Leftover, Drops;
    FreshReportLeaves(g, p, r);
    NoParties();
    var now, after := AfterMerges(g, r.merges).edges, Applied(g, r);
    forall k ensures k in now <==> SomeLands(g.edges, r.merges, k) {}
    hide SomeLands, IsQuotient;
    assert n in after.nodes <==> n in g.nodes && n !in Drops(r.merges) && n !in Gone(r);
    assert forall k :: k in after.edges <==> k in now && k !in Carried(r);
  }

  lemma NoParties()
    ensures Drops([]) == {} && Keeps([]) == {}
  {
  }

  /** What a second report proposes once a fresh one is applied.  It is documented to propose
      nothing; it never proposes a merge, but prunes what the first left to prune, and so on. */
  lemma SecondReportIs(g: Network, p: Params, r: Report, q: Params, second: Report)
    requires WellFormed(g) && IsReport(g, p, r) && r.Report? && MergesNamed(r)
    requires q.score == p.score && q.similarity == p.similarity
    requires IsReport(Applied(g, r), q, second) && second.Report?
    ensures second.merges == []
    ensures forall k :: k in second.prunes <==> Leftover(g, r, q, k)
    ensures forall n :: n in second.orphans <==> Bare(g, r, q, n)
  {
    hide Applied, Prunable, BecomesOrphan, Leftover, Bare, MergesNamed, Links, AllJustified, NothingLeft, Distinct;
    SecondReportMergesNothing(g, p, r, q, second);
    forall k ensures k in second.prunes <==> Leftover(g, r, q, k) { SecondPrunes(g, p, r, q, k); }
    forall n ensures n in second.orphans <==> Bare(g, r, q, n) { SecondOrphans(g, p, r, q, second.prunes, n); }
  }

  /** It proposes nothing at all, as documented, exactly when the first left nothing of either kind. */
  lemma SecondReportIsEmptyIff(g: Network, p: Params, r: Report, q: Params, second: Report)
    requires WellFormed(g) && IsReport(g, p, r) && r.Report? && MergesNamed(r)
    requires q.score == p.score && q.similarity == p.similarity
    requires IsReport(Applied(g, r), q, second) && second.Report?
    ensures second == Report([], [], []) <==> (forall k :: !Leftover(g, r, q, k)) && forall n :: !Bare(g, r, q, n)
  {
    hide Applied, IsReport, Leftover, Bare, MergesNamed;
    SecondReportIs(g, p, r, q, second);
    EmptyIff(second.prunes);
    EmptyIff(second.orphans);
  }

  lemma EmptyIff<T(!new)>(s: seq<T>)
    ensures s == [] <==> forall x :: x !in s
  {
    assert s != [] ==> s[0] in s;
  }
}
