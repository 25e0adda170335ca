/** The dry run of the distillation (knowledge/distill.py, `distill_report`). */
module DistillReports {
  import opened Collections
  import opened Wrappers
  import opened Text
  import opened Sorting
  import opened Networks
  import opened Quotients
  import opened Consolidation

  /** How alike two labels are, if there is an embedder, and the thresholds of the pass. */
  datatype Params = Params(score: Option<(string, string) -> real>, similarity: real,
                           staleAfter: int, minKeep: int, now: int)

  datatype Report = TooSmall | Report(merges: seq<Merge>, prunes: seq<Key>, orphans: seq<Id>)

  datatype GroupKey = GroupKey(nodeType: string, text: string)

  datatype Pair = Pair(a: Id, b: Id, score: real)

  // ---- what the report promises ----

  function GroupOf(g: Network, n: Id): GroupKey
    requires n in g.nodes
  {
    GroupKey(g.nodes[n].nodeType, VariantKey(n, g.nodes[n].nodeType))
  }

  predicate SameGroup(g: Network, a: Id, b: Id) {
    a in g.nodes && b in g.nodes && GroupOf(g, a) == GroupOf(g, b) && GroupOf(g, a).text != ""
  }

  /** Of a concept, what is left without stopwords, plural s and hyphens; of another node, without hyphens. */
  function Essence(id: Id, nodeType: string): string {
    WithoutHyphens(if nodeType == CONCEPT then Rejoin(Meaningful(Split(id, '-')), '-') else id)
  }

  /** Variants of one name: nodes of one type of which the same is left, and not nothing. */
  lemma SameGroupIff(g: Network, a: Id, b: Id)
    requires a in g.nodes && b in g.nodes
    ensures var s, t := g.nodes[a].nodeType, g.nodes[b].nodeType;
            SameGroup(g, a, b) <==> s == t && Essence(a, s) == Essence(b, t) != ""
  {
    hide Split, Meaningful, Rejoin, WithoutHyphens, JoinTokens;
    forall id ensures VariantKey(id, CONCEPT) == Essence(id, CONCEPT) { ConceptKey(id); }
    forall id, t | t != CONCEPT ensures VariantKey(id, t) == Essence(id, t) { PlainKey(id); }
    hide VariantKey, Essence;
  }

  /** Two concept nodes, in the order of their identifiers, whose labels are similar enough. */
  predicate Similar(g: Network, p: Params, a: Id, b: Id) {
    && a in g.nodes && b in g.nodes && g.nodes[a].nodeType == CONCEPT && g.nodes[b].nodeType == CONCEPT
    && StrLess(a, b) && p.score.Some? && p.score.value(g.nodes[a].caption, g.nodes[b].caption) >= p.similarity
  }

  ghost predicate SimilarRoots(g: Network, p: Params, before: seq<Merge>, m: Merge, a: Id, b: Id) {
    && Similar(g, p, a, b) && a in Candidates(g) && b in Candidates(g)
    && ((Resolve(before, a) == m.keep && Resolve(before, b) == m.drop)
        || (Resolve(before, a) == m.drop && Resolve(before, b) == m.keep))
  }

  /** Why a merge is proposed: one variant key, or similar labels in the two classes. */
  ghost predicate Justified(g: Network, p: Params, before: seq<Merge>, m: Merge) {
    if m.semantic then exists a, b :: SimilarRoots(g, p, before, m, a, b) else SameGroup(g, m.keep, m.drop)
  }

  ghost predicate AllJustified(g: Network, p: Params, ms: seq<Merge>) {
    forall i :: 0 <= i < |ms| ==> Justified(g, p, ms[..i], ms[i])
  }

  /** No two candidates that are still apart share a variant key or have similar labels. */
  ghost predicate NothingLeft(g: Network, p: Params, ms: seq<Merge>) {
    forall a, b | a in Candidates(g) && b in Candidates(g) && a != b && (SameGroup(g, a, b) || Similar(g, p, a, b)) ::
      Resolve(ms, a) != a || Resolve(ms, b) != b
  }

  predicate HubLess(w: map<Id, int>, a: Id, b: Id) {
    if DegreeOf(w, a) != DegreeOf(w, b) then DegreeOf(w, a) > DegreeOf(w, b) else StrLess(a, b)
  }

  function Before(w: map<Id, int>, n: Id): set<Id> {
    set m | m in w.Keys && HubLess(w, m, n)
  }

  /** One of the nodes of greatest weighted degree. */
  predicate IsHub(w: map<Id, int>, n: Id) {
    n in w && |Before(w, n)| < HUB_PROTECT
  }

  ghost predicate Hub(g: Network, n: Id) {
    IsHub(Degrees(Counted(g)), n)
  }

  /** A light, stale edge of the domain layer between nodes that are neither hubs nor merged away. */
  ghost predicate Prunable(g: Network, ms: seq<Merge>, p: Params, k: Key) {
    && k in g.edges && g.edges[k].layer == Domain && g.edges[k].weight < p.minKeep
    && g.edges[k].last.Some? && g.edges[k].last.value != 0 && p.now - g.edges[k].last.value > p.staleAfter
    && !Hub(g, k.src) && !Hub(g, k.dst)
    && Resolve(ms, k.src) == k.src && Resolve(ms, k.dst) == k.dst
  }

  function Keeps(ms: seq<Merge>): set<Id> {
    set m | m in ms :: m.keep
  }

  /** A concept, no party to a merge and no hub, that loses all its edges. */
  ghost predicate BecomesOrphan(g: Network, ms: seq<Merge>, prunes: seq<Key>, n: Id) {
    && n in g.nodes && g.nodes[n].nodeType == CONCEPT
    && n !in Drops(ms) && n !in Keeps(ms) && !Hub(g, n)
    && forall k | k in g.edges && Mentions(k, n) :: k in prunes
  }

  /** A report made from this graph. */
  ghost predicate IsReport(g: Network, p: Params, r: Report) {
    && (r.TooSmall? <==> |DomainKeys(g)| < MIN_DOMAIN_EDGES)
    && (r.Report? ==>
          && Links(g, Degrees(g), r.merges) && AllJustified(g, p, r.merges) && NothingLeft(g, p, r.merges)
          && Distinct(r.prunes) && (forall k :: k in r.prunes <==> Prunable(g, r.merges, p, k))
          && Distinct(r.orphans) && (forall n :: n in r.orphans <==> BecomesOrphan(g, r.merges, r.prunes, n)))
  }

  // ---- collecting ----

  ghost predicate AreDegrees(edges: map<Key, Edge>, domain: set<Key>, w: map<Id, int>) {
    domain <= edges.Keys && w.Keys == Ends(domain) && forall n | n in w :: w[n] == DegreeOver(edges, domain, n)
  }

  function LayerKeys(edges: map<Key, Edge>, keys: set<Key>, layer: Layer): set<Key> {
    set k | k in keys && k in edges && edges[k].layer == layer
  }

  lemma OneKeyMore(edges: map<Key, Edge>, keys: set<Key>, k: Key)
    requires k in edges
    ensures LayerKeys(edges, keys + {k}, Run)
            == LayerKeys(edges, keys, Run) + (if edges[k].layer == Run then {k} else {})
    ensures LayerKeys(edges, keys + {k}, Domain)
            == LayerKeys(edges, keys, Domain) + (if edges[k].layer == Domain then {k} else {})
  {
  }

  lemma OneEndMore(keys: set<Key>, k: Key)
    ensures Ends(keys + {k}) == Ends(keys) + {k.src, k.dst}
  {
  }

  /** What has been collected once the edges in `done` were looked at. */
  ghost predicate Viewed(edges: map<Key, Edge>, done: set<Key>, domain: set<Key>, run: set<Id>, w: map<Id, int>) {
    domain == LayerKeys(edges, done, Domain) && run == Ends(LayerKeys(edges, done, Run)) && AreDegrees(edges, domain, w)
  }

  lemma ViewedMore(edges: map<Key, Edge>, done: set<Key>, k: Key, domain: set<Key>, run: set<Id>, w: map<Id, int>)
    requires Viewed(edges, done, domain, run, w) && k in edges && k !in done
    ensures edges[k].layer == Run ==> Viewed(edges, done + {k}, domain, run + {k.src, k.dst}, w)
    ensures edges[k].layer == Domain ==>
              var first := w[k.src := DegreeOf(w, k.src) + edges[k].weight];
              Viewed(edges, done + {k}, domain + {k}, run, first[k.dst := DegreeOf(first, k.dst) + edges[k].weight])
  {
    hide AreDegrees, Ends, LayerKeys, DegreeOver;
    OneKeyMore(edges, done, k);
    if edges[k].layer == Run {
      OneEndMore(LayerKeys(edges, done, Run), k);
      assert domain + {} == domain;
    } else {
      NotYet(edges, done, k);
      var first := w[k.src := DegreeOf(w, k.src) + edges[k].weight];
      DegreesAdd(edges, domain, k, w, first[k.dst := DegreeOf(first, k.dst) + edges[k].weight]);
      assert LayerKeys(edges, done, Run) + {} == LayerKeys(edges, done, Run);
    }
  }

  method DomainView(g: Network) returns (domain: set<Key>, run: set<Id>, w: map<Id, int>)
    ensures domain == DomainKeys(g) && run == Ends(RunKeys(g)) && w == Degrees(g)
  {
    domain, run, w := {}, {}, map[];
    var todo := g.edges.Keys;
    ghost var done: set<Key> := {};
    NothingViewed(g.edges);
    AllViewed(g);
    hide Viewed, Degrees, DomainKeys, RunKeys, Ends;
    while todo != {}
      invariant todo <= g.edges.Keys && done == g.edges.Keys - todo
      invariant Viewed(g.edges, done, domain, run, w)
      decreases |todo|
    {
      var k :| k in todo;
      todo := todo - {k};
      var e := g.edges[k];
      ViewedMore(g.edges, done, k, domain, run, w);
      ghost var before := done;
      done := g.edges.Keys - todo;
      assert done == before + {k};
      if e.layer == Run {
        run := run + {k.src, k.dst};
        continue;
      }
      domain := domain + {k};
      w := w[k.src := DegreeOf(w, k.src) + e.weight];
      w := w[k.dst := DegreeOf(w, k.dst) + e.weight];
    }
    assert done == g.edges.Keys;
  }

  lemma NothingViewed(edges: map<Key, Edge>)
    ensures Viewed(edges, {}, {}, {}, map[])
  {
  }

  lemma AllViewed(g: Network)
    ensures forall domain, run, w {:trigger Viewed(g.edges, g.edges.Keys, domain, run, w)} ::
              Viewed(g.edges, g.edges.Keys, domain, run, w) ==>
                domain == DomainKeys(g) && run == Ends(RunKeys(g)) && w == Degrees(g)
  {
    AllLayers(g);
  }

  lemma NotYet(edges: map<Key, Edge>, done: set<Key>, k: Key)
    requires k !in done
    ensures k !in LayerKeys(edges, done, Domain)
  {
  }

  lemma AllLayers(g: Network)
    ensures LayerKeys(g.edges, g.edges.Keys, Domain) == DomainKeys(g)
    ensures LayerKeys(g.edges, g.edges.Keys, Run) == RunKeys(g)
  {
  }

  lemma DegreesAdd(edges: map<Key, Edge>, before: set<Key>, k: Key, was: map<Id, int>, w: map<Id, int>)
    requires k in edges && k !in before && AreDegrees(edges, before, was)
    requires var first := was[k.src := DegreeOf(was, k.src) + edges[k].weight];
             w == first[k.dst := DegreeOf(first, k.dst) + edges[k].weight]
    ensures AreDegrees(edges, before + {k}, w)
  {
    OneEndMore(before, k);
    assert before + {k} - {k} == before;
    forall n | n in w ensures w[n] == DegreeOver(edges, before + {k}, n) {
      DegreeWithout(edges, before + {k}, k, n);
      if n !in was {
        DegreeElsewhere(edges, before, n);
      }
    }
  }

  method SortedSet<T(==, !new)>(less: (T, T) -> bool, s: set<T>) returns (r: seq<T>)
    requires Orders(less, s)
    ensures Sorted(less, r) && Distinct(r) && forall x :: x in r <==> x in s
  {
    var todo := s;
    r := [];
    while todo != {}
      invariant todo <= s && Distinct(r) && forall x :: x in r <==> x in s - todo
      decreases |todo|
    {
      var x :| x in todo;
      todo := todo - {x};
      DistinctMore(r, x);
      r := r + [x];
    }
    SortIsDistinct(less, r);
    SortSorts(less, r, s);
    forall x ensures x in Sort(less, r) <==> x in s { InSort(less, r, x); }
    r := Sort(less, r);
  }

  // ---- variants ----

  /** The candidates by type and variant key. */
  method GroupCandidates(g: Network, candidates: seq<Id>) returns (groups: map<GroupKey, seq<Id>>)
    requires Distinct(candidates) && forall n | n in candidates :: n in g.nodes
    ensures forall k | k in groups :: k.text != "" && Distinct(groups[k])
    ensures forall k, n | k in groups && n in groups[k] :: n in candidates && GroupOf(g, n) == k
    ensures forall n | n in candidates :: GroupOf(g, n).text != "" ==>
              GroupOf(g, n) in groups && n in groups[GroupOf(g, n)]
  {
    hide VariantKey;
    groups := map[];
    for i := 0 to |candidates|
      invariant forall k | k in groups :: k.text != "" && Distinct(groups[k])
      invariant forall k, n | k in groups && n in groups[k] :: n in candidates[..i] && GroupOf(g, n) == k
      invariant forall j :: 0 <= j < i ==>
                  var k := GroupOf(g, candidates[j]); k.text != "" ==> k in groups && candidates[j] in groups[k]
    {
      var n := candidates[i];
      var k := GroupOf(g, n);
      assert candidates[..i + 1] == candidates[..i] + [n];
      if k.text != "" {
        groups := groups[k := (if k in groups then groups[k] else []) + [n]];
      }
    }
    assert candidates[..|candidates|] == candidates;
  }

  predicate GroupLess(a: GroupKey, b: GroupKey) {
    if a.nodeType != b.nodeType then StrLess(a.nodeType, b.nodeType) else StrLess(a.text, b.text)
  }

  lemma GroupsTotal(a: GroupKey, b: GroupKey)
    requires a != b
    ensures GroupLess(a, b) || GroupLess(b, a)
  {
    if a.nodeType != b.nodeType { StrLessIsTotal(a.nodeType, b.nodeType); } else { StrLessIsTotal(a.text, b.text); }
  }

  lemma GroupsAsymmetric(a: GroupKey, b: GroupKey)
    requires GroupLess(a, b)
    ensures a != b && !GroupLess(b, a)
  {
    if a.nodeType != b.nodeType {
      StrLessIsAsymmetric(a.nodeType, b.nodeType);
    } else {
      StrLessIsAsymmetric(a.text, b.text);
    }
  }

  lemma GroupsTransitive(a: GroupKey, b: GroupKey, c: GroupKey)
    requires GroupLess(a, b) && GroupLess(b, c)
    ensures GroupLess(a, c)
  {
    if a.nodeType == b.nodeType == c.nodeType {
      StrLessIsTransitive(a.text, b.text, c.text);
    } else if a.nodeType != b.nodeType && b.nodeType != c.nodeType {
      StrLessIsTransitive(a.nodeType, b.nodeType, c.nodeType);
      StrLessIsAsymmetric(a.nodeType, c.nodeType);
    }
  }

  lemma GroupsOrder(on: set<GroupKey>)
    ensures Orders(GroupLess, on)
  {
    hide GroupLess;
    forall a, b | a in on && b in on && a != b ensures GroupLess(a, b) || GroupLess(b, a) { GroupsTotal(a, b); }
    forall a, b | a in on && b in on && GroupLess(a, b) ensures a != b && !GroupLess(b, a) { GroupsAsymmetric(a, b); }
    forall a, b, c | a in on && b in on && c in on && GroupLess(a, b) && GroupLess(b, c) ensures GroupLess(a, c) {
      GroupsTransitive(a, b, c);
    }
  }

  // ---- merges by variant ----

  /** Every two of these candidates with one variant key: at least one is dropped. */
  ghost predicate GroupsDone(g: Network, ms: seq<Merge>, groups: set<GroupKey>) {
    forall a, b | a in Candidates(g) && b in Candidates(g) && a != b && SameGroup(g, a, b) && GroupOf(g, a) in groups ::
      a in Drops(ms) || b in Drops(ms)
  }

  ghost predicate DropsFrom(g: Network, ms: seq<Merge>, groups: set<GroupKey>) {
    forall n | n in Drops(ms) :: n in g.nodes && GroupOf(g, n) in groups
  }

  lemma OneLinkMore(ms: seq<Merge>, away: map<Id, Id>, m: Merge)
    requires AreLinks(ms, away) && m.drop !in Drops(ms)
    ensures AreLinks(ms + [m], away[m.drop := m.keep])
  {
    assert forall x :: x in ms + [m] <==> x in ms || x == m;
  }

  method StringMerges(g: Network, w: map<Id, int>, candidates: seq<Id>, ghost p: Params)
    returns (ms: seq<Merge>, away: map<Id, Id>)
    requires WellFormed(g) && Distinct(candidates) && forall n :: n in candidates <==> n in Candidates(g)
    ensures Links(g, w, ms) && AllJustified(g, p, ms) && AreLinks(ms, away)
    ensures forall a, b | a in Candidates(g) && b in Candidates(g) && a != b && SameGroup(g, a, b) ::
              a in Drops(ms) || b in Drops(ms)
  {
    hide VariantKey, RankLess, GroupLess, LinkOk;
    CandidatesAreNodes(g);
    var groups := GroupCandidates(g, candidates);
    GroupsOrder(groups.Keys);
    var keys := SortedSet(GroupLess, groups.Keys);
    ms, away := [], map[];
    assert AreLinks(ms, away);
    hide AreLinks;
    ghost var done: set<GroupKey> := {};
    for i := 0 to |keys|
      invariant done == set j | 0 <= j < i :: keys[j]
      invariant Links(g, w, ms) && AllJustified(g, p, ms) && GroupsDone(g, ms, done) && DropsFrom(g, ms, done)
      invariant AreLinks(ms, away)
    {
      assert keys[i] in keys;
      assert keys[i] !in done;
      ms, away := MergeGroup(g, w, groups[keys[i]], keys[i], ms, away, done, p);
      done := done + {keys[i]};
    }
    forall a, b | a in Candidates(g) && b in Candidates(g) && a != b && SameGroup(g, a, b)
      ensures a in Drops(ms) || b in Drops(ms)
    {
      assert a in candidates && GroupOf(g, a) in groups;
      assert GroupOf(g, a) in keys;
      assert GroupOf(g, a) in done;
    }
  }

  lemma CandidatesAreNodes(g: Network)
    requires WellFormed(g)
    ensures forall n | n in Candidates(g) :: n in g.nodes
  {
  }

  lemma JustifiedMore(g: Network, p: Params, ms: seq<Merge>, m: Merge)
    requires AllJustified(g, p, ms) && Justified(g, p, ms, m)
    ensures AllJustified(g, p, ms + [m])
  {
    hide Justified;
    var more := ms + [m];
    forall i | 0 <= i < |more| ensures Justified(g, p, more[..i], more[i]) {
      if i < |ms| {
        assert more[..i] == ms[..i];
      } else {
        assert more[..i] == ms;
      }
    }
  }

  lemma GroupLink(g: Network, w: map<Id, int>, p: Params, ms: seq<Merge>, m: Merge)
    requires Links(g, w, ms) && m.keep !in Drops(ms) && m.drop !in Drops(ms) && !m.semantic
    requires m.keep in Candidates(g) && m.drop in Candidates(g) && SameGroup(g, m.keep, m.drop)
    requires RankLess(w, m.keep, m.drop)
    ensures LinkOk(g, w, ms, m) && Justified(g, p, ms, m)
  {
    hide Links, RankLess, Candidates, VariantKey;
    RankFalls(g, w, ms, m.keep);
    RankFalls(g, w, ms, m.drop);
  }

  /** The first member and those not yet merged have not been dropped. */
  lemma StillThere(g: Network, before: seq<Merge>, done: set<GroupKey>, k: GroupKey, members: seq<Id>, j: nat, i: nat)
    requires DropsFrom(g, before, done) && k !in done && Distinct(members) && i < |members| && j <= |members|
    requires i == 0 || i >= j
    requires members[i] in g.nodes && GroupOf(g, members[i]) == k
    ensures members[i] !in Drops(before) + set u | 1 <= u < j :: members[u]
  {
    hide VariantKey;
  }

  /** All members of a group are merged onto the one ranked first. */
  method MergeGroup(g: Network, w: map<Id, int>, group: seq<Id>, k: GroupKey, before: seq<Merge>, links: map<Id, Id>,
                    ghost done: set<GroupKey>, ghost p: Params) returns (ms: seq<Merge>, away: map<Id, Id>)
    requires WellFormed(g) && k.text != "" && k !in done && Distinct(group)
    requires forall n | n in group :: n in Candidates(g) && n in g.nodes && GroupOf(g, n) == k
    requires forall n | n in Candidates(g) && n in g.nodes && GroupOf(g, n) == k :: n in group
    requires Links(g, w, before) && AllJustified(g, p, before) && GroupsDone(g, before, done)
    requires DropsFrom(g, before, done)
    requires AreLinks(before, links)
    ensures AreLinks(ms, away)
    ensures Links(g, w, ms) && AllJustified(g, p, ms) && GroupsDone(g, ms, done + {k}) && DropsFrom(g, ms, done + {k})
  {
    hide VariantKey, RankLess, Candidates, AreLinks, Links;
    hide LinkOk, AllJustified, Justified, GroupsDone, DropsFrom, Drops;
    var less := (a: Id, b: Id) => RankLess(w, a, b);
    ghost var all := set n | n in group;
    RankOrders(w, all);
    SortSorts(less, group, all);
    SortIsDistinct(less, group);
    var members := Sort(less, group);
    forall n ensures n in members <==> n in group { InSort(less, group, n); }
    ms, away := before, links;
    if |members| < 2 {
      GroupIsDone(g, ms, before, done, k, members);
      return;
    }
    var keep := members[0];
    for j := 1 to |members|
      invariant Links(g, w, ms) && AllJustified(g, p, ms) && AreLinks(ms, away)
      invariant Drops(ms) == Drops(before) + set i | 1 <= i < j :: members[i]
    {
      var m := Merge(keep, members[j], false);
      assert keep in members && members[j] in members;
      StillThere(g, before, done, k, members, j, 0);
      StillThere(g, before, done, k, members, j, j);
      assert less(keep, members[j]);
      GroupLink(g, w, p, ms, m);
      LinksMore(g, w, ms, m);
      JustifiedMore(g, p, ms, m);
      OneLinkMore(ms, away, m);
      ms, away := ms + [m], away[m.drop := keep];
    }
    GroupIsDone(g, ms, before, done, k, members);
  }

  lemma GroupIsDone(g: Network, ms: seq<Merge>, before: seq<Merge>, done: set<GroupKey>, k: GroupKey, members: seq<Id>)
    requires Drops(ms) == Drops(before) + set u | 1 <= u < |members| :: members[u]
    requires forall n | n in members :: n in g.nodes && GroupOf(g, n) == k
    requires forall n | n in Candidates(g) && n in g.nodes && GroupOf(g, n) == k :: n in members
    requires GroupsDone(g, before, done) && DropsFrom(g, before, done)
    ensures GroupsDone(g, ms, done + {k}) && DropsFrom(g, ms, done + {k})
  {
    hide VariantKey, Candidates, Drops;
    forall a, b | a in Candidates(g) && b in Candidates(g) && a != b && SameGroup(g, a, b) && GroupOf(g, a) == k
      ensures a in Drops(ms) || b in Drops(ms)
    {
      assert a in members && b in members;
    }
  }

  // ---- merges by similarity ----

  function PairOf(g: Network, p: Params, a: Id, b: Id): Pair
    requires a in g.nodes && b in g.nodes && p.score.Some?
  {
    Pair(a, b, p.score.value(g.nodes[a].caption, g.nodes[b].caption))
  }

  predicate PairLess(x: Pair, y: Pair) {
    if x.score != y.score then x.score > y.score else if x.a != y.a then StrLess(x.a, y.a) else StrLess(x.b, y.b)
  }

  lemma PairsTotal(x: Pair, y: Pair)
    requires x != y
    ensures PairLess(x, y) || PairLess(y, x)
  {
    if x.a != y.a { StrLessIsTotal(x.a, y.a); } else if x.b != y.b { StrLessIsTotal(x.b, y.b); }
  }

  lemma PairsAsymmetric(x: Pair, y: Pair)
    requires PairLess(x, y)
    ensures x != y && !PairLess(y, x)
  {
    if x.score == y.score {
      if x.a != y.a { StrLessIsAsymmetric(x.a, y.a); } else { StrLessIsAsymmetric(x.b, y.b); }
    }
  }

  lemma PairsTransitive(x: Pair, y: Pair, z: Pair)
    requires PairLess(x, y) && PairLess(y, z)
    ensures PairLess(x, z)
  {
    if x.score == y.score == z.score {
      if x.a == y.a == z.a {
        StrLessIsTransitive(x.b, y.b, z.b);
      } else if x.a != y.a && y.a != z.a {
        StrLessIsTransitive(x.a, y.a, z.a);
        StrLessIsAsymmetric(x.a, z.a);
      }
    }
  }

  lemma PairsOrder(on: set<Pair>)
    ensures Orders(PairLess, on)
  {
    hide PairLess;
    forall x, y | x in on && y in on && x != y ensures PairLess(x, y) || PairLess(y, x) { PairsTotal(x, y); }
    forall x, y | x in on && y in on && PairLess(x, y) ensures x != y && !PairLess(y, x) { PairsAsymmetric(x, y); }
    forall x, y, z | x in on && y in on && z in on && PairLess(x, y) && PairLess(y, z) ensures PairLess(x, z) {
      PairsTransitive(x, y, z);
    }
  }

  /** The more similar come first; of those alike, those with the smaller names. */
  ghost predicate BestFirst(pairs: seq<Pair>) {
    forall i, j :: 0 <= i < j < |pairs| ==>
      var x, y := pairs[i], pairs[j];
      || x.score > y.score
      || (x.score == y.score && (StrLess(x.a, y.a) || (x.a == y.a && (StrLess(x.b, y.b) || x.b == y.b))))
  }

  lemma SortedPairs(found: seq<Pair>)
    ensures BestFirst(Sort(PairLess, found))
    ensures forall x :: x in Sort(PairLess, found) <==> x in found
  {
    hide StrLess, Sort;
    var on := set x | x in found;
    PairsOrder(on);
    SortSorts(PairLess, found, on);
    forall x ensures x in Sort(PairLess, found) <==> x in found { InSort(PairLess, found, x); }
  }

  /** What counts as similar: two concepts, told in the order of their names, that score at least the threshold. */
  lemma SimilarIff(g: Network, p: Params, a: Id, b: Id)
    requires a in g.nodes && b in g.nodes
    ensures Similar(g, p, a, b)
            <==> && g.nodes[a].nodeType == "concept" && g.nodes[b].nodeType == "concept" && StrLess(a, b)
                 && p.score.Some? && p.score.value(g.nodes[a].caption, g.nodes[b].caption) >= p.similarity
  {
  }

  ghost predicate Ascending(nodes: seq<Id>) {
    forall i, j :: 0 <= i < j < |nodes| ==> StrLess(nodes[i], nodes[j])
  }

  /** The similar pairs of the first `i` nodes with later ones, and of the next with those before `j`. */
  ghost predicate PairsTo(g: Network, nodes: seq<Id>, p: Params, i: nat, j: nat, found: seq<Pair>) {
    && (forall x | x in found :: x.a in nodes && x.b in nodes && Similar(g, p, x.a, x.b))
    && forall u, v :: 0 <= u < v < |nodes| && (u < i || (u == i && v < j)) && Similar(g, p, nodes[u], nodes[v]) ==>
                        PairOf(g, p, nodes[u], nodes[v]) in found
  }

  lemma OnePairMore(g: Network, nodes: seq<Id>, p: Params, i: nat, j: nat, found: seq<Pair>)
    requires PairsTo(g, nodes, p, i, j, found) && i < j < |nodes| && nodes[i] in g.nodes && nodes[j] in g.nodes
    ensures Similar(g, p, nodes[i], nodes[j]) ==>
              PairsTo(g, nodes, p, i, j + 1, found + [PairOf(g, p, nodes[i], nodes[j])])
    ensures !Similar(g, p, nodes[i], nodes[j]) ==> PairsTo(g, nodes, p, i, j + 1, found)
  {
    hide Similar;
  }

  lemma NextRow(g: Network, nodes: seq<Id>, p: Params, i: nat, found: seq<Pair>)
    requires i < |nodes|
    ensures PairsTo(g, nodes, p, i, |nodes|, found) ==> PairsTo(g, nodes, p, i + 1, i + 2, found)
    ensures PairsTo(g, nodes, p, 0, 1, [])
  {
    hide Similar;
  }

  /** `_semantic_pairs`: the similar pairs, most similar first; none without an embedder. */
  method SemanticPairs(g: Network, nodes: seq<Id>, p: Params) returns (pairs: seq<Pair>)
    requires Ascending(nodes) && forall n | n in nodes :: n in g.nodes && g.nodes[n].nodeType == CONCEPT
    ensures forall x | x in pairs :: x.a in nodes && x.b in nodes && Similar(g, p, x.a, x.b)
    ensures forall a, b | a in nodes && b in nodes && Similar(g, p, a, b) :: PairOf(g, p, a, b) in pairs
    ensures BestFirst(pairs)
    ensures p.score.Some? ==> forall a, b | a in nodes && b in nodes && StrLess(a, b) ::
              p.score.value(g.nodes[a].caption, g.nodes[b].caption) >= p.similarity <==> Similar(g, p, a, b)
  {
    hide StrLess, PairLess, Ascending, PairsTo, BestFirst, Similar;
    forall a, b | a in nodes && b in nodes
      ensures Similar(g, p, a, b) <==> StrLess(a, b) && p.score.Some?
                                       && p.score.value(g.nodes[a].caption, g.nodes[b].caption) >= p.similarity
    {
      SimilarIff(g, p, a, b);
    }
    if |nodes| < 2 || p.score.None? {
      NoPairs(g, nodes, p);
      NoneAreBest();
      return [];
    }
    var found: seq<Pair> := [];
    NextRow(g, nodes, p, 0, []);
    for i := 0 to |nodes|
      invariant PairsTo(g, nodes, p, i, i + 1, found)
    {
      for j := i + 1 to |nodes|
        invariant PairsTo(g, nodes, p, i, j, found)
      {
        var s := p.score.value(g.nodes[nodes[i]].caption, g.nodes[nodes[j]].caption);
        AscendingAt(nodes, i, j);
        OnePairMore(g, nodes, p, i, j, found);
        if s >= p.similarity {
          found := found + [Pair(nodes[i], nodes[j], s)];
        }
      }
      NextRow(g, nodes, p, i, found);
    }
    AllPairsFound(g, nodes, p, found);
    pairs := Sort(PairLess, found);
    SortedPairs(found);
  }

  lemma AscendingAt(nodes: seq<Id>, i: nat, j: nat)
    requires Ascending(nodes) && i < j < |nodes|
    ensures StrLess(nodes[i], nodes[j])
  {
    hide StrLess;
  }

  lemma NoneAreBest()
    ensures BestFirst([])
  {
  }

  lemma NoPairs(g: Network, nodes: seq<Id>, p: Params)
    requires |nodes| < 2 || p.score.None?
    ensures forall a, b | a in nodes && b in nodes :: !Similar(g, p, a, b)
  {
    hide StrLess;
    forall a, b | a in nodes && b in nodes ensures !Similar(g, p, a, b) {
      if a == b && StrLess(a, b) {
        StrLessIsAsymmetric(a, b);
      }
    }
  }

  lemma AllPairsFound(g: Network, nodes: seq<Id>, p: Params, found: seq<Pair>)
    requires Ascending(nodes) && forall n | n in nodes :: n in g.nodes && g.nodes[n].nodeType == CONCEPT
    requires PairsTo(g, nodes, p, |nodes|, |nodes| + 1, found)
    ensures forall x | x in found :: x.a in nodes && x.b in nodes && Similar(g, p, x.a, x.b)
    ensures forall a, b | a in nodes && b in nodes && Similar(g, p, a, b) :: PairOf(g, p, a, b) in found
  {
    hide StrLess;
    forall a, b | a in nodes && b in nodes && Similar(g, p, a, b) ensures PairOf(g, p, a, b) in found {
      var u, v :| 0 <= u < |nodes| && nodes[u] == a && 0 <= v < |nodes| && nodes[v] == b;
      assert v < u ==> StrLess(nodes[v], nodes[u]);
      StrLessIsAsymmetric(a, b);
    }
  }

  ghost predicate Joined(ms: seq<Merge>, pairs: seq<Pair>, n: nat) {
    forall i :: 0 <= i < n && i < |pairs| ==> Resolve(ms, pairs[i].a) == Resolve(ms, pairs[i].b)
  }

  lemma JoinedMore(ms: seq<Merge>, m: Merge, pairs: seq<Pair>, n: nat)
    requires Joined(ms, pairs, n)
    ensures Joined(ms + [m], pairs, n)
  {
    hide Resolve;
    forall i | 0 <= i < n && i < |pairs| ensures Resolve(ms + [m], pairs[i].a) == Resolve(ms + [m], pairs[i].b) {
      ResolveMore(ms, m, pairs[i].a);
      ResolveMore(ms, m, pairs[i].b);
    }
  }

  lemma NoneJoined(ms: seq<Merge>, pairs: seq<Pair>)
    ensures Joined(ms, pairs, 0)
  {
  }

  lemma JoinedAlready(ms: seq<Merge>, pairs: seq<Pair>, n: nat)
    requires Joined(ms, pairs, n) && n < |pairs| && Resolve(ms, pairs[n].a) == Resolve(ms, pairs[n].b)
    ensures Joined(ms, pairs, n + 1)
  {
    hide Resolve;
  }

  lemma JoinedAt(ms: seq<Merge>, pairs: seq<Pair>, i: nat)
    requires Joined(ms, pairs, |pairs|) && i < |pairs|
    ensures Resolve(ms, pairs[i].a) == Resolve(ms, pairs[i].b)
  {
    hide Resolve;
  }

  /** The two roots of a similar pair may be linked, the higher-ranked one onto the other. */
  lemma LinkRoots(g: Network, w: map<Id, int>, p: Params, ms: seq<Merge>, a: Id, b: Id, m: Merge)
    requires WellFormed(g) && Links(g, w, ms) && Similar(g, p, a, b) && a in Candidates(g) && b in Candidates(g)
    requires Resolve(ms, a) != Resolve(ms, b) && m.semantic
    requires if RankLess(w, Resolve(ms, a), Resolve(ms, b)) then m.keep == Resolve(ms, a) && m.drop == Resolve(ms, b)
             else m.keep == Resolve(ms, b) && m.drop == Resolve(ms, a)
    ensures LinkOk(g, w, ms, m) && Justified(g, p, ms, m) && m.drop !in Drops(ms)
    ensures Resolve(ms + [m], a) == Resolve(ms + [m], b)
  {
    hide RankLess, Candidates, Resolve, StrLess;
    RankIsTotal(w, Resolve(ms, a), Resolve(ms, b));
    ClassesKeepTypes(g, w, ms, a);
    ClassesKeepTypes(g, w, ms, b);
    RankFalls(g, w, ms, a);
    RankFalls(g, w, ms, b);
    ResolveTwice(g, w, ms, a);
    ResolveTwice(g, w, ms, b);
    CandidatesAreNodes(g);
    ResolveMore(ms, m, a);
    ResolveMore(ms, m, b);
    assert SimilarRoots(g, p, ms, m, a, b);
  }

  method SemanticMerges(g: Network, w: map<Id, int>, candidates: seq<Id>, before: seq<Merge>, links: map<Id, Id>,
                        p: Params)
    returns (ms: seq<Merge>, away: map<Id, Id>)
    requires WellFormed(g) && Ascending(candidates) && forall n :: n in candidates <==> n in Candidates(g)
    requires Links(g, w, before) && AllJustified(g, p, before) && AreLinks(before, links)
    ensures Links(g, w, ms) && AllJustified(g, p, ms) && AreLinks(ms, away) && Drops(before) <= Drops(ms)
    ensures forall a, b | a in Candidates(g) && b in Candidates(g) && Similar(g, p, a, b)
                        && a !in Drops(before) && b !in Drops(before) ::
              Resolve(ms, a) == Resolve(ms, b)
  {
    hide RankLess, Candidates, LinkOk, Justified, Resolve, StrLess, Links, AllJustified, AreLinks, Joined, Drops;
    CandidatesAreNodes(g);
    var nodes := ConceptsLeft(g, candidates, before, links);
    var pairs := SemanticPairs(g, nodes, p);
    ms, away := before, links;
    NoneJoined(ms, pairs);
    for i := 0 to |pairs|
      invariant Links(g, w, ms) && AllJustified(g, p, ms) && AreLinks(ms, away) && Drops(before) <= Drops(ms)
      invariant Joined(ms, pairs, i)
    {
      assert pairs[i] in pairs;
      var ra := FollowLinks(g, w, ms, away, pairs[i].a);
      var rb := FollowLinks(g, w, ms, away, pairs[i].b);
      if ra == rb {
        JoinedAlready(ms, pairs, i);
        continue;
      }
      var m := if RankLess(w, ra, rb) then Merge(ra, rb, true) else Merge(rb, ra, true);
      LinkRoots(g, w, p, ms, pairs[i].a, pairs[i].b, m);
      LinksMore(g, w, ms, m);
      JustifiedMore(g, p, ms, m);
      OneLinkMore(ms, away, m);
      JoinedMore(ms, m, pairs, i);
      JoinedAlready(ms + [m], pairs, i);
      ms, away := ms + [m], away[m.drop := m.keep];
    }
    forall a, b | a in Candidates(g) && b in Candidates(g) && Similar(g, p, a, b)
                        && a !in Drops(before) && b !in Drops(before)
      ensures Resolve(ms, a) == Resolve(ms, b)
    {
      assert a in nodes && b in nodes;
      var i :| 0 <= i < |pairs| && pairs[i] == PairOf(g, p, a, b);
      JoinedAt(ms, pairs, i);
    }
  }

  /** The concepts among the candidates that are not merged away, in their order. */
  method ConceptsLeft(g: Network, candidates: seq<Id>, ghost ms: seq<Merge>, away: map<Id, Id>) returns (nodes: seq<Id>)
    requires Ascending(candidates) && (forall n | n in candidates :: n in g.nodes) && AreLinks(ms, away)
    ensures Ascending(nodes)
    ensures forall n :: n in nodes <==> n in candidates && g.nodes[n].nodeType == CONCEPT && n !in Drops(ms)
  {
    hide StrLess;
    nodes := [];
    for i := 0 to |candidates|
      invariant Ascending(nodes)
      invariant forall n :: n in nodes <==> n in candidates[..i] && g.nodes[n].nodeType == CONCEPT && n !in Drops(ms)
    {
      var n := candidates[i];
      assert candidates[..i + 1] == candidates[..i] + [n];
      if g.nodes[n].nodeType == CONCEPT && n !in away {
        forall k | 0 <= k < |nodes| ensures StrLess(nodes[k], n) {
          assert nodes[k] in candidates[..i];
        }
        nodes := nodes + [n];
      }
    }
    assert candidates[..|candidates|] == candidates;
  }

  // ---- hubs ----

  lemma HubsOrder(w: map<Id, int>)
    ensures Orders((a: Id, b: Id) => HubLess(w, a, b), w.Keys)
  {
    hide StrLess, DegreeOf;
    var less := (a: Id, b: Id) => HubLess(w, a, b);
    forall a, b | a in w && b in w && a != b ensures less(a, b) || less(b, a) { StrLessIsTotal(a, b); }
    forall a, b | a in w && b in w && less(a, b) ensures a != b && !less(b, a) {
      if DegreeOf(w, a) == DegreeOf(w, b) { StrLessIsAsymmetric(a, b); }
    }
    forall a, b, c | a in w && b in w && c in w && less(a, b) && less(b, c) ensures less(a, c) {
      if DegreeOf(w, a) == DegreeOf(w, b) == DegreeOf(w, c) { StrLessIsTransitive(a, b, c); }
    }
  }

  lemma {:induction false} HowMany(s: seq<Id>, i: nat)
    requires Distinct(s) && i <= |s|
    ensures |set j | 0 <= j < i :: s[j]| == i
  {
    if i > 0 {
      HowMany(s, i - 1);
      assert (set j | 0 <= j < i :: s[j]) == (set j | 0 <= j < i - 1 :: s[j]) + {s[i - 1]};
    }
  }

  lemma PlacesAgree(w: map<Id, int>, ranked: seq<Id>, i: nat, j: nat)
    requires i < |ranked| && j < |ranked| && Distinct(ranked) && Sorted((a: Id, b: Id) => HubLess(w, a, b), ranked)
    requires forall n :: n in ranked <==> n in w.Keys
    ensures HubLess(w, ranked[j], ranked[i]) <==> j < i
  {
    hide HubLess;
    HubsOrder(w);
    var less := (a: Id, b: Id) => HubLess(w, a, b);
    assert ranked[i] in ranked && ranked[j] in ranked;
    if j < i {
      assert less(ranked[j], ranked[i]);
    } else if i < j {
      assert less(ranked[i], ranked[j]);
    }
  }

  lemma PlaceInOrder(w: map<Id, int>, ranked: seq<Id>, i: nat)
    requires i < |ranked| && Distinct(ranked) && Sorted((a: Id, b: Id) => HubLess(w, a, b), ranked)
    requires forall n :: n in ranked <==> n in w.Keys
    ensures |Before(w, ranked[i])| == i
  {
    hide HubLess;
    var front := set j | 0 <= j < i :: ranked[j];
    forall m ensures m in Before(w, ranked[i]) <==> m in front {
      assert ranked[i] in ranked;
      if m in Before(w, ranked[i]) {
        var j :| 0 <= j < |ranked| && ranked[j] == m;
        PlacesAgree(w, ranked, i, j);
      }
      if m in front {
        var j :| 0 <= j < i && ranked[j] == m;
        PlacesAgree(w, ranked, i, j);
        assert ranked[j] in ranked;
      }
    }
    assert Before(w, ranked[i]) == front;
    HowMany(ranked, i);
  }

  /** What has been collected of the counted edges while the edges in `todo` are still to come. */
  ghost predicate Counting(g: Network, todo: set<Key>, w: map<Id, int>) {
    exists domain, run :: Viewed(Counted(g).edges, Counted(g).edges.Keys - todo, domain, run, w)
  }

  lemma CountingStarts(g: Network)
    ensures Counting(g, g.edges.Keys, map[])
  {
    var c := Counted(g).edges;
    NothingViewed(c);
    assert c.Keys - g.edges.Keys == {};
    assert Viewed(c, c.Keys - g.edges.Keys, {}, {}, map[]);
  }

  lemma CountingEnds(g: Network, w: map<Id, int>)
    requires Counting(g, {}, w)
    ensures w == Degrees(Counted(g))
  {
    AllViewed(Counted(g));
    var c := Counted(g).edges;
    assert c.Keys - {} == c.Keys;
  }

  lemma CountingMore(g: Network, todo: set<Key>, k: Key, w: map<Id, int>)
    requires Counting(g, todo, w) && k in todo && k in g.edges
    ensures var e, first := g.edges[k], w[k.src := DegreeOf(w, k.src) + g.edges[k].weight];
            Counting(g, todo - {k},
                     if e.weight < MIN_HUB_WEIGHT || e.layer == Run then w
                     else first[k.dst := DegreeOf(first, k.dst) + e.weight])
  {
    hide Viewed;
    var c, e := Counted(g).edges, g.edges[k];
    var domain, run :| Viewed(c, c.Keys - todo, domain, run, w);
    if e.weight < MIN_HUB_WEIGHT {
      assert c.Keys - (todo - {k}) == c.Keys - todo;
      assert Viewed(c, c.Keys - (todo - {k}), domain, run, w);
    } else {
      assert c.Keys - (todo - {k}) == c.Keys - todo + {k};
      ViewedMore(c, c.Keys - todo, k, domain, run, w);
    }
  }

  /** `_weighted_degrees`, for the domain layer and weights of 1 or more */
  method WeightedDegrees(g: Network) returns (w: map<Id, int>)
    ensures w == Degrees(Counted(g))
  {
    hide Counting, Degrees, Counted;
    w := map[];
    var todo := g.edges.Keys;
    CountingStarts(g);
    while todo != {}
      invariant todo <= g.edges.Keys && Counting(g, todo, w)
      decreases |todo|
    {
      var k :| k in todo;
      CountingMore(g, todo, k, w);
      todo := todo - {k};
      var e := g.edges[k];
      if e.weight < MIN_HUB_WEIGHT || e.layer == Run {
        continue;
      }
      w := w[k.src := DegreeOf(w, k.src) + e.weight];
      w := w[k.dst := DegreeOf(w, k.dst) + e.weight];
    }
    CountingEnds(g, w);
  }

  /** A hub has a greater degree than what is none, or the same and a smaller name. */
  lemma HubsComeFirst(w: map<Id, int>, a: Id, b: Id)
    requires IsHub(w, a) && b in w && !IsHub(w, b)
    ensures w[a] > w[b] || (w[a] == w[b] && StrLess(a, b))
  {
    HubsOrder(w);
    var less := (x: Id, y: Id) => HubLess(w, x, y);
    if !less(a, b) {
      assert a != b && less(b, a);
      assert forall m | m in w.Keys && less(m, b) :: less(m, a);
      SubsetSize(Before(w, b), Before(w, a));
    }
  }

  lemma AsMany(s: seq<Id>)
    requires Distinct(s)
    ensures |set n | n in s| == |s|
    decreases |s|
  {
    if s != [] {
      var front, last := s[..|s| - 1], s[|s| - 1];
      assert s == front + [last];
      AsMany(front);
      assert (set n | n in s) == (set n | n in front) + {last};
    }
  }

  /** `top_nodes`, for the domain layer: twenty, or all there are if these are fewer, and none of the
      others has a greater degree. */
  method TopNodes(g: Network) returns (hubs: set<Id>)
    ensures forall n :: n in hubs <==> Hub(g, n)
    ensures var w := Degrees(Counted(g));
            && |hubs| == (if |w| < 20 then |w| else 20)
            && forall a, b | a in hubs && b in w && b !in hubs ::
                 a in w && (w[a] > w[b] || (w[a] == w[b] && StrLess(a, b)))
  {
    hide HubLess, Before, Degrees, StrLess;
    var w := WeightedDegrees(g);
    HubsOrder(w);
    var ranked := SortedSet((a: Id, b: Id) => HubLess(w, a, b), w.Keys);
    var top := if |ranked| > HUB_PROTECT then ranked[..HUB_PROTECT] else ranked;
    hubs := set n | n in top;
    forall n ensures n in hubs <==> IsHub(w, n) {
      if n in w {
        var i :| 0 <= i < |ranked| && ranked[i] == n;
        PlaceInOrder(w, ranked, i);
        assert n in top <==> i < HUB_PROTECT;
      }
    }
    AsMany(ranked);
    AsMany(top);
    assert (set n | n in ranked) == w.Keys;
    forall a, b | a in hubs && b in w && b !in hubs ensures w[a] > w[b] || (w[a] == w[b] && StrLess(a, b)) {
      HubsComeFirst(w, a, b);
    }
  }

  // ---- prunes and orphans ----

  lemma DistinctNone<T(!new)>()
    ensures Distinct<T>([])
  {
  }

  lemma DistinctMore<T(!new)>(s: seq<T>, x: T)
    requires Distinct(s) && x !in s
    ensures Distinct(s + [x])
  {
  }

  method FindPrunes(g: Network, ghost w: map<Id, int>, ms: seq<Merge>, away: map<Id, Id>, hubs: set<Id>,
                    domain: set<Key>, p: Params)
    returns (prunes: seq<Key>)
    requires Links(g, w, ms) && AreLinks(ms, away) && domain == DomainKeys(g)
    requires forall n :: n in hubs <==> Hub(g, n)
    ensures Distinct(prunes) && forall k :: k in prunes <==> Prunable(g, ms, p, k)
  {
    hide Hub, Links, Resolve, Distinct;
    assert Distinct<Key>([]) by { DistinctNone<Key>(); }
    prunes := [];
    var todo := domain;
    while todo != {}
      invariant todo <= domain && Distinct(prunes)
      invariant forall k :: k in prunes <==> k in domain - todo && Prunable(g, ms, p, k)
      decreases |todo|
    {
      var k :| k in todo;
      todo := todo - {k};
      var e := g.edges[k];
      if e.weight >= p.minKeep {
        continue;
      }
      if e.last.None? || e.last.value == 0 {
        continue;
      }
      if p.now - e.last.value <= p.staleAfter || k.src in hubs || k.dst in hubs {
        continue;
      }
      var rs := FollowLinks(g, w, ms, away, k.src);
      var rd := FollowLinks(g, w, ms, away, k.dst);
      if rs != k.src || rd != k.dst {
        continue;
      }
      assert k !in prunes;
      DistinctMore(prunes, k);
      prunes := prunes + [k];
    }
  }

  method FindOrphans(g: Network, ms: seq<Merge>, prunes: seq<Key>, hubs: set<Id>) returns (orphans: seq<Id>)
    requires forall n :: n in hubs <==> Hub(g, n)
    ensures Distinct(orphans) && forall n :: n in orphans <==> BecomesOrphan(g, ms, prunes, n)
  {
    hide Hub, Drops, Keeps;
    var parties := Drops(ms) + Keeps(ms);
    var found: set<Id> := {};
    var todo := g.nodes.Keys;
    while todo != {}
      invariant todo <= g.nodes.Keys
      invariant forall n :: n in found <==> n in g.nodes.Keys - todo && BecomesOrphan(g, ms, prunes, n)
      decreases |todo|
    {
      var n :| n in todo;
      todo := todo - {n};
      if g.nodes[n].nodeType != CONCEPT || n in parties || n in hubs {
        continue;
      }
      var incident := set k | k in g.edges && Mentions(k, n);
      if forall k | k in incident :: k in prunes {
        found := found + {n};
      }
    }
    StringsOrder(found);
    orphans := SortedSet(StrLess, found);
  }

  /** `distill_report` */
  method DistillReport(g: Network, p: Params) returns (r: Report)
    requires WellFormed(g)
    ensures IsReport(g, p, r)
    ensures r.TooSmall? <==> |DomainKeys(g)| < 10
  {
    hide Degrees, Links, AllJustified, Hub, Prunable, BecomesOrphan, SameGroup, Similar, Candidates, Ends;
    var domain, run, w := DomainView(g);
    if |domain| < MIN_DOMAIN_EDGES {
      return TooSmall;
    }
    CandidatesFrom(g);
    CandidatesAreNodes(g);
    StringsOrder(w.Keys - run);
    var candidates := SortedSet(StrLess, w.Keys - run);
    SortedAscends(candidates);
    var variants, links := StringMerges(g, w, candidates, p);
    var ms, away := SemanticMerges(g, w, candidates, variants, links, p);
    LeavesNothing(g, w, p, variants, ms);
    var hubs := TopNodes(g);
    var prunes := FindPrunes(g, w, ms, away, hubs, domain, p);
    var orphans := FindOrphans(g, ms, prunes, hubs);
    return Report(ms, prunes, orphans);
  }

  lemma CandidatesFrom(g: Network)
    ensures Degrees(g).Keys - Ends(RunKeys(g)) == Candidates(g)
  {
  }

  lemma SortedAscends(s: seq<Id>)
    requires Sorted(StrLess, s) && Distinct(s)
    ensures Ascending(s)
  {
  }

  lemma LeavesNothing(g: Network, w: map<Id, int>, p: Params, variants: seq<Merge>, ms: seq<Merge>)
    requires Links(g, w, ms) && Drops(variants) <= Drops(ms)
    requires forall a, b | a in Candidates(g) && b in Candidates(g) && a != b && SameGroup(g, a, b) ::
               a in Drops(variants) || b in Drops(variants)
    requires forall a, b | a in Candidates(g) && b in Candidates(g) && Similar(g, p, a, b)
                        && a !in Drops(variants) && b !in Drops(variants) ::
               Resolve(ms, a) == Resolve(ms, b)
    ensures NothingLeft(g, p, ms)
  {
    hide Candidates, Links, SameGroup, Similar, Resolve;
    forall a, b | a in Candidates(g) && b in Candidates(g) && a != b && (SameGroup(g, a, b) || Similar(g, p, a, b))
      ensures Resolve(ms, a) != a || Resolve(ms, b) != b
    {
      RankFalls(g, w, ms, a);
      RankFalls(g, w, ms, b);
    }
  }
}
