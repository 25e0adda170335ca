/** Graphs on which a distillation does less, or more, than it is meant to (knowledge/distill.py).
    Each has ten edges between twenty busy nodes, which are the hubs, and a few more. */
module DistillCases {
  import opened Collections
  import opened Wrappers
  import opened Text
  import opened Slugs
  import opened Sorting
  import opened Identifiers
  import opened Networks
  import opened Quotients
  import opened Consolidation
  import opened DistillReports
  import opened Distills
  import opened GraphFiles

  // ---- the hubs

  function Letter(i: nat): Id
    requires i < 26
  {
    [(97 + i) as char]
  }

  function HubKey(i: nat): Key
    requires i < 10
  {
    Key(Letter(i + 1), Letter(i + 11), "uses")
  }

  function HubKeys(n: nat): set<Key>
    requires n <= 10
  {
    set i: nat | 0 <= i < n :: HubKey(i)
  }

  function HubIds(): set<Id> {
    Ends(HubKeys(10))
  }

  lemma LettersDiffer(i: nat, j: nat)
    requires i < 26 && j < 26
    ensures Letter(i) == Letter(j) <==> i == j
    ensures StrLess(Letter(i), Letter(j)) <==> i < j
  {
    assert Letter(i)[0] == (97 + i) as char && Letter(j)[0] == (97 + j) as char;
    assert Letter(i)[1..] == "" && Letter(j)[1..] == "";
  }

  lemma HubKeyAt(n: nat, k: Key) returns (i: nat)
    requires n <= 10 && k in HubKeys(n)
    ensures i < n && k == HubKey(i)
  {
    i :| 0 <= i < n && k == HubKey(i);
  }

  lemma HubIdAt(n: nat, x: Id) returns (i: nat, side: nat)
    requires n <= 10 && x in Ends(HubKeys(n))
    ensures i < n && (side == 1 || side == 11) && x == Letter(i + side) && Mentions(HubKey(i), x)
  {
    hide Letter;
    var k :| k in HubKeys(n) && Mentions(k, x);
    i := HubKeyAt(n, k);
    assert k == Key(Letter(i + 1), Letter(i + 11), "uses");
    assert Mentions(k, x);
    assert k.src == x || k.dst == x;
    side := if k.src == x then 1 else 11;
  }

  lemma OneHubMore(n: nat)
    requires n < 10
    ensures HubKey(n) == Key(Letter(n + 1), Letter(n + 11), "uses")
    ensures HubKey(n) !in HubKeys(n) && HubKeys(n + 1) == HubKeys(n) + {HubKey(n)}
    ensures HubKey(n).src !in Ends(HubKeys(n)) && HubKey(n).dst !in Ends(HubKeys(n)) && HubKey(n).src != HubKey(n).dst
    ensures Ends(HubKeys(n + 1)) == Ends(HubKeys(n)) + {HubKey(n).src, HubKey(n).dst}
  {
    hide Letter;
    LettersDiffer(n + 1, n + 11);
    forall x | x in Ends(HubKeys(n)) ensures x != HubKey(n).src && x != HubKey(n).dst {
      var i, side := HubIdAt(n, x);
      LettersDiffer(i + side, n + 1);
      LettersDiffer(i + side, n + 11);
    }
    assert HubKey(n) in HubKeys(n) ==> HubKey(n).src in Ends(HubKeys(n));
    forall k ensures k in HubKeys(n + 1) <==> k in HubKeys(n) || k == HubKey(n) {
    }
  }

  lemma {:induction false} HowManyHubs(n: nat)
    requires n <= 10
    ensures |HubKeys(n)| == n && |Ends(HubKeys(n))| == 2 * n
  {
    hide HubKey;
    if n > 0 {
      OneHubMore(n - 1);
      HowManyHubs(n - 1);
    }
  }

  /** A node that all hubs come before is none. */
  lemma Outranked(w: map<Id, int>, n: Id)
    requires forall h | h in HubIds() :: h in w && HubLess(w, h, n)
    ensures !IsHub(w, n)
  {
    hide HubLess;
    HowManyHubs(10);
    SubsetSize(HubIds(), Before(w, n));
  }

  // ---- degrees

  lemma {:induction false} DegreeSplits(edges: map<Key, Edge>, a: set<Key>, b: set<Key>, n: Id)
    requires a !! b && a + b <= edges.Keys
    ensures DegreeOver(edges, a + b, n) == DegreeOver(edges, a, n) + DegreeOver(edges, b, n)
    decreases |b|
  {
    if b == {} {
      assert a + b == a;
    } else {
      var k :| k in b;
      DegreeWithout(edges, a + b, k, n);
      DegreeWithout(edges, b, k, n);
      assert a + b - {k} == a + (b - {k});
      DegreeSplits(edges, a, b - {k}, n);
    }
  }

  /** The edges of the hubs, all alike, and a few others. */
  function Around(e: Edge, few: map<Key, Edge>): map<Key, Edge> {
    (map k | k in HubKeys(10) :: e) + few
  }

  /** The others are between other nodes, and all are edges of the domain layer of weight 1 or more. */
  ghost predicate Aside(e: Edge, few: map<Key, Edge>) {
    && e.layer == Domain && e.weight >= 1
    && forall k | k in few :: k.src !in HubIds() && k.dst !in HubIds()
                              && few[k].layer == Domain && few[k].weight >= 1
  }

  lemma AroundHas(e: Edge, few: map<Key, Edge>)
    requires Aside(e, few)
    ensures var edges := Around(e, few);
            && edges.Keys == HubKeys(10) + few.Keys && HubKeys(10) !! few.Keys
            && (forall k | k in HubKeys(10) :: edges[k] == e) && (forall k | k in few :: edges[k] == few[k])
            && (forall k | k in HubKeys(10) :: k.src in HubIds() && k.dst in HubIds())
  {
    hide HubKeys;
  }

  lemma HubDegree(edges: map<Key, Edge>, e: Edge, n: Id)
    requires HubKeys(10) <= edges.Keys && (forall k | k in HubKeys(10) :: edges[k] == e) && n in HubIds()
    ensures DegreeOver(edges, HubKeys(10), n) == e.weight
  {
    hide Letter;
    var i, side := HubIdAt(10, n);
    var k := HubKey(i);
    assert k in HubKeys(10);
    LettersDiffer(i + 1, i + 11);
    DegreeWithout(edges, HubKeys(10), k, n);
    forall x | x in HubKeys(10) - {k} ensures !Mentions(x, n) {
      var u := HubKeyAt(10, x);
      LettersDiffer(u + 1, i + side);
      LettersDiffer(u + 11, i + side);
    }
    DegreeElsewhere(edges, HubKeys(10) - {k}, n);
  }

  lemma DegreeAround(e: Edge, few: map<Key, Edge>, n: Id)
    requires Aside(e, few) && HubKeys(10) + few.Keys <= Around(e, few).Keys
    ensures DegreeOver(Around(e, few), HubKeys(10) + few.Keys, n)
            == if n in HubIds() then e.weight else DegreeOver(Around(e, few), few.Keys, n)
  {
    AroundHas(e, few);
    var edges := Around(e, few);
    hide HubKeys, Around;
    DegreeSplits(edges, HubKeys(10), few.Keys, n);
    if n in HubIds() {
      HubDegree(edges, e, n);
      DegreeElsewhere(edges, few.Keys, n);
    } else {
      DegreeElsewhere(edges, HubKeys(10), n);
    }
  }

  /** All edges are of the domain layer and count, and there are enough of them. */
  lemma AroundIsDomain(g: Network, e: Edge, few: map<Key, Edge>)
    requires g.edges == Around(e, few) && Aside(e, few)
    ensures Counted(g) == g && DomainKeys(g) == HubKeys(10) + few.Keys && RunKeys(g) == {}
    ensures g.edges.Keys == HubKeys(10) + few.Keys
    ensures |DomainKeys(g)| >= MIN_DOMAIN_EDGES
  {
    AroundHas(e, few);
    HowManyHubs(10);
    hide HubKeys, Around, Ends;
    forall k | k in g.edges ensures g.edges[k].layer == Domain && g.edges[k].weight >= 1 {
      assert k in HubKeys(10) || k in few;
    }
    AllDomain(g);
    hide DomainKeys, Counted, RunKeys;
    SubsetSize(HubKeys(10), DomainKeys(g));
  }

  lemma AllDomain(g: Network)
    requires forall k | k in g.edges :: g.edges[k].layer == Domain && g.edges[k].weight >= 1
    ensures Counted(g) == g && DomainKeys(g) == g.edges.Keys && RunKeys(g) == {}
  {
    assert Counted(g).edges == g.edges;
  }

  lemma EndsAround(few: set<Key>)
    ensures Ends(HubKeys(10) + few) == HubIds() + Ends(few)
  {
    hide HubKeys;
  }

  lemma FewAreAside(e: Edge, few: map<Key, Edge>)
    requires Aside(e, few)
    ensures forall n | n in Ends(few.Keys) :: n !in HubIds()
  {
    hide HubIds;
  }

  lemma AroundDegrees(g: Network, e: Edge, few: map<Key, Edge>)
    requires g.edges == Around(e, few) && Aside(e, few)
    ensures Degrees(g).Keys == HubIds() + Ends(few.Keys) && few.Keys <= g.edges.Keys
    ensures forall n | n in HubIds() :: Degrees(g)[n] == e.weight
    ensures forall n | n in Ends(few.Keys) :: Degrees(g)[n] == DegreeOver(g.edges, few.Keys, n)
  {
    AroundIsDomain(g, e, few);
    EndsAround(few.Keys);
    FewAreAside(e, few);
    hide HubKeys, Around, Ends, HubIds, Aside;
    forall n | n in Degrees(g)
      ensures Degrees(g)[n] == if n in HubIds() then e.weight else DegreeOver(g.edges, few.Keys, n)
    {
      DegreeAround(e, few, n);
    }
  }

  // ---- who may be merged

  lemma NoStopword(s: string)
    requires (|s| == 1 && s[0] != 'a') || (|s| > 1 && s[0] == 'z')
    ensures s !in STOPWORDS
  {
    forall w | w in STOPWORDS ensures w != s {
      assert w[0] != 'z' && (|w| > 1 || w[0] == 'a');
    }
  }

  /** A short token that is no stopword stands for itself. */
  lemma ShortToken(s: string, rest: seq<string>)
    requires 0 < |s| < 3 && s !in STOPWORDS
    ensures JoinTokens([s] + rest, true) == s + JoinTokens(rest, true)
  {
    assert ([s] + rest)[1..] == rest;
  }

  lemma ShortKey(s: string)
    requires 0 < |s| < 3 && s !in STOPWORDS && '-' !in s
    ensures VariantKey(s, CONCEPT) == s
  {
    SplitWhole(s, '-');
    ShortToken(s, []);
    assert [s] + [] == [s] && s + "" == s;
  }

  lemma LetterKey(i: nat)
    requires 0 < i < 26
    ensures VariantKey(Letter(i), CONCEPT) == Letter(i) && |Letter(i)| == 1
  {
    var s := Letter(i);
    assert s[0] == (97 + i) as char && |s| == 1 && '-' !in s;
    NoStopword(s);
    ShortKey(s);
  }

  /** Letters and, maybe, two spellings of one name. */
  ghost predicate Spelled(n: Id) {
    n == "zz" || n == "z-z" || exists i: nat :: 0 < i < 26 && n == Letter(i)
  }

  lemma SpellingKeys()
    ensures VariantKey("zz", CONCEPT) == "zz" && VariantKey("z-z", CONCEPT) == "zz"
  {
    NoStopword("zz");
    ShortKey("zz");
    NoStopword("z");
    SplitWhole("z", '-');
    assert "z-z"[1..] == "-z" && "-z"[1..] == "z";
    assert Split("-z", '-') == ["", "z"];
    assert Split("z-z", '-') == ["z", "z"] == ["z"] + ["z"];
    ShortToken("z", ["z"]);
    ShortToken("z", []);
    assert ["z"] + [] == ["z"] && "z" + "z" == "zz" && "z" + "" == "z";
  }

  lemma KeysApart(a: Id, b: Id)
    requires Spelled(a) && Spelled(b) && a != b && VariantKey(a, CONCEPT) == VariantKey(b, CONCEPT)
    ensures (a == "zz" && b == "z-z") || (a == "z-z" && b == "zz")
  {
    hide Letter, VariantKey;
    SpellingKeys();
    if i: nat :| 0 < i < 26 && a == Letter(i) {
      LetterKey(i);
    }
    if j: nat :| 0 < j < 26 && b == Letter(j) {
      LetterKey(j);
    }
  }

  lemma HubIsSpelled(n: Id)
    requires n in HubIds()
    ensures Spelled(n) && n != "x" && n != "y" && n != "z" && n != "zz" && n != "z-z"
  {
    var i, side := HubIdAt(10, n);
    assert n == Letter(i + side) && n[0] == (97 + i + side) as char && |n| == 1;
    assert "x"[0] == 120 as char && "y"[0] == 121 as char && "z"[0] == 122 as char;
  }

  lemma OthersAreSpelled()
    ensures Spelled("x") && Spelled("y") && Spelled("z") && Spelled("zz") && Spelled("z-z")
    ensures Letter(24) == "y" && Letter(25) == "z"
  {
    assert Letter(23) == "x" && Letter(24) == "y" && Letter(25) == "z";
  }

  /** All nodes are concepts with such names, and nothing is known about what is alike. */
  ghost predicate Plain(g: Network, p: Params) {
    && WellFormed(g) && p.score.None?
    && forall n | n in g.nodes :: g.nodes[n].nodeType == CONCEPT && Spelled(n)
  }

  lemma OnlySpellings(g: Network, p: Params, a: Id, b: Id)
    requires Plain(g, p) && a != b && (SameGroup(g, a, b) || Similar(g, p, a, b))
    ensures (a == "zz" && b == "z-z") || (a == "z-z" && b == "zz")
  {
    hide VariantKey, StrLess;
    KeysApart(a, b);
  }

  const SPELLINGS: Merge := Merge("zz", "z-z", false)

  lemma SpellingsLink(g: Network, p: Params)
    requires Plain(g, p) && "zz" in Candidates(g) && "z-z" in Candidates(g) && "zz" in g.nodes && "z-z" in g.nodes
    requires RankLess(Degrees(g), "zz", "z-z")
    ensures LinkOk(g, Degrees(g), [], SPELLINGS) && Justified(g, p, [], SPELLINGS)
  {
    hide RankLess, Candidates, VariantKey, Degrees, Spelled;
    SpellingKeys();
  }

  ghost predicate OnlySpellingMoves() {
    forall n :: Resolve([SPELLINGS], n) == if n == "z-z" then "zz" else n
  }

  lemma SpellingMoves()
    ensures OnlySpellingMoves() && Drops([SPELLINGS]) == {"z-z"} && Keeps([SPELLINGS]) == {"zz"}
  {
    var ms := [SPELLINGS];
    forall n ensures Resolve(ms, n) == if n == "z-z" then "zz" else n {
      assert ms[..0] == [] && Resolve([], n) == n;
    }
  }

  /** When the two spellings are there, and the shorter ranks first, merging them is all there is. */
  lemma SpellingsMerge(g: Network, p: Params)
    requires Plain(g, p) && "zz" in Candidates(g) && "z-z" in Candidates(g) && "zz" in g.nodes && "z-z" in g.nodes
    requires RankLess(Degrees(g), "zz", "z-z")
    ensures Links(g, Degrees(g), [SPELLINGS]) && AllJustified(g, p, [SPELLINGS]) && NothingLeft(g, p, [SPELLINGS])
    ensures OnlySpellingMoves() && Drops([SPELLINGS]) == {"z-z"} && Keeps([SPELLINGS]) == {"zz"}
  {
    hide *;
    SpellingMoves();
    SpellingsLink(g, p);
    OneLink(g, p, SPELLINGS);
    NothingElse(g, p);
  }

  lemma OneLink(g: Network, p: Params, m: Merge)
    requires LinkOk(g, Degrees(g), [], m) && Justified(g, p, [], m)
    ensures Links(g, Degrees(g), [m]) && AllJustified(g, p, [m])
  {
    hide LinkOk, Justified, Degrees;
    assert [m][..0] == [];
  }

  lemma NothingElse(g: Network, p: Params)
    requires Plain(g, p) && OnlySpellingMoves()
    ensures NothingLeft(g, p, [SPELLINGS])
  {
    hide Resolve, Candidates, SameGroup, Similar, Plain;
    forall a, b | a in Candidates(g) && b in Candidates(g) && a != b && (SameGroup(g, a, b) || Similar(g, p, a, b))
      ensures Resolve([SPELLINGS], a) != a || Resolve([SPELLINGS], b) != b
    {
      OnlySpellings(g, p, a, b);
    }
  }

  ghost predicate HasEdge(g: Network, prunes: seq<Key>, n: Id) {
    exists k :: k in g.edges && Mentions(k, n) && k !in prunes
  }

  /** Heavy edges are not pruned. */
  lemma HeavyStays(g: Network, ms: seq<Merge>, p: Params, light: seq<Key>)
    requires forall k | k in g.edges && k !in light :: g.edges[k].weight >= p.minKeep
    ensures forall k :: Prunable(g, ms, p, k) ==> k in light
  {
    hide Hub, Resolve;
  }

  /** Nobody loses all edges when each node has one that is not pruned. */
  lemma NoOrphans(g: Network, ms: seq<Merge>, prunes: seq<Key>)
    requires forall n | n in g.nodes :: HasEdge(g, prunes, n)
    ensures forall n :: !BecomesOrphan(g, ms, prunes, n)
  {
    hide Hub, Keeps, Drops;
    forall n ensures !BecomesOrphan(g, ms, prunes, n) {
      if n in g.nodes { assert HasEdge(g, prunes, n); }
    }
  }

  lemma MakeReport(g: Network, p: Params, ms: seq<Merge>, prunes: seq<Key>, orphans: seq<Id>)
    requires |DomainKeys(g)| >= MIN_DOMAIN_EDGES
    requires Links(g, Degrees(g), ms) && AllJustified(g, p, ms) && NothingLeft(g, p, ms)
    requires Distinct(prunes) && forall k :: k in prunes <==> Prunable(g, ms, p, k)
    requires Distinct(orphans) && forall n :: n in orphans <==> BecomesOrphan(g, ms, prunes, n)
    ensures IsReport(g, p, Report(ms, prunes, orphans))
  {
    hide Degrees, Links, AllJustified, NothingLeft, Prunable, BecomesOrphan, DomainKeys, Distinct;
  }

  function Concepts(ids: set<Id>): map<Id, Node> {
    map n | n in ids :: Node(CONCEPT, n, map[])
  }

  lemma ConceptsAreSpelled(g: Network, p: Params, others: set<Id>)
    requires WellFormed(g) && p.score.None? && g.nodes == Concepts(HubIds() + others)
    requires others <= {"x", "y", "z", "zz", "z-z"}
    ensures Plain(g, p)
  {
    hide HubIds, Spelled;
    OthersAreSpelled();
    forall n | n in g.nodes ensures Spelled(n) {
      if n in HubIds() { HubIsSpelled(n); }
    }
  }

  lemma NoHubNames(s: Id)
    requires s in {"x", "y", "z", "zz", "z-z"}
    ensures s !in HubIds()
  {
    if s in HubIds() { HubIsSpelled(s); }
  }

  /** The hubs and their edges, with a few other edges between other nodes. */
  function Case(e: Edge, few: map<Key, Edge>, others: set<Id>): Network {
    Network(Concepts(HubIds() + others), Around(e, few))
  }

  /** What all such graphs have in common. */
  ghost predicate IsCase(g: Network, p: Params, e: Edge, few: map<Key, Edge>) {
    && Plain(g, p) && g.edges == Around(e, few) && Aside(e, few)
    && g.edges.Keys == HubKeys(10) + few.Keys && (forall k | k in HubKeys(10) :: g.edges[k] == e)
    && (forall k | k in few :: g.edges[k] == few[k])
    && |DomainKeys(g)| >= MIN_DOMAIN_EDGES && Counted(g) == g
  }

  lemma CaseIs(e: Edge, few: map<Key, Edge>, others: set<Id>, p: Params)
    requires Aside(e, few) && p.score.None? && Ends(few.Keys) == others <= {"x", "y", "z", "zz", "z-z"}
    ensures var g := Case(e, few, others);
            IsCase(g, p, e, few) && Candidates(g) == g.nodes.Keys == HubIds() + others
  {
    hide HubKeys, HubIds, Around, DomainKeys, Ends, Concepts, Aside, RunKeys, WellFormed, Candidates, Counted, Plain;
    var g := Case(e, few, others);
    AroundHas(e, few);
    AroundIsDomain(g, e, few);
    EndsAround(few.Keys);
    ConceptIds(HubIds() + others);
    CandidatesAre(g);
    CaseIsWellFormed(g);
    ConceptsAreSpelled(g, p, others);
  }

  lemma ConceptIds(ids: set<Id>)
    ensures Concepts(ids).Keys == ids
  {
  }

  lemma CandidatesAre(g: Network)
    requires RunKeys(g) == {}
    ensures Candidates(g) == Ends(DomainKeys(g))
  {
    hide RunKeys, DomainKeys;
    assert Ends({}) == {};
  }

  lemma CaseIsWellFormed(g: Network)
    requires Ends(g.edges.Keys) <= g.nodes.Keys
    ensures WellFormed(g)
  {
    forall k | k in g.edges ensures k.src in g.nodes && k.dst in g.nodes {
      assert k.src in Ends(g.edges.Keys) && k.dst in Ends(g.edges.Keys);
    }
  }

  lemma HubHasEdge(g: Network, p: Params, e: Edge, few: map<Key, Edge>, prunes: seq<Key>, n: Id)
    requires IsCase(g, p, e, few) && n in HubIds() && forall k | k in prunes :: k in few
    ensures HasEdge(g, prunes, n)
  {
    AroundHas(e, few);
    hide Around, Plain, Aside, DomainKeys, Counted;
    var i, side := HubIdAt(10, n);
    var k := HubKey(i);
    assert k in HubKeys(10) && k !in few;
    assert k in g.edges && Mentions(k, n) && k !in prunes;
  }

  // ---- what a report leaves

  lemma Unmentioned(h: Network, n: Id)
    requires forall k | k in h.edges :: !Mentions(k, n)
    ensures !Hub(h, n)
  {
    hide DegreeOver, HubLess;
    if n in Degrees(Counted(h)) {
      var k :| k in DomainKeys(Counted(h)) && Mentions(k, n);
    }
  }

  lemma HubKeyEnds(k: Key)
    requires k in HubKeys(10)
    ensures k.src in HubIds() && k.dst in HubIds() && k.src != k.dst
  {
    var i := HubKeyAt(10, k);
    LettersDiffer(i + 1, i + 11);
  }

  lemma QuotientHas(edges: map<Key, Edge>, ms: seq<Merge>, now: map<Key, Edge>, k: Key)
    requires IsQuotient(edges, ms, now)
    ensures k in now <==> SomeLands(edges, ms, k)
    ensures k in now && k in edges && Lands(edges, ms, k, k) ==> now[k].layer == edges[k].layer
  {
    hide SomeLands, GreatestIs, Lands;
  }

  lemma LargeReport(h: Network, q: Params, r: Report)
    requires IsReport(h, q, r) && |DomainKeys(h)| >= MIN_DOMAIN_EDGES
    ensures r.Report?
  {
    hide DomainKeys, Prunable, BecomesOrphan, Degrees, Links, AllJustified, NothingLeft;
  }

  lemma PlainHas(g: Network, p: Params, n: Id)
    requires Plain(g, p) && n in g.nodes
    ensures WellFormed(g) && g.nodes[n].nodeType == CONCEPT
  {
  }

  lemma EachOnce(k: Key)
    ensures Distinct([k]) && Distinct<Id>([]) && Distinct(["y", "z"]) && k in [k]
    ensures KeyNamed(k) ==> AllNamed(Report([SPELLINGS], [k], []))
    ensures MergesNamed(Report([SPELLINGS], [k], [])) && MergesNamed(Report([], [k], ["y", "z"]))
  {
  }

  // ---- a light edge that becomes heavy and is pruned all the same

  const LIGHT: Key := Key("y", "zz", "uses")
  const HEAVY: Key := Key("y", "z-z", "uses")
  const OTHER: Key := Key("x", "zz", "uses")

  function Told(weight: int, time: int): Edge {
    Edge(Domain, weight, Some(time), Some(time), [], [], map[])
  }

  function LightAndHeavy(time: int): map<Key, Edge> {
    map[LIGHT := Told(1, time), HEAVY := Told(2, time), OTHER := Told(2, time)]
  }

  /** An edge to one spelling, stale and light, and the same edge to the other, not light. */
  function BothSpellings(time: int): Network {
    Case(Told(9, time), LightAndHeavy(time), {"x", "y", "zz", "z-z"})
  }

  lemma ThreeShares(edges: map<Key, Edge>, n: Id)
    requires {LIGHT, HEAVY, OTHER} <= edges.Keys
    ensures DegreeOver(edges, {LIGHT, HEAVY, OTHER}, n)
            == Share(LIGHT, edges[LIGHT], n) + Share(HEAVY, edges[HEAVY], n) + Share(OTHER, edges[OTHER], n)
  {
    var all := {LIGHT, HEAVY, OTHER};
    DegreeWithout(edges, all, LIGHT, n);
    assert all - {LIGHT} == {HEAVY, OTHER};
    DegreeWithout(edges, {HEAVY, OTHER}, HEAVY, n);
    assert {HEAVY, OTHER} - {HEAVY} == {OTHER};
    DegreeWithout(edges, {OTHER}, OTHER, n);
    assert {OTHER} - {OTHER} == {};
  }

  lemma LightAndHeavyAside(time: int)
    ensures Aside(Told(9, time), LightAndHeavy(time)) && LightAndHeavy(time).Keys == {LIGHT, HEAVY, OTHER}
    ensures Ends({LIGHT, HEAVY, OTHER}) == {"x", "y", "zz", "z-z"}
  {
    NoHubNames("x");
    NoHubNames("y");
    NoHubNames("zz");
    NoHubNames("z-z");
    hide HubIds;
  }

  lemma BothSpellingsAre(time: int, p: Params)
    requires p.score.None?
    ensures var g := BothSpellings(time);
            && IsCase(g, p, Told(9, time), LightAndHeavy(time))
            && Candidates(g) == g.nodes.Keys == HubIds() + {"x", "y", "zz", "z-z"}
            && (forall k | k in LightAndHeavy(time) :: k in g.edges && g.edges[k] == LightAndHeavy(time)[k])
  {
    assert BothSpellings(time) == Case(Told(9, time), LightAndHeavy(time), {"x", "y", "zz", "z-z"});
    hide *;
    LightAndHeavyAside(time);
    CaseIs(Told(9, time), LightAndHeavy(time), {"x", "y", "zz", "z-z"}, p);
    var g := BothSpellings(time);
    CaseFew(g, p, Told(9, time), LightAndHeavy(time));
  }

  lemma CaseFew(g: Network, p: Params, e: Edge, few: map<Key, Edge>)
    requires IsCase(g, p, e, few)
    ensures forall k | k in few :: k in g.edges && g.edges[k] == few[k]
    ensures g.edges == Around(e, few) && Aside(e, few) && Plain(g, p) && |DomainKeys(g)| >= MIN_DOMAIN_EDGES
    ensures Counted(g) == g && g.edges.Keys == HubKeys(10) + few.Keys
    ensures forall k | k in g.edges :: k in HubKeys(10) || k in few
    ensures forall k | k in HubKeys(10) :: k in g.edges && g.edges[k] == e
  {
    hide Around, Aside, Plain, DomainKeys, HubKeys, Counted;
  }

  lemma BothSpellingsDegrees(time: int, p: Params)
    requires p.score.None?
    ensures var w := Degrees(BothSpellings(time));
            && {"x", "y", "zz", "z-z"} <= w.Keys && w["y"] == 3 && w["zz"] == 3 && w["z-z"] == 2
            && HubIds() <= w.Keys && forall h | h in HubIds() :: w[h] == 9
  {
    var g, few := BothSpellings(time), LightAndHeavy(time);
    hide *;
    BothSpellingsAre(time, p);
    CaseFew(g, p, Told(9, time), few);
    AroundDegrees(g, Told(9, time), few);
    LightAndHeavyAside(time);
    ThreeDegrees(g, time);
    ToldIs(9, time);
  }

  lemma ToldIs(weight: int, time: int)
    ensures Told(weight, time).weight == weight && Told(weight, time).layer == Domain
    ensures Told(weight, time).last == Some(time)
  {
  }

  lemma ThreeDegrees(g: Network, time: int)
    requires forall k | k in LightAndHeavy(time) :: k in g.edges && g.edges[k] == LightAndHeavy(time)[k]
    ensures {LIGHT, HEAVY, OTHER} <= g.edges.Keys
    ensures DegreeOver(g.edges, {LIGHT, HEAVY, OTHER}, "y") == 3
    ensures DegreeOver(g.edges, {LIGHT, HEAVY, OTHER}, "zz") == 3
    ensures DegreeOver(g.edges, {LIGHT, HEAVY, OTHER}, "z-z") == 2
  {
    hide DegreeOver;
    assert LIGHT in LightAndHeavy(time) && HEAVY in LightAndHeavy(time) && OTHER in LightAndHeavy(time);
    ThreeShares(g.edges, "y");
    ThreeShares(g.edges, "zz");
    ThreeShares(g.edges, "z-z");
  }

  lemma LighterIsNoHub(g: Network, n: Id)
    requires Counted(g) == g && n in Degrees(g) && Degrees(g)[n] < 9
    requires HubIds() <= Degrees(g).Keys && forall h | h in HubIds() :: Degrees(g)[h] == 9
    ensures !Hub(g, n)
  {
    hide HubIds, Degrees, Counted, StrLess;
    Outranked(Degrees(g), n);
  }

  lemma LightIsPrunable(time: int, p: Params)
    requires p.score.None? && p.minKeep == 2 && time != 0 && p.now - time > p.staleAfter
    ensures var g := BothSpellings(time);
            && (forall k :: k in [LIGHT] <==> Prunable(g, [SPELLINGS], p, k))
            && (forall n | n in g.nodes :: HasEdge(g, [LIGHT], n))
            && "zz" in Candidates(g) && "z-z" in Candidates(g) && "zz" in g.nodes && "z-z" in g.nodes
            && RankLess(Degrees(g), "zz", "z-z") && Plain(g, p) && |DomainKeys(g)| >= MIN_DOMAIN_EDGES
  {
    var g, few := BothSpellings(time), LightAndHeavy(time);
    hide *;
    BothSpellingsAre(time, p);
    BothSpellingsDegrees(time, p);
    CaseFew(g, p, Told(9, time), few);
    LightAndHeavyAside(time);
    LighterIsNoHub(g, "y");
    LighterIsNoHub(g, "zz");
    SpellingMoves();
    OnlyLight(g, p, time);
    forall n | n in g.nodes ensures HasEdge(g, [LIGHT], n) {
      if n in HubIds() {
        HubHasEdge(g, p, Told(9, time), few, [LIGHT], n);
      } else {
        FewHaveEdges(g, n);
      }
    }
    HeavierFirst(Degrees(g), "zz", "z-z");
  }

  lemma HeavierFirst(w: map<Id, int>, a: Id, b: Id)
    requires a in w && b in w && w[a] > w[b]
    ensures RankLess(w, a, b)
  {
  }

  lemma FewHaveEdges(g: Network, n: Id)
    requires {HEAVY, OTHER} <= g.edges.Keys && n in {"x", "y", "zz", "z-z"}
    ensures HasEdge(g, [LIGHT], n)
  {
    var k := if n == "y" || n == "z-z" then HEAVY else OTHER;
    assert k in g.edges && Mentions(k, n) && k !in [LIGHT];
  }

  lemma OnlyLight(g: Network, p: Params, time: int)
    requires p.minKeep == 2 && time != 0 && p.now - time > p.staleAfter && OnlySpellingMoves()
    requires forall k | k in g.edges :: k in HubKeys(10) || k in LightAndHeavy(time)
    requires forall k | k in LightAndHeavy(time) :: k in g.edges && g.edges[k] == LightAndHeavy(time)[k]
    requires forall k | k in HubKeys(10) :: k in g.edges && g.edges[k] == Told(9, time)
    requires !Hub(g, "y") && !Hub(g, "zz")
    ensures forall k :: k in [LIGHT] <==> Prunable(g, [SPELLINGS], p, k)
  {
    hide Hub, HubKeys, Resolve;
    assert LIGHT in LightAndHeavy(time);
    assert Resolve([SPELLINGS], "y") == "y" && Resolve([SPELLINGS], "zz") == "zz";
    assert Prunable(g, [SPELLINGS], p, LIGHT);
    HeavyStays(g, [SPELLINGS], p, [LIGHT]);
  }

  lemma HeavyReport(time: int, p: Params)
    requires p.score.None? && p.minKeep == 2 && time != 0 && p.now - time > p.staleAfter
    ensures var g := BothSpellings(time);
            WellFormed(g) && IsReport(g, p, Report([SPELLINGS], [LIGHT], [])) && OnlySpellingMoves()
  {
    hide *;
    var g := BothSpellings(time);
    LightIsPrunable(time, p);
    SpellingsMerge(g, p);
    NoOrphans(g, [SPELLINGS], [LIGHT]);
    EachOnce(LIGHT);
    PlainHas(g, p, "zz");
    MakeReport(g, p, [SPELLINGS], [LIGHT], []);
  }

  /** The light one is proposed as a prune and the other spelling as a merge.  The merge makes the
      light one heavy enough to be kept; it is removed as proposed. */
  lemma HeavyIsPruned(time: int, p: Params)
    requires p.score.None? && p.minKeep == 2 && time != 0 && p.now - time > p.staleAfter
    ensures var g, r := BothSpellings(time), Report([SPELLINGS], [LIGHT], []);
            && WellFormed(g) && IsReport(g, p, r)
            && LIGHT in AfterMerges(g, r.merges).edges && AfterMerges(g, r.merges).edges[LIGHT].weight >= p.minKeep
            && LIGHT !in Applied(g, r).edges
  {
    var g, r := BothSpellings(time), Report([SPELLINGS], [LIGHT], []);
    EachOnce(LIGHT);
    assert KeyNamed(LIGHT);
    hide *;
    HeavyReport(time, p);
    BothSpellingsAre(time, p);
    HeavyLands(g, time);
    PrunedThoughHeavyIff(g, p, r, LIGHT);
  }

  lemma HeavyLands(g: Network, time: int)
    requires OnlySpellingMoves()
    requires forall k | k in LightAndHeavy(time) :: k in g.edges && g.edges[k] == LightAndHeavy(time)[k]
    ensures Lands(g.edges, [SPELLINGS], HEAVY, LIGHT) && HEAVY in g.edges && g.edges[HEAVY].weight == 2
  {
    hide Resolve;
    assert HEAVY in LightAndHeavy(time);
    assert Resolve([SPELLINGS], "y") == "y" && Resolve([SPELLINGS], "z-z") == "zz";
  }

  /** The light edge and the heavy one meet, so "y" is left without edges. */
  lemma NothingElseLands(edges: map<Key, Edge>, k: Key)
    requires edges.Keys == HubKeys(10) + {LIGHT, HEAVY, OTHER} && OnlySpellingMoves()
    requires SomeLands(edges, [SPELLINGS], k) && Mentions(k, "y")
    ensures k == LIGHT
  {
    hide HubKeys, Resolve;
    var o :| Lands(edges, [SPELLINGS], o, k);
    NoHubNames("y");
    NoHubNames("z-z");
    if o in HubKeys(10) {
      HubKeyEnds(o);
    }
  }

  lemma HubEdgesStay(g: Network, r: Report, h: Network)
    requires r.Report? && r.merges == [SPELLINGS] && r.prunes == [LIGHT] && OnlySpellingMoves()
    requires HubKeys(10) <= g.edges.Keys && forall k | k in HubKeys(10) :: g.edges[k].layer == Domain
    requires IsQuotient(g.edges, r.merges, AfterMerges(g, r.merges).edges)
    requires h.edges == AfterMerges(g, r.merges).edges - Carried(r)
    ensures |DomainKeys(h)| >= MIN_DOMAIN_EDGES
  {
    hide HubKeys, Resolve, AfterMerges, IsQuotient;
    NoHubNames("y");
    NoHubNames("z-z");
    forall k | k in HubKeys(10) ensures k in DomainKeys(h) {
      HubKeyEnds(k);
      QuotientHas(g.edges, r.merges, AfterMerges(g, r.merges).edges, k);
      assert Lands(g.edges, r.merges, k, k);
      assert SomeLands(g.edges, r.merges, k);
    }
    HowManyHubs(10);
    SubsetSize(HubKeys(10), DomainKeys(h));
  }

  /** Nothing was proposed for the node that had both; but a second pass, on whatever terms, finds
      it without any edge and removes it. */
  lemma SecondPassRemoves(time: int, p: Params, q: Params, second: Report)
    requires p.score.None? && p.minKeep == 2 && time != 0 && p.now - time > p.staleAfter
    requires q.score == p.score && q.similarity == p.similarity
    requires IsReport(Applied(BothSpellings(time), Report([SPELLINGS], [LIGHT], [])), q, second)
    ensures IsReport(BothSpellings(time), p, Report([SPELLINGS], [LIGHT], []))
    ensures second.Report? && "y" in second.orphans
  {
    var g, r := BothSpellings(time), Report([SPELLINGS], [LIGHT], []);
    EachOnce(LIGHT);
    hide *;
    HeavyReport(time, p);
    FreshReportLeaves(g, p, r);
    BothSpellingsAre(time, p);
    CaseFew(g, p, Told(9, time), LightAndHeavy(time));
    LightAndHeavyAside(time);
    ToldIs(9, time);
    PlainHas(g, p, "y");
    HubEdgesStay(g, r, Applied(g, r));
    LargeReport(Applied(g, r), q, second);
    YIsBare(g, r, q);
    SecondReportIs(g, p, r, q, second);
  }

  lemma YIsBare(g: Network, r: Report, q: Params)
    requires r == Report([SPELLINGS], [LIGHT], []) && OnlySpellingMoves()
    requires g.edges.Keys == HubKeys(10) + {LIGHT, HEAVY, OTHER}
    requires "y" in g.nodes && g.nodes["y"].nodeType == CONCEPT
    requires IsQuotient(g.edges, r.merges, AfterMerges(g, r.merges).edges)
    requires Applied(g, r).edges == AfterMerges(g, r.merges).edges - Carried(r)
    ensures Bare(g, r, q, "y")
  {
    SpellingMoves();
    hide Hub, HubKeys, Applied, AfterMerges, IsQuotient, SomeLands, Resolve, Leftover, Drops;
    assert LIGHT in Carried(r);
    forall k | SomeLands(g.edges, r.merges, k) && Mentions(k, "y") ensures k == LIGHT { NothingElseLands(g.edges, k); }
    forall k | k in Applied(g, r).edges ensures !Mentions(k, "y") {
      QuotientHas(g.edges, r.merges, AfterMerges(g, r.merges).edges, k);
    }
    Unmentioned(Applied(g, r), "y");
  }

  // ---- a relation without a name

  /** Letters are word characters in lower case, and no agent or file is called by a single one. */
  ghost predicate Latin(st: Setting) {
    && AlphabetOk(st.alphabet)
    && forall c | 'a' <= c <= 'z' ::
         st.alphabet.isWord(c) && st.alphabet.settled(c) && st.infer([c]) == CONCEPT
  }

  lemma LetterIsCanonical(st: Setting, i: nat)
    requires Latin(st) && i < 26
    ensures Canonical(st.alphabet, Letter(i)) == Letter(i) && st.infer(Letter(i)) == CONCEPT
  {
    var al, s, c := st.alphabet, Letter(i), (97 + i) as char;
    assert 'a' <= c <= 'z' && s == [c] && !IsSpace(c) && c != '_' && c != '-';
    assert al.isWord(c) && al.settled(c) && st.infer([c]) == CONCEPT;
    NothingToStrip(s);
    assert al.lower(s) == s by { assert AllSettled(al, s); }
    NothingMatches(IsGap, s);
    NothingMatches(x => IsPunctuation(al, x), s);
    NothingMatches(IsHyphen, s);
    assert TrimRight(TrimLeft(s)) == s;
    hide HyphenRuns, Strip;
    NormalizedStays(al, s);
  }

  /** A fact about two letters that are new. */
  lemma NewFact(st: Setting, g: Network, i: nat, j: nat, relation: string, now: int)
    requires Latin(st) && WellFormed(g) && i < 26 && j < 26 && i != j
    requires Letter(i) !in g.nodes && Letter(j) !in g.nodes
    ensures var a, b := Letter(i), Letter(j);
            WithFact(st, g, a, relation, b, CONCEPT, Domain, "", "", now)
            == Network(g.nodes[a := Node(CONCEPT, a, map[])][b := Node(CONCEPT, b, map[])],
                       g.edges[Key(a, b, relation) := Told(1, now)])
  {
    hide Latin, AlphabetOk;
    var a, b := Letter(i), Letter(j);
    LettersDiffer(i, j);
    LetterIsCanonical(st, i);
    LetterIsCanonical(st, j);
    ShownAsIs(i);
    ShownAsIs(j);
    hide Letter, Canonical, Latin, Shown;
    assert Key(a, b, relation) !in g.edges;
  }

  lemma ShownAsIs(i: nat)
    requires i < 26
    ensures Shown(Letter(i), Letter(i)) == Letter(i)
  {
    var s := Letter(i);
    assert !IsSpace(s[0]) && |s| == 1;
    NothingToStrip(s);
  }

  /** The graph after the facts about the hubs. */
  function Hubbed(st: Setting, n: nat, now: int): Network
    requires n <= 10
  {
    if n == 0 then EMPTY
    else WithFact(st, Hubbed(st, n - 1, now), HubKey(n - 1).src, "uses", HubKey(n - 1).dst,
                  CONCEPT, Domain, "", "", now)
  }

  function HubEdges(n: nat, e: Edge): map<Key, Edge>
    requires n <= 10
  {
    map k | k in HubKeys(n) :: e
  }

  lemma {:induction false} HubbedIs(st: Setting, n: nat, now: int)
    requires Latin(st) && n <= 10
    ensures Hubbed(st, n, now) == Network(Concepts(Ends(HubKeys(n))), HubEdges(n, Told(1, now)))
  {
    hide *;
    if n == 0 {
      HubbedNone(st, now);
    } else {
      HubbedIs(st, n - 1, now);
      OneHubMore(n - 1);
      ConceptIds(Ends(HubKeys(n - 1)));
      HubEdgesEnd(n - 1, Told(1, now));
      NewFact(st, Hubbed(st, n - 1, now), n, n + 10, "uses", now);
      HubbedStep(st, n, now);
      TwoMore(Ends(HubKeys(n - 1)), Letter(n), Letter(n + 10));
      OneEdgeMore(n - 1, Told(1, now));
    }
  }

  lemma HubbedNone(st: Setting, now: int)
    ensures Hubbed(st, 0, now) == Network(Concepts(Ends(HubKeys(0))), HubEdges(0, Told(1, now)))
  {
    assert HubKeys(0) == {} && Ends({}) == {};
  }

  lemma HubbedStep(st: Setting, n: nat, now: int)
    requires 0 < n <= 10
    ensures Hubbed(st, n, now)
            == WithFact(st, Hubbed(st, n - 1, now), Letter(n), "uses", Letter(n + 10), CONCEPT, Domain, "", "", now)
  {
    hide WithFact, Letter;
  }

  lemma HubEdgesEnd(n: nat, e: Edge)
    requires n <= 10
    ensures WellFormed(Network(Concepts(Ends(HubKeys(n))), HubEdges(n, e)))
  {
    hide HubKeys;
    CaseIsWellFormed(Network(Concepts(Ends(HubKeys(n))), HubEdges(n, e)));
  }

  lemma TwoMore(ids: set<Id>, a: Id, b: Id)
    ensures Concepts(ids + {a, b}) == Concepts(ids)[a := Node(CONCEPT, a, map[])][b := Node(CONCEPT, b, map[])]
  {
  }

  lemma OneEdgeMore(n: nat, e: Edge)
    requires n < 10
    ensures HubEdges(n + 1, e) == HubEdges(n, e)[HubKey(n) := e]
  {
    OneHubMore(n);
    hide HubKeys, HubKey;
  }

  const NAMELESS: Key := Key("y", "z", "")

  /** ... and then one with an empty relation. */
  function WithNameless(st: Setting, early: int, late: int): Network {
    WithFact(st, Hubbed(st, 10, late), "y", "", "z", CONCEPT, Domain, "", "", early)
  }

  lemma NamelessFact(st: Setting, early: int, late: int)
    ensures WithNameless(st, early, late)
            == WithFact(st, Hubbed(st, 10, late), Letter(24), "", Letter(25), CONCEPT, Domain, "", "", early)
    ensures NAMELESS == Key(Letter(24), Letter(25), "")
  {
    OthersAreSpelled();
    hide WithFact, Hubbed, Letter;
  }

  lemma AroundNameless(e: Edge, f: Edge)
    ensures Case(e, map[NAMELESS := f], {"y", "z"})
            == Network(Concepts(HubIds() + {"y", "z"}), HubEdges(10, e)[NAMELESS := f])
  {
    hide HubKeys, HubIds, Concepts;
  }

  lemma WithNamelessIs(st: Setting, early: int, late: int)
    requires Latin(st)
    ensures WithNameless(st, early, late) == Case(Told(1, late), map[NAMELESS := Told(1, early)], {"y", "z"})
  {
    assert HubIds() == Ends(HubKeys(10));
    hide *;
    NamelessFact(st, early, late);
    OthersAreSpelled();
    NoHubNames("y");
    NoHubNames("z");
    HubbedIs(st, 10, late);
    HubEdgesEnd(10, Told(1, late));
    ConceptIds(HubIds());
    NewFact(st, Hubbed(st, 10, late), 24, 25, "", early);
    TwoMore(HubIds(), "y", "z");
    AroundNameless(Told(1, late), Told(1, early));
  }

  lemma NamelessCase(st: Setting, early: int, late: int, p: Params)
    requires Latin(st) && p.score.None?
    ensures var g := WithNameless(st, early, late);
            && IsCase(g, p, Told(1, late), map[NAMELESS := Told(1, early)])
            && Candidates(g) == g.nodes.Keys == HubIds() + {"y", "z"}
            && map[NAMELESS := Told(1, early)].Keys == {NAMELESS}
  {
    hide Latin, WithNameless;
    var e, few := Told(1, late), map[NAMELESS := Told(1, early)];
    WithNamelessIs(st, early, late);
    NoHubNames("y");
    NoHubNames("z");
    assert few.Keys == {NAMELESS};
    NamelessShares(map[]);
    assert Aside(e, few) by { hide HubIds; }
    hide *;
    CaseIs(e, few, {"y", "z"}, p);
  }

  lemma NamelessShares(edges: map<Key, Edge>)
    ensures Ends({NAMELESS}) == {"y", "z"}
    ensures NAMELESS in edges ==>
              forall n | n in {"y", "z"} :: DegreeOver(edges, {NAMELESS}, n) == edges[NAMELESS].weight
  {
    if NAMELESS in edges {
      DegreeWithout(edges, {NAMELESS}, NAMELESS, "y");
      DegreeWithout(edges, {NAMELESS}, NAMELESS, "z");
      assert {NAMELESS} - {NAMELESS} == {};
    }
  }

  /** The ends of that edge are no hubs: as busy as the hubs, but later in the alphabet. */
  lemma LaterIsNoHub(g: Network, n: Id)
    requires Counted(g) == g && n in {"y", "z"} && n in Degrees(g) && Degrees(g)[n] == 1
    requires HubIds() <= Degrees(g).Keys && forall h | h in HubIds() :: Degrees(g)[h] == 1
    ensures !Hub(g, n)
  {
    assert Letter(24) == "y" && Letter(25) == "z";
    forall h | h in HubIds() ensures StrLess(h, n) {
      var i, side := HubIdAt(10, h);
      LettersDiffer(i + side, 24);
      LettersDiffer(i + side, 25);
    }
    hide HubIds, Degrees, Counted, StrLess;
    Outranked(Degrees(g), n);
  }

  lemma NamelessIsProposed(st: Setting, early: int, late: int, p: Params)
    requires Latin(st) && p.score.None? && p.minKeep == 2 && early != 0
    requires p.now - early > p.staleAfter && p.now - late <= p.staleAfter
    ensures var g := WithNameless(st, early, late);
            && (forall k :: k in [NAMELESS] <==> Prunable(g, [], p, k)) && !Hub(g, "y") && !Hub(g, "z")
  {
    var g, e, few := WithNameless(st, early, late), Told(1, late), map[NAMELESS := Told(1, early)];
    hide *;
    NamelessCase(st, early, late, p);
    CaseFew(g, p, e, few);
    AroundDegrees(g, e, few);
    NamelessShares(g.edges);
    assert NAMELESS in few;
    ToldIs(1, early);
    ToldIs(1, late);
    LaterIsNoHub(g, "y");
    LaterIsNoHub(g, "z");
    OnlyNameless(g, p, e, few, early, late);
  }

  lemma OnlyNameless(g: Network, p: Params, e: Edge, few: map<Key, Edge>, early: int, late: int)
    requires p.minKeep == 2 && early != 0 && p.now - early > p.staleAfter && p.now - late <= p.staleAfter
    requires e == Told(1, late) && few == map[NAMELESS := Told(1, early)]
    requires forall k | k in g.edges :: k in HubKeys(10) || k in few
    requires forall k | k in few :: k in g.edges && g.edges[k] == few[k]
    requires forall k | k in HubKeys(10) :: k in g.edges && g.edges[k] == e
    requires !Hub(g, "y") && !Hub(g, "z")
    ensures forall k :: k in [NAMELESS] <==> Prunable(g, [], p, k)
  {
    hide Hub, HubKeys;
    assert NAMELESS in few;
    assert Prunable(g, [], p, NAMELESS);
  }

  /** Both ends lose their only edge. */
  lemma NamelessEndGoes(g: Network, p: Params, e: Edge, few: map<Key, Edge>, n: Id)
    requires IsCase(g, p, e, few) && few.Keys == {NAMELESS} && n in g.nodes && n in {"y", "z"} && !Hub(g, n)
    ensures BecomesOrphan(g, [], [NAMELESS], n)
  {
    hide *;
    CaseFew(g, p, e, few);
    PlainHas(g, p, n);
    forall k | k in g.edges && Mentions(k, n) ensures k == NAMELESS { OnlyEdge(k, few, n); }
    LosesOnlyEdge(g, n);
  }

  lemma OnlyEdge(k: Key, few: map<Key, Edge>, n: Id)
    requires (k in HubKeys(10) || k in few) && few.Keys == {NAMELESS} && Mentions(k, n) && n in {"y", "z"}
    ensures k == NAMELESS
  {
    NoHubNames(n);
    hide HubKeys, HubIds;
    if k in HubKeys(10) { HubKeyEnds(k); }
  }

  lemma LosesOnlyEdge(g: Network, n: Id)
    requires n in g.nodes && g.nodes[n].nodeType == CONCEPT && !Hub(g, n)
    requires forall k | k in g.edges && Mentions(k, n) :: k == NAMELESS
    ensures BecomesOrphan(g, [], [NAMELESS], n)
  {
    hide Hub, Mentions;
    NoParties();
  }

  lemma OrphanHasLost(g: Network, prunes: seq<Key>, n: Id)
    ensures BecomesOrphan(g, [], prunes, n) ==> n in g.nodes && !HasEdge(g, prunes, n)
  {
    hide Hub, Drops, Keeps;
  }

  lemma NamelessOrphans(g: Network, p: Params, e: Edge, few: map<Key, Edge>)
    requires IsCase(g, p, e, few) && few.Keys == {NAMELESS} && g.nodes.Keys == HubIds() + {"y", "z"}
    requires !Hub(g, "y") && !Hub(g, "z")
    ensures forall n :: n in ["y", "z"] <==> BecomesOrphan(g, [], [NAMELESS], n)
  {
    hide *;
    NoHubNames("y");
    NoHubNames("z");
    forall n ensures n in ["y", "z"] <==> BecomesOrphan(g, [], [NAMELESS], n) {
      if n in HubIds() {
        HubHasEdge(g, p, e, few, [NAMELESS], n);
        OrphanHasLost(g, [NAMELESS], n);
      } else if n in g.nodes {
        NamelessEndGoes(g, p, e, few, n);
      } else {
        OrphanHasLost(g, [NAMELESS], n);
      }
    }
  }

  lemma NoSpellings(g: Network, p: Params)
    requires Plain(g, p) && Candidates(g) == g.nodes.Keys && "zz" !in g.nodes
    ensures Links(g, Degrees(g), []) && AllJustified(g, p, []) && NothingLeft(g, p, [])
  {
    hide Candidates, SameGroup, Similar, Plain, Degrees;
    forall a, b | a in Candidates(g) && b in Candidates(g) && a != b
      ensures !SameGroup(g, a, b) && !Similar(g, p, a, b)
    {
      if SameGroup(g, a, b) || Similar(g, p, a, b) {
        OnlySpellings(g, p, a, b);
      }
    }
  }

  lemma NamelessReport(st: Setting, early: int, late: int, p: Params)
    requires Latin(st) && p.score.None? && p.minKeep == 2 && early != 0
    requires p.now - early > p.staleAfter && p.now - late <= p.staleAfter
    ensures var g := WithNameless(st, early, late);
            WellFormed(g) && NAMELESS in g.edges && IsReport(g, p, Report([], [NAMELESS], ["y", "z"]))
  {
    hide *;
    var g, e, few := WithNameless(st, early, late), Told(1, late), map[NAMELESS := Told(1, early)];
    NamelessCase(st, early, late, p);
    CaseFew(g, p, e, few);
    NamelessIsProposed(st, early, late, p);
    NoHubNames("zz");
    NoSpellings(g, p);
    NamelessOrphans(g, p, e, few);
    PlainHas(g, p, "y");
    EachOnce(NAMELESS);
    MakeReport(g, p, [], [NAMELESS], ["y", "z"]);
  }

  /** That edge is proposed as a prune, and its ends as orphans.  As the relation is empty the prune
      is passed over, and so are the orphans: nothing at all is done. */
  lemma NamelessIsPassedOver(st: Setting, early: int, late: int, p: Params)
    requires Latin(st) && p.score.None? && p.minKeep == 2 && early != 0
    requires p.now - early > p.staleAfter && p.now - late <= p.staleAfter
    ensures var g, r := WithNameless(st, early, late), Report([], [NAMELESS], ["y", "z"]);
            WellFormed(g) && IsReport(g, p, r) && CountsOf(g, r) == Counts(0, 0, 0) && Applied(g, r) == g
  {
    NamelessReport(st, early, late, p);
    NothingApplies(WithNameless(st, early, late));
  }

  /** So a second report proposes the very same: it never comes to an end. */
  lemma NamelessComesAgain(st: Setting, early: int, late: int, p: Params, second: Report)
    requires Latin(st) && p.score.None? && p.minKeep == 2 && early != 0
    requires p.now - early > p.staleAfter && p.now - late <= p.staleAfter
    requires IsReport(Applied(WithNameless(st, early, late), Report([], [NAMELESS], ["y", "z"])), p, second)
    ensures second.Report? && second.merges == [] && (forall k :: k in second.prunes <==> k == NAMELESS)
    ensures forall n :: n in second.orphans <==> n in ["y", "z"]
  {
    var g, r := WithNameless(st, early, late), Report([], [NAMELESS], ["y", "z"]);
    EachOnce(NAMELESS);
    hide *;
    NamelessReport(st, early, late, p);
    NamelessIsPassedOver(st, early, late, p);
    SameSize(g, p, r, second);
    SecondReportMergesNothing(g, p, r, p, second);
    SameEntries(g, p, r, second);
  }

  lemma SameSize(g: Network, p: Params, a: Report, b: Report)
    requires IsReport(g, p, a) && IsReport(g, p, b)
    ensures a.Report? <==> b.Report?
  {
    hide DomainKeys, Prunable, BecomesOrphan, Degrees, Links, AllJustified, NothingLeft;
  }

  /** A report is fixed by its merges, but for the order. */
  lemma SameEntries(g: Network, p: Params, a: Report, b: Report)
    requires IsReport(g, p, a) && IsReport(g, p, b) && a.Report? && b.Report? && a.merges == b.merges
    ensures forall k :: k in b.prunes <==> k in a.prunes
    ensures forall n :: n in b.orphans <==> n in a.orphans
  {
    hide DomainKeys, Prunable, Degrees, Links, AllJustified, NothingLeft, Hub, Distinct;
  }

  lemma NothingApplies(g: Network)
    requires NAMELESS in g.edges
    ensures var r := Report([], [NAMELESS], ["y", "z"]); CountsOf(g, r) == Counts(0, 0, 0) && Applied(g, r) == g
  {
    assert [NAMELESS][..0] == [] && ["y", "z"][..1] == ["y"] && ["y"][..0] == [];
    assert Mentions(NAMELESS, "y") && Mentions(NAMELESS, "z");
    assert AfterOrphans(g, ["y"]) == g && OrphansDone(g, ["y"]) == 0;
  }
}
