/** What a dry run of the distillation looks at: weighted degrees, ranks, variant keys, and the
    nodes that may be merged (knowledge/distill.py). */
module Consolidation {
  import opened Wrappers
  import opened Text
  import opened Sorting
  import opened Networks
  import opened Quotients

  const MIN_DOMAIN_EDGES: nat := 10
  const HUB_PROTECT: nat := 20
  const MIN_HUB_WEIGHT: nat := 1

  const STOPWORDS: set<string> := {"a", "an", "the", "of", "for", "to", "in", "on", "and", "or", "with"}

  /** `_depluralize` */
  function Depluralize(token: string): string {
    if |token| >= 4 && EndsWith(token, "s") && !EndsWith(token, "ss") then token[..|token| - 1] else token
  }

  function JoinTokens(tokens: seq<string>, concept: bool): string {
    if tokens == [] then ""
    else if !concept then tokens[0] + JoinTokens(tokens[1..], concept)
    else if tokens[0] in STOPWORDS then JoinTokens(tokens[1..], concept)
    else Depluralize(tokens[0]) + JoinTokens(tokens[1..], concept)
  }

  /** `_variant_key` */
  function VariantKey(id: Id, nodeType: string): string {
    JoinTokens(Split(id, '-'), nodeType == CONCEPT)
  }

  function WithoutHyphens(s: string): string {
    if s == "" then "" else (if s[0] == '-' then "" else [s[0]]) + WithoutHyphens(s[1..])
  }

  /** The key of a node that is no concept is its identifier without hyphens. */
  lemma {:induction false} PlainKey(id: Id)
    ensures JoinTokens(Split(id, '-'), false) == WithoutHyphens(id)
  {
    if id != "" {
      PlainKey(id[1..]);
      var rest := Split(id[1..], '-');
      if id[0] == '-' {
        assert ([""] + rest)[1..] == rest;
      } else {
        var tokens := [[id[0]] + rest[0]] + rest[1..];
        assert tokens[1..] == rest[1..];
        assert ([id[0]] + rest[0]) + JoinTokens(rest[1..], false) == [id[0]] + JoinTokens(rest, false);
      }
    }
  }

  /** A stopword among the tokens of a concept does not change its key, nor does a plural. */
  lemma {:induction false} StopwordsDoNotMatter(before: seq<string>, stop: string, after: seq<string>)
    requires stop in STOPWORDS
    ensures JoinTokens(before + [stop] + after, true) == JoinTokens(before + after, true)
  {
    hide Depluralize, STOPWORDS;
    var all := before + [stop] + after;
    if before == [] {
      assert all[0] == stop && all[1..] == after && before + after == after;
    } else {
      StopwordsDoNotMatter(before[1..], stop, after);
      assert all[0] == before[0] && all[1..] == before[1..] + [stop] + after;
      assert (before + after)[0] == before[0] && (before + after)[1..] == before[1..] + after;
    }
  }

  lemma TokenOfPlural(token: string)
    requires |token| >= 3 && !EndsWith(token, "s")
    ensures Depluralize(token + "s") == token && Depluralize(token) == token
  {
    var plural := token + "s";
    assert plural[|plural| - 1..] == "s" && plural[..|plural| - 1] == token;
    assert token[|token| - 1..] == [token[|token| - 1]];
    assert plural[|plural| - 2..][0] == token[|token| - 1] && "ss"[0] == 's';
  }

  lemma {:induction false} PluralsDoNotMatter(before: seq<string>, token: string, after: seq<string>)
    requires |token| >= 3 && !EndsWith(token, "s") && token !in STOPWORDS && token + "s" !in STOPWORDS
    ensures JoinTokens(before + [token + "s"] + after, true) == JoinTokens(before + [token] + after, true)
  {
    hide Depluralize, EndsWith;
    var plural := token + "s";
    if before == [] {
      assert ([] + [plural] + after)[1..] == after && ([] + [token] + after)[1..] == after;
      TokenOfPlural(token);
      assert before + [plural] + after == [plural] + after && before + [token] + after == [token] + after;
    } else {
      PluralsDoNotMatter(before[1..], token, after);
      assert (before + [plural] + after)[1..] == before[1..] + [plural] + after;
      assert (before + [token] + after)[1..] == before[1..] + [token] + after;
    }
  }

  /** The tokens that carry the meaning of a concept, without their plural s. */
  function Meaningful(tokens: seq<string>): seq<string> {
    if tokens == [] then []
    else (if tokens[0] in STOPWORDS then [] else [Depluralize(tokens[0])]) + Meaningful(tokens[1..])
  }

  lemma {:induction false} HyphensOnly(a: string, b: string)
    ensures WithoutHyphens(a + "-" + b) == WithoutHyphens(a) + WithoutHyphens(b)
  {
    var s := a + "-" + b;
    if a == "" {
      assert s[0] == '-' && s[1..] == b;
    } else {
      assert s[0] == a[0] && s[1..] == a[1..] + "-" + b;
      HyphensOnly(a[1..], b);
    }
  }

  lemma {:induction false} NoHyphens(a: string)
    requires '-' !in a
    ensures WithoutHyphens(a) == a
  {
    if a != "" {
      assert a[0] in a && [a[0]] + a[1..] == a && forall c | c in a[1..] :: c in a;
      NoHyphens(a[1..]);
    }
  }

  lemma {:induction false} KeyOfMeaning(tokens: seq<string>)
    requires forall i :: 0 <= i < |tokens| ==> '-' !in tokens[i]
    ensures JoinTokens(tokens, true) == WithoutHyphens(Rejoin(Meaningful(tokens), '-'))
  {
    hide WithoutHyphens, Depluralize, Rejoin, STOPWORDS;
    if tokens == [] {
      NothingJoined();
    } else {
      var first, rest := tokens[0], Meaningful(tokens[1..]);
      KeyOfMeaning(tokens[1..]);
      if first !in STOPWORDS {
        SingularIs(first);
        OneTokenMore(Depluralize(first), rest);
      } else {
        assert [] + rest == rest;
      }
    }
  }

  lemma NothingJoined()
    ensures WithoutHyphens(Rejoin([], '-')) == ""
  {
  }

  lemma OneTokenMore(t: string, rest: seq<string>)
    requires '-' !in t
    ensures WithoutHyphens(Rejoin([t] + rest, '-')) == t + WithoutHyphens(Rejoin(rest, '-'))
  {
    hide WithoutHyphens;
    NothingAfter(t);
    if rest != [] {
      assert ([t] + rest)[1..] == rest;
      HyphensOnly(t, Rejoin(rest, '-'));
    } else {
      assert [t] + rest == [t];
    }
  }

  lemma NothingAfter(t: string)
    requires '-' !in t
    ensures WithoutHyphens(t) == t && WithoutHyphens("") == "" && t + "" == t && Rejoin([t], '-') == t
  {
    NoHyphens(t);
  }

  lemma EndsInTwo(stem: string)
    ensures EndsWith(stem, "s") ==> EndsWith(stem + "s", "ss")
  {
    if EndsWith(stem, "s") {
      assert (stem + "s")[|stem| - 1..] == stem[|stem| - 1..] + "s";
    }
  }

  /** A token of four or more that ends in a single s loses it; every other stays. */
  lemma SingularIs(token: string)
    ensures '-' !in token ==> '-' !in Depluralize(token)
    ensures (exists stem :: token == stem + "s" && |stem| >= 3 && !EndsWith(stem, "s")) ==>
              Depluralize(token) + "s" == token
    ensures Depluralize(token) == token
            || (Depluralize(token) + "s" == token && |token| >= 4 && !EndsWith(Depluralize(token), "s"))
  {
    if stem :| token == stem + "s" && |stem| >= 3 && !EndsWith(stem, "s") {
      TokenOfPlural(stem);
    }
    if Depluralize(token) != token {
      var stem := Depluralize(token);
      assert token[|token| - 1..] == "s" && token == stem + token[|token| - 1..];
      EndsInTwo(stem);
    }
  }

  /** The key of a concept is its identifier without hyphens, once stopwords and plural s are gone from
      it; so two concepts share a key exactly when what is left of them differs in hyphens at most. */
  lemma ConceptKey(id: Id)
    ensures Rejoin(Split(id, '-'), '-') == id
    ensures VariantKey(id, CONCEPT) == WithoutHyphens(Rejoin(Meaningful(Split(id, '-')), '-'))
    ensures (forall token | token in Split(id, '-') :: token !in STOPWORDS && Depluralize(token) == token) ==>
              VariantKey(id, CONCEPT) == WithoutHyphens(id)
  {
    hide Depluralize, Split, Rejoin, WithoutHyphens;
    var tokens := Split(id, '-');
    SplitRejoins(id, '-');
    KeyOfMeaning(tokens);
    if forall token | token in tokens :: token !in STOPWORDS && Depluralize(token) == token {
      AllMeaningful(tokens);
    }
  }

  lemma {:induction false} AllMeaningful(tokens: seq<string>)
    requires forall token | token in tokens :: token !in STOPWORDS && Depluralize(token) == token
    ensures Meaningful(tokens) == tokens
  {
    hide Depluralize;
    if tokens != [] {
      AllMeaningful(tokens[1..]);
      assert tokens[0] in tokens && [tokens[0]] + tokens[1..] == tokens;
    }
  }

  // ---- the domain layer ----

  function DomainKeys(g: Network): set<Key> {
    set k | k in g.edges && g.edges[k].layer == Domain
  }

  function RunKeys(g: Network): set<Key> {
    set k | k in g.edges && g.edges[k].layer == Run
  }

  function Ends(keys: set<Key>): set<Id> {
    (set k | k in keys :: k.src) + (set k | k in keys :: k.dst)
  }

  /** The nodes on the domain layer that no run-layer edge touches. */
  function Candidates(g: Network): set<Id> {
    Ends(DomainKeys(g)) - Ends(RunKeys(g))
  }

  /** How much an edge adds to a node's degree; a loop counts twice. */
  function Share(k: Key, e: Edge, n: Id): int {
    (if k.src == n then e.weight else 0) + (if k.dst == n then e.weight else 0)
  }

  ghost function DegreeOver(edges: map<Key, Edge>, keys: set<Key>, n: Id): int
    requires keys <= edges.Keys
    decreases |keys|
  {
    if keys == {} then 0 else var k :| k in keys; Share(k, edges[k], n) + DegreeOver(edges, keys - {k}, n)
  }

  lemma {:induction false} DegreeWithout(edges: map<Key, Edge>, keys: set<Key>, k: Key, n: Id)
    requires keys <= edges.Keys && k in keys
    ensures DegreeOver(edges, keys, n) == Share(k, edges[k], n) + DegreeOver(edges, keys - {k}, n)
    decreases |keys|
  {
    var first :| first in keys && DegreeOver(edges, keys, n)
          == Share(first, edges[first], n) + DegreeOver(edges, keys - {first}, n);
    if first != k {
      DegreeWithout(edges, keys - {first}, k, n);
      DegreeWithout(edges, keys - {k}, first, n);
      assert keys - {first} - {k} == keys - {k} - {first};
    }
  }

  lemma {:induction false} DegreeElsewhere(edges: map<Key, Edge>, keys: set<Key>, n: Id)
    requires keys <= edges.Keys && n !in Ends(keys)
    ensures DegreeOver(edges, keys, n) == 0
    decreases |keys|
  {
    if k :| k in keys {
      assert k.src in Ends(keys) && k.dst in Ends(keys);
      DegreeWithout(edges, keys, k, n);
      assert Ends(keys - {k}) <= Ends(keys);
      DegreeElsewhere(edges, keys - {k}, n);
    }
  }

  /** The weighted degree of each node of the domain layer. */
  ghost function Degrees(g: Network): map<Id, int> {
    map n | n in Ends(DomainKeys(g)) :: DegreeOver(g.edges, DomainKeys(g), n)
  }

  /** The edges that count for a place among the hubs: those of weight 1 or more. */
  function Counted(g: Network): Network {
    Network(g.nodes, map k | k in g.edges && g.edges[k].weight >= MIN_HUB_WEIGHT :: g.edges[k])
  }

  // ---- ranks ----

  function DegreeOf(w: map<Id, int>, n: Id): int {
    if n in w then w[n] else 0
  }

  /** `_rank`: heavier first, then shorter, then by the order of strings. */
  predicate RankLess(w: map<Id, int>, a: Id, b: Id) {
    if DegreeOf(w, a) != DegreeOf(w, b) then DegreeOf(w, a) > DegreeOf(w, b)
    else if |a| != |b| then |a| < |b|
    else StrLess(a, b)
  }

  lemma RankIsAsymmetric(w: map<Id, int>, a: Id, b: Id)
    requires RankLess(w, a, b)
    ensures a != b && !RankLess(w, b, a)
  {
    if DegreeOf(w, a) == DegreeOf(w, b) && |a| == |b| {
      StrLessIsAsymmetric(a, b);
    }
  }

  lemma RankIsTotal(w: map<Id, int>, a: Id, b: Id)
    requires a != b
    ensures RankLess(w, a, b) || RankLess(w, b, a)
  {
    StrLessIsTotal(a, b);
  }

  lemma RankIsTransitive(w: map<Id, int>, a: Id, b: Id, c: Id)
    requires RankLess(w, a, b) && RankLess(w, b, c)
    ensures RankLess(w, a, c)
  {
    if DegreeOf(w, a) == DegreeOf(w, b) == DegreeOf(w, c) && |a| == |b| == |c| {
      StrLessIsTransitive(a, b, c);
    }
  }

  lemma RankOrders(w: map<Id, int>, on: set<Id>)
    ensures Orders((a: Id, b: Id) => RankLess(w, a, b), on)
  {
    hide RankLess;
    var less := (a: Id, b: Id) => RankLess(w, a, b);
    forall a, b | a in on && b in on && a != b ensures less(a, b) || less(b, a) { RankIsTotal(w, a, b); }
    forall a, b | a in on && b in on && less(a, b) ensures a != b && !less(b, a) { RankIsAsymmetric(w, a, b); }
    forall a, b, c | a in on && b in on && c in on && less(a, b) && less(b, c)
      ensures less(a, c)
    {
      RankIsTransitive(w, a, b, c);
    }
  }

  lemma StringsOrder(on: set<string>)
    ensures Orders(StrLess, on)
  {
    hide StrLess;
    forall a, b | a in on && b in on && a != b ensures StrLess(a, b) || StrLess(b, a) { StrLessIsTotal(a, b); }
    forall a, b | a in on && b in on && StrLess(a, b) ensures a != b && !StrLess(b, a) { StrLessIsAsymmetric(a, b); }
    forall a, b, c | a in on && b in on && c in on && StrLess(a, b) && StrLess(b, c) ensures StrLess(a, c) {
      StrLessIsTransitive(a, b, c);
    }
  }

  // ---- chains of merges ----

  /** A merge of two nodes that are both still there, of one type, onto the one ranked first. */
  ghost predicate LinkOk(g: Network, w: map<Id, int>, before: seq<Merge>, m: Merge) {
    && m.keep in Candidates(g) && m.drop in Candidates(g) && m.keep in g.nodes && m.drop in g.nodes
    && Resolve(before, m.keep) == m.keep && Resolve(before, m.drop) == m.drop
    && RankLess(w, m.keep, m.drop)
    && g.nodes[m.keep].nodeType == g.nodes[m.drop].nodeType
  }

  ghost predicate Links(g: Network, w: map<Id, int>, ms: seq<Merge>) {
    forall i :: 0 <= i < |ms| ==> LinkOk(g, w, ms[..i], ms[i])
  }

  function Drops(ms: seq<Merge>): set<Id> {
    set m | m in ms :: m.drop
  }

  lemma LinksMore(g: Network, w: map<Id, int>, ms: seq<Merge>, m: Merge)
    requires Links(g, w, ms) && LinkOk(g, w, ms, m)
    ensures Links(g, w, ms + [m])
    ensures Drops(ms + [m]) == Drops(ms) + {m.drop}
  {
    hide LinkOk;
    var more := ms + [m];
    forall i | 0 <= i < |more| ensures LinkOk(g, w, more[..i], more[i]) {
      if i < |ms| {
        assert more[..i] == ms[..i];
      } else {
        assert more[..i] == ms;
      }
    }
    assert forall x :: x in more <==> x in ms || x == m;
  }

  lemma DropsLess(ms: seq<Merge>)
    requires ms != []
    ensures var n := |ms| - 1; ms == ms[..n] + [ms[n]] && Drops(ms) == Drops(ms[..n]) + {ms[n].drop}
  {
    var n := |ms| - 1;
    assert ms == ms[..n] + [ms[n]];
    assert forall x :: x in ms <==> x in ms[..n] || x == ms[n];
  }

  lemma LinksLess(g: Network, w: map<Id, int>, ms: seq<Merge>)
    requires Links(g, w, ms) && ms != []
    ensures var n := |ms| - 1; Links(g, w, ms[..n]) && LinkOk(g, w, ms[..n], ms[n]) && ms == ms[..n] + [ms[n]]
    ensures var n := |ms| - 1; Drops(ms) == Drops(ms[..n]) + {ms[n].drop}
  {
    hide LinkOk, Drops;
    var n := |ms| - 1;
    LinksTo(g, w, ms, n);
    DropsLess(ms);
  }

  /** Each link strictly lowers the rank, so a class comes down to one root, its lowest. */
  lemma {:induction false} RankFalls(g: Network, w: map<Id, int>, ms: seq<Merge>, n: Id)
    requires Links(g, w, ms)
    ensures Resolve(ms, n) == n || RankLess(w, Resolve(ms, n), n)
    ensures Resolve(ms, n) == n <==> n !in Drops(ms)
    ensures Resolve(ms, n) !in Drops(ms)
    decreases |ms|
  {
    hide RankLess, Candidates;
    if ms != [] {
      LinksLess(g, w, ms);
      var before, m := ms[..|ms| - 1], ms[|ms| - 1];
      RankFalls(g, w, before, n);
      RankFalls(g, w, before, m.keep);
      RankIsAsymmetric(w, m.keep, m.drop);
      ResolveMore(before, m, n);
      if Resolve(before, n) == m.drop && n != m.drop {
        RankIsTransitive(w, m.keep, m.drop, n);
        RankIsAsymmetric(w, m.keep, n);
      }
    }
  }

  lemma {:induction false} ResolveTwice(g: Network, w: map<Id, int>, ms: seq<Merge>, n: Id)
    requires Links(g, w, ms)
    ensures Resolve(ms, Resolve(ms, n)) == Resolve(ms, n)
  {
    RankFalls(g, w, ms, n);
    RankFalls(g, w, ms, Resolve(ms, n));
  }

  /** The root of a class is its member of lowest rank. */
  lemma RootIsRankMinimum(g: Network, w: map<Id, int>, ms: seq<Merge>, a: Id, b: Id)
    requires Links(g, w, ms) && Resolve(ms, a) == Resolve(ms, b)
    ensures Resolve(ms, a) == b || RankLess(w, Resolve(ms, a), b)
  {
    RankFalls(g, w, ms, b);
  }

  /** So it is the heaviest, of those the shortest, and of those the first in the order of strings. */
  lemma KeeperIsHeaviest(g: Network, w: map<Id, int>, ms: seq<Merge>, a: Id, b: Id)
    requires Links(g, w, ms) && Resolve(ms, a) == Resolve(ms, b)
    ensures var keeper := Resolve(ms, a);
            && DegreeOf(w, keeper) >= DegreeOf(w, b)
            && (DegreeOf(w, keeper) == DegreeOf(w, b) ==>
                  || |keeper| < |b| || keeper == b
                  || (|keeper| == |b| && exists i :: SmallerAt(keeper, b, i)))
  {
    hide Links, Resolve, DegreeOf, StrLess, SmallerAt;
    RootIsRankMinimum(g, w, ms, a, b);
    StrLessIff(Resolve(ms, a), b);
  }

  /** No class crosses node types, and none holds a node that is no candidate. */
  lemma {:induction false} ClassesKeepTypes(g: Network, w: map<Id, int>, ms: seq<Merge>, n: Id)
    requires Links(g, w, ms)
    ensures n in Candidates(g) <==> Resolve(ms, n) in Candidates(g)
    ensures n !in Candidates(g) ==> Resolve(ms, n) == n
    ensures n in g.nodes ==> Resolve(ms, n) in g.nodes && g.nodes[Resolve(ms, n)].nodeType == g.nodes[n].nodeType
    decreases |ms|
  {
    hide RankLess, Candidates;
    if ms != [] {
      LinksLess(g, w, ms);
      ClassesKeepTypes(g, w, ms[..|ms| - 1], n);
      ResolveMore(ms[..|ms| - 1], ms[|ms| - 1], n);
    }
  }

  lemma {:induction false} StayTogether(ms: seq<Merge>, i: nat, a: Id, b: Id)
    requires i <= |ms| && Resolve(ms[..i], a) == Resolve(ms[..i], b)
    ensures Resolve(ms, a) == Resolve(ms, b)
    decreases |ms|
  {
    if i < |ms| {
      assert ms[..|ms| - 1][..i] == ms[..i];
      StayTogether(ms[..|ms| - 1], i, a, b);
    } else {
      assert ms[..i] == ms;
    }
  }

  lemma LinkJoins(g: Network, w: map<Id, int>, ms: seq<Merge>, i: nat)
    requires Links(g, w, ms) && i < |ms|
    ensures Resolve(ms, ms[i].drop) == Resolve(ms, ms[i].keep)
    ensures forall j :: 0 <= j < |ms| && ms[j].drop == ms[i].keep ==> j > i
  {
    assert LinkOk(g, w, ms[..i], ms[i]);
    hide Links, Candidates, RankLess, Resolve;
    RankIsAsymmetric(w, ms[i].keep, ms[i].drop);
    BothMove(ms, i);
    forall j | 0 <= j < |ms| && ms[j].drop == ms[i].keep ensures j > i {
      if j < i {
        DroppedBefore(ms, i, j);
        LinksTo(g, w, ms, i);
        RankFalls(g, w, ms[..i], ms[i].keep);
      }
    }
  }

  lemma DroppedBefore(ms: seq<Merge>, i: nat, j: nat)
    requires j < i <= |ms|
    ensures ms[j].drop in Drops(ms[..i])
  {
    assert ms[..i][j] == ms[j];
  }

  lemma BothMove(ms: seq<Merge>, i: nat)
    requires i < |ms| && Resolve(ms[..i], ms[i].keep) == ms[i].keep && Resolve(ms[..i], ms[i].drop) == ms[i].drop
    ensures Resolve(ms, ms[i].drop) == Resolve(ms, ms[i].keep)
  {
    hide Resolve;
    var before, m := ms[..i], ms[i];
    PrefixMore(ms, i);
    ResolveMore(before, m, m.drop);
    ResolveMore(before, m, m.keep);
    StayTogether(ms, i + 1, m.drop, m.keep);
  }

  lemma PrefixMore(ms: seq<Merge>, i: nat)
    requires i < |ms|
    ensures ms[..i + 1] == ms[..i] + [ms[i]]
  {
  }

  lemma LinksTo(g: Network, w: map<Id, int>, ms: seq<Merge>, i: nat)
    requires Links(g, w, ms) && i <= |ms|
    ensures Links(g, w, ms[..i])
  {
    hide LinkOk;
    forall j | 0 <= j < i ensures LinkOk(g, w, ms[..i][..j], ms[..i][j]) {
      assert ms[..i][..j] == ms[..j];
    }
  }

  /** The links as the dictionary from dropped node to keeper. */
  ghost predicate AreLinks(ms: seq<Merge>, away: map<Id, Id>) {
    away.Keys == Drops(ms) && forall i :: 0 <= i < |ms| ==> ms[i].drop in away && away[ms[i].drop] == ms[i].keep
  }

  /** `_resolve`: follow the links from dropped node to keeper. */
  method FollowLinks(ghost g: Network, ghost w: map<Id, int>, ghost ms: seq<Merge>, mergedAway: map<Id, Id>, n: Id)
    returns (r: Id)
    requires Links(g, w, ms) && AreLinks(ms, mergedAway)
    ensures r == Resolve(ms, n)
  {
    hide LinkOk, Resolve;
    r := n;
    ghost var from := 0;
    while r in mergedAway
      invariant Resolve(ms, r) == Resolve(ms, n)
      invariant from <= |ms|
      invariant forall j :: 0 <= j < |ms| && ms[j].drop == r ==> j >= from
      decreases |ms| - from
    {
      ghost var i :| 0 <= i < |ms| && ms[i].drop == r;
      LinkJoins(g, w, ms, i);
      r := mergedAway[r];
      from := i + 1;
    }
    RankFalls(g, w, ms, r);
  }
}
