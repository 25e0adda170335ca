/** Dependency relations: paths, cycles and rankings.  `deps` maps a node to the nodes it
    depends on; a node without an entry depends on nothing. */
module Cycles {

  type Relation<T> = map<T, seq<T>>

  function DepsOf<T>(deps: Relation<T>, x: T): seq<T> {
    if x in deps then deps[x] else []
  }

  ghost predicate Edge<T>(deps: Relation<T>, x: T, y: T) {
    y in DepsOf(deps, x)
  }

  /** Each node of `p` depends on the next one. */
  ghost predicate IsPath<T>(deps: Relation<T>, p: seq<T>) {
    |p| > 0 && forall i :: 0 <= i < |p| - 1 ==> Edge(deps, p[i], p[i + 1])
  }

  ghost predicate IsCycle<T>(deps: Relation<T>, p: seq<T>) {
    |p| > 1 && IsPath(deps, p) && p[0] == p[|p| - 1]
  }

  ghost predicate Cyclic<T(!new)>(deps: Relation<T>) {
    exists p :: IsCycle(deps, p)
  }

  /** Some cycle stays among `nodes`. */
  ghost predicate CyclicIn<T(!new)>(deps: Relation<T>, nodes: set<T>) {
    exists p :: IsCycle(deps, p) && forall i :: 0 <= i < |p| ==> p[i] in nodes
  }

  /** Along every edge between nodes of `nodes` the rank goes down. */
  ghost predicate Ranks<T(!new)>(deps: Relation<T>, nodes: set<T>, rank: map<T, int>) {
    && nodes <= rank.Keys
    && forall x, y :: x in nodes && y in nodes && Edge(deps, x, y) ==> rank[y] < rank[x]
  }

  ghost predicate Closed<T(!new)>(deps: Relation<T>, nodes: set<T>) {
    forall x, y :: x in nodes && Edge(deps, x, y) ==> y in nodes
  }

  ghost predicate WaitsFor<T(!new)>(deps: Relation<T>, x: T, nodes: set<T>) {
    exists y :: y in nodes && Edge(deps, x, y)
  }

  /** Every node of `stuck` waits for another one of them. */
  ghost predicate Stuck<T(!new)>(deps: Relation<T>, stuck: set<T>) {
    stuck != {} && forall x {:trigger WaitsFor(deps, x, stuck)} :: x in stuck ==> WaitsFor(deps, x, stuck)
  }

  lemma {:induction false} RankFallsAlongPath<T(!new)>(deps: Relation<T>, nodes: set<T>, rank: map<T, int>, p: seq<T>,
                                                k: nat)
    requires Ranks(deps, nodes, rank) && IsPath(deps, p) && k < |p|
    requires forall i :: 0 <= i < |p| ==> p[i] in nodes
    ensures rank[p[k]] <= rank[p[0]] - k
  {
    if k > 0 {
      RankFallsAlongPath(deps, nodes, rank, p, k - 1);
      assert Edge(deps, p[k - 1], p[k - 1 + 1]);
    }
  }

  lemma {:induction false} PathStaysInside<T(!new)>(deps: Relation<T>, nodes: set<T>, p: seq<T>, k: nat)
    requires Closed(deps, nodes) && IsPath(deps, p) && k < |p| && p[0] in nodes
    ensures p[k] in nodes
  {
    if k > 0 {
      PathStaysInside(deps, nodes, p, k - 1);
      assert Edge(deps, p[k - 1], p[k - 1 + 1]);
    }
  }

  /** A ranking rules cycles out. */
  lemma RankedIsAcyclic<T(!new)>(deps: Relation<T>, rank: map<T, int>)
    requires Ranks(deps, deps.Keys, rank) && Closed(deps, deps.Keys)
    ensures !Cyclic(deps)
  {
    forall p | IsCycle(deps, p) ensures false {
      assert Edge(deps, p[0], p[0 + 1]);
      forall i | 0 <= i < |p| ensures p[i] in deps.Keys { PathStaysInside(deps, deps.Keys, p, i); }
      RankFallsAlongPath(deps, deps.Keys, rank, p, |p| - 1);
    }
  }

  /** A stuck set contains a cycle: walk along unresolved dependencies until a node repeats. */
  lemma StuckHasCycle<T(!new)>(deps: Relation<T>, stuck: set<T>)
    requires Stuck(deps, stuck)
    ensures CyclicIn(deps, stuck) && Cyclic(deps)
  {
    var x :| x in stuck;
    Walk(deps, stuck, [x]);
  }

  lemma {:induction false} Walk<T(!new)>(deps: Relation<T>, stuck: set<T>, p: seq<T>)
    requires Stuck(deps, stuck) && IsPath(deps, p)
    requires forall i :: 0 <= i < |p| ==> p[i] in stuck
    requires forall i, j :: 0 <= i < j < |p| ==> p[i] != p[j]
    ensures CyclicIn(deps, stuck)
    decreases |stuck| - |p|
  {
    var last := p[|p| - 1];
    assert WaitsFor(deps, last, stuck);
    var y :| y in stuck && Edge(deps, last, y);
    var q := p + [y];
    assert IsPath(deps, q);
    if i :| 0 <= i < |p| && p[i] == y {
      assert IsCycle(deps, q[i..]) by {
        forall k | 0 <= k < |q[i..]| - 1 ensures Edge(deps, q[i..][k], q[i..][k + 1]) {
          assert Edge(deps, q[i + k], q[i + k + 1]);
        }
      }
    } else {
      DistinctFits(q, stuck);
      Walk(deps, stuck, q);
    }
  }

  lemma {:induction false} DistinctFits<T>(p: seq<T>, s: set<T>)
    requires forall i :: 0 <= i < |p| ==> p[i] in s
    requires forall i, j :: 0 <= i < j < |p| ==> p[i] != p[j]
    ensures |p| <= |s|
  {
    if p != [] {
      DistinctFits(p[1..], s - {p[0]});
    }
  }

  /** A ranking of closed nodes rules cycles among them out. */
  lemma RankedHasNoCycle<T(!new)>(deps: Relation<T>, nodes: set<T>, rank: map<T, int>)
    requires Ranks(deps, nodes, rank)
    ensures !CyclicIn(deps, nodes)
  {
    forall p | IsCycle(deps, p) && (forall i :: 0 <= i < |p| ==> p[i] in nodes) ensures false {
      RankFallsAlongPath(deps, nodes, rank, p, |p| - 1);
    }
  }
}
