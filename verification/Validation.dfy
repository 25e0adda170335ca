/** Structural validation of a plan (orchestration/task.py, `TaskRun.validate`), and the clean-up
    that runs before it (agents/orchestrator.py, `_sanitize`). */
module Validation {
  import opened Collections
  import opened Plans
  import opened Cycles

  datatype Problem = NoProblem | DuplicateIds | DanglingDependency | DependencyCycle

  /** The dependencies of the first subtask with that id. */
  function DepsIn(plan: seq<SubTask>, id: Id): seq<Id> {
    if plan == [] then [] else if plan[0].id == id then plan[0].dependsOn else DepsIn(plan[1..], id)
  }

  function PlanRelation(plan: seq<SubTask>): Relation<Id> {
    map id | id in Ids(plan) :: DepsIn(plan, id)
  }

  lemma {:induction false} DepsAt(plan: seq<SubTask>, i: nat)
    requires i < |plan| && Distinct(Ids(plan))
    ensures DepsIn(plan, plan[i].id) == plan[i].dependsOn
  {
    if i > 0 {
      assert Ids(plan)[0] != Ids(plan)[i];
      assert Ids(plan)[1..] == Ids(plan[1..]);
      forall a, b | 0 <= a < b < |plan[1..]| ensures Ids(plan[1..])[a] != Ids(plan[1..])[b] {
        assert Ids(plan)[a + 1] != Ids(plan)[b + 1];
      }
      DepsAt(plan[1..], i - 1);
    }
  }

  // ---- counting unresolved dependencies

  /** How many entries of `deps` are not in `done`, repetitions included. */
  function Left(deps: seq<Id>, done: set<Id>): nat {
    if deps == [] then 0 else (if deps[0] in done then 0 else 1) + Left(deps[1..], done)
  }

  lemma {:induction false} LeftDrops(deps: seq<Id>, done: set<Id>, n: Id)
    requires n !in done
    ensures Left(deps, done + {n}) + multiset(deps)[n] == Left(deps, done)
  {
    if deps != [] {
      LeftDrops(deps[1..], done, n);
      assert deps == [deps[0]] + deps[1..];
    }
  }

  lemma {:induction false} LeftZero(deps: seq<Id>, done: set<Id>)
    ensures Left(deps, done) == 0 <==> forall d :: d in deps ==> d in done
  {
    if deps != [] {
      LeftZero(deps[1..], done);
      assert deps == [deps[0]] + deps[1..];
    }
  }

  lemma {:induction false} LeftOfNone(deps: seq<Id>)
    ensures Left(deps, {}) == |deps|
  {
    if deps != [] { LeftOfNone(deps[1..]); }
  }

  // ---- the tables of Kahn's algorithm

  type InDegrees = map<Id, nat>
  type Dependents = map<Id, seq<Id>>

  ghost predicate Converse(part: Relation<Id>, adj: Dependents, d: Id, m: Id) {
    d in adj && m in part && multiset(adj[d])[m] == multiset(part[m])[d]
  }

  /** `adj` is the converse of `part`, multiplicities included, and `indeg` its sizes. */
  ghost predicate Tables(nodes: set<Id>, part: Relation<Id>, indeg: InDegrees, adj: Dependents) {
    && part.Keys == nodes && indeg.Keys == nodes && adj.Keys == nodes
    && (forall m :: m in nodes ==> indeg[m] == |part[m]|)
    && (forall d, m :: d in nodes && m in nodes ==> Converse(part, adj, d, m))
    && (forall d, m :: d in nodes && m in adj[d] ==> m in nodes)
  }

  /** A dependency more, counted from both sides. */
  lemma OneEdgeCounts(part: Relation<Id>, adj: Dependents, x: Id, d: Id, e: Id, m: Id)
    requires x in part && d in adj && Converse(part, adj, e, m)
    ensures Converse(part[x := part[x] + [d]], adj[d := adj[d] + [x]], e, m)
  {
    OneMoreOf(adj[d], x, m);
    OneMoreOf(part[x], d, e);
  }

  lemma OneEdge(nodes: set<Id>, part: Relation<Id>, indeg: InDegrees, adj: Dependents, x: Id, d: Id)
    requires Tables(nodes, part, indeg, adj) && x in nodes && d in nodes
    ensures Tables(nodes, part[x := part[x] + [d]], indeg[x := indeg[x] + 1], adj[d := adj[d] + [x]])
  {
    hide Converse;
    var part', adj' := part[x := part[x] + [d]], adj[d := adj[d] + [x]];
    forall e, m | e in nodes && m in nodes ensures Converse(part', adj', e, m) {
      OneEdgeCounts(part, adj, x, d, e, m);
    }
    forall e, m | e in nodes && m in adj'[e] ensures m in nodes {
      if e == d && m != x { assert m in adj[d]; }
    }
  }

  lemma OneMoreOf(s: seq<Id>, last: Id, x: Id)
    ensures multiset(s + [last])[x] == multiset(s)[x] + if x == last then 1 else 0
  {
  }

  lemma TablesHave(nodes: set<Id>, part: Relation<Id>, indeg: InDegrees, adj: Dependents)
    requires Tables(nodes, part, indeg, adj)
    ensures part.Keys == nodes && indeg.Keys == nodes && adj.Keys == nodes
  {
  }

  lemma EmptyTables(nodes: set<Id>)
    ensures Tables(nodes, map id | id in nodes :: [], map id | id in nodes :: 0, map id | id in nodes :: [])
  {
  }

  /** One subtask's dependencies are entered. */
  method AddEdges(st: SubTask, indeg0: InDegrees, adj0: Dependents, ghost nodes: set<Id>, ghost part: Relation<Id>)
    returns (indeg: InDegrees, adj: Dependents)
    requires Tables(nodes, part, indeg0, adj0) && st.id in nodes && part[st.id] == []
    requires forall d :: d in st.dependsOn ==> d in nodes
    ensures Tables(nodes, part[st.id := st.dependsOn], indeg, adj)
  {
    hide Tables;
    TablesHave(nodes, part, indeg0, adj0);
    indeg, adj := indeg0, adj0;
    assert part[st.id := []] == part;
    var j := 0;
    while j < |st.dependsOn|
      invariant 0 <= j <= |st.dependsOn| && Tables(nodes, part[st.id := st.dependsOn[..j]], indeg, adj)
    {
      ghost var before := part[st.id := st.dependsOn[..j]];
      var d := st.dependsOn[j];
      TablesHave(nodes, before, indeg, adj);
      OneEdge(nodes, before, indeg, adj, st.id, d);
      assert before[st.id] + [d] == st.dependsOn[..j + 1];
      assert before[st.id := before[st.id] + [d]] == part[st.id := st.dependsOn[..j + 1]];
      adj := adj[d := adj[d] + [st.id]];
      indeg := indeg[st.id := indeg[st.id] + 1];
      j := j + 1;
    }
    assert st.dependsOn[..j] == st.dependsOn;
  }

  /** The relation of the first ids, with nothing for the others. */
  ghost function FirstPart(rel: Relation<Id>, ids: seq<Id>, i: nat): Relation<Id>
    requires i <= |ids|
  {
    map id | id in rel :: if id in ids[..i] then rel[id] else []
  }

  lemma NextPart(rel: Relation<Id>, ids: seq<Id>, i: nat)
    requires i < |ids| && Distinct(ids) && ids[i] in rel
    ensures FirstPart(rel, ids, i)[ids[i]] == []
    ensures FirstPart(rel, ids, i + 1) == FirstPart(rel, ids, i)[ids[i] := rel[ids[i]]]
  {
    assert ids[..i + 1] == ids[..i] + [ids[i]];
    assert ids[i] !in ids[..i];
  }

  lemma PartBounds(rel: Relation<Id>, ids: seq<Id>)
    requires forall id :: id in rel <==> id in ids
    ensures FirstPart(rel, ids, 0) == map id | id in rel.Keys :: []
    ensures FirstPart(rel, ids, |ids|) == rel
  {
    assert ids[..|ids|] == ids;
  }

  lemma RelationAt(plan: seq<SubTask>, i: nat)
    requires i < |plan| && Distinct(Ids(plan))
    ensures plan[i].id == Ids(plan)[i] && plan[i].id in PlanRelation(plan)
    ensures PlanRelation(plan)[plan[i].id] == plan[i].dependsOn
  {
    assert Ids(plan)[i] in Ids(plan);
    DepsAt(plan, i);
  }

  method BuildTables(plan: seq<SubTask>) returns (indeg: InDegrees, adj: Dependents)
    requires Distinct(Ids(plan)) && Closed(PlanRelation(plan), PlanRelation(plan).Keys)
    ensures Tables(PlanRelation(plan).Keys, PlanRelation(plan), indeg, adj)
  {
    hide Tables, FirstPart, DepsIn;
    ghost var rel := PlanRelation(plan);
    ghost var ids := Ids(plan);
    indeg := map id | id in Ids(plan) :: 0;
    adj := map id | id in Ids(plan) :: [];
    EmptyTables(rel.Keys);
    PartBounds(rel, ids);
    assert indeg == map id | id in rel.Keys :: 0;
    assert adj == map id | id in rel.Keys :: [];
    var i := 0;
    while i < |plan|
      invariant 0 <= i <= |plan| && Tables(rel.Keys, FirstPart(rel, ids, i), indeg, adj)
    {
      RelationAt(plan, i);
      NextPart(rel, ids, i);
      forall d | d in plan[i].dependsOn ensures d in rel.Keys { assert Edge(rel, plan[i].id, d); }
      indeg, adj := AddEdges(plan[i], indeg, adj, rel.Keys, FirstPart(rel, ids, i));
      i := i + 1;
    }
  }

  // ---- Kahn's algorithm

  /** The nodes popped so far, in order; each one's dependencies were popped before it. */
  ghost predicate Topological(rel: Relation<Id>, popped: seq<Id>) {
    && Distinct(popped)
    && forall k, d :: 0 <= k < |popped| && popped[k] in rel && d in rel[popped[k]] ==> d in popped[..k]
  }

  /** Between two pops: every unpopped node counts its unpopped dependencies, and the queue
      holds exactly the unpopped nodes that wait for nothing. */
  ghost predicate Counting(rel: Relation<Id>, popped: set<Id>, indeg: InDegrees, queue: seq<Id>) {
    && indeg.Keys == rel.Keys && popped <= rel.Keys
    && (forall m :: m in rel ==> indeg[m] == Left(rel[m], popped))
    && Distinct(queue)
    && forall m :: m in queue <==> m in rel && m !in popped && indeg[m] == 0
  }

  /** In the middle of a pop of `n`: the first dependents have been told. */
  ghost predicate Telling(rel: Relation<Id>, popped: set<Id>, n: Id, told: multiset<Id>, indeg: InDegrees,
                          queue: seq<Id>) {
    && indeg.Keys == rel.Keys && popped <= rel.Keys && n in rel && n !in popped
    && Left(rel[n], popped) == 0
    && (forall m :: m in rel ==> indeg[m] + told[m] == Left(rel[m], popped))
    && Distinct(queue)
    && forall m :: m in queue <==> m in rel && m !in popped && m != n && indeg[m] == 0
  }

  lemma PopKeepsCount(rel: Relation<Id>, popped: set<Id>, n: Id, indeg: InDegrees, queue: seq<Id>)
    requires Counting(rel, popped, indeg, queue) && queue != [] && n == queue[|queue| - 1]
    ensures n in rel && n !in popped && Telling(rel, popped, n, multiset{}, indeg, queue[..|queue| - 1])
  {
    var rest := queue[..|queue| - 1];
    assert queue == rest + [n];
    forall m ensures m in rest <==> m in rel && m !in popped && m != n && indeg[m] == 0 {
      if m in rest { var k :| 0 <= k < |rest| && rest[k] == m; assert queue[k] != queue[|queue| - 1]; }
    }
  }

  lemma ToldMoreThanOnce(rel: Relation<Id>, popped: set<Id>, n: Id, told: multiset<Id>, indeg: InDegrees,
                         queue: seq<Id>, m: Id)
    requires Telling(rel, popped, n, told, indeg, queue) && m in rel
    requires told[m] < multiset(rel[m])[n]
    ensures m in indeg && indeg[m] > 0 && m != n && m !in queue
    ensures var queue' := if indeg[m] == 1 then queue + [m] else queue;
            m !in popped ==> Telling(rel, popped, n, told + multiset{m}, indeg[m := indeg[m] - 1], queue')
  {
    LeftDrops(rel[m], popped, n);
    LeftZero(rel[n], popped);
    assert multiset(rel[n])[n] == 0;
  }

  lemma ToldAll(rel: Relation<Id>, popped: set<Id>, n: Id, told: multiset<Id>, indeg: InDegrees, queue: seq<Id>)
    requires Telling(rel, popped, n, told, indeg, queue)
    requires forall m :: m in rel ==> told[m] == multiset(rel[m])[n]
    ensures Counting(rel, popped + {n}, indeg, queue)
  {
    forall m | m in rel ensures indeg[m] == Left(rel[m], popped + {n}) { LeftDrops(rel[m], popped, n); }
  }

  method InitialQueue(plan: seq<SubTask>, indeg: InDegrees) returns (queue: seq<Id>)
    requires Distinct(Ids(plan)) && forall id :: id in Ids(plan) ==> id in indeg
    ensures Distinct(queue)
    ensures forall m :: m in queue <==> m in Ids(plan) && indeg[m] == 0
  {
    hide Ids;
    ghost var ids := Ids(plan);
    queue := [];
    var i := 0;
    while i < |plan|
      invariant 0 <= i <= |plan| && Distinct(queue)
      invariant forall m :: m in queue <==> m in ids[..i] && indeg[m] == 0
    {
      NextId(ids, i);
      if indeg[plan[i].id] == 0 {
        queue := queue + [plan[i].id];
      }
      i := i + 1;
    }
    assert ids[..i] == ids;
  }

  lemma NextId(ids: seq<Id>, i: nat)
    requires i < |ids| && Distinct(ids)
    ensures ids[i] !in ids[..i] && forall m :: m in ids[..i + 1] <==> m in ids[..i] || m == ids[i]
  {
    assert ids[..i + 1] == ids[..i] + [ids[i]];
  }

  lemma CountingStarts(nodes: set<Id>, rel: Relation<Id>, indeg: InDegrees, adj: Dependents, queue: seq<Id>)
    requires Tables(nodes, rel, indeg, adj) && Distinct(queue)
    requires forall m :: m in queue <==> m in nodes && indeg[m] == 0
    ensures Counting(rel, {}, indeg, queue)
  {
    forall m | m in rel ensures indeg[m] == Left(rel[m], {}) { LeftOfNone(rel[m]); }
  }

  ghost predicate WaitsOutside(rel: Relation<Id>, id: Id, popped: seq<Id>) {
    id in rel && exists d :: d in rel[id] && d !in popped
  }

  lemma CountingEnds(rel: Relation<Id>, done: set<Id>, popped: seq<Id>, indeg: InDegrees, id: Id)
    requires Counting(rel, done, indeg, []) && forall x :: x in done <==> x in popped
    requires id in rel && id !in popped
    ensures WaitsOutside(rel, id, popped)
  {
    LeftZero(rel[id], done);
    assert id !in [];
    var d :| d in rel[id] && d !in done;
  }

  /** What the popped nodes have in common: they are nodes, and so are their dependencies. */
  ghost predicate Popped(rel: Relation<Id>, done: set<Id>, popped: seq<Id>) {
    && Topological(rel, popped)
    && (forall id :: id in done <==> id in popped)
    && forall m :: m in done ==> m in rel && forall d :: d in rel[m] ==> d in done
  }

  lemma PopIsSound(rel: Relation<Id>, done: set<Id>, popped: seq<Id>, n: Id, told: multiset<Id>, indeg: InDegrees,
                   queue: seq<Id>)
    requires Popped(rel, done, popped) && Telling(rel, done, n, told, indeg, queue)
    ensures Popped(rel, done + {n}, popped + [n])
    ensures |rel.Keys - (done + {n})| < |rel.Keys - done|
  {
    LeftZero(rel[n], done);
    PopIsTopological(rel, popped, n);
    assert rel.Keys - (done + {n}) == (rel.Keys - done) - {n};
  }

  /** Pop nodes that wait for nothing until none is left. */
  method Kahn(plan: seq<SubTask>, indeg0: InDegrees, adj: Dependents) returns (seen: nat, ghost popped: seq<Id>)
    requires Tables(PlanRelation(plan).Keys, PlanRelation(plan), indeg0, adj) && Distinct(Ids(plan))
    ensures seen == |popped| && Topological(PlanRelation(plan), popped)
    ensures forall id :: id in popped ==> id in PlanRelation(plan)
    ensures forall id {:trigger WaitsOutside(PlanRelation(plan), id, popped)} ::
              id in PlanRelation(plan) && id !in popped ==> WaitsOutside(PlanRelation(plan), id, popped)
  {
    hide Counting, Telling, Left, Topological, Converse;
    ghost var rel := PlanRelation(plan);
    var indeg := indeg0;
    var queue := InitialQueue(plan, indeg);
    CountingStarts(rel.Keys, rel, indeg, adj, queue);
    ghost var done: set<Id> := {};
    seen, popped := 0, [];
    NothingPopped(rel);
    while queue != []
      invariant seen == |popped| && Popped(rel, done, popped) && Counting(rel, done, indeg, queue)
      decreases |rel.Keys - done|
    {
      var n := queue[|queue| - 1];
      PopKeepsCount(rel, done, n, indeg, queue);
      queue := queue[..|queue| - 1];
      seen := seen + 1;
      PopIsSound(rel, done, popped, n, multiset{}, indeg, queue);
      indeg, queue := TellDependents(rel, adj, done, n, indeg, queue);
      done, popped := done + {n}, popped + [n];
    }
    forall id {:trigger WaitsOutside(rel, id, popped)} | id in rel && id !in popped
      ensures WaitsOutside(rel, id, popped)
    {
      CountingEnds(rel, done, popped, indeg, id);
    }
  }

  lemma NothingPopped(rel: Relation<Id>)
    ensures Popped(rel, {}, [])
  {
  }

  lemma PopIsTopological(rel: Relation<Id>, popped: seq<Id>, n: Id)
    requires Topological(rel, popped) && n in rel && n !in popped && forall d :: d in rel[n] ==> d in popped
    ensures Topological(rel, popped + [n])
  {
    var after := popped + [n];
    forall k, d | 0 <= k < |after| && after[k] in rel && d in rel[after[k]] ensures d in after[..k] {
      assert after[..k] == popped[..k];
      if k == |popped| { assert popped[..k] == popped; }
    }
  }

  method TellDependents(ghost rel: Relation<Id>, adj: Dependents, ghost done: set<Id>, n: Id, indeg0: InDegrees,
                        queue0: seq<Id>)
    returns (indeg: InDegrees, queue: seq<Id>)
    requires n in rel && n !in done && adj.Keys == rel.Keys
    requires forall m :: m in adj[n] ==> m in rel
    requires forall m :: m in rel ==> Converse(rel, adj, n, m)
    requires Telling(rel, done, n, multiset{}, indeg0, queue0)
    requires forall m :: m in done ==> forall d :: d in rel[m] ==> d in done
    ensures Counting(rel, done + {n}, indeg, queue)
  {
    hide Telling, Counting, Left;
    indeg, queue := indeg0, queue0;
    assert multiset(adj[n][..0]) == multiset{};
    var j := 0;
    while j < |adj[n]|
      invariant 0 <= j <= |adj[n]|
      invariant Telling(rel, done, n, multiset(adj[n][..j]), indeg, queue)
    {
      var m := adj[n][j];
      assert adj[n] == adj[n][..j] + [m] + adj[n][j + 1..];
      assert adj[n][..j + 1] == adj[n][..j] + [m];
      assert multiset(adj[n])[m] >= multiset(adj[n][..j])[m] + 1;
      assert Converse(rel, adj, n, m);
      ToldMoreThanOnce(rel, done, n, multiset(adj[n][..j]), indeg, queue, m);
      assert n in multiset(rel[m]);
      assert m !in done;
      indeg := indeg[m := indeg[m] - 1];
      if indeg[m] == 0 {
        queue := queue + [m];
      }
      j := j + 1;
    }
    assert adj[n][..j] == adj[n];
    forall m | m in rel ensures multiset(adj[n])[m] == multiset(rel[m])[n] { assert Converse(rel, adj, n, m); }
    ToldAll(rel, done, n, multiset(adj[n]), indeg, queue);
  }

  // ---- validate

  /** A topological order of every node ranks the plan. */
  lemma TopologicalRanks(rel: Relation<Id>, popped: seq<Id>) returns (rank: map<Id, int>)
    requires Topological(rel, popped) && forall id :: id in rel ==> id in popped
    ensures Ranks(rel, rel.Keys, rank)
  {
    rank := map id | id in popped :: IndexOf(popped, id);
    forall x, y | x in rel && y in rel && Edge(rel, x, y) ensures rank[y] < rank[x] {
      var k := IndexOf(popped, x);
      assert popped[k] == x && y in popped[..k];
      var i :| 0 <= i < k && popped[..k][i] == y;
      assert popped[i] == y;
      var j := IndexOf(popped, y);
      assert j == i;
    }
  }

  function IndexOf(s: seq<Id>, x: Id): (i: nat)
    requires x in s
    ensures i < |s| && s[i] == x
  {
    if s[0] == x then 0 else 1 + IndexOf(s[1..], x)
  }

  method Duplicated(plan: seq<SubTask>) returns (found: bool)
    ensures found <==> !Distinct(Ids(plan))
  {
    var ids := Ids(plan);
    var i := 0;
    while i < |ids|
      invariant 0 <= i <= |ids| && forall a, b :: 0 <= a < b < i ==> ids[a] != ids[b]
    {
      if ids[i] in ids[..i] {
        var a :| 0 <= a < i && ids[..i][a] == ids[i];
        assert ids[a] == ids[i];
        return true;
      }
      forall a | 0 <= a < i ensures ids[a] != ids[i] { assert ids[..i][a] == ids[a]; }
      i := i + 1;
    }
    found := false;
  }

  method Dangling(plan: seq<SubTask>) returns (found: bool)
    requires Distinct(Ids(plan))
    ensures found <==> !Closed(PlanRelation(plan), PlanRelation(plan).Keys)
  {
    ghost var rel := PlanRelation(plan);
    var ids := Ids(plan);
    var i := 0;
    while i < |plan|
      invariant 0 <= i <= |plan|
      invariant forall k, d :: 0 <= k < i && d in plan[k].dependsOn ==> d in ids
    {
      DepsAt(plan, i);
      if d :| d in plan[i].dependsOn && d !in ids {
        assert ids[i] in rel && Edge(rel, ids[i], d);
        return true;
      }
      i := i + 1;
    }
    forall x, y | x in rel && Edge(rel, x, y) ensures y in rel {
      var k :| 0 <= k < |ids| && ids[k] == x;
      DepsAt(plan, k);
    }
    found := false;
  }

  /** The three structural defects, in the order they are looked for; each is reported if and
      only if the plan has it and none of the earlier ones. */
  method Validate(plan: seq<SubTask>) returns (r: Problem, ghost rank: map<Id, int>)
    ensures r.DuplicateIds? <==> !Distinct(Ids(plan))
    ensures r.DanglingDependency? <==> Distinct(Ids(plan)) && !Closed(PlanRelation(plan), PlanRelation(plan).Keys)
    ensures r.DependencyCycle? <==>
              Distinct(Ids(plan)) && Closed(PlanRelation(plan), PlanRelation(plan).Keys) && Cyclic(PlanRelation(plan))
    ensures r.NoProblem? ==> Ranks(PlanRelation(plan), PlanRelation(plan).Keys, rank)
  {
    rank := map[];
    var bad := Duplicated(plan);
    if bad {
      return DuplicateIds, rank;
    }
    bad := Dangling(plan);
    if bad {
      return DanglingDependency, rank;
    }
    var indeg, adj := BuildTables(plan);
    var seen, popped := Kahn(plan, indeg, adj);
    ghost var rel := PlanRelation(plan);
    if seen != |plan| {
      MissedIsStuck(rel, Ids(plan), popped);
      StuckHasCycle(rel, set id | id in rel && id !in popped);
      return DependencyCycle, rank;
    }
    AllPopped(Ids(plan), popped);
    rank := TopologicalRanks(rel, popped);
    RankedIsAcyclic(rel, rank);
    r := NoProblem;
  }

  lemma MissedIsStuck(rel: Relation<Id>, ids: seq<Id>, popped: seq<Id>)
    requires Distinct(ids) && (forall id :: id in ids <==> id in rel) && Closed(rel, rel.Keys)
    requires Distinct(popped) && |popped| != |ids| && forall id :: id in popped ==> id in rel
    requires forall id {:trigger WaitsOutside(rel, id, popped)} :: id in rel && id !in popped ==>
               WaitsOutside(rel, id, popped)
    ensures Stuck(rel, set id | id in rel && id !in popped)
  {
    var stuck := set id | id in rel && id !in popped;
    forall x {:trigger WaitsFor(rel, x, stuck)} | x in stuck ensures WaitsFor(rel, x, stuck) {
      assert WaitsOutside(rel, x, popped);
      var d :| d in rel[x] && d !in popped;
      assert Edge(rel, x, d);
    }
    if stuck == {} {
      forall id | id in ids ensures id in popped { assert id !in stuck; }
      SameLength(ids, popped);
    }
  }

  lemma SameLength(a: seq<Id>, b: seq<Id>)
    requires Distinct(a) && Distinct(b) && forall x :: x in a <==> x in b
    ensures |a| == |b|
  {
    var s := set x | x in a;
    assert s == set x | x in b;
    DistinctSize(a);
    DistinctSize(b);
  }

  lemma {:induction false} DistinctSize(a: seq<Id>)
    requires Distinct(a)
    ensures |set x | x in a| == |a|
  {
    if a != [] {
      forall i, j | 0 <= i < j < |a[1..]| ensures a[1..][i] != a[1..][j] { assert a[i + 1] != a[j + 1]; }
      DistinctSize(a[1..]);
      assert (set x | x in a) == {a[0]} + set x | x in a[1..];
      assert a[0] !in a[1..];
    }
  }

  lemma AllPopped(ids: seq<Id>, popped: seq<Id>)
    requires Distinct(ids) && Distinct(popped) && |ids| == |popped| && forall id :: id in popped ==> id in ids
    ensures forall id :: id in ids ==> id in popped
  {
    var a, b := set x | x in ids, set x | x in popped;
    DistinctSize(ids);
    DistinctSize(popped);
    assert b <= a;
    if exists id :: id in ids && id !in popped {
      var id :| id in ids && id !in popped;
      DistinctFits(popped, a - {id});
    }
  }

  // ---- sanitizing a plan

  function KnownOthers(deps: seq<Id>, ids: set<Id>, self: Id): (kept: seq<Id>)
    ensures forall d :: d in kept <==> d in deps && d in ids && d != self
  {
    if deps == [] then []
    else (if deps[0] in ids && deps[0] != self then [deps[0]] else []) + KnownOthers(deps[1..], ids, self)
  }

  function IdSet(plan: seq<SubTask>): set<Id> {
    set id | id in Ids(plan)
  }

  function SanitizedTask(st: SubTask, ids: set<Id>, agents: seq<string>): SubTask
    requires agents != []
  {
    var fallback := if "researcher" in agents then "researcher" else agents[0];
    st.(agent := if st.agent in agents then st.agent else fallback,
        dependsOn := KnownOthers(st.dependsOn, ids, st.id))
  }

  /** Unknown agents, dangling dependencies and self-dependencies are removed. */
  method Sanitize(plan: seq<SubTask>, agents: seq<string>) returns (out: seq<SubTask>)
    requires agents != []
    ensures |out| == |plan| && Ids(out) == Ids(plan)
    ensures forall i :: 0 <= i < |plan| ==> out[i] == SanitizedTask(plan[i], IdSet(plan), agents)
  {
    hide Ids, KnownOthers;
    var ids := IdSet(plan);
    out := [];
    var i := 0;
    while i < |plan|
      invariant 0 <= i <= |plan| && |out| == i
      invariant forall k :: 0 <= k < i ==> out[k] == SanitizedTask(plan[k], ids, agents)
    {
      out := out + [SanitizedTask(plan[i], ids, agents)];
      i := i + 1;
    }
    SameIds(plan, out);
  }

  lemma SameIds(a: seq<SubTask>, b: seq<SubTask>)
    requires |a| == |b| && forall i :: 0 <= i < |a| ==> a[i].id == b[i].id
    ensures Ids(a) == Ids(b)
  {
    forall i | 0 <= i < |a| ensures Ids(a)[i] == Ids(b)[i] {}
  }

  /** After sanitizing, only repeated ids and cycles through at least two subtasks can remain. */
  lemma SanitizedPlan(plan: seq<SubTask>, agents: seq<string>, out: seq<SubTask>)
    requires agents != [] && |out| == |plan| && Ids(out) == Ids(plan)
    requires forall i :: 0 <= i < |plan| ==> out[i] == SanitizedTask(plan[i], IdSet(plan), agents)
    ensures forall i :: 0 <= i < |out| ==>
              && out[i].agent in agents && out[i].brief == plan[i].brief
              && (plan[i].agent in agents ==> out[i].agent == plan[i].agent)
              && (plan[i].agent !in agents && "researcher" in agents ==> out[i].agent == "researcher")
              && (forall d :: d in out[i].dependsOn <==> d in plan[i].dependsOn && d in Ids(plan) && d != plan[i].id)
    ensures Distinct(Ids(out)) ==> Closed(PlanRelation(out), PlanRelation(out).Keys)
    ensures Distinct(Ids(out)) ==> forall p :: IsCycle(PlanRelation(out), p) ==> p[0] != p[1] && |p| > 2
  {
    hide Ids, KnownOthers, DepsIn, Distinct;
    var rel := PlanRelation(out);
    if Distinct(Ids(out)) {
      forall x, y | x in rel && Edge(rel, x, y) ensures y in rel && x != y {
        var k :| 0 <= k < |out| && Ids(out)[k] == x;
        RelationAt(out, k);
      }
      forall p | IsCycle(rel, p) ensures p[0] != p[1] && |p| > 2 {
        assert Edge(rel, p[0], p[0 + 1]);
      }
    }
  }
}
