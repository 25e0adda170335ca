/** Whole runs of the transition system: safety in every reachable state, absence of
    deadlock, a bound on the length of every run, and confluence. */
module Confluence {
  import opened Collections
  import opened Wrappers
  import opened Plans
  import opened Attempts
  import opened Sequential
  import opened Interleaving

  ghost predicate Possible(env: Env, cap: nat, s: Sys, es: seq<Event>)
    decreases |es|
  {
    es == [] || (Enabled(env, cap, s, es[0]) && Possible(env, cap, Step(env, cap, s, es[0]), es[1..]))
  }

  ghost function After(env: Env, cap: nat, s: Sys, es: seq<Event>): Sys
    requires Possible(env, cap, s, es)
    decreases |es|
  {
    if es == [] then s else After(env, cap, Step(env, cap, s, es[0]), es[1..])
  }

  /** Nothing in flight and nothing to dispatch. */
  ghost predicate Dry(s: Sys) {
    s.flight == map[] && forall id :: id in s.subtasks ==> !CanDispatch(s, id)
  }

  // ---- every reachable state

  ghost predicate RunningIds(s: Sys, ids: set<Id>) {
    forall id :: id in ids <==> id in s.subtasks && s.subtasks[id].status.Running?
  }

  /** What an observer may rely on at any moment of a run that has not been stopped. */
  ghost predicate Safe(base: States, s: Sys) {
    // the running subtasks are exactly those that hold a lease
    && RunningIds(s, Holders(s))
    // whatever ran, ran on satisfied dependencies
    && forall id :: id in s.subtasks && id in base && base[id].status.Pending?
                    && (s.subtasks[id].status.Running? || s.subtasks[id].status.Satisfying()
                        || s.subtasks[id].status.Failed?)
                    ==> Satisfied(s.subtasks[id].spec.dependsOn, s.subtasks)
  }

  lemma InvIsSafe(env: Env, base: States, f: States, s: Sys)
    requires Inv(env, base, f, s)
    ensures base.Keys == s.subtasks.Keys && Safe(base, s)
  {
    forall id | id in s.subtasks
      ensures id in Holders(s) <==> s.subtasks[id].status.Running?
      ensures base[id].status.Pending?
              && (s.subtasks[id].status.Running? || s.subtasks[id].status.Satisfying() || s.subtasks[id].status.Failed?)
              ==> Satisfied(s.subtasks[id].spec.dependsOn, s.subtasks)
    {
      assert Follows(env, base, f, s, id);
    }
  }

  lemma LeasesBounded(env: Env, cap: nat, s: Sys, e: Event)
    requires Enabled(env, cap, s, e) && |Holders(s)| <= cap
    ensures |Holders(Step(env, cap, s, e))| <= cap
  {
    var s' := Step(env, cap, s, e);
    match e {
      case DispatchEvent(id) => SubsetSize(Holders(s'), Holders(s));
      case StartEvent(id) => SubsetSize(Holders(s'), Holders(s) + {id});
      case ResumeEvent(id) => SubsetSize(Holders(s'), Holders(s));
      case CutEvent(id, _) => assert Holders(s') == Holders(s);
    }
  }

  lemma {:induction false} ReachableInv(env: Env, cap: nat, base: States, f: States, s: Sys, es: seq<Event>)
    requires Inv(env, base, f, s) && Possible(env, cap, s, es) && |Holders(s)| <= cap
    ensures Inv(env, base, f, After(env, cap, s, es)) && |Holders(After(env, cap, s, es))| <= cap
    decreases |es|
  {
    if es != [] {
      StepKeeps(env, cap, base, f, s, es[0]);
      LeasesBounded(env, cap, s, es[0]);
      ReachableInv(env, cap, base, f, Step(env, cap, s, es[0]), es[1..]);
    }
  }

  /** Safety of every state that any interleaving reaches. */
  lemma ReachableIsSafe(env: Env, cap: nat, order: seq<Id>, m: States, es: seq<Event>)
    requires Keyed(order, m) && AtRest(m) && Possible(env, cap, Initial(order, m), es)
    ensures var s := After(env, cap, Initial(order, m), es);
            s.subtasks.Keys == m.Keys && Safe(m, s) && |Holders(s)| <= cap
  {
    var f := Evaluate(env, order, m);
    EvaluateIsOutcome(env, order, m);
    InitialInv(env, order, m, f);
    assert Holders(Initial(order, m)) == {};
    ReachableInv(env, cap, m, f, Initial(order, m), es);
    InvIsSafe(env, m, f, After(env, cap, Initial(order, m), es));
  }

  lemma StepTouchesOne(env: Env, cap: nat, s: Sys, e: Event)
    requires Enabled(env, cap, s, e)
    ensures e.id in s.subtasks && e.id in Step(env, cap, s, e).subtasks
    ensures Step(env, cap, s, e).subtasks == s.subtasks[e.id := Step(env, cap, s, e).subtasks[e.id]]
  {
    if e.DispatchEvent? {
      assert s.subtasks == s.subtasks[e.id := s.subtasks[e.id]];
    }
  }

  lemma ActorIsUnsettled(env: Env, cap: nat, base: States, f: States, s: Sys, e: Event)
    requires Inv(env, base, f, s) && Enabled(env, cap, s, e)
    ensures e.id in s.subtasks && !s.subtasks[e.id].status.Terminal()
  {
    assert Follows(env, base, f, s, e.id);
  }

  lemma RunnableIsNotUnreachable(m: States, id: Id)
    requires Runnable(id, m)
    ensures !Unreachable(id, m)
  {
  }

  lemma RunnableStays(env: Env, cap: nat, base: States, f: States, s: Sys, e: Event, id: Id)
    requires Inv(env, base, f, s) && Enabled(env, cap, s, e)
    requires Runnable(id, s.subtasks) && e != StartEvent(id)
    ensures Runnable(id, Step(env, cap, s, e).subtasks)
  {
    StepTouchesOne(env, cap, s, e);
    ActorIsUnsettled(env, cap, base, f, s, e);
    if !e.DispatchEvent? {
      assert Follows(env, base, f, s, id);
      RunnableIsNotUnreachable(s.subtasks, id);
      assert id != e.id;
      DependencyFrame(s.subtasks[id].spec.dependsOn, s.subtasks, e.id, Step(env, cap, s, e).subtasks[e.id]);
    }
  }

  lemma DispatchesOnce(env: Env, cap: nat, s: Sys, e: Event)
    requires Enabled(env, cap, s, e)
    ensures var s' := Step(env, cap, s, e);
            && s.dispatched <= s'.dispatched
            && forall id :: id in s'.flight && id !in s.flight ==> id !in s.dispatched && id in s'.dispatched
  {
  }

  lemma TerminalStays(env: Env, cap: nat, base: States, f: States, s: Sys, e: Event)
    requires Inv(env, base, f, s) && Enabled(env, cap, s, e)
    ensures var s' := Step(env, cap, s, e);
            && s'.subtasks.Keys == s.subtasks.Keys
            && forall id :: id in s.subtasks && s.subtasks[id].status.Terminal() ==> s'.subtasks[id] == s.subtasks[id]
  {
    hide Inv, Step, Enabled;
    StepTouchesOne(env, cap, s, e);
    ActorIsUnsettled(env, cap, base, f, s, e);
  }

  /** One step changes no terminal entry, never dispatches a subtask again, and keeps a
      runnable subtask runnable unless it is the one that starts. */
  lemma StepIsMonotone(env: Env, cap: nat, base: States, f: States, s: Sys, e: Event, s': Sys)
    requires Inv(env, base, f, s) && Enabled(env, cap, s, e) && s' == Step(env, cap, s, e)
    ensures s'.subtasks.Keys == s.subtasks.Keys
    ensures forall id :: id in s.subtasks && s.subtasks[id].status.Terminal() ==> s'.subtasks[id] == s.subtasks[id]
    ensures forall id :: Runnable(id, s.subtasks) && e != StartEvent(id) ==> Runnable(id, s'.subtasks)
    ensures s.dispatched <= s'.dispatched
    ensures forall id :: id in s'.flight && id !in s.flight ==> id !in s.dispatched && id in s'.dispatched
  {
    TerminalStays(env, cap, base, f, s, e);
    DispatchesOnce(env, cap, s, e);
    forall id | Runnable(id, s.subtasks) && e != StartEvent(id) ensures Runnable(id, s'.subtasks) {
      RunnableStays(env, cap, base, f, s, e, id);
    }
  }

  /** Until the run is dry some step is possible, whatever the pool size. */
  lemma NoDeadlock(env: Env, cap: nat, base: States, f: States, s: Sys)
    requires Inv(env, base, f, s) && 1 <= cap && !Dry(s)
    ensures exists e :: Enabled(env, cap, s, e)
  {
    if id :| id in s.subtasks && CanDispatch(s, id) {
      assert Enabled(env, cap, s, DispatchEvent(id));
    } else {
      var id :| id in s.flight;
      assert Follows(env, base, f, s, id);
      if Holders(s) == {} {
        assert id !in Holders(s);
        assert Enabled(env, cap, s, StartEvent(id));
      } else {
        var h :| h in Holders(s);
        assert Follows(env, base, f, s, h);
        assert Enabled(env, cap, s, ResumeEvent(h));
      }
    }
  }

  // ---- every run is finite

  /** The steps an entry can still take. */
  ghost function Cost(env: Env, base: States, f: States, s: Sys, id: Id): nat {
    if id !in s.subtasks || id !in base then 0
    else
      var st := s.subtasks[id];
      var work := Remaining(env, Begin(env, base[id], DependencyResults(st.spec.dependsOn, f)));
      if st.status.Pending? then (if id in s.flight then 1 else 2) + work
      else if st.status.Running? && id in s.flight && InLoop(env, s.flight[id]) then StepsLeft(env, st, s.flight[id])
      else 0
  }

  ghost function TotalCost(env: Env, base: States, f: States, s: Sys, ids: seq<Id>): nat {
    if ids == [] then 0 else Cost(env, base, f, s, ids[0]) + TotalCost(env, base, f, s, ids[1..])
  }

  ghost function Measure(env: Env, base: States, f: States, s: Sys): nat {
    TotalCost(env, base, f, s, s.order)
  }

  lemma {:induction false} CostsAdd(env: Env, base: States, f: States, s: Sys, s': Sys, ids: seq<Id>, id: Id)
    requires Distinct(ids)
    requires forall x :: x in ids && x != id ==> Cost(env, base, f, s', x) == Cost(env, base, f, s, x)
    requires Cost(env, base, f, s', id) < Cost(env, base, f, s, id)
    ensures TotalCost(env, base, f, s', ids) <= TotalCost(env, base, f, s, ids)
    ensures id in ids ==> TotalCost(env, base, f, s', ids) < TotalCost(env, base, f, s, ids)
  {
    if ids != [] {
      assert ids == [ids[0]] + ids[1..];
      assert Distinct(ids[1..]);
      CostsAdd(env, base, f, s, s', ids[1..], id);
    }
  }

  lemma StartCostFalls(env: Env, base: States, f: States, s: Sys, id: Id)
    requires Inv(env, base, f, s) && id in s.subtasks && id in s.flight && s.flight[id].Queued?
    ensures Cost(env, base, f, Start(env, s, id), id) < Cost(env, base, f, s, id)
  {
    assert Follows(env, base, f, s, id);
    var st := s.subtasks[id];
    SettledAsInOutcome(env, base, f, s, st.spec.dependsOn);
    var p := Begin(env, st, CurrentDeps(s, id));
    BeginShape(env, st, CurrentDeps(s, id));
    assert st == base[id] && st.status.Pending? && CurrentDeps(s, id) == DependencyResults(st.spec.dependsOn, f);
    hide Inv, Follows, Begin, Remaining, DependencyResults, IsOutcome;
    assert Cost(env, base, f, s, id) == 1 + Remaining(env, p);
    assert p.st.spec == st.spec;
    StartedCost(env, base, f, s, id, p);
  }

  /** The entry's cost once it has been put where the step left it. */
  lemma StartedCost(env: Env, base: States, f: States, s: Sys, id: Id, p: Progress)
    requires id in s.subtasks && id in base
    requires if p.Settled? then p.st.status.Terminal() else p.st.status.Running? && InLoop(env, p.phase)
    ensures Cost(env, base, f, Put(s, id, p), id) == Remaining(env, p)
  {
    hide Begin, StepsLeft, DependencyResults;
  }

  lemma BeginShape(env: Env, st: SubTaskState, deps: Deps)
    ensures var p := Begin(env, st, deps);
            && (if p.Settled? then p.st.status.Terminal() else p.st.status.Running? && InLoop(env, p.phase))
            && p.st.spec == st.spec
  {
  }

  lemma AdvanceCostFalls(env: Env, base: States, f: States, s: Sys, id: Id)
    requires Inv(env, base, f, s) && CanResume(env, s, id)
    ensures Cost(env, base, f, Advance(env, s, id), id) < Cost(env, base, f, s, id)
  {
    assert Follows(env, base, f, s, id);
    assert s.subtasks[id].status.Running? && s.flight[id].deps == CurrentDeps(s, id);
    ResumeConcludes(env, s.subtasks[id], s.flight[id]);
    var p := Resume(env, s.subtasks[id], s.flight[id], CurrentDeps(s, id));
    assert Cost(env, base, f, s, id) == 1 + Remaining(env, p);
    assert Cost(env, base, f, Put(s, id, p), id) == Remaining(env, p);
  }

  lemma OwnCostFalls(env: Env, cap: nat, base: States, f: States, s: Sys, e: Event)
    requires Inv(env, base, f, s) && Enabled(env, cap, s, e)
    ensures Cost(env, base, f, Step(env, cap, s, e), e.id) < Cost(env, base, f, s, e.id)
  {
    match e {
      case DispatchEvent(id) =>
        assert Follows(env, base, f, s, id);
      case StartEvent(id) => StartCostFalls(env, base, f, s, id);
      case ResumeEvent(id) => AdvanceCostFalls(env, base, f, s, id);
      case CutEvent(id, _) =>
    }
  }

  lemma StepCosts(env: Env, cap: nat, base: States, f: States, s: Sys, e: Event)
    requires Inv(env, base, f, s) && Enabled(env, cap, s, e)
    ensures Measure(env, base, f, Step(env, cap, s, e)) < Measure(env, base, f, s)
  {
    var s' := Step(env, cap, s, e);
    OwnCostFalls(env, cap, base, f, s, e);
    StepIsLocal(env, cap, s, e);
    hide Step, Enabled, Cost, Follows, IsOutcome;
    forall x | x in s.order && x != e.id ensures Cost(env, base, f, s', x) == Cost(env, base, f, s, x) {
      CostIsLocal(env, base, f, s, s', x);
    }
    CostsAdd(env, base, f, s, s', s.order, e.id);
  }

  /** A step changes the entry it is about and no other. */
  lemma StepIsLocal(env: Env, cap: nat, s: Sys, e: Event)
    requires Enabled(env, cap, s, e)
    ensures var s' := Step(env, cap, s, e);
            s'.order == s.order && forall x | x != e.id :: SameEntry(s, s', x)
  {
    hide Begin, Resume;
  }

  ghost predicate SameEntry(s: Sys, s': Sys, x: Id) {
    && (x in s'.subtasks <==> x in s.subtasks) && (x in s.subtasks ==> s'.subtasks[x] == s.subtasks[x])
    && (x in s'.flight <==> x in s.flight) && (x in s.flight ==> s'.flight[x] == s.flight[x])
  }

  lemma CostIsLocal(env: Env, base: States, f: States, s: Sys, s': Sys, x: Id)
    requires SameEntry(s, s', x)
    ensures Cost(env, base, f, s', x) == Cost(env, base, f, s, x)
  {
    hide Remaining, Begin, StepsLeft;
  }

  /** No run is longer than the measure of its initial state. */
  lemma {:induction false} RunsAreBounded(env: Env, cap: nat, base: States, f: States, s: Sys, es: seq<Event>)
    requires Inv(env, base, f, s) && Possible(env, cap, s, es)
    ensures |es| + Measure(env, base, f, After(env, cap, s, es)) <= Measure(env, base, f, s)
    decreases |es|
  {
    if es != [] {
      StepKeeps(env, cap, base, f, s, es[0]);
      StepCosts(env, cap, base, f, s, es[0]);
      RunsAreBounded(env, cap, base, f, Step(env, cap, s, es[0]), es[1..]);
    }
  }

  // ---- confluence

  /** How far the sequential evaluation has come, seen from a dry concurrent run. */
  ghost predicate Covered(base: States, m: States, s: Sys) {
    && m.Keys == base.Keys == s.subtasks.Keys
    && forall id :: id in m ==>
         && (m[id].status.Pending? || !base[id].status.Pending? ==> m[id] == base[id])
         && (!m[id].status.Pending? && base[id].status.Pending? ==> !s.subtasks[id].status.Pending?)
  }

  lemma SatisfiedThere(env: Env, base: States, f: States, s: Sys, m: States, deps: seq<Id>)
    requires Inv(env, base, f, s) && Dry(s) && Covered(base, m, s)
    requires IsOutcome(env, m, f) && Satisfied(deps, m)
    ensures Satisfied(deps, s.subtasks)
  {
    forall d | d in deps ensures d in s.subtasks && s.subtasks[d].status.Satisfying() {
      assert d in m && m[d].status.Satisfying() && f[d] == m[d];
      assert Follows(env, base, f, s, d);
    }
  }

  lemma FullyCovered(env: Env, base: States, f: States, s: Sys, m: States)
    requires Inv(env, base, f, s) && Dry(s) && Covered(base, m, s)
    requires f == BlockRest(m)
    ensures forall id :: id in s.subtasks && s.subtasks[id].status.Pending? ==> f[id] == Block(s.subtasks[id])
  {
    forall id | id in s.subtasks && s.subtasks[id].status.Pending? ensures f[id] == Block(s.subtasks[id]) {
      assert Follows(env, base, f, s, id);
      assert id !in s.flight;
      if base[id].status.Pending? {
        assert s.subtasks[id] == base[id];
        assert m[id].status.Pending?;
      } else {
        assert base[id] == Block(s.subtasks[id]);
      }
    }
  }

  lemma CoveredStep(env: Env, base: States, f: States, s: Sys, m: States, id: Id, done: SubTaskState)
    requires Inv(env, base, f, s) && Dry(s) && Covered(base, m, s)
    requires IsOutcome(env, m, f) && Runnable(id, m) && !done.status.Pending?
    ensures Covered(base, m[id := done], s)
  {
    hide Finish, Attempt;
    SatisfiedThere(env, base, f, s, m, m[id].spec.dependsOn);
    assert Follows(env, base, f, s, id);
    assert !CanDispatch(s, id);
    assert !s.subtasks[id].status.Pending?;
    var m' := m[id := done];
    assert m'.Keys == m.Keys;
    forall x | x in m'
      ensures (m'[x].status.Pending? || !base[x].status.Pending? ==> m'[x] == base[x])
      ensures !m'[x].status.Pending? && base[x].status.Pending? ==> !s.subtasks[x].status.Pending?
    {
      if x != id { assert m'[x] == m[x]; }
    }
  }

  lemma {:induction false} DryCovers(env: Env, order: seq<Id>, base: States, f: States, s: Sys, m: States)
    requires Inv(env, base, f, s) && Dry(s) && Covered(base, m, s)
    requires Keyed(order, m) && AtRest(m) && f == Evaluate(env, order, m)
    ensures forall id :: id in s.subtasks && s.subtasks[id].status.Pending? ==> f[id] == Block(s.subtasks[id])
    decreases |PendingIds(m)|
  {
    EvaluateIsOutcome(env, order, m);
    if FirstRunnable(order, m).None? {
      FullyCovered(env, base, f, s, m);
    } else {
      var id, done := EvaluateStep(env, order, m);
      CoveredStep(env, base, f, s, m, id, done);
      DryCovers(env, order, base, f, s, m[id := done]);
    }
  }

  lemma DryPending(env: Env, base: States, s: Sys)
    requires Inv(env, base, Evaluate(env, s.order, base), s) && Dry(s)
    ensures var f := Evaluate(env, s.order, base);
            forall id :: id in s.subtasks ==>
              && !s.subtasks[id].status.Running?
              && (s.subtasks[id].status.Pending? ==> f[id] == Block(s.subtasks[id]))
              && (s.subtasks[id].status.Terminal() ==> f[id] == Erase(s.subtasks[id]))
  {
    var f := Evaluate(env, s.order, base);
    forall id | id in s.subtasks
      ensures !s.subtasks[id].status.Running?
      ensures s.subtasks[id].status.Terminal() ==> f[id] == Erase(s.subtasks[id])
    {
      assert Follows(env, base, f, s, id);
    }
    DryCovers(env, s.order, base, f, s, base);
  }

  /** The last thing the scheduler does: what is still pending is blocked. */
  function Unresolve(st: SubTaskState): SubTaskState {
    if st.status.Pending?
    then st.(status := Blocked,
            error := if st.error != "" then st.error else "unresolved dependencies (possible cycle)")
    else st
  }

  function Unresolved(m: States): States {
    map id | id in m :: Unresolve(m[id])
  }

  function EraseAll(m: States): States {
    map id | id in m :: Erase(m[id])
  }

  lemma ClosingADryRun(env: Env, base: States, f: States, s: Sys)
    requires Inv(env, base, f, s) && Dry(s) && f == Evaluate(env, s.order, base)
    ensures EraseAll(Unresolved(s.subtasks)) == f
  {
    DryPending(env, base, s);
    var closed := EraseAll(Unresolved(s.subtasks));
    assert closed.Keys == f.Keys;
    forall id | id in closed ensures closed[id] == f[id] {
      var st := s.subtasks[id];
      assert st.status.Pending? || st.status.Terminal();
    }
  }

  /** Confluence: every interleaving, on every pool, ends in the sequential outcome. */
  lemma EveryRunEndsSequentially(env: Env, cap: nat, order: seq<Id>, m: States, es: seq<Event>)
    requires Keyed(order, m) && AtRest(m) && Possible(env, cap, Initial(order, m), es)
    requires Dry(After(env, cap, Initial(order, m), es))
    ensures EraseAll(Unresolved(After(env, cap, Initial(order, m), es).subtasks)) == Evaluate(env, order, m)
  {
    var s, f := Initial(order, m), Evaluate(env, order, m);
    EvaluateIsOutcome(env, order, m);
    InitialInv(env, order, m, f);
    assert Holders(s) == {};
    ReachableInv(env, cap, m, f, s, es);
    OrderStays(env, cap, s, es);
    ClosingADryRun(env, m, f, After(env, cap, s, es));
  }

  lemma {:induction false} OrderStays(env: Env, cap: nat, s: Sys, es: seq<Event>)
    requires Possible(env, cap, s, es)
    ensures After(env, cap, s, es).order == s.order
    decreases |es|
  {
    if es != [] {
      OrderStays(env, cap, Step(env, cap, s, es[0]), es[1..]);
    }
  }
}
