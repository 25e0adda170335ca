/** The reference semantics of a plan: one subtask at a time, always the first runnable one
    in plan order, until nothing is runnable; whatever is left is blocked. */
module Sequential {
  import opened Wrappers
  import opened Plans
  import opened Attempts
  import opened Cycles

  function FirstRunnable(order: seq<Id>, m: States): (r: Option<Id>)
    ensures r.Some? ==> r.value in order && Runnable(r.value, m)
    ensures r.None? ==> forall id :: id in order ==> !Runnable(id, m)
  {
    if order == [] then None
    else if Runnable(order[0], m) then Some(order[0])
    else FirstRunnable(order[1..], m)
  }

  function BlockRest(m: States): States {
    map id | id in m :: if m[id].status.Pending? then Block(m[id]) else m[id]
  }

  function PendingIds(m: States): set<Id> {
    set id | id in m && m[id].status.Pending?
  }

  function Evaluate(env: Env, order: seq<Id>, m: States): States
    decreases |PendingIds(m)|
  {
    match FirstRunnable(order, m)
    case None => BlockRest(m)
    case Some(id) =>
      var done := Attempt(env, m[id], DependencyResults(m[id].spec.dependsOn, m));
      AttemptIsHonest(env, m[id], DependencyResults(m[id].spec.dependsOn, m));
      assert PendingIds(m[id := done]) == PendingIds(m) - {id};
      Evaluate(env, order, m[id := done])
  }

  /** Where an evaluation may start: nothing is running, and a blocked subtask has been erased. */
  ghost predicate AtRest(m: States) {
    forall id :: id in m ==> !m[id].status.Running? && Erase(m[id]) == m[id]
  }

  /** `f` is what `m` evaluates to, entry by entry: an entry that is not pending is kept (this
      covers restored subtasks), a pending one takes its own outcome on its dependencies'
      results in `f` when they all completed satisfyingly, and is blocked otherwise. */
  ghost predicate IsOutcome(env: Env, m: States, f: States) {
    && f.Keys == m.Keys
    && forall id :: id in m ==>
         f[id] == if !m[id].status.Pending? then m[id]
                  else if Satisfied(m[id].spec.dependsOn, f)
                  then Attempt(env, m[id], DependencyResults(m[id].spec.dependsOn, f))
                  else Block(m[id])
  }

  lemma BlockingTheRest(env: Env, order: seq<Id>, m: States)
    requires Keyed(order, m) && AtRest(m) && FirstRunnable(order, m).None?
    ensures IsOutcome(env, m, BlockRest(m))
  {
    var f := BlockRest(m);
    forall id | id in m && m[id].status.Pending? ensures !Satisfied(m[id].spec.dependsOn, f) {
      assert !Runnable(id, m);
      var d :| d in m[id].spec.dependsOn && !(d in m && m[d].status.Satisfying());
    }
  }

  lemma RunningOne(env: Env, m: States, id: Id, done: SubTaskState, f: States)
    requires AtRest(m) && Runnable(id, m)
    requires done == Attempt(env, m[id], DependencyResults(m[id].spec.dependsOn, m)) && !done.status.Pending?
    requires IsOutcome(env, m[id := done], f)
    ensures IsOutcome(env, m, f)
  {
    var deps := m[id].spec.dependsOn;
    forall d | d in deps ensures d in m && d in f && f[d] == m[d] {
      assert d in m && d != id;
    }
    DependencyAgree(deps, m, f);
    forall x | x in m && x != id ensures m[id := done][x] == m[x] {}
  }

  lemma EvaluateStep(env: Env, order: seq<Id>, m: States) returns (id: Id, done: SubTaskState)
    requires Keyed(order, m) && AtRest(m) && FirstRunnable(order, m).Some?
    ensures Runnable(id, m) && done == Attempt(env, m[id], DependencyResults(m[id].spec.dependsOn, m))
    ensures !done.status.Pending?
    ensures Keyed(order, m[id := done]) && AtRest(m[id := done])
    ensures |PendingIds(m[id := done])| < |PendingIds(m)|
    ensures Evaluate(env, order, m) == Evaluate(env, order, m[id := done])
  {
    id := FirstRunnable(order, m).value;
    var deps := DependencyResults(m[id].spec.dependsOn, m);
    done := Attempt(env, m[id], deps);
    AttemptIsHonest(env, m[id], deps);
    assert PendingIds(m[id := done]) == PendingIds(m) - {id};
  }

  lemma {:induction false} EvaluateIsOutcome(env: Env, order: seq<Id>, m: States)
    requires Keyed(order, m) && AtRest(m)
    ensures IsOutcome(env, m, Evaluate(env, order, m))
    decreases |PendingIds(m)|
  {
    if FirstRunnable(order, m).None? {
      BlockingTheRest(env, order, m);
    } else {
      var id, done := EvaluateStep(env, order, m);
      EvaluateIsOutcome(env, order, m[id := done]);
      RunningOne(env, m, id, done, Evaluate(env, order, m));
    }
  }

  /** Every outcome is final, and keeps specifications. */
  lemma OutcomeIsTerminal(env: Env, m: States, f: States)
    requires IsOutcome(env, m, f) && AtRest(m)
    ensures forall id :: id in f ==> f[id].status.Terminal() && f[id].spec == m[id].spec && Erase(f[id]) == f[id]
  {
    forall id | id in f
      ensures f[id].status.Terminal() && f[id].spec == m[id].spec && Erase(f[id]) == f[id]
    {
      if m[id].status.Pending? {
        AttemptIsHonest(env, m[id], DependencyResults(m[id].spec.dependsOn, f));
      }
    }
  }

  // ---- what the outcome of a validated plan means

  function Relations(m: States): Relation<Id> {
    map id | id in m :: m[id].spec.dependsOn
  }

  ghost predicate LeadsToFailure(m: States, f: States, id: Id, p: seq<Id>) {
    && IsPath(Relations(m), p) && |p| > 1 && p[0] == id
    && p[|p| - 1] in f && f[p[|p| - 1]].status.Failed?
  }

  /** With nothing restored, the blocked subtasks of a plan without cycles and dangling
      dependencies are exactly those that depend, directly or not, on a failed one. */
  lemma BlockedAreDescendantsOfFailed(env: Env, m: States, f: States, rank: map<Id, int>, id: Id)
    requires IsOutcome(env, m, f) && AtRest(m)
    requires forall x :: x in m ==> m[x].status.Pending?
    requires Closed(Relations(m), m.Keys) && Ranks(Relations(m), m.Keys, rank)
    requires id in m
    ensures f[id].status.Blocked? <==> exists p :: LeadsToFailure(m, f, id, p)
  {
    OutcomeIsTerminal(env, m, f);
    if f[id].status.Blocked? {
      var _ := FailureAbove(env, m, f, rank, id, {});
    }
    if p :| LeadsToFailure(m, f, id, p) {
      BlockedAlong(env, m, f, id, p);
    }
  }

  /** A blocked subtask has a dependency that is not satisfied. */
  lemma Culprit(env: Env, m: States, f: States, id: Id) returns (d: Id)
    requires IsOutcome(env, m, f) && id in m && m[id].status.Pending? && f[id].status.Blocked?
    ensures d in m[id].spec.dependsOn && !(d in f && f[d].status.Satisfying()) && f.Keys == m.Keys
  {
    hide Attempt, DependencyResults;
    AttemptIsHonest(env, m[id], DependencyResults(m[id].spec.dependsOn, f));
    assert !Satisfied(m[id].spec.dependsOn, f);
    d :| d in m[id].spec.dependsOn && !(d in f && f[d].status.Satisfying());
  }

  lemma {:induction false} FailureAbove(env: Env, m: States, f: States, rank: map<Id, int>, id: Id, below: set<Id>)
    returns (p: seq<Id>)
    requires IsOutcome(env, m, f) && AtRest(m)
    requires forall x :: x in m ==> m[x].status.Pending?
    requires Closed(Relations(m), m.Keys) && Ranks(Relations(m), m.Keys, rank)
    requires id in m && f[id].status.Blocked?
    requires below <= m.Keys && forall x :: x in below ==> rank[id] < rank[x]
    ensures LeadsToFailure(m, f, id, p)
    decreases m.Keys - below
  {
    hide Attempt, DependencyResults, IsOutcome, Satisfied;
    OutcomeIsTerminal(env, m, f);
    var d := Culprit(env, m, f, id);
    assert Edge(Relations(m), id, d);
    if f[d].status.Failed? {
      p := [id, d];
    } else {
      assert id in (m.Keys - below) && id !in m.Keys - (below + {id});
      var q := FailureAbove(env, m, f, rank, d, below + {id});
      p := [id] + q;
      forall i | 0 <= i < |p| - 1 ensures Edge(Relations(m), p[i], p[i + 1]) {
        if i > 0 { assert Edge(Relations(m), q[i - 1], q[i - 1 + 1]); }
      }
    }
  }

  lemma {:induction false} BlockedAlong(env: Env, m: States, f: States, id: Id, p: seq<Id>)
    requires IsOutcome(env, m, f) && AtRest(m)
    requires forall x :: x in m ==> m[x].status.Pending?
    requires id in m && LeadsToFailure(m, f, id, p)
    ensures f[id].status.Blocked?
    decreases |p|
  {
    assert Edge(Relations(m), p[0], p[0 + 1]);
    assert p[1] in m[id].spec.dependsOn;
    if |p| > 2 && p[1] in m {
      assert IsPath(Relations(m), p[1..]) by {
        forall i | 0 <= i < |p[1..]| - 1 ensures Edge(Relations(m), p[1..][i], p[1..][i + 1]) {
          assert Edge(Relations(m), p[i + 1], p[i + 1 + 1]);
        }
      }
      BlockedAlong(env, m, f, p[1], p[1..]);
    }
    assert !Satisfied(m[id].spec.dependsOn, f);
  }
}
