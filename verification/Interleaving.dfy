/** The concurrent semantics of a plan as a transition system (orchestration/scheduler.py):
    any runnable subtask may be dispatched, any queued one may take a free lease, any leased
    one may be resumed, and any unreachable one may be blocked, in any order.  The scheduler's
    own turns are particular runs of this system. */
module Interleaving {
  import opened Wrappers
  import opened Plans
  import opened Attempts
  import opened Sequential

  /** `flight` maps each unsettled coroutine to where it is suspended; `dispatched` are the
      subtasks a coroutine was ever created for. */
  datatype Sys = Sys(order: seq<Id>, subtasks: States, flight: map<Id, Phase>, dispatched: set<Id>)

  /** The subtasks that hold a lease. */
  function Holders(s: Sys): set<Id> {
    set id | id in s.flight && !s.flight[id].Queued?
  }

  // ---- steps

  function Put(s: Sys, id: Id, p: Progress): Sys {
    match p
    case Settled(st) => s.(subtasks := s.subtasks[id := st], flight := s.flight - {id})
    case Suspended(st, phase) => s.(subtasks := s.subtasks[id := st], flight := s.flight[id := phase])
  }

  function CurrentDeps(s: Sys, id: Id): Deps
    requires id in s.subtasks
  {
    DependencyResults(s.subtasks[id].spec.dependsOn, s.subtasks)
  }

  predicate CanDispatch(s: Sys, id: Id) {
    Runnable(id, s.subtasks) && id !in s.dispatched
  }

  function Dispatch(s: Sys, id: Id): Sys {
    s.(flight := s.flight[id := Queued], dispatched := s.dispatched + {id})
  }

  predicate CanStart(cap: nat, s: Sys, id: Id) {
    id in s.subtasks && id in s.flight && s.flight[id].Queued? && |Holders(s)| < cap
  }

  function Start(env: Env, s: Sys, id: Id): Sys
    requires id in s.subtasks
  {
    Put(s, id, Begin(env, s.subtasks[id], CurrentDeps(s, id)))
  }

  predicate CanResume(env: Env, s: Sys, id: Id) {
    id in s.subtasks && id in s.flight && InLoop(env, s.flight[id])
  }

  function Advance(env: Env, s: Sys, id: Id): Sys
    requires CanResume(env, s, id)
  {
    Put(s, id, Resume(env, s.subtasks[id], s.flight[id], CurrentDeps(s, id)))
  }

  function Cut(s: Sys, id: Id, error: string): Sys
    requires id in s.subtasks
  {
    s.(subtasks := s.subtasks[id := s.subtasks[id].(status := Blocked, error := error)])
  }

  datatype Event = DispatchEvent(id: Id) | StartEvent(id: Id) | ResumeEvent(id: Id) | CutEvent(id: Id, error: string)

  predicate Enabled(env: Env, cap: nat, s: Sys, e: Event) {
    match e
    case DispatchEvent(id) => CanDispatch(s, id)
    case StartEvent(id) => CanStart(cap, s, id)
    case ResumeEvent(id) => CanResume(env, s, id)
    case CutEvent(id, _) => Unreachable(id, s.subtasks)
  }

  function Step(env: Env, cap: nat, s: Sys, e: Event): Sys
    requires Enabled(env, cap, s, e)
  {
    match e
    case DispatchEvent(id) => Dispatch(s, id)
    case StartEvent(id) => Start(env, s, id)
    case ResumeEvent(id) => Advance(env, s, id)
    case CutEvent(id, error) => Cut(s, id, error)
  }

  // ---- the invariant: where an entry is on its way to its sequential outcome

  /** Left pending although its outcome is already known to be blocked. */
  ghost predicate Stale(base: States, f: States, st: SubTaskState) {
    && st.spec.id in base && base[st.spec.id] == Block(st)
    && exists d :: d in st.spec.dependsOn && d in f && f[d].status.Broken()
  }

  ghost predicate Follows(env: Env, base: States, f: States, s: Sys, id: Id)
    requires id in s.subtasks && id in base && id in f
  {
    var st := s.subtasks[id];
    && st.spec == base[id].spec
    && match st.status
       case Pending =>
         if id in s.flight then s.flight[id].Queued? && st == base[id] && Satisfied(st.spec.dependsOn, s.subtasks)
         else id !in s.dispatched && (st == base[id] || Stale(base, f, st))
       case Running =>
         && id in s.flight && InLoop(env, s.flight[id])
         && base[id].status.Pending?
         && Satisfied(st.spec.dependsOn, s.subtasks)
         && s.flight[id].deps == CurrentDeps(s, id)
         && Finish(env, st, s.flight[id]) == f[id]
       case _ =>
         && id !in s.flight
         && Erase(st) == f[id]
         && (base[id].status.Pending? && !st.status.Blocked? ==> Satisfied(st.spec.dependsOn, s.subtasks))
  }

  ghost predicate Shape(s: Sys) {
    && Keyed(s.order, s.subtasks)
    && s.flight.Keys <= s.dispatched <= s.subtasks.Keys
  }

  /** Every entry is on its way to the outcome `f` of `base`. */
  ghost predicate Inv(env: Env, base: States, f: States, s: Sys) {
    && Shape(s)
    && base.Keys == s.subtasks.Keys && AtRest(base)
    && IsOutcome(env, base, f)
    && forall id :: id in s.subtasks ==> Follows(env, base, f, s, id)
  }

  function Initial(order: seq<Id>, m: States): Sys {
    Sys(order, m, map[], {})
  }

  lemma InitialInv(env: Env, order: seq<Id>, m: States, f: States)
    requires Keyed(order, m) && AtRest(m) && IsOutcome(env, m, f)
    ensures Inv(env, m, f, Initial(order, m))
  {
  }

  lemma SettledAsInOutcome(env: Env, base: States, f: States, s: Sys, deps: seq<Id>)
    requires Inv(env, base, f, s) && Satisfied(deps, s.subtasks)
    ensures Satisfied(deps, f) && DependencyResults(deps, f) == DependencyResults(deps, s.subtasks)
  {
    forall d | d in deps ensures d in s.subtasks && d in f && f[d] == s.subtasks[d] {
      assert Follows(env, base, f, s, d);
    }
    DependencyAgree(deps, s.subtasks, f);
  }

  /** Changing an unsettled entry does not disturb the others. */
  lemma OthersFollow(env: Env, base: States, f: States, s: Sys, s': Sys, id: Id, other: Id)
    requires Inv(env, base, f, s) && id in s.subtasks && !s.subtasks[id].status.Satisfying()
    requires other in s.subtasks && other != id
    requires id in s'.subtasks && s'.subtasks == s.subtasks[id := s'.subtasks[id]]
    requires other in s'.flight <==> other in s.flight
    requires other in s.flight ==> s'.flight[other] == s.flight[other]
    requires other in s'.dispatched <==> other in s.dispatched
    ensures Follows(env, base, f, s', other)
  {
    assert Follows(env, base, f, s, other);
    var st := s.subtasks[other];
    if Satisfied(st.spec.dependsOn, s.subtasks) {
      DependencyFrame(st.spec.dependsOn, s.subtasks, id, s'.subtasks[id]);
    }
  }

  /** Replacing one entry, and nothing else that matters to the others. */
  ghost predicate Replaces(s: Sys, s': Sys, id: Id, st: SubTaskState) {
    && id in s.subtasks && s'.subtasks == s.subtasks[id := st] && st.spec == s.subtasks[id].spec
    && s'.order == s.order && s'.dispatched == s.dispatched
    && s'.flight.Keys <= s.dispatched
    && forall other :: other != id ==>
         (other in s'.flight <==> other in s.flight) && (other in s.flight ==> s'.flight[other] == s.flight[other])
  }

  lemma ReplacingKeeps(env: Env, base: States, f: States, s: Sys, s': Sys, id: Id, st: SubTaskState)
    requires Inv(env, base, f, s) && Replaces(s, s', id, st)
    requires !s.subtasks[id].status.Satisfying()
    requires Follows(env, base, f, s', id)
    ensures Inv(env, base, f, s')
  {
    assert s'.subtasks.Keys == s.subtasks.Keys;
    assert Shape(s');
    forall other | other in s'.subtasks ensures Follows(env, base, f, s', other) {
      if other != id {
        OthersFollow(env, base, f, s, s', id, other);
      }
    }
  }

  lemma PutReplaces(s: Sys, id: Id, p: Progress)
    requires id in s.subtasks && id in s.flight && s.flight.Keys <= s.dispatched && p.st.spec == s.subtasks[id].spec
    ensures Replaces(s, Put(s, id, p), id, p.st)
  {
  }

  /** A coroutine's own entry, when it moves on towards the same conclusion. */
  lemma PutFollows(env: Env, base: States, f: States, s: Sys, id: Id, p: Progress)
    requires id in s.subtasks && id in base && id in f && base[id].status.Pending?
    requires Satisfied(s.subtasks[id].spec.dependsOn, s.subtasks) && !s.subtasks[id].status.Satisfying()
    requires p.st.spec == s.subtasks[id].spec == base[id].spec
    requires p.Suspended? ==> p.st.status.Running? && InLoop(env, p.phase) && p.phase.deps == CurrentDeps(s, id)
    requires p.Settled? ==> p.st.status.Terminal() && !p.st.status.Blocked?
    requires Conclude(env, p) == f[id]
    ensures Follows(env, base, f, Put(s, id, p), id)
  {
    hide Satisfied, Finish, DependencyResults;
    DependencyFrame(s.subtasks[id].spec.dependsOn, s.subtasks, id, p.st);
  }

  lemma PutKeeps(env: Env, base: States, f: States, s: Sys, id: Id, p: Progress)
    requires Inv(env, base, f, s) && id in s.subtasks && id in s.flight
    requires base[id].status.Pending?
    requires Satisfied(s.subtasks[id].spec.dependsOn, s.subtasks) && !s.subtasks[id].status.Satisfying()
    requires p.st.spec == s.subtasks[id].spec == base[id].spec
    requires p.Suspended? ==> p.st.status.Running? && InLoop(env, p.phase) && p.phase.deps == CurrentDeps(s, id)
    requires p.Settled? ==> p.st.status.Terminal() && !p.st.status.Blocked?
    requires Conclude(env, p) == f[id]
    ensures Inv(env, base, f, Put(s, id, p))
  {
    assert id in base && id in f && s.flight.Keys <= s.dispatched;
    hide Inv, Follows, Replaces, Conclude, Satisfied, CurrentDeps, Put;
    PutReplaces(s, id, p);
    PutFollows(env, base, f, s, id, p);
    ReplacingKeeps(env, base, f, s, Put(s, id, p), id, p.st);
  }

  /** A queued subtask is as it was, and its outcome is that of its attempt now. */
  lemma QueuedIsReady(env: Env, base: States, f: States, s: Sys, id: Id)
    requires Inv(env, base, f, s) && id in s.subtasks && id in s.flight && s.flight[id].Queued?
    ensures var st := s.subtasks[id];
            && id in base && id in f && st == base[id] && st.status.Pending? && Satisfied(st.spec.dependsOn, s.subtasks)
            && f[id] == Attempt(env, st, CurrentDeps(s, id))
  {
    hide Attempt, DependencyResults, AtRest;
    assert Follows(env, base, f, s, id);
    SettledAsInOutcome(env, base, f, s, s.subtasks[id].spec.dependsOn);
  }

  lemma BeginIs(env: Env, st: SubTaskState, deps: Deps)
    ensures var p := Begin(env, st, deps);
            && p.st.spec == st.spec
            && (p.Suspended? ==> p.st.status.Running? && InLoop(env, p.phase) && p.phase.deps == deps)
            && (p.Settled? ==> p.st.status.Terminal() && !p.st.status.Blocked?)
            && Conclude(env, p) == Attempt(env, st, deps)
  {
    hide Finish;
  }

  lemma StartKeeps(env: Env, base: States, f: States, s: Sys, id: Id)
    requires Inv(env, base, f, s) && id in s.subtasks && id in s.flight && s.flight[id].Queued?
    ensures Inv(env, base, f, Start(env, s, id))
  {
    hide Inv, Begin, Attempt, Conclude, Satisfied, CurrentDeps, Put, InLoop;
    QueuedIsReady(env, base, f, s, id);
    BeginIs(env, s.subtasks[id], CurrentDeps(s, id));
    PutKeeps(env, base, f, s, id, Begin(env, s.subtasks[id], CurrentDeps(s, id)));
  }

  // The reloaded dependency results are the ones the subtask started with.
  lemma ResumeConcludes(env: Env, st: SubTaskState, ph: Phase)
    requires InLoop(env, ph) && st.status.Running?
    ensures var p := Resume(env, st, ph, ph.deps);
            && (p.Suspended? ==> InLoop(env, p.phase) && p.phase.deps == ph.deps && p.st.status.Running?)
            && (p.Settled? ==> p.st.status.Terminal() && !p.st.status.Blocked?)
            && p.st.spec == st.spec
            && Conclude(env, p) == Finish(env, st, ph)
            && Remaining(env, p) + 1 == StepsLeft(env, st, ph)
  {
  }

  lemma AdvanceKeeps(env: Env, base: States, f: States, s: Sys, id: Id)
    requires Inv(env, base, f, s) && CanResume(env, s, id)
    ensures Inv(env, base, f, Advance(env, s, id))
  {
    assert Follows(env, base, f, s, id);
    assert s.subtasks[id].status.Running?;
    ResumeConcludes(env, s.subtasks[id], s.flight[id]);
    PutKeeps(env, base, f, s, id, Resume(env, s.subtasks[id], s.flight[id], CurrentDeps(s, id)));
  }

  lemma DispatchKeeps(env: Env, base: States, f: States, s: Sys, id: Id)
    requires Inv(env, base, f, s) && CanDispatch(s, id)
    ensures Inv(env, base, f, Dispatch(s, id))
  {
    var s' := Dispatch(s, id);
    SettledAsInOutcome(env, base, f, s, s.subtasks[id].spec.dependsOn);
    assert Follows(env, base, f, s, id);
    forall other | other in s'.subtasks ensures Follows(env, base, f, s', other) {
      assert Follows(env, base, f, s, other);
    }
  }

  lemma BrokenStays(env: Env, base: States, f: States, s: Sys, d: Id)
    requires Inv(env, base, f, s) && BrokenDep(d, s.subtasks)
    ensures BrokenDep(d, f)
  {
    hide Attempt, Finish, DependencyResults, InLoop, Satisfied;
    if d in s.subtasks { assert Follows(env, base, f, s, d); }
  }

  lemma BrokenIsNotSatisfied(deps: seq<Id>, d: Id, m: States)
    requires d in deps && BrokenDep(d, m)
    ensures !Satisfied(deps, m)
  {
  }

  lemma UnreachableIsBlocked(env: Env, base: States, f: States, s: Sys, id: Id)
    requires Inv(env, base, f, s) && Unreachable(id, s.subtasks)
    ensures id !in s.flight && f[id] == Block(s.subtasks[id])
  {
    hide Attempt, Finish, DependencyResults, InLoop, Satisfied, BrokenDep;
    var st := s.subtasks[id];
    var d :| d in st.spec.dependsOn && BrokenDep(d, s.subtasks);
    BrokenIsNotSatisfied(st.spec.dependsOn, d, s.subtasks);
    BrokenStays(env, base, f, s, d);
    BrokenIsNotSatisfied(st.spec.dependsOn, d, f);
    assert Follows(env, base, f, s, id);
  }

  lemma CutKeeps(env: Env, base: States, f: States, s: Sys, id: Id, error: string)
    requires Inv(env, base, f, s) && Unreachable(id, s.subtasks)
    ensures Inv(env, base, f, Cut(s, id, error))
  {
    var s' := Cut(s, id, error);
    UnreachableIsBlocked(env, base, f, s, id);
    assert s'.subtasks[id].spec == base[id].spec by { assert Follows(env, base, f, s, id); }
    assert Follows(env, base, f, s', id);
    ReplacingKeeps(env, base, f, s, s', id, s'.subtasks[id]);
  }

  lemma StepKeeps(env: Env, cap: nat, base: States, f: States, s: Sys, e: Event)
    requires Inv(env, base, f, s) && Enabled(env, cap, s, e)
    ensures Inv(env, base, f, Step(env, cap, s, e))
  {
    match e
    case DispatchEvent(id) => DispatchKeeps(env, base, f, s, id);
    case StartEvent(id) => StartKeeps(env, base, f, s, id);
    case ResumeEvent(id) => AdvanceKeeps(env, base, f, s, id);
    case CutEvent(id, error) => CutKeeps(env, base, f, s, id, error);
  }
}
