/** The scheduler's main loop (orchestration/scheduler.py).  What the event loop decides - which
    coroutine moves next, when it is interrupted, how many settle before the scheduler looks
    again - is left open here, so the contracts hold for every interleaving. */
module Scheduling {
  import opened Collections
  import opened Wrappers
  import opened Plans
  import opened Attempts
  import opened Sequential
  import opened Interleaving
  import opened Confluence
  import opened Repairs
  import opened SessionPool
  import opened Leases
  import opened Runs
  import opened Replanning

  /** What stopping does to an entry: terminal entries are untouched, every other one is
      blocked, with an end time and a reason. */
  ghost predicate StoppedFrom(a: SubTaskState, b: SubTaskState) {
    if a.status.Terminal() then b == a
    else b == a.(status := Blocked, ended := true, error := b.error) && b.error != ""
  }

  ghost predicate AllStopped(before: States, after: States) {
    after.Keys == before.Keys && forall id :: id in before ==> StoppedFrom(before[id], after[id])
  }

  /** How a turn ends. */
  datatype Next = Again | Finished | Stopped

  function Reason(st: SubTaskState, reason: string): string {
    if st.error != "" then st.error else reason
  }

  class Scheduler {
    const env: Env
    const desk: Desk
    const replanner: Replanner?
    // unsettled coroutines and where they are suspended
    var flight: map<Id, Phase>
    // every subtask a coroutine was created for
    var dispatched: set<Id>
    // coroutines that are done but that the main loop has not collected yet
    var settled: set<Id>
    // coroutines that a BudgetExceeded has escaped from; `flight` keeps where that happened
    var crashed: set<Id>

    ghost function View(run: TaskRun): Sys
      reads this`flight, this`dispatched, run
    {
      Sys(run.order, run.subtasks, flight, dispatched)
    }

    ghost function Agents(): set<string> {
      if replanner == null then {} else replanner.agents
    }

    ghost function RoomLeft(): nat
      reads replanner
    {
      if replanner == null then 0 else Room(replanner.repairs)
    }

    ghost predicate Leased()
      reads desk, desk.pool, desk.pool.idle, desk.held.Values
    {
      desk.Valid() && desk.pool.cap >= 1
    }

    /** The coroutines follow the transition system, and the leases are those of its holders. */
    ghost predicate Control(run: TaskRun, base: States, f: States)
      reads this`flight, this`dispatched, this`crashed, run, desk
    {
      && Inv(env, base, f, View(run))
      && crashed <= Holders(View(run))
      && desk.held.Keys == Holders(View(run)) - crashed
    }

    constructor (env: Env, desk: Desk, replanner: Replanner?)
      ensures this.env == env && this.desk == desk && this.replanner == replanner
      ensures flight == map[] && dispatched == settled == crashed == {}
    {
      this.env, this.desk, this.replanner := env, desk, replanner;
      flight, dispatched, settled, crashed := map[], {}, {}, {};
    }

    // ---- one coroutine moves

    /** A coroutine that holds its lease reaches its next suspension, or settles and gives the
        lease back. */
    method Land(run: TaskRun, id: Id, p: Progress, now: int)
      requires Leased() && id in desk.held && id in flight
      modifies this`flight, this`settled, run`subtasks, desk`held, desk.pool, desk.pool.known
      ensures Leased() && View(run) == Put(old(View(run)), id, p)
      ensures desk.held == if p.Settled? then old(desk.held) - {id} else old(desk.held)
      ensures flight.Keys + settled == old(flight.Keys + settled)
      ensures desk.pool.known == old(desk.pool.known)
    {
      hide Desk.Valid;
      run.subtasks := run.subtasks[id := p.st];
      if p.Settled? {
        flight := flight - {id};
        settled := settled + {id};
        desk.Return(id, now);
      } else {
        flight := flight[id := p.phase];
      }
    }

    /** A queued coroutine gets its lease and runs to its first suspension. */
    method StartOne(run: TaskRun, id: Id, now: int, ghost base: States, ghost f: States)
      requires Leased() && Control(run, base, f)
      requires id in flight && flight[id].Queued? && desk.pool.permits > 0
      modifies this`flight, this`settled, run`subtasks, desk`held, desk.pool, desk.pool.known
      ensures Leased() && Control(run, base, f)
      ensures View(run) == Start(env, old(View(run)), id)
      ensures flight.Keys + settled == old(flight.Keys + settled)
      ensures old(desk.pool.known) <= desk.pool.known && fresh(desk.pool.known - old(desk.pool.known))
    {
      hide Inv, Desk.Valid, Begin;
      InFlight(env, base, f, View(run), id);
      BeginEntersLoop(env, run.subtasks[id], CurrentDeps(View(run), id));
      StartKeeps(env, base, f, View(run), id);
      HoldersAfterPut(View(run), id, Begin(env, run.subtasks[id], CurrentDeps(View(run), id)));
      desk.Lend(id, run.subtasks[id].spec.agent, now);
      var deps := run.CollectResults(id);
      var p := Begin(env, run.subtasks[id], deps);
      Land(run, id, p, now);
    }

    /** A leased coroutine runs from one suspension to the next. */
    method ResumeOne(run: TaskRun, id: Id, now: int, ghost base: States, ghost f: States)
      requires Leased() && Control(run, base, f)
      requires id in flight && !flight[id].Queued? && id !in crashed
      modifies this`flight, this`settled, run`subtasks, desk`held, desk.pool, desk.pool.known
      ensures Leased() && Control(run, base, f)
      ensures CanResume(env, old(View(run)), id) && View(run) == Advance(env, old(View(run)), id)
      ensures flight.Keys + settled == old(flight.Keys + settled)
      ensures desk.pool.known == old(desk.pool.known)
    {
      hide Inv, Desk.Valid, Resume;
      InFlight(env, base, f, View(run), id);
      ResumeStaysInLoop(env, run.subtasks[id], flight[id], CurrentDeps(View(run), id));
      AdvanceKeeps(env, base, f, View(run), id);
      HoldersAfterPut(View(run), id, Resume(env, run.subtasks[id], flight[id], CurrentDeps(View(run), id)));
      var deps := run.CollectResults(id);
      var p := Resume(env, run.subtasks[id], flight[id], deps);
      Land(run, id, p, now);
    }

    /** BudgetExceeded escapes from execute: the lease is given back, the status stays RUNNING. */
    method CrashOne(run: TaskRun, id: Id, now: int, ghost base: States, ghost f: States)
      requires Leased() && Control(run, base, f)
      requires id in flight && flight[id].Executing? && id !in crashed
      modifies this`crashed, desk`held, desk.pool, desk.pool.known
      ensures Leased() && Control(run, base, f)
      ensures crashed == old(crashed) + {id}
      ensures desk.pool.known == old(desk.pool.known)
    {
      hide Inv, Desk.Valid;
      desk.Return(id, now);
      crashed := crashed + {id};
    }

    // ---- any number of them move

    /** A coroutine that can move: it has a lease, or one is free for it. */
    predicate CanMove(id: Id)
      reads this`flight, this`crashed, desk, desk.pool
    {
      id in flight && id !in crashed && (flight[id].Queued? ==> desk.pool.permits > 0)
    }

    /** With nothing crashed, some unsettled coroutine can always move. */
    lemma SomebodyMoves(run: TaskRun, base: States, f: States)
      requires Leased() && Control(run, base, f) && crashed == {} && flight != map[]
      ensures exists id :: CanMove(id)
    {
      desk.Adds();
      var id :| id in flight;
      if desk.held == map[] {
        assert CanMove(id);
      } else {
        var h :| h in desk.held;
        assert h in Holders(View(run));
        assert CanMove(h);
      }
    }

    /** The work left: steps that can still be taken, then coroutines that can still crash. */
    ghost function Work(run: TaskRun, base: States, f: States): nat
      reads this`flight, this`dispatched, run
    {
      Measure(env, base, f, View(run))
    }

    ghost function Unhurt(): set<Id>
      reads this`flight, this`crashed
    {
      flight.Keys - crashed
    }

    /** The event loop's choice among those that can move. */
    method Pick() returns (id: Id)
      requires exists id :: CanMove(id)
      ensures CanMove(id)
    {
      var able := set x | x in flight && CanMove(x);
      assert able != {} by { var x :| CanMove(x); assert x in able; }
      id :| id in able;
    }

    /** One coroutine, chosen by the event loop, moves to its next suspension. */
    method MoveOne(run: TaskRun, ghost base: States, ghost f: States)
      requires Leased() && Control(run, base, f)
      requires exists id :: CanMove(id)
      modifies this`flight, this`settled, this`crashed, run`subtasks, desk`held, desk.pool, desk.pool.known
      ensures Leased() && Control(run, base, f)
      ensures flight.Keys + settled == old(flight.Keys + settled) && flight.Keys <= old(flight.Keys)
      ensures Work(run, base, f) < old(Work(run, base, f))
              || (Work(run, base, f) == old(Work(run, base, f)) && |Unhurt()| < old(|Unhurt()|) && crashed != {})
      ensures old(crashed) <= crashed
      ensures forall id :: Runnable(id, old(run.subtasks)) && id !in old(flight) ==> Runnable(id, run.subtasks)
      ensures old(desk.pool.known) <= desk.pool.known && fresh(desk.pool.known - old(desk.pool.known))
    {
      hide Inv, Desk.Valid, Work, Runnable, Unhurt;
      var id := Pick();
      var now: int := *;
      var reaperRuns: bool := *;
      if reaperRuns {
        desk.Reap(now);
      }
      MoveThis(run, id, now, base, f);
    }

    /** This coroutine moves. */
    method MoveThis(run: TaskRun, id: Id, now: int, ghost base: States, ghost f: States)
      requires Leased() && Control(run, base, f) && CanMove(id)
      modifies this`flight, this`settled, this`crashed, run`subtasks, desk`held, desk.pool, desk.pool.known
      ensures Leased() && Control(run, base, f)
      ensures flight.Keys + settled == old(flight.Keys + settled) && flight.Keys <= old(flight.Keys)
      ensures Work(run, base, f) < old(Work(run, base, f))
              || (Work(run, base, f) == old(Work(run, base, f)) && |Unhurt()| < old(|Unhurt()|) && crashed != {})
      ensures old(crashed) <= crashed
      ensures forall id :: Runnable(id, old(run.subtasks)) && id !in old(flight) ==> Runnable(id, run.subtasks)
      ensures old(desk.pool.known) <= desk.pool.known && fresh(desk.pool.known - old(desk.pool.known))
    {
      hide Inv, Desk.Valid, Measure, Runnable, Put, Start, Advance, CanResume;
      var budgetExceeded: bool := *;
      ghost var s := View(run);
      InFlight(env, base, f, s, id);
      if flight[id].Queued? {
        StartOne(run, id, now, base, f);
        StartMovesOn(env, base, f, s, id);
      } else if flight[id].Executing? && budgetExceeded {
        CrashOne(run, id, now, base, f);
        assert Unhurt() == old(Unhurt()) - {id};
      } else {
        ResumeOne(run, id, now, base, f);
        ResumeMovesOn(env, base, f, s, id);
      }
    }

    // ---- the parts of the main loop

    /** While the scheduler itself is suspended any number of coroutines may move. */
    method Interlude(run: TaskRun, ghost base: States, ghost f: States)
      requires Leased() && Control(run, base, f)
      modifies this`flight, this`settled, this`crashed, run`subtasks, desk`held, desk.pool, desk.pool.known
      ensures Leased() && Control(run, base, f)
      ensures flight.Keys + settled == old(flight.Keys + settled) && flight.Keys <= old(flight.Keys)
      ensures Work(run, base, f) < old(Work(run, base, f)) || crashed != {} || settled == old(settled)
      ensures Work(run, base, f) <= old(Work(run, base, f)) && old(crashed) <= crashed
      ensures forall id :: Runnable(id, old(run.subtasks)) && id !in old(flight) ==> Runnable(id, run.subtasks)
      ensures old(desk.pool.known) <= desk.pool.known && fresh(desk.pool.known - old(desk.pool.known))
    {
      hide Inv, Leased, Control, Work, Runnable;
      var moves: nat := *;
      while moves > 0
        invariant Leased() && Control(run, base, f)
        invariant flight.Keys + settled == old(flight.Keys + settled) && flight.Keys <= old(flight.Keys)
        invariant Work(run, base, f) < old(Work(run, base, f)) || crashed != {} || settled == old(settled)
        invariant Work(run, base, f) <= old(Work(run, base, f)) && old(crashed) <= crashed
        invariant forall id :: Runnable(id, old(run.subtasks)) && id !in old(flight) ==> Runnable(id, run.subtasks)
        invariant old(desk.pool.known) <= desk.pool.known && fresh(desk.pool.known - old(desk.pool.known))
        decreases moves
      {
        moves := moves - 1;
        if exists id :: id in flight && CanMove(id) {
          MoveOne(run, base, f);
        }
      }
    }

    /** Create a coroutine for every ready subtask, pausing at the gate before each. */
    method DispatchAll(run: TaskRun, ready: seq<Id>, ghost base: States, ghost f: States) returns (cancelled: bool)
      requires Leased() && Control(run, base, f)
      requires Distinct(ready) && forall id :: id in ready ==> CanDispatch(View(run), id)
      modifies this`flight, this`settled, this`crashed, this`dispatched, run`subtasks
      modifies desk`held, desk.pool, desk.pool.known
      ensures Leased() && Control(run, base, f)
      ensures Work(run, base, f) <= old(Work(run, base, f))
      ensures ready == [] ==> flight == old(flight) && settled == old(settled) && crashed == old(crashed)
      ensures ready != [] && !cancelled ==>
                Work(run, base, f) < old(Work(run, base, f)) && flight.Keys + settled != {}
      ensures old(desk.pool.known) <= desk.pool.known && fresh(desk.pool.known - old(desk.pool.known))
    {
      hide Inv, Leased, Measure, Runnable;
      cancelled := false;
      var i := 0;
      while i < |ready|
        invariant 0 <= i <= |ready|
        invariant Leased() && Control(run, base, f)
        invariant forall k :: i <= k < |ready| ==> CanDispatch(View(run), ready[k])
        invariant Work(run, base, f) <= old(Work(run, base, f))
        invariant i == 0 ==> flight == old(flight) && settled == old(settled) && crashed == old(crashed)
        invariant i > 0 ==> Work(run, base, f) < old(Work(run, base, f)) && flight.Keys + settled != {}
        invariant old(desk.pool.known) <= desk.pool.known && fresh(desk.pool.known - old(desk.pool.known))
      {
        DispatchedInFlight(env, base, f, View(run));
        Interlude(run, base, f);
        cancelled := *;
        if cancelled {
          return;
        }
        var id := ready[i];
        ghost var s := View(run);
        DispatchKeeps(env, base, f, s, id);
        DispatchHolds(env, base, f, s, id);
        flight := flight[id := Queued];
        dispatched := dispatched + {id};
        assert View(run) == Dispatch(s, id);
        assert id in flight;
        i := i + 1;
      }
    }

    /** Coroutines move until one of them is done. */
    method MoveUntilDone(run: TaskRun, ghost base: States, ghost f: States)
      requires Leased() && Control(run, base, f)
      requires flight.Keys + settled != {}
      modifies this`flight, this`settled, this`crashed, run`subtasks, desk`held, desk.pool, desk.pool.known
      ensures Leased() && Control(run, base, f)
      ensures settled != {} || crashed != {}
      ensures Work(run, base, f) <= old(Work(run, base, f))
      ensures Work(run, base, f) < old(Work(run, base, f)) || crashed != {} || settled == old(settled)
      ensures old(desk.pool.known) <= desk.pool.known && fresh(desk.pool.known - old(desk.pool.known))
    {
      hide Inv, Leased, Control, Work, Runnable;
      while settled == {} && crashed == {}
        invariant Leased() && Control(run, base, f)
        invariant flight.Keys + settled == old(flight.Keys + settled)
        invariant Work(run, base, f) <= old(Work(run, base, f))
        invariant Work(run, base, f) < old(Work(run, base, f)) || crashed != {} || settled == old(settled)
        invariant old(desk.pool.known) <= desk.pool.known && fresh(desk.pool.known - old(desk.pool.known))
        decreases Work(run, base, f), |Unhurt()|
      {
        assert flight != map[];
        SomebodyMoves(run, base, f);
        MoveOne(run, base, f);
      }
    }

    /** Wait until at least one coroutine is done, and collect the done ones.  The run stops if
        one of them was hit by BudgetExceeded, or if it is cancelled from outside. */
    method Wait(run: TaskRun, ghost base: States, ghost f: States) returns (stopped: bool)
      requires Leased() && Control(run, base, f)
      requires flight.Keys + settled != {}
      modifies this`flight, this`settled, this`crashed, run`subtasks, desk`held, desk.pool, desk.pool.known
      ensures Leased() && Control(run, base, f)
      ensures Work(run, base, f) <= old(Work(run, base, f))
      ensures !stopped ==> settled == {} && crashed == {}
      ensures !stopped ==> Work(run, base, f) < old(Work(run, base, f)) || old(settled) != {}
      ensures old(desk.pool.known) <= desk.pool.known && fresh(desk.pool.known - old(desk.pool.known))
    {
      hide Inv, Leased, Control, Work, Runnable;
      MoveUntilDone(run, base, f);
      Interlude(run, base, f);
      var cancelled: bool := *;
      stopped := cancelled || crashed != {};
      if !stopped {
        settled := {};
      }
    }

    // ---- stopping

    /** CancelledError inside a lease: a running subtask is blocked, and the lease given back. */
    method CancelOne(run: TaskRun, id: Id, now: int)
      requires Leased() && id in desk.held && id in run.subtasks
      modifies run`subtasks, desk`held, desk.pool, desk.pool.known
      ensures Leased() && desk.held == old(desk.held) - {id}
      ensures id in run.subtasks && run.subtasks == old(run.subtasks)[id := run.subtasks[id]]
      ensures if old(run.subtasks[id]).status.Running? then StoppedFrom(old(run.subtasks[id]), run.subtasks[id])
              else run.subtasks[id] == old(run.subtasks[id])
      ensures desk.pool.known == old(desk.pool.known)
    {
      hide Desk.Valid;
      var st := run.subtasks[id];
      if st.status.Running? {
        run.subtasks := run.subtasks[id := st.(status := Blocked, error := Reason(st, "cancelled"), ended := true)];
      }
      desk.Return(id, now);
    }

    /** Cancelling every coroutine in flight; a queued one just goes away. */
    method CancelAll(run: TaskRun, now: int, ghost base: States, ghost f: States)
      requires Leased() && Control(run, base, f)
      modifies run`subtasks, desk`held, desk.pool, desk.pool.known
      ensures Leased() && desk.held == map[]
      ensures run.subtasks.Keys == old(run.subtasks.Keys)
      ensures forall id :: id in run.subtasks ==>
                run.subtasks[id] == old(run.subtasks[id])
                || (!old(run.subtasks[id]).status.Terminal() && StoppedFrom(old(run.subtasks[id]), run.subtasks[id]))
      ensures desk.pool.known == old(desk.pool.known)
    {
      hide Inv, Desk.Valid;
      var rest := flight.Keys - crashed;
      while rest != {}
        invariant rest <= flight.Keys - crashed && Leased()
        invariant forall id :: id in desk.held <==> id in rest && !flight[id].Queued?
        invariant run.subtasks.Keys == old(run.subtasks.Keys)
        invariant forall id :: id in run.subtasks ==>
                    run.subtasks[id] == old(run.subtasks[id])
                    || (!old(run.subtasks[id]).status.Terminal()
                        && StoppedFrom(old(run.subtasks[id]), run.subtasks[id]))
        invariant desk.pool.known == old(desk.pool.known)
        decreases |rest|
      {
        var id :| id in rest;
        InFlight(env, base, f, old(View(run)), id);
        rest := rest - {id};
        if !flight[id].Queued? {
          CancelOne(run, id, now);
        }
      }
      assert desk.held == map[] by { assert desk.held.Keys == {}; }
    }

    /** Every subtask that is not in a terminal state is blocked. */
    method FinalizeNonterminal(run: TaskRun, reason: string)
      requires run.Valid() && reason != ""
      modifies run`subtasks
      ensures run.Valid() && run.subtasks.Keys == old(run.subtasks.Keys)
      ensures forall id :: id in run.subtasks ==> StoppedFrom(old(run.subtasks[id]), run.subtasks[id])
    {
      var i := 0;
      while i < |run.order|
        invariant 0 <= i <= |run.order| && run.Valid() && run.subtasks.Keys == old(run.subtasks.Keys)
        invariant forall k :: 0 <= k < i ==> StoppedFrom(old(run.subtasks[run.order[k]]), run.subtasks[run.order[k]])
        invariant forall k :: i <= k < |run.order| ==> run.subtasks[run.order[k]] == old(run.subtasks[run.order[k]])
      {
        var id := run.order[i];
        var st := run.subtasks[id];
        if st.status.Running? || st.status.Pending? {
          run.subtasks := run.subtasks[id := st.(status := Blocked, error := Reason(st, reason), ended := true)];
        }
        i := i + 1;
      }
    }

    /** Cancel what is in flight, then leave every subtask in a terminal state. */
    method Abort(run: TaskRun, now: int, ghost base: States, ghost f: States)
      requires Leased() && Control(run, base, f)
      modifies run`subtasks, desk`held, desk.pool, desk.pool.known
      ensures Leased() && desk.held == map[]
      ensures run.Valid() && run.subtasks.Keys == old(run.subtasks.Keys)
      ensures forall id :: id in run.subtasks ==> StoppedFrom(old(run.subtasks[id]), run.subtasks[id])
      ensures desk.pool.known == old(desk.pool.known)
    {
      hide Desk.Valid, Inv, Keyed, StoppedFrom;
      ghost var before := run.subtasks;
      InvKeyed(env, base, f, View(run));
      CancelAll(run, now, base, f);
      ghost var cancelled := run.subtasks;
      StillKeyed(run.order, before, cancelled);
      FinalizeNonterminal(run, "stopped: budget exceeded / cancelled");
      forall id | id in run.subtasks ensures StoppedFrom(before[id], run.subtasks[id]) {
        StoppedTwice(before[id], cancelled[id], run.subtasks[id]);
      }
    }

    /** The last act of every run. */
    method BlockPending(run: TaskRun)
      requires run.Valid()
      modifies run`subtasks
      ensures run.subtasks == Unresolved(old(run.subtasks))
    {
      hide Keyed, UnresolvedTo;
      ghost var before := run.subtasks;
      NoneUnresolved(before, run.order);
      var i := 0;
      while i < |run.order|
        invariant 0 <= i <= |run.order| && UnresolvedTo(before, run.order, i, run.subtasks)
      {
        OneMoreUnresolved(before, run.order, i, run.subtasks);
        var id := run.order[i];
        var st := run.subtasks[id];
        if st.status.Pending? {
          run.subtasks := run.subtasks[id :=
            st.(status := Blocked, error := Reason(st, "unresolved dependencies (possible cycle)"))];
        }
        i := i + 1;
      }
      AllUnresolved(before, run.order, run.subtasks);
    }

    /** The ready subtasks that no coroutine exists for. */
    method ReadyNow(run: TaskRun) returns (ready: seq<Id>)
      ensures ready == NotIn(ReadyIds(run.order, run.subtasks), dispatched)
    {
      var all := run.Ready();
      ready := [];
      var i := 0;
      while i < |all|
        invariant 0 <= i <= |all| && ready == NotIn(all[..i], dispatched)
      {
        FilterSnoc(all[..i], all[i], dispatched);
        assert all[..i + 1] == all[..i] + [all[i]];
        if all[i] !in dispatched {
          ready := ready + [all[i]];
        }
        i := i + 1;
      }
      assert all[..i] == all;
    }

    ghost predicate Ongoing(run: TaskRun, goal: (seq<Id>, States), base: States, f: States)
      reads this`flight, this`dispatched, this`crashed, run,
            desk, desk.pool, desk.pool.idle, desk.held.Values, replanner
    {
      Leased() && Control(run, base, f) && OnCourse(env, Agents(), RoomLeft(), goal, base, f, View(run))
    }

    /** The run has gone dry: replan, or find that the goal is reached. */
    method ReplanWhenDry(run: TaskRun, ghost goal: (seq<Id>, States), ghost base: States, ghost f: States)
      returns (again: bool, ghost base': States, ghost f': States)
      requires Ongoing(run, goal, base, f) && flight == map[] && crashed == {}
      requires Dry(View(run)) && NothingDangles(View(run))
      modifies run, replanner
      ensures Ongoing(run, goal, base', f') && Keeps(base, base')
      ensures again ==> RoomLeft() < old(RoomLeft())
      ensures !again ==> RoomLeft() == old(RoomLeft()) && goal == (run.order, EraseAll(Unresolved(run.subtasks)))
    {
      hide Inv, Desk.Valid, OnCourse, Dry, NothingDangles, PlanRepairs, Grow, Evaluate, Unresolved, EraseAll;
      CourseReplans(env, Agents(), RoomLeft(), goal, base, f, View(run));
      ghost var fixes := PlanRepairs(run.order, run.subtasks, Agents(), RoomLeft());
      base', f' := base, f;
      var added := 0;
      if replanner != null {
        added := replanner.Replan(run);
      } else {
        NoRepairs(run.order, run.subtasks, Agents(), 0);
      }
      again := added > 0;
      if again {
        base' := Grow(f, fixes);
        f' := Evaluate(env, run.order, base');
        assert View(run) == Replanned(old(View(run)), Agents(), old(RoomLeft()));
        CourseKeyed(env, Agents(), RoomLeft(), goal, base', f', View(run));
      } else {
        GrowNothing(old(run.subtasks));
        assert fixes == [] && old(run.order) + Ids([]) == old(run.order);
        assert run.order == old(run.order) && run.subtasks == old(run.subtasks);
        assert View(run) == old(View(run));
      }
    }

    /** Block what cannot run any more, and find what can be dispatched. */
    method Unblock(run: TaskRun, ghost goal: (seq<Id>, States), ghost base: States, ghost f: States)
      returns (ready: seq<Id>)
      requires Ongoing(run, goal, base, f) && crashed == {}
      modifies run`subtasks
      ensures Ongoing(run, goal, base, f) && Work(run, base, f) <= old(Work(run, base, f))
      ensures Distinct(ready) && forall id :: id in ready ==> CanDispatch(View(run), id)
      ensures NothingDangles(View(run)) && (ready == [] && flight == map[] ==> Dry(View(run)))
    {
      hide Inv, Desk.Valid, OnCourse, Measure, Dry, NothingDangles, Runnable, CanDispatch, BlockPass, Keyed, ReadyIds;
      CourseBlocks(env, Agents(), RoomLeft(), goal, base, f, View(run));
      CourseKeyed(env, Agents(), RoomLeft(), goal, base, f, View(run));
      run.BlockUnreachable();
      ready := ReadyNow(run);
      DispatchableNow(View(run));
    }

    /** One turn of the main loop. */
    method Turn(run: TaskRun, ghost goal: (seq<Id>, States), ghost base: States, ghost f: States)
      returns (next: Next, ghost base': States, ghost f': States)
      requires Ongoing(run, goal, base, f) && crashed == {}
      modifies this`flight, this`dispatched, this`settled, this`crashed
      modifies run, desk`held, desk.pool, desk.pool.known, replanner
      ensures Ongoing(run, goal, base', f') && Keeps(base, base')
      ensures next.Again? ==> crashed == {}
      ensures next.Again? ==>
                (RoomLeft() < old(RoomLeft())
                 || (RoomLeft() == old(RoomLeft()) && base' == base && f' == f
                     && (Work(run, base, f) < old(Work(run, base, f))
                         || (Work(run, base, f) == old(Work(run, base, f)) && |settled| < old(|settled|)))))
      ensures next.Finished? ==> flight == map[] && goal == (run.order, EraseAll(Unresolved(run.subtasks)))
      ensures old(desk.pool.known) <= desk.pool.known && fresh(desk.pool.known - old(desk.pool.known))
    {
      hide Inv, Desk.Valid, Ongoing, Work, CanDispatch, Dry, NothingDangles, Unresolved, EraseAll, Whole, Evaluate;
      base', f' := base, f;
      var ready := Unblock(run, goal, base, f);
      if ready == [] && flight == map[] && settled == {} {
        var again;
        again, base', f' := ReplanWhenDry(run, goal, base, f);
        next := if again then Again else Finished;
        return;
      }
      var stopped := DispatchAndWait(run, ready, goal, base, f);
      next := if stopped then Stopped else Again;
    }

    /** Start what is ready and wait for something to be done. */
    method DispatchAndWait(run: TaskRun, ready: seq<Id>, ghost goal: (seq<Id>, States), ghost base: States,
                           ghost f: States)
      returns (stopped: bool)
      requires Ongoing(run, goal, base, f) && crashed == {}
      requires Distinct(ready) && forall id :: id in ready ==> CanDispatch(View(run), id)
      requires ready != [] || flight.Keys + settled != {}
      modifies this`flight, this`dispatched, this`settled, this`crashed
      modifies run`subtasks, desk`held, desk.pool, desk.pool.known
      ensures Ongoing(run, goal, base, f)
      ensures !stopped ==> crashed == {}
      ensures !stopped ==>
                (Work(run, base, f) < old(Work(run, base, f))
                 || (Work(run, base, f) == old(Work(run, base, f)) && |settled| < old(|settled|)))
      ensures old(desk.pool.known) <= desk.pool.known && fresh(desk.pool.known - old(desk.pool.known))
    {
      hide Inv, Desk.Valid, Work, CanDispatch, Whole, Evaluate;
      stopped := DispatchAll(run, ready, base, f);
      if !stopped {
        stopped := Wait(run, base, f);
      }
    }

    /** Run the plan to its end.  If the run completes, whatever order the coroutines moved in,
        its final states are the sequential outcome of the plan and its repairs.  If it is
        stopped, what had settled by then is part of that outcome and stays, and everything
        else is blocked.  Either way nothing is leased any more. */
    method Run(run: TaskRun) returns (completed: bool, ghost atStop: States)
      requires run.Valid() && Startable(run.subtasks)
      requires Leased() && desk.held == map[]
      requires flight == map[] && dispatched == settled == crashed == {}
      modifies this, run, desk, desk.pool, desk.pool.known, replanner
      ensures completed ==>
                (run.order, EraseAll(run.subtasks)) == old(Whole(env, Agents(), run.order, run.subtasks, RoomLeft()))
      ensures !completed ==>
                && AllStopped(atStop, run.subtasks)
                && var goal := old(Whole(env, Agents(), run.order, run.subtasks, RoomLeft())).1;
                   forall id :: id in atStop && atStop[id].status.Terminal() ==>
                         id in goal && goal[id] == Erase(atStop[id])
      ensures old(Unended(run.subtasks)) ==>
                EndTimes(old(run.subtasks), if completed then run.subtasks else atStop, run.subtasks)
      ensures desk.held == map[] && desk.pool.leased == map[] && desk.pool.permits == desk.pool.cap
    {
      hide Inv, Desk.Valid, OnCourse, Work, EndTimes, Unended, Whole, StoppedFrom, EraseAll;
      ghost var goal, base, f := Prepare(run);
      var next := Again;
      while next.Again?
        invariant Ongoing(run, goal, base, f) && Keeps(old(run.subtasks), base)
        invariant next.Again? ==> crashed == {}
        invariant next.Finished? ==> flight == map[] && goal == (run.order, EraseAll(Unresolved(run.subtasks)))
        invariant old(desk.pool.known) <= desk.pool.known && fresh(desk.pool.known - old(desk.pool.known))
        decreases next.Again?, RoomLeft(), Work(run, base, f), |settled|
      {
        next, base, f := Turn(run, goal, base, f);
      }
      completed := next.Finished?;
      atStop := WrapUp(run, completed, goal, base, f);
      EndTimesOfRun(env, Agents(), old(run.order), old(run.subtasks), old(RoomLeft()), completed, atStop, run.subtasks);
    }

    /** After the loop: stop if need be, and block what is still pending. */
    method WrapUp(run: TaskRun, finished: bool, ghost goal: (seq<Id>, States), ghost base: States, ghost f: States)
      returns (ghost atStop: States)
      requires Ongoing(run, goal, base, f)
      requires finished ==> flight == map[] && goal == (run.order, EraseAll(Unresolved(run.subtasks)))
      modifies run, desk, desk.pool, desk.pool.known
      ensures finished ==> (run.order, EraseAll(run.subtasks)) == goal
      ensures !finished ==>
                && AllStopped(atStop, run.subtasks) && Keeps(base, atStop)
                && forall id :: id in atStop && atStop[id].status.Terminal() ==>
                         id in goal.1 && goal.1[id] == Erase(atStop[id])
      ensures desk.held == map[] && desk.pool.leased == map[] && desk.pool.permits == desk.pool.cap
    {
      hide Inv, OnCourse, Desk.Valid, Unresolved, Whole, Work;
      CourseKeyed(env, Agents(), RoomLeft(), goal, base, f, View(run));
      atStop := run.subtasks;
      if !finished {
        CourseSettled(env, Agents(), RoomLeft(), goal, base, f, View(run));
        CompletedStays(env, base, f, View(run));
        var now: int := *;
        Abort(run, now, base, f);
        NothingToResolve(run.subtasks);
      } else {
        assert desk.held == map[] by { assert desk.held.Keys == {}; }
      }
      BlockPending(run);
      desk.Adds();
    }

    ghost method Prepare(run: TaskRun) returns (goal: (seq<Id>, States), base: States, f: States)
      requires run.Valid() && Startable(run.subtasks)
      requires Leased() && desk.held == map[]
      requires flight == map[] && dispatched == settled == crashed == {}
      ensures goal == Whole(env, Agents(), run.order, run.subtasks, RoomLeft())
      ensures Ongoing(run, goal, base, f) && base == run.subtasks
    {
      hide Inv;
      goal := Whole(env, Agents(), run.order, run.subtasks, RoomLeft());
      base, f := run.subtasks, Evaluate(env, run.order, run.subtasks);
      CourseStarts(env, Agents(), RoomLeft(), run.order, run.subtasks);
      assert View(run) == Initial(run.order, run.subtasks);
    }
  }

  /** The first `i` entries have been looked at. */
  ghost predicate UnresolvedTo(before: States, order: seq<Id>, i: nat, m: States) {
    && Keyed(order, before) && m.Keys == before.Keys && i <= |order|
    && (forall k :: 0 <= k < i ==> order[k] in m && m[order[k]] == Unresolve(before[order[k]]))
    && (forall k :: i <= k < |order| ==> order[k] in m && m[order[k]] == before[order[k]])
  }

  lemma NoneUnresolved(before: States, order: seq<Id>)
    requires Keyed(order, before)
    ensures UnresolvedTo(before, order, 0, before)
  {
    forall k | 0 <= k < |order| ensures order[k] in before { InOrder(order, before, k); }
  }

  lemma OneMoreUnresolved(before: States, order: seq<Id>, i: nat, m: States)
    requires UnresolvedTo(before, order, i, m) && i < |order|
    ensures order[i] in m
    ensures UnresolvedTo(before, order, i + 1, m[order[i] := Unresolve(m[order[i]])])
    ensures !m[order[i]].status.Pending? ==> UnresolvedTo(before, order, i + 1, m)
  {
    hide Unresolve;
    if !m[order[i]].status.Pending? {
      assert Unresolve(m[order[i]]) == m[order[i]] by { NothingToUnresolve(m[order[i]]); }
    }
  }

  lemma NothingToUnresolve(st: SubTaskState)
    requires !st.status.Pending?
    ensures Unresolve(st) == st
  {
  }

  lemma AllUnresolved(before: States, order: seq<Id>, m: States)
    requires UnresolvedTo(before, order, |order|, m)
    ensures m == Unresolved(before)
  {
    hide Unresolve;
  }

  lemma StillKeyed(order: seq<Id>, before: States, after: States)
    requires Keyed(order, before) && after.Keys == before.Keys
    requires forall id :: id in after ==> after[id] == before[id] || StoppedFrom(before[id], after[id])
    ensures Keyed(order, after)
  {
  }

  lemma StoppedTwice(a: SubTaskState, b: SubTaskState, c: SubTaskState)
    requires (b == a || StoppedFrom(a, b)) && StoppedFrom(b, c)
    ensures StoppedFrom(a, c)
  {
  }

  lemma InvKeyed(env: Env, base: States, f: States, s: Sys)
    requires Inv(env, base, f, s)
    ensures Keyed(s.order, s.subtasks)
  {
  }

  lemma NothingToResolve(m: States)
    requires forall id :: id in m ==> !m[id].status.Pending?
    ensures Unresolved(m) == m
  {
  }

  lemma {:induction false} FilterSnoc(ids: seq<Id>, id: Id, out: set<Id>)
    ensures NotIn(ids + [id], out) == NotIn(ids, out) + if id in out then [] else [id]
  {
    if ids == [] {
      assert ids + [id] == [id];
    } else {
      assert (ids + [id])[1..] == ids[1..] + [id];
      FilterSnoc(ids[1..], id, out);
      assert NotIn(ids + [id], out) == (if ids[0] in out then [] else [ids[0]]) + NotIn(ids[1..] + [id], out);
    }
  }

  function NotIn(ids: seq<Id>, out: set<Id>): seq<Id> {
    if ids == [] then [] else (if ids[0] in out then [] else [ids[0]]) + NotIn(ids[1..], out)
  }

  lemma {:induction false} NotInMembers(ids: seq<Id>, out: set<Id>)
    ensures forall id :: id in NotIn(ids, out) <==> id in ids && id !in out
    ensures Distinct(ids) ==> Distinct(NotIn(ids, out))
  {
    if ids != [] {
      NotInMembers(ids[1..], out);
      if Distinct(ids) {
        forall i, j | 0 <= i < j < |ids[1..]| ensures ids[1..][i] != ids[1..][j] { assert ids[i + 1] != ids[j + 1]; }
        assert ids[0] !in ids[1..];
      }
    }
  }

  lemma {:induction false} ReadyDistinct(ids: seq<Id>, m: States)
    requires Distinct(ids)
    ensures Distinct(ReadyIds(ids, m))
  {
    if ids != [] {
      forall i, j | 0 <= i < j < |ids[1..]| ensures ids[1..][i] != ids[1..][j] { assert ids[i + 1] != ids[j + 1]; }
      ReadyDistinct(ids[1..], m);
      assert ids[0] !in ids[1..];
    }
  }

  /** The subtasks to dispatch now. */
  lemma DispatchableNow(s: Sys)
    requires Keyed(s.order, s.subtasks)
    ensures var ready := NotIn(ReadyIds(s.order, s.subtasks), s.dispatched);
            && Distinct(ready)
            && (forall id :: id in ready ==> CanDispatch(s, id))
            && (ready == [] && s.flight == map[] ==> Dry(s))
  {
    var all := ReadyIds(s.order, s.subtasks);
    ReadyDistinct(s.order, s.subtasks);
    NotInMembers(all, s.dispatched);
    if NotIn(all, s.dispatched) == [] {
      forall id | id in s.subtasks ensures !CanDispatch(s, id) {
        assert id in s.order;
        assert CanDispatch(s, id) ==> id in all;
      }
    }
  }

  /** What the main loop knows between two turns: the invariant towards the outcome of the
      current plan, and how the rest of the run continues from it. */
  ghost predicate OnCourse(env: Env, agents: set<string>, room: nat, goal: (seq<Id>, States), base: States, f: States,
                           s: Sys) {
    && Inv(env, base, f, s)
    && f == Evaluate(env, s.order, base) && FailuresAreGrounded(base)
    && goal == Whole(env, agents, s.order, base, room)
  }

  lemma CourseStarts(env: Env, agents: set<string>, room: nat, order: seq<Id>, m: States)
    requires Keyed(order, m) && Startable(m)
    ensures AtRest(m)
    ensures OnCourse(env, agents, room, Whole(env, agents, order, m, room), m,
                     Evaluate(env, order, m), Initial(order, m))
  {
    EvaluateIsOutcome(env, order, m);
    InitialInv(env, order, m, Evaluate(env, order, m));
  }

  lemma OutcomeFailuresAreGrounded(env: Env, m: States, f: States)
    requires AtRest(m) && FailuresAreGrounded(m) && IsOutcome(env, m, f)
    ensures FailuresAreGrounded(f)
  {
    forall id, d | id in f && f[id].status.Failed? && d in f[id].spec.dependsOn ensures d in f {
      OutcomeIsTerminal(env, m, f);
      if m[id].status.Pending? { assert Satisfied(f[id].spec.dependsOn, f); }
    }
  }

  /** A pass over the dictionary stays on course, costs nothing and leaves nothing dangling. */
  lemma CourseBlocks(env: Env, agents: set<string>, room: nat, goal: (seq<Id>, States), base: States, f: States, s: Sys)
    requires OnCourse(env, agents, room, goal, base, f, s)
    ensures var s' := s.(subtasks := BlockPass(s.order, s.subtasks));
            && OnCourse(env, agents, room, goal, base, f, s') && NothingDangles(s')
            && Measure(env, base, f, s') <= Measure(env, base, f, s)
            && s'.subtasks.Keys == s.subtasks.Keys
  {
    BlockPassKeeps(env, base, f, s, s.order);
    BlockPassLeavesNothingDangling(s.order, s.subtasks, s.(subtasks := BlockPass(s.order, s.subtasks)));
    BlockPassBlocks(s.order, s.subtasks);
  }

  /** Replanning a dry run: either the goal is reached, or the course leads on from the grown plan. */
  lemma CourseReplans(env: Env, agents: set<string>, room: nat, goal: (seq<Id>, States), base: States, f: States,
                      s: Sys)
    requires OnCourse(env, agents, room, goal, base, f, s) && Dry(s) && NothingDangles(s)
    ensures var fixes := PlanRepairs(s.order, s.subtasks, agents, room);
            if fixes == [] then goal == (s.order, f) && EraseAll(Unresolved(s.subtasks)) == f
            else Keeps(base, Grow(f, fixes))
                 && OnCourse(env, agents, room - |fixes|, goal, Grow(f, fixes),
                             Evaluate(env, s.order + Ids(fixes), Grow(f, fixes)), Replanned(s, agents, room))
  {
    hide Inv;
    assert IsOutcome(env, base, f) && AtRest(base) && Keyed(s.order, base) by { CourseOutcome(env, base, f, s); }
    OutcomeFailuresAreGrounded(env, base, f);
    ReplanKeeps(env, base, f, s, agents, room);
    var fixes := PlanRepairs(s.order, f, agents, room);
    if fixes == [] {
      ClosingADryRun(env, base, f, s);
    } else {
      GroundedAfterGrow(s.order, f, fixes, agents, room, env, base);
    }
  }

  lemma CourseKeyed(env: Env, agents: set<string>, room: nat, goal: (seq<Id>, States), base: States, f: States, s: Sys)
    requires OnCourse(env, agents, room, goal, base, f, s)
    ensures Keyed(s.order, s.subtasks) && Inv(env, base, f, s)
  {
  }

  lemma CourseOutcome(env: Env, base: States, f: States, s: Sys)
    requires Inv(env, base, f, s)
    ensures IsOutcome(env, base, f) && AtRest(base) && Keyed(s.order, base)
  {
    forall id | id in base ensures base[id].spec.id == id { assert Follows(env, base, f, s, id); }
  }

  lemma GroundedAfterGrow(order: seq<Id>, f: States, fixes: seq<SubTask>, agents: set<string>, room: nat, env: Env,
                          base: States)
    requires Keyed(order, base) && AtRest(base) && IsOutcome(env, base, f)
    requires FailuresAreGrounded(f) && fixes == PlanRepairs(order, f, agents, room)
    ensures FailuresAreGrounded(Grow(f, fixes)) && Keeps(base, Grow(f, fixes))
  {
    RepairsAreRepairs(order, f, agents, room);
    RepairsAreNew(f, fixes);
    GrowKeeps(env, base, f, fixes);
    GrowHas(f, fixes);
    var g := Grow(f, fixes);
    forall id | id in g && id !in f ensures g[id].status.Pending? {
      var i :| 0 <= i < |fixes| && Ids(fixes)[i] == id;
      assert g[fixes[i].id] == Fresh(fixes[i]);
    }
  }

  lemma NextPhase(env: Env, agents: set<string>, order: seq<Id>, m: States, room: nat,
                  f: States, fixes: seq<SubTask>, f': States)
    requires Keyed(order, m) && AtRest(m) && FailuresAreGrounded(m)
    requires f == Evaluate(env, order, m) && fixes == PlanRepairs(order, f, agents, room)
    requires f' == Evaluate(env, order + Ids(fixes), Grow(f, fixes))
    ensures Keyed(order + Ids(fixes), Grow(f, fixes)) && AtRest(Grow(f, fixes)) && FailuresAreGrounded(Grow(f, fixes))
    ensures IsOutcome(env, m, f) && AreNew(f, fixes) && Extends(f, f')
  {
    hide Evaluate, AreRepairs;
    EvaluateIsOutcome(env, order, m);
    OutcomeFailuresAreGrounded(env, m, f);
    OutcomeIsKeyed(env, order, m, f);
    RepairsAreRepairs(order, f, agents, room);
    GrownIsAtRest(f, order, fixes);
    GroundedAfterGrow(order, f, fixes, agents, room, env, m);
    RepairsAreNew(f, fixes);
    ExtendedOutcome(env, order, m, f, fixes, f');
  }

  lemma ExtendedOutcome(env: Env, order: seq<Id>, m: States, f: States, fixes: seq<SubTask>, f': States)
    requires AtRest(m) && IsOutcome(env, m, f) && AreNew(f, fixes)
    requires Keyed(order + Ids(fixes), Grow(f, fixes)) && AtRest(Grow(f, fixes))
    requires f' == Evaluate(env, order + Ids(fixes), Grow(f, fixes))
    ensures Extends(f, f')
  {
    hide Evaluate, Keyed;
    OutcomeIsTerminal(env, m, f);
    GrowHas(f, fixes);
    EvaluateIsOutcome(env, order + Ids(fixes), Grow(f, fixes));
    OldOutcomesStay(env, f, Grow(f, fixes), f');
  }

  /** The outcome of the current plan is part of the goal. */
  lemma {:induction false} GoalExtendsOutcome(env: Env, agents: set<string>, order: seq<Id>, m: States, room: nat)
    requires Keyed(order, m) && AtRest(m) && FailuresAreGrounded(m)
    ensures Extends(Evaluate(env, order, m), Whole(env, agents, order, m, room).1)
    decreases room
  {
    hide Evaluate, Keyed, AtRest, FailuresAreGrounded, Grow;
    var f := Evaluate(env, order, m);
    var fixes := PlanRepairs(order, f, agents, room);
    if fixes != [] {
      var f' := Evaluate(env, order + Ids(fixes), Grow(f, fixes));
      NextPhase(env, agents, order, m, room, f, fixes, f');
      GoalExtendsOutcome(env, agents, order + Ids(fixes), Grow(f, fixes), room - |fixes|);
    }
  }

  /** What has settled when a run is stopped agrees with the goal. */
  lemma CourseSettled(env: Env, agents: set<string>, room: nat, goal: (seq<Id>, States), base: States, f: States,
                      s: Sys)
    requires OnCourse(env, agents, room, goal, base, f, s)
    ensures forall id :: id in s.subtasks && s.subtasks[id].status.Terminal()
              ==> id in goal.1 && goal.1[id] == Erase(s.subtasks[id])
  {
    CourseOutcome(env, base, f, s);
    GoalExtendsOutcome(env, agents, s.order, base, room);
    forall id | id in s.subtasks && s.subtasks[id].status.Terminal()
      ensures id in goal.1 && goal.1[id] == Erase(s.subtasks[id])
    {
      assert Follows(env, base, f, s, id);
    }
  }

  /** A start costs work and disturbs no runnable subtask outside the flight. */
  lemma StartMovesOn(env: Env, base: States, f: States, s: Sys, id: Id)
    requires Inv(env, base, f, s) && id in s.flight && s.flight[id].Queued? && id in s.subtasks
    ensures var s' := Start(env, s, id);
            && Measure(env, base, f, s') < Measure(env, base, f, s) && s'.flight.Keys <= s.flight.Keys
            && forall x :: Runnable(x, s.subtasks) && x !in s.flight ==> Runnable(x, s'.subtasks)
  {
    var e, cap := StartEvent(id), |Holders(s)| + 1;
    assert Step(env, cap, s, e) == Start(env, s, id);
    StepCosts(env, cap, base, f, s, e);
    forall x | Runnable(x, s.subtasks) && x !in s.flight ensures Runnable(x, Start(env, s, id).subtasks) {
      RunnableStays(env, cap, base, f, s, e, x);
    }
  }

  /** So does a resumption. */
  lemma ResumeMovesOn(env: Env, base: States, f: States, s: Sys, id: Id)
    requires Inv(env, base, f, s) && CanResume(env, s, id)
    ensures var s' := Advance(env, s, id);
            && Measure(env, base, f, s') < Measure(env, base, f, s) && s'.flight.Keys <= s.flight.Keys
            && forall x :: Runnable(x, s.subtasks) && x !in s.flight ==> Runnable(x, s'.subtasks)
  {
    var e := ResumeEvent(id);
    assert Step(env, 0, s, e) == Advance(env, s, id);
    StepCosts(env, 0, base, f, s, e);
    forall x | Runnable(x, s.subtasks) && x !in s.flight ensures Runnable(x, Advance(env, s, id).subtasks) {
      RunnableStays(env, 0, base, f, s, e, x);
    }
  }

  lemma DispatchedInFlight(env: Env, base: States, f: States, s: Sys)
    requires Inv(env, base, f, s)
    ensures s.flight.Keys <= s.dispatched
  {
  }

  lemma DispatchHolds(env: Env, base: States, f: States, s: Sys, id: Id)
    requires Inv(env, base, f, s) && CanDispatch(s, id)
    ensures Holders(Dispatch(s, id)) == Holders(s)
    ensures Measure(env, base, f, Dispatch(s, id)) < Measure(env, base, f, s)
  {
    StepCosts(env, 0, base, f, s, DispatchEvent(id));
    assert id !in s.flight;
  }

  lemma InFlight(env: Env, base: States, f: States, s: Sys, id: Id)
    requires Inv(env, base, f, s) && id in s.flight
    ensures id in s.subtasks && (s.flight[id].Queued? || CanResume(env, s, id))
  {
    assert Follows(env, base, f, s, id);
  }

  lemma HoldersAfterPut(s: Sys, id: Id, p: Progress)
    requires p.Suspended? ==> !p.phase.Queued?
    ensures Holders(Put(s, id, p)) == if p.Settled? then Holders(s) - {id} else Holders(s) + {id}
  {
  }

  // ---- end times

  /** Settled before the run started: restored from a checkpoint. */
  predicate Restored(start: States, id: Id) {
    id in start && !start[id].status.Pending?
  }

  /** What completed before the run started is still as it was. */
  ghost predicate Keeps(start: States, m: States) {
    forall id :: id in start && start[id].status.Satisfying() ==> id in m && m[id] == start[id]
  }

  /** When a run ends, a subtask has an end time exactly when it was settled by the run or by
      stopping it: not when it was restored, nor when it had been blocked before the stop. */
  ghost predicate EndTimes(start: States, before: States, final: States) {
    && final.Keys == before.Keys
    && forall id :: id in final ==> (final[id].ended <==> !before[id].status.Blocked? && !Restored(start, id))
  }

  /** The same of a state that has come from `start` without stopping; pending entries are not
      among those restored. */
  ghost predicate Timed(start: States, m: States) {
    && start.Keys <= m.Keys
    && forall id :: id in m ==>
         && (m[id].status.Pending? ==> !Restored(start, id))
         && (m[id].ended <==> !m[id].status.Pending? && !m[id].status.Blocked? && !Restored(start, id))
  }

  lemma StartIsTimed(m: States)
    requires Startable(m) && Unended(m)
    ensures Timed(m, m)
  {
  }

  lemma OutcomeIsTimed(env: Env, start: States, m: States, f: States)
    requires Timed(start, m) && AtRest(m) && IsOutcome(env, m, f)
    ensures Timed(start, f)
  {
    forall id | id in f
      ensures f[id].ended <==> !f[id].status.Pending? && !f[id].status.Blocked? && !Restored(start, id)
    {
      if m[id].status.Pending? {
        AttemptIsHonest(env, m[id], DependencyResults(m[id].spec.dependsOn, f));
      }
    }
  }

  lemma {:induction false} GoalIsTimed(env: Env, agents: set<string>, start: States, order: seq<Id>, m: States,
                                       room: nat)
    requires Keyed(order, m) && AtRest(m) && FailuresAreGrounded(m) && Timed(start, m)
    ensures Timed(start, Whole(env, agents, order, m, room).1)
    ensures forall id :: id in Whole(env, agents, order, m, room).1 ==>
              Whole(env, agents, order, m, room).1[id].status.Terminal()
    decreases room
  {
    hide Evaluate, IsOutcome, Keyed, AtRest, FailuresAreGrounded, Grow, AreNew, Timed;
    var f := Evaluate(env, order, m);
    var fixes := PlanRepairs(order, f, agents, room);
    EvaluateIsOutcome(env, order, m);
    OutcomeIsTerminal(env, m, f);
    OutcomeIsTimed(env, start, m, f);
    if fixes != [] {
      NextPhase(env, agents, order, m, room, f, fixes, Evaluate(env, order + Ids(fixes), Grow(f, fixes)));
      GrownIsTimed(start, f, fixes);
      GoalIsTimed(env, agents, start, order + Ids(fixes), Grow(f, fixes), room - |fixes|);
    }
  }

  lemma GrownIsTimed(start: States, f: States, fixes: seq<SubTask>)
    requires Timed(start, f) && AreNew(f, fixes)
    ensures Timed(start, Grow(f, fixes))
  {
    GrowHas(f, fixes);
    var g := Grow(f, fixes);
    forall id | id in g
      ensures g[id].status.Pending? ==> !Restored(start, id)
      ensures g[id].ended <==> !g[id].status.Pending? && !g[id].status.Blocked? && !Restored(start, id)
    {
      if id !in f {
        var i :| 0 <= i < |fixes| && Ids(fixes)[i] == id;
        assert g[fixes[i].id] == Fresh(fixes[i]);
      }
    }
  }

  /** In a run that is under way, what was completed in the base state is still as it was. */
  lemma CompletedStays(env: Env, base: States, f: States, s: Sys)
    requires Inv(env, base, f, s)
    ensures Keeps(base, s.subtasks)
  {
    forall id | id in base && base[id].status.Satisfying() ensures id in s.subtasks && s.subtasks[id] == base[id] {
      assert Follows(env, base, f, s, id);
    }
  }

  lemma GrowKeeps(env: Env, base: States, f: States, fixes: seq<SubTask>)
    requires IsOutcome(env, base, f) && AreNew(f, fixes)
    ensures Keeps(base, Grow(f, fixes))
  {
    GrowHas(f, fixes);
  }

  /** Which subtasks of a stopped run have an end time: not all of them, as documented, but
      exactly those that were neither restored nor blocked before the stop. */
  lemma EndTimesAfterStop(env: Env, agents: set<string>, order: seq<Id>, m: States, room: nat,
                          atStop: States, final: States)
    requires Keyed(order, m) && Startable(m) && Unended(m)
    requires AllStopped(atStop, final) && Keeps(m, atStop)
    requires var goal := Whole(env, agents, order, m, room).1;
             forall id :: id in atStop && atStop[id].status.Terminal() ==> id in goal && goal[id] == Erase(atStop[id])
    ensures EndTimes(m, atStop, final)
  {
    hide Whole, Keyed, FailuresAreGrounded;
    StartIsGrounded(m);
    StartIsTimed(m);
    GoalIsTimed(env, agents, m, order, m, room);
    var goal := Whole(env, agents, order, m, room).1;
    forall id | id in final ensures final[id].ended <==> !atStop[id].status.Blocked? && !Restored(m, id) {
      if atStop[id].status.Terminal() {
        assert goal[id] == Erase(atStop[id]);
        assert final[id].ended == goal[id].ended;
      }
    }
  }

  /** In a run that completes, the blocked and the restored ones have none either. */
  lemma EndTimesAtGoal(env: Env, agents: set<string>, order: seq<Id>, m: States, room: nat, final: States)
    requires Keyed(order, m) && Startable(m) && Unended(m)
    requires EraseAll(final) == Whole(env, agents, order, m, room).1
    ensures EndTimes(m, final, final)
  {
    hide Whole, Keyed, FailuresAreGrounded;
    StartIsGrounded(m);
    StartIsTimed(m);
    GoalIsTimed(env, agents, m, order, m, room);
    var goal := Whole(env, agents, order, m, room).1;
    forall id | id in final ensures final[id].ended <==> !final[id].status.Blocked? && !Restored(m, id) {
      assert goal[id] == Erase(final[id]);
    }
  }

  /** Both together, for `Run`. */
  lemma EndTimesOfRun(env: Env, agents: set<string>, order: seq<Id>, m: States, room: nat, completed: bool,
                      atStop: States, final: States)
    requires Keyed(order, m) && Startable(m)
    requires completed ==> EraseAll(final) == Whole(env, agents, order, m, room).1
    requires !completed ==>
               && AllStopped(atStop, final) && Keeps(m, atStop)
               && var goal := Whole(env, agents, order, m, room).1;
                  forall id :: id in atStop && atStop[id].status.Terminal() ==>
                         id in goal && goal[id] == Erase(atStop[id])
    ensures Unended(m) ==> EndTimes(m, if completed then final else atStop, final)
  {
    hide Whole, Keyed, Startable, Unended, EndTimes, Keeps, StoppedFrom, EraseAll;
    if Unended(m) {
      if completed {
        EndTimesAtGoal(env, agents, order, m, room, final);
      } else {
        EndTimesAfterStop(env, agents, order, m, room, atStop, final);
      }
    }
  }

  lemma StartIsGrounded(m: States)
    requires Startable(m)
    ensures AtRest(m) && FailuresAreGrounded(m)
  {
  }

  /** Three subtasks, of which the second depends on the first; executing anything fails. */
  const UNLUCKY: Env := Env((st, deps) => Crashed("no answer"), (st, text) => VerifyError("none"), 2, 3, true)

  function Trio(): States {
    map["a" := Fresh(SubTask("a", "coder", [], "")),
        "b" := Fresh(SubTask("b", "coder", ["a"], "")),
        "c" := Fresh(SubTask("c", "coder", [], ""))]
  }

  const UNLUCKY_EVENTS: seq<Event> :=
    [DispatchEvent("a"), StartEvent("a"), ResumeEvent("a"), CutEvent("b", Blame("a"))]

  lemma FourSteps(env: Env, cap: nat, s: Sys, es: seq<Event>)
    requires |es| == 4 && Enabled(env, cap, s, es[0])
    requires var s1 := Step(env, cap, s, es[0]);
             Enabled(env, cap, s1, es[1])
             && var s2 := Step(env, cap, s1, es[1]);
                Enabled(env, cap, s2, es[2]) && Enabled(env, cap, Step(env, cap, s2, es[2]), es[3])
    ensures Possible(env, cap, s, es)
    ensures var s2 := Step(env, cap, Step(env, cap, s, es[0]), es[1]);
            After(env, cap, s, es) == Step(env, cap, Step(env, cap, s2, es[2]), es[3])
  {
    hide Enabled, Step;
    var s1 := Step(env, cap, s, es[0]);
    var s2 := Step(env, cap, s1, es[1]);
    var s3 := Step(env, cap, s2, es[2]);
    assert es[1..][1..] == es[2..] && es[2..][1..] == es[3..] && es[3..][1..] == [];
    assert Possible(env, cap, Step(env, cap, s3, es[3]), []);
    assert Possible(env, cap, s3, es[3..]) && After(env, cap, s3, es[3..]) == Step(env, cap, s3, es[3]);
    assert Possible(env, cap, s2, es[2..]) && After(env, cap, s2, es[2..]) == After(env, cap, s3, es[3..]);
    assert Possible(env, cap, s1, es[1..]) && After(env, cap, s1, es[1..]) == After(env, cap, s2, es[2..]);
  }

  /** The first subtask of an unlucky run fails ... */
  lemma FirstFails()
    ensures var s0 := Initial(["a", "b", "c"], Trio());
            && CanDispatch(s0, "a") && CanStart(1, Dispatch(s0, "a"), "a")
            && var s2 := Start(UNLUCKY, Dispatch(s0, "a"), "a");
               CanResume(UNLUCKY, s2, "a")
               && var s3 := Advance(UNLUCKY, s2, "a");
                  s3.subtasks == Trio()["a" := s3.subtasks["a"]]
                  && s3.subtasks["a"].status.Failed? && s3.subtasks["a"].ended
  {
    var s0 := Initial(["a", "b", "c"], Trio());
    var s1 := Dispatch(s0, "a");
    assert Holders(s1) == {};
    var s2 := Start(UNLUCKY, s1, "a");
    assert CanResume(UNLUCKY, s2, "a");
    var s3 := Advance(UNLUCKY, s2, "a");
    assert s3.subtasks == Trio()["a" := s3.subtasks["a"]];
  }

  /** ... which blocks the second; then the run is stopped.  The second ends without an end time,
      while the third, which had not even been started, gets one. */
  lemma BlockedHasNoEndTime(final: States)
    ensures Possible(UNLUCKY, 1, Initial(["a", "b", "c"], Trio()), UNLUCKY_EVENTS)
    ensures AllStopped(After(UNLUCKY, 1, Initial(["a", "b", "c"], Trio()), UNLUCKY_EVENTS).subtasks, final) ==>
              && final.Keys == {"a", "b", "c"} && (forall id :: id in final ==> final[id].status.Terminal())
              && final["a"].ended && !final["b"].ended && final["c"].ended
  {
    var s0 := Initial(["a", "b", "c"], Trio());
    FirstFails();
    var s3 := Advance(UNLUCKY, Start(UNLUCKY, Dispatch(s0, "a"), "a"), "a");
    hide Start, Advance, CanDispatch, CanStart, CanResume, Dispatch, Initial;
    assert Unreachable("b", s3.subtasks) by {
      assert "a" in s3.subtasks["b"].spec.dependsOn && BrokenDep("a", s3.subtasks);
    }
    FourSteps(UNLUCKY, 1, s0, UNLUCKY_EVENTS);
    var atStop := Cut(s3, "b", Blame("a")).subtasks;
    if AllStopped(atStop, final) {
      assert final["a"] == atStop["a"] && final["b"] == atStop["b"] && StoppedFrom(atStop["c"], final["c"]);
    }
  }
}
