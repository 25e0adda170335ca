/** The replanning hook itself, which edits the run in place (engine.py, `_make_replan`). */
module Replanning {
  import opened Plans
  import opened Attempts
  import opened Sequential
  import opened Repairs
  import opened Runs

  lemma {:induction false} GrowSnoc(m: States, specs: seq<SubTask>, spec: SubTask)
    ensures Grow(m, specs + [spec]) == Add(Grow(m, specs), spec)
    decreases |specs|
  {
    if specs == [] {
      assert specs + [spec] == [spec];
      assert Grow(m, [spec]) == Grow(Add(m, spec), []);
    } else {
      assert (specs + [spec])[1..] == specs[1..] + [spec];
      GrowSnoc(Add(m, specs[0]), specs[1..], spec);
    }
  }

  lemma {:induction false} IdsSnoc(specs: seq<SubTask>, spec: SubTask)
    ensures Ids(specs + [spec]) == Ids(specs) + [spec.id]
  {
    if specs == [] {
      assert specs + [spec] == [spec];
    } else {
      assert (specs + [spec])[1..] == specs[1..] + [spec];
      IdsSnoc(specs[1..], spec);
    }
  }

  lemma GrowNothing(m: States)
    ensures Grow(m, []) == m && Ids([]) == []
  {
  }

  lemma NoRepairs(ids: seq<Id>, m: States, agents: set<string>, room: nat)
    requires ids == [] || room == 0
    ensures PlanRepairs(ids, m, agents, room) == []
  {
  }

  /** One more id looked at. */
  lemma RepairNext(ids: seq<Id>, i: nat, m: States, agents: set<string>, room: nat, done: seq<SubTask>,
                   fixes: seq<SubTask>)
    requires i < |ids| && room > 0 && fixes == done + PlanRepairs(ids[i..], m, agents, room)
    ensures if Eligible(m, ids[i])
            then fixes == done + [RepairOf(ids[i], m, agents)]
                          + PlanRepairs(ids[i + 1..], Add(m, RepairOf(ids[i], m, agents)), agents, room - 1)
            else fixes == done + PlanRepairs(ids[i + 1..], m, agents, room)
  {
    assert ids[i..][0] == ids[i] && ids[i..][1..] == ids[i + 1..];
  }

  /** How many repairs the run may still get. */
  function Room(repairs: nat): (room: nat)
    ensures repairs <= 2 ==> repairs + room == 2
  {
    if repairs >= MAX_REPAIRS then 0 else MAX_REPAIRS - repairs
  }

  class Replanner {
    const agents: set<string>
    var repairs: nat

    constructor (agents: set<string>)
      ensures this.agents == agents && repairs == 0
    {
      this.agents, repairs := agents, 0;
    }

    /** Append a subtask to the plan and to the dictionary. */
    method Inject(run: TaskRun, fix: SubTask)
      modifies run
      ensures run.plan == old(run.plan) + [fix] && run.order == old(run.order) + [fix.id]
      ensures run.subtasks == Add(old(run.subtasks), fix)
    {
      run.plan := run.plan + [fix];
      run.order := run.order + [fix.id];
      run.subtasks := Add(run.subtasks, fix);
    }

    method Replan(run: TaskRun) returns (added: nat)
      modifies this, run
      ensures var fixes := PlanRepairs(old(run.order), old(run.subtasks), agents, Room(old(repairs)));
              && added == |fixes| && repairs == old(repairs) + added
              && run.plan == old(run.plan) + fixes
              && run.order == old(run.order) + Ids(fixes)
              && run.subtasks == Grow(old(run.subtasks), fixes)
    {
      hide RepairOf, Grow, Add, PlanRepairs, Ids;
      added := 0;
      if repairs >= MAX_REPAIRS {
        NoRepairs(run.order, run.subtasks, agents, 0);
        GrowNothing(run.subtasks);
        return;
      }
      var ids := run.order;
      ghost var fixes := PlanRepairs(ids, run.subtasks, agents, Room(repairs));
      ghost var done: seq<SubTask> := [];
      GrowNothing(run.subtasks);
      assert fixes == done + PlanRepairs(ids[0..], run.subtasks, agents, Room(repairs)) by { assert ids[0..] == ids; }
      var i := 0;
      while i < |ids|
        invariant 0 <= i <= |ids| && repairs < MAX_REPAIRS && added == |done| && repairs == old(repairs) + added
        invariant fixes == done + PlanRepairs(ids[i..], run.subtasks, agents, Room(repairs))
        invariant run.plan == old(run.plan) + done && run.order == ids + Ids(done)
        invariant run.subtasks == Grow(old(run.subtasks), done)
      {
        var id := ids[i];
        RepairNext(ids, i, run.subtasks, agents, Room(repairs), done, fixes);
        if Eligible(run.subtasks, id) {
          var fix := RepairOf(id, run.subtasks, agents);
          GrowSnoc(old(run.subtasks), done, fix);
          IdsSnoc(done, fix);
          Inject(run, fix);
          done := done + [fix];
          repairs := repairs + 1;
          added := added + 1;
          if repairs >= MAX_REPAIRS {
            break;
          }
        }
        i := i + 1;
      }
      if i == |ids| {
        NoRepairs(ids[i..], run.subtasks, agents, Room(repairs));
      } else {
        NoRepairs(ids[i + 1..], run.subtasks, agents, 0);
      }
      assert fixes == done;
    }
  }
}
