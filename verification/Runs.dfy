/** A run: the plan and the state of its subtasks, updated in place (orchestration/task.py). */
module Runs {
  import opened Collections
  import opened Wrappers
  import opened Plans
  import opened Attempts
  import opened Sequential
  import opened Interleaving
  import opened Confluence
  import opened Repairs
  import opened Validation
  import opened Cycles

  /** The first dependency in declaration order that can never be satisfied. */
  function FirstBroken(deps: seq<Id>, m: States): Option<Id> {
    if deps == [] then None
    else if BrokenDep(deps[0], m) then Some(deps[0])
    else FirstBroken(deps[1..], m)
  }

  lemma {:induction false} FirstBrokenFinds(deps: seq<Id>, m: States)
    ensures FirstBroken(deps, m).Some? <==> Hopeless(deps, m)
    ensures FirstBroken(deps, m).Some? ==>
              FirstBroken(deps, m).value in deps && BrokenDep(FirstBroken(deps, m).value, m)
  {
    if deps != [] {
      FirstBrokenFinds(deps[1..], m);
    }
  }

  function Blame(dep: Id): string {
    "dependency '" + dep + "' did not pass"
  }

  function BlockOne(id: Id, m: States): States {
    if id in m && m[id].status.Pending? && FirstBroken(m[id].spec.dependsOn, m).Some?
    then m[id := m[id].(status := Blocked, error := Blame(FirstBroken(m[id].spec.dependsOn, m).value))]
    else m
  }

  /** One pass over the dictionary: later entries see the earlier ones already blocked. */
  function BlockPass(ids: seq<Id>, m: States): States
    decreases |ids|
  {
    if ids == [] then m else BlockPass(ids[1..], BlockOne(ids[0], m))
  }

  lemma InOrder(order: seq<Id>, m: States, i: nat)
    requires Keyed(order, m) && i < |order|
    ensures order[i] in m
  {
    assert order[i] in order;
  }

  lemma NextBlocked(order: seq<Id>, m: States, i: nat)
    requires i < |order|
    ensures BlockPass(order[i..], m) == BlockPass(order[i + 1..], BlockOne(order[i], m))
    ensures Keyed(order, m) ==> Keyed(order, BlockOne(order[i], m))
  {
    hide FirstBroken;
    assert order[i..][1..] == order[i + 1..] && order[i..][0] == order[i];
  }

  lemma NoneBlocked(order: seq<Id>, m: States)
    ensures BlockPass(order[|order|..], m) == m
  {
  }

  lemma BlockOneIsCut(id: Id, s: Sys)
    ensures BlockOne(id, s.subtasks) == s.subtasks
            || (Unreachable(id, s.subtasks) && exists error :: BlockOne(id, s.subtasks) == Cut(s, id, error).subtasks)
    ensures BlockOne(id, s.subtasks) == s.subtasks <==> !Unreachable(id, s.subtasks)
  {
    if id in s.subtasks && s.subtasks[id].status.Pending? {
      var st := s.subtasks[id];
      FirstBrokenFinds(st.spec.dependsOn, s.subtasks);
      if FirstBroken(st.spec.dependsOn, s.subtasks).Some? {
        var error := Blame(FirstBroken(st.spec.dependsOn, s.subtasks).value);
        assert BlockOne(id, s.subtasks) == Cut(s, id, error).subtasks;
        assert BlockOne(id, s.subtasks)[id] != s.subtasks[id];
      }
    }
  }

  /** A pass is a series of steps of the transition system. */
  lemma {:induction false} BlockPassKeeps(env: Env, base: States, f: States, s: Sys, ids: seq<Id>)
    requires Inv(env, base, f, s)
    ensures Inv(env, base, f, s.(subtasks := BlockPass(ids, s.subtasks)))
    ensures Measure(env, base, f, s.(subtasks := BlockPass(ids, s.subtasks))) <= Measure(env, base, f, s)
    decreases |ids|
  {
    hide Inv, Measure;
    if ids == [] {
      assert s.(subtasks := s.subtasks) == s;
    } else {
      BlockOneIsCut(ids[0], s);
      var s1 := s.(subtasks := BlockOne(ids[0], s.subtasks));
      if s1.subtasks != s.subtasks {
        var error :| s1.subtasks == Cut(s, ids[0], error).subtasks;
        assert s1 == Cut(s, ids[0], error);
        CutKeeps(env, base, f, s, ids[0], error);
        StepCosts(env, 0, base, f, s, CutEvent(ids[0], error));
      } else {
        assert s1 == s;
      }
      BlockPassKeeps(env, base, f, s1, ids[1..]);
      assert s.(subtasks := BlockPass(ids, s.subtasks)) == s1.(subtasks := BlockPass(ids[1..], s1.subtasks));
    }
  }

  /** What a pass does: it blocks pending entries only, and misses none that had a broken
      dependency before it started. */
  lemma {:induction false} BlockPassBlocks(ids: seq<Id>, m: States)
    ensures BlockPass(ids, m).Keys == m.Keys
    ensures forall id :: id in m ==> (BlockPass(ids, m)[id] == m[id]
              || (m[id].status.Pending? && exists e :: BlockPass(ids, m)[id] == m[id].(status := Blocked, error := e)))
    ensures forall id :: id in ids && Unreachable(id, m) ==> BlockPass(ids, m)[id].status.Blocked?
    decreases |ids|
  {
    if ids != [] {
      var m1 := BlockOne(ids[0], m);
      BlockPassBlocks(ids[1..], m1);
      BlockOneIsCut(ids[0], Sys([], m, map[], {}));
      forall id | id in ids && Unreachable(id, m) ensures BlockPass(ids, m)[id].status.Blocked? {
        if id != ids[0] {
          var d :| d in m[id].spec.dependsOn && BrokenDep(d, m);
          assert BrokenDep(d, m1) && m1[id] == m[id];
          assert Unreachable(id, m1);
        }
      }
    }
  }

  /** After a pass no pending entry has an unknown dependency. */
  lemma BlockPassLeavesNothingDangling(order: seq<Id>, m: States, s: Sys)
    requires Keyed(order, m) && s.subtasks == BlockPass(order, m)
    ensures NothingDangles(s)
  {
    BlockPassBlocks(order, m);
    forall id, d | id in s.subtasks && s.subtasks[id].status.Pending? && d in s.subtasks[id].spec.dependsOn
      ensures d in s.subtasks
    {
      assert s.subtasks[id] == m[id];
      if d !in m {
        assert BrokenDep(d, m);
        assert Unreachable(id, m);
      }
    }
  }

  // ---- ready subtasks

  function ReadyIds(ids: seq<Id>, m: States): (ready: seq<Id>)
    ensures forall id :: id in ready <==> id in ids && Runnable(id, m)
  {
    if ids == [] then [] else (if Runnable(ids[0], m) then [ids[0]] else []) + ReadyIds(ids[1..], m)
  }

  lemma {:induction false} ReadyIdsSnoc(ids: seq<Id>, id: Id, m: States)
    ensures ReadyIds(ids + [id], m) == ReadyIds(ids, m) + if Runnable(id, m) then [id] else []
  {
    if ids == [] {
      assert ids + [id] == [id];
    } else {
      assert (ids + [id])[1..] == ids[1..] + [id];
      ReadyIdsSnoc(ids[1..], id, m);
    }
  }

  // ---- checkpoints

  /** A stored row; only its status, attempts, result and verdict are restored. */
  datatype Checkpoint = Checkpoint(status: Status, attempts: nat, result: string, verdict: Option<Verdict>)

  function Restore(st: SubTaskState, row: Checkpoint): SubTaskState {
    var counted := st.(attempts := row.attempts);
    if row.status.Satisfying() then
      counted.(status := row.status, result := row.result,
               verdict := if row.verdict.Some? then row.verdict else st.verdict)
    else counted
  }

  function RestoreAll(m: States, stored: map<Id, Checkpoint>): States {
    map id | id in m :: if id in stored then Restore(m[id], stored[id]) else m[id]
  }

  /** With the rows of `done` looked at. */
  ghost function RestoreSome(m: States, stored: map<Id, Checkpoint>, done: set<Id>): States {
    map id | id in m :: if id in stored && id in done then Restore(m[id], stored[id]) else m[id]
  }

  lemma RestoreOneMore(m: States, stored: map<Id, Checkpoint>, done: set<Id>, id: Id)
    requires id in stored && id !in done
    ensures RestoreSome(m, stored, done).Keys == m.Keys
    ensures id in m ==> RestoreSome(m, stored, done)[id] == m[id]
    ensures RestoreSome(m, stored, done + {id})
            == if id in m then RestoreSome(m, stored, done)[id := Restore(m[id], stored[id])]
               else RestoreSome(m, stored, done)
  {
    hide Restore;
  }

  lemma AllRestored(m: States, stored: map<Id, Checkpoint>)
    ensures RestoreSome(m, stored, stored.Keys) == RestoreAll(m, stored)
  {
    hide Restore;
  }

  lemma NoneRestored(m: States, stored: map<Id, Checkpoint>)
    ensures RestoreSome(m, stored, {}) == m && Completed({}, m, stored) == {}
  {
    hide Restore;
  }

  ghost function Completed(ids: set<Id>, m: States, stored: map<Id, Checkpoint>): set<Id> {
    set id | id in ids && id in stored && id in m && stored[id].status.Satisfying()
  }

  lemma CompletedAdd(ids: set<Id>, id: Id, m: States, stored: map<Id, Checkpoint>)
    requires id !in ids && id in stored
    ensures |Completed(ids + {id}, m, stored)|
            == |Completed(ids, m, stored)| + if id in m && stored[id].status.Satisfying() then 1 else 0
  {
    if id in m && stored[id].status.Satisfying() {
      assert Completed(ids + {id}, m, stored) == Completed(ids, m, stored) + {id};
    } else {
      assert Completed(ids + {id}, m, stored) == Completed(ids, m, stored);
    }
  }

  // ---- a dictionary built from a plan

  /** Inserting the entries one by one: a repeated id keeps its first place ... */
  function FirstSeen(plan: seq<SubTask>): seq<Id>
    decreases |plan|
  {
    if plan == [] then []
    else
      var ids, id := FirstSeen(plan[..|plan| - 1]), plan[|plan| - 1].id;
      if id in ids then ids else ids + [id]
  }

  /** ... and its last entry. */
  function LastEntries(plan: seq<SubTask>): States
    decreases |plan|
  {
    if plan == [] then map[]
    else LastEntries(plan[..|plan| - 1])[plan[|plan| - 1].id := Fresh(plan[|plan| - 1])]
  }

  /** Whatever the repetitions, an id is entered once, and its last entry is the one that counts. */
  lemma {:induction false} LastEntryCounts(plan: seq<SubTask>, i: nat)
    requires i < |plan| && forall j :: i < j < |plan| ==> plan[j].id != plan[i].id
    ensures plan[i].id in LastEntries(plan) && LastEntries(plan)[plan[i].id] == Fresh(plan[i])
    decreases |plan|
  {
    var n := |plan| - 1;
    if i < n {
      assert forall j :: 0 <= j < n ==> plan[..n][j] == plan[j];
      LastEntryCounts(plan[..n], i);
    }
  }

  /** And ids stand in the order of their first entries. */
  lemma {:induction false} FirstEntriesOrder(plan: seq<SubTask>, i: nat, j: nat)
    requires i < j < |plan| && plan[i].id != plan[j].id
    requires forall k :: 0 <= k < i ==> plan[k].id != plan[i].id
    requires forall k :: 0 <= k < j ==> plan[k].id != plan[j].id
    ensures exists a, b :: 0 <= a < b < |FirstSeen(plan)| && FirstSeen(plan)[a] == plan[i].id
                           && FirstSeen(plan)[b] == plan[j].id
    decreases |plan|
  {
    var n := |plan| - 1;
    assert forall k :: 0 <= k < n ==> plan[..n][k] == plan[k];
    if j < n {
      FirstEntriesOrder(plan[..n], i, j);
      var ids := FirstSeen(plan[..n]);
      var a, b :| 0 <= a < b < |ids| && ids[a] == plan[i].id && ids[b] == plan[j].id;
      assert FirstSeen(plan)[a] == ids[a] && FirstSeen(plan)[b] == ids[b];
    } else {
      SeenAreListed(plan[..n], plan[i].id);
      SeenAreListed(plan[..n], plan[j].id);
      var ids := FirstSeen(plan[..n]);
      assert plan[..n][i].id == plan[i].id;
      var a :| 0 <= a < |ids| && ids[a] == plan[i].id;
      assert FirstSeen(plan) == ids + [plan[j].id];
      assert FirstSeen(plan)[a] == plan[i].id && FirstSeen(plan)[|ids|] == plan[j].id;
    }
  }

  lemma {:induction false} SeenAreListed(plan: seq<SubTask>, id: Id)
    ensures id in FirstSeen(plan) <==> exists k :: 0 <= k < |plan| && plan[k].id == id
    decreases |plan|
  {
    if plan != [] {
      var n := |plan| - 1;
      assert forall k :: 0 <= k < n ==> plan[..n][k] == plan[k];
      SeenAreListed(plan[..n], id);
    }
  }

  lemma KeyedInsert(ids: seq<Id>, m: States, st: SubTask)
    requires Keyed(ids, m)
    ensures Keyed(if st.id in ids then ids else ids + [st.id], m[st.id := Fresh(st)])
  {
  }

  lemma {:induction false} RegisteredIsKeyed(plan: seq<SubTask>)
    ensures Keyed(FirstSeen(plan), LastEntries(plan))
    ensures Startable(LastEntries(plan)) && Unended(LastEntries(plan))
    decreases |plan|
  {
    if plan != [] {
      var front, st := plan[..|plan| - 1], plan[|plan| - 1];
      RegisteredIsKeyed(front);
      KeyedInsert(FirstSeen(front), LastEntries(front), st);
    }
  }

  lemma DistinctSnoc<T>(s: seq<T>, x: T)
    requires Distinct(s + [x])
    ensures Distinct(s) && x !in s
  {
    var t := s + [x];
    forall i, j | 0 <= i < j < |s| ensures s[i] != s[j] { assert t[i] != t[j]; }
    forall i | 0 <= i < |s| ensures s[i] != x { assert t[i] != t[|s|]; }
  }

  /** A plan without repeated ids is registered as it stands. */
  lemma {:induction false} RegisteredInOrder(plan: seq<SubTask>)
    requires Distinct(Ids(plan))
    ensures FirstSeen(plan) == Ids(plan)
    ensures forall i :: 0 <= i < |plan| ==>
              plan[i].id in LastEntries(plan) && LastEntries(plan)[plan[i].id] == Fresh(plan[i])
    decreases |plan|
  {
    hide Distinct, Ids;
    if plan != [] {
      var front, st := plan[..|plan| - 1], plan[|plan| - 1];
      assert Ids(plan) == Ids(front) + [st.id];
      DistinctSnoc(Ids(front), st.id);
      RegisteredInOrder(front);
      forall i | 0 <= i < |front| ensures plan[i] == front[i] && plan[i].id != st.id {
        assert Ids(front)[i] == front[i].id;
      }
    } else {
      assert Ids(plan) == [];
    }
  }

  class TaskRun {
    var plan: seq<SubTask>
    var order: seq<Id>
    var subtasks: States

    ghost predicate Valid()
      reads this
    {
      Keyed(order, subtasks)
    }

    /** One fresh state per id. */
    constructor FromPlan(plan: seq<SubTask>)
      ensures Valid() && this.plan == plan && order == FirstSeen(plan) && subtasks == LastEntries(plan)
    {
      this.plan := plan;
      var ids: seq<Id>, m: States := [], map[];
      var i := 0;
      while i < |plan|
        invariant 0 <= i <= |plan| && ids == FirstSeen(plan[..i]) && m == LastEntries(plan[..i])
      {
        assert plan[..i + 1][..i] == plan[..i];
        if plan[i].id !in ids {
          ids := ids + [plan[i].id];
        }
        m := m[plan[i].id := Fresh(plan[i])];
        i := i + 1;
      }
      assert plan[..i] == plan;
      order, subtasks := ids, m;
      RegisteredIsKeyed(plan);
    }

    method Ready() returns (out: seq<Id>)
      ensures out == ReadyIds(order, subtasks)
    {
      out := [];
      var i := 0;
      while i < |order|
        invariant 0 <= i <= |order| && out == ReadyIds(order[..i], subtasks)
      {
        ReadyIdsSnoc(order[..i], order[i], subtasks);
        assert order[..i + 1] == order[..i] + [order[i]];
        if Runnable(order[i], subtasks) {
          out := out + [order[i]];
        }
        i := i + 1;
      }
      assert order[..i] == order;
    }

    method BlockUnreachable()
      requires Valid()
      modifies this`subtasks
      ensures Valid() && subtasks == BlockPass(order, old(subtasks))
    {
      hide BlockPass, FirstBroken, Keyed;
      var i := 0;
      assert order[0..] == order;
      while i < |order|
        invariant 0 <= i <= |order| && Valid()
        invariant BlockPass(order[i..], subtasks) == BlockPass(order, old(subtasks))
      {
        var id := order[i];
        InOrder(order, subtasks, i);
        NextBlocked(order, subtasks, i);
        var blame := FirstBroken(subtasks[id].spec.dependsOn, subtasks);
        if subtasks[id].status.Pending? && blame.Some? {
          subtasks := subtasks[id := subtasks[id].(status := Blocked, error := Blame(blame.value))];
        }
        i := i + 1;
      }
      NoneBlocked(order, subtasks);
    }

    method CollectResults(id: Id) returns (out: Deps)
      requires id in subtasks
      ensures out == DependencyResults(subtasks[id].spec.dependsOn, subtasks)
    {
      out := map[];
      var deps := subtasks[id].spec.dependsOn;
      var i := 0;
      while i < |deps|
        invariant 0 <= i <= |deps| && out == DependencyResults(deps[..i], subtasks)
      {
        var d := deps[i];
        if d in subtasks && subtasks[d].result != "" {
          var text := subtasks[d].result;
          if subtasks[d].status.PassedWithCaveats? {
            text := CAVEAT + text;
          }
          out := out[d := text];
        }
        assert deps[..i + 1] == deps[..i] + [d];
        i := i + 1;
      }
      assert deps[..i] == deps;
    }

    /** Completed subtasks are restored, everything else runs again (engine.py). */
    method RestoreCheckpoints(stored: map<Id, Checkpoint>) returns (restored: nat)
      modifies this`subtasks
      ensures subtasks == RestoreAll(old(subtasks), stored)
      ensures restored == |Completed(stored.Keys, old(subtasks), stored)|
    {
      hide Completed, Restore, RestoreSome, RestoreAll;
      restored := 0;
      var rest := stored.Keys;
      NoneRestored(subtasks, stored);
      ghost var done: set<Id> := {};
      while rest != {}
        invariant rest !! done && rest + done == stored.Keys
        invariant subtasks == RestoreSome(old(subtasks), stored, done)
        invariant restored == |Completed(done, old(subtasks), stored)|
        decreases |rest|
      {
        var id :| id in rest;
        CompletedAdd(done, id, old(subtasks), stored);
        RestoreOneMore(old(subtasks), stored, done, id);
        rest, done := rest - {id}, done + {id};
        if id in subtasks {
          subtasks := subtasks[id := Restore(subtasks[id], stored[id])];
          if stored[id].status.Satisfying() {
            restored := restored + 1;
          }
        }
      }
      assert done == stored.Keys;
      AllRestored(old(subtasks), stored);
    }
  }

  /** A fresh run with restored checkpoints is one the scheduler may start from. */
  lemma RestoredIsStartable(order: seq<Id>, m: States, stored: map<Id, Checkpoint>)
    requires Keyed(order, m) && Startable(m)
    ensures Keyed(order, RestoreAll(m, stored)) && Startable(RestoreAll(m, stored))
    ensures Unended(m) ==> Unended(RestoreAll(m, stored))
    ensures forall id :: id in m && m[id].status.Pending? ==>
              (RestoreAll(m, stored)[id].status.Pending? <==> !(id in stored && stored[id].status.Satisfying()))
  {
  }

  /** `_checkpoint`: what is stored of a subtask, secrets in its result being masked. */
  function Saved(mask: string -> string, st: SubTaskState): Checkpoint {
    Checkpoint(st.status, st.attempts, mask(st.result), st.verdict)
  }

  /** `_checkpoint_all`: every subtask that has been touched. */
  function AllSaved(mask: string -> string, m: States): map<Id, Checkpoint> {
    map id | id in m && !(m[id].status.Pending? && m[id].attempts == 0) :: Saved(mask, m[id])
  }

  /** The same subtasks, before they were run. */
  ghost predicate SamePlan(start: States, m: States) {
    start.Keys == m.Keys && forall id :: id in m ==> start[id] == Fresh(m[id].spec)
  }

  /** A completed subtask comes back but for the mask, any other starts again with its attempts counted. */
  ghost predicate RestoredIs(mask: string -> string, st: SubTaskState, r: SubTaskState) {
    && r.attempts == st.attempts && r.spec == st.spec
    && if st.status.Satisfying()
       then r.status == st.status && r.result == mask(st.result) && r.verdict == st.verdict
       else r.status.Pending? && r.result == "" && r.verdict == None
  }

  lemma OneRestored(mask: string -> string, start: States, m: States, id: Id)
    requires SamePlan(start, m) && id in m
    ensures var r := RestoreAll(start, AllSaved(mask, m)); id in r && RestoredIs(mask, m[id], r[id])
  {
    assert id in start && start[id] == Fresh(m[id].spec);
  }

  /** A run that was stopped at `m`, stored and restored: exactly what was completed is complete, with its
      verdict and its result but for the mask, every subtask has its attempts, and a dependent finds its
      dependencies satisfied as before and is shown the same of them. */
  lemma CheckpointsRoundTrip(mask: string -> string, start: States, m: States, deps: seq<Id>)
    requires SamePlan(start, m)
    ensures var r := RestoreAll(start, AllSaved(mask, m));
            && r.Keys == m.Keys
            && (forall id | id in m :: RestoredIs(mask, m[id], r[id]))
            && (Satisfied(deps, r) <==> Satisfied(deps, m))
            && (Satisfied(deps, m) && (forall d | d in deps :: mask(m[d].result) == m[d].result) ==>
                  DependencyResults(deps, r) == DependencyResults(deps, m))
  {
    var r := RestoreAll(start, AllSaved(mask, m));
    forall id | id in m ensures id in r && RestoredIs(mask, m[id], r[id]) { OneRestored(mask, start, m, id); }
    hide RestoreAll, AllSaved;
    if Satisfied(deps, m) && forall d | d in deps :: mask(m[d].result) == m[d].result {
      DependencyAgree(deps, r, m);
    }
  }

  // ---- what a validated, fresh plan means

  lemma {:induction false} EntriesOfPlan(plan: seq<SubTask>)
    requires Distinct(Ids(plan))
    ensures Relations(LastEntries(plan)) == PlanRelation(plan)
    ensures forall id :: id in LastEntries(plan) ==> LastEntries(plan)[id].status.Pending?
  {
    hide FirstSeen, LastEntries, DepsIn, Ids, Distinct;
    var m := LastEntries(plan);
    forall id ensures id in m <==> id in PlanRelation(plan) { RegisteredIds(plan, id); }
    forall id | id in m ensures m[id].status.Pending? && m[id].spec.dependsOn == PlanRelation(plan)[id] {
      var i := EntryOf(plan, id);
      RelationAt(plan, i);
    }
  }

  lemma RegisteredIds(plan: seq<SubTask>, id: Id)
    requires Distinct(Ids(plan))
    ensures id in LastEntries(plan) <==> id in Ids(plan)
  {
    hide LastEntries, FirstSeen, Distinct;
    RegisteredIsKeyed(plan);
    RegisteredInOrder(plan);
    assert id in FirstSeen(plan) <==> id in LastEntries(plan);
  }

  lemma EntryOf(plan: seq<SubTask>, id: Id) returns (i: nat)
    requires Distinct(Ids(plan)) && id in LastEntries(plan)
    ensures i < |plan| && plan[i].id == id && LastEntries(plan)[id] == Fresh(plan[i])
  {
    hide LastEntries, FirstSeen, Distinct;
    RegisteredIds(plan, id);
    RegisteredInOrder(plan);
    i :| 0 <= i < |plan| && Ids(plan)[i] == id;
  }

  /** In a fresh run of a plan that validates, the blocked subtasks are exactly those that
      depend, directly or not, on a failed one. */
  lemma BlockedInValidPlan(env: Env, plan: seq<SubTask>, rank: map<Id, int>, id: Id)
    requires Distinct(Ids(plan)) && Closed(PlanRelation(plan), PlanRelation(plan).Keys)
    requires Ranks(PlanRelation(plan), PlanRelation(plan).Keys, rank) && id in LastEntries(plan)
    ensures var m := LastEntries(plan);
            var f := Evaluate(env, FirstSeen(plan), m);
            id in f && (f[id].status.Blocked? <==> exists p :: LeadsToFailure(m, f, id, p))
  {
    RegisteredIsKeyed(plan);
    EntriesOfPlan(plan);
    var m := LastEntries(plan);
    EvaluateIsOutcome(env, FirstSeen(plan), m);
    BlockedAreDescendantsOfFailed(env, m, Evaluate(env, FirstSeen(plan), m), rank, id);
  }
}
