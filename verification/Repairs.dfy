/** Adaptive replanning: a run that has gone dry gets a bounded number of repair subtasks
    (engine.py, `_make_replan`). */
module Repairs {
  import opened Collections
  import opened Wrappers
  import opened Text
  import opened Plans
  import opened Attempts
  import opened Cycles
  import opened Sequential
  import opened Interleaving
  import opened Confluence

  const MAX_REPAIRS: nat := 2
  const FIX: string := "-fix"

  /** A failed subtask that is not itself a repair and has none yet. */
  predicate Eligible(m: States, id: Id) {
    id in m && m[id].status.Failed? && !EndsWith(id, FIX) && id + FIX !in m
  }

  function KnownDeps(deps: seq<Id>, m: States): (known: seq<Id>)
    ensures forall d :: d in known <==> d in deps && d in m
    ensures (forall d :: d in deps ==> d in m) ==> known == deps
  {
    if deps == [] then []
    else (if deps[0] in m then [deps[0]] else []) + KnownDeps(deps[1..], m)
  }

  function FailureText(st: SubTaskState): string {
    if st.error != "" then st.error
    else if st.verdict.Some? && st.verdict.value.reasons != [] then st.verdict.value.reasons[0]
    else "review failed"
  }

  function RepairOf(id: Id, m: States, agents: set<string>): SubTask
    requires id in m
  {
    SubTask(id + FIX, if "debugger" in agents then "debugger" else m[id].spec.agent,
            KnownDeps(m[id].spec.dependsOn, m), "Repair: " + m[id].spec.brief + FailureText(m[id]))
  }

  function Add(m: States, spec: SubTask): States {
    m[spec.id := Fresh(spec)]
  }

  function Grow(m: States, specs: seq<SubTask>): States
    decreases |specs|
  {
    if specs == [] then m else Grow(Add(m, specs[0]), specs[1..])
  }

  /** The repairs for `ids`, looked at in order while the dictionary grows. */
  function PlanRepairs(ids: seq<Id>, m: States, agents: set<string>, room: nat): (fixes: seq<SubTask>)
    ensures |fixes| <= room
  {
    if ids == [] || room == 0 then []
    else if Eligible(m, ids[0]) then
      var fix := RepairOf(ids[0], m, agents);
      [fix] + PlanRepairs(ids[1..], Add(m, fix), agents, room - 1)
    else PlanRepairs(ids[1..], m, agents, room)
  }

  function EligibleIds(ids: seq<Id>, m: States): (r: seq<Id>)
    ensures forall id :: id in r <==> id in ids && Eligible(m, id)
  {
    if ids == [] then []
    else (if Eligible(m, ids[0]) then [ids[0]] else []) + EligibleIds(ids[1..], m)
  }

  function Min(a: nat, b: nat): nat { if a <= b then a else b }

  lemma {:induction false} EligibleAfterAdd(ids: seq<Id>, m: States, id: Id, fix: SubTask)
    requires id !in ids && fix.id == id + FIX && fix.id !in m
    ensures EligibleIds(ids, Add(m, fix)) == EligibleIds(ids, m)
  {
    if ids != [] {
      EligibleAfterAdd(ids[1..], m, id, fix);
      var x := ids[0];
      assert x != id;
      assert x + FIX != id + FIX by { assert x == (x + FIX)[..|x + FIX| - 4] && id == (id + FIX)[..|id + FIX| - 4]; }
      if x == fix.id { assert EndsWith(x, FIX); }
    }
  }

  lemma DistinctTail(ids: seq<Id>)
    requires Distinct(ids) && ids != []
    ensures Distinct(ids[1..]) && ids[0] !in ids[1..]
  {
    assert ids == [ids[0]] + ids[1..];
  }

  lemma RepairIsNew(id: Id, m: States, agents: set<string>)
    requires Eligible(m, id)
    ensures id in m && RepairOf(id, m, agents).id == id + FIX && id + FIX !in m
  {
  }

  /** The repairs are those of the first eligible subtasks in plan order. */
  lemma {:induction false} RepairsTheFirstEligible(ids: seq<Id>, m: States, agents: set<string>, room: nat)
    requires Distinct(ids)
    ensures var fixes := PlanRepairs(ids, m, agents, room);
            var chosen := EligibleIds(ids, m);
            && |fixes| == Min(room, |chosen|)
            && forall i :: 0 <= i < |fixes| ==> fixes[i].id == chosen[i] + FIX
  {
    hide Eligible, RepairOf, Add, Distinct;
    if ids != [] && room > 0 {
      DistinctTail(ids);
      if Eligible(m, ids[0]) {
        RepairIsNew(ids[0], m, agents);
        var fix := RepairOf(ids[0], m, agents);
        RepairsTheFirstEligible(ids[1..], Add(m, fix), agents, room - 1);
        EligibleAfterAdd(ids[1..], m, ids[0], fix);
      } else {
        RepairsTheFirstEligible(ids[1..], m, agents, room);
      }
    }
  }

  /** Why it failed: its error; without one, the first thing its review objected to. */
  ghost predicate Tells(st: SubTaskState, reason: string) {
    && (st.error != "" ==> reason == st.error)
    && (st.error == "" && st.verdict.Some? && |st.verdict.value.reasons| > 0 ==> reason == st.verdict.value.reasons[0])
    && (st.error == "" && (st.verdict.None? || st.verdict.value.reasons == []) ==> reason == "review failed")
  }

  /** It goes to the debugger if there is one and to the agent that failed if not, and tells why that failed. */
  ghost predicate Addresses(m: States, agents: set<string>, fix: SubTask, id: Id, reason: string) {
    && id in m && m[id].status.Failed? && fix.id == id + "-fix" && !EndsWith(id, "-fix") && Tells(m[id], reason)
    && fix.agent == (if "debugger" in agents then "debugger" else m[id].spec.agent)
    && fix.brief == "Repair: " + m[id].spec.brief + reason
  }

  lemma {:induction false} RepairsAreAddressed(ids: seq<Id>, m: States, agents: set<string>, room: nat, fix: SubTask)
    requires fix in PlanRepairs(ids, m, agents, room)
    ensures exists id, reason :: id in ids && Addresses(m, agents, fix, id, reason)
  {
    hide EndsWith;
    if Eligible(m, ids[0]) {
      var own := RepairOf(ids[0], m, agents);
      if fix == own {
        OwnRepair(m, agents, ids[0]);
      } else {
        RepairsAreAddressed(ids[1..], Add(m, own), agents, room - 1, fix);
        var id, reason :| id in ids[1..] && Addresses(Add(m, own), agents, fix, id, reason);
        assert id != own.id by { FixEndsSo(ids[0]); }
        assert id in ids && Addresses(m, agents, fix, id, reason);
      }
    } else {
      RepairsAreAddressed(ids[1..], m, agents, room, fix);
      var id, reason :| id in ids[1..] && Addresses(m, agents, fix, id, reason);
      assert id in ids;
    }
  }

  lemma FixEndsSo(id: Id)
    ensures EndsWith(id + FIX, "-fix")
  {
  }

  lemma OwnRepair(m: States, agents: set<string>, id: Id)
    requires Eligible(m, id)
    ensures Addresses(m, agents, RepairOf(id, m, agents), id, FailureText(m[id]))
  {
  }

  /** The subtask a repair id belongs to. */
  function Repaired(fixId: Id): Id {
    if EndsWith(fixId, FIX) then fixId[..|fixId| - 4] else fixId
  }

  /** A new subtask with the dependencies of the failed one it repairs. */
  ghost predicate IsRepair(m: States, fix: SubTask) {
    var id := Repaired(fix.id);
    && fix.id !in m && fix.id == id + FIX && Eligible(m, id)
    && fix.dependsOn == m[id].spec.dependsOn
    && forall d :: d in fix.dependsOn ==> d in m
  }

  ghost predicate AreRepairs(m: States, fixes: seq<SubTask>) {
    && Distinct(Ids(fixes))
    && forall i :: 0 <= i < |fixes| ==> IsRepair(m, fixes[i])
  }

  /** Every failed subtask knows its dependencies: it has run. */
  ghost predicate FailuresAreGrounded(m: States) {
    forall id, d :: id in m && m[id].status.Failed? && d in m[id].spec.dependsOn ==> d in m
  }

  lemma {:induction false} RepairsAreRepairs(ids: seq<Id>, m: States, agents: set<string>, room: nat)
    requires Distinct(ids) && FailuresAreGrounded(m)
    ensures AreRepairs(m, PlanRepairs(ids, m, agents, room))
    ensures forall i :: 0 <= i < |PlanRepairs(ids, m, agents, room)| ==>
              Repaired(PlanRepairs(ids, m, agents, room)[i].id) in ids
  {
    hide Distinct, FailuresAreGrounded, Eligible, IsRepair, Add, RepairOf, Repaired, Ids;
    if ids != [] && room > 0 {
      DistinctTail(ids);
      assert forall id | id in ids[1..] :: id in ids;
      if Eligible(m, ids[0]) {
        RepairIsNew(ids[0], m, agents);
        var fix := RepairOf(ids[0], m, agents);
        var rest := PlanRepairs(ids[1..], Add(m, fix), agents, room - 1);
        FirstIsRepair(ids[0], m, agents);
        RepairsAreRepairs(ids[1..], Add(m, fix), agents, room - 1);
        forall i | 0 <= i < |rest| ensures IsRepair(m, rest[i]) && rest[i].id != fix.id {
          RepairBefore(m, fix, rest[i]);
        }
        OneMoreId(fix, rest);
      } else {
        RepairsAreRepairs(ids[1..], m, agents, room);
      }
    } else {
      NoIds();
    }
  }

  lemma FirstIsRepair(id: Id, m: States, agents: set<string>)
    requires Eligible(m, id) && FailuresAreGrounded(m)
    ensures var fix := RepairOf(id, m, agents);
            Repaired(fix.id) == id && IsRepair(m, fix) && FailuresAreGrounded(Add(m, fix))
  {
    var fix := RepairOf(id, m, agents);
    assert (id + FIX)[..|id + FIX| - 4] == id && EndsWith(fix.id, FIX);
    GroundedDeps(m[id].spec.dependsOn, m);
  }

  lemma {:induction false} GroundedDeps(deps: seq<Id>, m: States)
    requires forall d :: d in deps ==> d in m
    ensures KnownDeps(deps, m) == deps
  {
    if deps != [] {
      GroundedDeps(deps[1..], m);
      assert deps == [deps[0]] + deps[1..];
    }
  }

  /** A repair planned after another one is a repair without it. */
  lemma RepairBefore(m: States, fix: SubTask, later: SubTask)
    requires IsRepair(m, fix) && IsRepair(Add(m, fix), later) && FailuresAreGrounded(m)
    ensures IsRepair(m, later) && later.id != fix.id
  {
    var id := Repaired(later.id);
    assert EndsWith(fix.id, FIX);
    assert id != fix.id && Add(m, fix)[id] == m[id];
  }

  lemma OneMoreId(fix: SubTask, rest: seq<SubTask>)
    requires Distinct(Ids(rest)) && forall i :: 0 <= i < |rest| ==> rest[i].id != fix.id
    ensures Distinct(Ids([fix] + rest))
  {
    hide *;
    IdsCons(fix, rest);
    DistinctCons(fix.id, Ids(rest));
  }

  lemma IdsCons(fix: SubTask, rest: seq<SubTask>)
    ensures Ids([fix] + rest) == [fix.id] + Ids(rest)
    ensures forall id | id in Ids(rest) :: exists i :: 0 <= i < |rest| && rest[i].id == id
  {
    assert ([fix] + rest)[1..] == rest;
    forall id | id in Ids(rest) ensures exists i :: 0 <= i < |rest| && rest[i].id == id {
      var i :| 0 <= i < |Ids(rest)| && Ids(rest)[i] == id;
      assert rest[i].id == id;
    }
  }

  lemma DistinctCons<T>(x: T, s: seq<T>)
    requires Distinct(s) && x !in s
    ensures Distinct([x] + s)
  {
    var t := [x] + s;
    forall i, j | 0 <= i < j < |t| ensures t[i] != t[j] {
      if i > 0 {
        assert s[i - 1] != s[j - 1];
      } else {
        assert t[j] == s[j - 1];
      }
    }
  }

  lemma NoIds()
    ensures Distinct(Ids([]))
  {
  }

  /** Only the failed subtasks and the known ids matter. */
  lemma {:induction false} RepairsDependOnFailures(ids: seq<Id>, m: States, f: States, agents: set<string>, room: nat)
    requires m.Keys == f.Keys
    requires forall id :: id in m ==> (m[id].status.Failed? <==> f[id].status.Failed?)
    requires forall id :: id in m && m[id].status.Failed? ==> m[id] == f[id]
    ensures PlanRepairs(ids, m, agents, room) == PlanRepairs(ids, f, agents, room)
  {
    if ids != [] && room > 0 {
      if Eligible(m, ids[0]) {
        SameKnownDeps(m[ids[0]].spec.dependsOn, m, f);
        var fix := RepairOf(ids[0], m, agents);
        assert fix == RepairOf(ids[0], f, agents);
        RepairsDependOnFailures(ids[1..], Add(m, fix), Add(f, fix), agents, room - 1);
      } else {
        RepairsDependOnFailures(ids[1..], m, f, agents, room);
      }
    }
  }

  lemma {:induction false} SameKnownDeps(deps: seq<Id>, m: States, f: States)
    requires m.Keys == f.Keys
    ensures KnownDeps(deps, m) == KnownDeps(deps, f)
  {
    if deps != [] {
      SameKnownDeps(deps[1..], m, f);
    }
  }

  ghost predicate AreNew(m: States, specs: seq<SubTask>) {
    Distinct(Ids(specs)) && forall i :: 0 <= i < |specs| ==> specs[i].id !in m
  }

  lemma NewTail(m: States, specs: seq<SubTask>)
    requires AreNew(m, specs) && specs != []
    ensures AreNew(Add(m, specs[0]), specs[1..])
  {
    var rest := specs[1..];
    forall i, j | 0 <= i < j < |rest| ensures Ids(rest)[i] != Ids(rest)[j] {
      assert Ids(specs)[i + 1] != Ids(specs)[j + 1];
    }
    forall i | 0 <= i < |rest| ensures rest[i].id !in Add(m, specs[0]) {
      assert rest[i] == specs[i + 1];
      assert Ids(specs)[0] != Ids(specs)[i + 1];
    }
  }

  lemma {:induction false} GrowHas(m: States, specs: seq<SubTask>)
    requires AreNew(m, specs)
    ensures forall x :: x in Grow(m, specs) <==> x in m || x in Ids(specs)
    ensures forall x :: x in m ==> Grow(m, specs)[x] == m[x]
    ensures forall i :: 0 <= i < |specs| ==> specs[i].id in Ids(specs) && Grow(m, specs)[specs[i].id] == Fresh(specs[i])
    decreases |specs|
  {
    forall i | 0 <= i < |specs| ensures specs[i].id in Ids(specs) { assert Ids(specs)[i] == specs[i].id; }
    if specs != [] {
      NewTail(m, specs);
      GrowHas(Add(m, specs[0]), specs[1..]);
      forall i | 0 <= i < |specs| ensures Grow(m, specs)[specs[i].id] == Fresh(specs[i]) {
        if i > 0 { assert specs[i] == specs[1..][i - 1]; }
      }
    }
  }

  lemma NewIsKeyed(order: seq<Id>, m: States, fixes: seq<SubTask>)
    requires Keyed(order, m) && AreNew(m, fixes)
    ensures Keyed(order + Ids(fixes), Grow(m, fixes))
  {
    GrowHas(m, fixes);
    var order' := order + Ids(fixes);
    var m' := Grow(m, fixes);
    forall i, j | 0 <= i < j < |order'| ensures order'[i] != order'[j] {
      if i < |order| <= j {
        assert fixes[j - |order|].id !in m && order[i] in m;
      } else if |order| <= i {
        assert Ids(fixes)[i - |order|] != Ids(fixes)[j - |order|];
      }
    }
    forall id | id in m' ensures m'[id].spec.id == id {
      if id !in m {
        var i :| 0 <= i < |fixes| && Ids(fixes)[i] == id;
        assert m'[fixes[i].id] == Fresh(fixes[i]);
      }
    }
  }

  // ---- the whole run

  /** The sequential meaning of a run with replanning: evaluate, repair, evaluate again. */
  function Whole(env: Env, agents: set<string>, order: seq<Id>, m: States, room: nat): (seq<Id>, States)
    decreases room
  {
    var f := Evaluate(env, order, m);
    var fixes := PlanRepairs(order, f, agents, room);
    if fixes == [] then (order, f)
    else Whole(env, agents, order + Ids(fixes), Grow(f, fixes), room - |fixes|)
  }

  /** Where the engine starts a run: everything pending, or restored as completed. */
  ghost predicate Startable(m: States) {
    forall id :: id in m ==> m[id].status.Pending? || m[id].status.Satisfying()
  }

  /** ... and nothing with an end time, which checkpoints do not restore. */
  ghost predicate Unended(m: States) {
    forall id :: id in m ==> !m[id].ended
  }

  lemma OutcomeOfStart(env: Env, m: States, f: States)
    requires Startable(m) && IsOutcome(env, m, f)
    ensures AtRest(m) && FailuresAreGrounded(f)
    ensures forall id :: id in f && f[id].status.Failed? ==> Satisfied(f[id].spec.dependsOn, f)
    ensures forall id :: id in f ==> f[id].status.Terminal() && Erase(f[id]) == f[id]
  {
    OutcomeIsTerminal(env, m, f);
    forall id | id in f && f[id].status.Failed? ensures Satisfied(f[id].spec.dependsOn, f) {
      assert m[id].status.Pending?;
    }
    forall id, d | id in f && f[id].status.Failed? && d in f[id].spec.dependsOn ensures d in f {
      assert Satisfied(f[id].spec.dependsOn, f);
    }
  }

  /** `g` is `f` with fresh entries added. */
  ghost predicate Extends(f: States, g: States) {
    forall id :: id in f ==> id in g && g[id] == f[id]
  }

  lemma RepairRuns(env: Env, f: States, g: States, f': States, fix: SubTask)
    requires IsOutcome(env, g, f') && Extends(f, g) && fix.id in g && g[fix.id] == Fresh(fix)
    requires Satisfied(fix.dependsOn, f)
    ensures Runnable(fix.id, g)
    ensures f'[fix.id] == Attempt(env, Fresh(fix), DependencyResults(fix.dependsOn, f))
    ensures !f'[fix.id].status.Blocked?
  {
    forall d | d in fix.dependsOn ensures d in f && f[d] == g[d] && f'[d] == f[d] && f[d].status.Satisfying() {
      assert d in f && f[d].status.Satisfying();
    }
    DependencyAgree(fix.dependsOn, f, f');
    AttemptIsHonest(env, Fresh(fix), DependencyResults(fix.dependsOn, f));
  }

  lemma OldOutcomesStay(env: Env, f: States, g: States, f': States)
    requires IsOutcome(env, g, f') && Extends(f, g)
    requires forall id :: id in f ==> f[id].status.Terminal()
    ensures Extends(f, f')
  {
    forall id | id in f ensures id in f' && f'[id] == f[id] { assert g[id] == f[id]; }
  }

  lemma RepairsAreNew(m: States, fixes: seq<SubTask>)
    requires AreRepairs(m, fixes)
    ensures AreNew(m, fixes)
  {
    forall i | 0 <= i < |fixes| ensures fixes[i].id !in m { assert IsRepair(m, fixes[i]); }
  }

  /** The outcome of a repair round, entry by entry: nothing old changes and every repair
      runs at once, on the dependencies the failed subtask had. */
  lemma RepairRound(env: Env, m: States, f: States, fixes: seq<SubTask>, f': States)
    requires Startable(m) && IsOutcome(env, m, f) && AreRepairs(f, fixes)
    requires IsOutcome(env, Grow(f, fixes), f')
    ensures forall x :: x in f' <==> x in f || x in Ids(fixes)
    ensures Extends(f, f')
    ensures forall i :: 0 <= i < |fixes| ==>
              && fixes[i].id in f'
              && Runnable(fixes[i].id, Grow(f, fixes))
              && f'[fixes[i].id] == Attempt(env, Fresh(fixes[i]), DependencyResults(fixes[i].dependsOn, f))
              && !f'[fixes[i].id].status.Blocked?
  {
    RepairsAreNew(f, fixes);
    GrowHas(f, fixes);
    var g := Grow(f, fixes);
    assert Extends(f, g);
    assert f'.Keys == g.Keys;
    assert (forall id :: id in f ==> f[id].status.Terminal())
        && (forall id :: id in f && f[id].status.Failed? ==> Satisfied(f[id].spec.dependsOn, f)) by {
      OutcomeOfStart(env, m, f);
    }
    OldOutcomesStay(env, f, g, f');
    forall i | 0 <= i < |fixes|
      ensures fixes[i].id in f'
      ensures Runnable(fixes[i].id, g)
      ensures f'[fixes[i].id] == Attempt(env, Fresh(fixes[i]), DependencyResults(fixes[i].dependsOn, f))
      ensures !f'[fixes[i].id].status.Blocked?
    {
      assert IsRepair(f, fixes[i]);
      RepairRuns(env, f, g, f', fixes[i]);
    }
  }

  lemma NotEligibleAgain(f: States, f': States, fixes: seq<SubTask>, order: seq<Id>, id: Id)
    requires Extends(f, f') && AreRepairs(f, fixes)
    requires forall x :: x in f' <==> x in f || x in Ids(fixes)
    requires forall x :: x in f && Eligible(f, x) ==> x + FIX in Ids(fixes)
    ensures !Eligible(f', id)
  {
    if id in f {
    } else if id in f' {
      var i :| 0 <= i < |fixes| && Ids(fixes)[i] == id;
      assert IsRepair(f, fixes[i]);
      assert EndsWith(id, FIX);
    }
  }

  lemma {:induction false} NoneEligible(ids: seq<Id>, m: States, agents: set<string>, room: nat)
    requires forall id :: !Eligible(m, id)
    ensures PlanRepairs(ids, m, agents, room) == []
  {
    if ids != [] && room > 0 {
      NoneEligible(ids[1..], m, agents, room);
    }
  }

  lemma EligibleGetsRepaired(f: States, order: seq<Id>, agents: set<string>, room: nat, fixes: seq<SubTask>, id: Id)
    requires Distinct(order) && fixes == PlanRepairs(order, f, agents, room) && |fixes| < room
    requires id in order && Eligible(f, id)
    ensures id + FIX in Ids(fixes)
  {
    RepairsTheFirstEligible(order, f, agents, room);
    var chosen := EligibleIds(order, f);
    assert id in chosen;
    var i :| 0 <= i < |chosen| && chosen[i] == id;
    assert Ids(fixes)[i] == id + FIX;
  }

  /** A repair is never repaired, and one round serves every failed subtask it has room for. */
  lemma NoSecondRound(f: States, order: seq<Id>, agents: set<string>, room: nat, fixes: seq<SubTask>, f': States)
    requires Keyed(order, f) && fixes == PlanRepairs(order, f, agents, room) && AreRepairs(f, fixes)
    requires Extends(f, f') && forall x :: x in f' <==> x in f || x in Ids(fixes)
    ensures PlanRepairs(order + Ids(fixes), f', agents, room - |fixes|) == []
  {
    if |fixes| < room {
      forall x | x in f && Eligible(f, x) ensures x + FIX in Ids(fixes) {
        EligibleGetsRepaired(f, order, agents, room, fixes, x);
      }
      forall id ensures !Eligible(f', id) {
        NotEligibleAgain(f, f', fixes, order, id);
      }
      NoneEligible(order + Ids(fixes), f', agents, room - |fixes|);
    }
  }

  lemma GrownIsAtRest(f: States, order: seq<Id>, fixes: seq<SubTask>)
    requires Keyed(order, f) && AtRest(f) && AreRepairs(f, fixes)
    ensures AtRest(Grow(f, fixes)) && Keyed(order + Ids(fixes), Grow(f, fixes))
  {
    RepairsAreNew(f, fixes);
    GrowHas(f, fixes);
    NewIsKeyed(order, f, fixes);
    var g := Grow(f, fixes);
    forall id | id in g ensures !g[id].status.Running? && Erase(g[id]) == g[id] {
      if id in f {
        assert g[id] == f[id];
      } else {
        var i :| 0 <= i < |fixes| && Ids(fixes)[i] == id;
        assert g[fixes[i].id] == Fresh(fixes[i]);
      }
    }
  }

  lemma OutcomeIsKeyed(env: Env, order: seq<Id>, m: States, f: States)
    requires Keyed(order, m) && AtRest(m) && IsOutcome(env, m, f)
    ensures Keyed(order, f) && AtRest(f)
  {
    OutcomeIsTerminal(env, m, f);
  }

  lemma RoundIsLast(env: Env, agents: set<string>, order: seq<Id>, m: States, room: nat,
                    f: States, fixes: seq<SubTask>, f': States)
    requires Startable(m) && Keyed(order, m) && f == Evaluate(env, order, m)
    requires fixes == PlanRepairs(order, f, agents, room) && f' == Evaluate(env, order + Ids(fixes), Grow(f, fixes))
    ensures PlanRepairs(order + Ids(fixes), f', agents, room - |fixes|) == []
  {
    hide IsOutcome, AreRepairs, FailuresAreGrounded, Evaluate, Grow;
    EvaluateIsOutcome(env, order, m);
    OutcomeOfStart(env, m, f);
    OutcomeIsKeyed(env, order, m, f);
    RepairsAreRepairs(order, f, agents, room);
    GrownIsAtRest(f, order, fixes);
    EvaluateIsOutcome(env, order + Ids(fixes), Grow(f, fixes));
    RepairRound(env, m, f, fixes, f');
    NoSecondRound(f, order, agents, room, fixes, f');
  }

  /** The whole run unrolled: replanning happens at most once. */
  lemma WholeIsOneRound(env: Env, agents: set<string>, order: seq<Id>, m: States, room: nat)
    requires Startable(m) && Keyed(order, m)
    ensures var f := Evaluate(env, order, m);
            var fixes := PlanRepairs(order, f, agents, room);
            Whole(env, agents, order, m, room) ==
            if fixes == [] then (order, f)
            else (order + Ids(fixes), Evaluate(env, order + Ids(fixes), Grow(f, fixes)))
  {
    var f := Evaluate(env, order, m);
    var fixes := PlanRepairs(order, f, agents, room);
    if fixes != [] {
      RoundIsLast(env, agents, order, m, room, f, fixes, Evaluate(env, order + Ids(fixes), Grow(f, fixes)));
    }
  }

  /** The grown plan has no cycle either: a ranking of the plan extends to the repairs. */
  lemma GrownPlanIsRanked(m: States, fixes: seq<SubTask>, rank: map<Id, int>) returns (rank': map<Id, int>)
    requires AreRepairs(m, fixes)
    requires Closed(Relations(m), m.Keys) && Ranks(Relations(m), m.Keys, rank)
    ensures Closed(Relations(Grow(m, fixes)), Grow(m, fixes).Keys)
    ensures Ranks(Relations(Grow(m, fixes)), Grow(m, fixes).Keys, rank')
  {
    forall i | 0 <= i < |fixes| ensures fixes[i].id !in m { assert IsRepair(m, fixes[i]); }
    GrowHas(m, fixes);
    var g := Grow(m, fixes);
    rank' := map id | id in g ::
      if id in m then rank[id] else if Repaired(id) in rank then rank[Repaired(id)] else 0;
    forall x, y | x in g && Edge(Relations(g), x, y) ensures y in m && rank'[y] < rank'[x] {
      if x in m {
        assert Edge(Relations(m), x, y);
      } else {
        var i :| 0 <= i < |fixes| && Ids(fixes)[i] == x;
        assert g[fixes[i].id] == Fresh(fixes[i]) && IsRepair(m, fixes[i]);
        assert Edge(Relations(m), Repaired(x), y);
      }
    }
  }

  // ---- replanning inside a concurrent run

  ghost predicate NothingDangles(s: Sys) {
    forall id, d :: id in s.subtasks && s.subtasks[id].status.Pending? && d in s.subtasks[id].spec.dependsOn ==>
      d in s.subtasks
  }

  function Replanned(s: Sys, agents: set<string>, room: nat): Sys {
    var fixes := PlanRepairs(s.order, s.subtasks, agents, room);
    s.(order := s.order + Ids(fixes), subtasks := Grow(s.subtasks, fixes))
  }

  /** Replanning a dry run keeps the invariant, now towards the outcome of the grown plan. */
  lemma ReplanKeeps(env: Env, base: States, f: States, s: Sys, agents: set<string>, room: nat)
    requires Inv(env, base, f, s) && Dry(s) && NothingDangles(s) && f == Evaluate(env, s.order, base)
    requires FailuresAreGrounded(f)
    ensures var fixes := PlanRepairs(s.order, f, agents, room);
            var s' := Replanned(s, agents, room);
            && fixes == PlanRepairs(s.order, s.subtasks, agents, room)
            && s'.order == s.order + Ids(fixes)
            && Inv(env, Grow(f, fixes), Evaluate(env, s'.order, Grow(f, fixes)), s')
  {
    DryPending(env, base, s);
    forall id | id in s.subtasks
      ensures s.subtasks[id].status.Failed? <==> f[id].status.Failed?
      ensures s.subtasks[id].status.Failed? ==> s.subtasks[id] == f[id]
    {
      var st := s.subtasks[id];
      assert st.status.Pending? || st.status.Terminal();
    }
    RepairsDependOnFailures(s.order, s.subtasks, f, agents, room);
    var fixes := PlanRepairs(s.order, f, agents, room);
    OutcomeIsTerminal(env, base, f);
    RepairsAreRepairs(s.order, f, agents, room);
    OutcomeIsKeyed(env, s.order, base, f);
    GrownIsAtRest(f, s.order, fixes);
    EvaluateIsOutcome(env, s.order + Ids(fixes), Grow(f, fixes));
    RepairsAreNew(f, fixes);
    GrownFollows(env, base, f, s, fixes, Evaluate(env, s.order + Ids(fixes), Grow(f, fixes)));
  }

  /** The dictionary and the outcome it runs towards, after adding the repairs. */
  ghost predicate Grown(s: Sys, s': Sys, f: States, g: States, fixes: seq<SubTask>) {
    && Shape(s') && g.Keys == s'.subtasks.Keys
    && s'.flight == s.flight && s'.dispatched == s.dispatched
    && Extends(f, g) && Extends(s.subtasks, s'.subtasks)
    && forall id :: id in s'.subtasks && id !in s.subtasks ==>
         s'.subtasks[id] == g[id] && g[id].status.Pending? && id !in s.dispatched
  }

  lemma GrownShape(s: Sys, f: States, fixes: seq<SubTask>)
    requires Shape(s) && f.Keys == s.subtasks.Keys && AreNew(f, fixes)
    ensures Grown(s, s.(order := s.order + Ids(fixes), subtasks := Grow(s.subtasks, fixes)), f, Grow(f, fixes), fixes)
  {
    assert AreNew(s.subtasks, fixes);
    GrowHas(f, fixes);
    GrowHas(s.subtasks, fixes);
    NewIsKeyed(s.order, s.subtasks, fixes);
    var m' := Grow(s.subtasks, fixes);
    assert Grow(f, fixes).Keys == m'.Keys;
    forall id | id in m' && id !in s.subtasks ensures m'[id] == Grow(f, fixes)[id] && m'[id].status.Pending? {
      var i :| 0 <= i < |fixes| && Ids(fixes)[i] == id;
      assert m'[fixes[i].id] == Fresh(fixes[i]) == Grow(f, fixes)[fixes[i].id];
    }
  }

  lemma GrownFollows(env: Env, base: States, f: States, s: Sys, fixes: seq<SubTask>, f': States)
    requires Inv(env, base, f, s) && Dry(s) && NothingDangles(s) && f == Evaluate(env, s.order, base)
    requires AreNew(f, fixes) && AtRest(Grow(f, fixes)) && IsOutcome(env, Grow(f, fixes), f')
    ensures Inv(env, Grow(f, fixes), f', s.(order := s.order + Ids(fixes), subtasks := Grow(s.subtasks, fixes)))
  {
    var s' := s.(order := s.order + Ids(fixes), subtasks := Grow(s.subtasks, fixes));
    var g := Grow(f, fixes);
    GrownShape(s, f, fixes);
    DryPending(env, base, s);
    OutcomeIsTerminal(env, base, f);
    OldOutcomesStay(env, f, g, f');
    forall id | id in s'.subtasks ensures Follows(env, g, f', s', id) {
      if id in s.subtasks {
        assert Follows(env, base, f, s, id);
        OldFollows(env, base, f, s, s', g, f', id);
      }
    }
  }

  /** A settled entry stays settled; one that is still pending is now known to be blocked. */
  /** What is pending in a dry run waits for something that has failed or will be blocked. */
  lemma BrokenIn(base: States, f: States, s: Sys, id: Id) returns (d: Id)
    requires Shape(s) && s.subtasks.Keys == f.Keys && Dry(s) && NothingDangles(s)
    requires id in s.subtasks && s.subtasks[id].status.Pending? && id !in s.dispatched
    requires forall x :: x in f ==> f[x].status.Terminal()
    requires forall x :: x in s.subtasks && s.subtasks[x].status.Pending? ==> f[x] == Block(s.subtasks[x])
    requires forall x :: x in s.subtasks ==> s.subtasks[x].status.Pending? || f[x] == Erase(s.subtasks[x])
    ensures d in s.subtasks[id].spec.dependsOn && d in f && f[d].status.Broken()
  {
    assert !CanDispatch(s, id);
    var deps := s.subtasks[id].spec.dependsOn;
    d :| d in deps && !(d in s.subtasks && s.subtasks[d].status.Satisfying());
    assert d in s.subtasks;
  }

  lemma OldFollows(env: Env, base: States, f: States, s: Sys, s': Sys, g: States, f': States, id: Id)
    requires Shape(s) && base.Keys == s.subtasks.Keys == f.Keys && Dry(s) && NothingDangles(s)
    requires id in s.subtasks && Follows(env, base, f, s, id)
    requires Extends(f, g) && Extends(f, f') && Extends(s.subtasks, s'.subtasks)
    requires s'.flight == s.flight && s'.dispatched == s.dispatched
    requires forall x :: x in f ==> f[x].status.Terminal() && f[x].spec == base[x].spec
    requires forall x :: x in s.subtasks && s.subtasks[x].status.Pending? ==> f[x] == Block(s.subtasks[x])
    requires forall x :: x in s.subtasks ==> s.subtasks[x].status.Pending? || f[x] == Erase(s.subtasks[x])
    ensures Follows(env, g, f', s', id)
  {
    hide Finish, InLoop, DependencyResults, NothingDangles;
    var st := s.subtasks[id];
    if st.status.Pending? {
      var d := BrokenIn(base, f, s, id);
      assert Stale(g, f', st);
    } else {
      assert g[id] == f[id] == f'[id];
      assert !g[id].status.Pending?;
    }
  }
}
