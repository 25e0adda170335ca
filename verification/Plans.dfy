/** The data of a run: subtask specifications and their mutable execution state
    (orchestration/task.py). */
module Plans {
  import opened Collections
  import opened Wrappers

  type Id = string

  datatype Status = Pending | Running | Passed | PassedWithCaveats | Failed | Blocked {
    /** A dependent may proceed. */
    predicate Satisfying() {
      Passed? || PassedWithCaveats?
    }

    predicate Terminal() {
      Satisfying() || Failed? || Blocked?
    }

    /** A dependent can never run. */
    predicate Broken() {
      Failed? || Blocked?
    }
  }

  /** `brief` stands for the descriptive text of a subtask (title, description, criteria). */
  datatype SubTask = SubTask(id: Id, agent: string, dependsOn: seq<Id>, brief: string)

  datatype Verdict = Verdict(passed: bool, reasons: seq<string>)

  /** Time stamps are kept only as "has been set". */
  datatype SubTaskState = SubTaskState(
    spec: SubTask, status: Status, attempts: nat, result: string,
    verdict: Option<Verdict>, error: string, started: bool, ended: bool)

  type States = map<Id, SubTaskState>

  /** What an agent is shown of the subtasks it depends on. */
  type Deps = map<Id, string>

  function Fresh(spec: SubTask): SubTaskState {
    SubTaskState(spec, Pending, 0, "", None, "", false, false)
  }

  function Ids(plan: seq<SubTask>): (ids: seq<Id>)
    ensures |ids| == |plan|
    ensures forall i :: 0 <= i < |plan| ==> ids[i] == plan[i].id
  {
    if plan == [] then [] else [plan[0].id] + Ids(plan[1..])
  }

  /** `order` is the insertion order of the dictionary `m`. */
  ghost predicate Keyed(order: seq<Id>, m: States) {
    && Distinct(order)
    && (forall id :: id in order <==> id in m)
    && forall id :: id in m ==> m[id].spec.id == id
  }

  predicate Satisfied(deps: seq<Id>, m: States) {
    forall d | d in deps :: d in m && m[d].status.Satisfying()
  }

  /** A dependency that is unknown, failed or blocked. */
  predicate BrokenDep(d: Id, m: States) {
    d !in m || m[d].status.Broken()
  }

  predicate Hopeless(deps: seq<Id>, m: States) {
    exists d | d in deps :: BrokenDep(d, m)
  }

  /** Pending, with every dependency completed satisfyingly. */
  predicate Runnable(id: Id, m: States) {
    id in m && m[id].status.Pending? && Satisfied(m[id].spec.dependsOn, m)
  }

  /** Pending, with a dependency that will never be completed satisfyingly. */
  predicate Unreachable(id: Id, m: States) {
    id in m && m[id].status.Pending? && Hopeless(m[id].spec.dependsOn, m)
  }

  const CAVEAT: string :=
    "[caveat: this dependency produced output but did NOT fully pass review; verify it before relying on it]\n"

  function DependencyText(dep: SubTaskState): string {
    if dep.status.PassedWithCaveats? then CAVEAT + dep.result else dep.result
  }

  function DependencyResults(deps: seq<Id>, m: States): Deps {
    map d | d in deps && d in m && m[d].result != "" :: DependencyText(m[d])
  }

  /** The same outcome, forgetting which dependency a blocked subtask blames. */
  function Erase(st: SubTaskState): SubTaskState {
    if st.status.Blocked? then st.(error := "") else st
  }

  function Block(st: SubTaskState): SubTaskState {
    Erase(st.(status := Blocked))
  }

  // Updating an entry that nobody may read yet changes nothing for the dependents of
  // satisfied dependencies.
  lemma DependencyFrame(deps: seq<Id>, m: States, id: Id, st: SubTaskState)
    requires Satisfied(deps, m)
    requires id in m ==> !m[id].status.Satisfying()
    ensures Satisfied(deps, m[id := st])
    ensures DependencyResults(deps, m[id := st]) == DependencyResults(deps, m)
  {
    forall d | d in deps ensures d != id && d in m {
      assert d in m && m[d].status.Satisfying();
    }
  }

  lemma DependencyAgree(deps: seq<Id>, m: States, f: States)
    requires forall d :: d in deps ==> d in m && d in f && m[d].status == f[d].status && m[d].result == f[d].result
    ensures DependencyResults(deps, m) == DependencyResults(deps, f)
  {
  }
}
