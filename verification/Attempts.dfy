/** One subtask from its lease to a terminal status: the execute / verify / retry loop
    (orchestration/scheduler.py, `_attempt_loop` and `_execute_with_backoff`). */
module Attempts {
  import opened Wrappers
  import opened Text
  import opened Plans

  datatype Execution = Output(text: string) | Transient(message: string) | Crashed(message: string)

  datatype Review = Judged(verdict: Verdict) | VerifyError(message: string)

  /** The two injected callables and the retry policy.  Both callables may look at the
      whole state of the subtask they are called for; a hard budget stop is not an
      outcome here, it is an event of the scheduler. */
  datatype Env = Env(
    execute: (SubTaskState, Deps) -> Execution,
    verify: (SubTaskState, string) -> Review,
    maxRetries: int, transientRetries: int, degrade: bool)

  /** Where a subtask's coroutine is suspended. */
  datatype Phase =
    | Queued
    | Executing(deps: Deps, review: nat, tries: nat)
    | BackingOff(deps: Deps, review: nat, tries: nat)
    | Verifying(deps: Deps, review: nat, text: string)

  /** A suspended or finished coroutine. */
  datatype Progress = Suspended(st: SubTaskState, phase: Phase) | Settled(st: SubTaskState)

  predicate InLoop(env: Env, ph: Phase) {
    match ph
    case Queued => false
    case Executing(_, review, tries) => review <= env.maxRetries && tries <= env.transientRetries
    case BackingOff(_, review, tries) => review <= env.maxRetries && tries < env.transientRetries
    case Verifying(_, review, _) => review <= env.maxRetries
  }

  function Settle(st: SubTaskState, status: Status): SubTaskState {
    st.(status := status, ended := true)
  }

  function CallExecute(st: SubTaskState): SubTaskState {
    st.(attempts := st.attempts + 1)
  }

  /** The top of the retry loop: call execute, unless not even one try is configured. */
  function EnterReview(env: Env, st: SubTaskState, deps: Deps, review: nat): Progress {
    if env.transientRetries < 0 then Settled(Settle(st, Failed))
    else Suspended(CallExecute(st), Executing(deps, review, 0))
  }

  /** Retries exhausted. */
  function GiveUp(env: Env, st: SubTaskState): SubTaskState {
    if env.degrade && !IsBlank(st.result) then Settle(st, PassedWithCaveats) else Settle(st, Failed)
  }

  /** Inside the lease, up to the first suspension. */
  function Begin(env: Env, st: SubTaskState, deps: Deps): Progress {
    var running := st.(status := Running, started := true);
    if 0 <= env.maxRetries then EnterReview(env, running, deps, 0) else Settled(GiveUp(env, running))
  }

  function JudgedBy(env: Env, st: SubTaskState, text: string): Verdict {
    match env.verify(st, text)
    case Judged(v) => v
    case VerifyError(message) => Verdict(false, ["verification error: " + message])
  }

  /** From one suspension to the next.  `current` are the dependency results at this moment;
      the code re-reads them before each further review attempt. */
  function Resume(env: Env, st: SubTaskState, ph: Phase, current: Deps): Progress
    requires InLoop(env, ph)
  {
    match ph
    case Executing(deps, review, tries) =>
      (match env.execute(st, deps)
       case Output(text) => Suspended(st, Verifying(deps, review, text))
       case Transient(message) =>
         if tries >= env.transientRetries then Settled(Settle(st.(error := message), Failed))
         else Suspended(st.(error := message), BackingOff(deps, review, tries))
       case Crashed(message) => Settled(Settle(st.(error := message), Failed)))
    case BackingOff(deps, review, tries) => Suspended(CallExecute(st), Executing(deps, review, tries + 1))
    case Verifying(deps, review, text) =>
      var verdict := JudgedBy(env, st, text);
      var judged := st.(result := text, verdict := Some(verdict));
      if verdict.passed then Settled(Settle(judged, Passed))
      else if review + 1 <= env.maxRetries then EnterReview(env, judged, current, review + 1)
      else Settled(GiveUp(env, judged))
  }

  lemma ResumeStaysInLoop(env: Env, st: SubTaskState, ph: Phase, current: Deps)
    requires InLoop(env, ph)
    ensures var p := Resume(env, st, ph, current); p.Suspended? ==> InLoop(env, p.phase)
  {
  }

  lemma BeginEntersLoop(env: Env, st: SubTaskState, deps: Deps)
    ensures var p := Begin(env, st, deps); p.Suspended? ==> InLoop(env, p.phase)
  {
  }

  function Stage(env: Env, ph: Phase): nat
    requires InLoop(env, ph)
  {
    match ph
    case Executing(_, _, tries) => 2 * (env.transientRetries - tries) + 2
    case BackingOff(_, _, tries) => 2 * (env.transientRetries - tries) + 1
    case Verifying(_, _, _) => 0
  }

  /** The terminal state a suspended coroutine reaches when its dependencies stay put. */
  function Finish(env: Env, st: SubTaskState, ph: Phase): SubTaskState
    requires InLoop(env, ph)
    decreases env.maxRetries - ph.review, Stage(env, ph)
  {
    match Resume(env, st, ph, ph.deps)
    case Settled(done) => done
    case Suspended(next, phase) => Finish(env, next, phase)
  }

  /** How many more times it is resumed until it settles. */
  function StepsLeft(env: Env, st: SubTaskState, ph: Phase): (n: nat)
    requires InLoop(env, ph)
    decreases env.maxRetries - ph.review, Stage(env, ph)
  {
    match Resume(env, st, ph, ph.deps)
    case Settled(_) => 1
    case Suspended(next, phase) => 1 + StepsLeft(env, next, phase)
  }

  function Conclude(env: Env, p: Progress): SubTaskState
    requires p.Suspended? ==> InLoop(env, p.phase)
  {
    match p
    case Settled(done) => done
    case Suspended(st, phase) => Finish(env, st, phase)
  }

  function Remaining(env: Env, p: Progress): nat
    requires p.Suspended? ==> InLoop(env, p.phase)
  {
    match p
    case Settled(_) => 0
    case Suspended(st, phase) => StepsLeft(env, st, phase)
  }

  /** The outcome of one subtask as a function of its state and its dependencies' results. */
  function Attempt(env: Env, st: SubTaskState, deps: Deps): SubTaskState {
    Conclude(env, Begin(env, st, deps))
  }

  // ---- what an outcome means

  /** `a` may become `b` by running: its specification stays, its attempts grow. */
  ghost predicate Advances(a: SubTaskState, b: SubTaskState) {
    b.spec == a.spec && a.attempts <= b.attempts && (a.started ==> b.started)
  }

  /** The promises about a settled subtask: it passed only with an approving verdict on its
      own result, it is degraded only when allowed and with real output, and it ends. */
  ghost predicate Honest(env: Env, done: SubTaskState) {
    && (done.status.Passed? || done.status.PassedWithCaveats? || done.status.Failed?)
    && done.ended
    && (done.status.Passed? ==> done.verdict.Some? && done.verdict.value.passed)
    && (done.status.PassedWithCaveats? ==>
          env.degrade && !IsBlank(done.result)
          && (0 <= env.maxRetries ==> done.verdict.Some? && !done.verdict.value.passed))
  }

  lemma {:induction false} FinishIsHonest(env: Env, st: SubTaskState, ph: Phase)
    requires InLoop(env, ph)
    ensures Honest(env, Finish(env, st, ph))
    ensures Advances(st, Finish(env, st, ph))
    decreases env.maxRetries - ph.review, Stage(env, ph)
  {
    match Resume(env, st, ph, ph.deps)
    case Settled(_) =>
    case Suspended(next, phase) => FinishIsHonest(env, next, phase);
  }

  lemma AttemptIsHonest(env: Env, st: SubTaskState, deps: Deps)
    ensures Honest(env, Attempt(env, st, deps))
    ensures Advances(st, Attempt(env, st, deps)) && Attempt(env, st, deps).started
  {
    match Begin(env, st, deps)
    case Settled(_) =>
    case Suspended(next, phase) => FinishIsHonest(env, next, phase);
  }

  /** The calls of execute that are still allowed. */
  function Allowance(env: Env, ph: Phase): nat
    requires InLoop(env, ph)
  {
    var perReview: nat := if env.transientRetries < 0 then 0 else env.transientRetries + 1;
    var later: nat := (env.maxRetries - ph.review) * perReview;
    match ph
    case Executing(_, _, tries) => later + (env.transientRetries - tries)
    case BackingOff(_, _, tries) => later + (env.transientRetries - tries)
    case Verifying(_, _, _) => later
  }

  lemma {:induction false} FinishCalls(env: Env, st: SubTaskState, ph: Phase)
    requires InLoop(env, ph)
    ensures Finish(env, st, ph).attempts <= st.attempts + Allowance(env, ph)
    decreases env.maxRetries - ph.review, Stage(env, ph)
  {
    match Resume(env, st, ph, ph.deps)
    case Settled(_) =>
    case Suspended(next, phase) =>
      FinishCalls(env, next, phase);
      if ph.Verifying? {
        var n := env.transientRetries + 1;
        assert (env.maxRetries - ph.review) * n == (env.maxRetries - (ph.review + 1)) * n + n;
      }
  }

  // Transient retries do not consume review attempts, yet the number of calls is bounded.
  lemma AttemptCalls(env: Env, st: SubTaskState, deps: Deps)
    requires 0 <= env.maxRetries && 0 <= env.transientRetries
    ensures st.attempts < Attempt(env, st, deps).attempts
              <= st.attempts + (env.maxRetries + 1) * (env.transientRetries + 1)
  {
    var p := Begin(env, st, deps);
    FinishCalls(env, p.st, p.phase);
    FinishIsHonest(env, p.st, p.phase);
    var n := env.transientRetries + 1;
    assert (env.maxRetries + 1) * n == env.maxRetries * n + n;
  }

  // ---- the code's own loops

  /** `_execute_with_backoff`: at most transientRetries + 1 calls; None on hard failure. */
  method ExecuteWithBackoff(env: Env, st: SubTaskState, deps: Deps, review: nat)
    returns (result: Option<string>, st': SubTaskState)
    requires review <= env.maxRetries
    ensures match result
            case Some(text) =>
              Conclude(env, EnterReview(env, st, deps, review)) == Finish(env, st', Verifying(deps, review, text))
            case None => Conclude(env, EnterReview(env, st, deps, review)) == Settle(st', Failed)
  {
    st' := st;
    ghost var goal := Conclude(env, EnterReview(env, st, deps, review));
    var i := 0;
    while i < env.transientRetries + 1
      invariant 0 <= i
      invariant i < env.transientRetries + 1 ==>
                  goal == Finish(env, CallExecute(st'), Executing(deps, review, i))
      invariant env.transientRetries + 1 <= i ==> env.transientRetries < 0 && goal == Settle(st', Failed)
    {
      st' := CallExecute(st');
      match env.execute(st', deps) {
        case Output(text) => return Some(text), st';
        case Transient(message) =>
          st' := st'.(error := message);
          if i >= env.transientRetries {
            return None, st';
          }
          assert goal == Finish(env, st', BackingOff(deps, review, i));
        case Crashed(message) =>
          return None, st'.(error := message);
      }
      i := i + 1;
    }
    return None, st';
  }

  /** `_attempt_loop` for a subtask that already holds its lease. */
  method AttemptLoop(env: Env, running: SubTaskState, deps: Deps) returns (st: SubTaskState)
    requires running.status.Running? && running.started
    ensures st == Attempt(env, running, deps)
  {
    st := running;
    var review := 0;
    while review <= env.maxRetries
      invariant 0 <= review && (review <= env.maxRetries + 1 || env.maxRetries < 0)
      invariant Attempt(env, running, deps) ==
                if review <= env.maxRetries then Conclude(env, EnterReview(env, st, deps, review))
                else GiveUp(env, st)
      decreases env.maxRetries - review
    {
      var result;
      result, st := ExecuteWithBackoff(env, st, deps, review);
      if result.None? {
        return Settle(st, Failed);
      }
      var verdict := JudgedBy(env, st, result.value);
      st := st.(result := result.value, verdict := Some(verdict));
      if verdict.passed {
        return Settle(st, Passed);
      }
      review := review + 1;
    }
    st := GiveUp(env, st);
  }
}
