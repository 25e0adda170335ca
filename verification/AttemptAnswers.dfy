/** What the answers of execute and verify make of a subtask, review by review and try by try
    (orchestration/scheduler.py, `_attempt_loop` and `_execute_with_backoff`). */
module AttemptAnswers {
  import opened Wrappers
  import opened Text
  import opened Plans
  import opened Attempts

  // ---- the answers, in order

  /** The subtask as execute is given it after `n` transient errors in a row. */
  function InTry(env: Env, st: SubTaskState, deps: Deps, n: nat): SubTaskState {
    if n == 0 then st.(attempts := st.attempts + 1)
    else
      var before := InTry(env, st, deps, n - 1);
      match env.execute(before, deps)
      case Transient(message) => before.(error := message, attempts := before.attempts + 1)
      case _ => before
  }

  ghost predicate OnlyTransient(env: Env, st: SubTaskState, deps: Deps, n: nat) {
    forall i: nat | i < n :: env.execute(InTry(env, st, deps, i), deps).Transient?
  }

  /** There is an output, after `n` transient errors: no more than are retried, and no crash. */
  ghost predicate Outputs(env: Env, st: SubTaskState, deps: Deps, n: nat, text: string) {
    && n <= env.transientRetries && OnlyTransient(env, st, deps, n)
    && env.execute(InTry(env, st, deps, n), deps) == Output(text)
  }

  /** There is none: a crash, or one transient error too many. */
  ghost predicate Breaks(env: Env, st: SubTaskState, deps: Deps, n: nat, message: string) {
    && n <= env.transientRetries && OnlyTransient(env, st, deps, n)
    && var answer := env.execute(InTry(env, st, deps, n), deps);
       answer == Crashed(message) || (answer == Transient(message) && n == env.transientRetries)
  }

  /** An error of verify is a refusal. */
  ghost predicate Judges(env: Env, st: SubTaskState, text: string, v: Verdict) {
    match env.verify(st, text)
    case Judged(w) => v == w
    case VerifyError(message) => v == Verdict(false, ["verification error: " + message])
  }

  ghost predicate Reviewed(env: Env, st: SubTaskState, deps: Deps, n: nat, text: string, v: Verdict) {
    Outputs(env, st, deps, n, text) && Judges(env, InTry(env, st, deps, n), text, v)
  }

  ghost predicate Refused(env: Env, st: SubTaskState, deps: Deps, next: SubTaskState) {
    exists n, text, v :: Reviewed(env, st, deps, n, text, v) && !v.passed
                         && next == InTry(env, st, deps, n).(result := text, verdict := Some(v))
  }

  /** `a` is the subtask before this review, all earlier ones having refused. */
  ghost predicate Reached(env: Env, start: SubTaskState, deps: Deps, review: nat, a: SubTaskState) {
    if review == 0 then a == start
    else exists before :: Reached(env, start, deps, review - 1, before) && Refused(env, before, deps, a)
  }

  function Reviews(env: Env): nat {
    if env.maxRetries < 0 then 0 else env.maxRetries + 1
  }

  /** A review that is reached approves this output. */
  ghost predicate Approved(env: Env, start: SubTaskState, deps: Deps, review: nat, a: SubTaskState, n: nat,
                           text: string, v: Verdict) {
    && review < Reviews(env) && Reached(env, start, deps, review, a) && Reviewed(env, a, deps, n, text, v)
    && v.passed
  }

  ghost predicate IsApproved(env: Env, start: SubTaskState, deps: Deps) {
    exists review, a, n, text, v :: Approved(env, start, deps, review, a, n, text, v)
  }

  /** A review that is reached gets no output. */
  ghost predicate Broken(env: Env, start: SubTaskState, deps: Deps, review: nat, a: SubTaskState, n: nat,
                         message: string) {
    review < Reviews(env) && Reached(env, start, deps, review, a) && Breaks(env, a, deps, n, message)
  }

  ghost predicate IsBroken(env: Env, start: SubTaskState, deps: Deps) {
    exists review, a, n, message :: Broken(env, start, deps, review, a, n, message)
  }

  /** Not even one try is configured. */
  predicate NeverTried(env: Env) {
    env.maxRetries >= 0 && env.transientRetries < 0
  }

  function Started(st: SubTaskState): SubTaskState {
    st.(status := Running, started := true)
  }

  // ---- one review

  lemma {:induction false} TriesPass(env: Env, st: SubTaskState, deps: Deps, review: nat, n: nat)
    requires review <= env.maxRetries && n <= env.transientRetries && OnlyTransient(env, st, deps, n)
    ensures Conclude(env, EnterReview(env, st, deps, review))
            == Finish(env, InTry(env, st, deps, n), Executing(deps, review, n))
  {
    if n > 0 {
      TriesPass(env, st, deps, review, n - 1);
      var before := InTry(env, st, deps, n - 1);
      var message := env.execute(before, deps).message;
      var failed := before.(error := message);
      assert Finish(env, before, Executing(deps, review, n - 1))
          == Finish(env, failed, BackingOff(deps, review, n - 1));
    }
  }

  /** Sooner or later there is an output, or there is none. */
  lemma {:induction false} TriesEnd(env: Env, st: SubTaskState, deps: Deps, n: nat)
    requires n <= env.transientRetries && OnlyTransient(env, st, deps, n)
    ensures || (exists m, text :: Outputs(env, st, deps, m, text))
            || exists m, message :: Breaks(env, st, deps, m, message)
    decreases env.transientRetries - n
  {
    match env.execute(InTry(env, st, deps, n), deps)
    case Output(text) => assert Outputs(env, st, deps, n, text);
    case Crashed(message) => assert Breaks(env, st, deps, n, message);
    case Transient(message) =>
      if n < env.transientRetries {
        TriesEnd(env, st, deps, n + 1);
      } else {
        assert Breaks(env, st, deps, n, message);
      }
  }

  lemma ReviewConcludes(env: Env, st: SubTaskState, deps: Deps, review: nat, n: nat, text: string, v: Verdict)
    requires review <= env.maxRetries && Reviewed(env, st, deps, n, text, v)
    ensures var judged := InTry(env, st, deps, n).(result := text, verdict := Some(v));
            Conclude(env, EnterReview(env, st, deps, review))
            == if v.passed then judged.(status := Passed, ended := true)
               else if review < env.maxRetries then Conclude(env, EnterReview(env, judged, deps, review + 1))
               else GiveUp(env, judged)
  {
    hide OnlyTransient, InTry;
    TriesPass(env, st, deps, review, n);
    var tried := InTry(env, st, deps, n);
    assert Finish(env, tried, Executing(deps, review, n)) == Finish(env, tried, Verifying(deps, review, text));
    assert JudgedBy(env, tried, text) == v;
  }

  lemma BreakConcludes(env: Env, st: SubTaskState, deps: Deps, review: nat, n: nat, message: string)
    requires review <= env.maxRetries && Breaks(env, st, deps, n, message)
    ensures Conclude(env, EnterReview(env, st, deps, review))
            == InTry(env, st, deps, n).(error := message, status := Failed, ended := true)
  {
    hide OnlyTransient, InTry;
    TriesPass(env, st, deps, review, n);
  }

  // ---- all reviews

  lemma {:induction false} ReachedConcludes(env: Env, st: SubTaskState, deps: Deps, review: nat, a: SubTaskState)
    requires review <= Reviews(env) && Reached(env, Started(st), deps, review, a)
    ensures Attempt(env, st, deps)
            == if review < Reviews(env) then Conclude(env, EnterReview(env, a, deps, review)) else GiveUp(env, a)
  {
    hide Conclude, EnterReview, GiveUp, Refused;
    if review == 0 {
      StartConcludes(env, st, deps);
    } else {
      var before :| Reached(env, Started(st), deps, review - 1, before) && Refused(env, before, deps, a);
      ReachedConcludes(env, st, deps, review - 1, before);
      RefusalConcludes(env, before, deps, review - 1, a);
    }
  }

  lemma StartConcludes(env: Env, st: SubTaskState, deps: Deps)
    ensures Attempt(env, st, deps)
            == if 0 < Reviews(env) then Conclude(env, EnterReview(env, Started(st), deps, 0))
               else GiveUp(env, Started(st))
  {
    hide EnterReview, GiveUp;
  }

  lemma RefusalConcludes(env: Env, st: SubTaskState, deps: Deps, review: nat, next: SubTaskState)
    requires review <= env.maxRetries && Refused(env, st, deps, next)
    ensures Conclude(env, EnterReview(env, st, deps, review))
            == if review < env.maxRetries then Conclude(env, EnterReview(env, next, deps, review + 1))
               else GiveUp(env, next)
  {
    hide Conclude, EnterReview, GiveUp, Reviewed, InTry;
    var n, text, v :| Reviewed(env, st, deps, n, text, v) && !v.passed
                      && next == InTry(env, st, deps, n).(result := text, verdict := Some(v));
    ReviewConcludes(env, st, deps, review, n, text, v);
  }

  /** One way or the other it ends. */
  lemma {:induction false} SomeEnd(env: Env, start: SubTaskState, deps: Deps, review: nat, a: SubTaskState)
    requires review <= Reviews(env) && Reached(env, start, deps, review, a)
    ensures || IsApproved(env, start, deps) || IsBroken(env, start, deps) || NeverTried(env)
            || exists last :: Reached(env, start, deps, Reviews(env), last)
    decreases Reviews(env) - review
  {
    hide Outputs, Breaks, InTry;
    if review < Reviews(env) && !NeverTried(env) {
      NoTriesYet(env, a, deps);
      TriesEnd(env, a, deps, 0);
      if n, text :| Outputs(env, a, deps, n, text) {
        var v := JudgedBy(env, InTry(env, a, deps, n), text);
        assert Reviewed(env, a, deps, n, text, v);
        if v.passed {
          assert Approved(env, start, deps, review, a, n, text, v);
        } else {
          var next := InTry(env, a, deps, n).(result := text, verdict := Some(v));
          assert Refused(env, a, deps, next);
          assert Reached(env, start, deps, review + 1, next);
          SomeEnd(env, start, deps, review + 1, next);
        }
      } else {
        var n, message :| Breaks(env, a, deps, n, message);
        assert Broken(env, start, deps, review, a, n, message);
      }
    }
  }

  lemma NoTriesYet(env: Env, st: SubTaskState, deps: Deps)
    ensures OnlyTransient(env, st, deps, 0)
  {
  }

  /** The ways an attempt may end, each with what it leaves. */
  lemma ApprovedPasses(env: Env, st: SubTaskState, deps: Deps, review: nat, a: SubTaskState, n: nat, text: string,
                       v: Verdict)
    requires Approved(env, Started(st), deps, review, a, n, text, v)
    ensures var done := Attempt(env, st, deps);
            && done.status.Passed? && done.result == text && done.verdict == Some(v)
            && done == InTry(env, a, deps, n).(result := text, verdict := Some(v), status := Passed, ended := true)
  {
    hide Conclude, EnterReview, GiveUp, Reviewed, InTry, Reached, Attempt;
    ReachedConcludes(env, st, deps, review, a);
    ReviewConcludes(env, a, deps, review, n, text, v);
  }

  lemma BrokenFails(env: Env, st: SubTaskState, deps: Deps, review: nat, a: SubTaskState, n: nat, message: string)
    requires Broken(env, Started(st), deps, review, a, n, message)
    ensures Attempt(env, st, deps) == InTry(env, a, deps, n).(error := message, status := Failed, ended := true)
  {
    hide Conclude, EnterReview, GiveUp, Breaks, InTry, Reached, Attempt;
    ReachedConcludes(env, st, deps, review, a);
    BreakConcludes(env, a, deps, review, n, message);
  }

  lemma RefusedEnds(env: Env, st: SubTaskState, deps: Deps, last: SubTaskState)
    requires Reached(env, Started(st), deps, Reviews(env), last)
    ensures Attempt(env, st, deps)
            == last.(status := if env.degrade && !IsBlank(last.result) then PassedWithCaveats else Failed,
                     ended := true)
  {
    hide Conclude, EnterReview, InTry, Reached, Attempt;
    ReachedConcludes(env, st, deps, Reviews(env), last);
  }

  lemma NeverTriedFails(env: Env, st: SubTaskState, deps: Deps)
    requires NeverTried(env)
    ensures Attempt(env, st, deps) == Started(st).(status := Failed, ended := true)
  {
  }

  /** A subtask passes exactly when a review approves an output, which it then has with that verdict;
      it is degraded exactly when every review refuses, degrading is allowed and the last output is not
      blank; and it fails otherwise: without an output, and then with that error, or with a refused one. */
  lemma AttemptIs(env: Env, st: SubTaskState, deps: Deps)
    ensures var start, done := Started(st), Attempt(env, st, deps);
            && (done.status.Passed? <==> IsApproved(env, start, deps))
            && (done.status.PassedWithCaveats? <==>
                  exists last :: Reached(env, start, deps, Reviews(env), last) && env.degrade && !IsBlank(last.result))
            && (done.status.Failed? <==>
                  || IsBroken(env, start, deps) || NeverTried(env)
                  || exists last :: Reached(env, start, deps, Reviews(env), last)
                                    && !(env.degrade && !IsBlank(last.result)))
    ensures forall review, a, n, text, v | Approved(env, Started(st), deps, review, a, n, text, v) ::
              var done := Attempt(env, st, deps);
              done.result == text && done.verdict == Some(v) && done.attempts == a.attempts + n + 1
    ensures forall last | Reached(env, Started(st), deps, Reviews(env), last) ::
              var done := Attempt(env, st, deps);
              done.result == last.result && done.verdict == last.verdict && done.attempts == last.attempts
    ensures forall review, a, n, message | Broken(env, Started(st), deps, review, a, n, message) ::
              var done := Attempt(env, st, deps);
              done.error == message && done.result == a.result && done.attempts == a.attempts + n + 1
  {
    hide Approved, Broken, Reached, Attempt, InTry;
    var start := Started(st);
    StartIsReached(env, start, deps);
    SomeEnd(env, start, deps, 0, start);
    forall review, a, n, text, v | Approved(env, start, deps, review, a, n, text, v)
      ensures var done := Attempt(env, st, deps);
              && done.status.Passed? && done.result == text && done.verdict == Some(v)
              && done.attempts == a.attempts + n + 1
    {
      ApprovedPasses(env, st, deps, review, a, n, text, v);
      ApprovedTries(env, start, deps, review, a, n, text, v);
    }
    forall review, a, n, message | Broken(env, start, deps, review, a, n, message)
      ensures var done := Attempt(env, st, deps);
              && done.status.Failed? && done.error == message && done.result == a.result
              && done.attempts == a.attempts + n + 1
    {
      BrokenFails(env, st, deps, review, a, n, message);
      BrokenTries(env, start, deps, review, a, n, message);
    }
    forall last | Reached(env, start, deps, Reviews(env), last)
      ensures Attempt(env, st, deps) == last.(status := if env.degrade && !IsBlank(last.result) then PassedWithCaveats
                                                        else Failed, ended := true)
    {
      RefusedEnds(env, st, deps, last);
    }
    if NeverTried(env) {
      NeverTriedFails(env, st, deps);
    }
  }

  lemma StartIsReached(env: Env, start: SubTaskState, deps: Deps)
    ensures Reached(env, start, deps, 0, start)
  {
  }

  lemma {:induction false} TriesAreCalls(env: Env, st: SubTaskState, deps: Deps, n: nat)
    requires OnlyTransient(env, st, deps, n)
    ensures var tried := InTry(env, st, deps, n);
            tried.attempts == st.attempts + n + 1 && tried.result == st.result
  {
    if n > 0 {
      TriesAreCalls(env, st, deps, n - 1);
    }
  }

  lemma ApprovedTries(env: Env, start: SubTaskState, deps: Deps, review: nat, a: SubTaskState, n: nat, text: string,
                      v: Verdict)
    requires Approved(env, start, deps, review, a, n, text, v)
    ensures InTry(env, a, deps, n).attempts == a.attempts + n + 1
  {
    hide InTry, Reached, OnlyTransient;
    TriesAreCalls(env, a, deps, n);
  }

  lemma BrokenTries(env: Env, start: SubTaskState, deps: Deps, review: nat, a: SubTaskState, n: nat, message: string)
    requires Broken(env, start, deps, review, a, n, message)
    ensures InTry(env, a, deps, n).attempts == a.attempts + n + 1 && InTry(env, a, deps, n).result == a.result
  {
    hide InTry, Reached, OnlyTransient;
    TriesAreCalls(env, a, deps, n);
  }

  const WARNING: string :=
    "[caveat: this dependency produced output but did NOT fully pass review; verify it before relying on it]\n"

  /** What a dependent is shown of it: the output a review approved, as it is; a refused one with a warning
      before it; and nothing of an empty one. */
  lemma ShownToDependents(env: Env, st: SubTaskState, deps: Deps, m: States, id: Id)
    requires id in m && m[id] == Attempt(env, st, deps)
    ensures forall review, a, n, text, v | Approved(env, Started(st), deps, review, a, n, text, v) ::
              DependencyResults([id], m) == if text == "" then map[] else map[id := text]
    ensures forall last | Reached(env, Started(st), deps, Reviews(env), last) && env.degrade && !IsBlank(last.result) ::
              DependencyResults([id], m)
              == map[id := WARNING + last.result]
  {
    hide Approved, Reached, Attempt, IsBlank, InTry;
    forall review, a, n, text, v | Approved(env, Started(st), deps, review, a, n, text, v)
      ensures DependencyResults([id], m) == if text == "" then map[] else map[id := text]
    {
      ApprovedPasses(env, st, deps, review, a, n, text, v);
    }
    forall last | Reached(env, Started(st), deps, Reviews(env), last) && env.degrade && !IsBlank(last.result)
      ensures last.result != "" && m[id].status.PassedWithCaveats? && m[id].result == last.result
    {
      RefusedEnds(env, st, deps, last);
      EmptyIsBlank(last.result);
    }
  }

  lemma EmptyIsBlank(s: string)
    ensures s == "" ==> IsBlank(s)
  {
  }
}
