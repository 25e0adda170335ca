# Verified model of the orchestration core

A Dafny 4.11 model of the parts of AI Dev Assistant in which state, protocols and arithmetic decide
what happens: the rolling scheduler, recurring runs, the knowledge graph and its distillation, JSON
recovery from prose, project waves and workspaces, and the code index. `dafny verify dfyconfig.toml`
checks everything.

## What is modelled

**Runs of a plan.** `Plans` holds subtasks and their states, `Attempts` the execute / back off / verify loop
of one subtask as a chain of suspensions, `AttemptAnswers` what the answers of execute and verify make of
it, `Sequential` the plain one-at-a-time evaluation that is the reference, and `Interleaving` the concurrent
run as a transition system: dispatch, start with a lease, resume, and the one-pass blocking of subtasks
whose dependencies failed. `Confluence` proves that every interleaving, for every pool size, ends in the
outcome of the sequential evaluation. `Repairs` extends this to plans that grow by repair subtasks while
they run. `Runs`, `SessionPool`, `Leases`, `Replanning` and `Scheduling` are the classes with the source's
fields and loops; their methods are proved against the transition system, with a nondeterministic choice of
which coroutine moves next, of budget errors, of cancellation and of when the reaper runs. `Validation` is
the Kahn check and the sanitizer in front of it, on top of `Cycles`.

**Recurring runs.** `Calendar` is the Gregorian calendar twice, as a successor function on minutes and in
closed form, with a proof that both agree. `CronText` reads expressions, `CronFire` searches for the next
firing with month, day and hour skips and is proved equal to a minute-by-minute search. `Schedules` says
when a row is due and what any history of polls and edits starts; `ScheduleTable` is the table.

**Knowledge graph.** `Identifiers` canonicalizes node ids. `Networks`, `GraphFiles` and `KnowledgeGraphs`
are the graph, its file form, and the class that writes both, `Facts` what recording a fact and reading a
file change and leave. `Consolidation` and `DistillReports` make a dry-run report, `Quotients` says what a
series of node merges does to a multigraph, `Distills` and `DistillRuns` apply a report; `DistillCases` are
graphs on which that does less, or more, than it is meant to. `GraphMerges` is about merging a file that has
been merged before.

**Text and projects.** `Text`, `Decimals`, `Sorting`, `Collections` and `Wrappers` are what several parts
share. `JsonText` prints JSON values with white space and escapes, `JsonScan` and `JsonOut` find them again
in prose. `Slugs`, `ProjectDeps`, `Waves` and `Workspaces` are project slugs, dependency maps, waves and the
workspace registry; `CrossRuns` follows a workspace from there to the projects that run. `CodeChunks` and
`CodeIndexes` are the windows, the references and the incremental index.

## Conventions

Strings are sequences of characters; dictionaries are maps; SQL tables are maps or sequences of rows.
Times are whole numbers of a small unit. What agents, reviewers and embedders answer is a parameter: the
theorems hold for every answer. A member that returns a `Result` has the source's exceptions as errors.

## Where code and documentation differ

- A stopped run is documented to leave every subtask terminal "with an end time" (scheduler.py:17-18).
  All are terminal, but one has an end time if and only if it was neither restored from a checkpoint nor
  blocked by a failed dependency before the stop: `Scheduling.EndTimesAfterStop`, and as a postcondition of
  `Scheduling.Scheduler.Run`. `Scheduling.BlockedHasNoEndTime` is a run that shows it.
- A cron row is documented to be due once a matching minute has passed since its last start
  (schedules.py:16-18). The search window is counted from that start and not from the poll, so a row whose
  first match lies more than 366 days after it is never due: `Schedules.DocumentedDueIff` is the exact
  condition, `Schedules.LeapRowIsNeverDue` a row that shows it.
- `slugify` is not idempotent: it is so for a name if and only if the cut does not fall right after a hyphen,
  `Slugs.SlugifyIdempotence`; `Slugs.SlugifyIsNotIdempotent` is a name for which it is not. The run path
  slugifies project slugs once more, so known members of a workspace run as asked, exactly they and with
  exactly the edges among them, if and only if none of them has such a cut slug: `CrossRuns.RunsAsAskedIff`,
  and as a postcondition of `CrossRuns.RunWorkspace`. The edges alone come through if and only if they name no
  cut slug (`Workspaces.RunSpecIsAcceptedIff` for their validation, `Workspaces.CutMemberIsRejected` for the
  failing case); a cut member without edges runs, without any error, as another project, for instance the
  default one: `CrossRuns.CutMemberRunsElsewhere`, and `CrossRuns.RunsInDefault` for a workspace.
- `validate_project_deps` is documented to raise on cycles (fanout.py:36). It looks at one entry at a time and
  accepts a circle, `ProjectDeps.CircleIsAcceptable`; the wave builder is what rejects it.
- A distillation is documented to be idempotent, a second run proposing nothing (distill.py:29). It proposes no
  merge, but `Distills.SecondReportIsEmptyIff` says when it proposes a prune or an orphan;
  `DistillCases.SecondPassRemoves` is a graph from which a second pass removes a node, and in the graph of
  `DistillCases.NamelessComesAgain` every pass proposes the same.
- Applying a fresh report can skip a proposal that names an empty id or relation: `Distills.FreshReportIff`,
  with `DistillCases.NamelessIsPassedOver` for a graph made of facts on which nothing at all is done. A prune is
  not judged again after the merges, so an edge that a merge made heavy goes too:
  `Distills.PrunedThoughHeavyIff`, and `DistillCases.HeavyIsPruned` for a graph.
- `delete_prefix` deletes by SQL LIKE, where an underscore in a path matches any character:
  `CodeIndexes.IndexingKeepsIff`, `CodeIndexes.PruningKeepsIff` and, for whole passes, `CodeIndexes.PassKeepsIff`
  are the exact conditions under which the index stays right, `CodeIndexes.UnderscoreIsNotApart` an index from
  which indexing one file takes a row of another.
- A value on the line that opens a fence is lost when a newline follows, unless it comes again in the lines
  after that newline, with no opening bracket before it: `JsonOut.FenceLineIff`, `JsonOut.FenceLineAlone`, and `JsonOut.FenceLineIsLost` for a text.

## Model

| member | source | states |
|---|---|---|
| Attempts.AttemptIsHonest | src/ai_dev_assistant/orchestration/scheduler.py:158-196 | however execution and review answer, a subtask that starts ends passed, passed with caveats or failed, with an end time; it passes only on an approving verdict and keeps its specification |
| Attempts.AttemptCalls | src/ai_dev_assistant/orchestration/scheduler.py:158-215 | a subtask costs at least one call and at most (review retries + 1) times (transient retries + 1) |
| Attempts.ExecuteWithBackoff | src/ai_dev_assistant/orchestration/scheduler.py:198-215 | the back-off loop ends either with a text, from which the rest of the attempt is the reference attempt, or with the failed state that is its outcome |
| Attempts.AttemptLoop | src/ai_dev_assistant/orchestration/scheduler.py:158-196 | the nested retry loops leave exactly the state that the suspension-by-suspension definition concludes with |
| AttemptAnswers.AttemptIs | src/ai_dev_assistant/orchestration/scheduler.py:158-215 | over the answers of execute and verify alone: a subtask passes if and only if a review that is reached gets an output, after no more transient errors than are retried and no crash, and approves it, and then has that output and verdict; it is degraded if and only if every review refuses, degrading is allowed and the last output is not blank; it fails otherwise, without an output with that error; and the calls of execute are counted |
| AttemptAnswers.ShownToDependents | src/ai_dev_assistant/orchestration/task.py:102-113 | a dependent is shown the output that a review approved, as it is, a refused one with the caveat before it, and nothing of an empty one |
| Sequential.EvaluateIsOutcome | src/ai_dev_assistant/orchestration/scheduler.py:83-135 | the one-at-a-time evaluation satisfies the outcome equations: a restored state stays, a subtask with a failed, blocked or unresolvable dependency is blocked, any other is its own attempt on its dependencies' results |
| Sequential.OutcomeIsTerminal | src/ai_dev_assistant/orchestration/scheduler.py:132-135 | in any outcome every subtask is terminal and has the specification it started with |
| Sequential.BlockedAreDescendantsOfFailed | src/ai_dev_assistant/orchestration/task.py:86-100 | on an acyclic plan with nothing restored, a subtask is blocked if and only if a chain of dependencies leads from it to a failed one |
| Runs.BlockedInValidPlan | src/ai_dev_assistant/orchestration/task.py:66-100 | the same, from a plan that validates: blocked are exactly the strict descendants of failed subtasks |
| Interleaving.StepKeeps | src/ai_dev_assistant/orchestration/scheduler.py:83-128 | every step of every coroutine keeps each entry on its way to its sequential outcome |
| Interleaving.UnreachableIsBlocked | src/ai_dev_assistant/orchestration/task.py:86-100 | a subtask that the one-pass blocking may block has no coroutine, and its sequential outcome is blocked too |
| Confluence.ReachableIsSafe | src/ai_dev_assistant/orchestration/scheduler.py:83-156 | after any possible series of steps: what ran has all dependencies satisfied, running is exactly leased, and no more are leased than the cap |
| Confluence.StepIsMonotone | src/ai_dev_assistant/orchestration/scheduler.py:83-106 | terminal states never change, a ready subtask stays ready until it starts, and nothing is dispatched twice |
| Confluence.NoDeadlock | src/ai_dev_assistant/orchestration/scheduler.py:83-106 | with at least one permit, a run that has not gone dry has a step to take |
| Confluence.RunsAreBounded | src/ai_dev_assistant/orchestration/scheduler.py:83-135 | no series of steps is longer than a measure of its initial state |
| Confluence.EveryRunEndsSequentially | src/ai_dev_assistant/orchestration/scheduler.py:78-135 | every possible run, in any order and with any pool size, that goes dry ends in the states of the sequential evaluation |
| Repairs.RepairsTheFirstEligible | src/ai_dev_assistant/engine.py:921-954 | the repairs are those of the first eligible failed subtasks in plan order, as many as there is room for |
| Repairs.RepairsAreAddressed | src/ai_dev_assistant/engine.py:921-954 | a repair goes to the debugger if there is one, else to the agent that failed, and tells the error, or without one the first objection of the review |
| Repairs.RepairRound | src/ai_dev_assistant/engine.py:921-954 | in the outcome of the grown plan every old state is unchanged and every repair is ready at once and runs on the dependencies of the subtask it repairs |
| Repairs.NoSecondRound | src/ai_dev_assistant/engine.py:921-954 | after one round of repairs there is nothing left to repair: a repair is never repaired, and every failed subtask there was room for has its repair |
| Repairs.WholeIsOneRound | src/ai_dev_assistant/engine.py:921-954 | a whole run with replanning is one evaluation, or one evaluation, one round of repairs and one more evaluation |
| Repairs.GrownPlanIsRanked | src/ai_dev_assistant/orchestration/scheduler.py:86-95 | the grown plan is acyclic: a ranking of the plan extends to the repairs |
| Repairs.ReplanKeeps | src/ai_dev_assistant/orchestration/scheduler.py:86-95 | replanning a dry run keeps the invariant, now towards the outcome of the grown plan |
| Replanning.Replanner.Replan | src/ai_dev_assistant/engine.py:921-954 | the loop appends exactly the planned repairs to plan, order and states, and counts them against the cap of two |
| Runs.TaskRun.FromPlan | src/ai_dev_assistant/orchestration/task.py:66-69 | one fresh state per id, in order of first appearance, the last entry of an id deciding |
| Runs.LastEntryCounts | src/ai_dev_assistant/orchestration/task.py:66-69 | whatever ids are repeated, the last entry of each is the one that counts |
| Runs.FirstEntriesOrder | src/ai_dev_assistant/orchestration/task.py:66-69 | and ids stand in the order of their first entries |
| Runs.TaskRun.Ready | src/ai_dev_assistant/orchestration/task.py:71-84 | the pending subtasks all of whose dependencies are satisfied, in order |
| Runs.TaskRun.BlockUnreachable | src/ai_dev_assistant/orchestration/task.py:86-100 | the states after one pass in order, each entry seeing the blocks made before it |
| Runs.BlockPassBlocks | src/ai_dev_assistant/orchestration/task.py:86-100 | a pass changes pending entries only, to blocked, and misses none that had a broken dependency before it |
| Runs.BlockPassKeeps | src/ai_dev_assistant/orchestration/task.py:86-100 | a pass is a series of steps of the transition system: it keeps the invariant and makes no work |
| Runs.BlockPassLeavesNothingDangling | src/ai_dev_assistant/orchestration/task.py:86-100 | after a pass no pending subtask has an unknown dependency |
| Runs.TaskRun.CollectResults | src/ai_dev_assistant/orchestration/task.py:102-113 | the results of the dependencies, as the subtask is given them |
| Runs.TaskRun.RestoreCheckpoints | src/ai_dev_assistant/engine.py:877-899 | completed subtasks get their status, result and verdict back and are counted; every stored one keeps its attempts; nothing else changes |
| Runs.CheckpointsRoundTrip | src/ai_dev_assistant/engine.py:860-899 | a run stored and restored: exactly the completed subtasks are complete, with verdict and result but for masked secrets, all others start again with their attempts counted; a dependent has its dependencies satisfied as before and is shown the same of them |
| Runs.RestoredIsStartable | src/ai_dev_assistant/engine.py:877-899 | a restored run is one the scheduler may start from, with no end times, and exactly the satisfying checkpoints are not run again |
| SessionPool.Pool.Acquire | src/ai_dev_assistant/orchestration/session_pool.py:76-85 | the first warm session of the agent if there is one, else a new one; the books stay balanced: permits plus leased is the cap, created is idle plus leased plus reaped, nothing is idle and leased, and no agent name has more live sessions than the cap |
| SessionPool.Pool.TakeIdle | src/ai_dev_assistant/orchestration/session_pool.py:110-114 | the first idle session of that agent leaves the list, the others keep their order |
| SessionPool.Pool.Release | src/ai_dev_assistant/orchestration/session_pool.py:87-93 | the permit comes back and the session is no longer leased; it becomes idle unless it was closed meanwhile by `stop`; the books stay balanced when it was leased and open |
| SessionPool.Pool.ReapOnce | src/ai_dev_assistant/orchestration/session_pool.py:121-134 | exactly the expired idle sessions are closed, counted and dropped, the books stay balanced |
| SessionPool.Pool.Stop | src/ai_dev_assistant/orchestration/session_pool.py:65-74 | every session is closed and forgotten, permits and counters stay |
| Scheduling.Scheduler.StartOne | src/ai_dev_assistant/orchestration/scheduler.py:144-156 | a queued coroutine takes a lease and makes exactly the start step |
| Scheduling.Scheduler.ResumeOne | src/ai_dev_assistant/orchestration/scheduler.py:158-215 | a leased coroutine makes exactly one resume step, and gives its lease back when it settles |
| Scheduling.Scheduler.CrashOne | src/ai_dev_assistant/orchestration/scheduler.py:144-156 | a budget error gives the lease back while the status stays running |
| Scheduling.Scheduler.Turn | src/ai_dev_assistant/orchestration/scheduler.py:83-121 | a turn of the main loop keeps the run on course to its goal, and uses up room for repairs, or work, or settled coroutines; if it finishes, the goal is reached |
| Scheduling.Scheduler.FinalizeNonterminal | src/ai_dev_assistant/orchestration/scheduler.py:137-142 | terminal states are untouched, every other becomes blocked with an end time |
| Scheduling.Scheduler.Abort | src/ai_dev_assistant/orchestration/scheduler.py:107-121 | from any reachable state: nothing is leased, every subtask is terminal, terminal states are untouched |
| Scheduling.Scheduler.Run | src/ai_dev_assistant/orchestration/scheduler.py:78-135 | a run that completes ends in the sequential outcome of the plan and its repairs; one that is stopped keeps what had settled, which is part of that outcome, and blocks the rest; either way all leases and permits are back, and an entry has an end time if and only if it was neither restored nor blocked before a stop |
| Scheduling.GoalExtendsOutcome | src/ai_dev_assistant/orchestration/scheduler.py:86-95 | the outcome of the plan so far is part of the outcome of the whole run |
| Scheduling.EndTimesAfterStop | src/ai_dev_assistant/orchestration/scheduler.py:107-142 | in a stopped run, fresh or resumed, a subtask has an end time if and only if it was neither restored from a checkpoint nor blocked before the stop |
| Scheduling.EndTimesAtGoal | src/ai_dev_assistant/orchestration/scheduler.py:129-135 | in a run that completes, if and only if it was neither restored nor blocked |
| Scheduling.BlockedHasNoEndTime | src/ai_dev_assistant/orchestration/scheduler.py:107-142 | a run of three subtasks: the first fails, the second is blocked by it, the run is stopped; the second ends without an end time and the third with one |
| Validation.Validate | src/ai_dev_assistant/orchestration/task.py:115-148 | raises if and only if the plan has a repeated id, a dangling dependency or a cycle, in that order; otherwise there is a ranking |
| Validation.Kahn | src/ai_dev_assistant/orchestration/task.py:131-148 | the nodes popped are in topological order, and each node left waits for another that is left |
| Cycles.StuckHasCycle | src/ai_dev_assistant/orchestration/task.py:140-148 | nodes that all wait for one another contain a cycle |
| Validation.SanitizedPlan | src/ai_dev_assistant/agents/orchestrator.py:281-294 | after sanitizing every agent is known, and only repeated ids or cycles through two or more subtasks can remain |
| Validation.Sanitize | src/ai_dev_assistant/agents/orchestrator.py:281-294 | every subtask keeps its id and loses unknown agents, dangling and self dependencies |
| Calendar.NumberOfAt | src/ai_dev_assistant/orchestration/schedules.py:141-174 | stepping minute by minute through months and leap years agrees with the closed form of the day number |
| Calendar.AtOfNumber | src/ai_dev_assistant/orchestration/schedules.py:149-174 | every valid date-time is reached, at its number |
| Calendar.OrderIsNumeric | src/ai_dev_assistant/orchestration/schedules.py:155-158 | comparing date-times field by field is comparing their numbers |
| Calendar.WeekdaysGoRound | src/ai_dev_assistant/orchestration/schedules.py:141-146 | 1 January 2024 is a Monday, every next day has the next weekday, and the time of day has no say |
| Calendar.WeekdayIsCounted | src/ai_dev_assistant/orchestration/schedules.py:141-146 | so the weekday is the number of days since a known Sunday, modulo 7 |
| CronFire.NextFire | src/ai_dev_assistant/orchestration/schedules.py:149-174 | the search with month, day and hour skips finds what a minute-by-minute search of the window finds, and fails exactly when that finds nothing |
| CronFire.FirstFireIsLeast | src/ai_dev_assistant/orchestration/schedules.py:149-154 | that search gives the least matching minute of its range, or there is none |
| CronFire.FiresWeekly | src/ai_dev_assistant/orchestration/schedules.py:141-146 | with only the weekday restricted, to one, an expression fires exactly whole weeks and that many days after a known Sunday, at its times of day |
| CronFire.OnceAWeek | src/ai_dev_assistant/orchestration/schedules.py:149-174 | at one time of day: the next firing is within a week, on that weekday at that time |
| CronFire.YearlyIsReached | src/ai_dev_assistant/orchestration/schedules.py:149-174 | whatever fires every year on one date and time has a firing in the window |
| CronFire.MonthSkipIsSafe | src/ai_dev_assistant/orchestration/schedules.py:159-162 | no firing lies between a minute of an excluded month and the next month |
| CronFire.DaySkipIsSafe | src/ai_dev_assistant/orchestration/schedules.py:163-165 | no firing lies between a minute of a day that does not match and the next day |
| CronFire.HourSkipIsSafe | src/ai_dev_assistant/orchestration/schedules.py:166-168 | no firing lies between a minute of an excluded hour and the next hour |
| CronFire.LeapDayIsTooFar | src/ai_dev_assistant/orchestration/schedules.py:149-174 | an expression for 29 February fires in 2024 and has no firing in the window from New Year 2021 |
| CronText.ReadItemIsTheGrammar | src/ai_dev_assistant/orchestration/schedules.py:84-111 | an entry is read as a star, range or number with a step if and only if the grammar spells it so |
| CronText.FieldValuesAre | src/ai_dev_assistant/orchestration/schedules.py:79-117 | the entries are what the commas separate: joined by commas they are the field, and none has a comma; a field is accepted if and only if all of them are in the grammar and in range, and its values are those some entry covers, 7 read as Sunday |
| CronText.NumbersAccepted | src/ai_dev_assistant/orchestration/schedules.py:79-117 | a lone number is accepted as minute, hour, day or month if and only if some minute of the calendar has it there, and as a weekday up to 7 |
| CronText.SpaceSeparates | src/ai_dev_assistant/orchestration/schedules.py:120-123 | the words of a text around a white-space character are those before it and those after it |
| CronText.WordsOfWord | src/ai_dev_assistant/orchestration/schedules.py:120-123 | a text without white space is one word, and nothing is none |
| CronText.ParseCronField | src/ai_dev_assistant/orchestration/schedules.py:79-117 | the loop over the entries computes those values, or the error of the first bad entry |
| CronText.EitherDayRule | src/ai_dev_assistant/orchestration/schedules.py:120-146 | both day fields restricted, either may match; one restricted, it governs; none, every day matches; the weekday is counted from a known Sunday |
| CronText.ExpressionMeans | src/ai_dev_assistant/orchestration/schedules.py:120-146 | an expression is accepted if and only if it has five fields of entries, and matches a minute if and only if the first covers its minute, the second its hour, the fourth its month, and the third its day or the fifth its weekday, by the day rule |
| CronText.StoredFormKeepsMeaning | src/ai_dev_assistant/orchestration/schedules.py:134-138 | the normalized text reads as the typed one, and normalizing again changes nothing |
| Schedules.CronDueIff | src/ai_dev_assistant/orchestration/schedules.py:339-350 | a cron row is due if and only if a matching minute has passed since its reference and one lies in the search window |
| Schedules.DocumentedDueIff | src/ai_dev_assistant/orchestration/schedules.py:16-18 | due means what is documented, at all times, if and only if an expression that fires at all after the reference fires in the window |
| Schedules.LeapRowIsNeverDue | src/ai_dev_assistant/orchestration/schedules.py:339-350 | a legal row for 29 February, created at New Year 2021, is never due, although its minute has passed |
| Schedules.DueFromNextRun | src/ai_dev_assistant/orchestration/schedules.py:201-220 | a row is due from the time shown as its next run on |
| Schedules.MomentsLieInMinutes | src/ai_dev_assistant/orchestration/schedules.py:201-220 | a moment, in microseconds since 1970, lies in the minute of the calendar it should, and that minute begins at its whole minutes |
| Schedules.StartsAreApart | src/ai_dev_assistant/orchestration/schedules.py:325-357 | along any history of polls and edits: each cron start stands for its own matching minute, after every earlier start and after creation; interval starts are a whole interval apart |
| Schedules.MissedMinutesCoalesce | src/ai_dev_assistant/orchestration/schedules.py:325-357 | each matching minute the window reaches falls to one start, once a poll comes after it |
| Schedules.OutOfWindowNeverStarts | src/ai_dev_assistant/orchestration/schedules.py:339-350 | polling never starts a row whose expression does not fire in the window |
| ScheduleTable.ScheduleStore.Create | src/ai_dev_assistant/orchestration/schedules.py:246-270 | accepted if and only if there is exactly one valid recurrence, a prompt and a new id; the row is appended |
| ScheduleTable.ScheduleStore.Update | src/ai_dev_assistant/orchestration/schedules.py:286-318 | accepted if and only if something is changed, the row exists and a recurrence is left; other rows and the last start are untouched |
| ScheduleTable.UpdateTakes | src/ai_dev_assistant/orchestration/schedules.py:286-318 | prompt, interval, expression and switch are what they are set to, or what they were; an expression keeps its meaning, a blank one is none; nothing else of the row changes |
| ScheduleTable.ScheduleStore.Due | src/ai_dev_assistant/orchestration/schedules.py:325-337 | the enabled rows that are due, in the order of the table |
| ScheduleTable.ScheduleStore.MarkStarted | src/ai_dev_assistant/orchestration/schedules.py:352-360 | that row's last start and task change, and nothing else; an unknown id is reported |
| ScheduleTable.ScheduleStore.Tick | src/ai_dev_assistant/web/server.py:2711-2740 | a pass moves every row by one poll of its history, except those that could not be enqueued |
| ScheduleTable.CheckDue | src/ai_dev_assistant/orchestration/schedules.py:339-350 | the check with the skipping search is the definition with the minute-by-minute search |
| JsonScan.ScanFindsTheEnd | src/ai_dev_assistant/llm/jsonout.py:71-95 | counting one kind of bracket, with strings and escapes skipped, ends a printed array or object at its last character, whatever follows |
| JsonScan.JsonLoops | src/ai_dev_assistant/llm/jsonout.py:71-95 | any printed value, read inside another, leaves depth, string and escape state as they were and ends nothing |
| JsonOut.FirstOpen | src/ai_dev_assistant/llm/jsonout.py:64-68 | the position of the first opening bracket, or none |
| JsonOut.BalancedSlice | src/ai_dev_assistant/llm/jsonout.py:71-95 | the loop over depth, string and escape flags returns what the automaton delimits |
| JsonOut.ExtractJson | src/ai_dev_assistant/llm/jsonout.py:18-33 | the step-by-step rebinding computes the specified text |
| JsonOut.ExtractsFromProse | src/ai_dev_assistant/llm/jsonout.py:18-33 | after text without opening brackets or leading fence, and before any text, an array or object is returned exactly |
| JsonOut.ExtractsFromFence | src/ai_dev_assistant/llm/jsonout.py:18-33 | inside a leading fence whose line has ended, an array or object after text without opening brackets is returned exactly |
| JsonOut.FenceLineIff | src/ai_dev_assistant/llm/jsonout.py:21-28 | on the line of the fence itself, whatever follows, it is returned if and only if no newline comes in it or after it, white space at the end aside, or it stands again in the text after the first newline with no opening bracket before it |
| JsonOut.FenceLineAlone | src/ai_dev_assistant/llm/jsonout.py:21-28 | when no bracket follows, if and only if no newline comes |
| JsonOut.FenceLineIsLost | src/ai_dev_assistant/llm/jsonout.py:18-33 | a text with an empty object on the line of the fence, for which the empty text is returned |
| Slugs.SlugifyHyphenates | src/ai_dev_assistant/projects.py:52-58 | a slug is not empty, at most 48 characters, lower case letters and digits with single hyphens between, and only a cut one can end in a hyphen |
| Slugs.SlugSpells | src/ai_dev_assistant/projects.py:52-54 | a slug that is not cut spells the letters and digits of the name, in lower case and in order; a cut one has 48 characters and spells the beginning; a name without any gives the default |
| Slugs.SlugifyIdempotence | src/ai_dev_assistant/projects.py:52-54 | slugifying twice is slugifying once, and the slug a proper one, if and only if the cut to 48 characters does not fall right after a hyphen |
| Slugs.SlugifyIsNotIdempotent | src/ai_dev_assistant/projects.py:52-58 | a name for which it is not |
| ProjectDeps.ValidateProjectDeps | src/ai_dev_assistant/orchestration/fanout.py:32-58 | accepted if and only if every key and upstream is a known project and none is its own upstream; the result is the normalized map |
| ProjectDeps.NormalizedIs | src/ai_dev_assistant/orchestration/fanout.py:32-58 | the normalized map is over the given slugs, without repetitions, empty lists or self-dependencies |
| ProjectDeps.WellFormedIsAccepted | src/ai_dev_assistant/orchestration/fanout.py:32-79 | a well-formed map whose entries name proper slugs is accepted as it is, and is closed and acyclic |
| ProjectDeps.AcceptedUnchangedIff | src/ai_dev_assistant/orchestration/fanout.py:32-58 | a well-formed map over project slugs is accepted as it is if and only if no entry names a slug that was cut after a hyphen |
| ProjectDeps.CircleIsAcceptable | src/ai_dev_assistant/orchestration/fanout.py:32-58 | a circle of two projects is accepted |
| Waves.DependencyWaves | src/ai_dev_assistant/orchestration/fanout.py:61-79 | succeeds if and only if the map is closed and acyclic; the waves hold the slugs by the length of their longest upstream chain, in the caller's order |
| Waves.WavesPartition | src/ai_dev_assistant/orchestration/fanout.py:61-79 | each slug is in exactly one wave, and every upstream is in a strictly earlier one |
| Workspaces.Registry.Create | src/ai_dev_assistant/workspaces.py:103-142 | fails if and only if a project is unknown, and then changes nothing; otherwise the workspace gets the first free slug, the projects leave all other workspaces, with their edges, and the registry stays sound: members are project slugs |
| Workspaces.Registry.FreeSlug | src/ai_dev_assistant/workspaces.py:119-124 | the first of the plain slug and those numbered from 2 on that no workspace has |
| Workspaces.Registry.Assign | src/ai_dev_assistant/workspaces.py:173-190 | the project joins that workspace and leaves every other, with the edges that touch it; no project is ever in two |
| Workspaces.Registry.Unassign | src/ai_dev_assistant/workspaces.py:193-204 | the project and the edges that touch it leave that workspace only |
| Workspaces.Registry.Delete | src/ai_dev_assistant/workspaces.py:161-166 | exactly that workspace goes |
| Workspaces.Registry.SetDeps | src/ai_dev_assistant/workspaces.py:220-238 | accepted if and only if the workspace is known and the map is over its members and acyclic; nothing else changes |
| Workspaces.Registry.RunSpec | src/ai_dev_assistant/workspaces.py:241-275 | the members or a subset of them with the edges among them, well formed again; fails if and only if the workspace is unknown or a name is no member |
| Workspaces.RunSpecIsAcceptedIff | src/ai_dev_assistant/orchestration/fanout.py:32-58 | whatever members of a workspace are chosen, validating the edges among them accepts these as they are if and only if they name no slug that was cut after a hyphen, and then there are waves |
| Workspaces.CutMemberIsRejected | src/ai_dev_assistant/workspaces.py:220-275 | an edge of a member whose slug was cut after a hyphen is accepted by the registry and rejected by the run |
| CrossRuns.StartRun | src/ai_dev_assistant/web/server.py:899-927 | what is queued: one project when none or one is named, several with the normalized dependencies otherwise; refused if and only if a name is unknown or the dependencies are not acceptable or circular |
| CrossRuns.CrossRun | src/ai_dev_assistant/orchestration/fanout.py:107-114 | the projects that run are the resolved ones, each once, in order; refused if and only if there are none or the dependencies are not acceptable among them or circular |
| CrossRuns.RunWorkspace | src/ai_dev_assistant/web/server.py:1972-1986 | from the registry to the run: an error when nothing is chosen or something is no member or unknown; otherwise the chosen members and their edges run as they are if and only if no member has a cut slug |
| CrossRuns.ResolvedIff | src/ai_dev_assistant/projects.py:598-604 | slugs of known projects resolve to themselves if and only if none was cut after a hyphen; whatever they resolve to is a proper slug |
| CrossRuns.RunsAsAskedIff | src/ai_dev_assistant/orchestration/fanout.py:107-114 | known members run as asked, exactly they and with exactly the edges among them, if and only if none has a cut slug; the edges come through if and only if they name none, in whatever order they are read |
| CrossRuns.CutMemberRunsElsewhere | src/ai_dev_assistant/projects.py:598-604 | a cut member alone runs without any error as another project, the default one unless there is one by the trimmed slug |
| CrossRuns.RunsInDefault | src/ai_dev_assistant/projects.py:598-604 | a name, and a workspace of its project only, that runs in the default project |
| Identifiers.CanonicalIsIdempotent | src/ai_dev_assistant/knowledge/graph.py:63-70 | canonicalizing twice is canonicalizing once |
| Identifiers.CanonicalIsClean | src/ai_dev_assistant/knowledge/graph.py:63-70 | paths and names of symbols in files are identifiers already; any other text comes out clean, word characters, slashes, dots and colons with single hyphens between, and keeps all of these in their order |
| GraphFiles.LoadInvertsSerialize | src/ai_dev_assistant/knowledge/graph.py:391-412 | loading a file of a legal graph, in whatever order it was written, gives that graph |
| GraphFiles.MergingOwnFileIsIdle | src/ai_dev_assistant/knowledge/graph.py:375-389 | merging a graph's own file changes nothing |
| GraphFiles.MergeIsJoin | src/ai_dev_assistant/knowledge/graph.py:323-389 | merging any file keeps every node and edge of both sides, each edge with the greatest weight; labels, known types and layers stay |
| GraphFiles.MergesCommute | src/ai_dev_assistant/knowledge/graph.py:306-321 | two writers that merge each other's files have the same nodes, edges and weights |
| GraphMerges.MergingTwiceIsOnce | src/ai_dev_assistant/knowledge/graph.py:323-389 | merging any file a second time changes nothing: no node, weight, time, provenance or attribute, whatever the file repeats |
| GraphMerges.StampsTwice | src/ai_dev_assistant/knowledge/graph.py:362-365 | so for the times alone, of which a known zero counts as none |
| GraphFiles.FactKeeps | src/ai_dev_assistant/knowledge/graph.py:114-155 | recording a fact keeps the graph legal: canonical ids, endpoints present, no concept that should have been inferred otherwise, capped provenance |
| Facts.FactIsTold | src/ai_dev_assistant/knowledge/graph.py:114-155 | recording a fact: a known edge gains one in weight, a new last time and the provenance it has room for, and keeps the rest; a new one starts at weight 1; the ends are typed and labelled; no other edge or node changes |
| Facts.WeightIsTimesTold | src/ai_dev_assistant/knowledge/graph.py:131-155 | after any series of facts an edge weighs as much more as its fact was told, and keeps its first time and layer |
| Facts.LastIsLastTold | src/ai_dev_assistant/knowledge/graph.py:131-155 | and was last seen when its fact was told last |
| Facts.NodeIsRead | src/ai_dev_assistant/knowledge/graph.py:323-340 | a node read from a file is added, or what is known of it wins; no other node changes |
| Facts.EdgeIsRead | src/ai_dev_assistant/knowledge/graph.py:342-373 | an edge read from a file is added, on the run layer if none is said and the relation is one of the engine's five; a known one keeps layer and attributes and pools provenance; no other edge changes |
| Networks.EdgesMeet | src/ai_dev_assistant/knowledge/distill.py:240-265 | when a merge brings two edges together, provenance is pooled up to the cap, nothing known being lost, and known attributes win |
| KnowledgeGraphs.KnowledgeGraph.AddFact | src/ai_dev_assistant/knowledge/graph.py:131-155 | a repeated fact gains exactly one in weight, its last time and provenance up to the cap, and keeps the rest; a new one starts at weight 1; no edge but this and no node but its ends changes |
| KnowledgeGraphs.KnowledgeGraph.IngestEdge | src/ai_dev_assistant/knowledge/graph.py:342-373 | an edge read from a file is added, or met by the greatest weight and the union of times and provenance |
| KnowledgeGraphs.KnowledgeGraph.MergeFromDisk | src/ai_dev_assistant/knowledge/graph.py:375-389 | nodes and then edges of the file are taken in, in order; an unreadable file is none |
| KnowledgeGraphs.KnowledgeGraph.Serialize | src/ai_dev_assistant/knowledge/graph.py:391-399 | the file lists every node and edge and nothing else |
| KnowledgeGraphs.KnowledgeGraph.Save | src/ai_dev_assistant/knowledge/graph.py:306-321 | the file on disk is merged in first; what is written loads back as the graph in memory |
| Consolidation.PlainKey | src/ai_dev_assistant/knowledge/distill.py:59-66 | the variant key of a file, task or agent is its id without hyphens |
| Consolidation.StopwordsDoNotMatter | src/ai_dev_assistant/knowledge/distill.py:59-66 | a stopword among the tokens of a concept does not change its key |
| Consolidation.PluralsDoNotMatter | src/ai_dev_assistant/knowledge/distill.py:51-66 | nor does a plural s |
| Consolidation.ConceptKey | src/ai_dev_assistant/knowledge/distill.py:59-66 | the key of a concept is its id without hyphens, stopwords and plural s; without stopwords and plurals, its id without hyphens |
| Consolidation.SingularIs | src/ai_dev_assistant/knowledge/distill.py:51-56 | a token of four or more characters that ends in a single s loses it, every other stays |
| Consolidation.RankFalls | src/ai_dev_assistant/knowledge/distill.py:151-159 | each link strictly lowers the rank, so following links ends at a node that is not merged away, and a node is its own root exactly when no merge drops it |
| Consolidation.RootIsRankMinimum | src/ai_dev_assistant/knowledge/distill.py:151-159 | the root of a merge class is its member of lowest rank |
| Consolidation.KeeperIsHeaviest | src/ai_dev_assistant/knowledge/distill.py:146-159 | the keeper of a class has its greatest degree, of those the shortest id, and of those the first in the order of strings |
| Sorting.StrLessIff | src/ai_dev_assistant/knowledge/distill.py:146-149 | in that order a proper beginning comes first, and otherwise the first difference decides |
| Consolidation.ClassesKeepTypes | src/ai_dev_assistant/knowledge/distill.py:146-188 | no class crosses node types or holds a node on a run-layer edge |
| Consolidation.FollowLinks | src/ai_dev_assistant/knowledge/distill.py:156-159 | the loop over the dictionary ends, at the root that doing the merges in order leads to |
| DistillReports.DomainView | src/ai_dev_assistant/knowledge/distill.py:69-84 | the domain edges, the nodes on run edges, and each node's weighted degree, whatever the order of the edges |
| DistillReports.SemanticPairs | src/ai_dev_assistant/knowledge/distill.py:87-124 | exactly the pairs of concepts whose labels score at least the threshold, the most similar first; none without an embedder |
| DistillReports.SameGroupIff | src/ai_dev_assistant/knowledge/distill.py:59-66 | two nodes are variants of one name if and only if they are of one type and the same, not nothing, is left of their ids: of concepts without stopwords, plural s and hyphens, of others without hyphens |
| DistillReports.WeightedDegrees | src/ai_dev_assistant/knowledge/graph.py:238-251 | the weighted degrees over the domain edges of weight 1 or more, whatever the order of the edges |
| DistillReports.TopNodes | src/ai_dev_assistant/knowledge/graph.py:253-258 | a node is a hub if and only if it has such an edge and fewer than 20 nodes come before it by that degree and id; hubs are 20, or all there are, and none of the others has a greater degree |
| DistillReports.DistillReport | src/ai_dev_assistant/knowledge/distill.py:127-228 | merges that form a forest, each justified, with no variant or similar pair left apart; exactly the stale light edges between unmerged nodes that are no hubs; exactly the concepts left without edges |
| Quotients.QuotientStep | src/ai_dev_assistant/knowledge/distill.py:232-265 | one more merge of two roots makes the quotient of one more merge: keys are images of old keys without loops that merging makes, weight and last time the greatest and first time the least among the origins |
| Distills.NamedReportIsApplied | src/ai_dev_assistant/knowledge/distill.py:268-314 | applying a report to its graph makes the quotient, removes the prunes and then the orphans, and the counts are the lengths of the lists |
| Distills.FreshReportLeaves | src/ai_dev_assistant/knowledge/distill.py:285-314 | what is left after a report whose merges have names: the prunes with names are gone, and the orphans that keep no nameless edge |
| Distills.FreshReportIff | src/ai_dev_assistant/knowledge/distill.py:285-314 | all merges and prunes are carried out if and only if none names an empty id or relation; then the orphans go too |
| Distills.PrunedThoughHeavyIff | src/ai_dev_assistant/knowledge/distill.py:190-210 | a proposed prune goes even when it has become heavy, which is so if and only if a heavy edge was redirected onto it |
| Distills.NoReportCrossesTypes | src/ai_dev_assistant/knowledge/distill.py:20-28 | whatever the report: nodes that remain are as they were, no type but concept dies out, and no edge is carried to a node of another type or layer |
| Distills.RunEdgesSurvive | src/ai_dev_assistant/knowledge/distill.py:285-314 | whatever the report, the run-layer edges afterwards are those before |
| Distills.RunEdgesAreUntouched | src/ai_dev_assistant/knowledge/distill.py:146-149 | under a fresh report they also keep weight, times and provenance |
| Distills.SecondReportMergesNothing | src/ai_dev_assistant/knowledge/distill.py:146-188 | once a fresh report is applied, a second one with the same embedder proposes no merge |
| Distills.SecondReportIs | src/ai_dev_assistant/knowledge/distill.py:190-228 | once a report whose merges have names is applied: its prunes are the keys the first left that only light edges were carried to, the latest of them stale, away from the hubs that remain; its orphans are the concepts left whose edges are pruned now or then, or became loops |
| Distills.SecondReportIsEmptyIff | src/ai_dev_assistant/knowledge/distill.py:21-31 | after such a report it proposes nothing at all, as documented, if and only if there are no such keys and concepts |
| DistillCases.HeavyIsPruned | src/ai_dev_assistant/knowledge/distill.py:190-210 | a graph whose report proposes a light edge as a prune, which its merge makes heavy, and which is removed all the same |
| DistillCases.SecondPassRemoves | src/ai_dev_assistant/knowledge/distill.py:21-31 | the same graph: the node at both edges is proposed for nothing, loses them, and any second report proposes it as an orphan |
| DistillCases.NamelessIsPassedOver | src/ai_dev_assistant/knowledge/distill.py:285-314 | a graph made of facts, one with an empty relation, whose report proposes a prune and two orphans, none of which is carried out |
| DistillCases.NamelessComesAgain | src/ai_dev_assistant/knowledge/distill.py:21-31 | applying that report and making another gives the same prune and the same orphans again |
| DistillRuns.MergeNodes | src/ai_dev_assistant/knowledge/distill.py:232-265 | moving the dropped node's edges one by one, in any order, makes the merged graph |
| DistillRuns.Distill | src/ai_dev_assistant/knowledge/distill.py:268-324 | the three passes in place leave the graph and the counts of the definition, and what is saved loads back as the distilled graph; for a graph that is too small nothing changes and nothing is saved |
| CodeChunks.ChunkText | src/ai_dev_assistant/knowledge/code_index.py:107-125 | the stepping loop gives the windows of the definition, and each splits into the lines it names |
| CodeChunks.ChunksAreOk | src/ai_dev_assistant/knowledge/code_index.py:107-125 | each chunk is a window of up to 60 lines at a multiple of 50, joined, not blank; they are in order |
| CodeChunks.ChunkHoldsItsLines | src/ai_dev_assistant/knowledge/code_index.py:107-125 | the text of a chunk splits into the lines from its start to its end, in their order; it has 60 lines, or ends with the file |
| CodeChunks.RunsAreCovered | src/ai_dev_assistant/knowledge/code_index.py:46-50 | any run of up to eleven lines that is not blank is whole in some chunk |
| CodeChunks.EveryLineIsCovered | src/ai_dev_assistant/knowledge/code_index.py:107-125 | every line that is not blank is in some chunk |
| CodeChunks.RefReadsBack | src/ai_dev_assistant/knowledge/code_index.py:291-300 | a reference reads back as its path and span, whatever the path |
| CodeIndexes.LikeOwn | src/ai_dev_assistant/memory/vector.py:55-62 | a prefix pattern matches everything that starts with the prefix, wildcards in it or not |
| CodeIndexes.LikePrefixIff | src/ai_dev_assistant/memory/vector.py:55-62 | without a percent sign in the prefix, exactly what begins with it matches, case aside and an underscore standing for any character |
| CodeIndexes.DeletedIs | src/ai_dev_assistant/memory/vector.py:55-62 | so deleting by such a path takes exactly the rows whose reference begins so |
| CodeIndexes.CodeIndex.IndexFile | src/ai_dev_assistant/knowledge/code_index.py:251-265 | the rows that the pattern of the path matches go and the rows of the chunks come; a consistent index stays so if and only if no row of another file is matched |
| CodeIndexes.IndexingKeepsIff | src/ai_dev_assistant/knowledge/code_index.py:251-265 | indexing a file leaves a consistent index if and only if its pattern matches no row of another file |
| CodeIndexes.PruningKeepsIff | src/ai_dev_assistant/knowledge/code_index.py:271-275 | so does pruning one |
| CodeIndexes.RowsHoldTheirLines | src/ai_dev_assistant/knowledge/code_index.py:251-300 | every reference in a consistent index reads back as lines of a recorded file, and its row has exactly those lines and the vector of their text |
| CodeIndexes.PlainPathsAreApart | src/ai_dev_assistant/memory/vector.py:55-62 | paths without underscore, percent sign and colon that differ in more than case do not clash |
| CodeIndexes.UnderscoreIsNotApart | src/ai_dev_assistant/memory/vector.py:55-62 | two paths that do, and a consistent index of the one from which indexing the other takes its row |
| CodeIndexes.CodeIndex.Prune | src/ai_dev_assistant/knowledge/code_index.py:271-275 | the file goes and the rows its pattern matches; a consistent index stays so if and only if those were its own |
| CodeIndexes.CodeIndex.IndexWorkspace | src/ai_dev_assistant/knowledge/code_index.py:198-241 | a complete pass records exactly the eligible files as they are on disk; a capped one does so for the files it came to and leaves the others; files and rows are those of the definition of a pass |
| CodeIndexes.PassKeepsIff | src/ai_dev_assistant/knowledge/code_index.py:198-241 | from a consistent index a pass leaves a consistent one if and only if no row it should leave is matched by the pattern of a file that is read again after its own, or of one that is pruned |
| CodeIndexes.ApartIsSafe | src/ai_dev_assistant/memory/vector.py:55-62 | which is so when no path's pattern matches a reference of another |
| CodeIndexes.PassEqualsRebuild | src/ai_dev_assistant/knowledge/code_index.py:198-241 | a complete pass over any consistent index equals building from nothing if and only if the same rows survive both, paths that clash included; where the rebuild loses none, if and only if the pass loses none |

## Left out

- Attempts: back-off delays and the gate before each dispatch are pauses at which other coroutines move; how long they last is not modelled.
- Confluence: the error texts of blocked subtasks depend on the order of the run and are erased before comparing; so are start and end times, kept only as "set".
- Scheduling: exceptions of hooks, agent providers and the verifier other than a budget error or cancellation are not modelled; the semaphore is a counter without wake-up order.
- SessionPool: the agent object inside a session is not modelled.
- Runs: `rollup_status`, `all_passed` and `status_counts` only compute from final states and would add easy members.
- Validation.Sanitize: the default acceptance criteria are not part of a subtask here.
- Replanning.Replanner.Replan: the repair's brief keeps the failure text but not its exact wording.
- Calendar: years are unbounded, so the overflow after the year 9999 is not modelled; daylight saving and time zones are not either, local time being a fixed shift of the clock.
- CronText: digits are ASCII digits; Python also accepts other decimal digits.
- ScheduleTable: rows are in order of creation and identifiers are given by the caller; title, budget and listing by project are left out.
- ScheduleTable.ScheduleStore.Update: which of several errors is reported is not stated, except for an unknown row.
- JsonOut: `repair_json` and `parse_model` rewrite text by regular expressions that can change string contents, so no round trip holds.
- Workspaces: `update_workspace` and the JSON file of the registry are left out; a registry is a value of the class.
- CrossRuns: projects removed between queueing and start, the queue itself and what a child run does with its upstream results are left out; the set of known projects is a parameter.
- Distills.SecondReportIs: when a merge names an empty id, what is then proposed is whatever a report of the graph left proposes, and is not characterized further.
- Identifiers: which characters are word characters, and the lower case of a text, are parameters with the properties Unicode has.
- GraphFiles: the type inferred from the shape of an id is a parameter; attributes beyond those named are text and never use a reserved name; numbers are whole.
- Networks: a layer is domain or run; other layer names, which the code would treat as domain in a report and skip when pruning, are left out.
- DistillReports.DistillReport: cosine similarity is a parameter, any real function of two labels; a failing embedder is none.
- DistillRuns.Distill: removing the old file and writing the new one are one value; file locks and statistics are left out.
- KnowledgeGraphs: neighbourhoods, text search and export views only read and are left out.
- CodeIndexes: that a path, time of change and size determine the content, and a text its vector, is built in as a parameter; corruption of the database, search ranking and the rendering of retrieved code are left out.
- CodeChunks.ChunkText: works on lines; splitting text into lines is Python's `splitlines`.
- Maintenance runs repeat the schedule check; git, subprocess, HTTP, mail, prompts and the command line have no state that is modelled.
