# Renovate operator: verified models of its decisions

The operator starts Renovate containers for scheduled projects, reads their logs, and watches its own
image for updates.  What it decides sits in a few stateful Go objects.  This project models those
objects in Dafny, in the form they have in Go (classes whose methods update their fields, loops with
invariants, pure functions where the Go code is pure), and proves what they are meant to guarantee.
`dafny verify dfyconfig.toml` checks everything.

| file | what it models |
|---|---|
| `ResilienceSpec.dfy` | the vocabulary of the resilience manager, read off complete histories of calls |
| `Resilience.dfy` | the class `Manager`: breaker over a trimmed window, back-off, bypass, replay set |
| `ResilienceTheorems.dfy` | what holds of every history a manager can have |
| `Dispatch.dfy` | the scheduler's gated pass over a list of projects |
| `Webhook.dfy` | the gate, queue and schedule part of the Forgejo webhook, with other callers in between |
| `StateStore.dfy` | the projects table, status updates and reconciliation |
| `Docker.dfy`, `DispatchOrder.dfy`, `Executor.dfy` | the container executor with dispatch, exit and reconcile as whole steps |
| `ExecutorTheorems.dfy` | what the exits of containers mean for breaker, back-off and store |
| `ExecutorInterleaving.dfy`, `CalmRuns.dfy` | the same executor between its locks: what any interleaving keeps, what it does not, and exactly when it does |
| `StderrWrapper.dfy` | the writer that re-frames a byte stream into JSON lines, in place |
| `LogMeaning.dfy` | what each message of a log means for its branch, read off the entry |
| `LogSpec.dfy`, `Activity.dfy`, `LogParser.dfy` | the log parser: a shared map of mutable details, counts, a sorted and capped list |
| `Semver.dfy`, `Reference.dfy`, `Challenge.dfy`, `Poller.dfy` | version tags, image references, bearer challenges, and the poller that uses them |
| `Wrappers.dfy`, `Sequences.dfy`, `Strings.dfy` | `Option`/`Result` and a few facts about sequences and string searches |

Conventions.  Instants and durations are whole nanoseconds (`int`); jitter draws are reals in [0, 1).
A clock reading, a jitter draw, a library result or a database failure is a parameter of the call that
meets it, so what is proved holds for all of them; clocks never run back.  Every manager method runs
under one mutex, so a sequential history of calls loses nothing; the ghost field `history` is that
sequence, and `Manager.Valid` says that every field is what the history says it should be.  Where Go
walks a map, the model picks the keys in an arbitrary order.  Go strings are byte strings, one `char` a
byte; `challenge` strings alone are read as characters.

## What the code does that its text does not say

- The comment at `internal/imageupdate/poller.go:23-28` says a status is ready once any tick has
  completed.  A tick that fails before the registry has answered leaves it as it was
  (`Poller.Poller.Tick` gives the exact condition).
- `README-development.md:149-150` orders candidates by priority and then by the longest wait.  The code
  sorts by priority alone (`internal/executor/docker.go:612-615`), with a sort that is not stable.  The two
  agree if and only if candidates of equal priority have equal waits (`WaitCountsExactlyIf`); otherwise a
  shorter wait can come out first (`TieCanGoWrong`).
- `Report` ignores the source and the duration it is given (`internal/resilience/resilience.go:235`),
  and `doDispatch` records every project it places as a cron dispatch (`internal/executor/docker.go:630`).
- Delays do not always grow with the number of failures.  They do, whatever the jitter, exactly when the
  range of one delay ends below the range of the next (`DelaysGrow`).  While doubling stays below the cap
  that fails only for a raw delay of 1 ns (`DelaysGrowBelowCap`); at the cap every further delay can be
  shorter than the one before (`DelaysCanFallAtCap`), so with the default settings too.
- `LatestDigest` may belong to an older tag than `LatestTag` when the registry does not answer for the
  new tag: `StaleDigest` is a run of two ticks, and `Poller.Poller.Tick` says for every tick that a digest
  that fitted still fits if and only if the tag is the same or the registry answered for the new one.
- Taken between the locks, the executor can keep a slot for a container that is gone
  (`ExitBeforeFill`) and report one container twice (`ReportedTwice`).  `CalmRuns` gives the exact
  condition under which neither can happen, and no live container can lose its slot, however the run goes
  on by such steps: an exit is taken up only of a stopped container that holds its slot and that no other
  handler works on, and a container is re-adopted only into a slot it holds already (`SafeExactlyIfCalm`,
  `RunsSafeExactlyIfCalm`).  A run with another step may still end well; it has a continuation that does not.

## Model

| member | source | states |
|---|---|---|
| ResilienceSpec.WithDefaults | internal/resilience/resilience.go:102-128 | every resolved setting is positive, and a setting that was positive stays as it is |
| ResilienceTheorems.Defaults | internal/resilience/resilience.go:102-128 | the settings of an empty configuration: 30 s, 30 s, 30 min, 5 min, 10 failures, 10000 webhooks |
| ResilienceTheorems.RawDelayDoubles | internal/resilience/resilience.go:266-274 | the raw delay is the base after one failure, and after each further one twice what it was, up to the maximum |
| ResilienceTheorems.FirstFailureWaits | internal/resilience/resilience.go:245-278 | after its first failure a project waits 0.8 to 1.2 times the configured base, capped |
| ResilienceTheorems.BackoffBounds | internal/resilience/resilience.go:266-278 | after n failures the delay lies in [0.8, 1.2) times min(base doubled n-1 times, max), up to the cut to whole nanoseconds |
| ResilienceTheorems.DelayInRange | internal/resilience/resilience.go:266-278 | every delay lies between four fifths of the raw delay, cut, and the last whole nanosecond below six fifths |
| ResilienceTheorems.RangeIsMet | internal/resilience/resilience.go:266-278 | both ends of that range are delays that some draw gives |
| ResilienceTheorems.DelaysGrow | internal/resilience/resilience.go:266-278 | for every n, each delay exceeds the one before whatever the two draws if and only if the range of the one ends below the range of the other |
| ResilienceTheorems.DelaysGrowBelowCap | internal/resilience/resilience.go:266-278 | below the cap that is so if and only if the smaller raw delay is at least 2 ns |
| ResilienceTheorems.DelaysCanFallAtCap | internal/resilience/resilience.go:272-274 | at the cap there are draws for which the next delay is shorter |
| ResilienceTheorems.FailuresAreTrailingRun | internal/resilience/resilience.go:245-260 | the failure count is the length of the maximal run of failures at the end of the project's outcomes |
| ResilienceTheorems.LastReportWasEarlier | internal/resilience/resilience.go:235-243 | in every possible history the project's last report has the latest outcome, an admissible draw and a time not after the clock |
| ResilienceTheorems.RemainingBounded | internal/resilience/resilience.go:357-361 | in every possible history a project waits less than 1.2 times the maximum, and only after a failure |
| ResilienceTheorems.RetryAfterIsExact | internal/resilience/resilience.go:337-366 | whatever happens after the denied question, short of a reset and of a report or mark for the project: asked again, an open breaker denies, and otherwise back-off denies exactly before now + retryAfter, with the remaining time as its answer, and allows from then on |
| ResilienceTheorems.BackoffKept | internal/resilience/resilience.go:235-261 | such calls leave the project's next allowed time and its unarmed bypass alone |
| Resilience.DropIsWindow | internal/resilience/resilience.go:293-302 | trimming a sorted, already trimmed list leaves exactly the times at or after the cutoff, a suffix of all there ever were |
| Resilience.RapidTimesSorted | internal/resilience/resilience.go:249-253 | the rapid failures of any possible history are in order and not in the future |
| Resilience.BurstStep | internal/resilience/resilience.go:305-319 | one more rapid failure makes a burst only where it completes one |
| Resilience.WindowDecides | internal/resilience/resilience.go:249-319 | counting the trimmed window decides whether the untrimmed history has its first burst, and the count is then the threshold exactly |
| Resilience.WindowCounts | internal/resilience/resilience.go:323-328 | the trimmed window has as many times as the whole history has at or after the cutoff |
| Resilience.CountSinceIs | internal/resilience/resilience.go:323-328 | that number is how many times are at or after the cutoff, both bounds of the window included |
| Resilience.BreakerRapid | internal/resilience/resilience.go:249-319 | what a rapid failure does to burst, open-since and last-tripped times |
| Resilience.BreakerKept | internal/resilience/resilience.go:235-380 | every call but a rapid failure and a reset leaves the breaker and the window's meaning as they are |
| Resilience.ReportedRecord | internal/resilience/resilience.go:235-261 | what a report makes of the project's record, success and failure, in terms of its history |
| Resilience.FreshlyReset | internal/resilience/resilience.go:394-436 | the fields a reset leaves are those of the history behind it |
| Resilience.RapidStep | internal/resilience/resilience.go:249-319 | appending, trimming and tripping at the threshold make of window and breaker what the longer history says |
| Resilience.Manager.constructor | internal/resilience/resilience.go:169-180 | a new manager has an empty history and resolved settings |
| Resilience.Manager.TrimWindow | internal/resilience/resilience.go:293-302 | in place, drops the leading times before the cutoff and no others |
| Resilience.Manager.MaybeTrip | internal/resilience/resilience.go:305-319 | trips a closed breaker at the threshold and touches nothing otherwise |
| Resilience.Manager.Report | internal/resilience/resilience.go:235-261 | every field stays what the history with this report says |
| Resilience.Manager.FeedWindow | internal/resilience/resilience.go:249-253 | append, trim and maybe-trip keep window and breaker in agreement with the untrimmed history |
| Resilience.Manager.AllowDispatch | internal/resilience/resilience.go:337-366 | the answer is the history's verdict: bypass, breaker, back-off or allowed; the flag is used up and an allowed project leaves the replay set |
| Resilience.Manager.MarkManual | internal/resilience/resilience.go:371-376 | arms the bypass and changes nothing else the history shows |
| Resilience.Manager.EnqueueWebhookReplay | internal/resilience/resilience.go:380-391 | accepted if and only if the project is pending already or the set is below its cap |
| Resilience.Manager.Reset | internal/resilience/resilience.go:394-436 | returns the pending projects once each, the previous state and the number of failing projects, and closes the breaker |
| Resilience.Manager.TakeSnapshot | internal/resilience/resilience.go:439-469 | shows state, stamps, counts and project records as the untrimmed history has them |
| Resilience.Manager.CountBackoffs | internal/resilience/resilience.go:403-408 | counts exactly the projects with failures |
| Resilience.Manager.DrainReplay | internal/resilience/resilience.go:398-401 | the pending projects without repeats, in some order |
| ResilienceTheorems.OnlyResetCloses | internal/resilience/resilience.go:305-319 | an open breaker is open after any further calls among which no reset is |
| ResilienceTheorems.OpensOnlyOnRapidFailure | internal/resilience/resilience.go:249-319 | what opens the breaker is a rapid failure at the end of a burst within the window, bound included |
| ResilienceTheorems.MeaningDecides | internal/resilience/resilience.go:337-436 | rapid times, outcomes, last reports, armed flags and the pending set decide every later answer |
| ResilienceTheorems.ResetForgets | internal/resilience/resilience.go:394-436 | a history with a reset in it means what the calls after the reset mean alone |
| ResilienceTheorems.AnswersAfterReset | internal/resilience/resilience.go:394-436 | after a reset every dispatch, enqueue and reset answer is that of a new manager given the later calls |
| ResilienceTheorems.PossibleAfterReset | internal/resilience/resilience.go:394-436 | calls and answers can follow a reset if and only if a new manager can have them with clock readings from the reset on |
| ResilienceTheorems.SnapshotAfterReset | internal/resilience/resilience.go:439-469 | and so is every field of a snapshot but two: lastReset and lastTripped are the new manager's where it has them, else the reset's time and the stamp from before the reset |
| ResilienceTheorems.StampsAfterReset | internal/resilience/resilience.go:394-436 | the records after a reset are those touched since, and the two stamps outlast it |
| ResilienceTheorems.ThinningIsInvisible | internal/resilience/resilience.go:337-366 | leaving out any of the snapshots and denied dispatches gives a possible history with the same meaning |
| ResilienceTheorems.ThinningKeepsStamps | internal/resilience/resilience.go:282-302 | and the same rapid failures, trip times and reset time |
| ResilienceTheorems.ErasureIsInvisible | internal/resilience/resilience.go:337-366 | in particular all of them can go at once, with no answer changed |
| ResilienceTheorems.AnswersWithoutTraceless | internal/resilience/resilience.go:282-302 | so no later answer and no breaker field depends on any of them, though they trim the window and create records |
| ResilienceTheorems.ArmedByMark | internal/resilience/resilience.go:344-376 | an armed flag comes from a MarkManual after the last question about the project |
| ResilienceTheorems.MarkBetweenBypasses | internal/resilience/resilience.go:344-376 | between two bypass grants for a project lies a MarkManual for it |
| ResilienceTheorems.MarkBuysOneGrant | internal/resilience/resilience.go:344-376 | a mark gets the project's next question through whatever breaker and back-off say, and is used up by it |
| ResilienceTheorems.TouchedExactly | internal/resilience/resilience.go:282-290 | there are records of exactly the projects reported, asked about or marked since the last reset |
| ResilienceTheorems.PendingLeavesBy | internal/resilience/resilience.go:344-426 | what leaves the replay set leaves by an allowed dispatch of its project or by a reset |
| ResilienceTheorems.PendingBounded | internal/resilience/resilience.go:380-391 | the set never exceeds its cap, and a refusal means it is full without the project |
| Dispatch.Dispatcher.DispatchProjects | internal/scheduler/dispatch.go:55-85 | asks the real gate once for each list entry in order, calls back for exactly the granted ones, counts all calls and keeps the first error |
| Dispatch.FirstErrorIsFirst | internal/scheduler/dispatch.go:55-85 | an error is returned if and only if a call fails, and it is the first failing call's |
| Dispatch.Dispatcher.Ask | internal/scheduler/dispatch.go:59-68 | one gate check extends the pass by the verdict on the history so far |
| Dispatch.OpenPassState | internal/scheduler/dispatch.go:55-85 | with the breaker open, a pass keeps it open and disarms exactly the projects it has asked about |
| Dispatch.OpenBreakerPass | internal/scheduler/dispatch.go:55-85 | with the breaker open and a source that is not manual, the calls are each armed listed project once and no other, whatever repeats the list has |
| Webhook.RunOps | internal/resilience/resilience.go:235-469 | any calls of other goroutines keep the manager valid and only extend its history |
| Webhook.Handler.HandleForgejo | internal/webhook/forgejo.go:156-203 | under any calls in between, a 202 means scheduled in the store or pending, 503 means full without the project, and the gate's verdict chooses between the two |
| Webhook.Handler.Enqueue | internal/webhook/forgejo.go:159-180 | 202 leaves the project pending, 503 means the set is exactly full |
| Webhook.QueuedUntilTakenOut | internal/resilience/resilience.go:344-426 | whatever comes later, a queued webhook is pending until an allowed dispatch of its project or a reset |
| StateStore.SQLiteStore.UpdateProjectStatus | internal/statestore/sqlite.go:291-328 | replaces status, time and details of an existing row, keeps its priority, and reports a missing one |
| StateStore.SQLiteStore.ExistingNames | internal/statestore/sqlite.go:411-426 | the names of the job's rows, no more and no fewer |
| StateStore.SQLiteStore.FindRemoved | internal/statestore/sqlite.go:433-439 | the existing names that are not discovered, each once |
| StateStore.SQLiteStore.FindInserts | internal/statestore/sqlite.go:440-446 | the discovered names that do not exist, repeats and all |
| StateStore.SQLiteStore.ReconcileProjects | internal/statestore/sqlite.go:410-488 | all or nothing: on success the target table and the removed names without repeats, on any failure the old table; without a database fault it fails if and only if a new name is listed twice |
| StateStore.InsertAll | internal/statestore/sqlite.go:467-482 | the inserts fail on the unique key exactly when the list repeats |
| StateStore.InsertStep | internal/statestore/migrations.go:57-57 | the unique key stops the next insert if and only if its name has been inserted before |
| StateStore.FreshIsNew | internal/statestore/sqlite.go:440-446 | the insert list repeats a name if and only if the discovered list repeats a name that is new |
| StateStore.TargetNames | internal/statestore/sqlite.go:410-488 | the target has exactly the discovered names, keeps surviving rows and other jobs as they are, and has new projects scheduled |
| StateStore.TargetIsStable | internal/statestore/sqlite.go:410-488 | reconciling again with the same names, at any later time, changes and removes nothing |
| StateStore.ReachesTarget | internal/statestore/sqlite.go:448-482 | deletes and inserts together reach the target |
| DispatchOrder.SortByPriority | internal/executor/docker.go:612-615 | a permutation with priorities descending |
| DispatchOrder.NextInTurn | internal/executor/docker.go:612-642 | when the sorted candidates before it are settled, everything of higher priority and of earlier jobs is |
| DispatchOrder.AddedMore | internal/executor/docker.go:617-641 | placing a project whose turn it is leaves every earlier placement in its turn |
| DispatchOrder.TieCanGoWrong | internal/executor/docker.go:612-615 | with a tie in priority between unequal waits, some outcome of the sort serves the shorter wait first |
| DispatchOrder.WaitCountsExactlyIf | README-development.md:149-150 | every outcome of the sort is in the documented order if and only if equal priorities have equal waits |
| Executor.OneContainerEach | internal/executor/docker.go:624-631 | a project never has two executor containers while all of them are tracked |
| Executor.DockerExecutor.DispatchProject | internal/executor/docker.go:649-709 | a started container fills the slot and marks the row running; a container that does not start leaves nothing behind |
| Executor.DockerExecutor.TryProject | internal/executor/docker.go:622-641 | skips a project that runs, otherwise reserves and fills its slot, or releases it again |
| Executor.DockerExecutor.DoDispatch | internal/executor/docker.go:587-646 | only adds slots, each with its own live container, never beyond the limit and only to a project whose turn it was; while slots are free every scheduled project runs or failed to start |
| Executor.DockerExecutor.FindProject | internal/executor/docker.go:789-797 | a project whose slot holds the container, if any does |
| Executor.DockerExecutor.HandleContainerExit | internal/executor/docker.go:787-918 | whatever the map holds: frees the slot that holds the container or the one its label names, reports and removes the container once |
| Executor.DockerExecutor.RecordExit | internal/executor/docker.go:846-906 | one report to the breaker with the classified outcome, one final status with the parsed details |
| ExecutorTheorems.ExitFeedsBreaker | internal/executor/docker.go:776-865 | a failure within the minimum runtime adds its time to the breaker's window and no other exit does; a success ends the run of failures and any failure makes it one longer |
| ExecutorTheorems.ExitIsRecorded | internal/executor/docker.go:846-906 | the row becomes Completed or Failed by the exit code, keeps its priority, and no other row changes |
| ExecutorTheorems.StartIsRecorded | internal/executor/docker.go:698-704 | the row of a started run is Running, without the last run's details, and no other row changes |
| ExecutorTheorems.CrashedSoonAfterStart | internal/executor/docker.go:649-709 | for a dispatched container "early" counts from its dispatch |
| ExecutorTheorems.CrashLoopTrips | internal/executor/docker.go:776-865 | early crashes, as many as the threshold within the window and no reset among them, open the breaker until a reset, whatever is reported in between |
| ExecutorTheorems.CrashingRunTrips | internal/executor/docker.go:787-918 | the same for the exits a run of the executor has reported |
| Executor.ExitKeepsOrder | internal/executor/docker.go:787-918 | with every container tracked, an exit reports under the container's own project, frees only its slot, and does so for the first time; any other exit changes nothing |
| Executor.DockerExecutor.OnDieEvent | internal/executor/docker.go:745-763 | a die event that is late, repeated or about a stranger is harmless |
| Executor.DockerExecutor.TrackedContainers | internal/executor/docker.go:950-955 | inverts the running map |
| Executor.DockerExecutor.ReconcileOne | internal/executor/docker.go:957-1022 | per listed container: a missed exit is processed, an overdue orphan killed, any other live orphan re-adopted whatever the limit |
| Executor.DockerExecutor.ReconcileOrphans | internal/executor/docker.go:941-1025 | after a tick every slot points at a live container, and exactly the stopped ones have been reported and removed, though every die event may have been lost |
| Executor.SweepStep | internal/executor/docker.go:957-971 | one turn of the reconcile loop settles one more listed container |
| Executor.SweptAll | internal/executor/docker.go:941-1025 | the whole loop leaves no stopped executor container and no slot without a live one |
| Executor.PlacedIsTracked | internal/executor/docker.go:691-692 | filling a free slot keeps containers and slots in one-to-one order |
| Executor.RemovedIsTracked | internal/executor/docker.go:908-917 | so does freeing a slot together with its container |
| Executor.DockerExecutor.Run | internal/executor/docker.go:567-585 | any sequence of passes, ticks, stops and die events (lost, late, repeated) keeps the limit and the one-to-one order; the breaker is told of exactly the reported exits, one event each and in order, no container twice and each while it held its project's slot |
| Executor.ToldOn | internal/executor/docker.go:846-865 | what the breaker is told over two stretches of a run is what it is told over both |
| ExecutorInterleaving.StepKeepsBound | internal/executor/docker.go:587-646 | every lock-level step of every thread keeps the loop's stale count a bound on the slots it placed |
| ExecutorInterleaving.SlotsAreBounded | internal/executor/docker.go:587-646 | in every interleaving the placed slots never exceed parallelism, nor the map parallelism plus re-adopted slots |
| ExecutorInterleaving.SlotsAreBoundedFromStart | internal/executor/docker.go:991-996 | the same for every run from an empty executor |
| ExecutorInterleaving.ExitBeforeFill | internal/executor/docker.go:684-692 | a run that leaves a slot whose container is gone |
| ExecutorInterleaving.ReportedTwice | internal/executor/docker.go:787-865 | a run in which a die event and a tick, both with the container inspected, report it twice |
| ExecutorInterleaving.DeadSlotStays | internal/executor/docker.go:622-631 | over any run a dead slot stays dead and blocks its project, until an exit handler or an adoption writes the slot |
| CalmRuns.StepKeepsOrder | internal/executor/docker.go:787-918 | every calm lock-level step keeps slots, containers, handlers and reports in order |
| CalmRuns.OrderGuarantees | internal/executor/docker.go:684-692 | in such order live containers hold or are about to fill their own slot, one each, no slot is dead and no report repeats |
| CalmRuns.CalmRunsAreSafe | internal/executor/docker.go:587-918 | every state a calm run reaches has these guarantees |
| CalmRuns.CalmRunsFromStart | internal/executor/docker.go:587-918 | from an empty executor, any calm run has them |
| CalmRuns.RashExit | internal/executor/docker.go:787-918 | an exit taken up early, twice or of a live container leads on to a dead slot, a second report or a live container without its slot |
| CalmRuns.RashAdoption | internal/executor/docker.go:941-996 | re-adopting a container that does not hold its project's slot leads on to a dead slot |
| CalmRuns.SafeExactlyIfCalm | internal/executor/docker.go:787-996 | from a state in order, every calm continuation of a step keeps the guarantees if and only if the step is calm |
| CalmRuns.RunsSafeExactlyIfCalm | internal/executor/docker.go:587-1025 | a run passes through safe states only if and only if all its steps are calm |
| CalmRuns.RunsFromStartSafeExactlyIfCalm | internal/executor/docker.go:587-1025 | the same for every run from an empty executor |
| StderrWrapper.LinesRebuild | internal/executor/docker.go:1269-1280 | no byte is lost: the lines with their newlines and the rest are the stream |
| StderrWrapper.LinesAreUnique | internal/executor/docker.go:1269-1280 | and they are the only such lines and rest |
| StderrWrapper.LinesAppend | internal/executor/docker.go:1269-1280 | a stream cut anywhere has the lines of its first part and then those of leftover plus second part |
| StderrWrapper.ChunkingIsInvisible | internal/executor/docker.go:1269-1303 | any way of cutting a stream into writes gives the records and the leftover of one write |
| StderrWrapper.RecordsAreJson | internal/executor/docker.go:1284-1300 | if wrapping gives JSON, every record is a line of valid JSON, whatever the lines are |
| StderrWrapper.RecordsOfContents | internal/executor/docker.go:1279-1300 | each line that is not blank has one record: itself, trimmed, if it is valid JSON, and otherwise what wrapping makes of it |
| StderrWrapper.JsonPassesThrough | internal/executor/docker.go:1284-1288 | a stream of JSON and blank lines comes out as its trimmed lines, each with one newline |
| StderrWrapper.StderrJsonWrapper.Append | internal/executor/docker.go:1270-1270 | appends in place or in a new array, never losing a pending byte |
| StderrWrapper.StderrJsonWrapper.TerminateInPlace | internal/executor/docker.go:1285-1287 | the newline appended to a trimmed line lands on a byte already read: the pending bytes are untouched |
| StderrWrapper.StderrJsonWrapper.EmitLine | internal/executor/docker.go:1282-1300 | writes the line's record, or nothing for a blank one, without touching pending bytes |
| StderrWrapper.StderrJsonWrapper.Write | internal/executor/docker.go:1269-1303 | writes exactly the records of the complete lines and keeps exactly the bytes after the last newline; after a failed write, exactly the records before it; all of it lines of valid JSON if wrapping gives JSON |
| StderrWrapper.StderrJsonWrapper.WriteAll | internal/executor/docker.go:1269-1303 | any number of writes gives the records of the concatenation |
| LogSpec.BranchesAreIndependent | internal/parser/logparser.go:163-181 | the shared table is one independent fold for each branch, and each detail carries its key |
| LogSpec.OnlyOwnChangesCount | internal/parser/logparser.go:226-341 | a branch ends up as its own changes alone make it |
| LogMeaning.LastWord | internal/parser/logparser.go:163-181 | the last entry that names a branch has the last word on it, on top of what was known before |
| LogMeaning.Creating | internal/parser/logparser.go:226-233 | "Creating PR" leaves its branch Created with the title, and its number as it was |
| LogMeaning.Updating | internal/parser/logparser.go:236-243 | "Updating PR" leaves its branch Updated with the title, and its number as it was |
| LogMeaning.DoesNotNeedUpdating | internal/parser/logparser.go:246-261 | "does not need updating" anywhere in a message leaves the branch Unchanged with the number named, and its title as it was |
| LogMeaning.NoNumberSaysNothing | internal/parser/logparser.go:247-254 | without a number it changes nothing |
| LogMeaning.GitPushed | internal/parser/logparser.go:264-278 | "git push" sets the number from the first remote message with a URL, if it can be read, and nothing else |
| LogMeaning.PullRequestCreated | internal/parser/logparser.go:281-290 | "PR created" sets the number and a missing title, and no action |
| LogMeaning.PullRequestAutomerged | internal/parser/logparser.go:293-305 | "PR automerged" leaves the branch Automerged, and sets a positive number and a missing title |
| LogMeaning.Summarized | internal/parser/logparser.go:308-341 | a summary item gives a known branch a missing title; it adds an unknown one if its result says it was worked on, waiting for approval or unchanged |
| LogMeaning.SummarizedOthers | internal/parser/logparser.go:308-341 | a summary without the branch changes nothing about it |
| LogMeaning.SaysNothing | internal/parser/logparser.go:163-305 | other messages, lines that do not decode, and lines without a branch or without what their message needs change nothing |
| LogMeaning.FinishedMeans | internal/parser/logparser.go:199-223 | the last "Repository finished" that decodes gives the status, by its result or else its status field |
| LogMeaning.ShortenMeans | internal/parser/logparser.go:143-148 | up to 256 bytes stay, longer messages keep their first 256 |
| LogMeaning.NotableMeans | internal/parser/logparser.go:136-149 | an issue is worth noting at level 40 or more with a message |
| LogMeaning.AtLeastCounts | internal/parser/logparser.go:137-142 | the counters count entries at or above their level |
| LogSpec.SwapMessages | internal/parser/logparser.go:163-181 | adjacent messages about different branches can change places anywhere in a log |
| LogSpec.SwapItems | internal/parser/logparser.go:308-341 | so can adjacent items of one branches summary |
| LogParser.SwapKeepsActivity | internal/parser/logparser.go:354-405 | and the parsed activity stays the same to the last field |
| LogSpec.IssuesAreFirstMentions | internal/parser/logparser.go:136-160 | each issue stands for the first entry with its shortened message, with that entry's level, in log order |
| LogSpec.MentionedIsIssue | internal/parser/logparser.go:149-150 | a non-empty message at level 40 or more is among the distinct issues, and nothing else is |
| LogParser.CollectIssue | internal/parser/logparser.go:136-160 | keeps the first 20 distinct messages, says whether there were more, and counts warnings and errors |
| LogParser.BranchMap.GetOrCreateDetail | internal/parser/logparser.go:344-351 | returns the branch's own detail object, a new one if there is none, and changes no other branch |
| LogParser.BranchMap.Store | internal/parser/logparser.go:226-304 | writing through one detail pointer shows in its own branch only |
| LogParser.BranchMap.Amend | internal/parser/logparser.go:226-304 | a pointer handler makes its change to the branch's entry of the table |
| LogParser.BranchMap.HandleGitPush | internal/parser/logparser.go:264-278 | takes the number of the first remote message with a URL, if it has one |
| LogParser.BranchMap.HandleBranchesInfoExtended | internal/parser/logparser.go:308-341 | fills in missing titles and adds active branches, item by item |
| LogParser.BranchMap.Dispatch | internal/parser/logparser.go:163-181 | an entry changes the table by its steps |
| LogParser.ApplyDefaults | internal/parser/logparser.go:358-363 | in any order: branches with a number and no action count as updated |
| LogParser.CountActions | internal/parser/logparser.go:365-379 | in any order: the five counts are the numbers of branches with each action |
| LogParser.BuildPRActivity | internal/parser/logparser.go:354-405 | the counts of all branches, and the first 100 of the one listing ordered by rank and branch |
| Activity.SortDetails | internal/parser/logparser.go:381-397 | an ordered list of the same details |
| Activity.OrderDetermines | internal/parser/logparser.go:390-396 | two ordered lists of the same details are equal |
| Activity.ListingIsUnique | internal/parser/logparser.go:381-397 | a table has one ordered listing, however its map is walked |
| Activity.CountsAddUp | internal/parser/logparser.go:358-379 | the five counts sum to all branches but those without an action and a positive number |
| Activity.CountsMean | internal/parser/logparser.go:358-379 | each count is the number of branches with its action, and updated counts those with a number and no action too |
| Activity.RankOrder | internal/parser/logparser.go:97-103 | automerged before created before updated before waiting for approval before unchanged, and by branch within each |
| Activity.LessStringIs | internal/parser/logparser.go:395-395 | branches are ordered by their first difference, and a prefix comes first |
| Activity.ActivityIsUnique | internal/parser/logparser.go:354-405 | a table has exactly one activity |
| LogParser.ScanAll | internal/parser/logparser.go:106-182 | the scan has the table, the status, the issues and the counts of the whole log |
| LogParser.ParseRenovateLogs | internal/parser/logparser.go:106-196 | has issues if and only if an entry is at level 40 or more; the last decodable result decides the status; the activity and the issues are those of the log, listed up to 100 and 20 and marked as cut exactly beyond |
| Semver.SpelledIsRead | internal/imageupdate/registry.go:358-409 | three numbers in range and any suffix that starts with neither digit nor dot are read back exactly |
| Semver.PrintedIsRead | internal/imageupdate/registry.go:358-409 | any three numbers up to the largest 64-bit integer are recovered from the tag they are printed in, with the suffix |
| Semver.OrderIsNumeric | internal/imageupdate/registry.go:338-342 | a greater major beats any minor, a greater minor any patch, and equal triples are not ordered |
| Semver.VersionIsUnique | internal/imageupdate/registry.go:358-409 | no tag can be read in two ways |
| Semver.ScannedVersion | internal/imageupdate/registry.go:358-409 | the scan over digits and at most two dots finds the version if there is one |
| Semver.ParseSemverPrefix | internal/imageupdate/registry.go:358-409 | the version the tag is spelled with, and none for every other shape |
| Semver.FirstGreatestIsUnique | internal/imageupdate/registry.go:326-351 | there is at most one first greatest tag |
| Semver.LatestSemverTag | internal/imageupdate/registry.go:326-351 | the first listed tag with the greatest version of the family (item 11 of Semantic Versioning 2.0.0), none if and only if the family has no tag |
| Semver.LatestMeans | internal/imageupdate/registry.go:326-351 | no tag of the family is newer, and every one listed earlier is older |
| Reference.ParseIsCanonical | internal/imageupdate/ref.go:57-125 | every result has a host, a repository, a tag or a digest, and none of the separators out of place |
| Reference.PrintParses | internal/imageupdate/ref.go:57-125 | printing a canonical reference and parsing it gives the same four fields |
| Reference.ParseIsRetraction | internal/imageupdate/ref.go:57-125 | for every input string, printing the result and parsing again changes nothing |
| Reference.ParseRange | internal/imageupdate/ref.go:57-125 | a reference is a result of parsing if and only if it is canonical |
| Reference.HostlessIsOnHub | internal/imageupdate/ref.go:73-86 | a reference without a host parses as the same one behind index.docker.io/ |
| Reference.HostIsKept | internal/imageupdate/ref.go:73-82 | a first segment with a dot or colon, or localhost, is the registry |
| Reference.BareNameIsOfficial | internal/imageupdate/ref.go:107-117 | a bare name is library/name with tag latest, and behind a digest without a tag |
| Reference.TaggedName | internal/imageupdate/ref.go:92-105 | a bare name with a tag keeps it, with a digest and without |
| Challenge.SplitOutsideQuotes | internal/imageupdate/auth.go:197-214 | the pieces join to the input, none has a separator outside quotes, and none but the last leaves quotes open |
| Challenge.SplitIsUnique | internal/imageupdate/auth.go:197-214 | there is only one such list of pieces |
| Challenge.ParseChallenge | internal/imageupdate/auth.go:158-191 | the parameters of the unique split, an error without any or without a realm |
| Challenge.TextIsRead | internal/imageupdate/auth.go:173-187 | a printed parameter is read back, whatever white space stands before it |
| Challenge.ValuesAreRead | internal/imageupdate/auth.go:173-187 | keys are read in lower case, quotes around a value are taken off, and an unquoted value is read as it stands |
| Challenge.BareTokenIsIgnored | internal/imageupdate/auth.go:177-181 | a field without an equals sign is no parameter |
| Challenge.LowerIs | internal/imageupdate/auth.go:187-187 | of the ASCII letters exactly the capitals are lowered, each to its own small letter |
| Challenge.ChallengeIsRecovered | internal/imageupdate/auth.go:158-191 | a printed challenge with a realm is recovered, with or without the scheme (section 11.6.1 of RFC 9110, section 3 of RFC 6750) |
| Challenge.NoRealmIsMissed | internal/imageupdate/auth.go:188-190 | a printed challenge without a realm is an error |
| Challenge.BlankIsEmpty | internal/imageupdate/auth.go:164-166 | so is a blank one |
| Challenge.AsMapIsExact | internal/imageupdate/auth.go:158-191 | with distinct keys the recovered map holds exactly the printed pairs |
| Poller.Poller.constructor | internal/imageupdate/poller.go:98-125 | starts unready, with the parsed reference, or with empty fields when it does not parse |
| Poller.Poller.MarkDisabled | internal/imageupdate/poller.go:140-151 | ready, disabled, and without data |
| Poller.Poller.Tick | internal/imageupdate/poller.go:158-234 | an update is available if and only if there is a latest tag or both digests are known and differ, read off the answers when there is no tag; the latest tag is a strict upgrade in the configured family; ready never reverts and the latest tag is never lost; a total failure changes only error and time; the latest digest goes on fitting the latest tag if and only if the tag is the same or the registry answered for the new one |
| Poller.StaleDigest | internal/imageupdate/poller.go:193-215 | two ticks after which the latest digest is an older tag's |
| Poller.TickOn | internal/imageupdate/poller.go:193-215 | a tick that lists one upgrade takes it over, and its digest when the registry gives it |
| Poller.Poller.Observe | internal/imageupdate/poller.go:172-233 | the digests, tag, error and time after a tick that the registry has answered, complete or partial |
| Poller.Poller.CheckTags | internal/imageupdate/poller.go:193-215 | takes over the newest tag of the family if and only if it is an upgrade |
| Poller.Poller.RecordTotalFailure | internal/imageupdate/poller.go:239-258 | only the error and the time change |
| Poller.Poller.RecordPartialSuccess | internal/imageupdate/poller.go:263-293 | carries the known latest tag over and recomputes whether an update is available |
| Poller.TruncateError | internal/imageupdate/poller.go:299-311 | the first line, cut at 120 bytes with an ellipsis |
| Poller.TruncatedIs | internal/imageupdate/poller.go:299-311 | up to 120 bytes of the first line stay, of longer ones the first 120 and an ellipsis |
| Poller.FirstLineIs | internal/imageupdate/poller.go:301-306 | the first line is what stands before the first newline, or everything |

## Left out

- Executor.DockerExecutor.Run: takes inspections, removals, kills and lists of the daemon to succeed, as its guarantee needs; a list that fails makes a tick do nothing. ReconcileOne has re-adoption and killing, which tracked containers never meet.
- Executor.DockerExecutor.HandleContainerExit: log collection and log storage are the parameter `details`; an inspection that fails is a container that is gone.
- CalmRuns.SafeExactlyIfCalm: takes inspections to fail only for containers that are gone, and die events to name a container; an inspection that fails otherwise frees the slot of a container that stays, which the slot bound allows for.
- ExecutorInterleaving.SlotsAreBounded: the steps between locks are slots, containers, exits, reports and list comparisons; store writes and manager calls change none of these and are not steps.
- Executor.DockerExecutor.DoDispatch: the order among equal priorities is arbitrary, since the sort is not stable; a job whose query fails is a job with nothing scheduled.
- Executor.DockerExecutor.TryProject: keeps the `sources` map as the program does but states nothing about it; its one reader hands the source to `Report`, which ignores it.
- ResilienceTheorems.BackoffBounds: uses reals; float64 rounding, overflow to infinity (which the cap absorbs) and 64-bit overflow of durations are not modelled.
- StderrWrapper.StderrJsonWrapper.Write: the time stamp put into a wrapped line is part of the uninterpreted record function, so it does not vary between writes; so are trimming, JSON validation and JSON printing.
- Challenge.ParseChallenge: lower-casing and case-insensitive comparison cover ASCII letters only.
- Webhook.Handler.HandleForgejo: starts behind authentication, event filtering and job resolution, and assumes a manager is set; delivery after Scheduled is not claimed, since an exit of the same project overwrites the status.
- Dispatch.Dispatcher.DispatchProjects: the gate is the real manager and no other caller runs during the pass; a dispatcher without a gate and the metrics calls are left out.
- LogParser.ParseRenovateLogs: starts from decoded entries; JSON decoding, the URL and number patterns and the 1 MB limit on a line are inputs of the entry.
- Resilience.Manager: per-project records are map values, where the program keeps pointers under the same mutex; reason texts and log lines are left out.
- StateStore.SQLiteStore.ReconcileProjects: no other writer runs during the transaction; SQL errors are faults chosen by the caller.
- Poller.Poller.Tick: registry and daemon answers are parameters; HTTP, tokens and paging are not part of this model.
- Discovery containers, Stop and restart of the operator, the HTTP server, configuration, metrics, migrations and the user interface carry none of these properties.
