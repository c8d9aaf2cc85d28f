# TaskOwl event store: a verified model

TaskOwl keeps three growing tables: task events, worker events and automation
runs. The automation engine reads the run log, decides fire or skip, and appends
to that same log; a retention job deletes old rows under the readers' feet; queries
rebuild task and worker state from what is left; and an at-least-once broker feeds
it all. This project models that core and proves what holds over whole runs.

`dafny verify dfyconfig.toml` checks everything.

| module | models |
|---|---|
| `Rows`, `Values`, `Events`, `Latest` | tables as row sequences, JSON values, the event rows, selection and window ranking |
| `Retention`, `Overlap`, `Maintenance` | the batch delete loop, overlapping prunes, one retention pass |
| `Workflow`, `Invisible`, `RunLimits`, `Schedules`, `EngineRuns` | the automation engine, pruning under it, its limits over runs |
| `FireTimes`, `BreakerReach`, `ShortRetention`, `SteadyRetention` | how fast limits let an automation fire, and what follows exactly for breakers and retention |
| `Overtaking`, `Interleaving`, `Crowding` | evaluations that overlap, how far the limits then give and when they can |
| `Definitions`, `Aborted`, `RaisingConditions`, `Status` | what is accepted, passes that a raising automation aborts, the circuit state shown |
| `Alerts`, `Sweeps`, `Conditions`, `Interpolation` | offline alerts, checks that overlap, conditions, `{event.field}` references |
| `Orphans`, `Queries`, `Chain`, `Retries` | worker verdicts and orphans, listings and counts, retry families |
| `Ingest`, `Handlers`, `Feeds`, `Redelivery`, `Columns`, `ChainNodes` | idempotent insert, dedupe keys, whole feeds, what they leave in every column |

## Conventions

- Times are integer microseconds; settings stay in seconds and days as in the source.
- Queries that order by timestamp alone leave ties open. Their answers come in as
  arguments constrained by a predicate (`IsNewest`, `IsTimeline`, `IsRootAnswer`,
  `IsFamilyOrder`), and the lemmas hold for every answer.
- A run of the engine is a sequence of atomic steps. Each step brings its own clock,
  the database's `created_at` stamp (which may lag the clock), whether the
  conditions held, and what the actions reported; the theorems hold for all of them.
- Retention of zero days keeps everything, so "never pruned" is the same run with
  retention 0.
- `Punctual` runs have `created_at` equal to the engine's clock; the exact results on
  breakers and retention are about those. The limits themselves hold under a lag.
- SHA-256 is taken to be injective; UUID and ISO renderings to be injective and
  free of the separator (`Handlers.Faithful`).

## What the proofs found

- A run retention shorter than a limit can change decisions: the settings are not
  checked against each other. Automations can be edited, and over runs with edits
  the exact condition is `ShortRetention.LongEnough`; for settings that never change it is
  `SteadyRetention.Noticeable`, which is weaker, since an automation's own limits may keep a
  log from reaching as far back as a window.
- The documented worked example (docs/usage/automations.md:132-147) sets a breaker
  that can never trip. `BreakerReach` gives the exact condition for one that can.
- Neither the conditions nor the breaker of an automation are looked into when it is created. One that raises
  rolls back the run rows of the whole pass, though earlier automations of the pass have dispatched.
  `RaisingConditions` says exactly for which stored definitions and events that leaves an automation's dispatches
  without a limit; `AComparisonCanSpoil` and `ABreakerCanSpoil` are two.
- The circuit state of an automation is read off its latest run, not off the breaker. It is right about every
  evaluation if and only if no run ever opens the breaker (`Status.StatusAgreesWhenAskedIff`), and at every clock if
  and only if the threshold of fires cannot come within the window (`Status.StatusAlwaysAgreesIff`). Otherwise it
  shows closed right after the fire that fills the threshold (`Status.AFullBreakerShowsClosed`) and after any run
  whose conditions failed (`Status.ATrippedBreakerShowsClosed`), and open after the window has passed
  (`Status.AClosedBreakerShowsOpen`).
- Two offline checks that overlap can both alert about a host. With k of them the one alert until the
  host is heard of becomes at most k (`Sweeps.OverlappingAlertsAreBounded`), and becomes k
  (`Sweeps.OverlappingAlertsReachTheBound`).
- `RETENTION_BATCH_SIZE=0` is accepted and makes the prune loop run for ever.
- src/taskowl/queries.py:671 says a chain node exposes the task's current state. For
  every task but the one asked about it exposes the latest row that carries the
  root: `Chain.NodeIsCurrentIff` says when that is the current one, and
  `ChainNodes.ASucceededRelativeShowsSent` is a task for which it is not. The model follows the code.
- docs/usage/tasks.md:14 says `since` selects tasks created after a time; the code
  compares the latest event's time. `Queries.SinceSelectsCreatedTasksIff` says when the two
  coincide, `Queries.AnOldTaskCanBeListed` is a case where they do not. The model follows the code.
- Pruning can take the event that names a task: a listing by name then loses the task
  (`Queries.ANameCanBePruned`), and a retry of it is refused (`Retries.RetryIsRefusedIff`).
- A task type with the empty name cannot be listed by name (`Queries.AnEmptyNameListsEveryTask`), and an empty
  name that comes first is shown by the listing but not by the task page (`Queries.AnEmptyNameIsListedNotShown`).
- The batched orphan list and the per-task test can differ when newest events tie;
  `Orphans.OrphanTestsAgreeIffTiesDo` says exactly when they cannot.

## Model

| member | source | states |
|---|---|---|
| `EngineRuns.EngineKeepsItsPromises` | src/taskowl/workflow.py:148-313 | Over any lifetime of events, periodic ticks and prunes, with retention covering one automation's own limits whatever the others ask for: pruning changes none of its runs (and no decision at all if it covers every automation), and it keeps its cap, breaker, cooldown and schedule at once; a breaker shadowed by the cap never opens |
| `EngineRuns.EngineKeepsItsCap` | src/taskowl/workflow.py:306-311 | Read off the settings and the rows: with retention as long as its own limits, over any lifetime no closed window of window_seconds, less the stamp lag, holds more of an automation's runs with actions than max_runs_per_window, whatever its trigger |
| `EngineRuns.EngineKeepsItsBreaker` | src/taskowl/workflow.py:276-293 | and none of the breaker's window_seconds more than failure_threshold, where neither is 0 |
| `EngineRuns.EngineKeepsItsDistances` | src/taskowl/workflow.py:300-304 | Runs with actions are cooldown_seconds apart and any two runs of a periodic automation schedule_seconds, less the lag |
| `EngineRuns.RunOperation` | src/taskowl/workflow.py:148-266 | Running one operation on the real run table is exactly one more operation of the lifetime the promises quantify over, from the empty table on |
| `Invisible.PruningIsInvisible` | src/taskowl/maintenance.py:107-111 | With retention at least the cooldown, both windows and the schedule, pruning the run log at any past or present moments leaves the whole sequence of fire, skip-reason and due decisions of every run unchanged |
| `Invisible.AutomationsDoNotInterfere` | src/taskowl/workflow.py:148-368 | Automations do not interfere: one among others logs, surrogate keys aside, exactly what it would log if it were the only one, whatever is pruned |
| `Invisible.PruningIsInvisibleTo` | src/taskowl/maintenance.py:107-111 | So retention has to cover only the automation at hand: then pruning changes none of its decisions, step by step, and none of its recorded runs, however far back the others look |
| `Definitions.ValidateAutomation` | src/taskowl/automations.py:34-62 | A definition is accepted exactly when its trigger is one of the two with a known event type or a positive schedule, its cooldown is not negative, and a cap is positive and comes with a positive window; what is stored for it is then what the results below call valid |
| `Definitions.ValidAutomationsCanBeCreated` | src/taskowl/automations.py:34-62 | and every such automation is stored for some accepted definition |
| `ShortRetention.RetentionConditionIsExact` | src/taskowl/automations.py:201-245 | Automations can be edited. Then the retention condition is exact over runs from an empty log: a prune just before an evaluation goes unnoticed after every run, whatever settings the automation had before, if and only if the retention covers its schedule and, if its breaker lets it fire at all, its limits |
| `SteadyRetention.PruningIsNoticedIffALimitIsReached` | src/taskowl/maintenance.py:107-111 | At settings that never change, some run notices pruning if and only if the schedule or the cooldown outlasts the retention, or a breaker or cap does that cooldown, schedule, cap and breaker together let it reach within its window |
| `SteadyRetention.AShortRetentionCanGoUnnoticed` | src/taskowl/maintenance.py:107-111 | A cap of 1000 in a hundred days with a cooldown of a day: thirty days of retention fall short of the window, yet no run notices |
| `RunLimits.LimitsHoldOverEveryRun` | src/taskowl/workflow.py:268-313 | Every closed window of window_seconds holds at most max_runs_per_window fires, every breaker window at most failure_threshold, and fires are cooldown_seconds apart, all at once, over every run, pruned with retention that covers this automation's limits or not at all; stamps may lag the clock by d, which shortens windows and gaps by d |
| `RunLimits.CapIsKept` | src/taskowl/workflow.py:306-311 | The cap over every run of steps, in fields |
| `RunLimits.BreakerIsKept` | src/taskowl/workflow.py:276-293 | The breaker likewise |
| `RunLimits.CooldownIsKept` | src/taskowl/workflow.py:300-304 | The cooldown likewise |
| `FireTimes.NoRunIsFaster` | src/taskowl/workflow.py:268-313 | No run fires n more times sooner than Earliest(n), the time cooldown, schedule, cap and breaker allow together |
| `FireTimes.FastestFires` | src/taskowl/workflow.py:268-313 | Asking at exactly those times fires every time, so the bound is reached |
| `BreakerReach.BreakerOpensIffThereIsRoom` | src/taskowl/workflow.py:268-313 | Under cooldown, schedule and cap together a breaker can open if and only if its threshold of fires, as fast as they can come, and the next evaluation fit into its window; stamps equal to the clock, pruned with covering retention or not |
| `BreakerReach.RoomUnderACap` | src/taskowl/workflow.py:268-313 | Under a cap alone that is threshold <= cap * (number of cap windows that can begin in one breaker window) |
| `RunLimits.DeadBreaker` | src/taskowl/workflow.py:173-178 | With cap < threshold and breaker window <= cap window, no run with a clock that never goes back records a circuit_open skip, whatever is pruned |
| `RunLimits.WorkedExampleBreakerNeverTrips` | docs/usage/automations.md:132-147 | The documented retry-payments settings (2 an hour, breaker 3 in five minutes) never trip their breaker |
| `Overtaking.OvertakenCap` | src/taskowl/workflow.py:173-199 | Due test, breaker, cooldown and cap are asked by separately awaited queries. When at most k fires of the same automation are committed between the first and the evaluation's own commit, however many runs of others are, a cap window holds at most k fires more than the cap |
| `Overtaking.OvertakenBreaker` | src/taskowl/workflow.py:173-199 | A breaker window holds at most k more than the threshold |
| `Overtaking.OvertakenCooldown` | src/taskowl/workflow.py:173-199 | The cooldown still separates a fire from any with more than k of the automation's fires committed from it on |
| `Overtaking.SerialisedRunsAreNotOvertaken` | src/taskowl/workflow.py:148-266 | Serialised runs are the case k = 0 |
| `Interleaving.InterleavedRunsAreOvertaken` | src/taskowl/workflow.py:148-266 | Turns open, ask their queries one at a time and commit, in any interleaving of any automations: if at most k own fires are committed between the first query and the commit of each of the automation's turns, every fire meets what those bounds assume |
| `Interleaving.TurnsCommitOnce` | src/taskowl/workflow.py:188-199 | A turn records at most one run |
| `Crowding.CrowdingIsExact` | src/taskowl/workflow.py:173-199 | Some interleaved run whose turns are overtaken by up to k own fires and whose log is in time order crowds n fires into a window if and only if Crowded(n - 1), the earliest time of the n-th under cooldown, schedule, cap and breaker, each missing the last k, fits into it |
| `Crowding.CapExcessIsReachedIff` | src/taskowl/workflow.py:173-199 | So cap + k fires, and never more, are reached in one cap window exactly when they can come within it, and in particular whenever the cap can be filled without overtaking |
| `Crowding.BreakerExcessIsReachedIff` | src/taskowl/workflow.py:173-199 | Likewise threshold + k in a breaker window |
| `Crowding.CooldownExcessIsReached` | src/taskowl/workflow.py:173-199 | and k + 1 fires at one moment under any cooldown |
| `Aborted.DispatchesKeepLimitsIffNoKindSpoils` | src/taskowl/workflow.py:166-199 | A raising condition aborts the pass: its run rows are rolled back, what it dispatched is not. What one event makes of the conditions is a pair (whose hold, whose raise). Over all passes of the possible pairs the limits bound an automation's dispatches if and only if no pair has it hold and a later one raise with nothing earlier raising first; or it cannot fire, or has no limit |
| `Aborted.PassesLogEvaluations` | src/taskowl/workflow.py:148-199 | A pass logs the steps of an evaluation, or nothing if an automation raises that is asked at all: an event automation, or a periodic one with a schedule and no run of its own less than the schedule ago |
| `RaisingConditions.DispatchesKeepLimitsIffNoEventSpoils` | src/taskowl/workflow.py:165-169 | With the pairs read off what is stored, any JSON for a condition or a breaker: conditions stop at the first that fails, and a breaker that cannot be used raises once they hold. The limits bound the dispatches exactly when no event that can be heard makes its turn go through and a later automation's raise first of all |
| `RaisingConditions.SoundDefinitionsKeepLimits` | src/taskowl/automations.py:34-62 | In particular whenever no later automation is stored with a condition or a breaker that can raise at all |
| `RaisingConditions.BreakerSettingsRaiseIff` | src/taskowl/workflow.py:276-293 | A threshold and a window raise exactly when Python holds both true and one is a text, a list or a dict |
| `RaisingConditions.ABreakerCanSpoil` | src/taskowl/workflow.py:276-293 | A second automation without conditions whose failure_threshold is a text raises on every event: no limit of the first is kept |
| `RaisingConditions.AComparisonCanSpoil` | src/taskowl/workflow.py:84-91 | A failed task whose info is a list of texts dispatches one automation and raises in the next, which compares it with numbers: no limit of the first is kept |
| `RaisingConditions.AGuardedPatternIsHarmless` | src/taskowl/workflow.py:165-169 | A malformed pattern behind a condition that fails whenever the first automation fires leaves its limits alone |
| `Conditions.RaisesOnSomeEventIff` | src/taskowl/workflow.py:66-102 | A stored condition, any JSON, raises on some event if and only if it is no dict, or its operator is supported and its field true and no text, or it orders against a dict or a non-empty list, asks `contains` of a list or a dict, or matches a malformed pattern; the first two raise on every event |
| `Status.StatusAlwaysAgreesIff` | src/taskowl/automations.py:331-345 | The circuit state shown is the breaker's state at every clock after every run at fixed settings, pruned with covering retention or not, if and only if the breaker can never be reached: its threshold of fires, as fast as they can come, does not fit into its window |
| `Status.StatusAgreesWhenAskedIff` | src/taskowl/automations.py:331-345 | It is what the next evaluation would meet, at every clock at which there is one, if and only if no run ever opens the breaker |
| `Status.AFullBreakerShowsClosed` | src/taskowl/automations.py:331-345 | After the fire that fills the threshold the state shows closed and the next evaluation is skipped |
| `Status.AClosedBreakerShowsOpen` | src/taskowl/automations.py:331-345 | After the window has rolled past a tripped breaker the state still shows open |
| `Status.AFailedConditionShowsClosed` | src/taskowl/automations.py:331-345 | After any run, pruned or not, an evaluation whose conditions fail makes the state show closed and leaves the breaker as it is at every later clock |
| `Status.ATrippedBreakerShowsClosed` | src/taskowl/automations.py:331-345 | So a breaker that has skipped one evaluation shows closed while it would skip the next |
| `Status.ShownOpenWasReached` | src/taskowl/automations.py:331-345 | Shown open, the breaker was reached at the moment of the latest run |
| `Invisible.RecordedRunExplained` | src/taskowl/workflow.py:165-197 | A run recorded as fired had its conditions hold and no limit reached; the one reason it gives otherwise is breaker before cooldown before cap, each exactly when the settings are there and the log's rows reach them, and none when conditions failed |
| `Invisible.SameDecision` | src/taskowl/workflow.py:268-368 | Two logs that agree from a cutoff no limit reaches behind give the same skip reason and the same due test |
| `RunLimits.FireKeepsLimits` | src/taskowl/workflow.py:268-313 | One evaluation keeps all three limits: a run recorded as fired after passing the checks breaks none of them |
| `RunLimits.CapBoundsEveryLaterCount` | src/taskowl/workflow.py:306-311 | From any clock not before the last evaluation, the cap window never holds more fires than the cap |
| `Workflow.LastTime` | src/taskowl/workflow.py:316-348 | ORDER BY created_at DESC LIMIT 1 is the largest stamp of the selected runs, and None exactly when there is none |
| `Workflow.EvaluationSays` | src/taskowl/workflow.py:268-348 | What an evaluation records, in fields: circuit_open if the breaker is set and its window holds the threshold of runs with actions, else cooldown if one is too recent, else rate_limited if the cap is set and its window is full, else what the actions report |
| `Workflow.EventSelects` | src/taskowl/workflow.py:155-199 | After an event the old rows are a prefix, and behind them there is one row for each enabled automation of that event type, in turn, stamped by the database and saying what that evaluation says; a disabled one or one of another type gets none |
| `Workflow.TickSelects` | src/taskowl/workflow.py:218-266 | After a tick the same for the enabled periodic automations with a schedule other than 0 and no run of their own less than the schedule ago |
| `Workflow.WorkflowEngine.EvaluateOne` | src/taskowl/workflow.py:171-197 | One automation's turn appends exactly the run its checks decide, stamped by the database |
| `Workflow.WorkflowEngine.EvaluateEvent` | src/taskowl/workflow.py:148-199 | The loop leaves that, and is one step for each such automation, in turn, at one clock |
| `Workflow.WorkflowEngine.EvaluatePeriodic` | src/taskowl/workflow.py:216-266 | The loop leaves that for distinct ids, and is one step for each enabled periodic automation; those without a schedule or not due record nothing |
| `Workflow.UnprunedLogIsHistory` | src/taskowl/workflow.py:188-199 | Without pruning the run log is the history of everything ever recorded |
| `Schedules.RunsKeepTheSchedule` | src/taskowl/workflow.py:227-264 | The n-th recorded run of a periodic automation comes at least (n - m) schedules after its m-th (less the stamp lag each), over every run, pruned with covering retention or not at all |
| `Schedules.NextRunIsPrompt` | src/taskowl/workflow.py:227-264 | Asked at most p apart, the next run is recorded at a tick in [last + schedule, last + schedule + p), and no earlier tick records one |
| `Workflow.WorkflowEngine.MarkOnline` | src/taskowl/workflow.py:125-127 | Hearing of a worker removes it, and only it, from the notified set |
| `Workflow.WorkflowEngine.CheckWorkersOffline` | src/taskowl/workflow.py:510-561 | A check alerts exactly the stale hosts not yet notified, a host whose rows are gone by then included, adds them to the notified set, and is an error without a webhook URL |
| `Alerts.AlertsAreSeparatedByRecovery` | src/taskowl/workflow.py:510-540 | Within one engine lifetime, between any two alerts about a host there is a mark_online for it |
| `Alerts.AlertsAreBounded` | src/taskowl/workflow.py:510-540 | A host is alerted about at most once more than it is marked online |
| `Alerts.AfterACheckEveryHostIsFreshOrNotified` | src/taskowl/workflow.py:528-538 | After a check with a webhook every known host is fresh or in the notified set |
| `Alerts.AlertsExactlyTheNewlyStale` | src/taskowl/workflow.py:528-538 | A check alerts about exactly the stale hosts not notified before, each once |
| `Alerts.NotifiedTracksSignals` | src/taskowl/workflow.py:122-127 | The notified set is always exactly the hosts whose last signal is an alert |
| `Sweeps.OverlappingAlertsAreBounded` | src/taskowl/workflow.py:510-540 | Checks that overlap, each awaiting one host at a time between looking at the notified set and alerting, with mark_online and other checks coming in anywhere: if at most k ever await a host together, the alerts about it are at most k times (1 + the times it was marked online) |
| `Sweeps.OverlappingAlertsReachTheBound` | src/taskowl/workflow.py:528-538 | and for every k and number of times some run reaches that bound |
| `Sweeps.UndisturbedIsAtomic` | src/taskowl/workflow.py:510-540 | A check that nothing comes in between does what the atomic one does, with a webhook or without |
| `Interpolation.ResolveField` | src/taskowl/workflow.py:55-63 | The loop over the dotted path ends at the nested value, or at None as soon as a step leaves the dicts |
| `Interpolation.ScanIsAScan` | src/taskowl/workflow.py:413-423 | The left-to-right pass splits every text into literals and references that spell it, with no reference left inside the literals |
| `Interpolation.ScanIsTheOnlyScan` | src/taskowl/workflow.py:413-423 | That split is unique |
| `Interpolation.InterpolationIsOnePass` | src/taskowl/workflow.py:413-423 | The result is the split with each resolved reference replaced once; substituted text is never scanned again |
| `Interpolation.OneReferenceIsReplaced` | src/taskowl/workflow.py:413-423 | In a text with one {event.field} the reference becomes the text of what the field holds, or stays if it holds nothing, and all around it stays |
| `Interpolation.InterpolationKeepsShape` | src/taskowl/workflow.py:424-428 | Nesting, list lengths, dict keys and their order are preserved at every depth |
| `Interpolation.EmptyEventIsIdentity` | src/taskowl/workflow.py:413-428 | With an empty event interpolation is the identity on every value |
| `Conditions.ConditionsOnAnEmptyEvent` | src/taskowl/workflow.py:66-102 | Exactly which conditions a periodic automation can pass, since its event is empty |
| `Conditions.OrderingOperatorsAgree` | src/taskowl/workflow.py:84-91 | On comparable values, at any list nesting, exactly one of lt, eq, gt holds, lte and gte are their unions, and the four orderings raise together |
| `Conditions.OperatorsOnNumbers` | src/taskowl/workflow.py:80-91 | A stored eq, neq, gt, gte, lt or lte between numbers holds exactly when the numbers compare so |
| `Conditions.OperatorsOnBooleans` | src/taskowl/workflow.py:105-111 | A boolean compares as 1 or 0 |
| `Conditions.OperatorsOnTexts` | src/taskowl/workflow.py:84-91 | Between texts the first character that differs decides, and a text comes before those it begins |
| `Conditions.OperatorContains` | src/taskowl/workflow.py:92-97 | contains: a text has it in it, a list as an item, a dict as a key; anything else fails |
| `Conditions.OperatorIn` | src/taskowl/workflow.py:100-101 | in: the field is one of the texts |
| `Conditions.OperatorsOnAnything` | src/taskowl/workflow.py:78-99 | exists: the field is not None; matches: the search of its text, or of the empty one |
| `Retention.PruneTable` | src/taskowl/maintenance.py:29-60 | The batch loop terminates, leaves exactly the rows not older than the cutoff in order, returns the dry run's count, and takes floor(n / batch_size) + 1 deletes for n old rows |
| `Retention.BatchIsExact` | src/taskowl/maintenance.py:47-54 | One batch removes the lowest-keyed old rows, as many as fit, and nothing else |
| `Overlap.OverlapIsSafe` | docs/usage/retention.md:58-60 | Any number of overlapping, killed or restarted prunes, each at the cutoff of its own clock: one that has returned leaves nothing older than its cutoff, rows at or after the latest cutoff are untouched, and the totals are the rows deleted |
| `Overlap.LatestPruneDecides` | docs/usage/retention.md:58-60 | Once one with the latest cutoff has returned the table is what one uninterrupted prune at that cutoff leaves, and the totals add up to its count |
| `Overlap.EveryScheduleConserves` | src/taskowl/maintenance.py:46-59 | Under every schedule, late arrivals included, rows at or after the latest cutoff are untouched and each older row is still present or counted by exactly one pruner |
| `Overlap.LoopEndsIffBatchPositive` | src/taskowl/maintenance.py:45-59 | The loop ends if and only if the batch size is positive; with a batch size of 0 it deletes nothing for ever |
| `Latest.RankedFirstExists` | src/taskowl/queries.py:20-30 | Every partition has a row with row number 1 |
| `Latest.RankedFirstUnique` | src/taskowl/queries.py:20-30 | and only one, even when timestamps tie |
| `Latest.NewestAgreesWithRankedFirst` | src/taskowl/queries.py:509-516 | Whatever row the per-item query returns has the time of the window query's row, and agrees with it on anything rows tied for that time agree on |
| `Latest.PruningCommutesWithLatest` | src/taskowl/maintenance.py:98-105 | Pruning and taking the latest row of each partition commute |
| `Queries.PruningKeepsSurvivingTasks` | src/taskowl/maintenance.py:98-105 | After a prune each task shows the same latest state, worker, queue and timestamp, or has vanished |
| `Maintenance.PruneEvents` | src/taskowl/maintenance.py:63-113 | With d the caller's window for the table if given, else the setting: a row stays if and only if it is a dry run, d is not positive or the row is not older than d days; rows stay in key order; the count is that of the older rows, so without a dry run of the rows gone; the DELETE statements are one more than full batches fit in |
| `Queries.ListedIff` | src/taskowl/queries.py:83-123 | A row is listed if and only if it is its task's latest by time and then key and passes each filter that is given and not empty: its type is the state in lower case, its task has the name, its host is the worker, and it is recent enough |
| `Queries.PruningKeepsUnnamedListings` | src/taskowl/queries.py:83-123 | Without a name filter a listing of the pruned log is the pruned listing, whatever names either resolves |
| `Queries.PruningKeepsNameListingsIff` | src/taskowl/queries.py:33-43 | With a name filter, names resolved anew from the pruned rows, it is if and only if every surviving task in question whose earliest named event was pruned resolves to the asked name after the prune exactly when it did before |
| `Queries.PruningForgetsNames` | src/taskowl/queries.py:33-43 | Where each task has one name, the listing by name loses exactly the tasks none of whose named events is left |
| `Queries.ANameCanBePruned` | src/taskowl/queries.py:83-123 | A task sent as x and started two days later is no longer listed as x once pruned with a day of retention |
| `Queries.SinceSelectsCreatedTasksIff` | src/taskowl/queries.py:120-122 | `since` compares the latest event: it lists only tasks all of whose events are that recent if and only if no task has one event before the moment and one at or after it |
| `Queries.AnOldTaskCanBeListed` | docs/usage/tasks.md:14 | A task sent before the moment and started after it is listed |
| `Queries.SummaryRefinesListing` | src/taskowl/queries.py:372-413 | total_tasks is the number of tasks an unpaged listing with that since returns, and each by_state count the number for that state, however the filter is capitalised |
| `Queries.GroupCountsAddUp` | src/taskowl/queries.py:390-411 | Group counts add up to the rows grouped |
| `Queries.TypeCountsConserveTasks` | src/taskowl/queries.py:184-200 | Type counts plus unnamed tasks are the distinct tasks |
| `Queries.TypeCountIsListingLength` | src/taskowl/queries.py:184-200 | A name's count is the unpaged listing length for that exact name, if and only if the name is not empty or every task has the empty name |
| `Queries.AnEmptyNameListsEveryTask` | src/taskowl/queries.py:115-116 | With one task named by the empty text and one named x, the first is counted once and the listing for its name has both |
| `Queries.GetTask` | src/taskowl/queries.py:224-282 | The fold over the ordered events leaves, for each of the ten fields, the last value Python holds true, the list of events, the last event's state and worker, and whether that event is started, past the grace and on a host without a live worker; no events is "not found" |
| `Queries.TaskPageAgreesWithListing` | src/taskowl/queries.py:224-275 | The task page shows the listing's time, state and worker, in whatever order tied events come back, if events tied for the newest time agree on them |
| `Queries.EarliestNameIsLastNameIff` | src/taskowl/queries.py:33-43 | For a task whose real names agree, every earliest-name resolution equals the last-name fold of the task page if and only if no empty name comes first |
| `Queries.EmptyNameCanBeEarliest` | src/taskowl/queries.py:250-251 | An empty name that comes first is what the window resolves, though the page skips it |
| `Queries.AnEmptyNameIsListedNotShown` | src/taskowl/queries.py:33-43 | A task sent with an empty name and received as x: the listing resolves the empty name, the page shows x |
| `Orphans.WorkersOfflineMap` | src/taskowl/queries.py:632-664 | The loop builds the map of every worker's verdict on its latest row |
| `Orphans.OfflineMapAgreesWithEachWorker` | src/taskowl/queries.py:502-526 | The map read with default True equals the per-worker test, if rows tied for the newest time agree on being offline events |
| `Orphans.VerdictsAgreeIffTiesDo` | src/taskowl/queries.py:632-664 | That condition is exact: map and per-worker test agree at every clock and for every answer if and only if the ties agree |
| `Orphans.ListOrphanedTasks` | src/taskowl/queries.py:584-629 | Before the limit it lists each task once if and only if its latest row, by time and then key, is started, older than the grace and on a host with no worker row, or whose latest is an offline event or too old; each entry shows that row's task, resolved name, host, queue and time; the limit cuts as Python slices |
| `Orphans.OrphanRowsAreOrphans` | src/taskowl/queries.py:584-629 | The rows selected are exactly those |
| `Orphans.PerTaskTestInFields` | src/taskowl/queries.py:536-559 | The per-task test says the same of its event and of whichever newest row the query for its host returns |
| `Orphans.BatchedOrphansAgreeWithEachTask` | src/taskowl/queries.py:536-559 | Before the limit a task is listed if and only if the per-task test holds at the same clock, if its tied newest events agree on the host they are started on |
| `Orphans.OrphanTestsAgreeIffTiesDo` | src/taskowl/queries.py:536-629 | That condition is exact: list and per-task test agree over all workers, clocks and settings if and only if the ties agree |
| `Orphans.PruningKeepsSurvivingOrphans` | src/taskowl/maintenance.py:98-105 | With event retention at least the offline timeout the orphans after a prune are the earlier orphans whose started row survived |
| `Orphans.PrunedHostKeepsVerdict` | src/taskowl/maintenance.py:98-105 | Every host keeps its offline verdict through such a prune |
| `Orphans.VerdictsSurviveIffRetained` | src/taskowl/maintenance.py:98-105 | That retention condition is exact |
| `Chain.GetTaskChain` | src/taskowl/queries.py:692-763 | The root is the one a latest row of the task with a root carries, or the task itself. Each family task has one node, and no other task; a node shows task, parent, state, time and runtime of its task's latest row among those that carry the root or belong to the task asked about; the nodes come in the order of their tasks' first such rows |
| `Chain.ChainMap` | src/taskowl/queries.py:741-751 | chain_map holds every family task, each with the node of its latest family row |
| `Chain.ChainListsTheFamily` | src/taskowl/queries.py:753-761 | The ordering query lists each family task exactly once |
| `Chain.RetryFamilyIsClosed` | src/taskowl/queries.py:692-763 | Asked from any task a chain lists, the root query finds the same root and the chain lists the same tasks |
| `Chain.SameChainIffSameAnswer` | src/taskowl/queries.py:696-739 | Two tasks get the same chain if the root query answers the same recorded root for both and, where each carries one root, only if |
| `Chain.SameChainIffBothRecorded` | src/taskowl/queries.py:727-739 | Under one root two tasks get the same chain if and only if both recorded it |
| `Chain.NodeIsCurrentIff` | src/taskowl/queries.py:668-672 | A node shows its task's current row always for the task asked about, and for any other exactly when that row itself carries the root |
| `ChainNodes.RelativesNeverShowAnOutcome` | src/taskowl/queries.py:668-672 | So on an ingested log the node of any relative only ever reads sent or received |
| `ChainNodes.RelativeIsCurrentIff` | src/taskowl/queries.py:668-672 | and never the state of a task that has got further |
| `ChainNodes.ASucceededRelativeShowsSent` | src/taskowl/queries.py:668-672 | A task sent with its root and then succeeded is shown as sent in the chain asked from its root |
| `Retries.RetryHandsOnTheRootIff` | src/taskowl/actions.py:198-209 | A retry hands on the root its task was sent with if and only if the log still records it or the task is its own root |
| `Retries.RetryIsRefusedIff` | src/taskowl/actions.py:194-196 | It is refused for want of a name if and only if no stored event of the task carries a real one |
| `Retries.RootIsKeptIffFound` | src/taskowl/actions.py:198-209 | Over any history of retries, late events and prunes every descendant was sent with the original root if and only if every retry of a descendant still found it |
| `Retries.RetriesKeepTheRoot` | src/taskowl/actions.py:190-209 | Where names come with roots that always holds, however late events arrive and whatever is pruned: a retry that would lose the root is refused |
| `Retries.ARootCanBePruned` | src/taskowl/actions.py:198-209 | An event with a name and no root lets a prune lose the root |
| `Retries.EveryMemberSeesTheSameChain` | src/taskowl/actions.py:198-209 | After such a history any two members that record the root, the original task included, get the same answer of the root query and the same chain, which lists exactly the descendants that record it |
| `Retries.UnprunedChainIsWhole` | src/taskowl/actions.py:198-209 | With nothing pruned the chain asked from any recorded member holds every descendant ever recorded |
| `Ingest.InsertEvent` | src/taskowl/consumer/handlers.py:79-90 | A row is appended unless its non-NULL key is already stored |
| `Ingest.RowsAreDistinctKeysPlusUnkeyed` | src/taskowl/consumer/handlers.py:79-90 | The keys stored are the keys delivered, and the row count is distinct keys plus deliveries without a timestamp |
| `Ingest.IngestIsConfluent` | src/taskowl/consumer/handlers.py:79-90 | The rows are determined by the set of timestamped deliveries and the bag of the others, when equal keys mean equal payloads |
| `Ingest.SameDeliveriesSameRows` | docs/usage/retention.md:62-76 | Any permutation with any duplication leaves the same rows |
| `Ingest.SameRowsSameLatest` | src/taskowl/consumer/handlers.py:79-90 | Equal rows reconstruct equal latest states: the same newest time, and the same value of anything tied rows agree on |
| `Ingest.IngestAndPruningCommute` | src/taskowl/consumer/handlers.py:79-90 | Ingest interleaved with prunes, closed by a prune at the last cutoff, leaves the same rows in the same order as ingesting everything and pruning once |
| `Ingest.FreshDeliveriesAreStored` | src/taskowl/consumer/handlers.py:79-90 | Every delivery no prune has reached has a row that is it or has its key |
| `Handlers.TaskKeyIsInjective` | src/taskowl/consumer/handlers.py:50-65 | Task keys are equal if and only if event type, task, host (missing = empty) and timestamp are, even for hosts containing the separator |
| `Handlers.WorkerKeyIsInjective` | src/taskowl/consumer/handlers.py:68-76 | Worker keys are equal if and only if event type, host and timestamp are |
| `Handlers.HandleTaskMessage` | src/taskowl/consumer/handlers.py:93-255 | Each of the eight handlers stores the columns its type fills, once under the dedupe key; a malformed uuid or an unknown type stores nothing |
| `Handlers.HandleWorkerMessage` | src/taskowl/consumer/handlers.py:258-317 | and each of the three worker handlers likewise; a missing hostname stores nothing |
| `Feeds.TaskKeysFixTime` | src/taskowl/consumer/handlers.py:93-255 | Over every feed of task messages equal keys force equal timestamps |
| `Feeds.WorkerKeysFixTime` | src/taskowl/consumer/handlers.py:258-317 | Over every feed of worker messages equal keys force equal timestamps |
| `Feeds.TaskIngestAndPruningCommute` | src/taskowl/consumer/handlers.py:93-255 | The commutation above for every feed of task messages |
| `Feeds.WorkerIngestAndPruningCommute` | src/taskowl/consumer/handlers.py:258-317 | The commutation above for every feed of worker messages |
| `Columns.FirstMessageFillsItsRow` | src/taskowl/consumer/handlers.py:93-255 | Over any feed every acceptable task message that no earlier one stands for and no later prune reaches is stored with exactly the columns its type fills, given by type: sent and received the request, queue and retry links, started the pid, succeeded the result, failed and retried the error, revoked and rejected their flags, all else empty |
| `Columns.EveryMessageFillsARow` | src/taskowl/consumer/handlers.py:93-255 | Where redeliveries carry what the first delivery did, so is every acceptable message no prune reaches |
| `Columns.EveryRowIsAMessage` | src/taskowl/consumer/handlers.py:93-255 | and every stored row has the columns of some acceptable message of the feed |
| `Columns.FirstSignalFillsItsRow` | src/taskowl/consumer/handlers.py:258-317 | The same for worker messages: the software columns, and the load for heartbeats |
| `Columns.EveryWorkerRowIsAMessage` | src/taskowl/consumer/handlers.py:258-317 | and every stored worker row is such a message |
| `Feeds.ConsumeTask` | src/taskowl/consumer/handlers.py:93-255 | One message consumed by the real table is one more message of the feed |
| `Feeds.EveryMessageIsReported` | src/taskowl/consumer/handlers.py:79-90 | After any feed every accepted message no prune reached has a row with its type, task, host and time |
| `Feeds.PageAfterAnyFeed` | src/taskowl/queries.py:224-275 | After any feed the task page shows state, worker and time of an accepted message no older than any other no prune reached, and a name some sent or received message carried; not found means a prune reached them all |
| `Redelivery.RedeliveryAndPruningDoNotMatter` | docs/usage/retention.md:62-76 | Two feeds of task messages with the same timed messages in any order and number and the same bag of others, pruned on the way or not, leave the same rows after one last prune |
| `Redelivery.WorkerRedeliveryAndPruningDoNotMatter` | src/taskowl/consumer/handlers.py:258-317 | The same for worker messages |
| `ChainNodes.IngestedRowsAreFromHandlers` | src/taskowl/consumer/handlers.py:93-255 | On every ingested and pruned log only sent and received rows carry a name or a root |

## Left out

- Except in `Overtaking`, `Interleaving` and `Crowding`, one evaluation is atomic; the other limit theorems are about serialised evaluations. In `Interleaving` each turn commits its own row; a pass that commits its rows together is the case of turns that commit one right after another, since no turn reads the rows of another automation.
- `actions_fired` is modelled as present or absent, as src/taskowl/workflow.py:317 and :357 intend; how the JSON column type stores a Python None is not part of this model.
- Dispatched actions (webhooks, execute, revoke) are an opaque reported result; the network, the broker and worker control are not part of this model.
- The engine takes each automation's condition result as given, so that its theorems hold for any conditions; `Conditions` models the conditions themselves, `RaisingConditions` and `Aborted` what a raising one does to a pass. In the other engine modules nothing raises.
- A breaker's threshold and window, when they are numbers, are whole ones; a window that reaches back before the first year a datetime can hold raises, and is left out.
- In `Alerts` an offline check is atomic; `Sweeps` is about checks that overlap. A webhook that fails is logged by its client, so every alert counts as sent.
- Regular expressions in conditions, `str()`, the class `\w`, UUID and ISO text and SHA-256 are parameters; whether a search raises is taken to depend on its pattern alone (`Conditions.OnlyPatternsRaise`).
- Floating point in conditions and runtimes is `real`; NaN is left out.
- `str.lower` of the state filter beyond the letters A to Z: event types are written in a to z.
- The `search` filter, sorting and paging of listings, the average runtime of the summary, and the timeline query: no hard property.
- `matched`, `details` and the metadata snapshot of a run: the snapshot only copies fields.
- SQL isolation: each statement is one atomic step. Under weaker isolation two overlapping deletes of the same rows are not covered by `Overlap`.
- A negative batch size: SQLite and PostgreSQL disagree on a negative LIMIT.
- The state check that lets `retry_task` refuse a retry: `Retries` allows one in any state. Its name check is modelled.
- eta and expires keep the form the message has them in; parsing them into times is not part of this model.
- Routes, MCP tools, authentication, CLI entry points, migrations, metrics, automation CRUD beyond its validation, seeding, and src/taskowl/alerting.py (the older copy of the alert dedupe).
- The consumer's reconnect loop, threads and signals.
