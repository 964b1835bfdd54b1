# Timing wheel, alert service and document tools: verified models

A Dafny model of the repository's stateful core, with proofs about every run of it. Cited paths are
those of the repository. Of the two copies of the Go project the one under `timewheel/` is modelled.

`dafny verify dfyconfig.toml` checks everything.

| file | models |
|---|---|
| TaskModel | tasks, validation, errors |
| Alerts | the alert state machine of one task, its notifications and its log |
| WheelSpec, WheelMeaning, PoolSpec, WheelTiming, WheelRuns | what a timing wheel means: a map of entries stepped by operations and ticks, the paused flags of its node pool, when entries run, and what their alert states are in every run |
| Slots, SlotTable, TimeWheel | the wheel as it is: linked slot lists, shard maps, cache with eviction, node pool, all on the heap; every method refines a step of WheelSpec |
| LevelSpec, MultiLevel | the three-level wheel |
| ServiceSpec, ServiceMeaning, FlagSpec, RepairSpec, RepairRuns, TaskService | the do / do / undo protocol over database, wheels and operation log, its seven requests, its two paused flags, and the repair pass |
| Xml, Redlines, RedlineItems, RedlineDocs | merging tracked changes, and the validator whose answer must not change |
| MergeRuns, MergeDocs | merging runs of equal formatting, in one container and in a whole document |
| Clean, CleanMeaning | removing unreferenced files of a presentation |
| Snowflake | identifiers |
| RateLimit | token buckets |

How the parts fit: the methods of `TimeWheel` equal steps of `WheelSpec` (`State() == Step(old(State()), op)`),
the theorems of `WheelSpec` and `WheelTiming` hold of every sequence of steps, the levels and the
service are built from the same steps. A run of a callback is one atomic step with an arbitrary
outcome (a result or a panic); clock readings, pool choices, eviction choices, sort ties and failing
repository calls are parameters or nondeterministic.

A tick executes the nodes it collected before it returns. That is the premise under which
`rescheduleTask` and `removeTask` may use `currentSlot` as the head of the node's list: their model
requires `node.slotIndex == currentSlot`, and `Tick` establishes it for each collected node.

## What the code does that its documentation does not say

- `timewheel/README.md` promises a precision of 1 ms at an interval of 100 ms. There is no round counter, and a task
  whose due time has a larger remainder than the tick phase waits one rotation more
  (`WheelTiming.ExactLateness`, `WheelTiming.HalfTickIntervalCostsARotation`).
- A node taken from the pool keeps the paused flag of the task it served (`TimeWheels.NewTaskStartsPaused`). New
  tasks start unpaused exactly as long as no paused one is removed, updated or cleared (`PoolSpec.NothingStaleEnters`,
  `PoolSpec.StaleNodeCanEnter`; for the service: deleted or disabled, `FlagSpec.RunKeepsFlags`,
  `FlagSpec.RemovingPausedCanFreeze`). A task that starts paused although its row is not never runs, and resuming or
  enabling it does nothing (`FlagSpec.FrozenNeverRuns`); pausing it first and then resuming it revives it
  (`FlagSpec.PauseThenResumeRevives`).
- A task whose callback panics is not counted and not rescheduled: a Once task then runs again at the
  next visit (`WheelSpec.PanicKeepsEntry`).
- Delete, Disable and Pause fail for a task that is in no wheel (`ServiceSpec.NeedsWheel`). An Update to a task that
  cannot be added, such as one with fixed times but no number of times, takes the task out of its wheel although the database is rolled back;
  this, and stuck operations that were to add such a task, are exactly what breaks the agreement of rows and wheels
  (`ServiceSpec.ExecuteKeepsConsistentIff`, `ServiceSpec.ModeEditLosesTask`).
- With more than 10000 enabled rows the repair takes healthy tasks out of their wheels
  (`RepairSpec.RowsBeyondAPageAreLost`).
- The cache says that it evicts the oldest items; it evicts arbitrary ones (`Slots.TaskCache.EvictItems`).
- Merging tracked changes uses an author attribute of any namespace when w:author is missing; the validator looks at
  w:author only (`Redlines.FallbackAuthorChangesMeaning`). `RedlineDocs.LoopIsSoundIff` gives the exact condition
  on a child list; a standard document (`Redlines.PlainNode`), whose tracked changes are w: elements that name
  their author in w:author or nowhere, meets it.
- Joining adjacent w:t elements keeps only the first child of each: further text nodes of the second one are lost, and
  a leading comment becomes text (`MergeRuns.JoinKeepsTextIff`).
- Identifiers are called positive and sortable; from 2^41 ms after the epoch on they are negative
  (`Snowflake.IdsIncreaseIff`), and `ParseID` assumes the package epoch whatever the epoch of the node
  (`Snowflake.ParseRecoversIff`).

## Model

| member | source | states |
|---|---|---|
| Alerts.MachineMeetsDeclaration | timewheel/pkg/timewheel/alert.go:17-58 | After any history of evaluations, at any clock readings, the incremental machine is in the state a declaration without hidden fields gives: Firing when the current unbroken run of trues has lasted `For` at one of its evaluations, Resolved right after Firing, Pending otherwise; `pendingSince` is the start of that run or unset |
| Alerts.FiringMeansRunReachedFor | timewheel/pkg/timewheel/alert.go:17-58 | With a clock that never goes back: Firing if and only if the last result is true and its run has lasted at least `For`; Resolved if and only if the last result is false and the state before was Firing |
| Alerts.BackwardClockKeepsFiring | timewheel/pkg/timewheel/alert.go:17-58 | The clock condition is needed: a concrete history that is Firing although its run is shorter than `For` |
| Alerts.LastFiredIsLastAlert | timewheel/pkg/timewheel/alert.go:67-133 | The field lastFiredAt holds the time of the last counted alert of the whole history, at any clock readings, and one evaluation counts at most one alert |
| Alerts.EpisodeSpacing | timewheel/pkg/timewheel/alert.go:67-133 | Inside one Firing episode a repeated alert comes at least `RepeatInterval` after the one before, and none is missed |
| Alerts.EpisodeBudget | timewheel/pkg/timewheel/alert.go:67-133 | Every counted alert but the first used up `RepeatInterval` of the episode, up to the last alert |
| Alerts.EpisodeNotifications | timewheel/pkg/timewheel/alert.go:67-133 | An episode of length D counts n alerts with (n - 1) * RepeatInterval <= D, and exactly one when RepeatInterval <= 0 |
| Alerts.LogReplaysToState | timewheel/pkg/timewheel/alert.go:67-133 | The history records form a chain whose replay ends in the current state; the alert counter is the number of records that end in Firing |
| Alerts.LogTransitions | timewheel/pkg/timewheel/alert.go:67-133 | Which transitions the records of any history contain; Resolved to Firing only when `For` <= 0, Firing to Firing only when RepeatInterval > 0 |
| TaskModel.NormalizeYieldsNormal | timewheel/pkg/timewheel/task.go:48-99 | The defaults AddTask writes into an accepted task are stable: validating it again accepts it and changes nothing |
| Slots.TaskSlot.Fill | timewheel/pkg/timewheel/task.go:118-139 | What AddTask writes into a pooled node: every field but `paused`, which keeps the value the node had |
| Slots.TaskSlot.ComputeAlertState | timewheel/pkg/timewheel/alert.go:17-58 | The in-place update of a node agrees with the alert machine |
| Slots.TaskCache.Get | timewheel/pkg/timewheel/types.go:165-175 | A hit returns the stored node, and exactly one of the two counters moves |
| Slots.TaskCache.Set | timewheel/pkg/timewheel/types.go:177-191 | Exactly what is left after the due cleanup and the eviction of a full cache, up to which items go: their number, the cleanup time and the eviction counter; then the new item; the size never exceeds the maximum |
| Slots.TaskCache.Delete | timewheel/pkg/timewheel/types.go:193-197 | Exactly one key goes, and the size stays in bounds |
| Slots.TaskCache.CheckAndCleanup | timewheel/pkg/timewheel/types.go:237-243 | A due cleanup removes 50 items, or all if there are no more, and moves the cleanup time; otherwise nothing changes |
| Slots.TaskCache.EvictItems | timewheel/pkg/timewheel/types.go:246-264 | Removes exactly `count` items, any ones, or all of them if there are no more than that |
| SlotTables.SlotTable.SlotIsList | timewheel/pkg/timewheel/types.go:119-136 | From the local pointer invariant: every slot is a nil-ended list without repetition, `n.next.prev == n`, whose nodes are exactly the linked nodes with that `slotIndex` |
| SlotTables.SlotTable.Unlink | timewheel/pkg/timewheel/task.go:266-291 | The hand-written unlink keeps every list well formed and every sorted list sorted, and takes out that node only |
| SlotTables.SlotTable.FindPosition | timewheel/pkg/timewheel/task.go:187-194 | The search loop stops behind the last node of the leading run of smaller priority values |
| SlotTables.SlotTable.Insert | timewheel/pkg/timewheel/task.go:177-212 | Insertion keeps every list well formed and every sorted list sorted, adds that node only, and places it behind smaller and before larger or equal priority values |
| SlotTables.SlotTable.ListsAreSorted | timewheel/pkg/timewheel/task.go:177-212 | While no node has a larger priority value than its successor, every slot list is sorted by priority value |
| SlotTables.SlotTable.Relink | timewheel/pkg/timewheel/scheduling.go:75-95 | Rescheduling moves a node from one list to the head of another and keeps both well formed; sorted lists stay sorted if and only if the moved node fits before the old head |
| SlotTables.SlotTable.EmptyTable | timewheel/pkg/timewheel/task.go:542-599 | Without linked tasks every slot is nil |
| TimeWheels.TimeWheel.constructor | timewheel/pkg/timewheel/timewheel.go:180-255 | A new wheel meets the invariant and holds nothing |
| TimeWheels.New | timewheel/pkg/timewheel/timewheel.go:180-255 | Which of the two errors New returns, and when; otherwise a wheel with the given or default slots and interval |
| TimeWheels.TimeWheel.Start | timewheel/pkg/timewheel/timewheel.go:270-307 | Starts once, sets the clock-aligned slot counter; panics exactly when the wheel was stopped and its interval is below 1 ms, with the running flag already set |
| TimeWheels.TimeWheel.Stop | timewheel/pkg/timewheel/timewheel.go:433-445 | Clears the running flag and keeps every task |
| TimeWheels.TimeWheel.GetTask | timewheel/pkg/timewheel/task.go:15-31 | With the cache, lookup is plain map lookup, in every state that meets the invariant and under any eviction |
| TimeWheels.TimeWheel.AddTask | timewheel/pkg/timewheel/task.go:48-222 | Refines the map insertion: same errors in the same order, same new entry, invariant kept, new node placed by priority, sorted lists kept sorted; the paused flag is that of the node the pool handed out, and the step is one of wheel and pool |
| TimeWheels.TimeWheel.Admit | timewheel/pkg/timewheel/task.go:101-222 | The part behind the checks: an existing id changes no list and no map and gives the node back to the pool |
| TimeWheels.TimeWheel.RemoveTask | timewheel/pkg/timewheel/task.go:260-327 | Refines the map removal; lists, shards and cache agree afterwards, sorted lists stay sorted, and the node goes to the pool with its paused flag |
| TimeWheels.TimeWheel.UpdateTask | timewheel/pkg/timewheel/task.go:361-433 | Refines remove, add, and on failure add the old definition back, with all its error returns; the flags of new entries come from the pool, the removed node included |
| TimeWheels.TimeWheel.PauseTask | timewheel/pkg/timewheel/task.go:470-495 | Changes the paused flag of one entry and nothing else |
| TimeWheels.TimeWheel.ResumeTask | timewheel/pkg/timewheel/task.go:507-536 | Clears the flag and moves `runAt` of a paused entry; its slot does not change |
| TimeWheels.TimeWheel.ClearAllTasks | timewheel/pkg/timewheel/task.go:542-599 | From any state that meets the invariant: every slot nil, every shard and the cache empty, every node in the pool with its paused flag, and the count is the number of tasks there were |
| TimeWheels.TimeWheel.ClearShard | timewheel/pkg/timewheel/task.go:551-586 | The inner loop, which deletes while it iterates, empties its shard and counts what it removed |
| TimeWheels.TimeWheel.HandleAlertState | timewheel/pkg/timewheel/alert.go:61-133 | The in-place alert step: node fields, history records and alert counter are those of the alert machine |
| TimeWheels.TimeWheel.RecordRun | timewheel/pkg/timewheel/timewheel.go:790-800 | A returned callback is counted once and its result kept |
| TimeWheels.TimeWheel.RescheduleTask | timewheel/pkg/timewheel/scheduling.go:57-102 | New `runAt` and slot for one entry, all others as before, lists well formed, given that the node is in the list of `currentSlot`; sorted lists stay sorted exactly if the slot stays or the node fits before the old head |
| TimeWheels.TimeWheel.HandleScheduling | timewheel/pkg/timewheel/scheduling.go:12-149 | After a returned callback an entry is kept for its next run or leaves list, shard and cache, as its mode and counter say |
| TimeWheels.TimeWheel.ExecuteTask | timewheel/pkg/timewheel/scheduling.go:157-227 | One collected task: skipped when paused; a panic skips count, alert step and rescheduling; otherwise all of them happen |
| TimeWheels.TimeWheel.Collect | timewheel/pkg/timewheel/timewheel.go:555-570 | Exactly the nodes of the current slot that are due, each once |
| TimeWheels.TimeWheel.SortByPriority | timewheel/pkg/timewheel/timewheel.go:574-585 | An arrangement of the collected nodes by priority value; ties in any order |
| TimeWheels.TimeWheel.Tick | timewheel/pkg/timewheel/timewheel.go:549-629 | A whole tick over the heap equals one independent step per entry; exactly the due entries of the next slot run, by priority, the history grows by their records in that order, the alert counter by the records that end in Firing, the execution counter by the tasks whose callback returned, and only unpaused nodes reach the pool |
| TimeWheels.NewTaskStartsPaused | timewheel/pkg/timewheel/task.go:111-139 | AddTask does not reset `paused`: after add, pause, remove, a later add of another task can yield an entry that is paused from the start |
| PoolSpec.NothingStaleEnters | timewheel/pkg/timewheel/task.go:111-139 | Over every run of wheel and pool in which no paused entry is removed, updated or cleared, from a pool without paused nodes: every new entry starts unpaused |
| PoolSpec.EnteredMeans | timewheel/pkg/timewheel/task.go:48-433 | An operation enters an id exactly when the id appears, or when an update takes its old definition out first |
| PoolSpec.PausedOnlyByPause | timewheel/pkg/timewheel/task.go:470-495 | In such runs a task is paused only because PauseTask was called for it, with no resume and no new entry since |
| PoolSpec.StaleNodeCanEnter | timewheel/pkg/timewheel/task.go:111-139 | The condition is exact: after a paused entry was removed or cleared, any new task can start paused |
| PoolSpec.UpdateCanStayPaused | timewheel/pkg/timewheel/task.go:361-433 | UpdateTask of a paused entry can hand the flag on to the new definition |
| WheelSpec.RunAllPointwise | timewheel/pkg/timewheel/timewheel.go:587-629 | Running distinct collected tasks one after the other treats each of them on its own, in whatever order |
| WheelSpec.AnyOrderIsTick | timewheel/pkg/timewheel/timewheel.go:587-629 | Every order of the due tasks leaves the same entries |
| WheelSpec.UpdateKeepsIds | timewheel/pkg/timewheel/task.go:361-433 | UpdateTask of one wheel never loses a task: on success the entry is the new definition, on failure nothing changed or the old definition is back as a new entry |
| WheelSpec.RunKeepsStateOk | timewheel/pkg/timewheel/task.go:48-616 | Over every run of operations and ticks: entries are valid tasks under their own ids, in a slot of the wheel, with counters below their quota |
| WheelSpec.StepCounts | timewheel/pkg/timewheel/scheduling.go:30-54 | One step moves the counter of a task by its completions and removes it at the latest with its last one |
| WheelSpec.QuotaBoundsCompletions | timewheel/pkg/timewheel/scheduling.go:30-54 | Over every run, a FixedTimes(k) task completes at most k times, a Once task once; after the last completion it is gone, and before it the counter is the number of completions |
| WheelSpec.PanicKeepsEntry | timewheel/pkg/timewheel/scheduling.go:164-191 | A due entry is unchanged by a tick if and only if its callback panicked: it is neither counted nor rescheduled, and stays due |
| WheelSpec.PausedNeverRuns | timewheel/pkg/timewheel/timewheel.go:720-733 | Over every run a paused task stays exactly as it is and never completes, until it is resumed, updated, removed or cleared |
| WheelTiming.FiresWithinRotation | timewheel/pkg/timewheel/timewheel.go:549-569 | From any counter and for any delay there is a first firing tick, with 0 <= lateness < slots * interval |
| WheelTiming.UntouchedUntilFirstFire | timewheel/pkg/timewheel/timewheel.go:549-569 | Over every run of other operations and ticks, nothing happens to an unpaused task before its first firing tick |
| WheelTiming.RunsAtFirstVisit | timewheel/pkg/timewheel/timewheel.go:549-569 | In every run, a linked unpaused task runs at the first visit of its slot at or after `runAt`, never early and less than a rotation late, however `runAt` was set |
| WheelTiming.SlotForIsDueSlot | timewheel/pkg/timewheel/task.go:101-108 | At millisecond precision the computed slot is the slot of the due time |
| WheelTiming.NewEntryIsPlaced | timewheel/pkg/timewheel/task.go:101-116 | AddTask puts an entry into the slot of its due time |
| WheelTiming.RescheduledEntryIsPlaced | timewheel/pkg/timewheel/scheduling.go:57-67 | rescheduleTask does so too |
| WheelTiming.StartAligns | timewheel/pkg/timewheel/timewheel.go:283-286 | Start makes the slot counter agree with the clock |
| WheelTiming.RestartResumes | timewheel/pkg/timewheel/timewheel.go:433-489 | After Stop and a new Start the wheel has its tasks, runs and agrees with the clock |
| WheelTiming.TickKeepsAligned | timewheel/pkg/timewheel/timewheel.go:549-551 | Ticks one interval apart keep it so |
| WheelTiming.ExactLateness | timewheel/pkg/timewheel/timewheel.go:549-569 | Exact lateness for an aligned wheel with tick phase p: p - (runAt mod I) when that is not negative, otherwise a full rotation more |
| WheelTiming.NextRun | timewheel/pkg/timewheel/scheduling.go:57-67 | After a run, the first firing tick of a repeated task is at least Interval and less than Interval + slots * interval away |
| WheelRuns.SuccessiveRuns | timewheel/pkg/timewheel/scheduling.go:57-67 | In every run of operations and ticks, two successive completions of a task that goes on (Repeated, or FixedTimes with runs left) and is not paused, replaced or removed and never panics are at least Interval and less than Interval + slots * interval apart |
| WheelRuns.RunsAgain | timewheel/pkg/timewheel/timewheel.go:549-569 | And it does complete again once the ticks cover its interval and a rotation |
| WheelRuns.LeavesExactlyWhenUsedUp | timewheel/pkg/timewheel/scheduling.go:30-54 | Over every run of ticks and operations that leave the task alone: a Once or FixedTimes task is in the wheel if and only if it has completed fewer than its number of times, and gone if and only if it has completed exactly that number |
| WheelRuns.CompletesInTime | timewheel/pkg/timewheel/timewheel.go:549-629 | Any unpaused task whose callback returns does complete, once the ticks have gone a rotation beyond its due time |
| WheelRuns.AddEnters | timewheel/pkg/timewheel/task.go:111-222 | An added task is due one interval after the call, with its own definition, a fresh alert state and a zero counter; all other entries stay |
| WheelRuns.FirstRunAfterAdd | timewheel/pkg/timewheel/task.go:111-222 | Its first completion comes at least its interval and less than its interval and a rotation after the call |
| WheelRuns.PausedTaskRests | timewheel/pkg/timewheel/task.go:470-495 | After a pause a task does not complete in any run until it is resumed, updated, removed or cleared |
| WheelRuns.ResumeMeans | timewheel/pkg/timewheel/task.go:507-536 | A resumed task is due one interval after the call, in the slot it is in; resuming a task that is not paused changes nothing |
| WheelRuns.FirstRunAfterResume | timewheel/pkg/timewheel/task.go:507-536 | Its first completion after the resume comes at least its interval and less than its interval and a rotation after the call |
| WheelRuns.FirstCompletion | timewheel/pkg/timewheel/timewheel.go:549-569 | The first completion in a run is at the first firing tick |
| WheelRuns.AlertsFollowEvals | timewheel/pkg/timewheel/scheduling.go:196-226 | Over every run, the alert fields of an entry are those its evaluations since it was entered lead to, and its history records are the log of those evaluations |
| WheelRuns.StatesAreDeclared | timewheel/pkg/timewheel/alert.go:17-133 | So the state of every entry in every run is the declared one, and its records replay to it |
| WheelRuns.TickRecords | timewheel/pkg/timewheel/alert.go:61-133 | Whatever the order within a tick, it adds to the records of each task exactly those of its own run |
| WheelTiming.ExactPeriod | timewheel/pkg/timewheel/scheduling.go:57-67 | The exact period of a repeated task in an aligned wheel, by the remainder of its interval and the tick phase |
| WheelTiming.HalfTickIntervalCostsARotation | timewheel/pkg/timewheel/multi_level_timewheel.go:32-35 | In the 10 ms wheel a 15 ms task that ran on phase 0 runs again only 610 ms later |
| WheelMeaning.AddAnswers | timewheel/pkg/timewheel/task.go:48-99 | Which error AddTask returns for which task and wheel, and which definition it keeps |
| WheelMeaning.UpdateAnswers | timewheel/pkg/timewheel/task.go:361-433 | Which error UpdateTask returns: it looks for the task before it validates it |
| WheelMeaning.AddMeans | timewheel/pkg/timewheel/task.go:111-222 | What AddTask leaves: one new entry due one interval later in the slot of that time, or nothing changed |
| WheelMeaning.UpdateMeans | timewheel/pkg/timewheel/task.go:361-433 | What UpdateTask leaves: the new definition as a new entry; the old definition as a new entry when the new one is not valid; or nothing changed |
| WheelMeaning.StartMeans | timewheel/pkg/timewheel/timewheel.go:270-307 | What Start leaves: every task, the flag set, the counter of the clock; below 1 ms it panics with the flag set and the counter as it was |
| WheelMeaning.TickMeans | timewheel/pkg/timewheel/timewheel.go:549-629 | What a tick leaves of one task: untouched if not due, paused or panicked; otherwise gone if it was Once or has now run its number of times, and else due one interval later, one run further, with the new result |
| WheelMeaning.RecordsMean | timewheel/pkg/timewheel/alert.go:61-133 | Each record names its task, carries the result that caused it, and there is at most one for a run |
| WheelMeaning.CountedAreRecorded | timewheel/pkg/timewheel/alert.go:61-133 | A run is counted as an alert exactly when it leaves a record that ends in Firing |
| LevelSpec.LookupFinds | timewheel/pkg/timewheel/multi_level_timewheel.go:210-223 | Trying the three wheels in turn finds an id exactly when it is in one of them |
| LevelSpec.AddCanDuplicate | timewheel/pkg/timewheel/multi_level_timewheel.go:107-137 | AddTask alone can put one id into two wheels |
| LevelSpec.AddKeepsSingleLevel | timewheel/pkg/timewheel/multi_level_timewheel.go:107-137 | An add that succeeds leaves the id in one wheel if and only if it was in none before, and does not touch other ids |
| LevelSpec.UpdateLosesTask | timewheel/pkg/timewheel/multi_level_timewheel.go:338-350 | The three-level UpdateTask loses a task if and only if the new definition is not valid or the wheel of its new priority does not run |
| LevelSpec.ZeroIntervalLosesTask | timewheel/pkg/timewheel/multi_level_timewheel.go:338-350 | For instance an edit of a periodic task to interval 0 |
| LevelSpec.AddSucceedsIff | timewheel/pkg/timewheel/multi_level_timewheel.go:84-137 | An add of an id that is in no wheel succeeds if and only if the task passes both validations and the wheel of its priority runs |
| MultiLevels.MultiLevelTimeWheel.Start | timewheel/pkg/timewheel/multi_level_timewheel.go:140-173 | Starts the three wheels, once |
| MultiLevels.MultiLevelTimeWheel.Stop | timewheel/pkg/timewheel/multi_level_timewheel.go:176-194 | Stops the three wheels, once |
| MultiLevels.MultiLevelTimeWheel.AddTask | timewheel/pkg/timewheel/multi_level_timewheel.go:84-137 | Errors and effect of the routed add; priorities are clamped |
| MultiLevels.MultiLevelTimeWheel.RemoveTask | timewheel/pkg/timewheel/multi_level_timewheel.go:202-223 | Removes from the first wheel that has the id; the error is that of the last wheel |
| MultiLevels.MultiLevelTimeWheel.PauseTask | timewheel/pkg/timewheel/multi_level_timewheel.go:288-306 | The same for pausing |
| MultiLevels.MultiLevelTimeWheel.ResumeTask | timewheel/pkg/timewheel/multi_level_timewheel.go:313-331 | The same for resuming |
| MultiLevels.MultiLevelTimeWheel.UpdateTask | timewheel/pkg/timewheel/multi_level_timewheel.go:338-350 | Remove, then add, with no way back |
| MultiLevels.MultiLevelTimeWheel.GetAllTasks | timewheel/pkg/timewheel/multi_level_timewheel.go:254-265 | Every id as often as there are wheels that hold it |
| TaskServices.AtomicTaskService.ExecuteAtomically | timewheel/internal/service/task_service_atomic.go:71-140 | Log, database, wheel, undo, in this order, refines the protocol step with its five outcomes for every pattern of failing calls |
| TaskServices.AtomicTaskService.Create | timewheel/internal/service/task_service_atomic.go:143-192 | Refines the request, with its checks and closures |
| TaskServices.AtomicTaskService.Delete | timewheel/internal/service/task_service_atomic.go:195-220 | The same for Delete |
| TaskServices.AtomicTaskService.Enable | timewheel/internal/service/task_service_atomic.go:223-255 | The same for Enable |
| TaskServices.AtomicTaskService.Disable | timewheel/internal/service/task_service_atomic.go:258-286 | The same for Disable |
| TaskServices.AtomicTaskService.Pause | timewheel/internal/service/task_service_atomic.go:289-317 | The same for Pause |
| TaskServices.AtomicTaskService.Resume | timewheel/internal/service/task_service_atomic.go:320-354 | The same for Resume, which adds the task when no wheel could resume it |
| TaskServices.AtomicTaskService.Update | timewheel/internal/service/task_service_atomic.go:357-440 | The same for Update |
| TaskServices.AtomicTaskService.RepairInconsistentState | timewheel/internal/service/task_service_atomic.go:487-541 | Without the page of rows nothing changes and the repair fails; with it the two loops compute the repair function on the page and a listing of the wheels |
| ServiceSpec.CleanFailureUndoes | timewheel/internal/service/task_service_atomic.go:106-139 | A failure whose rollback succeeds leaves every row as it was, and for every operation but Update the wheels; a failed Update of an enabled, unpaused task has taken it out of its wheel |
| ServiceSpec.ExecuteKeepsConsistentIff | timewheel/internal/service/task_service_atomic.go:71-440 | Each of the seven operations, whatever calls fail, keeps rows and wheels in agreement and each id in at most one wheel if and only if it is safe: it is stopped before the wheel, or adds nothing, or adds a task that can be added, or is undone, which an Update never is |
| ServiceSpec.WheelOpSucceedsIff | timewheel/internal/service/task_service_atomic.go:143-440 | Before the call: the wheel part succeeds if and only if the task it adds can be added, or the entry it needs is in a wheel |
| ServiceSpec.UpdateKeepsAgreementIff | timewheel/internal/service/task_service_atomic.go:357-440 | An Update that reaches the wheel loses an enabled, unpaused task if and only if the edited task is not valid or the wheel of its priority does not run, rollback or not |
| ServiceSpec.InvalidEditLosesTask | timewheel/internal/service/task_service_atomic.go:357-440 | With no failing call, every edit of an enabled, unpaused task to an invalid one is rolled back, rows as before, and the task is gone from its wheel |
| ServiceSpec.ZeroIntervalEditLosesTask | timewheel/internal/service/task_service_atomic.go:357-440 | For instance an interval of 0, which the service accepts although its request type excludes it |
| ServiceSpec.ModeEditLosesTask | timewheel/internal/service/task_service_atomic.go:357-440 | And an edit that the request type allows: fixed times on a row without a number of times |
| ServiceSpec.OutcomeTellsSafety | timewheel/internal/service/task_service_atomic.go:106-139 | Afterwards: an operation was unsafe if and only if it is an Update that was rolled back, or a stuck operation that was to add a task |
| ServiceSpec.ExecuteKeepsConsistent | timewheel/internal/service/task_service_atomic.go:71-440 | Every operation that completes or is cleanly rolled back keeps the agreement, but for an Update that was rolled back, which never does |
| ServiceSpec.RunKeepsConsistentIff | timewheel/internal/service/task_service_atomic.go:71-440 | Over every run of requests and ticks with periodic tasks, whatever calls fail: rows and wheels agree all the way (an enabled unpaused row is in a wheel, a task in a wheel has an enabled row, no id is in two wheels) if and only if every event is safe where it happens |
| ServiceSpec.ValidRunsKeepConsistent | timewheel/internal/service/task_service_atomic.go:71-440 | In particular while the wheels run and no request stores an invalid task, even if rollbacks fail |
| ServiceSpec.LogTellsOutcome | timewheel/internal/service/task_service_atomic.go:90-139 | The newest log entry names task and operation, and its status tells the outcome, unless writing the status failed; then it still reads pending |
| ServiceSpec.ExecuteBlames | timewheel/internal/service/task_service_atomic.go:71-140 | An operation that leaves rows and wheels in disagreement about a task leaves a log entry that says so |
| ServiceSpec.RunKeepsAccounted | timewheel/internal/service/task_service_atomic.go:71-440 | Whatever calls fail, over every run of requests and ticks with periodic tasks: each task about which rows and wheels disagree has a log entry that is pending, stuck, or a failed update |
| ServiceSpec.OnceTaskLeavesWheel | timewheel/internal/service/task_service_atomic.go:71-140 | The restriction to periodic tasks is needed |
| ServiceSpec.NeedsWheel | timewheel/internal/service/task_service_atomic.go:195-317 | Delete, Disable and Pause complete if and only if no repository call fails and the id is in a wheel |
| ServiceSpec.DisabledCannotBeDeleted | timewheel/internal/service/task_service_atomic.go:195-220 | So in a consistent state a disabled task cannot be deleted; the request changes neither rows nor wheels |
| FlagSpec.FrozenNeverRuns | timewheel/internal/service/task_service_atomic.go:223-354 | A task with an enabled, unpaused row and a paused wheel entry never runs and stays so over every run of requests and ticks in which no Delete, Disable, Pause or Update of it gets through; Resume, Enable and Create do not help |
| FlagSpec.PauseThenResumeRevives | timewheel/internal/service/task_service_atomic.go:289-354 | Pause, then Resume, does: row and entry are unpaused afterwards |
| FlagSpec.FlagAgreesUnlessStale | timewheel/internal/service/task_service_atomic.go:143-440 | A completed operation leaves row and wheel with the same paused flag if and only if it did not enter the task on a node with a stale flag |
| FlagSpec.RunKeepsFlags | timewheel/internal/service/task_service_atomic.go:143-440 | Over every run of safe events in which no paused task that is in a wheel is deleted or disabled, from clean pools: rows and wheel entries agree about every paused flag, and the pools stay clean |
| FlagSpec.RemovingPausedCanFreeze | timewheel/internal/service/task_service_atomic.go:143-220 | The condition is exact: after a paused task was deleted, the next task of its priority can be frozen from the start |
| ServiceMeaning.EarlyOutcomes | timewheel/internal/service/task_service_atomic.go:143-440 | Which requests are refused, which find nothing to do, and which fail in the database |
| ServiceMeaning.CreateMeans | timewheel/internal/service/task_service_atomic.go:143-192 | A Create that is done: the row is there, unpaused, with the given or generated id and the given fields, and the task is in the wheel of its priority and in no other exactly if it is enabled |
| ServiceMeaning.DeleteMeans | timewheel/internal/service/task_service_atomic.go:195-220 | A Delete that is done leaves no row and no entry in any wheel |
| ServiceMeaning.EnableMeans | timewheel/internal/service/task_service_atomic.go:223-255 | An Enable that is done changes one flag of the row; the task is in the wheel of its priority exactly if it is not paused |
| ServiceMeaning.DisableMeans | timewheel/internal/service/task_service_atomic.go:258-286 | A Disable that is done changes one flag of the row and leaves no entry |
| ServiceMeaning.PauseMeans | timewheel/internal/service/task_service_atomic.go:289-317 | A Pause that is done changes the flag of the row and of the entry, and nothing else of them |
| ServiceMeaning.ResumeMeans | timewheel/internal/service/task_service_atomic.go:320-354 | A Resume that is done changes the flag of the row; a paused entry is due one interval later, an unpaused one stays as it is, and without an entry the task is entered if it is enabled |
| ServiceMeaning.UpdateMeans | timewheel/internal/service/task_service_atomic.go:357-440 | An Update that is done: each of the six fields of the row has the given value, or the old one if none was given; an enabled, unpaused task is in the wheel of its new priority and in no other, with that definition |
| ServiceMeaning.RowsMean | timewheel/internal/service/task_service_atomic.go:106-139 | Which row each request leaves in the database when it is done, stuck, failed or rolled back |
| ServiceMeaning.RequestsKeepOthers | timewheel/internal/service/task_service_atomic.go:71-440 | Every request leaves the rows and entries of all other tasks alone, however it ends |
| ServiceMeaning.FirstWheelIsAsked | timewheel/pkg/timewheel/multi_level_timewheel.go:210-223 | Remove, pause and resume change the first wheel that holds the id, in the order high, normal, low, and no other |
| ServiceMeaning.AddAnswers | timewheel/pkg/timewheel/multi_level_timewheel.go:84-137 | Which error the three-level AddTask returns; it demands an interval of every mode |
| ServiceMeaning.LevelUpdateMeans | timewheel/pkg/timewheel/multi_level_timewheel.go:338-350 | A task that the three-level UpdateTask does not lose is in the wheel of its new priority with its new definition |
| ServiceMeaning.Rotations | timewheel/pkg/timewheel/multi_level_timewheel.go:30-56 | The three wheels turn in 0.6, 6 and 60 seconds, by steps of 10, 100 and 1000 ms |
| ServiceSpec.PlanIsFresh | timewheel/internal/service/task_service_atomic.go:143-440 | Each operation works on the row it just read, with the flags its guard checked |
| RepairSpec.RepairPointwise | timewheel/internal/service/task_service_atomic.go:487-541 | What one repair does to each id, from any state of the wheels, ids in several wheels included |
| RepairSpec.PageIsComplete | timewheel/internal/service/task_service_atomic.go:491-499 | With at most 10000 enabled rows the page holds all of them |
| RepairSpec.RepairConverges | timewheel/internal/service/task_service_atomic.go:487-541 | With at most 10000 enabled rows whose adds succeed: afterwards every enabled unpaused row is in a wheel and every id in a wheel is an enabled row |
| RepairSpec.RepairServesRowsIff | timewheel/internal/service/task_service_atomic.go:487-541 | Exactly when the enabled unpaused rows are served after a repair: each is on the page and was in a wheel or can be added |
| RepairSpec.RowsBeyondAPageAreLost | timewheel/internal/service/task_service_atomic.go:491-541 | With more than 10000 enabled rows there always is an enabled row whose task is in no wheel after a repair, wherever it was before |
| RepairSpec.RepairIsIdempotent | timewheel/internal/service/task_service_atomic.go:487-541 | A second repair on the same rows changes nothing at all |
| RepairRuns.RepairMeans | timewheel/internal/service/task_service_atomic.go:487-541 | What a repair makes of one task, from any state of the wheels: off the page it is in no wheel; on the page an entry stays as it is, and a missing one is entered with the definition of its row if that is not paused and can be added |
| RepairRuns.RepairIsConsistentIff | timewheel/internal/service/task_service_atomic.go:487-541 | From any state of the wheels: rows and wheels agree after a repair, and no id is in two wheels, if and only if each enabled row that is not paused is on the page and in a wheel or can be added, and no row on the page is in two wheels |
| RepairRuns.RepairRestores | timewheel/internal/service/task_service_atomic.go:487-541 | So with at most 10000 enabled rows that are not in two wheels and can be added, a repair restores the agreement that the run theorems start from |
| RepairRuns.RunsWithRepairsIff | timewheel/internal/service/task_service_atomic.go:71-541 | Over every run of requests, ticks and repairs, whatever calls fail: rows and wheels agree all the way if and only if every request is safe where it happens and every repair sees all enabled unpaused rows |
| Redlines.MergeTrackedChangesIn | skills/docx/scripts/office/helpers/simplify_redlines.py:47-72 | The loop ends with no mergeable neighbours of its tag and breaks none of the other tag; the flattened content with its authors and the blanks stay; the count is the number of elements that disappeared; the text left for every author is that of the list in which each change belongs to the author of the head of its group, and if each pair it merges has one author for the validator, the meaning stays |
| Redlines.CanMergeTracked | skills/docx/scripts/office/helpers/simplify_redlines.py:89-101 | The sibling scan decides exactly: same author and nothing but comments and blank text between |
| Redlines.AuthorFromAttributes | skills/docx/scripts/office/helpers/simplify_redlines.py:80-86 | The author of a change: the w:author if it is there and not empty, otherwise the first attribute of that local name |
| Redlines.NamedMergeIff | skills/docx/scripts/office/helpers/simplify_redlines.py:75-101 | Two elements that name their w:author merge if and only if they are of the same kind, their w:author is the same, and only comments and white space lie between |
| Redlines.MergedIsApart | skills/docx/scripts/office/helpers/simplify_redlines.py:22-44 | Afterwards, in every paragraph and table cell, two insertions or two deletions with the same w:author never stand side by side with only blanks between |
| Xml.SpacesAndLetters | skills/docx/scripts/office/helpers/simplify_redlines.py:97-99 | Which characters are white space, by code |
| RedlineItems.AuthorIsCredited | skills/docx/scripts/office/helpers/simplify_redlines.py:80-86 | The marks of the compared items name the author that the attributes give |
| Redlines.MergeAtKeepsContent | skills/docx/scripts/office/helpers/simplify_redlines.py:104-108 | One merge moves borders only |
| Redlines.MergeAtKeepsMeaning | skills/docx/scripts/office/helpers/simplify_redlines.py:104-108 | One merge keeps the text and the paragraphs that are left for every author, if both elements belong to the same w:author |
| RedlineDocs.LoopIsSoundIff | skills/docx/scripts/office/helpers/simplify_redlines.py:47-108 | The exact condition for the whole loop: it keeps the text that is left for every author, whatever stands inside the nodes, if and only if each two elements it takes for changes of one author have one w:author |
| RedlineDocs.MergingIsSoundIff | skills/docx/scripts/office/helpers/simplify_redlines.py:80-108 | The same condition for every single merge |
| RedlineDocs.StandardIsSound | skills/docx/scripts/office/helpers/simplify_redlines.py:80-86 | Standard documents meet the condition |
| Redlines.NamedIsSound | skills/docx/scripts/office/helpers/simplify_redlines.py:80-101 | So do all documents whose tracked changes are w: elements with a non-empty w:author |
| Redlines.MergeAtKeepsSound | skills/docx/scripts/office/helpers/simplify_redlines.py:47-72 | Merging keeps the condition, for both tags |
| Redlines.JoinIsSoundIff | skills/docx/scripts/office/helpers/simplify_redlines.py:80-108 | Joining two tracked changes of one kind is sound for all contents if and only if taking back the same author takes back both |
| Redlines.FallbackAuthorChangesMeaning | skills/docx/scripts/office/helpers/simplify_redlines.py:80-86 | The merge also accepts an author outside the w: namespace; a concrete pair whose text then changes |
| Redlines.MergeAtKeepsOther | skills/docx/scripts/office/helpers/simplify_redlines.py:32-37 | Merging insertions does not make deletions mergeable, and the other way round |
| RedlineDocs.UnwrapMeaning | skills/docx/scripts/office/validators/redlining.py:198-243 | The two loops of the validator, on its own tree form, leave exactly the declared meaning: insertions of the author gone, deletions unwrapped, w:delText below them shown |
| RedlineDocs.LinesTellParagraphs | skills/docx/scripts/office/validators/redlining.py:229-243 | The extracted text tells every paragraph that is not empty, in order |
| RedlineDocs.SameMeaningLeavesSameText | skills/docx/scripts/office/validators/redlining.py:198-243 | Documents of one meaning give the validator the same text for every author |
| RedlineDocs.SimplifyRedlines | skills/docx/scripts/office/helpers/simplify_redlines.py:22-44 | In every document, what stands in it stays in reading order: all elements with their attributes, text and comments, each with the tag and author of the changes around it; only the borders of changes and the place of blanks between them differ. For every author, the text the validator compares is the same before and after, if merging is sound in every paragraph and table cell, as it is when all tracked changes name their w:author. Afterwards no paragraph and no table cell has mergeable neighbours; the count is exact |
| RedlineItems.ContainerKeeps | skills/docx/scripts/office/helpers/simplify_redlines.py:47-72 | Merging the changes of one container changes nothing that the whole document holds but their borders |
| MergeRuns.MergeRunsIn | skills/docx/scripts/office/helpers/merge_runs.py:108-125 | On every container: the other nodes stay, the count is runs before minus runs after, no two runs that look alike stay with no element between them; with text elements as the schema has them, what a reader sees (characters and objects with their formatting, other elements between) is unchanged and nothing is raised; a container that was merged before comes back untouched with count 0 |
| MergeDocs.MergeDocument | skills/docx/scripts/office/helpers/merge_runs.py:32-36 | The whole pass over every parent of runs, in a document whose runs stand where the schema has them: nothing is raised; letters with their formatting, all elements in which no run stands in whole, and all others with their attributes, text and comments stay in reading order; the count is the number of runs that disappeared, and in no list of children is anything left to merge |
| MergeDocs.DeletedTextIsSeen | skills/docx/scripts/office/helpers/merge_runs.py:3-4 | What stays includes all text that is not in a w:t, such as deleted text |
| MergeDocs.ContainerKeeps | skills/docx/scripts/office/helpers/merge_runs.py:32-36 | Merging one container changes neither what the whole document shows nor whether the containers inside it are done |
| MergeRuns.CanMergeIff | skills/docx/scripts/office/helpers/merge_runs.py:159-167 | Two runs are merged if and only if neither has run properties, or both have and their first ones are equal |
| MergeRuns.StableIffSettled | skills/docx/scripts/office/helpers/merge_runs.py:108-125 | Nothing is left to merge if and only if no two runs with no element between them look alike in that sense, and no two texts of a run have only blanks between them |
| MergeRuns.MergeTwice | skills/docx/scripts/office/helpers/merge_runs.py:108-125 | A second pass merges nothing |
| MergeRuns.AbsorbFollowing | skills/docx/scripts/office/helpers/merge_runs.py:112-119 | The inner loop absorbs runs until the next element is none of the same formatting |
| MergeRuns.MergeRunContent | skills/docx/scripts/office/helpers/merge_runs.py:170-175 | Appends the child elements other than run properties, in order |
| MergeRuns.MergedRunShowsBoth | skills/docx/scripts/office/helpers/merge_runs.py:159-175 | The merged run has the common formatting and shows the content of both runs |
| MergeRuns.ConsolidateText | skills/docx/scripts/office/helpers/merge_runs.py:178-199 | Raises if and only if two adjacent texts cannot both be read; otherwise leaves no adjacent texts and keeps the formatting, and every character if the texts are plain; leaves a joined run as it is |
| MergeRuns.JoinKeepsTextIff | skills/docx/scripts/office/helpers/merge_runs.py:181-199 | Exactly when joining two text elements keeps their text, whatever their nodes say: of several text nodes the code reads and keeps the first one only |
| MergeRuns.JoinKeepsPieces | skills/docx/scripts/office/helpers/merge_runs.py:181-199 | One join changes no formatting, and no character of plain texts |
| MergeRuns.IsAdjacent | skills/docx/scripts/office/helpers/merge_runs.py:78-88 | The sibling scan decides exactly |
| Clean.Folder.CleanUnusedFiles | skills/pptx/scripts/clean.py:241-264 | What is left is the greatest set of the remaining files in which each supports another as required; the list names each deleted file exactly once; no override of a deleted file is left; fails exactly when the trash folder has subfolders |
| Clean.Folder.RemoveUnused | skills/pptx/scripts/clean.py:250-259 | The loop ends and computes the iterated pass, whatever the order of deletions |
| Clean.Folder.RemoveOrphanedRelsFiles | skills/pptx/scripts/clean.py:106-150 | Deletes exactly the .rels files of charts, diagrams and drawings without an owner that a slide refers to |
| Clean.Folder.RemoveOrphanedFiles | skills/pptx/scripts/clean.py:171-218 | Deletes the unreferenced resources, themes with their .rels files, notes, and ownerless notes .rels files |
| Clean.Folder.GetReferencedFiles | skills/pptx/scripts/clean.py:153-168 | The targets of all .rels files that are there |
| Clean.Folder.RemoveOrphanedSlides | skills/pptx/scripts/clean.py:49-88 | Deletes the slides outside the slide list with their .rels files; the presentation forgets their relationships only if something was deleted |
| Clean.Folder.GetSlidesInSldidlst | skills/pptx/scripts/clean.py:27-46 | The listed slides; without a presentation none |
| Clean.Folder.UpdateContentTypes | skills/pptx/scripts/clean.py:221-238 | Drops exactly the overrides of deleted files |
| Clean.UnionIsStable | skills/pptx/scripts/clean.py:106-218 | Sets of mutually supporting files are closed under union, so a greatest one exists |
| Clean.PassKeepsStable | skills/pptx/scripts/clean.py:250-259 | No pass deletes a file of such a set |
| Clean.FixpointIsStable | skills/pptx/scripts/clean.py:250-259 | A pass that deletes nothing shows that the files are such a set |
| Clean.CleanedIsGreatestStable | skills/pptx/scripts/clean.py:250-259 | The loop leaves the greatest one |
| Clean.CleaningIsIdempotent | skills/pptx/scripts/clean.py:250-259 | Cleaning a cleaned folder deletes nothing |
| CleanMeaning.StaysIffSupported | skills/pptx/scripts/clean.py:106-218 | After cleaning, each file of the remaining ones is there if and only if it has its support among those that are there |
| CleanMeaning.ResourceStaysIff | skills/pptx/scripts/clean.py:172-186 | By path: a file under ppt/media, embeddings, charts, diagrams, tags, drawings or ink is there if and only if an entry of some .rels file that is there leads to it |
| CleanMeaning.ThemeStaysIff | skills/pptx/scripts/clean.py:188-208 | The same for ppt/theme/theme*.xml and the .xml files of ppt/notesSlides |
| CleanMeaning.ResourceRelsStayIff | skills/pptx/scripts/clean.py:128-150 | The .rels file of a chart, diagram or drawing is there if and only if that is there and the .rels file of some slide refers to it; one without a name belongs to the directory |
| CleanMeaning.NotesRelsStayIff | skills/pptx/scripts/clean.py:210-216 | The .rels file of a notes page is there if and only if the page is |
| CleanMeaning.ThemeRelsStayIff | skills/pptx/scripts/clean.py:188-198 | The .rels file beside a theme goes with it, and stays when there never was a theme beside it |
| CleanMeaning.OthersStay | skills/pptx/scripts/clean.py:171-218 | Every file of any other place or name is there |
| CleanMeaning.FirstStepsRemove | skills/pptx/scripts/clean.py:49-103 | Before that, exactly the slide files that no listed entry of the presentation names, the .rels files beside them and the files in the trash folder have gone |
| CleanMeaning.ListedMeans | skills/pptx/scripts/clean.py:27-46 | A slide is listed if and only if the last slide entry of a listed relationship id names it, in the .rels file of an existing presentation |
| CleanMeaning.PresentationForgets | skills/pptx/scripts/clean.py:71-86 | Once a slide was removed, the presentation keeps its other relationships, all of them and in order |
| CleanMeaning.DropThins | skills/pptx/scripts/clean.py:221-238 | The overrides that stay are those of files that were not deleted, all of them and in order |
| CleanMeaning.WithoutFirst | skills/pptx/scripts/clean.py:139-146 | What removing every ".rels" of a name leaves |
| Snowflake.NewNode | timewheel/pkg/snowflake/snowflake.go:91-100 | A node is made exactly for the node numbers 0 to 1023 |
| Snowflake.Node.Generate | timewheel/pkg/snowflake/snowflake.go:103-130 | Fails exactly when the clock went back; otherwise issues the packed identifier of the next mark, with the wait loop run over the clock readings of the call |
| Snowflake.NextIsLater | timewheel/pkg/snowflake/snowflake.go:103-130 | Every identifier has a later time, or the same time and a larger sequence, than the one before |
| Snowflake.MarksGrow | timewheel/pkg/snowflake/snowflake.go:103-130 | So through any run, with backward steps, sequence wrap-around and waiting |
| Snowflake.PackIsSum | timewheel/pkg/snowflake/snowflake.go:128-128 | The shifted fields do not overlap: the bitwise or is their sum, with the time cut to 42 signed bits |
| Snowflake.FieldsComeBack | timewheel/pkg/snowflake/snowflake.go:159-201 | Node and sequence always come back from an identifier, the time as far as 42 signed bits go |
| Snowflake.ParseRecoversIff | timewheel/pkg/snowflake/snowflake.go:159-175 | ParseID gives back reading, node and sequence if and only if the node counts from the package epoch and the time is below 2^41; it refuses exactly the times from 2^41 on (within 2^42) |
| Snowflake.NodesNeverCollide | timewheel/pkg/snowflake/snowflake.go:128-128 | Identifiers of different nodes differ; equal identifiers have equal sequence and times a multiple of 2^42 apart |
| Snowflake.NodesAreApart | timewheel/pkg/snowflake/snowflake.go:103-130 | Over whole runs: nodes of different numbers never issue the same identifier, whatever their clocks and epochs |
| Snowflake.NodeRepeatsOnlyAfterRange | timewheel/pkg/snowflake/snowflake.go:103-130 | Two identifiers of one run are equal if and only if they are a positive multiple of 2^42 ms apart with the same sequence |
| Snowflake.MarksFollow | timewheel/pkg/snowflake/snowflake.go:103-130 | The run is the one the clock readings determine: an earlier reading leaves the node as it is, a later one starts sequence 0, the same one goes on to 4095, and then the first later reading counts; exactly the calls that move the node issue an identifier |
| Snowflake.OrIsBitwise | timewheel/pkg/snowflake/snowflake.go:128-128 | The or of the packing is the bitwise one |
| Snowflake.OrderIff | timewheel/pkg/snowflake/snowflake.go:103-130 | When the order of identifiers is the order of their marks |
| Snowflake.IdsIncreaseIff | timewheel/pkg/snowflake/snowflake.go:103-130 | In the first 2^42 ms the identifiers of a run are non-negative and strictly increasing if and only if none is issued from 2^41 ms on |
| RateLimit.Limiter.Handle | timewheel/internal/server/middleware/middleware.go:119-158 | One request changes the bucket of its client only, as the machine step says |
| RateLimit.Limiter.HandleAll | timewheel/internal/server/middleware/middleware.go:119-158 | For every run of requests at any clock: a request passes if and only if, counting the earlier verdicts, each window of its client that ends with it holds at most burst + limit * length; without limits per address all requests are of one client; a disabled limiter passes everything |
| RateLimit.VerdictIff | timewheel/internal/server/middleware/middleware.go:119-158 | The verdicts of the machine obey this rule |
| RateLimit.BucketHoldsLeast | timewheel/internal/server/middleware/middleware.go:140-158 | The tokens of a client are the least of burst + rate * length - admitted over all its windows |
| RateLimit.AdmittedIff | timewheel/internal/server/middleware/middleware.go:119-158 | The whole meaning, for any clock: a request is let through if and only if every window of its own client that ends with it then holds at most burst + rate * length admitted requests; other clients do not matter |
| RateLimit.WindowBound | timewheel/internal/server/middleware/middleware.go:140-158 | From any request of a client on, the admitted ones number at most burst + rate * time up to the last of them, without any condition on the clock |
| RateLimit.TimeWindowBound | timewheel/internal/server/middleware/middleware.go:140-158 | With a forward clock: at most burst + rate * (t - s) in every window [s, t] |
| RateLimit.SteadyClientPasses | timewheel/internal/server/middleware/middleware.go:140-158 | A client that keeps to the rate is never refused |
| RateLimit.TokensStayInRange | timewheel/internal/server/middleware/middleware.go:140-158 | With a forward clock, tokens stay between 0 and the burst |

## Left out

- Goroutines, locks, contexts, coroutine pools, semaphores: operations, ticks and callbacks are sequential steps, so the checks that a collected node is still linked never fire and are not modelled.
- TimeWheels.TimeWheel.Stop: the waiting for running tasks, the closed pools and history, and the cancelled contexts of the nodes are not modelled: after a stop and a new start, a task with a timeout that was added before is counted without being called.
- TimeWheels.TimeWheel.Start: the goroutines it starts and the restoring of stored tasks.
- MultiLevels.MultiLevelTimeWheel.Stop: the release of the pool manager. A later Start hands the released one to the wheels again, so a restarted three-level wheel collects its due tasks and runs none of them; here it runs them.
- TimeWheels.TimeWheel.constructor: options other than slots, interval and cache.
- The runtime may drop pooled nodes at any time; the pool here keeps them. The results about clean pools only bound its flags from above, the others show what can happen.
- Calls back into the wheel from a callback, timeouts, and the error of a cancelled context.
- The clock after 1970 only: Go truncates where Dafny floors on negative readings. One tick or call uses one reading.
- Go's `int` and `time.Duration` are unbounded here, except in Snowflake, where 64-bit wrap-around is modelled.
- Aliasing of the caller's task record: AddTask writes its defaults into it, and a caller could change it later.
- String pool, labels, annotations, severity, description, durations of runs, metrics, status printing, task store and history persistence with its size limit.
- The hash `fnv64`: any function from ids to numbers.
- The slot lists share one unlink and one insertion here; the code repeats them in each operation.
- RemoveTask's cache deletion comes after its pool step here; both are one sequential step.
- AddTaskBatch, RemoveTaskBatch, GetAllTasks and Stats of one wheel, GetTasksByState, ClearAllTasks of three levels: loops over what is modelled.
- MultiLevelTimeWheel and AtomicTaskService hold each wheel as its abstract state, not as a heap object: the heap wheel's methods have these states' steps as contracts, but no theorem speaks about three heap wheels at once.
- The database is a map of live rows, the operation log a sequence; a repository call happens or fails without effect. Name, severity, timeout and label fields of rows and edits do not reach the model. The row is read under the same lock as the operation here.
- The non-atomic task service.
- XML parsing, namespace prefixes, serialisation: formatting is equal when run properties are equal trees, which implies equal serialisations.
- Document trees are values: merging replaces child lists instead of moving DOM nodes. The validator's two loops are recursive functions on its trees.
- RedlineDocs.SimplifyRedlines: visits inner containers before outer ones; the code goes the other way, which makes no difference because a merge changes only the container's own child list. Attributes other than the author of a change that is merged into another are not kept.
- Root elements that are themselves tracked changes: the validator never takes the root back, and neither does TextLeft.
- MergeDocs.MergeDocument: inner containers before outer ones; the code visits them in the order of a set. In a document with runs directly inside runs, or inside run properties or texts, nothing is promised. The removal of proofErr elements and rsid attributes, and `xml:space`, are not modelled. Attributes of runs and of w:t, and text and comments directly inside a run, which the schema does not allow, are not part of what a reader sees.
- Clean: relationships are parsed already, and target resolution is a field of theirs (an absolute target leads outside the folder); directories and links are not modelled; a path is a sequence of names.
- Snowflake: the default node, string forms and prefixes. A call that still waits when its readings end never returns, so a run ends there.
- RateLimit: tokens and seconds are reals, not floating-point numbers; the HTTP handling around the decision.
- Handlers, authentication, configuration, health, webhooks, Redis locks, PDF, GIF, MCP and evaluation scripts: I/O and plumbing.
