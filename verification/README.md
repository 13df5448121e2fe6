# Protocol kernels of the service framework, verified

The framework bundles a number of small protocols and state machines whose promises hold over whole runs, not single
calls. This project models twelve of them in Dafny and proves those promises for every input, every interleaving or every
reachable state. `dafny verify dfyconfig.toml` checks everything.

| file | what it models |
|---|---|
| `CmdLog.dfy` | the reconnect log: two ring buffers against the unbounded history they forget |
| `Handoff.dfy` | ownership transfer of an entity between two processes over an ordered channel |
| `Lifecycle.dfy` | application start-up and shutdown: two goroutines per service, two cancellation scopes |
| `JobQueue.dfy`, `JobRuns.dfy` | the Redis job queue, one Redis command at a time, with crashes and lock expiry; particular runs of it |
| `InstancePool.dfy` | the policy-instance pool: a channel and a semaphore shared by concurrent callers |
| `Snowflake.dfy` | the ID generator: 64-bit arithmetic and an adversarial clock |
| `BehaviorTree.dfy`, `NodeLaws.dfy`, `TreeLaws.dfy` | behaviour trees: the interpreter and its loops, what one tick of each node means, and laws over runs of ticks |
| `Failover.dfy`, `Budget.dfy` | three failover engines and one contract; the compare-and-swap token budget |
| `HeaderCodec.dfy` | the serialized header map of the Proxy-Wasm ABI v0.2.1 ("HTTP fields") |
| `ProxyHost.dfy` | contexts and callouts of one Proxy-Wasm instance with an arbitrary re-entrant guest |
| `AgUi.dfy` | the AG-UI bridge: the server's translation loop and the client's parsing loop |
| `Words.dfy` | 32- and 64-bit words over unbounded integers |

How the source's form is kept: objects with mutable fields are classes (`Log`, `Source`, `Target`, `Generator`, `Host`),
loops are methods proved equal to a specification function, byte buffers are arrays, and concurrent code is a step system
in which every interleaving is a sequence of atomic steps (one channel operation, one Redis command, one load or swap, one
select). Clocks, schedulers, consumers, guests, handlers, registries and model clients are arbitrary inputs.

## Where the code and its description differ

The model follows the code. Each point below is part of a theorem.

- On a full reset the log returns the snapshot chosen for `since`, not the newest one (pkg/cmdlog/cmdlog.go:12-13
  against 171-190), and the flag is cautious: where frames were skipped it can be raised with nothing lost
  (`CmdLog.ResetWithoutLoss`; exactly when, for all increasing frames, `CmdLog.ResetIsExactIff`). The comparison with
  `frame + 1` wraps at the last 64-bit frame.
- `Source.state` never changes, importing a bundle overwrites the target's state, and a bundle that comes after
  acceptance is refused. So an operation is lost by an import over something already replayed, by the refusal of a
  bundle that carries operations, and by giving up a buffer unsent; over every run that settles, nothing is lost if and
  only if no call does one of these (`Handoff.Linearization`, `Handoff.NothingLostIff`). Instances:
  `Handoff.SecondExportLoses`, `Handoff.LateBundleLoses`.
- Aborting before the target accepts does not by itself keep ownership exclusive, because a bundle in flight can still
  be accepted (`Handoff.AbortedBundleStillAccepted`; exact condition in `Handoff.ExclusiveIff`).
- The queue moves jobs with separate commands. A submitted job is kept (it has its record and a place) if and only if
  its record is there when Submit queues it and afterwards no Clean deletes that record, no process crashes as its only
  holder between a removal and the matching insertion, and no Clean pops it out of its last place
  (`JobQueue.SubmittedIsKeptIff`). So there are losses with a crash (`JobRuns.PopThenCrashLoses`) and without any: a
  Clean that popped an ID in its earlier life deletes the record of the job submitted under the same ID meanwhile
  (`JobRuns.ResubmitDuringCleanLoses`). If an ID is never submitted while a Clean of it is under way, only the crash
  remains (`JobQueue.NoLostJob`). An old completed entry of an ID that was submitted again can also be cleaned, and
  takes the new record with it. A job submitted with a delay is stored as "waiting".
- After a failed re-instantiation the semaphore is popped although the instance may never have had a slot, so a later
  `putInstance` can block (`InstancePool.PutCanBlock`; exactly when, in every run, `InstancePool.ReceiveBlocksIff`).
- A stalled-clock error has already reset the sequence without moving the clock, so the next call in the same
  millisecond repeats IDs (`Snowflake.StallReuses`; exact condition in `Snowflake.StrictlyIncreasingIff`).
- A Repeater with a negative limit loops inside one tick; the documentation says every limit up to 0 repeats for ever,
  which for 0 means once per tick (exactly when such a tick ends, over any child, `TreeLaws.RepeaterTickEndsIff`).
- A reasoning message is closed only by text or by the final event, so a pause or running out of events leaves it open
  (`AgUi.ServerStreamShape`).
- The local-response path of the request phase finishes stream 0, after the stream's own context was already deleted
  (`ProxyHost.Host.Serve`).
- The budget check adds in 64 bits: a request large enough to overflow drives the counter negative
  (`Budget.HugeRequestBreaks`).

## Model

| member | source | states |
|---|---|---|
| `CmdLog.Log.constructor` | pkg/cmdlog/cmdlog.go:43-103 | an empty log of the given depths, non-positive ones replaced by 512 and 8 |
| `CmdLog.Log.Record` | pkg/cmdlog/cmdlog.go:107-120 | refuses exactly the frames not after everything recorded; otherwise the unbounded history grows by one entry and the ring still mirrors it, wrap-around included |
| `CmdLog.Log.Checkpoint` | pkg/cmdlog/cmdlog.go:123-131 | the unbounded list of checkpoints grows by one and the ring still mirrors it |
| `CmdLog.Log.FindSnap` | pkg/cmdlog/cmdlog.go:171-190 | the backward scan of the ring finds the checkpoint that the specification chooses among the retained ones |
| `CmdLog.Log.Collect` | pkg/cmdlog/cmdlog.go:194-214 | the forward scan of the ring collects exactly the retained commands after the snapshot, oldest first, and computes the reset flag |
| `CmdLog.Log.Recover` | pkg/cmdlog/cmdlog.go:163-223 | the whole answer equals a function of the unbounded histories and the two depths, with no mention of the rings |
| `CmdLog.Perform` | pkg/cmdlog/cmdlog.go:107-131 | any sequence of Record and Checkpoint calls on a new log leaves exactly the histories that the theorems speak about |
| `CmdLog.RingPush` | pkg/cmdlog/cmdlog.go:113-119 | writing at the head and advancing it modulo the depth keeps the ring equal to the last elements ever written |
| `CmdLog.RingRead` | pkg/cmdlog/cmdlog.go:174-206 | the modular index arithmetic of both scans lands on the j-th last element ever written |
| `CmdLog.ReplayReachesTruth` | pkg/cmdlog/cmdlog.go:107-223 | for all depths and call histories with faithful checkpoints, an answer without full reset replays to the fold of the whole unbounded history |
| `CmdLog.SnapshotChoice` | pkg/cmdlog/cmdlog.go:163-192 | the snapshot is the greatest retained frame up to `since`, else the oldest retained one, which is the least when frames never go back; no answer exactly when nothing was checkpointed |
| `CmdLog.NewestOfItsFrame` | pkg/cmdlog/cmdlog.go:171-185 | of several checkpoints at the chosen frame, the newest is taken |
| `CmdLog.CommandsAreTheRest` | pkg/cmdlog/cmdlog.go:194-222 | the commands returned are exactly the retained ones after the snapshot, a suffix, and the latest frame is the greatest ever recorded |
| `CmdLog.LossIsReported` | pkg/cmdlog/cmdlog.go:198-202 | a needed command that was overwritten always raises the reset flag, for any increasing frames |
| `CmdLog.ResetIsExactIff` | pkg/cmdlog/cmdlog.go:198-202 | for all increasing frames: the flag holds just when a command after the snapshot was overwritten, if and only if the oldest kept frame is at most the snapshot's successor or the newest overwritten one is after the snapshot |
| `CmdLog.ResetIffLoss` | pkg/cmdlog/cmdlog.go:198-202 | for gap-free frames the flag holds if and only if a command after the snapshot was overwritten or the frames start too late, with the exact behaviour at the last 64-bit frame |
| `CmdLog.ResetWithoutLoss` | pkg/cmdlog/cmdlog.go:171-202 | two skipped-frame logs that raise the flag with nothing needed overwritten, one with nothing overwritten at all; and the snapshot returned is not the newest |
| `CmdLog.SplitAtFrame` | pkg/cmdlog/cmdlog.go:204-214 | every increasing history is what comes up to a frame followed by what comes after it |
| `Handoff.Source.Begin` | pkg/handoff/handoff.go:120-135 | moves only an owner to exporting, with the right error otherwise |
| `Handoff.Source.Buffer` | pkg/handoff/handoff.go:141-155 | buffers exactly while exporting, refuses once released |
| `Handoff.Source.Export` | pkg/handoff/handoff.go:159-169 | hands out the state with everything buffered and empties the buffer, only while exporting |
| `Handoff.Source.DrainBuffer` | pkg/handoff/handoff.go:172-182 | hands out and empties the buffer, only while exporting |
| `Handoff.Source.Release` | pkg/handoff/handoff.go:185-194 | ends ownership and drops what is buffered, only while exporting |
| `Handoff.Source.Abort` | pkg/handoff/handoff.go:198-208 | returns to owner and hands back what is buffered, only while exporting |
| `Handoff.Target.Import` | pkg/handoff/handoff.go:244-252 | overwrites the state by the bundle's, only while importing |
| `Handoff.Target.Accept` | pkg/handoff/handoff.go:255-263 | becomes owner exactly once |
| `Handoff.Target.Replay` | pkg/handoff/handoff.go:273-277 | replaying a batch through UpdateState gives the fold of the batch over the state |
| `Handoff.NextConserves` | pkg/handoff/handoff.go:120-208 | every call of every party keeps: accepted = what left the buffer, in order, followed by what is still in it; what left and was sent is what the channel carries |
| `Handoff.Conservation` | pkg/handoff/handoff.go:120-208 | over every run, nothing accepted is lost, duplicated or reordered; Begin discards nothing; the exported state is the initial one |
| `Handoff.CarriedSplit` | pkg/handoff/handoff.go:244-277 | what the target has replayed is the part of the traffic from the last bundle on |
| `Handoff.ReplayIsComplete` | pkg/handoff/handoff.go:159-182 | of a list of messages whose bundles are all imported, everything is kept if and only if nothing travelled before the last bundle |
| `Handoff.Linearization` | pkg/handoff/handoff.go:120-277 | on every run, with no discipline asked: the target's state is the fold of what it replayed, over the exported state once it imported a bundle; and when buffer, channel and replay are empty, that is every accepted operation, in order, if and only if no call overwrote, refused or gave up an operation |
| `Handoff.NothingLostIff` | pkg/handoff/handoff.go:120-277 | over every run that settles, with states that list the operations applied: the target lists every accepted operation, in order, if and only if no call of the run lost one |
| `Handoff.LateBundleLoses` | pkg/handoff/handoff.go:244-252 | a run in which a bundle sent after acceptance is refused and the accepted operation in it is lost |
| `Handoff.LastBundleDecides` | pkg/handoff/handoff.go:159-252 | if every bundle reaches an importing target: the target holds the fold of what was sent from the last bundle on, which is everything sent if and only if nothing was sent ahead of it |
| `Handoff.ReplayTracks` | pkg/handoff/handoff.go:266-277 | while bundles come in time, one UpdateState of a replay keeps the target at the fold of what was replayed, with the rest still to come |
| `Handoff.SecondExportLoses` | pkg/handoff/handoff.go:159-169 | exporting twice loses an operation that was accepted and sent |
| `Handoff.ExclusiveIff` | pkg/handoff/handoff.go:120-263 | over whole runs, ownership is exclusive throughout if and only if no Accept meets an owning source and no Abort an owning target |
| `Handoff.OwnershipPasses` | pkg/handoff/handoff.go:120-263 | under the documented discipline there is never more than one owner, and a released source has an owning target |
| `Handoff.FinalPhases` | pkg/handoff/handoff.go:120-263 | Released and target-Owned are absorbing, and a released source accepts and sends nothing more |
| `Handoff.AbortedBundleStillAccepted` | pkg/handoff/handoff.go:198-263 | a bundle in flight accepted after an abort gives two owners |
| `Lifecycle.ServiceStepOk` | beauty.go:173-255 | every step of both goroutines of a service keeps its registration and context bookkeeping |
| `Lifecycle.RunKeeps` | beauty.go:142-255 | the invariant of the whole application holds after every interleaving of any number of services |
| `Lifecycle.NeverStoppedWhileRegistered` | beauty.go:173-255 | a server's context is never cancelled with a live registration unless its Start had already returned |
| `Lifecycle.StoppedExactlyOnce` | beauty.go:205-250 | every successful Register is stopped at most once, in order, and exactly once when the orchestrator ends, rollback and crash included |
| `Lifecycle.StagesInOrder` | beauty.go:173-255 | in every interleaving, over recorded events of enabled steps only: readiness before registrations before deregistrations before the end of the drain before the stop of the server; and no stage is skipped, drain included, unless a refused registration rolled the service back |
| `Lifecycle.RegisteredEverywhere` | beauty.go:193-226 | in every interleaving, a discoverable service past registration is registered with every registry, another with none, and only services that announce readiness wait for it |
| `Lifecycle.DrainStartsIff` | beauty.go:234-241 | a drain starts exactly after a normal deregistration of something, with a delay set and the server not cancelled; a crashed server is not drained for |
| `Lifecycle.WaitsEndWithServer` | beauty.go:183-241 | once a server's context is cancelled, its orchestrator's wait for readiness, shutdown or the end of the drain is over |
| `Lifecycle.CancelledIff` | beauty.go:142-171 | in every interleaving, the application is cancelled if and only if someone outside did so or a serve goroutine has come past its Start; and the main goroutine waits for it |
| `Lifecycle.ServerCancelledIff` | beauty.go:173-253 | in every interleaving, a server's context is cancelled if and only if its own serve goroutine is past its Start or its orchestrator stopped it |
| `Lifecycle.AfterRunIsQuiet` | beauty.go:142-171 | AfterRun hooks see every goroutine finished, every server context cancelled and no live registration |
| `Lifecycle.MovesLowerRemaining` | beauty.go:193-253 | every move of an orchestrator, whoever chooses, lowers the work it has left |
| `Lifecycle.DriveToEnd` | beauty.go:193-253 | after cancellation an orchestrator can always be driven to its end, with every registration stopped |
| `Lifecycle.StepLowersWork` | beauty.go:142-255 | no run goes on for ever: every step that does anything, by any goroutine, lowers the work left for all of them together |
| `Lifecycle.AfterRunIsReached` | beauty.go:142-255 | from every reachable state after cancellation, if every Start returns, the whole application reaches its AfterRun hooks |
| `Lifecycle.CrashReachesAfterRun` | beauty.go:243-253 | from every reachable state in which some Start has returned, without any cancellation from outside, the application reaches its AfterRun hooks |
| `JobQueue.ExecKeeps` | contrib/redisqueue/redisqueue.go:148-468 | each single Redis command moves a job between a set and its process and drops none, but for Clean and a missing record |
| `JobQueue.StepKeepsIff` | contrib/redisqueue/redisqueue.go:148-468 | one step of any process, exactly: a kept job stays so unless the step is a Clean's deletion of its record, a crash of its only holder, or a Clean's pop out of its last place |
| `JobQueue.SubmittedIsKeptIff` | contrib/redisqueue/redisqueue.go:148-468 | from any state and over every interleaving: a submitted job is kept throughout if and only if its record is there when it is queued and no such step ever happens |
| `JobQueue.KeptUnlessOldCleanWipes` | contrib/redisqueue/redisqueue.go:148-178 | a job that no Clean pops after its Submit is kept if and only if no Clean deletes its record, and only a Clean that popped the ID before can |
| `JobQueue.NoLostJob` | contrib/redisqueue/redisqueue.go:148-468 | after every interleaving of any number of processes in which an ID is never submitted while a Clean of it is between its pop and its deletion: once queued, and until a Clean pops it or its sole holder crashes, the job has its record and is in a set or held by a live process |
| `JobRuns.ResubmitDuringCleanLoses` | contrib/redisqueue/redisqueue.go:461-466 | a run without any crash that loses an accepted job: resubmitted while a Clean of its ID is under way |
| `JobQueue.CrashLosesIff` | contrib/redisqueue/redisqueue.go:242-316 | a crash loses a job if and only if the process was its sole holder between removal and insertion; never inside a handler |
| `JobRuns.PopThenCrashLoses` | contrib/redisqueue/redisqueue.go:242-257 | a worker that dies between the pop and the insertion loses a job that nothing cleaned |
| `JobQueue.FirstSubmitIsTracked` | contrib/redisqueue/redisqueue.go:148-178 | whatever else runs, the first Submit of an ID ends with it queued in the right set under its priority, its record in place |
| `JobRuns.TurnsRun` | contrib/redisqueue/redisqueue.go:242-415 | results about an undisturbed process are results about the runs of the system in which it takes the next steps |
| `JobRuns.StalledJobReturns` | contrib/redisqueue/redisqueue.go:381-415 | when a checker reaches it and its five commands run undisturbed: an active job whose lock is gone goes back to waiting, under its own priority, and nothing else changes |
| `JobRuns.LockedJobIsLeft` | contrib/redisqueue/redisqueue.go:393-395 | a checker that finds the lock held passes over the job and changes nothing |
| `JobRuns.RequeuedOnlyUnlocked` | contrib/redisqueue/redisqueue.go:381-415 | over every run, a checker takes back only jobs whose lock was missing at the step at which it looked |
| `JobRuns.RunOnlyNext` | contrib/redisqueue/redisqueue.go:242-257 | over every run, a worker runs only jobs that had the lowest score of all waiting jobs at the step at which it took them |
| `JobRuns.ScansSee` | contrib/redisqueue/redisqueue.go:343-392 | a checker goes through exactly the active jobs, a scheduler only through delayed ones |
| `JobRuns.EndsOnlyWhenEmpty` | contrib/redisqueue/redisqueue.go:242-257 | a worker finds no job only when none is waiting, and a Clean ends only when it is done or its set is empty |
| `JobRuns.SubmitQueues` | contrib/redisqueue/redisqueue.go:148-178 | an undisturbed submission stores the job as waiting and queues it under its priority, or as delayed; an empty ID is refused |
| `JobRuns.CleanTakesOne` | contrib/redisqueue/redisqueue.go:440-468 | an undisturbed Clean takes one job from the set asked for, with its record, and counts it; with none to go it stops |
| `JobRuns.DueJobReturns` | contrib/redisqueue/redisqueue.go:343-377 | an undisturbed scheduler moves a due job, and nothing else, back to waiting under its own priority |
| `JobRuns.WorkerSettles` | contrib/redisqueue/redisqueue.go:242-316 | an undisturbed worker takes the next job, counts one attempt, and leaves only the outcome: completed, delayed while attempts last, or failed; no lock and no active entry remain |
| `JobRuns.RetriesThenFails` | contrib/redisqueue/redisqueue.go:259-377 | with undisturbed workers and schedulers, a job that is next in the queue, others waiting or not, and always fails comes back for each allowed retry and is filed as failed after exactly maxRetries + 1 attempts |
| `InstancePool.NextAccounted` | contrib/wasmopa/wasmopa.go:270-356 | every channel operation of every caller keeps the exact account: live or pending instances = occupancy, plus one until a failed replacement pops the empty semaphore |
| `InstancePool.ExactAccounting` | contrib/wasmopa/wasmopa.go:270-356 | in every interleaving, failures included: live or pending instances are the occupancy plus one, until a failed replacement has popped the empty semaphore, and the occupancy from then on |
| `InstancePool.PoolAccounting` | contrib/wasmopa/wasmopa.go:92-95 | in every interleaving, failures included: occupancy <= live or pending instances <= occupancy + 1, so at most size + 1 instances |
| `InstancePool.OnlyFitReturn` | contrib/wasmopa/wasmopa.go:270-294 | over every run, a caller comes to put an instance back only by an evaluation or a replacement that succeeded: a failed instance never returns to the pool |
| `InstancePool.ReceiveNeverBlocks` | contrib/wasmopa/wasmopa.go:324-356 | while re-instantiation succeeds, tokens always suffice for all callers in a blocking receive, so none waits |
| `InstancePool.ReceiveBlocksIff` | contrib/wasmopa/wasmopa.go:324-356 | in every run, a caller in a blocking receive has to wait if and only if its own instance is the only one live or pending and no failed replacement has popped the empty semaphore |
| `InstancePool.PutCanBlock` | contrib/wasmopa/wasmopa.go:281-289 | after a failed re-instantiation a run reaches a putInstance waiting on an empty semaphore |
| `Snowflake.Generator.New` | pkg/idgen/idgen.go:84-96 | refuses exactly the nodes outside ten bits; a negative tolerance becomes zero |
| `Snowflake.Generator.Next` | pkg/idgen/idgen.go:107-147 | the spin loops and the bit operations give the state and outcome of a specification in plain arithmetic, for every clock |
| `Snowflake.OrIsSum` | pkg/idgen/idgen.go:145 | on disjoint bits, bitwise or is addition |
| `Snowflake.PackIsValue` | pkg/idgen/idgen.go:145 | for every 64-bit time, shifting and or-ing the fields is their positional value modulo 2^64 |
| `Snowflake.SignFollowsTime` | pkg/idgen/idgen.go:145 | for every 64-bit time, the ID is non-negative if and only if the time modulo 2^42 is below 2^41; times of 41 bits and a sign pack without loss |
| `Snowflake.ParsePack` | pkg/idgen/idgen.go:145-167 | for every 64-bit time, Parse gives back node and sequence, and the time modulo 2^42 as a signed number; the time itself if and only if it lies in [-2^41, 2^41) |
| `Snowflake.NextSequence` | pkg/idgen/idgen.go:126 | adding one and masking counts to 4095 and back to 0 |
| `Snowflake.NextIsLegal` | pkg/idgen/idgen.go:107-147 | with times below 2^41, every call either issues a positive ID for a later millisecond or the next sequence number, or changes nothing, or stalls |
| `Snowflake.SpinMeans` | pkg/idgen/idgen.go:112-144 | a spin loop ends with the first reading in time that reaches its bound, and fails exactly if there is none |
| `Snowflake.FailsIff` | pkg/idgen/idgen.go:107-134 | a call fails exactly when the clock is back by more than the tolerance, or does not catch up in time, or does not pass the used-up millisecond in time |
| `Snowflake.StrictlyIncreasingIff` | pkg/idgen/idgen.go:107-147 | over every run and every clock with times below 2^41, IDs are positive and strictly increasing if and only if each stalled-clock error is followed by a later millisecond before the next success |
| `Snowflake.NoStallClimbs` | pkg/idgen/idgen.go:107-147 | runs without that error always meet the condition |
| `Snowflake.StallReuses` | pkg/idgen/idgen.go:128-134 | a call in the same millisecond after a stall returns a sequence number already passed |
| `Snowflake.IssuedCarryNode` | pkg/idgen/idgen.go:145-167 | every ID of every run, whatever the clock shows, parses to its generator's node |
| `Snowflake.NodesNeverCollide` | pkg/idgen/idgen.go:145-167 | generators with different nodes never issue a common ID, whatever their clocks show |
| `Snowflake.IssuedArePositive` | pkg/idgen/idgen.go:107-147 | with times below 2^41, every ID of every run is positive |
| `BehaviorTree.TickInOrder` | pkg/behaviortree/behaviortree.go:84-167 | the loops of Sequence, Selector, MemSequence and MemSelector equal the recursive specification: status, memory, blackboard and child ticks |
| `BehaviorTree.TickParallel` | pkg/behaviortree/behaviortree.go:190-222 | the counting loop equals the recursive specification |
| `BehaviorTree.TickRepeater` | pkg/behaviortree/behaviortree.go:271-290 | the repeat loop equals the recursive specification and ends by the measure limit - count |
| `NodeLaws.OrderedMeans` | pkg/behaviortree/behaviortree.go:84-167 | for all four ordered composites, from the ticks their children really got: consecutive children, each on what the one before left, for as long as they return the going status; that status exactly when all children did, else the last child's; the memory kinds remember exactly a running child |
| `NodeLaws.ParallelMeans` | pkg/behaviortree/behaviortree.go:190-222 | every child is ticked once, in order; RequireAll fails iff some child failed and succeeds iff all did; RequireOne succeeds iff some child did and fails iff all failed |
| `NodeLaws.InverterMeans` | pkg/behaviortree/behaviortree.go:232-241 | one tick of the child, with Success and Failure exchanged |
| `NodeLaws.SucceederMeans` | pkg/behaviortree/behaviortree.go:250-257 | one tick of the child; Running exactly when the child is, never Failure |
| `NodeLaws.RepeatUntilFailMeans` | pkg/behaviortree/behaviortree.go:300-308 | one tick of the child; Success exactly when the child fails, never Failure |
| `NodeLaws.EndlessRepeaterMeans` | pkg/behaviortree/behaviortree.go:271-290 | with limit 0, one tick of the child; Failure exactly when the child fails, never Success |
| `NodeLaws.ConditionsMean` | pkg/behaviortree/behaviortree.go:63-68 | a condition succeeds exactly when it holds; a guard ticks its child, on what the look left, exactly when it holds |
| `NodeLaws.CooldownWaits` | pkg/behaviortree/behaviortree.go:342-352 | over runs, a cooldown with k to go fails exactly the next k ticks without touching child or blackboard |
| `NodeLaws.CooldownStarts` | pkg/behaviortree/behaviortree.go:342-352 | with none to go the child is ticked, and exactly its Success sets the cooldown |
| `BehaviorTree.BoundedTerminates` | pkg/behaviortree/behaviortree.go:261-290 | a tree without negative repeat limits ends every tick |
| `BehaviorTree.NegativeLimitEndsIff` | pkg/behaviortree/behaviortree.go:271-290 | with a negative limit, over any child: the loop ends within so many repetitions if and only if one of them does not succeed |
| `BehaviorTree.NegativeLimitDivergesIff` | pkg/behaviortree/behaviortree.go:271-290 | over a child without negative limits of its own, the loop never ends if and only if every repetition, on the memory and blackboard left by the one before, succeeds |
| `BehaviorTree.NegativeLimitDiverges` | pkg/behaviortree/behaviortree.go:271-290 | in particular it never ends over an action that always succeeds |
| `TreeLaws.FuelMonotone` | pkg/behaviortree/behaviortree.go:271-290 | the iteration bound of the model never changes a tick that ends |
| `TreeLaws.RepeaterTickEndsIff` | pkg/behaviortree/behaviortree.go:271-290 | over any child, nested negative limits included: one tick of a Repeater with a negative limit ends if and only if some repetition ends without Success |
| `TreeLaws.DualTick` | pkg/behaviortree/behaviortree.go:84-241 | one tick of the dual tree: same blackboard and memory, flipped status |
| `TreeLaws.DualityOverRuns` | pkg/behaviortree/behaviortree.go:84-241 | over every run of ticks, whatever happens between them, the dual tree has the same effects and the flipped statuses |
| `TreeLaws.GuardIsSequence` | pkg/behaviortree/behaviortree.go:322-327 | over every run, a guard is a sequence of its condition and its child |
| `TreeLaws.InOrderMeans` | pkg/behaviortree/behaviortree.go:129-142 | ticks in order: children complete once each, from the first, and none is ticked again after completing |
| `TreeLaws.MemSequenceCompletes` | pkg/behaviortree/behaviortree.go:129-142 | over every run, since the last reset no completed child is ticked again, and Success comes exactly when each child has succeeded once, in order |
| `TreeLaws.RepeaterCompletes` | pkg/behaviortree/behaviortree.go:271-290 | over every run, Success comes exactly when the child has succeeded `limit` times since the last reset |
| `Failover.FallbackStream` | contrib/llm/middleware.go:41-81 | the nested loops with `started` and the errors equal the specification, cancellation and consumer stops included |
| `Failover.TryStream` | contrib/llm/middleware.go:295-312 | passes an attempt on unless it fails before its first chunk |
| `Failover.ConfigStream` | contrib/llm/middleware.go:185-293 | the primary alone if it serves; if it fails before its first chunk, a fallback over it and the chain configured for its kind of error, or the general chain; cancellation included |
| `Failover.RetryStream` | contrib/llm/middleware.go:360-399 | the retry loop equals the recursive specification |
| `Failover.FallbackGenerate` | contrib/llm/middleware.go:23-39 | the loop gives the answer of the chain that `AnswerIs` describes |
| `Failover.AnswerIs` | contrib/llm/middleware.go:23-39 | the first success if every attempt before it failed with the context alive, the context's error if that came first, else the last attempt's error |
| `Failover.ConfigGenerate` | contrib/llm/middleware.go:185-242 | the primary's reply if it succeeds, else the answer of it followed by the chain configured for its kind of error, or the general chain |
| `Failover.RetryGenerate` | contrib/llm/middleware.go:345-358 | the first success among the calls made, else the error of the last one; no call after a success, a quit or the last attempt |
| `Failover.FallbackMeetsContract` | contrib/llm/middleware.go:41-81 | with a live context, fallback delivers the contract's transcript |
| `Failover.ServedIs` | contrib/llm/middleware.go:41-81 | under any context: the first serving attempt if the context was alive after every failure before it, only the context's error if that came first, else only the last attempt's error |
| `Failover.RetryIs` | contrib/llm/middleware.go:360-399 | whenever the context ends: another call exactly after calls that failed before their first chunk, while attempts and context last; the last call's transcript, or only its error |
| `Failover.ConfigIsFallback` | contrib/llm/middleware.go:185-293 | with empty special chains the configuration's transcript is that of the fallback list it spells out |
| `Failover.RetryIsFallback` | contrib/llm/middleware.go:360-399 | with a live context that no backoff ends, n attempts give the transcript of a fallback over n successive calls |
| `Failover.RelayShape` | contrib/llm/middleware.go:295-312 | what is passed on is a prefix that stops at an error, at the consumer's wish or at the end, and nowhere earlier |
| `Failover.FailoverPromises` | contrib/llm/middleware.go:23-81 | chunks from one attempt only, the first that does not fail before its first chunk; at most one error, last; if all fail, the last error |
| `Budget.NextSound` | contrib/llm/middleware.go:478-504 | with requests small enough not to leave 64 bits, every load, swap and reset keeps usage in range and equal to the tokens added since the last reset |
| `Budget.BudgetHolds` | contrib/llm/middleware.go:478-504 | in every interleaving of requests that small, 0 <= used <= max and used is exactly what was added since the last reset |
| `Budget.AloneAdds` | contrib/llm/middleware.go:478-497 | a caller left alone is charged exactly if the budget is not used up and the request fits, the case that fills it included; a reset frees the whole budget |
| `Budget.HugeRequestBreaks` | contrib/llm/middleware.go:480-497 | for every maximum, any request past the stated bound can drive the counter negative |
| `HeaderCodec.EncodePairs` | contrib/proxywasm/headers.go:49-75 | the three write loops fill the buffer with the specified encoding, lengths truncated to 32 bits |
| `HeaderCodec.DecodeHeaderMap` | contrib/proxywasm/headers.go:16-46 | on arbitrary bytes the loop stays in bounds and returns what the specification reads |
| `HeaderCodec.RoundTripIff` | contrib/proxywasm/headers.go:16-75 | decoding an encoding returns the pairs, embedded NULs included, if and only if counts and lengths fit in 32 bits |
| `HeaderCodec.FormatExample` | contrib/proxywasm/headers.go:49-75 | the bytes of one pair, spelled out: little-endian count, key length, value length, then key and value with their NULs |
| `HeaderCodec.TruncationGivesPrefix` | contrib/proxywasm/headers.go:16-75 | for pairs whose counts and lengths fit in 32 bits, decoding any truncation of their encoding gives exactly the longest prefix of pairs wholly there |
| `HeaderCodec.DecodedFits` | contrib/proxywasm/headers.go:16-46 | whatever the bytes, what is decoded fits the format |
| `HeaderCodec.SpellingIsUnique` | contrib/proxywasm/headers.go:49-75 | little-endian fields are injective |
| `ProxyHost.Host.AllocContextID` | contrib/proxywasm/types.go:98-102 | IDs count up and wrap at 32 bits |
| `ProxyHost.Host.IssueCallout` | contrib/proxywasm/hostcalls.go:365-447 | a callout gets the next token and goes to the end of the queue; without a dispatcher nothing is issued |
| `ProxyHost.Host.Act` | contrib/proxywasm/hostcalls.go:269-326 | one host call: a switch to an unknown context is refused, and the books stay in order |
| `ProxyHost.Host.CallGuest` | contrib/proxywasm/hostcalls.go:269-447 | a callback is made exactly if exported, and logged; whatever an arbitrary guest does in it, it only appends callouts, and the context table keeps its IDs |
| `ProxyHost.Host.DeleteContext` | contrib/proxywasm/instance.go:294-301 | removes that context only, whatever the guest does when told |
| `ProxyHost.Host.DispatchPendingCallouts` | contrib/proxywasm/instance.go:306-376 | delivers exactly the callouts pending before, in issue order, by exactly the callbacks due for them; those issued meanwhile stay queued |
| `ProxyHost.Host.Deliver` | contrib/proxywasm/instance.go:319-371 | one callback for an HTTP result, three for a gRPC result, one for a failed gRPC call, each if exported and with the callout's token, in the callout's context; trailers are left for the response |
| `ProxyHost.Host.Init` | contrib/proxywasm/instance.go:41-88 | start, plugin creation and configuration are asked in order; success exactly when none trapped and none said no, and then exactly the root and plugin contexts exist |
| `ProxyHost.Host.FirePendingTicks` | contrib/proxywasm/instance.go:411-435 | a tick lets the guest act, changes nothing else and restores the active context |
| `ProxyHost.Host.HandleHTTP` | contrib/proxywasm/instance.go:91-200 | one stream context is allocated; every path that does not proceed deletes it, once; creation and headers are asked, then body and trailers exactly as far as there are any and the guest let things go on; a trap is what fails |
| `ProxyHost.Host.HandleResponse` | contrib/proxywasm/instance.go:204-274 | the response phase leaves the table to the caller on every path; headers, body and callout trailers are asked, until a trap or the guest's own response |
| `ProxyHost.Host.FinishStream` | contrib/proxywasm/instance.go:277-291 | log, done and delete are asked about that context, each if exported, and only it is removed |
| `ProxyHost.Host.Serve` | contrib/proxywasm/middleware.go:126-172 | on every path exactly the stream's own context goes, by one delete (plus a delete of ID 0 on the local-response path); the table is unchanged if and only if the ID was free; the guest is asked path by path as the phases say; closed exactly when a phase failed |
| `ProxyHost.Host.ServeAll` | contrib/proxywasm/middleware.go:126-172 | over any run of requests before the wrap: the table returns to root and plugin, stream IDs are fresh, each is deleted exactly once; the callouts whose results the guest was told, by the callbacks due and in order, followed by those pending, are those issued |
| `ProxyHost.TokenIsIndex` | contrib/proxywasm/hostcalls.go:365-447 | the k-th callout's token is 1 + k modulo 2^32 |
| `ProxyHost.TokensRepeatIff` | contrib/proxywasm/hostcalls.go:365-447 | two tokens coincide if and only if the counter came full circle between them |
| `AgUi.Translate` | contrib/agui/server.go:79-276 | one turn of the translation loop equals the specified reaction |
| `AgUi.Serve` | contrib/agui/server.go:57-295 | the whole stream: RUN_STARTED, then the specified reactions, then a defensive finish |
| `AgUi.ServerStreamShape` | contrib/agui/server.go:57-295 | for every event sequence: one terminal event, last; text content only inside its own message; text closed at RUN_FINISHED; reasoning left open exactly when the agent stopped while thinking |
| `AgUi.StreamSays` | contrib/agui/server.go:79-295 | for every event sequence, the stream announces exactly the agent's steps under their numbers, and its text messages start under the generated IDs one after the other |
| `AgUi.ParseStream` | contrib/agui/client.go:137-243 | the scan loop yields the specified events, up to the terminal one or until the consumer stops |
| `AgUi.ParseToolCall` | contrib/agui/client.go:181-202 | a tool call sent in two or three pieces is put together again and leaves no trace in the table |
| `AgUi.CallInPieces` | contrib/agui/client.go:181-202 | a call whose arguments come in any number of pieces is yielded once, at its end, with the pieces joined in order |
| `AgUi.RoundTrip` | contrib/agui/client.go:137-243 | for every event sequence, client after server is the stated normalization |

## Left out

- The brokers, registries, databases, identity and industrial-protocol bindings, and the demos and tools: thin wrappers over libraries that are not part of the repository.
- Locks: each method guarded by a mutex is one atomic step or one method call; deadlock and fairness are not modelled.
- Real time: lock expiry, drain delay, deadlines, ticks and due times are steps or inputs; backoff and jitter are only the choice to quit.
- JSON, SSE lines and scanner limits, HTTP I/O, logging, metrics and hooks other than their order; JSON and SSE are taken as lossless.
- beauty.go: a second Start while running (a no-op) and panics inside services or hooks.
- Handoff: how long a source has been exporting, and the text of errors; the channel between the two sides is ordered and loses nothing, and the target replays one message before it takes the next.
- JobQueue: failures of individual Redis commands, corrupt records, progress reports, events and the time a job is due; the number of jobs Clean pops is an input; handler panics count as failures.
- InstancePool: closing the policy, the evaluation itself and the data document.
- BehaviorTree: a node's remembered index lives in a memory value beside the immutable tree instead of in the node, so a node object placed twice in a tree would not share its memory; statuses and policies outside the declared constants and overflow of a repeat count are not modelled.
- Failover: the classifier is an arbitrary function, client labels, the fallback callback and usage metering are left out; chunks and replies are opaque.
- Budget: the client calls around the counter, and the sum of input and output tokens, which is taken as one number.
- HeaderCodec: conversion to and from HTTP headers; offsets are unbounded, as with a 64-bit int.
- ProxyHost: guest bytecode and memory, header and body contents, properties, shared data, queues, metrics, gRPC streams, and the pool of instances; a trap is an outcome of a callback, and callbacks about callouts are logged apart from the others, so their order relative to these is not recorded.
- AgUi: message IDs and run IDs are supplied, the message ID derived for a tool result and the client's reuse of a thread ID are dropped, and so are fields that neither side reads back.
- Snowflake: the epoch and the deadline arithmetic of the spin loops; TimeOf.
- Simple containers (shared data, queues, metrics, media hub, abilities) and vector ranking: they would add only easy members or rest on floating point.
