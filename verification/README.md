# joule_agent, modelled and proved

joule_agent changes a GPU's clock and power settings, measures what that does, and promises that the
card comes back to stock. This project models the parts of it that carry that promise and the parts
that turn measurements into claims, and proves what they keep over every input and every run.

`dafny verify dfyconfig.toml` checks the whole project.

## What is modelled

**The write guard, twice.** `GuardProtocol` is a small-step machine over one card, one state file and
one process at a time. Each step is one action on a shared location, for every program point of
`arm`, `lock_clocks`, `set_power_limit_mw`, `restore`, `_surrender_claim` and
`restore_from_state_file`. The environment may kill the process between any two steps, make any
record or device write raise, deliver a signal at any point where signals are not blocked (its
handler is a full `restore` stacked on the interrupted call, which then resumes or unwinds; handlers
nest), let the operator choose a limit, and run a recovery on this card or on another one.
`GuardInvariant` holds the invariant and the proof that every step keeps it. `GuardTheorems` reads
the guarantees off it.

`GuardObjects` is the same guard as mutable objects: cards, controllers, a state file, and guards
whose methods update their own fields. `GuardCalls` and `GuardRuns` connect the two: every complete
method call is a run of the machine, so what holds of all reachable states holds between calls.
`GuardSessions` adds any number of guards on one file. `RecoveryTool` is the recovery program, proved
to be a run of the machine's recovery. `StateDocument` is the file's text: the three schemas, how
they are read, and what the protocol's `Disk` abstracts. `DeviceIdentity` decides whether a record is
about the card at hand.

**What turns measurements into claims.** `OracleMix` is the per-request oracle as a loop, with
`OracleOptimality` (when its answer is a global optimum) and `OracleLimits` (that it is one exactly
then). `OrderStatistics` is the percentile all tools share. `SampleRing` and `Telemetry` are the
lossy ring and the recorder that drains it. `IdleOracle`, `ClockPlan` and `IdleTimeline` compile
arrivals to a clock timeline. `Arrivals` generates on/off arrivals, `IdleFraction` extracts idle
gaps. `PowerVerdict` judges a power-cap run. `Sweep` runs a grid under the guard objects, and
`SweepVerdict` names the best point.

## Where the definitions come from

The functions below only compute; the members of the Model table state what is true of them.

- `GuardProtocol.RestoreStep`: joule_agent/gpu_guard.py:1209-1268 and 1270-1361, an action a step.
- `GuardProtocol.ArmStep`: joule_agent/gpu_guard.py:960-1017 with the busy check of 850-938.
- `GuardProtocol.WriteStep`: joule_agent/gpu_guard.py:1143-1153, 1155-1181 and 1183-1205.
- `GuardProtocol.RecoverStep`: joule_agent/gpu_guard.py:1562-1742.
- `GuardProtocol.UserBlocked`, `RestoreBlocked`: the extent of each `_deferred_signals` block,
  joule_agent/gpu_guard.py:1004-1016, 1179-1181, 1203-1205, 1236-1268 and 1339-1361.
- `DeviceIdentity.DeviceMismatch`, `AdviceFor`: joule_agent/gpu_guard.py:693-741 and 1616-1627.
- `StateDocument.LoadState`, `LoadGuards`: joule_agent/gpu_guard.py:552-620.
- `OracleMix.Pick`, `Initial`, `BestMove`: tools/oracle_mix.py:92-120.
- `SampleRing.Drained`: joule_agent/telemetry.py:332-345.
- `ClockPlan.Events`, `Rise`, `Fall`: tools/oracle_idle.py:70-76. `IdleOracle.Bursts`: tools/oracle_idle.py:50-67.
- `PowerVerdict.Judge`, `JudgeRow`, `JudgeRows`: tools/verify_power_cap.py:397-636.
- `Sweep.Describe`: joule_agent/sweep.py:626-676.

## Assumptions

- A record write replaces the file or raises and leaves the old one. A device write that raises has
  no effect; one that returns is honoured. Stock clock state is "unlocked".
- Process lifetimes on one state file do not overlap, and a recovery runs in a process of its own
  with a controller of its own. The race between two processes that both pass the busy check is one
  the guard's own documentation disclaims (joule_agent/gpu_guard.py:19-27).
- Signals blocked by `_deferred_signals` stay pending and arrive when the block ends.
- The machine has one guard object per process. Many guards are covered for complete calls.
- The operator changes the limit only while no unrestored record is on disk and no captured limit is
  still going to be relied on: by an arm between its snapshot and its publish, or by a restore that
  owes a limit (`GuardProtocol.StockInUse`). That the record alone is not enough, `OperatorMidArm` and
  `OperatorMidRestore` show for the two halves.
- How a change there does harm is proved, for every such arm and restore that runs on, by
  `ArmReliesOnLimit`, `RestoreOverwrites` and `FailureIsRepublished`.
- Where a write falls back to the factory default, or is forced to it, that is the limit in force
  until the operator chooses again (`GuardInvariant.Rightful`); `DefaultedOnlyBy` says when that is.
- A recovery's controller reports a card's own UUID or none; over a record that carries no UUID,
  recovery is pointed at the right card. `WrongCardRefusedIff` and
  `UnidentifiedRecordIsLostToAnotherCard` show why that has to be assumed.
- `started_utc` tells arm cycles apart. The source's string has a resolution; the model's stamp does
  not repeat.
- `Device.capped` and `History` are facts no component can read; they exist to state properties.
- I/O is a choice (`ok := *`). Times are integers or reals instead of floats, and nothing is rounded.

## Where the code falls short of what it says

The code is modelled as it is. Each of these is a proved statement.

- A record that names no lock. A signal whose disposition was "ignore" arrives while `lock_clocks`
  has noted its intent and not yet re-checked its claim, an earlier write is still owed, and the
  handler's restore resets the device but cannot write the settled record. The rollback
  (joule_agent/gpu_guard.py:1354-1355) sets `restored` back but not `clocks_locked`, the guard stays
  armed, and the interrupted call publishes a record that does not name the lock it then applies.
  `LockNeedNotBeNamed` is the run, `LockNamedIff` the exact case, and `LockNamedUnlessSpoiled` says
  that every run without that one event names every lock. The record is unrestored in any case, and
  recovery resets clocks without looking, so recovery still converges.
- A document in two schemas at once can hide an unrestored record (`MixedSchemasHide`): exactly when
  a place that is read first shadows the record's own (`NothingHiddenIff`). No writer produces such a
  document (`WrittenShadowsNothing`).
- A record whose UUID could not be read is settled by a recovery on another card at the same index
  (`UnidentifiedRecordIsLostToAnotherCard`).
- Recovery cannot settle a record that owes a limit when neither the limit nor the default was
  readable at arm time, and then says so; `RecoveryConverges` is an if-and-only-if, and
  `ForcedRecoverySettles` the way out that the message advises.
- The optimiser's documentation calls the optimum "reachable directly"
  (tools/oracle_mix.py:85-89). It is reached for every input of n requests exactly when n - 1 is a
  multiple of 100 (`ExactIffIntegerRank`); for every other n there are inputs on which the optimiser
  gives up although an assignment meets the threshold, and inputs on which it returns a dearer one.
- The compiled timeline is the intended one for every schedule exactly when the quiet threshold is at
  least lead plus drain (`AlwaysIntendedIff`), and high at every arrival exactly then or without any
  threshold and lead (`AlwaysHighIff`); for one schedule, when its clusters are that far apart
  (`IntendedIff`, `HighAtArrivalsIff`). The command line takes the three numbers separately and does
  not compare them.
- The loss detector is sound exactly when its capacity is known and no larger than the ring, read by
  read (`DetectorSoundIff`) and for whole recordings (`CleanIsExactIff`). An empty ring when the
  sensors are characterised leaves the capacity unknown, as does recording without a profile, and a
  recording can then be called clean although it lost samples (`CleanButLossy`).
- `judge_power` formats the baseline peak in a branch that is reached when that peak is missing
  (tools/verify_power_cap.py:550-561), and then raises; `RaisesIff` is the exact case and `RaisesAt` an
  input. A phase that was measured is never such an input, since it does not count as loaded without
  power samples (`MeasuredNeverRaises`); only an artifact given to `--rejudge` can be.
- `_point_writes` is set only when a point gets a guard (joule_agent/sweep.py:534), so a stock point
  or a guard factory that fails is reported with the writes of an earlier point, exactly when some
  point before it was not stock (`ListedIsOwnIff`; `StaleReport` is an instance).
- After "Nothing was written to the GPU" the device can still be at another limit: a cap that was
  refused is owed all the same, and the exit restore then writes the default if the limit in force was
  unreadable when the guard armed (`NothingWrittenButChanged`, `NothingWrittenIsTrueIff`).
- On/off arrivals with `on_s + off_s == 0` never end (`EndsIff`). No preset has such periods
  (joule_agent/loadgen.py:235 and 245).

## Model

| member | source | states |
|---|---|---|
| GuardTheorems.EvidenceOutlivesEveryRun | joule_agent/gpu_guard.py:70-76 | in every reachable state a device with a guard's lock or cap has a readable unrestored record, one that names the cap; and over a settled file the card is unlocked, at the operator's limit or at the default that some write since has put in its place |
| GuardTheorems.LockNamedIff | joule_agent/gpu_guard.py:1175-1181 | at the moment of a lock write, the record names the lock exactly when no resumed signal wiped the note |
| GuardTheorems.LockNamedUnlessSpoiled | joule_agent/gpu_guard.py:1335-1361 | in every run in which no handler's restore fails its settled write on top of a lock call that has noted its intent, every lock on the device is named by an unrestored record |
| GuardTheorems.StepStaysUnspoiled | joule_agent/gpu_guard.py:1124-1181 | no other event can start the case above |
| GuardTheorems.ArmedMeansOwnClaimOnDisk | joule_agent/gpu_guard.py:1007-1016 | wherever a signal could be delivered, under any stack of interrupted restores, an armed guard's own unrestored record of this arm cycle, with its process's pid and this card's index, is the one on disk |
| GuardTheorems.NothingIsWrittenWhileDisarmed | joule_agent/gpu_guard.py:1124-1153 | every lock or cap write that is issued, repeats included, is issued by an armed guard's own call, with its unrestored record, carrying exactly those values, already on disk; its caller has consented and is privileged; a lock is in order and not below the guard's own floor; and a cap is within the card's bounds where they were read |
| GuardTheorems.OnlyWritesModify | joule_agent/gpu_guard.py:1179-1205 | a new lock or cap appears on the device only by a call's own write: no handler, no recovery and no other action puts one there |
| GuardTheorems.DefaultedOnlyBy | joule_agent/gpu_guard.py:1297-1314 | the default replaces the operator's limit only where a restore or recovery owes a limit that was unreadable at arm time, or a recovery is forced |
| GuardTheorems.SnapshotIsStock | joule_agent/gpu_guard.py:942-991 | while a guard's claim is on disk, the limit it captured is the operator's, or the default that had replaced it, never another guard's cap; and the UUID is this card's |
| GuardTheorems.CompletedRestoreMeansStock | joule_agent/gpu_guard.py:1270-1361 | a restore that ends without error, in the application or nested in handlers, leaves the claimed device unlocked and at the operator's limit, or the default where that has replaced it |
| GuardTheorems.RecoveryEnds | joule_agent/gpu_guard.py:1562-1742 | what an undisturbed recovery does to the device and the record, in each of its three cases |
| GuardTheorems.RecoveryConverges | joule_agent/gpu_guard.py:1562-1742 | after any crash, also inside an earlier recovery, one undisturbed recovery on the record's card unlocks, writes back exactly the captured limit if one is owed, and settles the record and nothing else in it, exactly when a limit to write back is known, and otherwise keeps the record |
| GuardTheorems.ForcedRecoverySettles | joule_agent/gpu_guard.py:1658-1683 | after any crash, an undisturbed recovery that is forced to a readable default always unlocks, uncaps and settles: at the captured limit where one is owed and known, and at the default where none is |
| GuardTheorems.SettledRecoveryKeepsLimit | joule_agent/gpu_guard.py:1639-1657 | over a settled record or none, an unforced recovery never touches the power limit, however its steps fail and wherever it is killed |
| GuardTheorems.LiveHolderKeepsRecord | joule_agent/gpu_guard.py:1700-1711 | while a live process owns the record, a recovery leaves it as it is, however its steps fail and wherever it is killed |
| GuardTheorems.ChangedRecordStays | joule_agent/gpu_guard.py:1712-1724 | a record that changed after it was read is left as it is |
| GuardTheorems.UnreadableStays | joule_agent/gpu_guard.py:1580-1600 | without the request to quarantine, a file that cannot be read stays and nothing in it is acted on |
| GuardTheorems.SecondRecoveryRespectsOperator | joule_agent/gpu_guard.py:1639-1649 | crash, recover, the operator picks a limit, recover again in any way: the operator's limit stands |
| GuardTheorems.MismatchKeepsRecord | joule_agent/gpu_guard.py:1602-1627 | a recovery on a card the record is not for never changes the record and never writes the record's limit |
| GuardTheorems.UnidentifiedRecordIsLostToAnotherCard | joule_agent/gpu_guard.py:736-741 | a record without a readable UUID is settled from another card at its index, with its own card untouched |
| GuardInvariant.RestoreStepKeeps | joule_agent/gpu_guard.py:1209-1361 | each action of a restore keeps the invariant and only calms what suspended frames rely on |
| GuardInvariant.SuspendedRestore | joule_agent/gpu_guard.py:1086-1103 | an interrupted restore does not notice the restore that ran on top of it |
| GuardInvariant.SuspendedUser | joule_agent/gpu_guard.py:1086-1103 | what each handler action leaves true for the call it interrupted |
| GuardInvariant.ArmStepKeeps | joule_agent/gpu_guard.py:942-1017 | each action of arming keeps the invariant |
| GuardInvariant.LateWriteStepKeeps | joule_agent/gpu_guard.py:1143-1153 | each action of the signal-blocked write keeps the invariant |
| GuardInvariant.RecoverStepKeeps | joule_agent/gpu_guard.py:1562-1742 | each action of a recovery, on any card and with any failure, keeps the invariant |
| GuardInvariant.StepKeeps | joule_agent/gpu_guard.py:942-1361 | every enabled event, kill, signal and failure included, keeps the invariant |
| GuardInvariant.RunKeeps | joule_agent/gpu_guard.py:942-1361 | the invariant holds at every state of every run |
| GuardWitness.LockNeedNotBeNamed | joule_agent/gpu_guard.py:1346-1357 | a concrete reachable state with a lock in force and a record that does not name it |
| GuardWitness.OperatorMidArm | joule_agent/gpu_guard.py:983-991 | such an arm is reachable over a settled file |
| GuardWitness.ArmReliesOnLimit | joule_agent/gpu_guard.py:983-1016 | any arm that has captured a limit and not yet published, after an operator change to another limit, ends armed with a snapshot that is not stock |
| GuardWitness.RestoreOverwrites | joule_agent/gpu_guard.py:1297-1314 | a restore that owes a limit and has not yet written it back overwrites any other limit the operator chooses meanwhile |
| GuardWitness.FailureIsRepublished | joule_agent/gpu_guard.py:1316-1333 | a restore that owes a limit and is recording its failure puts the owed record back, and the next recovery writes the old limit over any other the operator has chosen |
| GuardWitness.OperatorMidRestore | joule_agent/gpu_guard.py:1086-1103 | such a restore is reachable over a settled file: a signal's restore has settled the record on top of it |
| GuardCalls.RestoreCallRuns | joule_agent/gpu_guard.py:1270-1361 | a whole `restore` in closed form is a run of the small steps |
| GuardCalls.ArmCallRuns | joule_agent/gpu_guard.py:942-1017 | a whole `arm` in closed form is a run of the small steps |
| GuardCalls.WriteCallRuns | joule_agent/gpu_guard.py:1155-1205 | a whole write call in closed form is a run of the small steps |
| GuardCalls.WriteCallReturnsIff | joule_agent/gpu_guard.py:1155-1205 | a write call returns if and only if its caller may write, a lock is in order and at or above the guard's floor, the guard is armed or can be, a cap is within the bounds that were read, and the record and device writes work; then the device is at the values asked for and unchanged otherwise, and if it raises the device is as it was |
| GuardCalls.ArmCallReturnsIff | joule_agent/gpu_guard.py:942-1017 | arming succeeds if and only if the guard is armed already, or the file can be read and owes nothing and the claim and the record write work; then the record on disk is this process's, names this card and no write yet, and the snapshot is what could be read |
| GuardCalls.RestoreCallReturnsIff | joule_agent/gpu_guard.py:1270-1361 | a guard that owes the device nothing leaves it alone; any other restore resets the clocks, writes the captured limit or else the default exactly if a cap was noted, and returns if and only if all of that works; then the record is settled and the guard disarmed if that write works too, and otherwise the record stays owed, and says so where something failed |
| GuardCalls.ArmedExitTouchesNothing | joule_agent/gpu_guard.py:1283-1290 | a guard that armed and never wrote gives up its claim without a device write |
| GuardRuns.RestoreCallReachable | joule_agent/gpu_guard.py:1270-1361 | what a complete restore leaves behind is reachable, so the safety theorems hold of it |
| GuardRuns.ArmCallReachable | joule_agent/gpu_guard.py:942-1017 | what a complete arm leaves behind is reachable |
| GuardRuns.WriteCallReachable | joule_agent/gpu_guard.py:1155-1205 | what a complete write call leaves behind is reachable |
| GuardRuns.SignalReturnsToStock | joule_agent/gpu_guard.py:3-5 | from any reachable point at which signals are not blocked and this arm cycle's record is out, in the middle of any call and on top of any restores, one signal whose I/O works leaves the device at stock, the guard disarmed and its claim released, with the interrupted calls there to resume: exactly when nothing is owed or the limit to write back is known; otherwise the failure is on record |
| GuardRuns.HandlerMirrors | joule_agent/gpu_guard.py:1086-1090 | a handler's restore does what the application's own restore does |
| GuardObjects.GpuGuard.Arm | joule_agent/gpu_guard.py:942-1017 | the object's new state, file and outcome are the closed form of arming |
| GuardObjects.GpuGuard.Write | joule_agent/gpu_guard.py:1168-1181 | the same for the part of a write after arming |
| GuardObjects.GpuGuard.Touch | joule_agent/gpu_guard.py:1124-1153 | re-check the claim, publish the intent, then write the device: the new state for each outcome |
| GuardObjects.GpuGuard.Apply | joule_agent/gpu_guard.py:1155-1205 | the same for `lock_clocks` and `set_power_limit_mw`; a call that returns has put the device at the values asked for, a lock not below the floor, and left the rest of it alone; one that raises has left the device alone |
| GuardObjects.GpuGuard.SurrenderClaim | joule_agent/gpu_guard.py:1209-1268 | the same for giving up a claim |
| GuardObjects.GpuGuard.Restore | joule_agent/gpu_guard.py:1270-1361 | the same for a restore |
| GuardObjects.GpuGuard.Exit | joule_agent/gpu_guard.py:1365-1374 | only the outermost exit restores; an inner one changes nothing but the depth |
| GuardObjects.MakeGuard | joule_agent/gpu_guard.py:760-790 | a guard is refused exactly when its floor is below the module's |
| GuardObjects.Controller.TakeClaim | joule_agent/gpu_guard.py:268-293 | a controller serves its first owner and no other |
| GuardSessions.RestoreCallSettles | joule_agent/gpu_guard.py:1209-1361 | a complete restore keeps the guard's fields in step with the file, a disarmed guard leaves without a trace, and one that disarms leaves an unmodified card |
| GuardSessions.ArmCallSettles | joule_agent/gpu_guard.py:942-1017 | arming succeeds only over a file that owes nothing, and a refused arm changes neither file nor card |
| GuardSessions.WriteCallSettles | joule_agent/gpu_guard.py:1155-1205 | a write call never leaves a disarmed guard having touched the card or the file |
| GuardSessions.FreshGuardsHoldNoClaim | joule_agent/gpu_guard.py:760-805 | new guards start out meeting the one-claim invariant, also over a crashed process's record |
| GuardSessions.PerformOne | joule_agent/gpu_guard.py:942-1361 | a call takes the file only when nothing is owed or the guard holds the claim, and a guard that ends up disarmed leaves its card as it was or unmodified |
| GuardSessions.Perform | joule_agent/gpu_guard.py:19-27 | any complete call of any guard keeps the one-claim invariant; a disarmed guard's exit writes nothing; a successful arm snapshots an unmodified card |
| GuardSessions.PerformAll | joule_agent/gpu_guard.py:19-27 | over any sequence of calls by any guards with any failures, at most one is armed and its record is the one on disk |
| DeviceIdentity.UuidIsAuthoritative | joule_agent/gpu_guard.py:693-721 | with both UUIDs readable there is no mismatch exactly when they are equal |
| DeviceIdentity.WrongCardRefusedIff | joule_agent/gpu_guard.py:693-741 | every wrong card is refused exactly when the record's UUID is readable |
| DeviceIdentity.MatchIff | joule_agent/gpu_guard.py:693-741 | a record matches a card if and only if their readable UUIDs are equal, or the record carries none and no two known indexes differ |
| DeviceIdentity.AdviceIff | joule_agent/gpu_guard.py:1616-1626 | which of the three kinds of advice a mismatch gets |
| DeviceIdentity.AdviceMakesProgress | joule_agent/gpu_guard.py:1616-1626 | advice to re-run with a plain index never names the index just tried |
| DeviceIdentity.AdviceTerminates | joule_agent/gpu_guard.py:693-741 | at the advised index recovery either matches or gives advice of another kind |
| RecoveryTool.RestoreFromStateFile | joule_agent/gpu_guard.py:1562-1742 | the whole entry point: over a mismatch the record stays, no limit but a forced default is written and the advice moves on; over a settled or missing record an unforced call keeps the limit in force; a live holder's record is left as it is; and the report says what happened, both ways |
| RecoveryTool.Recover | joule_agent/gpu_guard.py:1562-1742 | the recovery program is a run of the machine's recovery; it refuses exactly over a mismatch; each entry of its report is set exactly when it is so, and where nothing fails the clocks are reset, the limit that is owed or forced is written, and the record is cleared unless a live process owns it or no limit to write back is known |
| RecoveryTool.LoadRecord | joule_agent/gpu_guard.py:1569-1628 | a record about another card is set aside with the advice its mismatch calls for; a file that cannot be read is moved aside exactly on request; and the read fails exactly in these two cases |
| RecoveryTool.WriteBack | joule_agent/gpu_guard.py:1639-1694 | with working I/O a limit is written exactly if one is owed and known or the default is forced, it is the recorded one in the first case, and what is reported as written is in force |
| RecoveryTool.Clear | joule_agent/gpu_guard.py:1700-1742 | the record is settled only if it is still the one read, nobody alive owns it and nothing failed, and then it is, if the write works |
| StateDocument.NothingHiddenIff | joule_agent/gpu_guard.py:552-620 | over every document, whatever it mixes: no outstanding record is hidden if and only if none is shadowed by a place that is read before its own |
| StateDocument.ShadowedIsHidden | joule_agent/gpu_guard.py:587-619 | a shadowed document is read as something else, while it holds an outstanding record |
| StateDocument.OneSchemaShadowsNothing | joule_agent/gpu_guard.py:498-543 | a document that uses one schema's place shadows nothing |
| StateDocument.WrittenShadowsNothing | joule_agent/gpu_guard.py:498-543 | nothing is shadowed in what the writer publishes |
| StateDocument.LoadedWasThere | joule_agent/gpu_guard.py:552-620 | a record read is a well-formed record of the document; and a settled one means that none in the document is outstanding, exactly when none is shadowed |
| StateDocument.MixedSchemasHide | joule_agent/gpu_guard.py:587-619 | a document of two schemas in which an unrestored record is read as settled |
| StateDocument.GuardsNeverHide | joule_agent/gpu_guard.py:593-616 | the per-process schema returns an unrestored record or refuses |
| StateDocument.ReadableIff | joule_agent/gpu_guard.py:552-620 | which documents can be read, over all three schemas |
| StateDocument.MayArmIff | joule_agent/gpu_guard.py:850-938 | the busy check passes if and only if there is no file, or one that can be read and whose record is settled |
| StateDocument.FalsyIff | joule_agent/gpu_guard.py:864 | which values of `restored` count as unrestored |
| StateDocument.OutstandingHolds | joule_agent/gpu_guard.py:600 | the filter keeps exactly the unrestored records |
| StateDocument.RecordRoundTrip | joule_agent/gpu_guard.py:469-495 | decoding an encoded record gives the record, every field of it |
| StateDocument.WriteThenLoad | joule_agent/gpu_guard.py:498-543 | reading back what was published gives the published record |
| StateDocument.MayArmMeansNothingOutstanding | joule_agent/gpu_guard.py:850-938 | the busy check on the document agrees with the protocol's, and passing it means that no unrestored record is anywhere in the document, exactly when none is shadowed |
| OrderStatistics.SortedSorts | joule_agent/loadgen.py:608-613 | the sort that the percentile relies on is ordered and a permutation |
| OrderStatistics.RankIff | joule_agent/loadgen.py:608-613 | an order statistic is at most t exactly when enough values are |
| OrderStatistics.PctMonotone | joule_agent/loadgen.py:608-613 | if no latency gets worse, no percentile does |
| OrderStatistics.PctOrdered | joule_agent/loadgen.py:608-613 | percentiles rise with the percentage and lie between the extremes |
| OrderStatistics.PctIsLinear | joule_agent/loadgen.py:608-613 | at a rank a share of the way from one value to the next, the percentile is that share of the way between the two values |
| OrderStatistics.PctStepsEvenly | joule_agent/loadgen.py:608-613 | between neighbouring ranks equal steps in percent are equal steps of the percentile |
| OrderStatistics.PctAtTheEnd | joule_agent/loadgen.py:608-613 | at 100 percent, or with one value, it is the last value, and with none it is zero |
| OrderStatistics.PctExamples | tools/oracle_mix.py:55-61 | two percentiles by number |
| OrderStatistics.P99IntegerRank | tools/oracle_mix.py:55-61 | at an integer rank, p99 is at most t exactly when at most one in a hundred values exceed t |
| OracleMix.Optimise | tools/oracle_mix.py:82-125 | the loop's result is the end of a greedy run: it starts at the first picks, each move is the best feasible demotion, and none is left at the end; None exactly when the first picks miss |
| OracleMix.FindBest | tools/oracle_mix.py:105-118 | one scan finds the demotion that saves most, the first of equals, or proves that there is none |
| OracleMix.FirstPicks | tools/oracle_mix.py:92-98 | each request starts at a point that meets the threshold at the least energy of all that do, or at the least energy of all if none does |
| OracleMix.PickIsCheapest | tools/oracle_mix.py:95-98 | a first pick is the cheapest point that meets the threshold, or the cheapest of all if none does |
| OracleMix.OrderIsStable | tools/oracle_mix.py:92-93 | the scan order is the sort by energy that keeps equals in their given order, so the cheapest point is the first of the cheapest |
| OracleMix.PickIsFirst | tools/oracle_mix.py:95-98 | of equally cheap points that meet the threshold, a first pick is the first |
| OracleMix.DemotionLowers | tools/oracle_mix.py:105-121 | each demotion lowers a natural-number measure and the energy by the saving, so the loop ends |
| OracleMix.EnergyFalls | tools/oracle_mix.py:105-121 | along the run every assignment meets the threshold and the energy strictly falls |
| OracleMix.ResultIsLocallyOptimal | tools/oracle_mix.py:105-125 | no strictly cheaper change of one request still meets the threshold, and the energy is at most the first picks' |
| OracleMix.ReportMeans | tools/oracle_mix.py:122-125 | what is reported of an assignment: its p99, its mean energy, how many requests are not at the cheapest point, and exactly the points it uses |
| OracleMix.EnergyIsSum | tools/oracle_mix.py:122 | the energy is the sum over the requests |
| OracleOptimality.FeasibleIffFewMisses | tools/oracle_mix.py:85-89 | at an integer rank the constraint is that at most (n-1)/100 requests miss |
| OracleOptimality.RunHasShape | tools/oracle_mix.py:105-121 | at an integer rank every greedy move goes to the cheapest point and the largest savings go first |
| OracleOptimality.FairPrice | tools/oracle_mix.py:105-121 | at the end there is one price per allowed miss that no moved request undercuts and no unmoved one exceeds |
| OracleOptimality.Exchange | tools/oracle_mix.py:85-89 | with that price the result costs no more than any assignment with as few misses |
| OracleOptimality.GreedyIsOptimal | tools/oracle_mix.py:82-125 | at an integer rank the result has the least energy of all assignments that meet the threshold |
| OracleOptimality.NoneIffImpossible | tools/oracle_mix.py:101-103 | at an integer rank the optimiser gives up exactly when no assignment meets the threshold |
| OracleLimits.GivesUpWrongly | tools/oracle_mix.py:101-103 | at any other rank some input has a feasible assignment and gets None |
| OracleLimits.MissesOptimum | tools/oracle_mix.py:85-89 | at any other rank some input has a cheaper feasible assignment than the one returned |
| OracleLimits.ExactIffIntegerRank | tools/oracle_mix.py:82-125 | the optimiser is exact for all inputs of n requests if and only if n - 1 is a multiple of 100 |
| SampleRing.FirstIndex | joule_agent/telemetry.py:337-338 | the ceiling division finds the first grid point after the cursor |
| SampleRing.LastIndex | joule_agent/telemetry.py:339 | the floor division finds the last grid point up to now |
| SampleRing.SamplesAreThePoints | joule_agent/telemetry.py:332-345 | the stamps offered are exactly the grid points after the cursor and up to now |
| SampleRing.SamplesJoin | joule_agent/telemetry.py:636-641 | going on from the last stamp read misses and repeats nothing |
| SampleRing.DetectorSoundIff | joule_agent/telemetry.py:617-634 | an unreported read is always complete if and only if the capacity is known and at most the ring's, or the ring drops nothing |
| SampleRing.HalfSpanIsSafe | joule_agent/telemetry.py:518-530 | draining at most half a span apart never reports |
| Telemetry.FakeGpuReader.Drain | joule_agent/telemetry.py:332-345 | a read returns the last `ring` of the stamps after the cursor |
| Telemetry.CharacterizeSensors | joule_agent/telemetry.py:393-419 | the capacity measured is exactly the number of samples after time zero that the ring still holds, and a span is measured exactly with two samples or more |
| Telemetry.HeldWhenFull | joule_agent/telemetry.py:332-345 | how many samples a driver has taken; that a ring which had time to fill holds as many as its size; and that one which had a sample is not empty |
| Telemetry.WarnedIff | joule_agent/telemetry.py:518-530 | the warning is given if and only if some measured span is shorter than two intervals |
| Telemetry.CharacterizeAndRecord | joule_agent/telemetry.py:393-739 | characterise rings that have had a sample, then record in any way: every capacity is trusted, and a recording called clean is exact on every stream |
| Telemetry.MinSpan | joule_agent/telemetry.py:384-390 | the shortest measured span, which some stream has, or none if none was measured |
| Telemetry.TelemetryRecorder.DrainStream | joule_agent/telemetry.py:600-641 | one stream's read: an error or a full read is reported, what was read is appended and passed, other streams are untouched |
| Telemetry.TelemetryRecorder.DrainOnce | joule_agent/telemetry.py:600-641 | a tick reads every stream whose read does not raise, and catches it up, whatever the others do; a read that raises is reported and changes nothing; and nothing is reported when every read works and is short of a full ring |
| Telemetry.TelemetryRecorder.CleanMeansExact | joule_agent/telemetry.py:733-739 | a clean recording holds exactly the driver's samples between seed and last cursor, each once, in order, for every stream whose capacity is known and at most the ring's |
| Telemetry.ReadKeepsStream | joule_agent/telemetry.py:617-641 | one read keeps a stream's file exact or is reported |
| Telemetry.Record | joule_agent/telemetry.py:541-739 | any recording, under any profile, with any waits and failing reads: clean means exact; without a failing read every stream is the replay of the reads; and under a measured profile, waits within half of every span without a failing read are clean |
| Telemetry.CleanIsExactIff | joule_agent/telemetry.py:617-641 | every recording without a report is exact, for every stream, start and read times, if and only if the capacity is known and at most the ring's, or the ring drops nothing |
| Telemetry.CleanButLossy | joule_agent/telemetry.py:617-622 | under any other capacity a recording that reports nothing and holds fewer samples than the driver took |
| IdleOracle.BurstWindows | tools/oracle_idle.py:50-67 | the loop computes the clusters of the sorted arrivals |
| IdleOracle.BurstsSplitAtQuiet | tools/oracle_idle.py:50-67 | clusters split exactly at gaps longer than the threshold, and every arrival is in its own |
| IdleOracle.PlaceStays | tools/oracle_idle.py:60-66 | one arrival more leaves every earlier arrival in its cluster |
| IdleOracle.BurstsApart | tools/oracle_idle.py:50-67 | clusters are in order and further apart than the threshold |
| ClockPlan.SortEventsSorts | tools/oracle_idle.py:76 | events end up ordered by time and then clock, and none is lost |
| ClockPlan.MergeEvents | tools/oracle_idle.py:77-84 | dropping repeats and everything after the horizon keeps the clock in force at every time up to it |
| ClockPlan.PlanTransitions | tools/oracle_idle.py:70-84 | the merged plan alternates, is ordered, ends by the horizon, has no event before time zero, and puts the same clock in force as the unmerged events at every time up to it |
| ClockPlan.ClockOfWindows | tools/oracle_idle.py:70-84 | for any clusters, however close: the sorted events put the low clock in force exactly when some cluster has drained and no rise has come since |
| ClockPlan.HighIff | tools/oracle_idle.py:70-84 | and the high clock exactly when a rise has come since each cluster that has drained |
| ClockPlan.RoomyMeansIntended | tools/oracle_idle.py:70-84 | with clusters at least lead plus drain apart the low clock is in force exactly in the intended intervals |
| ClockPlan.TightIsLow | tools/oracle_idle.py:70-84 | with any two closer there is a time at which the clock is low and was meant to be high |
| IdleTimeline.CompiledIsIntended | tools/oracle_idle.py:50-84 | from arrivals to clock: low exactly from drain after a cluster until lead before the next |
| IdleTimeline.IntendedIff | tools/oracle_idle.py:50-84 | for one schedule: the compiled clock is the intended one at every time if and only if no two of its clusters are closer than lead plus drain |
| IdleTimeline.HighAtArrivalsIff | tools/oracle_idle.py:50-84 | for one schedule: every arrival meets the high clock if and only if, at each arrival, a rise has come since each cluster that has drained by then |
| IdleTimeline.IntendedIsHighAtArrivals | tools/oracle_idle.py:118 | the intended clock is high at every arrival |
| IdleTimeline.Compile | tools/oracle_idle.py:50-84 | the whole pipeline yields an alternating plan that is the intended clock up to the horizon |
| IdleTimeline.TooEager | tools/oracle_idle.py:70-84 | a threshold below lead plus drain has a schedule on which the compiled clock is not the intended one |
| IdleTimeline.AlwaysIntendedIff | tools/oracle_idle.py:50-84 | the compiled clock is the intended one for all schedules if and only if the threshold is at least lead plus drain |
| IdleTimeline.AlwaysHighIff | tools/oracle_idle.py:50-84 | the compiled clock is high at every arrival of every schedule if and only if the threshold is at least lead plus drain, or there is neither a threshold nor a lead |
| IdleTimeline.HighWithoutLead | tools/oracle_idle.py:70-76 | without threshold and lead a rise at an arrival is never overridden, since of two events at once the higher clock comes last |
| IdleTimeline.LowAtAnArrival | tools/oracle_idle.py:50-84 | otherwise some schedule has an arrival at the low clock |
| IdleFraction.GapsFrom | tools/idle_fraction.py:68-85 | gaps are ordered, disjoint and never touch, cover exactly the idle time, and sum to it |
| IdleFraction.UsableBounds | tools/idle_fraction.py:154-156 | usable time falls with tau, is everything at tau = 0, and loses at most tau for each gap |
| IdleFraction.UsableIsLate | tools/idle_fraction.py:154-156 | usable time is exactly the measure of the times that are at least tau into their gap |
| Arrivals.OnOffArrivals | joule_agent/loadgen.py:177-190 | the loop ends and returns the draws' landings filtered by on-period and duration |
| Arrivals.ArrivalsAreOnTime | joule_agent/loadgen.py:177-190 | arrivals strictly increase and are exactly the landings before the end and inside an on-period |
| Arrivals.FilterKeepsExactly | joule_agent/loadgen.py:184-187 | every candidate in an on-period and before the end is kept, in order |
| Arrivals.LandingsStartInOn | joule_agent/loadgen.py:181-189 | each landing is one draw after a landing or the start of a cycle, and that time is in an on-period |
| Arrivals.LandingsReachEnd | joule_agent/loadgen.py:181-190 | with an on-period the draws go on until the end: no draw that could still start before it is missing at the end |
| Arrivals.NoOnNoArrivals | joule_agent/loadgen.py:181-189 | without an on-period nothing arrives |
| Arrivals.EndsIff | joule_agent/loadgen.py:181-190 | for any stream of draws the loop ends if and only if there is an on- or off-period or nothing to generate |
| Arrivals.PassIsStuck | joule_agent/loadgen.py:183-189 | without periods a pass of the loop leaves the time unchanged |
| Arrivals.PassAdvances | joule_agent/loadgen.py:183-189 | with one, every pass advances: by the draw in an on-period, else to the next cycle |
| PowerVerdict.JudgePower | tools/verify_power_cap.py:397-636 | the early returns and the loop compute the decision function |
| PowerVerdict.IdleCapIsNoEvidence | tools/verify_power_cap.py:508-561 | dropping a loaded, unpolled, stored cap that cannot bind never changes the verdict |
| PowerVerdict.CapWorksIff | tools/verify_power_cap.py:429-622 | in terms of the phases as measured: CAP WORKS if and only if limit and clock came back, the control held, every cap was stored, two or more lie below the uncapped peak by more than the margin, under each of those the clock fell by more than its margin or the peak stayed at or under the cap plus its margin, and clock and peak rise with the cap within their margins |
| PowerVerdict.CapIsANoOpIff | tools/verify_power_cap.py:563-576 | in the same terms: CAP IS A NO-OP if and only if the phases are fit, every cap was stored, some could bind, and under none of those did the clock fall or the peak stay at the cap |
| PowerVerdict.OtherVerdictsIff | tools/verify_power_cap.py:508-622 | when the answer is a refused cap, no binding cap, or PARTIAL, which is everything in between |
| PowerVerdict.RespondsIff | tools/verify_power_cap.py:578-588 | the chain of neighbours in the sorted rows rises if and only if each binding cap and the next looser one do, in terms of the phases |
| PowerVerdict.GatesPass | tools/verify_power_cap.py:429-506 | which checks come before the rows, in terms of the phases, and exactly when each of them answers |
| PowerVerdict.RaisesIff | tools/verify_power_cap.py:550-561 | the decision raises if and only if the baseline peak is missing from phases that are restored, loaded, unpolled and held, whose caps were all stored |
| PowerVerdict.RaisesAt | tools/verify_power_cap.py:550-561 | such phases, as a stored artifact could hold them |
| PowerVerdict.MeasuredPhase | tools/verify_power_cap.py:289-320 | a phase without power samples is not loaded |
| PowerVerdict.MeasuredNeverRaises | tools/verify_power_cap.py:289-320 | over phases as they are measured the decision never raises |
| PowerVerdict.CapWorksMeansOrdered | tools/verify_power_cap.py:578-588 | under CAP WORKS, binding caps d apart in order differ by at most d margins in clock and peak |
| PowerVerdict.StepsAddUp | tools/verify_power_cap.py:582-588 | neighbouring margins chain |
| PowerVerdict.NoOpNeedsABindingCap | tools/verify_power_cap.py:563-576 | CAP IS A NO-OP needs a cap that could bind and none that acted, on a restored card |
| PowerVerdict.HardwareCodeIff | tools/verify_power_cap.py:752-765 | the hardware exit code is given if and only if the limit did not provably return, or the clock did not where all phases were loaded, unpolled and held; and success means that both returned |
| Sweep.SweepRunner.Run | joule_agent/sweep.py:584-676 | executions are round-robin and on schedule; every recorded run was measured with the device in exactly its point's configuration; unaborted means complete; the device ends unmodified, at the limit it was found at, or the default if some limit was unreadable, unless the sweep says it may be modified, which only an aborted one does; "Nothing was written" means that the device accepted no lock or cap of the last execution, by its own log; and the writes reported are that execution's own if and only if it got a guard or every point before it was stock |
| Sweep.SweepRunner.RunTurn | joule_agent/sweep.py:605-609 | one turn: the point whose turn it is, its run recorded, or the sweep ended with a true report |
| Sweep.SweepRunner.RunPoint | joule_agent/sweep.py:495-554 | a point that does not fail is measured once, in exactly its configuration; a point leaves the device unmodified unless it says otherwise, at the limit it found, or the default written by its exit restore if the limit was unreadable; the device's log grows by exactly the writes listed for a guarded point and its restore's, and by nothing for an unguarded one |
| Sweep.SweepRunner.RunGuarded | joule_agent/sweep.py:534-553 | the same for the guarded block: what is listed is what the device accepted |
| Sweep.SweepRunner.Leave | joule_agent/sweep.py:549-553 | a limit that differs after the exit restore is the captured one, or the default, written by that restore |
| Sweep.ListedIsOwnIff | joule_agent/sweep.py:534-548 | after any executions that did not fail, the next one's report lists its own writes if and only if it gets a guard or every point before it was stock |
| Sweep.NothingListedIff | joule_agent/sweep.py:534-548 | after executions that did not fail nothing is listed if and only if all of them were stock |
| Sweep.StaleReport | joule_agent/sweep.py:505-513 | an instance: a stock point that fails after a locked one is reported with the lock |
| Sweep.ReportsTell | joule_agent/sweep.py:626-676 | which report each kind of failure gets, and what it carries |
| Sweep.NothingWrittenIsTrueIff | joule_agent/sweep.py:626-648 | after a refused cap the exit restore leaves the device as it was, whatever its I/O does, if and only if the limit was read, or no default was, or the default is the limit in force |
| Sweep.NothingWrittenButChanged | joule_agent/sweep.py:626-648 | a point reported as having written nothing, whose limit went from 150 W to the default |
| Sweep.SweepRunner.ApplyPart | joule_agent/sweep.py:538-545 | a write is listed exactly when it reached the device |
| Sweep.MakeRunner | joule_agent/sweep.py:300-313 | a sweep is refused exactly without repeats or points |
| Sweep.EveryPointEveryRound | joule_agent/sweep.py:602-607 | a complete sweep has each point exactly once in each round |
| Sweep.RestoreCallTells | joule_agent/sweep.py:549-553 | a restore raises exactly when the debt remains, and undoing a cap, or any other change of the limit, is the snapshot's target written by this restore |
| SweepVerdict.PickBest | joule_agent/sweep.py:951-992 | the best point is the first cheapest of those that have a figure, meet the threshold if there is one and cap no power, none exactly in an aborted sweep or without such a point; ties are exactly those within its spread or two percent of its mean |

## Left out

- GuardTheorems.EvidenceOutlivesEveryRun: names the lock only when no resumed signal wiped the note, because the code does not promise more (see above).
- GuardTheorems.UnidentifiedRecordIsLostToAnotherCard: shows the failure for one recovery; that a recovery told apart by UUID never does it is `MismatchKeepsRecord` with `WrongCardRefusedIff`.
- GuardProtocol.StockInUse: also bars an operator change while an interrupted, failing restore is about to publish a record that a handler on top has meanwhile settled in memory, where the change can be harmless; at every other place it bars, `ArmReliesOnLimit`, `RestoreOverwrites` or `FailureIsRepublished` names the harm.
- Signals together with several live guards in one process: the guard's documentation leaves that to state-file recovery; many guards are covered for complete calls only.
- Installing and owning signal handlers, SIGINT's KeyboardInterrupt and the death of the process: the machine lets a handler return, unwind everything, or be followed by a kill.
- The consent and privilege checks are two booleans of a guard's configuration; the owner-thread check, `atexit` and other threads are not modelled.
- Devices that accept a write and ignore it, and a kill of the whole machine.
- JSON text, fsync, temporary file names, ownership of the file: the document is a datatype and publishing is atomic or raises.
- Fields with no effect on any decision: `restored_utc`, error lists, `_recovered_by`, where an unreadable file is quarantined to.
- `check_stale_state`'s report and every command line; of messages, only which advice, verdict or abort case is chosen.
- In the recorder: sample values, polled rows, the energy counter, threads and real clocks. `_drain_once` is driven synchronously.
- In the sweep: the schedule digest, the metrics and energy arithmetic of a measurement, deriving the latency threshold, drift detection, `build_grid`, `best_unverified_point`, and an operator's interrupt, which the source lets through.
- `analyse` in the idle oracle, constant and Poisson arrivals, `verify_clock_lock`, the benchmark, the workload counters: simpler instances of what is here.
- Random draws are an arbitrary stream of positive integers; a draw of exactly zero is excluded.
- Rounding of reported numbers and of floats.
