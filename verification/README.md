# Verified model of the analytics node

This project models the stateful cores of the Contrail analytics node and proves what they keep over
every run. Code that updates fields, dictionaries or buffers step by step is a class or a method with
loops; each is proved against a function of its inputs, and the properties are lemmas about those
functions. `dafny verify dfyconfig.toml` checks everything.

| file | what it models |
|---|---|
| `SoakMachine.dfy` | the soak machine of an alarm and the table of machines, as values; soak safety and timers over runs |
| `AlarmTimers.dfy` | the machine's methods, the timer wheel they share, and the controller's alarm table |
| `UveTable.dfy`, `UveMirror.dfy`, `UvePipeline.dfy` | contents of UVEs, their diffs, and the Redis mirror that the diffs maintain |
| `UveConvergence.dfy` | server, notifications, queue, batch, table and mirror as one system; convergence |
| `NotifQueue.dfy` | coalescing of UVE notifications, draining and requeueing |
| `UveAttributes.dfy`, `RuleEvaluation.dfy` | reading attributes out of a UVE and evaluating alarm rules on them |
| `AlarmConfigIndex.dfy` | the index of alarms by UVE key |
| `SyslogFraming.dfy` | framing of structured syslog over TCP (section 3.4.1 of RFC 6587) |
| `StructuredData.dfy` | printing, parsing and decorating structured data |
| `SessionCounters.dfy` | differences of cumulative session counters |
| `NetworkIndex.dfy` | the sorted ranges behind the site lookup |
| `RedisReconnect.dfy` | the reconnect protocol of the Redis connections |
| `GeneratorSession.dfy` | attachment of sessions to generators, and their back-off |
| `PartitionRouting.dfy` | the Kafka partition of a UVE |
| `FieldCache.dfy` | the write-once cache of field names |

## Where the code does not do what one would expect

Each of these has a lemma with the failing case, and one that says exactly when it does not fail.

- A failed fetch loses the diff for good: the table takes in the fetched data, nothing is sent, and the
  retry finds nothing to send (`MirrorKept`, `RetryRepairsNothing`, `FailedFetchLosesAnUpdate`,
  `QuietButNotMirrored`).
- The first run of the timers looks only at its own second, and a timer before it never fires
  (`TickLeavesOnlyLater`, `MissedForever`, `FirstRunCanMiss`).
- The frequency check does not look at time: its two places in the ring are those of an older and a newer
  stamp, in this order, so that it is met from the raise number FreqCheck_Times + 1 on
  (`FrequencyIsCount`, `RaisedUnsoaked`).
- A catch-up that is not shorter than a delete timer can end in a KeyError that exits the process
  (`AlarmTable.RunAlarmTimers`, `ShortCatchUpIsSafe`, `LongCatchUpOrphans`).
- A user alarm whose key is renamed to one of the same translation leaves the index
  (`AgreementKeptIff`, `MovedKeyIsLost`).
- An alarm whose rules raise an exception is reported as raised (`ProcessAlarms`,
  `PathPastNumberRaises`).
- A frame that does not fit the session buffer is discarded when it arrives in parts
  (`OversizedFrameIsDiscarded`); a last frame whose message does not end in ']' is held back until
  more bytes come (`WholeStreamDelivered`).
- Decorations of a part that does not end in the quote of a pair come back with another key
  (`DecoratedPairsIff`, `DecoratedEmptyPart`).
- Where volume updates are not processed, a next-hop change is counted twice
  (`NexthopChangeCountsTwice`, `OpenSessionsConserve`).
- With masks that are not prefixes the most recent network need not win (`MostRecentIff`,
  `OtherMasksDisagree`).
- A connection that drops before its posted setup runs fails the assertion of that setup
  (`DropBeforePostedSetup`, `SingleToken`).
- A session that names a second generator while attached breaks the bookkeeping (`InvariantKeptIff`,
  `TwoGeneratorsBreakInv`).

The comment at contrail-collector/db_handler.cc:818-820 speaks of two caches; the code has one, and the
model follows the code.

## Model

| member | source | states |
|---|---|---|
| `SoakMachine.StepSettles` | contrail-opserver/alarmgen.py:642-736 | every step of the table keeps each machine settled: only an Active alarm has no timer running, and each other state has its own timeout set |
| `SoakMachine.MachineFollowsSignal` | contrail-opserver/alarmgen.py:642-817 | over every run, a machine is in the state, and has the timeout, that its raise/clear history and the clock dictate |
| `SoakMachine.DeleteTimerOverRuns` | contrail-opserver/alarmgen.py:700-736 | over every run, an idle alarm is due for deletion FreqCheck_Seconds after its clear, and after its idle soak if it was visible when cleared |
| `SoakMachine.DeletedWhenDue` | contrail-opserver/alarmgen.py:788-799 | with nothing overdue, a catch-up keeps an alarm if and only if it is raised or that moment is yet to come |
| `SoakMachine.DeletedOnlyWhenDue` | contrail-opserver/alarmgen.py:788-799 | an alarm goes only in a catch-up once that moment has come, at its clear if there is nothing to wait for, or with its UVE |
| `SoakMachine.ClearDeletesAtOnce` | contrail-opserver/alarmgen.py:692-736 | a clear deletes the alarm at once if and only if there is neither an idle soak nor a delete timer to wait for |
| `SoakMachine.ChangesAreReported` | contrail-opserver/alarmgen.py:755-817 | a catch-up reports every alarm whose visibility it changes, as updated or to be deleted, and as updated no other |
| `SoakMachine.RingHoldsLatest` | contrail-opserver/alarmgen.py:656-664 | the ring holds the latest FreqCheck_Times + 1 stamps, or all of them while there are fewer |
| `SoakMachine.FrequencyIsCount` | contrail-opserver/alarmgen.py:738-753 | with stamps in order, the frequency test is met if and only if FreqCheck_Times + 1 stamps were logged, whatever the times between them |
| `SoakMachine.RaisedUnsoaked` | contrail-opserver/alarmgen.py:665-672 | so an idle alarm that is raised becomes active without soaking if and only if no soak is configured or that many raises were logged |
| `SoakMachine.ShownOnlyAfterSoaking` | contrail-opserver/alarmgen.py:581-591 | an alarm becomes visible only when timers run after ActiveTimer seconds of being raised without a clear, or at once with no soak time or with the frequency check |
| `SoakMachine.HiddenOnlyAfterSoaking` | contrail-opserver/alarmgen.py:692-736 | a visible alarm is withdrawn only after IdleTimer seconds of being clear without a raise, by a clear with no idle soak, or because its UVE stopped |
| `SoakMachine.VisibleAfterTick` | contrail-opserver/alarmgen.py:755-817 | with nothing overdue, an alarm is visible after a catch-up if and only if its signal and the clock say so |
| `SoakMachine.TickLeavesOnlyLater` | contrail-opserver/alarmgen.py:831-859 | after run_timers(now) every timer left is later than now, if and only if none was overdue before; this includes delete timers armed in the same catch-up |
| `SoakMachine.NoMissedTimers` | contrail-opserver/alarmgen.py:831-859 | once the timers have run, no pending timer is ever before the next second to look at, over every run whose first timer run was in time |
| `SoakMachine.MissedForever` | contrail-opserver/alarmgen.py:835-845 | a timer that was missed is missed for good: no later catch-up touches its alarm |
| `SoakMachine.FirstRunCanMiss` | contrail-opserver/alarmgen.py:837-838 | the first run starts at its own time, and a concrete alarm that soaked before it is missed |
| `AlarmTimers.OneBucketEach` | contrail-opserver/alarmgen.py:636-677 | an Active alarm is in no bucket, any other alarm is in exactly one, that of its own timeout |
| `AlarmTimers.Reindexed` | contrail-opserver/alarmgen.py:862-883 | moving an alarm to the bucket of its new timeout keeps the wheel an exact index without empty buckets |
| `AlarmTimers.TimerWheel.Remove` | contrail-opserver/alarmgen.py:636-640 | the bucket loses the alarm and goes with its last one; it is never looked up when missing |
| `AlarmTimers.TimerWheel.Add` | contrail-opserver/alarmgen.py:672-676 | the alarm enters the bucket, made if missing |
| `AlarmTimers.TimerWheel.Update` | contrail-opserver/alarmgen.py:862-883 | the alarm moves between buckets; the duplicate-timer error is exactly that the new bucket already has it |
| `AlarmTimers.TimerWheel.FireBucket` | contrail-opserver/alarmgen.py:842-851 | every alarm of a bucket fires once, in whatever order, and is reported exactly if it is to be deleted or updated |
| `AlarmTimers.TimerWheel.ApplyFirings` | contrail-opserver/alarmgen.py:852-856 | after a bucket the wheel indexes exactly the surviving alarms, and the duplicate-timer branch is not taken |
| `AlarmTimers.TimerWheel.RunSecond` | contrail-opserver/alarmgen.py:839-856 | one second of a catch-up, present or missing bucket, extends the caught-up range by that second |
| `AlarmTimers.TimerWheel.CatchUp` | contrail-opserver/alarmgen.py:839-856 | the loop over seconds catches up every alarm at once and lists the doomed and the updated, each once |
| `AlarmTimers.TimerWheel.RunTimers` | contrail-opserver/alarmgen.py:831-859 | run_timers leaves wheel, machines and both lists as the closed form of a catch-up says, from last_timers_run or from now the first time |
| `AlarmTimers.TimerWheel.StopTimers` | contrail-opserver/alarmgen.py:816-821 | the timers of a stopped UVE leave the wheel and nothing else does |
| `AlarmTimers.AlarmStateMachine.SetAlarms` | contrail-opserver/alarmgen.py:642-677 | set_alarms makes the transition of the value machine and keeps the wheel an index |
| `AlarmTimers.AlarmStateMachine.SetIdle` | contrail-opserver/alarmgen.py:651-677 | an idle alarm logs its stamp and becomes active or soaks, and moves from the bucket of its delete timer to that of its soak timer |
| `AlarmTimers.AlarmStateMachine.ClearAlarms` | contrail-opserver/alarmgen.py:692-736 | clear_alarms makes the transition, asks for deletion exactly when it fell to Idle without a delete timer, and keeps the wheel an index |
| `AlarmTimers.AlarmStateMachine.RunSoakingTimer` | contrail-opserver/alarmgen.py:755-817 | a machine that fires makes the transition of its state and reports deletion, update and next timeout |
| `AlarmTimers.AlarmStateMachine.DeleteTimers` | contrail-opserver/alarmgen.py:820-829 | the machine leaves the wheel whatever its state |
| `AlarmTimers.AlarmStateMachine.IsFrequencyExceeded` | contrail-opserver/alarmgen.py:738-753 | the frequency test as the ring of time stamps gives it, without an index out of range |
| `AlarmTimers.AlarmStateMachine.LogTimestamp` | contrail-opserver/alarmgen.py:656-664 | the ring takes the stamp at its head and never exceeds its size |
| `AlarmTimers.CatchUpSplits` | contrail-opserver/alarmgen.py:831-859 | running seconds lo..t is running lo..t-1 and then t, for state, deletion and update alike |
| `AlarmTimers.FiredMoves` | contrail-opserver/alarmgen.py:846-883 | a machine that fires moves to the bucket of the timeout it reports, and the index agrees |
| `AlarmTimers.AlarmTable.RaiseAlarm` | contrail-opserver/alarmgen.py:1702-1720 | a firing rule creates the machine if needed and raises it; the whole table makes the step of the value model |
| `AlarmTimers.AlarmTable.LowerAlarm` | contrail-opserver/alarmgen.py:1733-1750 | a rule that no longer fires lowers the alarm or deletes it with its UVE entry |
| `AlarmTimers.AlarmTable.StopUve` | contrail-opserver/alarmgen.py:1793-1821 | a stopped UVE loses its timers and alarms, all others keep theirs |
| `AlarmTimers.AlarmTable.SendUpdate` | contrail-opserver/alarmgen.py:1339-1358 | publishing fails exactly on a UVE without an entry, and removes the entry of a UVE without alarms |
| `AlarmTimers.AlarmTable.RunAlarmTimers` | contrail-opserver/alarmgen.py:1360-1368 | run_alarm_timers makes the catch-up step, and ends in a KeyError exactly when an updated UVE lost its last alarm in the same catch-up |
| `AlarmTimers.OrphanedIff` | contrail-opserver/alarmgen.py:1364-1368 | that condition is, equivalently, an updated alarm whose UVE has no surviving alarm |
| `AlarmTimers.ShortCatchUpIsSafe` | contrail-opserver/alarmgen.py:1360-1368 | a catch-up shorter than every delete timer never ends in the KeyError |
| `AlarmTimers.LongCatchUpOrphans` | contrail-opserver/alarmgen.py:1364-1368 | a longer one does, on a concrete run that raises and clears one alarm |
| `UveTable.AGKeyInfo.UpdateSingle` | contrail-opserver/alarmgen.py:147-171 | one struct is written or removed, and the three sets say exactly what changed |
| `UveTable.AGKeyInfo.Update` | contrail-opserver/alarmgen.py:173-189 | the contents become the snapshot, and the three sets say exactly what changed |
| `UveTable.DiffPatches` | contrail-opserver/alarmgen.py:147-189 | the diff of two contents turns the first into the second |
| `UveTable.EmitsDiff` | contrail-opserver/alarmgen.py:1908-1975 | the three sets stand for exactly that diff |
| `UveTable.Emit` | contrail-opserver/alarmgen.py:1908-1975 | the output grows by the diff of the contents, and is touched exactly if there is one |
| `UveTable.RefreshEach` | contrail-opserver/alarmgen.py:1939-1975 | struct by struct, contents and accumulated output are those of all the structs at once |
| `UveTable.Refresh` | contrail-opserver/alarmgen.py:1908-1975 | either way of refreshing leaves the refreshed contents and emits exactly their diff |
| `UveTable.IncrementalRefinesFull` | contrail-opserver/alarmgen.py:147-189 | if only the listed structs differ from the snapshot, incremental and full refresh give the same contents and the same output |
| `UveTable.RefreshTwice` | contrail-opserver/alarmgen.py:1908-1975 | refreshing again with the same data changes nothing |
| `UveMirror.OutputMirrors` | contrail-opserver/alarmgen.py:1876-1998 | the output of a batch applied to a mirror of the table makes a mirror of the new table |
| `UveMirror.FreshTableEmits` | contrail-opserver/alarmgen.py:1876-1998 | a batch on an empty table always emits, so that the writer clears what another acquisition left |
| `UveMirror.MirrorKept` | contrail-opserver/alarmgen.py:2031-2039 | a batch keeps the mirror if and only if no fetch failed or the table was already up to date |
| `UveMirror.MirrorOverRuns` | contrail-opserver/alarmgen.py:1370-1403 | over every run of failure-free batches table and mirror stay equal |
| `UveMirror.RetryRepairsNothing` | contrail-opserver/alarmgen.py:1890-1893 | after a failed batch is retried with the same data, the mirror is right if and only if every UVE with contents was up to date before |
| `UveMirror.RetryFindsNothing` | contrail-opserver/alarmgen.py:1890-1893 | the retry finds no difference in a UVE that has contents, because the table took in the failed batch |
| `UveMirror.FailedFetchLosesAnUpdate` | contrail-opserver/alarmgen.py:2031-2039 | a concrete struct whose new content never reaches the mirror |
| `UvePipeline.AggRedis.Clear` | contrail-opserver/alarmgen.py:1243-1262 | all hashes and the key index go, and the acquisition time is recorded |
| `UvePipeline.AggRedis.Send` | contrail-opserver/alarmgen.py:1264-1337 | rows are applied to what this acquisition wrote, or to nothing if another acquisition wrote last, and the key index is again exactly the keys with a hash |
| `UvePipeline.AggRedis.Write` | contrail-opserver/alarmgen.py:1290-1318 | row by row the hashes change, and every key that may have lost its hash is noted |
| `UvePipeline.AggRedis.RunUveAgg` | contrail-opserver/alarmgen.py:1370-1403 | for any limit on rows per write, the output is applied as a whole, even when one UVE straddles writes |
| `UvePipeline.AggRedis.PushDiff` | contrail-opserver/alarmgen.py:1388-1396 | the rows of one UVE, however cut into writes, patch exactly that UVE |
| `UvePipeline.NotifHandler.HandleOne` | contrail-opserver/alarmgen.py:1876-1998 | one UVE is refreshed, leaves the table when it has no contents, and adds its diff, a delete or nothing to the output |
| `UvePipeline.NotifHandler.HandleNotif` | contrail-opserver/alarmgen.py:1850-2039 | the table after a batch, and its output unless a fetch failed |
| `UvePipeline.ProcessBatch` | contrail-opserver/alarmgen.py:1535-1583 | notification to Redis: table and mirror make the step of the mirror model, and a newly acquired partition ends up mirrored, with the key index equal to the keys of the table, whatever an earlier acquisition left |
| `NotifQueue.UveQueue.Notify` | contrail-opserver/alarmgen.py:1170-1181 | the pending entry of each notified UVE becomes its join with the notification, the others stay |
| `NotifQueue.UveQueue.Drain` | contrail-opserver/alarmgen.py:1526-1536 | a drain moves entries unchanged from the queue to the batch, the newest first, all of them or as many as the limit says |
| `NotifQueue.NothingLost` | contrail-opserver/alarmgen.py:1526-1572 | over every run each notification is pending, in the batch in work, or was in a batch processed with success |
| `NotifQueue.QueueIsJoin` | contrail-opserver/alarmgen.py:1170-1181 | the pending entry is exactly the join of all that was asked since the UVE was last drained, failed batches asking again |
| `NotifQueue.JoinAllMeans` | contrail-opserver/alarmgen.py:1170-1181 | the join is None if and only if one of them is, and otherwise their union |
| `NotifQueue.JoinAllIgnoresOrder` | contrail-opserver/alarmgen.py:1170-1181 | neither order nor repetition of notifications matters |
| `NotifQueue.OnlySpecificRequests` | contrail-opserver/alarmgen.py:1170-1181 | over every run whose notifications name some struct or ask for everything, so do the queue and every batch |
| `NotifQueue.FullNeverForgotten` | contrail-opserver/alarmgen.py:1170-1181 | in such a run a request for everything stays one until a batch with it is processed with success |
| `NotifQueue.WorkIsLastDrain` | contrail-opserver/alarmgen.py:1560-1572 | the batch in work is the one drained last |
| `NotifQueue.FullRequestsSurvive` | contrail-opserver/alarmgen.py:1170-1181 | merging keeps a request for everything, except, exactly, one given as an empty list |
| `UveConvergence.StepForgetsNothing` | contrail-opserver/alarmgen.py:1447-1583 | every event, also a change at the server between two fetches of a batch or a failed fetch, leaves each struct that the table does not have right on its way: announced, pending, or in a batch that will fetch it or be queued again |
| `UveConvergence.NothingForgottenOverRuns` | contrail-opserver/alarmgen.py:1447-1583 | the same over every run, with or without failures |
| `UveConvergence.StepKeepsMirror` | contrail-opserver/alarmgen.py:1370-1403 | without a failed fetch the mirror is always the table as it was before the batch in work |
| `UveConvergence.BatchIsProcessed` | contrail-opserver/alarmgen.py:1535-1583 | a batch as a whole is a step of the mirror model, whatever the server did in between |
| `UveConvergence.QuietMeansConverged` | contrail-opserver/alarmgen.py:1447-1583 | with nothing announced, pending or in work, the table is what the server has, and so is the mirror if no fetch failed |
| `UveConvergence.QuietButNotMirrored` | contrail-opserver/alarmgen.py:2031-2039 | a run with one failed fetch after which all is quiet, the table right and the mirror still empty |
| `UveAttributes.GetEach` | contrail-opserver/alarmgen.py:271-289 | a list or wildcard gives one result for each part, each with the route through that part |
| `UveAttributes.FoundIffAllTaken` | contrail-opserver/alarmgen.py:265-295 | a single value is found if and only if every attribute of the path took a step, and a value not found is None |
| `UveAttributes.GetAttributeFromUvePath` | contrail-opserver/alarmgen.py:311-336 | the two-cursor loop reads what the recursive walk along the route reads |
| `UveAttributes.RouteLeadsToValue` | contrail-opserver/alarmgen.py:265-336 | the route recorded with a value leads back to that value, for every single value or member of one list, with __key and __value last |
| `RuleEvaluation.NullIsLeast` | contrail-opserver/alarmgen.py:360-418 | the six comparisons of two comparable values fit together, with None below everything: exactly one of <, ==, > holds, the others follow, and nothing raises |
| `RuleEvaluation.ComparisonsAreTransitive` | contrail-opserver/alarmgen.py:372-400 | comparison by <= is transitive where Python's ordering is, with None among the values or not |
| `RuleEvaluation.StringsAreRead` | contrail-opserver/alarmgen.py:361-368 | a string that is JSON is compared by the value it stands for, on either side |
| `RuleEvaluation.MembershipMeans` | contrail-opserver/alarmgen.py:401-408 | in and not in a list say that some item, or none, is equal |
| `RuleEvaluation.NotAList` | contrail-opserver/alarmgen.py:401-408 | nothing is in a value that is no list |
| `RuleEvaluation.SizeMeans` | contrail-opserver/alarmgen.py:411-418 | a size comparison compares the length of a list as a number, and fails, or holds if negated, for any other value |
| `RuleEvaluation.RangeIsTwoComparisons` | contrail-opserver/alarmgen.py:409-410 | range with two bounds is two comparisons by <=, on comparable values |
| `RuleEvaluation.RangeOfNullRaises` | contrail-opserver/alarmgen.py:409-410 | range does not take None for the least value but raises |
| `RuleEvaluation.MatchPairs` | contrail-opserver/alarmgen.py:494-540 | the loops over one list, two lists in step, or two values gather the matches of the specification, raising as soon as a pair does |
| `RuleEvaluation.MatchesExact` | contrail-opserver/alarmgen.py:494-540 | a match list holds, in order, precisely the pairs that compare |
| `RuleEvaluation.MatchesRaise` | contrail-opserver/alarmgen.py:494-540 | gathering raises if and only if some pair cannot be compared |
| `RuleEvaluation.ExprExact` | contrail-opserver/alarmgen.py:473-550 | an expression yields matches if and only if both operands are found, all pairs compare and some pair holds; it raises if and only if an operand or pair does |
| `RuleEvaluation.SingleValues` | contrail-opserver/alarmgen.py:540-550 | two single values: the expression holds if and only if they compare, and raises if and only if the comparison does |
| `RuleEvaluation.ListWithValue` | contrail-opserver/alarmgen.py:514-522 | a list and a value: some item must compare with it and none may raise |
| `RuleEvaluation.ValueWithList` | contrail-opserver/alarmgen.py:523-532 | a value and a list, likewise |
| `RuleEvaluation.ListsInStep` | contrail-opserver/alarmgen.py:499-513 | two lists are compared in step if they are of the same length, and otherwise the expression fails |
| `RuleEvaluation.MissingOperand` | contrail-opserver/alarmgen.py:475-489 | an operand that the UVE does not have fails the expression, and a given value that is no JSON raises |
| `RuleEvaluation.VariableOfFirst` | contrail-opserver/alarmgen.py:338-358 | a variable that is the path of the first operand is recorded with its value |
| `RuleEvaluation.VariableOfSecond` | contrail-opserver/alarmgen.py:338-358 | a variable that is the path of the second operand is recorded with its value |
| `RuleEvaluation.EvaluateAndList` | contrail-opserver/alarmgen.py:471-553 | the inner loop stops at the first expression that fails or raises |
| `RuleEvaluation.AndExact` | contrail-opserver/alarmgen.py:471-553 | an and-list is recorded if and only if all its expressions hold, and raises if and only if it reaches one that raises |
| `RuleEvaluation.OrExact` | contrail-opserver/alarmgen.py:469-558 | the result records exactly the and-lists that hold, in order |
| `RuleEvaluation.EvaluateUveForAlarms` | contrail-opserver/alarmgen.py:461-558 | the nested loops compute the specification |
| `RuleEvaluation.EvaluationExact` | contrail-opserver/alarmgen.py:461-558 | there is a result if and only if some and-list has every expression satisfied, and an exception if and only if some and-list reaches an expression that errs |
| `RuleEvaluation.PathPastNumberRaises` | contrail-opserver/alarmgen.py:265-295 | a UVE and a rule whose path goes on past a number, on which the evaluation raises |
| `RuleEvaluation.ProcessAlarms` | contrail-opserver/alarmgen.py:238-262 | an alarm is reported if and only if its rules match or their evaluation raises, with matches only in the first case |
| `AlarmConfigIndex.SameLookups` | contrail-opserver/alarmgen_config_handler.py:67-106 | an index without empty tables is determined by its lookups |
| `AlarmConfigIndex.ConfigHandler.UpdateAlarmConfigTable` | contrail-opserver/alarmgen_config_handler.py:67-106 | under each translated key the entry is set or removed, elsewhere nothing changes, no table is left empty, and the change map has exactly these keys |
| `AlarmConfigIndex.ConfigHandler.HandleConfigUpdate` | contrail-opserver/alarmgen_config_handler.py:153-215 | an update or deletion makes the step of the model, a configuration without rules changes nothing, and the change map covers every key whose lookup changed, with the operation |
| `AlarmConfigIndex.ConfigHandler.Reconcile` | contrail-opserver/alarmgen_config_handler.py:174-203 | the three passes over new, dropped and kept keys, in that order, and the operation reported for each key |
| `AlarmConfigIndex.AgreementKeptIff` | contrail-opserver/alarmgen_config_handler.py:153-215 | an operation keeps the index in agreement with the configurations if and only if no new key is filed where a dropped key was, unless a kept key is too |
| `AlarmConfigIndex.DistinctKeysAreHarmless` | contrail-opserver/alarmgen_config_handler.py:70-82 | keys that are distinct after translation never do harm |
| `AlarmConfigIndex.AgreementOverRuns` | contrail-opserver/alarmgen_config_handler.py:153-215 | over every run of harmless operations the index has exactly the alarms whose latest configuration lists the key, with that configuration, beside the untouched inbuilt ones |
| `AlarmConfigIndex.TranslateNamed` | contrail-opserver/alarmgen_config_handler.py:70-82 | of a key with a table and a name the table is translated and the name stays |
| `AlarmConfigIndex.TranslateTable` | contrail-opserver/alarmgen_config_handler.py:70-82 | a key that is only a table is translated if UVE_MAP has it |
| `AlarmConfigIndex.MovedKeyIsLost` | contrail-opserver/alarmgen_config_handler.py:174-203 | an alarm moved between two keys of the same translation leaves the index |
| `AlarmConfigIndex.TableAndItsTranslation` | contrail-opserver/alarmgen_config_handler.py:70-82 | a table name and the one that UVE_MAP gives for it are two such keys |
| `SyslogFraming.TcpSession.Process` | contrail-collector/structured_syslog_server.cc:1832-1944 | one read: the carry-over and the read are scanned, slices go to the parser, the rest is kept or discarded, as the specification says |
| `SyslogFraming.TcpSession.CutMessage` | contrail-collector/structured_syslog_server.cc:1857-1891 | where a message is taken to begin and end, by its length or by its brackets |
| `SyslogFraming.TcpSession.AfterMessage` | contrail-collector/structured_syslog_server.cc:1914-1938 | where the next message begins, after a parsed slice or a failed one |
| `SyslogFraming.StripNulUnique` | contrail-collector/structured_syslog_server.cc:1844-1845 | the loop over trailing NULs removes exactly them |
| `SyslogFraming.DecimalValue` | contrail-collector/structured_syslog_server.cc:1873-1876 | a canonical length prefix reads back as the length |
| `SyslogFraming.RoundAtFrame` | contrail-collector/structured_syslog_server.cc:1857-1938 | at a frame the loop either keeps all of it or hands over exactly the frame |
| `SyslogFraming.ChunkingInvariance` | contrail-collector/structured_syslog_server.cc:1832-1944 | however a stream of frames is cut into reads, the slices are the frames in order, the buffer is exactly the undelivered suffix, and nothing is discarded |
| `SyslogFraming.AllDelivered` | contrail-collector/structured_syslog_server.cc:1895-1896 | of a whole stream every frame counts as delivered, the last one only if its message ends in a bracket |
| `SyslogFraming.WholeStreamDelivered` | contrail-collector/structured_syslog_server.cc:1832-1944 | once the whole stream is in, all frames were delivered and the buffer is empty if and only if the last message ends in a bracket; otherwise exactly its frame is held back |
| `SyslogFraming.LinesDelivered` | contrail-collector/structured_syslog_server.cc:1881-1889 | messages without a length in one read, each followed by one separator, are all delivered, and nothing is left |
| `SyslogFraming.JunkIsDroppedIff` | contrail-collector/structured_syslog_server.cc:1881-1889 | bytes in front of such a message are dropped if and only if they are fewer than its bytes behind the first space |
| `SyslogFraming.OversizedFrameIsDiscarded` | contrail-collector/structured_syslog_server.cc:1895-1910 | a frame that does not fit the session buffer is discarded when cut at the limit, and the frames before it are still delivered |
| `StructuredData.Forwarded.Decorate` | contrail-collector/structured_syslog_server.cc:47-58 | the pair goes in front of the next closing bracket, or nowhere |
| `StructuredData.ParseStructuredPart` | contrail-collector/structured_syslog_server.cc:60-88 | the fields are those of the pairs read, first wins; the message is decorated with each; the status says whether the text is well formed |
| `StructuredData.ParsePrinted` | contrail-collector/structured_syslog_server.cc:60-88 | printing pairs and parsing the text gives back the pairs |
| `StructuredData.PrintedPairs` | contrail-collector/structured_syslog_server.cc:60-88 | the same wherever the printed text begins, to a clean end |
| `StructuredData.FirstWins` | contrail-collector/structured_syslog_server.cc:76-83 | a key has the value of the first pair with it, as a number if it is a number field and as text otherwise |
| `StructuredData.NoOtherKeys` | contrail-collector/structured_syslog_server.cc:76-83 | and there are no other keys than those there before and those of the pairs |
| `StructuredData.NoPairs` | contrail-collector/structured_syslog_server.cc:64-64 | a text without an equals sign has no pairs and is accepted |
| `StructuredData.UnclosedIsRefused` | contrail-collector/structured_syslog_server.cc:68-71 | a text whose last value has no closing quote is refused, with the pairs before it read |
| `StructuredData.DecoratedPairs` | contrail-collector/structured_syslog_server.cc:47-88 | behind a part that ends clean, decorations are parsed as further pairs |
| `StructuredData.DecoratedPairsIff` | contrail-collector/structured_syslog_server.cc:47-88 | and a well-formed part needs exactly that for its decorations to come back as they are |
| `StructuredData.DecoratedEmptyPart` | contrail-collector/structured_syslog_server.cc:47-58 | in an empty part the first decoration comes back with a space in its key |
| `StructuredData.DecorationsGoBeforeBracket` | contrail-collector/structured_syslog_server.cc:47-58 | any number of decorations end up in order before the first bracket |
| `StructuredData.PartOfBody` | contrail-collector/structured_syslog_server.cc:198-217 | the structured part of a body with one bracket pair |
| `StructuredData.DecoratedMessage` | contrail-collector/structured_syslog_server.cc:198-217 | decorating a message any number of times and parsing it gives the original pairs and then the decorations |
| `SessionCounters.SessionTable.Add` | contrail-collector/structured_syslog_config.cc:49-73 | a known session is updated, a new one only if there is room |
| `SessionCounters.SessionTable.Remove` | contrail-collector/structured_syslog_config.cc:75-85 | the session goes, and the count says whether it was there |
| `SessionCounters.SessionTable.Summarize` | contrail-collector/structured_syslog_server.cc:439-577 | one message: the table after it and the difference that is emitted, or none if it is dropped |
| `SessionCounters.OpenSessionsConserve` | contrail-collector/structured_syslog_server.cc:511-577 | for any interleaving of sessions, what was emitted for one adds up to its stored counters and what leaked |
| `SessionCounters.ClosedSessionsConserve` | contrail-collector/structured_syslog_server.cc:511-577 | at the close the total is that of the close, or of the last stored update if the close is stale, and what leaked |
| `SessionCounters.UpdateIsTaken` | contrail-collector/structured_syslog_server.cc:555-572 | an update of a known session, or of a new one while there is room, is stored and brings the total up to its counters |
| `SessionCounters.DroppedIff` | contrail-collector/structured_syslog_server.cc:452-559 | nothing is emitted if and only if volume updates are not processed, or the table has no room for a new session |
| `SessionCounters.DroppedChangesNothing` | contrail-collector/structured_syslog_server.cc:526-577 | a dropped or stale message changes nothing but what a close removes, and a stale one emits zero |
| `SessionCounters.NoLeak` | contrail-collector/structured_syslog_server.cc:511-577 | nothing leaks while volume updates are processed |
| `SessionCounters.ExactTotal` | contrail-collector/structured_syslog_server.cc:511-577 | then the total at the close is exact, refused updates included |
| `SessionCounters.NexthopChangeCountsTwice` | contrail-collector/structured_syslog_server.cc:511-577 | without volume updates a next-hop change is counted by itself and again by the close |
| `SessionCounters.LimitHolds` | contrail-collector/structured_syslog_config.cc:49-73 | the table never exceeds its limit |
| `SessionCounters.DifferencesNeverNegative` | contrail-collector/structured_syslog_server.cc:511-577 | the two counters that staleness looks at never go backwards in what is emitted |
| `NetworkIndex.NetworkMap.AddNetwork` | contrail-collector/structured_syslog_config.cc:154-182 | the range enters the sorted vector behind those that begin no later |
| `NetworkIndex.NetworkMap.RefreshNetworksMap` | contrail-collector/structured_syslog_config.cc:184-203 | every vector loses exactly the ranges of the location |
| `NetworkIndex.NetworkMap.FindNetwork` | contrail-collector/structured_syslog_config.cc:205-258 | upper bound and backward scan return the location of the best range of the vector |
| `NetworkIndex.UpperBound` | contrail-collector/structured_syslog_config.cc:214-222 | binary search finds the first range that begins later |
| `NetworkIndex.EraseLocation` | contrail-collector/structured_syslog_config.cc:184-203 | noting positions and erasing from the back removes exactly the location |
| `NetworkIndex.PrefixNet` | contrail-collector/structured_syslog_config.cc:154-182 | a prefix mask makes an aligned block of a power of two |
| `NetworkIndex.SameBlock` | contrail-collector/structured_syslog_config.cc:154-182 | two such blocks of equal size with a common address are the same block |
| `NetworkIndex.IndexSorted` | contrail-collector/structured_syslog_config.cc:154-182 | any sequence of additions leaves a sorted vector |
| `NetworkIndex.BestMeans` | contrail-collector/structured_syslog_config.cc:205-258 | the best range is eligible, smallest, and last among equals; there is none if and only if no range is eligible |
| `NetworkIndex.IndexAgrees` | contrail-collector/structured_syslog_config.cc:205-258 | for all masks, the lookup equals a linear choice over the history: smaller, then later start, then later added |
| `NetworkIndex.LongestPrefix` | contrail-collector/structured_syslog_config.cc:205-258 | with prefix masks it is the most recently added longest-prefix network containing the address |
| `NetworkIndex.MostRecentIff` | contrail-collector/structured_syslog_config.cc:205-258 | for any masks, that network is found if and only if no eligible range of equal size begins later |
| `NetworkIndex.LaterBeginWins` | contrail-collector/structured_syslog_config.cc:205-258 | of two equal ranges the later start wins, whenever added |
| `NetworkIndex.OtherMasksDisagree` | contrail-collector/structured_syslog_config.cc:154-182 | a mask that is no prefix for which the most recent network is not found |
| `NetworkIndex.IndexWithout` | contrail-collector/structured_syslog_config.cc:184-203 | removing a location from the vector is removing it from the history |
| `NetworkIndex.VectorIsIndex` | contrail-collector/structured_syslog_config.cc:154-203 | over every history of additions and refreshes each vector is the index of the networks in force |
| `NetworkIndex.FindAgreesWithHistory` | contrail-collector/structured_syslog_config.cc:154-258 | over every history the vectors are sorted and the lookup agrees with the linear specification; for any masks and non-empty locations it is empty if and only if no network is eligible |
| `NetworkIndex.FoundIsRight` | contrail-collector/structured_syslog_config.cc:205-258 | a location returned is that of a network in force that holds the address, is not the asking site and does not span all addresses; one is returned whenever there is such a network |
| `RedisReconnect.StepKeepsInv` | contrail-collector/redis_connection.cc:77-248 | from a state of the invariant an assertion fails if and only if a posted setup runs on a connection that dropped; otherwise the invariant is kept |
| `RedisReconnect.SingleToken` | contrail-collector/redis_connection.cc:77-248 | over every run, each connection has exactly one of live context, armed timer and posted reconnect, the callback map has exactly the live contexts, and the only assertion that ever fails is that of a setup that comes too late |
| `RedisReconnect.NoSetupNoFailure` | contrail-collector/redis_connection.cc:197-201 | without posted setups no assertion fails, in particular not that RAC_Connect meets no context |
| `RedisReconnect.OneOwner` | contrail-collector/redis_connection.cc:197-248 | each live context belongs to exactly one connection, which is not waiting to reconnect |
| `RedisReconnect.RedisConnections.RacConnect` | contrail-collector/redis_connection.cc:197-248 | an attempt arms the timer or registers the new context with both callbacks |
| `RedisReconnect.RedisConnections.ConnectProcess` | contrail-collector/OpServerProxy.cc:277-314 | a posted reconnect runs with no context in place |
| `RedisReconnect.RedisConnections.Reconnect` | contrail-collector/redis_connection.cc:77-94 | a timer that fires reconnects with no context in place |
| `RedisReconnect.RedisConnections.ConnectCallback` | contrail-collector/redis_connection.cc:136-155 | the callback is found, is still set, and leads to its own connection |
| `RedisReconnect.RedisConnections.ConnectCallbackProcess` | contrail-collector/redis_connection.cc:96-122 | success connects; failure drops context and entry and arms the timer |
| `RedisReconnect.RedisConnections.DisconnectCallback` | contrail-collector/redis_connection.cc:157-195 | context and entry go together and one reconnect is posted |
| `RedisReconnect.RedisConnections.Command` | contrail-collector/redis_connection.cc:309-317 | a command goes out if and only if the connection has an open context, and goes to that context |
| `RedisReconnect.RedisConnections.SetClientAsyncCmdCb` | contrail-collector/redis_connection.cc:294-305 | its assertion passes if and only if the connection has a context |
| `RedisReconnect.RedisConnections.ReplyCallback` | contrail-collector/OpServerProxy.cc:188-212 | a reply to the first command posts the second half of the setup |
| `RedisReconnect.RedisConnections.PostedSetup` | contrail-collector/OpServerProxy.cc:165-172 | a posted setup passes its assertion if and only if the connection has not dropped since |
| `RedisReconnect.DropBeforePostedSetup` | contrail-collector/OpServerProxy.cc:234-264 | a run in which a connection comes up and drops before its setup runs, which then fails its assertion |
| `GeneratorSession.DeferTimeInSet` | contrail-collector/generator.cc:219-245 | from a defer time of the ladder the next one is on the ladder |
| `GeneratorSession.DeferTimeCases` | contrail-collector/generator.cc:219-245 | the first defer time is 300; then it doubles within twice, stays within four times, and is 300 again later |
| `GeneratorSession.DeferTimeFalls` | contrail-collector/generator.cc:226-245 | the longer back pressure stayed away, the shorter the defer time; it grows only within twice and shrinks only after four times the last one |
| `GeneratorSession.InvariantKeptIff` | contrail-collector/collector.cc:217-244 | every event keeps sessions, pointers, machines, timers and counts consistent, except, exactly, a control message that attaches a session to a second generator |
| `GeneratorSession.TwoGeneratorsBreakInv` | contrail-collector/collector.cc:217-244 | a run in which one session names two generators breaks the bookkeeping |
| `GeneratorSession.InvariantOverRuns` | contrail-collector/collector.cc:217-244 | over every run without such a message the invariant holds |
| `GeneratorSession.GeneratorOverRuns` | contrail-collector/generator.cc:139-184 | session, state machine and timer are all present or all absent; connects > resets if and only if attached; the defer time is on the ladder and changes at most once per expiry; dequeue is deferred if and only if the timer runs |
| `GeneratorSession.ClimbDoubles` | contrail-collector/generator.cc:230-238 | under prompt back pressure the defer time doubles each time, up to the maximum |
| `GeneratorSession.RungMax` | contrail-collector/generator.cc:230-238 | the maximum is reached at the seventh doubling and kept |
| `GeneratorSession.Collector.ReceiveSandeshCtrlMsg` | contrail-collector/collector.cc:217-244 | the session is attached to a new or free generator and refused, without any change, by an attached one; the bookkeeping is kept if and only if the session was not attached to another |
| `GeneratorSession.Collector.DisconnectSession` | contrail-collector/generator.cc:139-166 | the generator is detached, its timer gone, one more reset counted; the branch for another session is not taken |
| `GeneratorSession.Collector.ProcessRulesCb` | contrail-collector/generator.cc:247-265 | back pressure defers and starts the timer, unless it runs already |
| `GeneratorSession.Collector.StateMachineDeferTimerExpired` | contrail-collector/generator.cc:168-175 | the expiry is noted and the dequeue resumes |
| `GeneratorSession.Collector.GeneratorSummary` | contrail-collector/collector.cc:371-379 | exactly the generators with a session are listed |
| `PartitionRouting.PartitionRange` | contrail-collector/viz_collector.h:98-140 | for any positive count the range of a type is non-empty and within the partitions |
| `PartitionRouting.RangesPartition` | contrail-collector/viz_collector.h:98-140 | from 15 partitions on, each partition is in the range of exactly one type |
| `PartitionRouting.RangesInOrder` | contrail-collector/viz_collector.h:98-140 | the ranges follow each other in the order of the types, with the sizes of the source |
| `PartitionRouting.KnownHashes` | contrail-collector/OpServerProxy.cc:53-58 | known values of the hash, one of them of a byte above 127 |
| `PartitionRouting.PartitionOfHash` | contrail-collector/OpServerProxy.cc:529-540 | of the partitions of its type, a key has the one that its hash selects |
| `PartitionRouting.DjbHash` | contrail-collector/OpServerProxy.cc:53-58 | the 32-bit loop computes a polynomial in 33 modulo 2^32, signed bytes included |
| `PartitionRouting.Partition` | contrail-collector/OpServerProxy.cc:529-540 | the partition is in range, and in the range of the type |
| `PartitionRouting.SplitStoredKey` | contrail-collector/OpServerProxy.cc:684-696 | the first piece, and the others joined again |
| `PartitionRouting.JoinSplit` | contrail-collector/OpServerProxy.cc:684-696 | joining the pieces of a key gives the key |
| `PartitionRouting.RejoinIff` | contrail-collector/OpServerProxy.cc:684-696 | table and bare key come back if and only if the table has no colon |
| `PartitionRouting.DeleteFindsPartition` | contrail-collector/OpServerProxy.cc:684-700 | the marker for a deleted UVE goes to the partition it was published on |
| `FieldCache.Cache.CanRecordDataForT2` | contrail-collector/db_handler.cc:860-877 | a call is accepted if and only if no earlier call had a later window or the same window and entry; the set holds exactly the entries of the newest window |
| `FieldCache.AcceptedOnce` | contrail-collector/db_handler.cc:860-877 | each window and entry is accepted at most once ever |
| `FieldCache.FirstAccepted` | contrail-collector/db_handler.cc:860-877 | its first arrival is accepted if and only if no later window was seen |

## Left out

- FrequencyIsCount: takes the stamps of an alarm to be in order, as those of its raises are.
- SoakMachine: clock readings are positive integers that do not go back, and timers are naturals; the wall clock of the source promises neither.
- AlarmTable: the nested dictionaries of tab_alarms are one map by full key and a set of the UVEs that have an entry; alarm contents, acknowledgement, statistics and the published messages are not modelled.
- NotifHandler: ptab_info is one map by full UVE key for one partition, and struct contents are their JSON texts.
- AggRedis: Redis is a map of non-empty hashes, a set of keys and an acquisition time; its failures and reconnection are not modelled.
- ConfigHandler: the list of UVE keys of a configuration is a set, names of user alarms are not those of inbuilt ones, and configuration other than alarms is not modelled.
- RuleEvaluation: Python's equality and ordering of JSON values are parameters; the test of the project of an alarm is an input; a `range` whose bounds are a string is taken to raise.
- RouteLeadsToValue: an attribute path with `__key` or `__value` before its end, or with the reserved name of list elements, is not covered, because reading a route stops at those words; nor is a value below two lists, on which the evaluation raises.
- TcpSession.Process: the syslog grammar and the handling of a parsed message are a function from a slice to the length it reports; bytes are characters, and the truncations to `int` of the source, which need messages of 2 GB, are not modelled. A read of nothing but NULs makes the source read before its buffer, and is excluded.
- ChunkingInvariance: assumes of the parser only that, on a frame, it fails or reports the length in the frame's prefix.
- NothingLost: whether a batch succeeds is part of the run here, and follows from its fetches in `UveConvergence`; a batch whose partition is given up while it is processed is dropped by the source, and runs end there.
- UveConvergence: the server's contents change by events that announce what changed, which is what the Kafka messages do; a partition that is acquired starts with everything announced.
- The UDP path of ProcessStructuredSyslog, which has no framing guarantee.
- ParseStructuredPart: the reading of numbers is a parameter.
- SessionTable: counters are unbounded integers, so that overflow of a difference is not modelled; assembly of the session key, link and tenant metrics and SLA metrics are not modelled.
- NetworkMap: addresses are numbers; parsing of their text is not modelled.
- RedisConnections: what hiredis and asio promise (fresh contexts, one connect callback, at most one disconnect callback, a cancelled timer does nothing) are the allowed events; several connections are one object with a map, and their destruction is not modelled.
- Collector: the state machine is known only by its session; the watermark logic, statistics and the sequence numbers of the reply are not modelled.
- Partition: an alarm update always goes to partition 0 and is not modelled.
- Cache.CanRecordDataForT2: takes the window of the time stamp; the table insertion behind it is not modelled.
- Kafka, Cassandra, Zookeeper and sockets, of which only the events they deliver are modelled.
- Options, introspection, tracing, e-mail and statistics, which only read the modelled state or report it.
