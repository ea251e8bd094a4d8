# Verified core of an LLM gateway

A Dafny model of the parts of the gateway whose correctness depends on state, concurrency or
arithmetic, with proofs about every input, every run or every reachable state. `dafny verify
dfyconfig.toml` checks all of it.

| modules | what they model |
|---|---|
| `RateLimitModel`, `RateLimitRuns`, `RateLimitBounds`, `RateLimiter` | the in-memory sliding-window limiter: linked queues, LRU list, eviction, reservations |
| `WorkerPool`, `HealthChecks` | the goroutines that test channels: feeder, workers, closer, reducer, cancellation; and the health check they run |
| `ObservationTiming`, `ObservationLimiter`, `ObservationRequests`, `ResponsesMachine`, `ResponsesClient`, `ObservationBridge` | observing a plugin task for a client: durations, admission of concurrent requests, the events of a response and the client that assembles it from them, the streaming and the waiting loop |
| `ModelNames`, `UpstreamUpdate`, `UpstreamRules` | reconciling a channel's models with those the upstream offers |
| `KeyText`, `MultiKey`, `MultiKeyEdits`, `MultiKeyOverlap` | a channel with several keys in one text and three index maps that must follow deletions, and two requests on it at once |
| `Invitations`, `InvitationRuns`, `InvitationRights` | organization invitations under concurrent transactions, on two levels of isolation, and who may do what |
| `BodyModel`, `BodyReading`, `BodyStorage`, `BodyAccounting` | request bodies in memory or on disk, and the memory counters |
| `QuotaMath` | saturating quota conversions and the rounded settlement of a channel test |
| `OpusScanner` | the duration of an Opus file from its Ogg pages (section 6 of RFC 3533, section 4 of RFC 7845) |
| `Text`, `Separated`, `Int64`, `Options` | Go's space trimming, lists joined by a separator, 64-bit wrap-around |

Where the code updates things in place the model is a class or a method with loops, proved
against functions on values. The laws are then proved about those functions, in terms that do
not name them: what a run returns is summed move by move, a stream is what a client assembles
from it, a right is a row of the membership table, a position is what is read from there on.

## Promises that hold only on a condition

Some promises turned out to be false in general. Each has a lemma that gives the condition
under which the code keeps it, in both directions, and an input that breaks it.

- Eviction is invisible to clients of the rate limiter exactly when no window is longer than
  the eviction period (`RateLimitRuns.EvictionUnobservableExactly`, `RateLimitRuns.LongWindowIsVisible`).
  `common/constants.go:253-254` asks for this in a comment; nothing enforces it.
- A tick waits between the interval and the interval plus the jitter exactly when their sum
  fits into 64 bits, a slow one between two intervals and two intervals plus the jitter exactly
  when that sum does (`ObservationTiming.TickDelayBounds`, `ObservationTiming.SlowDelayBounds`). The bound on the
  number of ticks is stated for the configurations that meet this; the other results about the
  two loops are stated for all.
- Check, apply everything, check again finds nothing exactly when no added name contains a
  comma and adding models deletes no rule that was the last to hide another model
  (`UpstreamUpdate.CycleConvergesExactly`, with `UpstreamUpdate.CommaExample` and
  `UpstreamUpdate.RuleExample`).
- A model that is ignored is never staged again exactly when its name does not begin with the
  prefix of expressions or the channel has it (`UpstreamRules.IgnoredStaysAwayExactly`, with
  `UpstreamRules.ComesBackExample`): as a rule such a name is an expression, and need not match
  itself.
- Deleting keys moves the rest to their new indices exactly when the remaining keys survive
  being written as lines: at least one is left, none has a line break, the first and the last
  are not empty, and the text does not read as a JSON array (`MultiKey.DeleteKeyExactly`,
  `MultiKey.DeleteDisabledExactly`, with `MultiKey.BlankKeyExample`). When all keys are
  automatically disabled, none is deleted and all are enabled again
  (`MultiKey.DeletingAllRevivesAll`). Other actions keep a channel consistent exactly when its
  key text is no empty array (`MultiKey.EditExactly`, with `MultiKey.EmptyArrayExample`).
- An action on a channel with several keys reads it before it takes the lock. It gives the
  result that it gives in sequence exactly when the rows differ in nothing but what it overwrites
  (`MultiKeyOverlap.StaleEditExactly`, `MultiKeyOverlap.StaleDeleteExactly`). Otherwise all that
  was done since the read is lost (`MultiKeyOverlap.LastWriterWins`); an edit that overlaps a
  deletion brings the deleted keys back (`MultiKeyOverlap.EditUndoesDeletion`).
- An acceptance is decided by the rows at its lock on a database whose reads see committed
  rows. Where reads repeat the first snapshot, as on MySQL unless configured otherwise
  (`model/main.go:165-178` sets no level), it is so exactly when the checks come out the same on
  the snapshot (`Invitations.SnapshotAgreesExactly`); otherwise somebody who was dismissed can
  still bring in a member (`InvitationRuns.DismissedInviter`) and an organization can lose its
  owner (`InvitationRuns.OwnerLost`). The other laws hold on both levels.
- A body is stored whole within its limit and refused beyond it for every limit but the largest
  64-bit integer, for which any body is stored as an empty one (`BodyStorage.AdmissionExactly`).
  The one caller computes the limit from a number of megabytes (common/gin.go:71-80), which is
  never that integer (`BodyStorage.MegabyteLimit`).
- The two backends of a body answer alike exactly on the operations `BodyModel.Ordinary`
  describes (`BodyModel.BackendsAgreeExactly`). Four others tell them apart: an empty read at the
  end, a read of more than a file delivers at once, a seek past its largest position, and a new
  reader after an administrator's cleanup has removed the file (`BodyModel.BackendsDiffer`).
  Without new readers a cleanup goes unnoticed (`BodyModel.CleanupIsHidden`).

## Model

| member | source | states |
|---|---|---|
| `RateLimitModel.TrimIsYoung` | common/rate-limit.go:36-53 | on an ordered queue, dropping the expired prefix (or clearing when even the newest expired) is filtering by age, and what is dropped is a prefix |
| `RateLimitModel.EvictOldest` | common/rate-limit.go:107-131 | deleting an idle oldest key keeps the limiter well formed and leads to the same final eviction |
| `RateLimitModel.StopAtActive` | common/rate-limit.go:107-131 | if the oldest key is active, no key is idle: stopping there evicts exactly the idle keys |
| `RateLimitModel.TouchWellFormed` | common/rate-limit.go:135-149 | touching a key keeps store and LRU in bijection and the LRU ordered by activity |
| `RateLimitRuns.StepRelated` | common/rate-limit.go:107-217 | every operation answers like the limiter that keeps the whole history, and keeps the relation to it |
| `RateLimitRuns.EvictionUnobservable` | common/rate-limit.go:107-217 | over every run with evictions at arbitrary ticks, every answer is that of the limiter that forgets nothing |
| `RateLimitRuns.LongWindowIsVisible` | common/constants.go:253-254 | a window longer than the eviction period lets a second request in that the full history would reject |
| `RateLimitRuns.EvictionUnobservableExactly` | common/constants.go:253-288 | eviction is invisible to all runs if and only if no window is longer than the eviction period |
| `RateLimitBounds.ReservationsStayWithinLimit` | common/rate-limit.go:171-217 | in every reachable state queued timestamps plus reservations in flight stay within the limit, even across eviction; the counter is the number of uncompleted reservations and absent at zero |
| `RateLimitBounds.NoWindowExceedsLimit` | common/rate-limit.go:152-217 | on every run no window of the key's duration holds more committed timestamps than the limit |
| `RateLimiter.RequestQueue.Append` | common/rate-limit.go:23-34 | the acyclic chain with length and tail gains the timestamp at its end |
| `RateLimiter.RequestQueue.RemoveExpired` | common/rate-limit.go:36-53 | the chain becomes its trimmed stamps; no nil is followed |
| `RateLimiter.RequestQueue.Clear` | common/rate-limit.go:56-61 | the chain becomes empty |
| `RateLimiter.InMemoryRateLimiter.constructor` | common/rate-limit.go:82-98 | the empty limiter with the given eviction period, all structure in place |
| `RateLimiter.InMemoryRateLimiter.TouchEntry` | common/rate-limit.go:135-149 | store, LRU and back links stay in bijection; the view is the touched one |
| `RateLimiter.InMemoryRateLimiter.Request` | common/rate-limit.go:152-169 | the whole linked structure refines the value-level request, answer included |
| `RateLimiter.InMemoryRateLimiter.Reserve` | common/rate-limit.go:181-196 | refines the value-level reservation; null exactly when it is refused |
| `RateLimiter.InMemoryRateLimiter.DeleteExpiredEntries` | common/rate-limit.go:107-131 | the loop that stops at the first active key removes exactly the idle keys |
| `RateLimiter.RateLimitReservation.Complete` | common/rate-limit.go:200-217 | the first call completes the reservation, further calls change nothing; what it adds to the limiter is new |
| `WorkerPool.NextInvariant` | controller/channel-test.go:981-1069 | every move of every goroutine keeps exclusiveness, conservation and order |
| `WorkerPool.PoolIsSafe` | controller/channel-test.go:981-1069 | in every reachable state no job is with two workers, none has run twice, once the results are closed every worker has left so that none sends on a closed channel, and a state that is not final has a move |
| `WorkerPool.NeverStuck` | controller/channel-test.go:1003-1067 | the pool never deadlocks, cancelled or not |
| `WorkerPool.EveryRunEnds` | controller/channel-test.go:1003-1067 | every run has at most six moves per channel, one per worker and four more |
| `WorkerPool.PoolOutcome` | controller/channel-test.go:981-1069 | every counter of the returned summary is the sum of what the tests of the run returned; without cancellation every channel is processed, exactly the testable ones run, and progress is reported once per step |
| `WorkerPool.WorkersExactly` | controller/channel-test.go:999 | the pool has the most workers that concurrency, maximum and number of channels allow; a concurrency below one counts as one |
| `WorkerPool.ConcurrencyIsBounded` | controller/channel-test.go:981-1069 | in no reachable state are more tests running than that |
| `WorkerPool.CancelStops` | controller/channel-test.go:1008-1020 | once the pool is cancelled no test is started and no progress reported |
| `WorkerPool.PausesBetweenJobs` | controller/channel-test.go:1027-1033 | with a request interval a worker gets at most one job more than it comes back from pauses; without one nobody pauses |
| `HealthChecks.HealthCheckExactly` | controller/channel-test.go:932-976 | exactly when a test succeeds, when it disables an enabled channel and when it enables a disabled one |
| `HealthChecks.RefusedExactly` | service/channel.go:53-73 | which errors count against a channel |
| `HealthChecks.CheckIsHealthy` | controller/channel-test.go:932-976 | a finished test counts as one success or one failure, disables only failures and enables only successes |
| `HealthChecks.FasterIsNoWorse` | controller/channel-test.go:951-957 | a faster answer never fails or disables a channel that a slower one did not, and never leaves one disabled that a slower one enables |
| `HealthChecks.HealthSummary` | controller/channel-test.go:932-1069 | every counter of a cycle is the number of channels whose test counts there; tested is succeeded plus failed, disabled at most failed, enabled at most succeeded; a cycle that is not cancelled tests every testable channel once |
| `ObservationLimiter.RollBack` | controller/plugin_protocol_limiter.go:93-143 | undoing a count restores the map, absent entries included |
| `ObservationLimiter.Limiter.constructor` | controller/plugin_protocol_limiter.go:68-75 | no lease is outstanding and every counter is at zero |
| `ObservationLimiter.Limiter.Acquire` | controller/plugin_protocol_limiter.go:77-169 | admits exactly an identified caller with room in all four scopes; a refusal names the first full scope and changes nothing; counters always equal the leases charged |
| `ObservationLimiter.Limiter.Take` | controller/plugin_protocol_limiter.go:91-143 | counts all four scopes or, when one is full, leaves every counter as it was |
| `ObservationLimiter.Lease.Release` | controller/plugin_protocol_limiter.go:145-169 | gives the lease back once, however often it is called |
| `ObservationLimiter.Limiter.IdleIsInitial` | controller/plugin_protocol_limiter.go:77-169 | when every lease is released no counter and no map entry is left |
| `ObservationRequests.CountersMatchLeases` | controller/plugin_protocol_limiter.go:77-169 | in every state of every interleaving of requests all four limits hold, every counter is the number of leases in flight and none is kept at zero |
| `ObservationRequests.AdmittedExactly` | controller/plugin_protocol_limiter.go:77-143 | in every interleaving a request gets a lease exactly by asking for it, saying who it is, and when the leases in flight leave room in all four scopes |
| `ObservationRequests.RemovedOnce` | controller/plugin_protocol.go:222-386 | in every run a request takes at most one lease, and the counters go down for it exactly once when it was admitted and has left, from wherever it returns and however often release is called |
| `ObservationRequests.DrainedIsIdle` | controller/plugin_protocol_limiter.go:145-169 | when no request holds a lease any more, no counter and no map entry is left |
| `ObservationTiming.CompletedDurations` | controller/plugin_protocol.go:91-148 | from any configuration the completed durations are positive, a load fits into half a heartbeat, and completing twice changes nothing |
| `ObservationTiming.GivenDurations` | controller/plugin_protocol.go:90-148 | a duration that is given is used, but for a load that would outlast half a heartbeat |
| `ObservationTiming.DurationsFromSettings` | controller/plugin_protocol.go:50-88 | a duration that is not given comes from the settings, in its unit, unless that is no positive 64-bit duration |
| `ObservationTiming.TickDelayBounds` | controller/plugin_protocol.go:1190-1199 | the delay lies between interval and interval plus jitter for every hash if and only if the sum fits into 64 bits |
| `ObservationTiming.SlowDelayBounds` | controller/plugin_protocol.go:604-628 | a slow wait lasts between two intervals and two intervals plus jitter for every hash if and only if that sum fits into 64 bits |
| `ObservationTiming.DelayBounds` | controller/plugin_protocol.go:604-628 | every wait, regular or slow, lasts between one interval and two intervals plus jitter for every hash if and only if two intervals and the jitter fit into 64 bits |
| `ResponsesMachine.PluginResponsesMachine.CreatedEvent` | relay/plugin_protocol.go:429-441 | the created event comes first, once, and never after the end |
| `ResponsesMachine.PluginResponsesMachine.Conclude` | relay/plugin_protocol.go:536-560 | a started, unfinished machine ends with exactly one terminal event, which carries all outputs; otherwise nothing changes |
| `ResponsesMachine.PluginResponsesMachine.AppendOutput` | relay/plugin_protocol.go:856-922 | one output adds its numbered events and its bytes, and a client that has the items before it has it after them |
| `ResponsesMachine.PluginResponsesMachine.Validate` | relay/plugin_protocol.go:455-490 | the counting loop finds exactly the outputs and bytes of a tick, or that an event is malformed |
| `ResponsesMachine.PluginResponsesMachine.ApplyTick` | relay/plugin_protocol.go:443-534 | a tick is rejected without a trace or accepted with gapless numbers, the right outputs, and a terminal event last exactly when the verdict calls for one; a client that has assembled the outputs so far assembles exactly those of the tick, and progress is shown as long as there is no output |
| `ResponsesMachine.OneFitsExactly` | relay/plugin_protocol.go:455-490 | which single events a tick may consist of after given outputs; all limits are inclusive |
| `ResponsesClient.ItemsAreAnnounced` | relay/plugin_protocol.go:856-922 | every item that a client has assembled stands on the wire as six events in protocol order with its index and text |
| `ResponsesClient.ReadPart` | relay/plugin_protocol.go:856-922 | a client that is cut off has assembled the first of the items and is not confused |
| `ObservationBridge.Stream` | controller/plugin_protocol.go:388-654 | for every environment and configuration: created, then other events and heartbeats, then at most one terminal event, then nothing; the last event is the one that the last tick calls for, after what all ticks before it have put out; a client that is not lost has assembled exactly the outputs of all ticks, each announced by its six events; hooks are called with the state of the last applied tick; waits have their length, and in a sane configuration ticks are bounded by timeout over interval plus one |
| `ObservationBridge.Write` | controller/plugin_protocol.go:591-600 | the events of a tick are written in order until a write fails, and the client has read exactly those |
| `ObservationBridge.Observe` | controller/plugin_protocol.go:429-603 | one tick of the stream goes on, adding what it rendered to the outputs, or ends it; unless the client is lost, a rendered tick ends it as failed exactly when the task failed, an error was rendered or the tick does not fit the limits after the outputs so far; only overload and a slow hook make the next wait a long one |
| `ObservationBridge.AwaitTick` | controller/plugin_protocol.go:604-654 | the wait sends heartbeats only and ends in a tick, a timeout event or a lost client |
| `ObservationBridge.Wait` | controller/plugin_protocol.go:656-847 | the waiting client gets exactly the answer the last tick calls for, at most one: the final one exactly for a success whose payload passes, and the failure for a failed task; waits have their length and ticks are bounded |
| `ObservationBridge.ExpectedExactly` | controller/plugin_protocol.go:680-815 | exactly when a tick of the waiting loop gives the final answer, the failure, a timeout or nothing, and when it goes on |
| `ObservationBridge.Poll` | controller/plugin_protocol.go:680-815 | one tick of the waiting loop gives the expected answer or goes on |
| `ObservationBridge.Handle` | controller/plugin_protocol.go:239-386 | every way through an admitted request gives the response it calls for, the stream well formed and the answer at most one |
| `ObservationBridge.Serve` | controller/plugin_protocol.go:222-386 | a lone request is refused, or admitted with one lease that is removed once wherever it returns, and gets the response its outcome calls for |
| `ModelNames.NormalizeNames` | controller/channel_upstream_update.go:100-105 | normalizing gives the trimmed non-empty names, each once |
| `ModelNames.NormalizeInOrder` | controller/channel_upstream_update.go:100-105 | names are taken in order, trimmed and once: each goes behind the others unless it is blank or there |
| `ModelNames.NormalizeFixpoint` | controller/channel_upstream_update.go:100-105 | a normal list is left as it is |
| `ModelNames.MergeNames` | controller/channel_upstream_update.go:107-121 | merging is a normal list with exactly the names of both, the base first |
| `ModelNames.MergeModelNames` | controller/channel_upstream_update.go:107-121 | the loop with its seen set computes that list |
| `ModelNames.StoreAndLoad` | model/channel.go:301-306 | joining by commas and splitting again restores a list of names without commas |
| `Separated.StoreAndLoadExactly` | model/channel.go:193-207 | a list that is joined, trimmed at its ends and split comes back the same if and only if no element has the separator and the first and the last are not empty |
| `ModelNames.LoadedHasNoCommas` | model/channel.go:301-306 | nothing loaded contains a comma |
| `UpstreamUpdate.PendingNames` | controller/channel_upstream_update.go:179-238 | the staged additions and removals are exactly the missing unhidden and the vanished uncovered names, without repeats |
| `UpstreamRules.StagedExactly` | controller/channel_upstream_update.go:179-238 | a model is staged for addition exactly if it is offered, not there, no target of a redirect and hidden by no rule; for removal exactly if it is there, not offered and no source of a redirect |
| `UpstreamRules.RulesExactly` | controller/channel_upstream_update.go:1047-1050 | after a selection the rules are the old ones and the staged names chosen to be ignored, less those chosen to be added |
| `UpstreamRules.ModelsExactly` | controller/channel_upstream_update.go:1037-1045 | after a selection the channel has the staged names chosen to be added, and those it had that were not chosen to be removed |
| `UpstreamRules.StagedAfter` | controller/channel_upstream_update.go:1051-1055 | what stays staged is what was staged and not chosen |
| `UpstreamRules.IgnoredStaysAwayExactly` | controller/channel_upstream_update.go:204-226 | a model that is ignored is staged by no later check, whatever is offered, if and only if its name does not begin like an expression or the channel has it |
| `UpstreamRules.ComesBackExample` | controller/channel_upstream_update.go:204-226 | the model regex:a is staged, ignored, offered again and staged again |
| `UpstreamUpdate.SelectionSplitsPending` | controller/channel_upstream_update.go:1019-1067 | every staged addition is added, ignored or remains, what remains is neither of the others, and an added model is left in no literal ignore entry |
| `UpstreamUpdate.SurvivorsKeepOrder` | controller/channel_upstream_update.go:145-150 | the new list has no repeats, keeps the survivors in order and equals the origin and the added without the removed |
| `UpstreamUpdate.ChangeIsReal` | controller/channel_upstream_update.go:1040-1045 | the sequence comparison reports a change if and only if the set of models changes |
| `UpstreamUpdate.CommaNeverSettles` | controller/channel_upstream_update.go:1019-1067 | a model with a comma in its name is found missing again after it was added |
| `UpstreamUpdate.CycleConvergesExactly` | controller/channel_upstream_update.go:179-238 | check, apply all, check again finds nothing if and only if no added name has a comma and every rule still needed survives |
| `UpstreamUpdate.CommaExample` | controller/channel_upstream_update.go:1019-1067 | the upstream model "a,b" never settles |
| `UpstreamUpdate.RuleExample` | controller/channel_upstream_update.go:1047-1050 | an upstream model named like the rule that hides another one deletes the rule when it is added |
| `UpstreamUpdate.OrdinaryNamesConverge` | controller/channel_upstream_update.go:179-238 | the cycle converges whenever no upstream name has a comma or the prefix of a rule |
| `UpstreamUpdate.AdoptionConvergesExactly` | controller/channel_upstream_update.go:504-551 | automatic adoption leaves nothing to add if and only if no adopted name has a comma |
| `UpstreamUpdate.UpstreamChannel.CheckAndPersist` | controller/channel_upstream_update.go:504-551 | the stored channel becomes the detected or adopted one; skipped and failed checks change only what they may |
| `UpstreamUpdate.UpstreamChannel.ApplyUpdates` | controller/channel_upstream_update.go:1019-1067 | the stored channel becomes the applied one, and the reported lists are those of the selection |
| `MultiKey.KeptIndices` | controller/channel.go:1892-1970 | the kept indices are exactly those not dropped, in increasing order |
| `KeyText.CountsAgreeExactly` | model/channel.go:566-583 | saving counts the keys that are read if and only if the text is no empty array |
| `KeyText.KeysRoundTripExactly` | model/channel.go:186-208 | keys written as lines are read back if and only if none has a line break, the first and last are not empty and the text is no array |
| `MultiKey.DeleteKeyExactly` | controller/channel.go:1892-1970 | every other key moves to its new index with its effective status, time and reason, and the row stays consistent, if and only if the remaining keys survive being written as lines |
| `MultiKey.DeleteDisabledExactly` | controller/channel.go:1972-2039 | the same for the keys that are not automatically disabled; the condition includes that one remains |
| `MultiKey.DeletingAllRevivesAll` | controller/channel.go:1972-2039 | when all keys are automatically disabled none is deleted and all are enabled |
| `MultiKey.BlankKeyExample` | controller/channel.go:1892-1970 | with a blank middle key, deleting the first key loses one more, enables a disabled key and leaves a time out of range |
| `MultiKey.EmptyArrayExample` | model/channel.go:566-583 | saving a channel whose text is an empty array counts one key where there is none |
| `MultiKey.EditExactly` | controller/channel.go:1736-1890 | an action that deletes nothing keeps the text, and keeps the row consistent if and only if the text is no empty array |
| `MultiKey.ActConsistent` | controller/channel.go:1736-2039 | every action that meets the condition above keeps the size equal to the key count and all indices in range |
| `MultiKey.RunKeepsKeysInOrder` | controller/channel.go:1736-2039 | after any sequence of such actions the row is consistent and its keys are original ones in original order |
| `MultiKey.OrdinaryRunIsSafe` | controller/channel.go:1736-2039 | with keys that are not blank, have no line break and do not start like an array, every sequence of actions meets the condition |
| `MultiKeyEdits.AcceptedExactly` | controller/channel.go:1736-2039 | which actions are carried out: not for a key that there is not, not on the last key, and not when there is nothing to disable or to delete; a refused one changes nothing |
| `MultiKeyEdits.DisableKeyExactly` | controller/channel.go:1736-1777 | the key becomes manually disabled; nothing else changes for any key |
| `MultiKeyEdits.EnableKeyExactly` | controller/channel.go:1779-1819 | the key is enabled and has neither time nor reason; nothing changes for any other |
| `MultiKeyEdits.DisableAllExactly` | controller/channel.go:1845-1890 | enabled keys become manually disabled and the others keep their status; times and reasons stay |
| `MultiKeyEdits.EnableAllExactly` | controller/channel.go:1821-1843 | on every row, every key is enabled and nothing is recorded of any |
| `MultiKeyEdits.EnableUndoesDisable` | controller/channel.go:1736-1819 | disabling and enabling a key of which nothing is recorded restores the row |
| `MultiKeyEdits.StatusesFit` | model/channel.go:583-592 | after any action that is carried out, on any row, no status is beyond the last key counted |
| `MultiKeyOverlap.LastWriterWins` | controller/channel.go:1585-1619 | an action that read an older row replaces the stored one by what it makes of the older, unless no text is left |
| `MultiKeyOverlap.StaleEditExactly` | controller/channel.go:1585-1890 | an edit of an older row gives the row that it gives in sequence if and only if the two rows differ in nothing but what it overwrites |
| `MultiKeyOverlap.StaleDeleteExactly` | controller/channel.go:1585-1970 | the same for the deletion of a key: if and only if the rows agree in every other key, its effective status, time and reason |
| `MultiKeyOverlap.EditUndoesDeletion` | controller/channel.go:1585-2039 | every edit that overlaps a deletion brings the deleted keys back; in sequence they stay deleted |
| `MultiKey.MultiKeyChannel.Update` | model/channel.go:554-592 | saving an empty key text keeps the stored one; the size is the number of keys parsed from the text, and statuses beyond it are dropped |
| `MultiKey.Rebuild` | controller/channel.go:1911-1946 | the rebuilding loop computes the kept keys and their entries at the new indices |
| `MultiKey.DisableListed` | controller/channel.go:1857-1869 | the loop disables exactly the enabled keys and counts them |
| `MultiKey.MultiKeyChannel.DisableKey` | controller/channel.go:1736-1777 | the addressed key becomes manually disabled, or nothing changes |
| `MultiKey.MultiKeyChannel.EnableKey` | controller/channel.go:1779-1819 | the addressed key loses its status, time and reason |
| `MultiKey.MultiKeyChannel.EnableAllKeys` | controller/channel.go:1821-1843 | no key has a status left |
| `MultiKey.MultiKeyChannel.DisableAllKeys` | controller/channel.go:1845-1890 | the enabled keys are disabled and counted, and nothing is saved when there are none |
| `MultiKey.MultiKeyChannel.DeleteKey` | controller/channel.go:1892-1970 | the rebuilt maps and the joined text are saved and parsed again; the last key is not deleted |
| `MultiKey.MultiKeyChannel.DeleteDisabledKeys` | controller/channel.go:1972-2039 | the same without the automatically disabled keys, which are counted |
| `Invitations.ReachableStates` | controller/organization.go:313-509 | in every reachable state nobody but the user an organization names is its owner, and with committed reads that user is its one active owner; no invitation is for an owner, and an address has at most one live invitation to an organization |
| `Invitations.AcceptanceExactly` | controller/organization.go:406-463 | with committed reads, although the first one may be stale, an acceptance goes through exactly when the invitation as it stands is live, its sender may still send it and the user is not active; it then activates that one membership with the invited role, and otherwise changes nothing |
| `InvitationRights.FoundingExactly` | controller/organization.go:84-128 | who founds an organization is its active owner |
| `InvitationRights.InvitationExactly` | controller/organization.go:313-383 | the owner invites admins and members and an admin members, an address only without a live invitation and nobody who is active; the row stands for seven days; otherwise nothing changes |
| `InvitationRights.RevocationExactly` | controller/organization.go:465-509 | a pending invitation of the organization is revoked by its owner, or by an admin if it is for a member; otherwise nothing changes |
| `InvitationRights.ChangeExactly` | model/organization_members.go:12-49 | the owner changes the role of an admin or a member, an admin leaves a member a member; nobody becomes an owner and no owner is changed |
| `InvitationRights.DismissalExactly` | model/organization_token.go:100-131 | the owner dismisses admins and members, an admin members, and everybody but the owner may leave; the row stays with its role |
| `InvitationRights.TransferExactly` | model/organization.go:245-270 | only the user the row names hands the organization over, to another active member, and stays as an admin |
| `InvitationRights.ReadingExactly` | controller/organization.go:406-423 | the first read of an acceptance finds an invitation exactly if it was sent to the address and can still be accepted |
| `InvitationRights.OnlyAddresseesJoin` | controller/organization.go:406-463 | on every run and both levels whoever becomes active has founded the organization or has begun an acceptance for the address the invitation was sent to |
| `Invitations.SnapshotAgreesExactly` | controller/organization.go:418-457 | with repeated reads the result is the same if and only if the invitation is not live or the checks come out the same on the snapshot and on the rows |
| `Invitations.UnchangedRowsAgree` | controller/organization.go:425-447 | it is the same while the rows of the sender and of the user are as they were |
| `Invitations.SnapshotKeepsOwnerExactly` | controller/organization.go:433-447 | with repeated reads an acceptance leaves every organization its owner if and only if it does not go through for the user who is the owner by then |
| `Invitations.DemotedOwner` | controller/organization.go:441-447 | a transfer to a user whose acceptance began while they were inactive leaves nobody the owner once that acceptance finishes |
| `InvitationRuns.DismissedInviter` | controller/organization.go:425-431 | in one run the inviter is dismissed between the two halves of an acceptance, which then succeeds exactly with repeated reads |
| `InvitationRuns.OwnerLost` | controller/organization.go:441-447 | a run with repeated reads leaves an organization without an owner |
| `Invitations.ActivatedByInvitation` | controller/organization.go:406-463 | on both levels a user becomes active only by founding the organization or by an acceptance that uses up an invitation with that role |
| `Invitations.LeavesPendingOnce` | controller/organization.go:406-509 | in every run on both levels an invitation leaves pending at most once, never returns to it and keeps its terms |
| `Invitations.OneActivationPerInvitation` | controller/organization.go:406-463 | over every run with committed reads the accepted invitations and the memberships that acceptances activated are equally many; with repeated reads there are no more of the latter |
| `Invitations.Database.AcceptInvitation` | controller/organization.go:406-463 | with committed reads, writing the membership before the compare-and-set and rolling back gives the atomic acceptance |
| `Invitations.Database.RevokeInvitation` | controller/organization.go:465-509 | the row changes exactly when a manager may revoke a pending invitation |
| `Invitations.Database.InviteUser` | controller/organization.go:313-383 | the search for a live invitation finds one exactly when there is one; otherwise a pending row with a lifetime of a week is added |
| `Invitations.Database.TransferTo` | model/organization.go:245-270 | both memberships and the organization row change together |
| `BodyModel.PerformAgreesExactly` | common/body_storage.go:62-116 | memory and disk answer an operation alike if and only if it is ordinary, and then stay alike |
| `BodyModel.BackendsAgreeExactly` | common/body_storage.go:44-283 | over any sequence of operations, with cleanups at any moment, the replies of the backends agree if and only if all are ordinary |
| `BodyModel.CleanupIsHidden` | common/disk_cache.go:109-138 | two bodies that differ at most in whether the file has its name answer every sequence of operations without new readers alike |
| `BodyModel.BackendsDiffer` | common/body_storage.go:62-275 | an empty read at the end, a read of more than a file delivers at once, a seek past its largest position and a new reader after a cleanup tell the backends apart |
| `BodyModel.ContentIsKept` | common/body_storage.go:44-283 | content never changes; a closed body stays closed, keeps its cursor and refuses every operation but Close |
| `BodyModel.ReadsDeliverInOrder` | common/body_storage.go:62-69 | any series of reads delivers the content from the cursor on without gap, and all of it before an end of file |
| `BodyReading.ReadsReachEnd` | common/body_storage.go:62-69 | reads of any size but zero reach the end, after at most one per byte and one more |
| `BodyReading.SeekExactly` | common/body_storage.go:71-78 | a seek answers the position asked for, or fails exactly if there is none and changes nothing; what is read after it is the content from there on |
| `BodyReading.LastBytes` | common/body_storage.go:205-212 | seeking back from the end and reading delivers the last bytes |
| `BodyReading.BytesAreRead` | common/body_storage.go:225-257 | all bytes at once are what is read after seeking to the start, and the cursor stays |
| `BodyReading.NewReaderExactly` | common/body_storage.go:98-108 | there are new readers exactly while the body is open and has its name, if it needs one; each delivers all bytes wherever the cursor is |
| `BodyStorage.File.ReadFull` | common/body_storage.go:240-250 | the loop of short reads fills the buffer exactly when enough is left |
| `BodyStorage.MemoryStorage.Read` | common/body_storage.go:62-69 | refines the abstract read |
| `BodyStorage.MemoryStorage.Seek` | common/body_storage.go:71-78 | refines the abstract seek, 64-bit overflow included |
| `BodyStorage.MemoryStorage.GetBytes` | common/body_storage.go:89-96 | returns the whole content and leaves the cursor |
| `BodyStorage.MemoryStorage.NewReader` | common/body_storage.go:98-108 | refines the abstract operation: an independent reader at zero over the same content, or none after close |
| `BodyStorage.MemoryStorage.Close` | common/body_storage.go:80-87 | closes; only the first call lowers the counters |
| `BodyStorage.DiskStorage.Read` | common/body_storage.go:196-203 | refines the abstract read of a file |
| `BodyStorage.DiskStorage.Seek` | common/body_storage.go:205-212 | refines the abstract seek of a file |
| `BodyStorage.DiskStorage.GetBytes` | common/body_storage.go:225-257 | returns the whole content and restores the position it moved |
| `BodyStorage.DiskStorage.NewReader` | common/body_storage.go:259-275 | refines the abstract operation: a second descriptor at zero on the same file, or none exactly when the storage is closed or the file has lost its name |
| `BodyStorage.DiskStorage.CleanUp` | common/disk_cache.go:109-138 | a cleanup removes the name of the file but not its content, and lowers the counters, never below zero, if it removed one |
| `BodyStorage.DiskStorage.Close` | common/body_storage.go:214-223 | unlinks the file but not its content; only the first call lowers the counters, never below zero |
| `BodyStorage.AdmissionExactly` | common/body_storage.go:323-332 | a stream is stored whole within the limit, refused beyond it and an error when it breaks off, if and only if the limit is not the largest 64-bit integer or the stream is empty |
| `BodyStorage.MegabyteLimit` | common/gin.go:71-80 | a limit that is a number of megabytes in 64 bits keeps that promise for every stream |
| `BodyStorage.UsesDiskExactly` | common/body_storage.go:286-304 | as long as nothing overflows, a body goes to disk exactly if the cache is on, it has the threshold and the disk stays within its maximum |
| `BodyStorage.CreateBodyStorage` | common/body_storage.go:286-304 | the storage holds the data at cursor zero whichever backend is chosen; disk exactly when enabled, large enough, available and working |
| `BodyStorage.CreateBodyStorageFromReader` | common/body_storage.go:307-348 | what is stored or refused depends on the stream and the limit, not on the backend; a stream that breaks off is an error, and so is a disk that fails after the stream is used up |
| `BodyAccounting.CountersMatchOpenStorages` | common/disk_cache_config.go:124-134 | over every interleaving of the atomic operations of creations and closes, the counters have grown by the number and total size of the open storages whenever nothing is under way |
| `BodyAccounting.AllClosedRestores` | common/body_storage.go:52-87 | when all storages are closed the counters are back where they started |
| `BodyAccounting.CloseIsIdempotent` | common/body_storage.go:80-87 | a repeated call of Close changes nothing |
| `QuotaMath.FromFloatExactly` | common/quota_math.go:82-121 | a clamp is reported exactly for NaN and values out of range; otherwise the result is the integer part |
| `QuotaMath.RoundExactly` | common/quota_math.go:133-142 | a clamp is reported exactly when the rounded value is NaN or out of range; otherwise the result is the nearest integer, halves away from zero |
| `QuotaMath.StrictExactly` | common/quota_math.go:102-148 | strict conversion fails exactly when the checked one clamps |
| `QuotaMath.DecimalsExactly` | common/quota_math.go:152-175 | decimals convert to the nearest integer in range, through any float conversion that is exact up to 2^53 |
| `QuotaMath.SettleInRange` | controller/channel-test.go:552-563 | for all tokens and ratios, infinite ones included, the charge is in the 32-bit range, not negative, and zero exactly for a free model |
| `QuotaMath.SettleWithin` | controller/channel-test.go:552-563 | with exact products and without clamping the three-stage result is within max(1, ratio/2 + 1/2) of the exact value |
| `QuotaMath.ExactPrice` | controller/channel-test.go:553-556 | that value is the model ratio times the sum of the prompt tokens and the weighted completion tokens |
| `QuotaMath.SettleMonotone` | controller/channel-test.go:552-563 | more tokens never cost less, for any multiplication that keeps order, clamped or not |
| `OpusScanner.OpusDuration` | common/audio.go:198-256 | the loop ends on every byte string, whichever reads of a header come up short, and computes the duration its scan defines |
| `OpusScanner.ShortReads` | common/audio.go:209-219 | a short read never makes the duration longer, and without one it is exact |
| `OpusScanner.PageSize` | common/audio.go:244-247 | the loop adds up the segment table |
| `OpusScanner.BestOfVisited` | common/audio.go:209-251 | the running maximum is the largest granule position of the headers visited, or zero |
| `OpusScanner.MaxGranuleIsMax` | common/audio.go:231-234 | that value bounds every granule position visited and is one of them or zero |
| `OpusScanner.StreamDuration` | common/audio.go:198-256 | on any well-formed pages, with stretches between and after them that hold no capture pattern, exactly the page headers are visited and the duration is the largest of zero and their signed granule positions over 48000 |
| `OpusScanner.EncodeIsPage` | common/audio.go:221-247 | a page written field by field is a page with the granule position it was given |
| `OpusScanner.GranuleRoundTrip` | common/audio.go:231-231 | every signed 64-bit granule position is read back as it was written |

## Left out

Assumptions:

- Clocks: time does not go backwards within a run of the limiter, the invitations or a stream.
- Timers are ideal: a wait that would end after the observation deadline is ended by the deadline.
- The organization row lock serializes transactions; reads after it see committed rows or repeat the first read, and both are modelled. Rows of memberships are never deleted.
- Goroutines interleave at channel operations and, for the body counters, at single atomic operations; every test that a worker starts returns.
- ObservationBridge.Stream: requires that time passes in every tick when two intervals and the jitter do not fit into 64 bits, because the waits of such a configuration can be zero and the loop ends only by its deadline.
- ObservationBridge.Wait: the same, and a fresh machine, as its only caller gives it.
- ObservationBridge.Serve: one request at a time; `ObservationRequests` has the interleavings.
- RateLimitBounds.NoWindowExceedsLimit: one limit and one way of use per key, and windows that fit the eviction period; that the last is needed shows `RateLimitRuns.LongWindowIsVisible`.
- A JSON parser is any function whose arrays are at least as long as their elements with brackets and commas.
- QuotaMath.SettleWithin: exact multiplication, since the rounding of float products is not modelled; `QuotaMath.SettleMonotone` allows it.

Not modelled:

- Redis-backed rate limiting and the HTTP middleware around the limiters.
- The database itself: errors of its operations, lost connections, and audit rows.
- BodyStorage.CreateBodyStorageFromReader: does not model a body longer than the file system allows.
- Errors of the operating system on a file that has its name, and on one that is already open.
- The accuracy of the disk counters: they are floored at zero and other code changes them too.
- Callers that change the byte slice returned by a memory storage; seeks with platform-specific origins.
- Regular expressions are an arbitrary predicate; fetching, caching and notifying of upstream models.
- The text of protocol errors, the fields of response objects other than their outputs and the JSON limits of plugin values.
- Wallets, budgets, tokens and names of organizations; only membership, ownership and invitations.
- Tiered billing and price lookup; other audio formats.
