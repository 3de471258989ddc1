# MGPanel: verified model

A Dafny model of the state machines, queues and ordering rules of MGPanel, a
control panel that accounts agents' traffic, schedules resets, hands work to
remote agents and compiles routing rules; and proofs of what they guarantee.
`dafny verify dfyconfig.toml` checks everything.

Each part pairs objects that change state the way the Go code does with a
specification, and most parts add a step-by-step model of the same code in which
goroutines interleave, writes fail halfway and messages repeat.

| Files | Part |
|---|---|
| `TrafficCounter`, `TrafficLifecycle`, `TrafficSafety`, `TrafficRuns`, `TrafficPolicy`, `TrafficResets`, `TrafficService` | Raw counters to cycle totals, threshold latch, hiding and restoring servers, calendar and interval resets, paging. Each repository write is a step of its own; an operation may stop after any of them. |
| `LifecycleOperation`, `LifecycleDemotion` | Create, claim, reclaim after a timeout, report; a report is a read and a later write. |
| `RuleOrder` | Rule numbers, file names, sorting, first match; comma-separated match values. |
| `TaskQueueSystem`, `TaskQueueRuns`, `TaskQueue` | The bounded queue as a system of goroutines, exact statements about its runs, and the queue as one object. |
| `CacheStore`, `RateLimiter` | Expiring store with namespaces; fixed-window limiter on top. Every reading of the clock is separate. |
| `UserStats` | Accumulators, the job that persists them or merges them back, time buckets. |
| `MetricsBuffer` | Newest metrics per host between cache and database. |
| `Notifications` | Bounded queue and retrying sender. |
| `MeshAddresses`, `MeshLatency`, `MeshService` | Address allocation, peers, latency hysteresis and pruning. |
| `Versions`, `NodeFilter` | Version order and the node filter built on it. |
| `Text` | Trimming, byte order and decimal numerals shared by the others. |

## What turned out not to hold

These properties fail of the code as it is; each has a counterexample and the
exact condition under which it holds.

- A late "accepted" report can put a running operation back to claimed, because the
  write checks who holds the row and not the status the decision was made from.
  Another agent can then run it a second time (`SingleExecutor`,
  `RankFallsOnlyByDemotion`, `DemotionMakesTwoExecutors`, `TwoExecutorsAreReachable`).
- Restoring reads at most 1000 reasons and then deletes all of them, so hiding more
  servers than that is not undone (`RestoreUndoesDisableExactly`).
- A threshold action that fails after the latch is written is not retried: servers it
  left visible stay visible until the next reset (`HiddenForTheCycleExactly`).
- A manual reset overwrites the record of the scheduled one, so the period can be reset
  again (`RepeatNeedsManualReset`, `ManualResetAllowsRepeat`).
- The comment at internal/async/task_queue.go:143 states an inequality that pending
  items violate (`CommentHoldsExactly`, `CommentFails`); `QueueConserves` is the
  equality. Counted calls leak from every counter under the blocking and under an
  unknown policy and under no other (`NeverLeaksExactly`, `StepLeaksExactly`), and
  accepted items stay in the channel after Stop iff there is no ticker
  (`StopLosesNothingExactly`).
- The limiter reads a bucket's lifetime and increments it in two steps. A bucket that
  expires in between is reopened for the rest of the old lifetime (`RegularExactly`,
  `WindowBound`, `StraddlingDefeatsAnyBound`).
- The metrics buffer compares and deletes in two steps
  (`ReadingBetweenCompareAndDeleteIsLost`, `StepKeepsNewestExactly`).
- Putting notifications back into a full queue drops the ones put back before; the
  comment at internal/job/send_notification.go:49 promises no loss
  (`PutBackBeyondRoom`, `RequeueLosesNothingExactly`).
- Mesh addresses are unique over all networks but chosen per network
  (`RefusedExactly`, `SecondNetworkCannotStart`); below prefix 16 the byte arithmetic
  wraps (`WideNetworksWrap`). Two overlapping joins of one agent can move the agent
  (`KeepsAddressExactly`, `RacingJoinsMoveAnAgent`).
- The comment at internal/service/compiler_rule_order.go:154 calls the stored order the
  order of evaluation; for some pairs of slugs it is not (`StoredOrderCanDiffer`,
  `StoredOrderIsNameOrder`). Policy indices from 400 on share one number
  (`ScopedBeforeGlobalExactly`, `GlobalBeforeSpecExactly`), and relay rules beyond 100
  run into the next segment (`OrdersIncreaseExactly`).
- A report that arrives out of sampling order can be counted twice
  (`OverCountsExactly`, `GapFallsExactly`, `OutOfOrderOverCounts`).

## Model

| member | source | states |
|---|---|---|
| `TrafficCounter.NeverOverCounts` | `internal/service/agent_traffic_lifecycle.go:250-334` | After any run of reports in sampling order and resets, with reboots, repeats, skipped reports and failed writes: each stored cycle total is the sum of the deltas accepted since the last reset, at most the traffic really carried since then, at most the delta cap per accepted report; the difference to the real traffic is exactly what fell into skipped reports. |
| `TrafficCounter.OutOfOrderOverCounts` | `internal/service/agent_traffic_lifecycle.go:250-334` | A run that does exceed it: for any two readings m < n of one boot, an older report redelivered late has the bytes after it counted twice. |
| `TrafficCounter.OverCountsExactly` | `internal/service/agent_traffic_lifecycle.go:250-334` | For every run, whatever the order of arrival: a cycle total exceeds the traffic carried between the two baselines iff the gap left by unaccepted reports has become negative, in each direction. |
| `TrafficCounter.GapFallsExactly` | `internal/service/agent_traffic_lifecycle.go:250-316` | That gap falls in a step iff a stored report replaces a baseline that was sampled later than the report; resets never take it below zero. |
| `TrafficRuns.ServiceOverCountsExactly` | `internal/service/agent_traffic_lifecycle.go:216-334` | The same iff for every cut run of the whole service. |
| `TrafficRuns.ServiceNeverOverCounts` | `internal/service/agent_traffic_lifecycle.go:216-334` | The same bound for the whole service: every run of reports, manual and scheduled resets and policy edits, each cut short after any number of its writes. |
| `TrafficRuns.RunCounts` | `internal/service/agent_traffic_lifecycle.go:726-761` | Every run of the service, writes cut short anywhere, moves the counters exactly as the counting ledger does. |
| `TrafficLifecycle.ThresholdIsFloor` | `internal/service/agent_traffic_lifecycle.go:966-976` | The split formula equals the floor of limit times percent over 100, and no intermediate value leaves int64. |
| `TrafficRuns.LatchIsExactSinceReset` | `internal/service/agent_traffic_lifecycle.go:563-610` | After a completed reset and any reports whose writes succeed, the policy is marked reached iff the threshold is positive and the usage of the cycle has come up to it. |
| `TrafficRuns.ActsOncePerCycle` | `internal/service/agent_traffic_lifecycle.go:563-610` | Between resets the latch closes exactly once if the threshold is reached and never otherwise, however reports are cut short; and an action with writes is begun for it exactly once unless the closing report was cut right after the latch. |
| `TrafficRuns.HiddenForTheCycleExactly` | `internal/service/agent_traffic_lifecycle.go:563-707` | The action is not retried: for the rest of the cycle no server is visible iff the report that closed the latch was carried out to the end, or there was nothing to hide. |
| `TrafficSafety.RunIsSafe` | `internal/service/agent_traffic_lifecycle.go:672-707` | Over every run with every operation cut short after any prefix of its writes: a server hidden by the service always has its reason on record, and whenever the latch is open all servers of the original set are visible (at most 1000 servers). |
| `TrafficSafety.CompleteReset` | `internal/service/agent_traffic_lifecycle.go:726-798` | A reset carried out to the end, from any state such a run can leave, shows exactly the original set of servers, removes every reason, zeroes the cycle but keeps the raw baseline, and opens the latch. |
| `TrafficSafety.OnlyCompleteResetsRecord` | `internal/service/agent_traffic_lifecycle.go:726-761` | A cycle key on record implies the counters were zeroed and the servers restored: no proper prefix of a reset touches the policy row. |
| `TrafficSafety.RestoreUndoesDisableExactly` | `internal/service/agent_traffic_lifecycle.go:763-798` | Hiding all visible servers and restoring brings the same set back iff there are at most 1000 of them; beyond that the listing limit loses the reason of the first hidden server unread. |
| `TrafficSafety.SecondDisableLosesAllServers` | `internal/service/agent_traffic_lifecycle.go:672-707` | What the latch protects: two disables without a restore in between leave no server that a restore would bring back. |
| `TrafficPolicy.FirstDayIsGregorian` | `internal/service/agent_traffic_lifecycle.go:1084-1086` | The month-by-month calendar used for due dates agrees, for every month, with the closed Gregorian formula. |
| `TrafficPolicy.NextMonthlyReset` | `internal/service/agent_traffic_lifecycle.go:504-537` | The 24-month search loop returns the first month whose key is not on record and whose due time is not skipped as initial. |
| `TrafficPolicy.ForecastAgreesWithScheduler` | `internal/service/agent_traffic_lifecycle.go:487-561` | In all modes, for every policy, record, host row and time: a forecast that is not in the future is a reset the scheduler finds due, with the same key; a future forecast or none means nothing is due; an unreadable anchor is an error in both. |
| `TrafficPolicy.SearchSucceedsWithinTwo` | `internal/service/agent_traffic_lifecycle.go:504-537` | With an anchor not after the clock the search succeeds within two candidates. |
| `TrafficPolicy.DueAdvancesThePeriod` | `internal/service/agent_traffic_lifecycle.go:800-874` | A due reset always belongs to a strictly later period than the one recorded by the last scheduled reset. |
| `TrafficPolicy.DueAgainAfterManual` | `internal/service/agent_traffic_lifecycle.go:800-874` | In all modes: what was due is due again, with the same key, at any later time of the same period once a manual reset has taken the record away. |
| `TrafficResets.ScheduledPeriodsIncrease` | `internal/service/agent_traffic_lifecycle.go:412-462` | With a clock that does not go back, a policy that is not edited and a fixed anchor, the periods of completed scheduled resets strictly increase over any run of reports, ticks and cut-off resets without a completed manual reset, so each period is reset at most once. |
| `TrafficResets.RepeatNeedsManualReset` | `internal/service/agent_traffic_lifecycle.go:397-462` | With a policy that is not edited and a fixed anchor, a scheduled key is recorded a second time only if a manual reset was carried out to the end between the two recordings. |
| `TrafficResets.ManualResetAllowsRepeat` | `internal/service/agent_traffic_lifecycle.go:397-462` | And then it is: whenever a reset is due, a manual reset followed by a tick in the same period records the same key again, in every mode. |
| `TrafficResets.RepeatHappensInEveryMode` | `internal/service/agent_traffic_lifecycle.go:397-462` | A concrete host for each of the three modes on which the run tick, manual reset, tick records one key twice. |
| `TrafficService.TrafficLifecycleService.ApplyReport` | `internal/service/agent_traffic_lifecycle.go:216-334` | The verdict is the specified one, the rows are those after a prefix of the specified writes, the whole of it unless a write or the action failed, and the threshold is reported reached iff the latch was written. |
| `TrafficService.TrafficLifecycleService.EvaluateThreshold` | `internal/service/agent_traffic_lifecycle.go:563-610` | Latches first and acts afterwards; a failed latch write performs nothing; a failed action leaves the latch closed. |
| `TrafficService.TrafficLifecycleService.DisableServers` | `internal/service/agent_traffic_lifecycle.go:672-707` | Reasons are written before any server is hidden; the call succeeds iff every write did. |
| `TrafficService.TrafficLifecycleService.RestoreAvailability` | `internal/service/agent_traffic_lifecycle.go:763-798` | Shows the hidden recorded servers, newest reason first, and deletes the reasons only after all of them; succeeds iff every write did. |
| `TrafficService.TrafficLifecycleService.ResetTrafficCycle` | `internal/service/agent_traffic_lifecycle.go:726-761` | Zero, restore, record, in this order and up to the first failure; succeeds iff the time is positive and every write was made. |
| `TrafficService.TrafficLifecycleService.ResetCycle` | `internal/service/agent_traffic_lifecycle.go:397-410` | A manual reset is a cut of the specified reset under a manual key; success means the whole of it. |
| `TrafficService.TrafficLifecycleService.RunScheduledResets` | `internal/service/agent_traffic_lifecycle.go:412-462` | The paging loop visits each enabled policy exactly once in host order: the hosts processed are a prefix of the listing, each taken through a prefix of its own due reset, all others untouched; the three counts add up; without failures every visited reset is complete. |
| `TrafficService.TrafficLifecycleService.SameListing` | `internal/repository/sqlite/agent_traffic.go:104-133` | Resets made while paging do not move the pages. |
| `LifecycleOperation.SingleExecutor` | `internal/service/agent_lifecycle_operation.go:273-370` | From the empty table, over every interleaving of creations, claims, reclaims, report reads and report writes in which no late "accepted" lands on a running operation, all claimants that ever had an in_progress or terminal report accepted for one operation are the same. |
| `LifecycleOperation.RankFallsOnlyByDemotion` | `internal/service/agent_lifecycle_operation.go:544-557` | A step lowers the rank of some row iff it is a demotion: an "accepted" decided earlier overwriting in_progress. |
| `LifecycleOperation.TerminalRowsAreFrozen` | `internal/repository/sqlite/agent_lifecycle_operation.go:106-133` | No event of any interleaving changes a terminal row. |
| `LifecycleOperation.StepKeepsOk` | `internal/service/agent_lifecycle_operation.go:273-370` | Every event keeps: finished_at set iff the status is terminal, a claimant set iff the row is not pending, ids unique. |
| `LifecycleOperation.ReadThenLandNeverDemotes` | `internal/service/agent_lifecycle_operation.go:307-370` | A report whose write follows its read at once never demotes. |
| `LifecycleDemotion.DemotionMakesTwoExecutors` | `internal/service/agent_lifecycle_operation.go:273-370` | From every state reachable from the empty table with a demotion about to land, once the claim has timed out, a run using only claims the service computes leads to a log in which both the holder and another agent have run the operation: the condition of SingleExecutor is needed wherever it fails. |
| `LifecycleDemotion.TwoExecutorsAreReachable` | `internal/service/agent_lifecycle_operation.go:273-370` | A concrete such run from the empty table, with the service's two-minute timeout. |
| `LifecycleDemotion.RunKeepsLogged` | `internal/service/agent_lifecycle_operation.go:307-370` | Over every run, a row past claiming has its holder on the log as having run the operation. |
| `LifecycleDemotion.ReclaimIsPrepared` | `internal/service/agent_lifecycle_operation.go:273-305` | The reclaiming query is the one the service computes for a claim request that covers the row. |
| `LifecycleOperation.TerminalReportIsIdempotent` | `internal/service/agent_lifecycle_operation.go:531-542` | An accepted terminal report delivered again succeeds and changes nothing; any other report on that operation changes nothing either. |
| `LifecycleOperation.ReportStatusMeaning` | `internal/service/agent_lifecycle_operation.go:466-498` | A report ends an operation iff its effective status spells a terminal one, and the other accepted spellings lead to claimed or in_progress. |
| `LifecycleOperation.ClaimsOldestFirst` | `internal/repository/sqlite/agent_lifecycle_operation.go:176-262` | If a later eligible row is claimed, every earlier eligible row is. |
| `LifecycleOperation.ClaimRowsPointwise` | `internal/repository/sqlite/agent_lifecycle_operation.go:176-262` | A claim changes only eligible rows, each into its claimed form, and all of them when the limit allows. |
| `LifecycleOperation.ReturnedRowsAreClaimed` | `internal/repository/sqlite/agent_lifecycle_operation.go:176-262` | The rows returned are in the table afterwards, claimed, by the caller, and nothing else changed. |
| `LifecycleOperation.PreparedClaimsAreEnabled` | `internal/service/agent_lifecycle_operation.go:273-305` | Every claim the service lets through asks only for pending or claimed rows and names a claimant and a positive limit. |
| `LifecycleOperation.LifecycleService.Create` | `internal/service/agent_lifecycle_operation.go:159-204` | Adds one pending row iff type, host, payload and, for destructive types, the guard allow it. |
| `LifecycleOperation.LifecycleService.ClaimNext` | `internal/service/agent_lifecycle_operation.go:273-305` | One claim transaction: the table and the returned rows are those of the specified selection, or the request is refused and nothing changes. |
| `LifecycleOperation.LifecycleService.Report` | `internal/service/agent_lifecycle_operation.go:307-370` | Table and answer of a report whose read and write are not interleaved. |
| `RuleOrder.FilenameOrder` | `internal/service/compiler_rule_order.go:44-46` | For all orders of at most four digits, byte order of file names is numeric order, then slug order with the suffix. |
| `RuleOrder.WideOrdersMisSort` | `internal/service/compiler_rule_order.go:44-46` | Beyond four digits it is not: a five-digit order sorts before the spec fallback. |
| `RuleOrder.OrdersIncreaseExactly` | `internal/service/compiler_rule_order.go:25-66` | With all segments in use the numbers increase along the priority list iff at most 100 relay rules, 400 scoped and 400 global policies exist. |
| `RuleOrder.SortingRestoresPriority` | `internal/service/compiler_rule_order.go:155-180` | However the files arrive, sorting by name gives relay, scoped by index, global by index, spec by name. |
| `RuleOrder.FirstMatchByPriority` | `internal/service/compiler_rule_order.go:25-66` | First match over the sorted files is first match by segment, then by index. |
| `RuleOrder.ScopedBeforeGlobalExactly` | `internal/service/compiler_rule_order.go:55-66` | At the clamp the segments meet: exactly when a scoped rule is still read before a global one. |
| `RuleOrder.GlobalBeforeSpecExactly` | `internal/service/compiler_rule_order.go:55-66` | Exactly when a global rule is read before a spec fallback. |
| `RuleOrder.SortSorts` | `internal/service/compiler_rule_order.go:155-180` | The stored list is a sorted permutation of the given rules. |
| `RuleOrder.RuleArtifactsFrom` | `internal/service/compiler_rule_order.go:155-180` | Each rule becomes exactly one artifact under its own file name, in sorted order. |
| `RuleOrder.StoredOrderIsNameOrder` | `internal/service/compiler_rule_order.go:154-180` | The stored order is the order of file names except where one slug extends another of the same order with text below the suffix. |
| `RuleOrder.StoredOrderCanDiffer` | `internal/service/compiler_rule_order.go:154-180` | Two spec slugs for which storage order and evaluation order differ. |
| `RuleOrder.SplitMatchValues` | `internal/service/compiler_rule_order.go:97-117` | The loop with its seen map computes the specified list. |
| `RuleOrder.SplitMatchValuesRoundTrip` | `internal/service/compiler_rule_order.go:97-117` | The values are trimmed, non-blank, distinct, at most 64, complete below that cap, and joining them with commas and splitting again gives the same list. |
| `TaskQueueSystem.QueueConserves` | `internal/async/task_queue.go:105-199` | Over every interleaving of producers, workers, drainers, a ticker and Stop: enqueued = buffered + drained + dropped + rejected + calls still inside + items in hand (+ leaked calls, zero under DropOldest and Reject); the buffer is within capacity and is the suffix of the sent items not yet taken; as a bag, everything sent is buffered, delivered, overwritten or in hand. |
| `TaskQueueSystem.AdvanceHolds` | `internal/async/task_queue.go:229-319` | Every goroutine hands on items in the order it received them, losing and adding none. |
| `TaskQueueRuns.EnqueueIsBounded` | `internal/async/task_queue.go:123-158` | Over every run in which a producer stays inside one call under DropOldest or Reject: it can always step, and its own steps so far plus those it still needs are at most 198, however many the others take. |
| `TaskQueueRuns.StepLeaksExactly` | `internal/async/task_queue.go:105-164` | A step lets a counted call return without settling a counter iff a waiting sender sees the stop, or the policy is unknown at the switch. |
| `TaskQueueRuns.NeverLeaksExactly` | `internal/async/task_queue.go:105-164` | No run of a new queue with a producer and somebody to stop it leaks iff the policy is DropOldest or Reject. |
| `TaskQueueRuns.BlockingRunLeaks` | `internal/async/task_queue.go:118-124` | A run from a new queue: a blocking producer is counted, the queue is stopped, the call returns false and no counter but enqueued has moved. |
| `TaskQueueRuns.CommentHoldsExactly` | `internal/async/task_queue.go:137-144` | In every reached state enqueued is at most drained + dropped + rejected iff nothing is buffered, leaked, inside a call or held uncounted. |
| `TaskQueueRuns.CommentFails` | `internal/async/task_queue.go:137-144` | A run from any new queue after which it does not hold: one accepted item that nobody has taken. |
| `TaskQueueSystem.ShutdownLosesNothing` | `internal/async/task_queue.go:218-300` | With a ticker, when Stop returns every item sent before Stop began was delivered to the callback or to a drainer, is being returned by one, or was overwritten. |
| `TaskQueueRuns.WithoutTickerItemsAreLost` | `internal/async/task_queue.go:218-272` | In every new queue without a ticker, with any pool, batch size and policy: a run in which Enqueue returns true, Stop returns, and the item is still in the channel. |
| `TaskQueueRuns.StopLosesNothingExactly` | `internal/async/task_queue.go:218-300` | No run that stops loses an accepted item iff there is a ticker or the policy accepts nothing. |
| `TaskQueue.LoneEnqueue` | `internal/async/task_queue.go:105-164` | An uninterrupted producer of the interleaved model ends within eight steps with the result and counters of the sequential operation. |
| `TaskQueue.TaskQueue.Enqueue` | `internal/async/task_queue.go:105-164` | Result and counters of one call for every policy; on a full queue DropOldest replaces the oldest item and never exhausts its retries alone. |
| `TaskQueue.TaskQueue.Drain` | `internal/async/task_queue.go:167-181` | Returns the whole buffer in order and counts it as drained. |
| `TaskQueue.TaskQueue.TryDrain` | `internal/async/task_queue.go:184-199` | Returns a prefix of the buffer: max items, or fewer only when the buffer is then empty. |
| `TaskQueue.TaskQueue.FlushAll` | `internal/async/task_queue.go:302-319` | The callback receives exactly the chunks of what was buffered. |
| `TaskQueue.ChunksDivide` | `internal/async/task_queue.go:302-319` | The chunks concatenate to the drained list, none is empty, all but the last have batchCap items when that is positive, and otherwise there is one. |
| `RateLimiter.WindowBound` | `internal/security/ratelimiter.go:40-74` | Over every run without Reset, whenever buckets expire: any closed interval as long as the window contains at most twice the limit of allowed calls, plus one limit for each call made in it that an expiry splits. |
| `RateLimiter.RegularExactly` | `internal/security/ratelimiter.go:40-74` | A call counts on a live bucket, opens one for at least a window, or fails and changes nothing, iff no expiry falls between reading the lifetime and counting (leaving less than a window), or between counting and reading back a count over the limit. |
| `RateLimiter.TwiceTheLimit` | `internal/security/ratelimiter.go:40-74` | The documented promise: with every call regular, at most twice the limit. |
| `RateLimiter.StraddlingDefeatsAnyBound` | `internal/security/ratelimiter.go:51-59` | The term for split calls is needed: for every n a run with limit 1 and n allowed calls in one window, each reading the lifetime before an expiry and counting after it. |
| `RateLimiter.CallNumber` | `internal/security/ratelimiter.go:40-74` | Call number k of a bucket is allowed iff k is at most the limit. |
| `RateLimiter.LiveCall` | `internal/cache/store.go:230-255` | A call on a live bucket adds one and moves its expiry by exactly its own duration, or by a window when made on the last instant. |
| `RateLimiter.OpeningCall` | `internal/security/ratelimiter.go:40-74` | A call that finds no live bucket opens one for a whole window with count one. |
| `RateLimiter.InstantCallKeepsExpiry` | `internal/cache/store.go:186-196` | A call that takes no time keeps the expiry iff it comes before the last instant. |
| `RateLimiter.LapsedReadAllows` | `internal/cache/store.go:245-251` | A bucket that lapses before its count is read back lets the call through whatever the count. |
| `RateLimiter.RateLimiter.Allow` | `internal/security/ratelimiter.go:40-74` | The method refines the bucket function on the key's entry, leaves every other entry alone, refuses a non-positive limit and always allows a blank key. |
| `RateLimiter.RateLimiter.Reset` | `internal/security/ratelimiter.go:77-82` | Removes exactly the entry of the key. |
| `CacheStore.PrefixedIsInjective` | `internal/cache/store.go:257-266` | Within one namespace two keys share an entry iff they are equal after trimming. |
| `CacheStore.Store.Increment` | `internal/cache/store.go:230-255` | Entry and result for every reading of the clock during the call, including expiry between its steps; other entries unchanged. |
| `CacheStore.Store.TTL` | `internal/cache/store.go:186-196` | The time left of a live entry; none when it lapses before the second reading. |
| `CacheStore.Store.Set` | `internal/cache/store.go:100-103` | Writes one entry with the normalised lifetime. |
| `CacheStore.Store.Get` | `internal/cache/store.go:126-136` | The live value, and exactly one hit or miss counted. |
| `CacheStore.Store.Delete` | `internal/cache/store.go:182-184` | Removes one entry. |
| `CacheStore.Store.NormalizeTTL` | `internal/cache/store.go:268-273` | A non-positive lifetime becomes the default one. |
| `UserStats.NothingLostOrDoubled` | `internal/job/stat_user_job.go:72-144` | Over every interleaving of broadcasts, flushes, committed and failed batches, any number of them in flight: for every host, user and direction, pending + in flight + persisted equals what the calls that reached the granularity carried. |
| `UserStats.GranularitiesAgree` | `internal/job/stat_user_accumulator.go:115-119` | Whenever no broadcast is halfway, the figures of any two granularities agree for every host, user and direction. |
| `UserStats.WrittenStores` | `internal/repository/sqlite/stat_user.go:42-80` | A committed batch adds each increment to the total over all time buckets. |
| `UserStats.MergedAdds` | `internal/job/stat_user_accumulator.go:62-77` | Merging a batch back adds it key by key. |
| `UserStats.BucketsNest` | `internal/job/stat_user_job.go:147-163` | Hour, day and month buckets nest and contain the time they are computed from. |
| `UserStats.Accumulator.CollectWithHost` | `internal/job/stat_user_accumulator.go:36-50` | Adds to one key; a non-positive user or a zero increment changes nothing. |
| `UserStats.Accumulator.Flush` | `internal/job/stat_user_accumulator.go:53-59` | Hands over everything and leaves nothing. |
| `UserStats.Accumulator.Merge` | `internal/job/stat_user_accumulator.go:62-77` | The loop, in any order of keys, is the key-wise sum. |
| `UserStats.MultiAccumulator.CollectWithHost` | `internal/job/stat_user_accumulator.go:115-119` | Every accumulator collects the increment exactly once. |
| `UserStats.StatUserTable.UpsertBatch` | `internal/repository/sqlite/stat_user.go:42-80` | All rows of the batch are added, or none. |
| `UserStats.StatUserJob.Records` | `internal/job/stat_user_job.go:101-120` | The rows built are exactly the non-zero increments in one bucket. |
| `UserStats.StatUserJob.Run` | `internal/job/stat_user_job.go:72-144` | Afterwards everything pending is in the bucket of now, or, when the write fails, pending again. |
| `MetricsBuffer.StepKeepsNewestExactly` | `internal/service/agent_host_metrics_buffer.go:73-99` | A step keeps every newest reading in the cache or as the last one written iff it does not delete an entry overwritten after it was compared. |
| `MetricsBuffer.NewestIsNeverLost` | `internal/service/agent_host_metrics_buffer.go:73-99` | Hence over every interleaving of enqueues with one flusher, whatever the database refuses, the newest reading is never lost while no such deletion happens. |
| `MetricsBuffer.UninterruptedIsNeverOvertaken` | `internal/service/agent_host_metrics_buffer.go:91-96` | None happens when compare and delete are one step. |
| `MetricsBuffer.ReadingBetweenCompareAndDeleteIsLost` | `internal/service/agent_host_metrics_buffer.go:91-96` | In the code they are two: a seven-step run in which a reading is lost. |
| `MetricsBuffer.RepoNeverGoesBack` | `internal/service/agent_host_metrics_buffer.go:73-99` | The database never returns to an older reading of a host. |
| `MetricsBuffer.Buffer.Enqueue` | `internal/service/agent_host_metrics_buffer.go:43-55` | Stores the newest reading of a positive host id; anything else is an error and changes nothing. |
| `MetricsBuffer.Buffer.Latest` | `internal/service/agent_host_metrics_buffer.go:57-71` | The cached reading; undecodable bytes are reported and removed. |
| `MetricsBuffer.Buffer.Flush` | `internal/service/agent_host_metrics_buffer.go:73-99` | Undisturbed, what the database refused stays cached and all the rest is written and gone. |
| `Notifications.RetryConservesExactly` | `internal/job/send_notification.go:34-58` | Over every interleaving of enqueues with the job: enqueued = settled + in the job's hands + queued, as bags, iff the run never adds to a full queue; the queue never exceeds its capacity. |
| `Notifications.StepConserves` | `internal/async/notification_queue.go:38-48` | Counting evicted items, the equality holds at every step. |
| `Notifications.RequeueReversesInFront` | `internal/job/send_notification.go:48-53` | With room, the failed item and all later ones end up last first ahead of what was queued, and arrivals meanwhile go to the end. |
| `Notifications.PutBackBeyondRoom` | `internal/async/notification_queue.go:115-125` | Beyond the room each further item replaces the one put back before it: only the last of them survives, and with no room the old head goes too. |
| `Notifications.RequeueLosesNothingExactly` | `internal/async/notification_queue.go:115-125` | Requeueing a list loses nothing iff it fits; the resulting length is exact. |
| `Notifications.NotificationQueue.Enqueue` | `internal/async/notification_queue.go:38-48` | Appends; a full queue drops its oldest item; a request without recipient is ignored. |
| `Notifications.NotificationQueue.Drain` | `internal/async/notification_queue.go:64-73` | Returns and empties the queue. |
| `Notifications.NotificationQueue.Requeue` | `internal/async/notification_queue.go:115-125` | Prepends; a full queue drops its head first. |
| `Notifications.SendJob.Run` | `internal/job/send_notification.go:34-58` | Items go out in order up to the first failure; that one and the rest are queued again, reversed, and exactly the successful ones before it were sent. |
| `MeshAddresses.AllotAddsExactly` | `internal/service/agent_mesh.go:272-281` | Byte-wise addition of an offset is addition of addresses iff no byte wraps. |
| `MeshAddresses.HostAddresses` | `internal/service/agent_mesh.go:254-290` | In networks of prefix 16 to 30 every offset is its own host address, strictly between network and broadcast address, in the same network. |
| `MeshAddresses.WideNetworksWrap` | `internal/service/agent_mesh.go:272-281` | In wider networks the addresses repeat after 65536 offsets, the network address included. |
| `MeshAddresses.AllocateIP` | `internal/service/agent_mesh.go:254-290` | The loop returns the address of the smallest free offset, or none. |
| `MeshAddresses.FirstFree` | `internal/service/agent_mesh.go:271-288` | The smallest free offset; none iff all are taken. |
| `MeshAddresses.FullExactly` | `internal/service/agent_mesh.go:271-289` | Allocation fails iff as many distinct addresses are in use as the network has hosts (254 in a /24). |
| `MeshAddresses.AddressesStayDistinct` | `internal/service/agent_mesh.go:122-170` | Over every interleaving of joins, with reading and writing as separate steps, and leaves: no two peers share an address and every address is one the allocator hands out. |
| `MeshAddresses.AddressesAreHosts` | `internal/service/agent_mesh.go:122-170` | For prefixes 16 to 30, after any such run from an empty table: addresses are distinct and strictly between the network and the broadcast address. |
| `MeshAddresses.AddressMovesExactly` | `internal/service/agent_mesh.go:122-153` | A peer's address changes in a step iff an outstanding request of the same agent for another, unclashing address is carried out. |
| `MeshAddresses.KeepsAddressExactly` | `internal/service/agent_mesh.go:122-153` | An agent keeps its address over every run in which it does not leave iff no outstanding request of its own asks for another one. |
| `MeshAddresses.JoiningAgainReturnsTheSame` | `internal/service/agent_mesh.go:122-127` | After a join answered while no other call for the agent was under way, and any further joins and leaves of others, joining again under any network and key returns the same address and key. |
| `MeshAddresses.JoinTwice` | `internal/service/agent_mesh.go:122-153` | A join keeps that, takes an address free in its network, is repeated without change under any network and key, and is undone by leaving. |
| `MeshAddresses.RacingJoinsMoveAnAgent` | `internal/service/agent_mesh.go:122-153` | Reading and writing are separate, so two calls for one agent with a departure in between can leave it with another address than the first call returned. |
| `MeshAddresses.RefusedExactly` | `internal/service/agent_mesh.go:122-153` | The address column is unique over all networks: a join is refused iff the address it chooses is in use in another network. |
| `MeshAddresses.SecondNetworkCannotStart` | `internal/service/agent_mesh.go:122-153` | So a second network gets no first peer while the first network uses offset one. |
| `MeshLatency.SurvivingEdge` | `internal/service/agent_mesh.go:199-225` | For every surviving edge the stored sample is the last valid report since creation, departure or pruning, else the first, with the time of the latest report. |
| `MeshLatency.MapIsHistory` | `internal/service/agent_mesh.go:199-225` | After any run of reports, departures and prunings the map holds exactly the edges with a non-empty history, each with the fold of its history. |
| `MeshLatency.HysteresisIsHistory` | `internal/service/agent_mesh.go:207-217` | The fold in closed form. |
| `MeshLatency.ReportValid` | `internal/service/agent_mesh.go:186-197` | A report is valid iff latency is a positive finite number and loss lies in [0, 1). |
| `MeshLatency.KeysAreFaithful` | `internal/service/agent_mesh.go:155-170` | The text keys keep edges apart, and the prefix of a leaving agent selects exactly the edges it is the source of. |
| `MeshService.MeshService.JoinNetwork` | `internal/service/agent_mesh.go:122-153` | The method is the specified join and keeps the table in order. |
| `MeshService.MeshService.LeaveNetwork` | `internal/service/agent_mesh.go:155-170` | Removes the peer and exactly its outgoing edges. |
| `MeshService.MeshService.ReportPeerLatency` | `internal/service/agent_mesh.go:199-225` | Changes one edge by the hysteresis rule. |
| `MeshService.MeshService.PruneLatencies` | `internal/service/agent_mesh.go:311-348` | Removes exactly the edges whose source is not a current peer or whose target matches neither key nor agent name of one. |
| `MeshService.OtherNetworksArePruned` | `internal/service/agent_mesh.go:292-309` | Only the default network counts: edges of peers of any other network are removed. |
| `Versions.VersionLess` | `internal/protocol/base.go:212-235` | The loop decides the order "smaller at the first difference", versions continuing with zeros. |
| `Versions.Trichotomy` | `internal/protocol/base.go:212-235` | Of two versions exactly one of smaller, same up to trailing zeros, larger holds. |
| `Versions.BelowTransitive` | `internal/protocol/base.go:212-235` | The order is transitive. |
| `Versions.BelowRespectsSame` | `internal/protocol/base.go:212-235` | Versions that are the same compare alike with any other. |
| `Versions.NotBelowTransitive` | `internal/protocol/base.go:212-235` | Not being smaller is transitive, so the order is a strict weak one. |
| `Versions.SplitVersion` | `internal/protocol/base.go:237-254` | The loop over the dotted parts computes the specified values. |
| `Versions.PrintedVersionReadsBack` | `internal/protocol/base.go:237-254` | Every non-empty list of 64-bit naturals printed with dots, with or without a leading v, reads back as itself. |
| `NodeFilter.RaisingOnlyAdds` | `internal/protocol/base.go:69-89` | Raising a named client version, or naming none, only adds nodes, in place. |
| `NodeFilter.RaisingKeepsRules` | `internal/protocol/base.go:122-138` | A version not below another satisfies every rule the other satisfies. |
| `NodeFilter.NamingAVersionCanRemove` | `internal/protocol/base.go:134-136` | Naming a version where none was named can remove nodes. |
| `NodeFilter.KeptIsSubsequence` | `internal/protocol/base.go:69-89` | The result is an order-preserving subsequence, with exactly the admissible nodes as members. |
| `NodeFilter.FilteringTwice` | `internal/protocol/base.go:69-89` | Filtering is idempotent. |
| `NodeFilter.BaseBuilder.FilterNodes` | `internal/protocol/base.go:69-89` | The loop with its early continues computes the specified list. |
| `NodeFilter.BaseBuilder.IsCompatible` | `internal/protocol/base.go:91-103` | Compatible iff every rule for all clients and every rule for this client is satisfied. |
| `NodeFilter.Matches` | `internal/protocol/base.go:122-138` | One rule, all its early returns. |
| `NodeFilter.NormalizeAllowed` | `internal/protocol/base.go:140-150` | Keys and values trimmed, blank keys dropped, of colliding keys one wins. |
| `NodeFilter.BaseBuilder.Allow` | `internal/protocol/base.go:30-41` | Adds the normalised non-blank types and nothing else. |
| `NodeFilter.BaseBuilder.AddRequirement` | `internal/protocol/base.go:43-67` | Appends one normalised rule under client and type, or changes nothing. |

## Left out

- TaskQueue.Enqueue: does not cover a blocking call on a full channel, which does not return; TaskQueueSystem has it as a waiting producer. Its fallback after 64 lost retries needs other producers and is in TaskQueueSystem too.
- MultiAccumulator.CollectWithHost: one call as a whole; UserStats.System has it accumulator by accumulator.
- Operations on one traffic host running at the same time: each is cut into writes but they follow one another; SecondDisableLosesAllServers shows what two threshold actions at once would do.
- Traffic totals, statistics and counters are unbounded integers; wrap-around of int64 is modelled only for the threshold formula and for version numbers.
- Cycle keys are constructors in place of their texts; month, day, anchor and index are all kept.
- Payload sanitising of lifecycle operations is a given result; audit and operation logs, operation listing and retention are not modelled.
- Queries that fail while reading (mesh peers, policies of one host, servers of a restore) end the call before it writes anything, or are a cut between two writes; the listing of scheduled resets has its failure.
- The flush callback of the queue does not fail, and the drain timeout of Stop is not modelled.
- Lifetimes in the metrics buffer: cached readings do not expire.
- Two metrics flushers at once.
- JSON encoding of cached values, except that bytes may not decode; go-cache's janitor, which removes only entries no call can see; namespaces joined from several parts.
- Latencies are real numbers with NaN and infinities apart; key generation, route computation and route pushing of the mesh, and its peer listing.
- Text keys of the latency map are pairs in MeshService; KeysAreFaithful justifies that.
- The value a rule finds in a node is looked up by its whole path; nested settings and number formatting are not modelled. Lower-casing covers ASCII.
- The library sort stands as insertion sort; only sortedness and permutation are used. Content hashes and strategy names of rule artifacts are not modelled.
- HTTP, gRPC, command line, SQL text and migrations (their effect on the rows is modelled), subscription builders, captcha, mail, lookups, cryptography, admin services.
