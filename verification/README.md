# Gonka API node: verified models

Dafny models of the stateful parts of the decentralized API and of the code shared with devshard hosts. Network, clock,
randomness and database are inputs; concurrency is a state machine whose steps are the source's critical sections; every
object with fields that change is a class whose methods are proved against functions on values; the promises are lemmas
about those functions over all inputs and all runs.

- `HostEvents`, `HostEventRings`, `HostEventPoll`: circular event log, wake registry, long-poll protocol with cursor and generation.
- `NodeReconcile`, `NodeLives`: reconciler, per-node worker, result queue, cancellation, stale-result rejection; registering a node again.
- `BrokerLeases`: lock counts against lock map, queued releases, TTL eviction and abandoned requests.
- `ChainFallback`: gRPC to RPC fallback with a single-owner probe.
- `BandwidthLimiting`: sliding-window admission with garbage collection.
- `WeightDistribution`: proportional scaling through float64 to an exact total.
- `RuntimeConfig`: revision publication, broadcast channel, configuration long poll.
- `EscrowLoad`: exponentially weighted acquire counter per escrow.
- `SigningPayload`, `LeafSampling`, `Coverage`: proof protocol: signed bytes, lazy sample of leaves, coverage and inclusion checks.
- `NodeCache`, `NodePicks`, `Capacity`: devshard side: round-robin node cache with flow-gated pruning, overlapping picks, local capacity bound.
- `ModelArgs`: merging and rewriting of model deployment arguments.
- `PhaseCommands`: the three phase commands and their "anything to do?" check.
- `Common`, `NodeStatus`: shared vocabulary.

Where a promise does not hold of the code, the code is kept, a lemma gives a failing input and another the exact condition:

- `HostEventPoll.LateEventIsDropped`, `HostEventPoll.ExactDelivery`
- `NodeReconcile.MistargetedDispatchWedges`, `NodeReconcile.MistargetedIffIntentMoved`
- `NodeReconcile.CancelledReportIsAccepted`, `NodeReconcile.CancelledAcceptedOnlyInGap`
- `NodeLives.StaleResultIsAccepted`, `NodeLives.StaleAcceptedIff`
- `BrokerLeases.ReRegisteringLosesTheLease`, `BrokerLeases.LockCountIsOwed`
- `BandwidthLimiting.OverlappingChecksOvershoot`, `BandwidthLimiting.WindowsStayWithinLimitIffRoom`
- `WeightDistribution.WrappingDistribution`, `WeightDistribution.EqualBranchExactIffNoWrap`
- `WeightDistribution.ScalingByWrappedSumMisses`, `WeightDistribution.TargetMetIffNoWrap`
- `RuntimeConfig.StalledRevision`, `RuntimeConfig.PublicationAgreesIffCareful`
- `EscrowLoad.AcquireAtZeroOvercounts`, `EscrowLoad.BumpExactIff`
- `SigningPayload.TagHeightCollides`, `SigningPayload.KindsSeparateIffNotTagHeight`
- `Coverage.RepeatedNoncePasses`, `Coverage.AllSurviveIffConsistent`
- `NodePicks.TwoLoadsCollide`, `NodePicks.DistinctIffAlone`
- `Capacity.UnlistedHolderIsLost`, `Capacity.ExactIffNeverDropped`
- `ModelArgs.DashedIdServesNoName`, `ModelArgs.OverrideInForceIff`
- `ModelArgs.LeftoverMoves`, `ModelArgs.RemovedIsCleanIffTidy`
- `PhaseCommands.DisabledNodeRaisesFalseAlarm`, `PhaseCommands.ShouldMutateIff`

Where code and comments differ the code is followed: the timeout reply of the host-event poll advances the cursor past
events it does not return; a runtime revision published without a larger height is not seen by clients at that height; the
phase check also answers yes for nodes out of operation without preserved models; the removal of deployment arguments can
leave a value behind.

## Model

| member | source | states |
|---|---|---|
| `HostEventRings.HostEventRing.constructor` | decentralized-api/apiconfig/host_event_ring.go:94-106 | A non-positive capacity becomes 4096; the new ring mirrors an empty log. |
| `HostEventRings.HostEventRing.Head` | decentralized-api/apiconfig/host_event_ring.go:122-127 | The length of the log, which is the sequence number of its newest event. |
| `HostEventRings.HostEventRing.Subscribe` | decentralized-api/apiconfig/host_event_ring.go:137-153 | Registers a waiter with an open channel for events appended from now on; all other waiters keep theirs. |
| `HostEventRings.HostEventRing.Release` | decentralized-api/apiconfig/host_event_ring.go:137-153 | Deregisters the waiter and no other, and closes no channel. |
| `HostEventRings.HostEventRing.Store` | decentralized-api/apiconfig/host_event_ring.go:159-178 | The circular buffer keeps mirroring the newest part of the unbounded log, whether it fills a free slot or overwrites the oldest. |
| `HostEventRings.HostEventRing.Append` | decentralized-api/apiconfig/host_event_ring.go:159-186 | The stored event gets the next number; exactly the waiters subscribed to its kind are woken, once, and deregistered. |
| `HostEventRings.HostEventRing.Collect` | decentralized-api/apiconfig/host_event_ring.go:238-247 | The scan over the slots returns exactly the matching events of the log after the cursor that are still held. |
| `HostEventRings.HostEventRing.Since` | decentralized-api/apiconfig/host_event_ring.go:197-249 | The circular read equals the read on the unbounded log cut to capacity, with every reset condition. |
| `HostEventRings.HostEventRing.RetainedIsNewestPartOfLog` | decentralized-api/apiconfig/host_event_ring.go:159-186 | Read from start, the buffer is the last min(n, capacity) log entries with contiguous sequence numbers. |
| `HostEventRings.SlotIsModulo` | decentralized-api/apiconfig/host_event_ring.go:159-178 | The slot of the i-th live event is (start + i) modulo the capacity. |
| `HostEvents.WokenIffMatching` | decentralized-api/apiconfig/host_event_ring.go:159-186 | A waiter has been woken exactly when a read from its subscription point would return something. |
| `HostEventPoll.ExactDelivery` | decentralized-api/nodemanager/host_events_rpc.go:43-106 | In every run of appends, restarts, polls, wake-ups and timeouts the client received exactly the subscribed events after its start, in order and once each, if and only if no timed-out request of the run read again with its channel already closed and no reset due. |
| `HostEventPoll.DropsOnlyGrow` | decentralized-api/nodemanager/host_events_rpc.go:95-103 | What was dropped is never made up for, and it grows over a run if and only if such a re-read is in it. |
| `HostEventPoll.DropsIffLateWake` | decentralized-api/nodemanager/host_events_rpc.go:95-103 | Events are dropped only by the re-read after a timeout, exactly when the channel was already closed and no reset is asked for. |
| `HostEventPoll.LateEventIsDropped` | decentralized-api/nodemanager/host_events_rpc.go:95-103 | An event appended between the timer and the re-read is skipped without a reset. |
| `HostEventPoll.NoLostWakeUp` | decentralized-api/nodemanager/host_events_rpc.go:49-61 | In every run a client blocked on an open channel has no subscribed event beyond its cursor. |
| `HostEventPoll.ClosedIffDue` | decentralized-api/nodemanager/host_events_rpc.go:49-94 | While a request waits, its channel is closed exactly when something is due to it. |
| `HostEventPoll.ReadIsComplete` | decentralized-api/apiconfig/host_event_ring.go:197-249 | A read without reset returns everything due after the cursor and moves the cursor to the head. |
| `HostEventPoll.RunKeepsSound` | decentralized-api/nodemanager/host_events_rpc.go:43-106 | Received, dropped and still due events always add up to the subscribed part of the log. |
| `HostEventPoll.ResetIffAheadOrGap` | decentralized-api/apiconfig/host_event_ring.go:195-228 | For a matching generation and a cursor above 0 a read resets if and only if the cursor is ahead of the log or an event after it was evicted. |
| `HostEventPoll.ColdReadMissesOnlyEvicted` | decentralized-api/apiconfig/host_event_ring.go:215-228 | Cursor 0 never triggers a gap reset; such a read is complete if and only if no subscribed event was evicted. |
| `NodeReconcile.NodeRecord.constructor` | decentralized-api/broker/node_admin_commands.go:135-153 | A registered node starts with unknown statuses, nothing recorded, generation 0. |
| `NodeReconcile.NodeRecord.TryDispatch` | decentralized-api/broker/broker.go:1018-1042 | The re-check under the lock decides; on dispatch the current intent and a fresh generation are recorded. |
| `NodeReconcile.NodeRecord.ApplyResult` | decentralized-api/broker/commands.go:204-298 | A result is accepted only for the recorded target and generation; a rejected one changes nothing, an accepted one is finalised. |
| `NodeReconcile.NodeRecord.ChangeDeployment` | decentralized-api/broker/node_admin_commands.go:265-295 | A deployment change cancels a task aimed at inference and no other, and leaves an update pending. |
| `NodeReconcile.RunKeepsSafe` | decentralized-api/broker/broker.go:969-1094 | Every run of collecting, calling cancel, clearing, scanning, dispatching, submitting, working, delivering, intent and deployment changes keeps the protocol invariant. |
| `NodeReconcile.AppliedResultsAreCurrent` | decentralized-api/broker/commands.go:204-251 | Over every run applied results have strictly increasing generations (at most one per dispatch), each from the then most recent dispatch, and a succeeded one left the node at the target that dispatch recorded. |
| `NodeReconcile.AcceptedIffCurrentAndAimed` | decentralized-api/broker/commands.go:204-237 | A delivered result is accepted if and only if its dispatch is the latest, still recorded, and its command aimed at the recorded target. |
| `NodeReconcile.MistargetedIffIntentMoved` | decentralized-api/broker/broker.go:1010-1069 | Over every run the dispatches whose command misses the recorded target are exactly those whose intent moved between the snapshot and the dispatch. |
| `NodeReconcile.RecordedTargetIsPursued` | decentralized-api/broker/broker.go:1031-1092 | While a target is recorded its submission or result is under way, unless that dispatch was mistargeted. |
| `NodeReconcile.MistargetedDispatchWedges` | decentralized-api/broker/broker.go:1010-1069 | A run exists in which a mistargeted dispatch leaves the record set with nothing under way. |
| `NodeReconcile.WedgeLasts` | decentralized-api/broker/broker.go:1000-1030 | A wedged node stays wedged in every run without a change of intent or deployment. |
| `NodeReconcile.CancelledAcceptedOnlyInGap` | decentralized-api/broker/broker.go:986-995 | Over every run the report of a cancelled command is accepted only between the cancel call and the clearing of the record. |
| `NodeReconcile.CancelledReportIsAccepted` | decentralized-api/broker/broker.go:986-995 | A run in which it is accepted there. |
| `NodeLives.LifeRunKeepsSafe` | decentralized-api/broker/node_admin_commands.go:135-163 | Over every run with any number of registrations the protocol invariant holds for the current record. |
| `NodeLives.StaleAcceptedIff` | decentralized-api/broker/commands.go:184-237 | A result of an earlier registration is accepted if and only if the node has been dispatched since exactly as often as its old generation says, that dispatch is still recorded, and it recorded the same target. |
| `NodeLives.StaleResultIsAccepted` | decentralized-api/broker/node_admin_commands.go:135-163 | A run in which the old worker's report is taken for a dispatch whose own command has not started. |
| `BrokerLeases.LockCountIsOwed` | decentralized-api/broker/broker.go:473-586 | Over every run the lock count equals leases plus queued releases plus unrecorded grants if and only if nothing was owed when the node was registered, and is then never negative; grants equal releases exactly when nothing is owed. |
| `BrokerLeases.StepConserves` | decentralized-api/broker/node_lock.go:29-99 | Every step of asking, executing, recording, holding, draining, evicting, releasing and registering keeps the books. |
| `BrokerLeases.OwedAfter` | decentralized-api/broker/broker.go:473-586 | Only executing a lock adds to what a node is owed, only executing a release takes from it, by one. |
| `BrokerLeases.GrantRespectsLimit` | decentralized-api/broker/broker.go:473-567 | A lock count grows only by a grant, by one, to at most the maximum, on a least busy available node. |
| `BrokerLeases.ReRegisteringLosesTheLease` | decentralized-api/broker/node_admin_commands.go:135-163 | A run from a fresh broker: a lease is granted and given up, the node is registered again before the queued release is executed, and its lock count goes to -1. |
| `BrokerLeases.GetLeastBusyNode` | decentralized-api/broker/broker.go:489-567 | Returns an available, not skipped node of minimal lock count, or none exactly when there is none or the chain state is not synced. |
| `BrokerLeases.LeaseTable.Record` | decentralized-api/broker/node_lock.go:29-59 | Adds one lease and keeps the others: one more grant of that node, and none of any other. |
| `BrokerLeases.LeaseTable.Release` | decentralized-api/broker/node_lock.go:62-73 | Takes the lease out and names its node, which then has one grant less and no other node a different number, or reports that there is none; a second release finds nothing. |
| `BrokerLeases.LeaseTable.EvictExpired` | decentralized-api/broker/node_lock.go:78-99 | Exactly the expired leases go, and each gives up its node once. |
| `ChainFallback.FallbackConn.RouteNext` | common/chain/fallback.go:78-90 | Direct before fallback, RPC while probing or before the probe time, otherwise one direct call that owns the probe. |
| `ChainFallback.FallbackConn.Enter` | common/chain/fallback.go:94-103 | Switches to RPC and sets the probe time, and says whether this call made the switch. |
| `ChainFallback.FallbackConn.ProbeSucceeded` | common/chain/fallback.go:105-111 | Leaves RPC mode and ends the probe. |
| `ChainFallback.FallbackConn.ProbeFailed` | common/chain/fallback.go:113-118 | Stays in RPC mode, ends the probe and restarts the interval. |
| `ChainFallback.FallbackConn.ProbeNoVerdict` | common/chain/fallback.go:123-127 | Ends the probe and changes neither mode nor probe time. |
| `ChainFallback.EveryRunIsDisciplined` | common/chain/fallback.go:129-180 | In every interleaving at most one probe is outstanding, probing holds exactly while one call owns it and only in RPC mode, RPC mode is left only by an answered probe, and no probe starts within the interval of the switch or the last failed probe. |
| `ChainFallback.ProbeIffDue` | common/chain/fallback.go:78-90 | A call becomes the probe if and only if RPC mode is on, no probe runs and the interval has passed; an inconclusive probe moves neither. |
| `ChainFallback.FreshConnIsGood` | common/chain/fallback.go:78-90 | A new connection meets the run invariant. |
| `BandwidthLimiting.EveryWindowStaysWithinLimit` | decentralized-api/internal/bandwidth_limiter.go:43-82 | In every run in which no check passes between another request's check and record, every window of L+1 completion blocks holds at most limit*(L+1) kilobytes and, while counted, at most max*(L+1) inferences. |
| `BandwidthLimiting.WindowsStayWithinLimitIffRoom` | decentralized-api/internal/bandwidth_limiter.go:43-82 | Over every interleaving of checks, records, releases and cleanups from a new limiter, every window stays within the limit all through the run if and only if every passing check has room for its request beside those recorded and those checked and not yet recorded. |
| `BandwidthLimiting.CheckKeepsLimitIffRoom` | decentralized-api/internal/bandwidth_limiter.go:43-82 | One passing check keeps every window within the limit if and only if it has that room in the window it looks at. |
| `BandwidthLimiting.CommittedGetsRecorded` | decentralized-api/internal/bandwidth_limiter.go:222-229 | Requests counted as checked and not yet recorded are on the books, in the same windows, once their records are made. |
| `BandwidthLimiting.WindowsExceedLimitByOverlap` | decentralized-api/internal/bandwidth_limiter.go:222-245 | With checks and records interleaved in any way, a window exceeds its limit by at most what was checked and not yet recorded when a later check passed. |
| `BandwidthLimiting.OverlappingChecksOvershoot` | decentralized-api/internal/bandwidth_limiter.go:43-82 | Two requests checked before either is recorded fill the window twice; the first check has room beside what is committed and the second has not. |
| `BandwidthLimiting.RunKeepsBounded` | decentralized-api/internal/bandwidth_limiter.go:222-292 | Every run of checks, records, releases and cleanups keeps the bound on recorded and checked requests together. |
| `BandwidthLimiting.CleanupIsInvisible` | decentralized-api/internal/bandwidth_limiter.go:256-292 | Leaving every cleanup out of a run changes none of its admission decisions. |
| `BandwidthLimiting.DecidesByLedger` | decentralized-api/internal/bandwidth_limiter.go:43-82 | An admission decides by the requests really open, whatever was collected before. |
| `BandwidthLimiting.CheckedWindowFits` | decentralized-api/internal/bandwidth_limiter.go:43-82 | When a check passes, what is really open in the window and the new request are within the limit. |
| `BandwidthLimiting.NewLimiterIsBounded` | decentralized-api/internal/bandwidth_limiter.go:320-334 | An empty limiter meets the run invariants. |
| `BandwidthLimiting.AverageForm` | decentralized-api/internal/bandwidth_limiter.go:57-60 | The comparison of per-block averages is the comparison of totals with limit times window. |
| `BandwidthLimiting.BandwidthLimiter.constructor` | decentralized-api/internal/bandwidth_limiter.go:294-347 | Zero parameters take their defaults; the books start empty. |
| `BandwidthLimiting.BandwidthLimiter.CanAcceptRequest` | decentralized-api/internal/bandwidth_limiter.go:43-82 | The two summing loops accept exactly when both windows have room; the estimate comes from both token counts. |
| `BandwidthLimiting.BandwidthLimiter.RecordRequest` | decentralized-api/internal/bandwidth_limiter.go:222-229 | Charges the completion block, and only it, on both books. |
| `BandwidthLimiting.BandwidthLimiter.ReleaseRequest` | decentralized-api/internal/bandwidth_limiter.go:231-245 | Discharges that block; entries that reach zero or less are deleted. |
| `BandwidthLimiting.BandwidthLimiter.Latest` | decentralized-api/internal/bandwidth_limiter.go:260-271 | The maximum of the blocks and the starting value. |
| `BandwidthLimiting.BandwidthLimiter.CleanupOldEntries` | decentralized-api/internal/bandwidth_limiter.go:256-292 | Removes exactly the entries older than two lifespans before the newest block of both books. |
| `WeightDistribution.DistributionMeetsTarget` | decentralized-api/poc/commit_worker.go:371-420 | With every float64 operation off by a relative error of at most 2^-53, for all counts whose sum fits 32 bits and any map order the weights sum to exactly the target and each node gets its truncated share or one unit more. |
| `WeightDistribution.TargetMetIffNoWrap` | decentralized-api/poc/commit_worker.go:371-420 | With more units than nodes and products whose sum stays within 32 bits, the weights meet the target if and only if the 32-bit sum of the counts did not wrap. |
| `WeightDistribution.WrappedSharesOvershoot` | decentralized-api/poc/commit_worker.go:394-412 | Shares scaled by a wrapped sum exceed the target. |
| `WeightDistribution.TotalIgnoresOrder` | decentralized-api/poc/commit_worker.go:371-374 | The sum does not depend on the iteration order of the map. |
| `WeightDistribution.ScaledSumNearTarget` | decentralized-api/poc/commit_worker.go:394-412 | Truncated shares never exceed the target and fall short by at most one unit per node. |
| `WeightDistribution.SharesAreProportional` | decentralized-api/poc/commit_worker.go:394-412 | Each share is the count times one common ratio, truncated after one rounding, and that ratio takes the sum to the target up to one rounding. |
| `WeightDistribution.BumpFirstAdds` | decentralized-api/poc/commit_worker.go:414-418 | The top-up adds every missing unit, and with at most one per node nobody gets two. |
| `WeightDistribution.TopUp` | decentralized-api/poc/commit_worker.go:414-418 | The loop hands out the missing units round robin, none when nothing is missing. |
| `WeightDistribution.SumCounts` | decentralized-api/poc/commit_worker.go:371-374 | The 32-bit sum is the true sum modulo 2^32. |
| `WeightDistribution.ScaleAll` | decentralized-api/poc/commit_worker.go:402-412 | One truncated share per node in key order and their 32-bit sum. |
| `WeightDistribution.GetWeightDistribution` | decentralized-api/poc/commit_worker.go:363-421 | The whole operation with its three error cases follows the specification the lemmas are about: map order for the sum and the equal branch, sorted order for scaling. |
| `WeightDistribution.EqualBranchExactIffNoWrap` | decentralized-api/poc/commit_worker.go:380-389 | When the 32-bit sum equals the target the weights meet it if and only if the sum did not wrap. |
| `WeightDistribution.WrappingDistribution` | decentralized-api/poc/commit_worker.go:371-389 | Two counts whose sum wraps onto a given target: they are returned as they are and miss it. |
| `WeightDistribution.ScalingByWrappedSumMisses` | decentralized-api/poc/commit_worker.go:391-420 | Three counts of 2^31 wrap, and the scaled weights miss every target from 4 to 1431655765. |
| `WeightDistribution.WrappedSumMissesTarget` | decentralized-api/poc/commit_worker.go:391-420 | Scaling by a wrapped sum hands out more than the target. |
| `WeightDistribution.WrapsCanCancel` | decentralized-api/poc/commit_worker.go:391-420 | The same three counts with target 2^32-1 meet it, as 0, 0 and 2^32-1, because the sum of the shares and two topped-up weights wrap too. |
| `WeightDistribution.TopUpCanHide` | decentralized-api/poc/commit_worker.go:391-420 | One unit over wrapping counts that earn no share of their own is met by the top-up alone. |
| `RuntimeConfig.ClientsFollowPublisher` | common/runtimeconfig/server.go:83-147 | In every run with careful publications a client at the published height holds the published content, and a client blocked on the open channel has seen every finished publication. |
| `RuntimeConfig.UnchangedMeansCurrent` | common/runtimeconfig/server.go:105-127 | An immediate Unchanged, and the decision to wait, go only to a client that holds what is published at that moment. |
| `RuntimeConfig.AnnouncementReachesClient` | common/runtimeconfig/server.go:136-139 | Announcing an unseen publication takes a blocked client to the published content. |
| `RuntimeConfig.PublicationAgreesIffCareful` | decentralized-api/apiconfig/runtime_config_publish.go:120-128 | For an up-to-date client a publication keeps agreement if and only if new content comes with a larger height. |
| `RuntimeConfig.StalledRevisionNeverArrives` | decentralized-api/apiconfig/runtime_config_publish.go:120-128 | Content published without a larger height never reaches an up-to-date client, in any run, until a publication raises the height. |
| `RuntimeConfig.StalledRevision` | decentralized-api/apiconfig/runtime_config_publish.go:120-128 | A five-step run in which two revisions share a height and a client disagrees with the publisher. |
| `RuntimeConfig.PublishKeepsSafe` | decentralized-api/apiconfig/runtime_config_publish.go:91-137 | A careful publication keeps the invariant although waiters are notified only later. |
| `RuntimeConfig.RunKeepsSafe` | common/runtimeconfig/server.go:83-147 | Every run with careful publications keeps the invariant tying heights to contents. |
| `RuntimeConfig.SlicesEqual` | decentralized-api/apiconfig/runtime_config_publish.go:57-79 | The loop decides equality of the two lists. |
| `RuntimeConfig.ContentEqual` | decentralized-api/apiconfig/runtime_config_publish.go:45-55 | The field-by-field comparison forgets no field. |
| `RuntimeConfig.Notifier.Notify` | decentralized-api/apiconfig/runtime_config_notifier.go:26-31 | Closes the current channel once and installs a fresh open one. |
| `RuntimeConfig.ConfigManager.ApplyIfChanged` | decentralized-api/apiconfig/runtime_config_publish.go:91-149 | Publishes unless epoch and content are unchanged, never lowers the height, and wakes the waiters exactly when it published. |
| `EscrowLoad.CountsAreExact` | decentralized-api/broker/escrow_load.go:67-86 | For any decay, any nondecreasing clock that is never 0 and any trace, the one number kept per escrow is the decayed sum over all acquires since its last eviction. |
| `EscrowLoad.CountsUnderAnyClock` | decentralized-api/broker/escrow_load.go:75-85 | For any clock that is never 0, also when acquires that read it before taking the lock are applied out of order, the number is the sum over those acquires, each decayed by the forward movement of the clock since. |
| `EscrowLoad.SnapshotIsExact` | decentralized-api/broker/escrow_load.go:104-117 | The number read at a snapshot is that sum at the time of looking. |
| `EscrowLoad.ListedIffRecent` | decentralized-api/broker/escrow_load.go:104-117 | A snapshot lists an escrow if and only if its latest acquire in the whole past lies within the window. |
| `EscrowLoad.WeightedShifts` | decentralized-api/broker/escrow_load.go:122-127 | Moving the reading time multiplies the whole sum by one factor. |
| `EscrowLoad.BumpExactIff` | decentralized-api/broker/escrow_load.go:79-85 | An acquire keeps the number exact if and only if the previous one was not at clock reading 0 or no decay was due. |
| `EscrowLoad.AcquireAtZeroOvercounts` | decentralized-api/broker/escrow_load.go:79-85 | With an acquire at clock reading 0 the number overcounts. |
| `EscrowLoad.EscrowLoadTracker.constructor` | decentralized-api/broker/escrow_load.go:45-54 | A non-positive window becomes thirty minutes. |
| `EscrowLoad.EscrowLoadTracker.Record` | decentralized-api/broker/escrow_load.go:67-86 | Ids that are not unsigned 64-bit decimals are ignored; any other decays and bumps its own entry only. |
| `EscrowLoad.EscrowLoadTracker.LoadOf` | decentralized-api/broker/escrow_load.go:111-115 | The rate times the minutes of the window is the decayed count. |
| `EscrowLoad.EscrowLoadTracker.Snapshot` | decentralized-api/broker/escrow_load.go:90-118 | Evicts exactly the idle escrows and lists every other once with its rate. |
| `SigningPayload.DecodeInverts` | decentralized-api/poc/proof_client.go:422-449 | A decoder that knows the root length recovers every field, for all lengths below 2^32. |
| `SigningPayload.DecodeByNonceInverts` | decentralized-api/poc/proof_client.go:453-480 | The same for by-nonce strings behind their tag. |
| `SigningPayload.LeafBytesDetermineRequest` | decentralized-api/poc/proof_client.go:422-449 | Equal leaf-index strings come from equal requests, for roots of one length. |
| `SigningPayload.NonceBytesDetermineRequest` | decentralized-api/poc/proof_client.go:453-480 | Equal by-nonce strings come from equal requests, for roots of one length. |
| `SigningPayload.RootLengthMatters` | decentralized-api/poc/proof_client.go:436-441 | With roots of different length two requests share a string. |
| `SigningPayload.KindsSeparateIffNotTagHeight` | decentralized-api/poc/proof_client.go:453-480 | A leaf-index string can equal a by-nonce string at exactly one stage height, the one spelled by the tag's length and first four characters. |
| `SigningPayload.KindsSeparate` | decentralized-api/poc/proof_client.go:453-480 | For stage heights from 0 to below 2^61 no leaf-index string is a by-nonce string, whatever the lengths. |
| `SigningPayload.TagHeightCollides` | decentralized-api/poc/proof_client.go:453-480 | Well-formed requests that do collide at that height. |
| `SigningPayload.LeRoundTrip` | decentralized-api/poc/proof_client.go:434-442 | Little-endian numbers read back as written. |
| `SigningPayload.BuildProofSignPayload` | decentralized-api/poc/proof_client.go:422-449 | The buffer hashed is the specified leaf-index string. |
| `SigningPayload.BuildProofByNonceSignPayload` | decentralized-api/poc/proof_client.go:453-480 | The buffer hashed is the specified by-nonce string, tag first. |
| `SigningPayload.WriteLengthPrefixed` | decentralized-api/poc/proof_client.go:484-487 | Appends the 32-bit length and the bytes. |
| `SigningPayload.WriteItems` | decentralized-api/poc/proof_client.go:439-441 | Appends the items in order, four bytes each. |
| `LeafSampling.LazySample` | decentralized-api/poc/validator.go:984-1007 | The lazy swap map yields the front of the full Fisher-Yates shuffle and holds at most two entries per draw. |
| `LeafSampling.SampleLeafIndices` | decentralized-api/poc/validator.go:960-1008 | Different indices below the count, as many as asked for or all of them; none for an empty tree or a non-positive size. |
| `LeafSampling.SampleIsDistinct` | decentralized-api/poc/validator.go:993-1007 | For all draws the sample has no repeats and stays in range. |
| `LeafSampling.EverySampleIsDrawn` | decentralized-api/poc/validator.go:993-1007 | Every ordered sample is the outcome of some draws. |
| `LeafSampling.SampleDeterminesDraws` | decentralized-api/poc/validator.go:993-1007 | Different draws give different samples, so uniform draws sample uniformly. |
| `LeafSampling.ShuffledIsPermutation` | decentralized-api/poc/validator.go:993-1007 | Whatever the draws, the shuffled sequence holds each index once. |
| `Coverage.CoveredIff` | decentralized-api/poc/proof_client.go:308-334 | Equal length, no repeats and nothing foreign hold if and only if the response is a bijection with a request without repeats. |
| `Coverage.ValidateLeafCoverage` | decentralized-api/poc/proof_client.go:308-334 | Accepts exactly the bijections with a repeat-free request; anything else is incomplete coverage. |
| `Coverage.RepeatedRequestIsRejected` | decentralized-api/poc/proof_client.go:308-334 | A request with repeats is never satisfied. |
| `Coverage.ValidateNonceCoverage` | decentralized-api/poc/proof_client.go:336-366 | Accepts exactly equal sets without repeats; a proper subset without repeats is an absent nonce, everything else incomplete coverage. |
| `Coverage.CheckDuplicateNonces` | decentralized-api/poc/proof_client.go:295-304 | Reports a duplicate exactly when two artifacts share a nonce. |
| `Coverage.VerifyItems` | decentralized-api/poc/proof_client.go:186-193 | All items verified in order, or the first failure. |
| `Coverage.FetchAndVerifyProofs` | decentralized-api/poc/proof_client.go:165-198 | Transport failure, then coverage failure, then the first item failure, otherwise the verified items. |
| `Coverage.FetchAndVerifyProofsByNonce` | decentralized-api/poc/proof_client.go:259-290 | The same with nonce coverage. |
| `Coverage.CheckInclusion` | decentralized-api/poc/early_guard.go:424-505 | Outcome by phase: permanent failures vote no, our own failures abstain, the rest retry, a changed vector votes no. |
| `Coverage.PassMeansIncluded` | decentralized-api/poc/early_guard.go:424-505 | A pass on a non-empty sample means the early items answer it one to one and, with distinct nonces, each has exactly one final artifact, with the same vector. |
| `Coverage.AllSurviveIffConsistent` | decentralized-api/poc/early_guard.go:470-502 | After a pass every early artifact survives unchanged if and only if no nonce stands for two vectors in the sample. |
| `Coverage.RepeatedNoncePasses` | decentralized-api/poc/early_guard.go:470-502 | Two sampled leaves with one nonce and two vectors pass the inclusion check with one final artifact, and the first vector is lost. |
| `Coverage.IndexByNonce` | decentralized-api/poc/early_guard.go:470-475 | The map keeps the last vector of each nonce; the list keeps every nonce in order. |
| `Coverage.CompareVectors` | decentralized-api/poc/early_guard.go:497-504 | Passes exactly when every final vector is the one kept for its nonce. |
| `Coverage.Decide` | decentralized-api/poc/early_guard.go:400-419 | Passes exactly when the share is high enough and a required inclusion check passed; a failed inclusion check comes first. |
| `NodeCache.NewWindows` | common/nodemanager/manager.go:72-90 | The retirement age is at least an hour and at least the live-flow window. |
| `NodeCache.RunKeepsWellKept` | common/nodemanager/manager.go:115-243 | In every run the order is duplicate-free with exactly the cached ids, the cursor is a place in it, and a model with a node keeps one. |
| `NodeCache.ObserveKeepsWellKept` | common/nodemanager/manager.go:115-144 | Observing keeps order and map in step. |
| `NodeCache.PruneIsExact` | common/nodemanager/manager.go:209-243 | Pruning removes exactly the nodes past retirement, only while the model has a live flow, and never empties a model. |
| `NodeCache.PruneKeepsOrder` | common/nodemanager/manager.go:217-233 | Survivors keep their relative order. |
| `NodeCache.PickIsRight` | common/nodemanager/manager.go:151-194 | A pick succeeds if and only if a node is not excluded, gives no excluded node, and gives one past retirement only when no other candidate is left. |
| `NodeCache.RoundRobin` | common/nodemanager/manager.go:171-191 | While the eligible nodes stay the same, as many picks as there are of them, one at a time, visit each exactly once, from any cursor and under any exclusions. |
| `NodeCache.AllFreshRoundRobin` | common/nodemanager/manager.go:171-191 | n picks one at a time over n fresh nodes without exclusions visit each node once. |
| `NodeCache.OverlappingPickIsRight` | common/nodemanager/manager.go:161-191 | A pick that searches from a cursor another pick has moved since is still right and leaves the cache well kept. |
| `NodeCache.OverlappingPicksCollide` | common/nodemanager/manager.go:171-191 | Two picks that load the cursor before either stores it give the same node. |
| `NodePicks.DistinctIffAlone` | common/nodemanager/manager.go:161-191 | Over every run with the load and the store of the cursor as steps of their own, and while the eligible nodes stay the same, at most as many finished picks as there are of them give different nodes if and only if no pick loads while another is between its load and its store. |
| `NodePicks.EachVisitedIffAlone` | common/nodemanager/manager.go:161-191 | As many finished picks as there are eligible nodes visit each of them once under exactly that condition. |
| `NodePicks.TwoLoadsCollide` | common/nodemanager/manager.go:171-191 | Two picks that load before either stores give the same node. |
| `NodePicks.StoreIsPick` | common/nodemanager/manager.go:171-191 | A finished pick of such a run is the cache's pick from the cursor it had loaded. |
| `NodeCache.ModelCache.constructor` | common/nodemanager/manager.go:72-90 | An empty, well-kept cache with the clamped windows. |
| `NodeCache.ModelCache.ObserveNode` | common/nodemanager/manager.go:115-144 | Refreshes a known node or appends a new one; empty id or endpoint is ignored. |
| `NodeCache.ModelCache.Scan` | common/nodemanager/manager.go:174-191 | One pass finds the first accepted node going round from the cursor. |
| `NodeCache.ModelCache.PickNode` | common/nodemanager/manager.go:151-194 | The two passes give the pick and cursor the lemmas are about. |
| `NodeCache.ModelCache.HasFreshNode` | common/nodemanager/manager.go:247-255 | True exactly when some node was seen within the live-flow window. |
| `NodeCache.ModelCache.Compacted` | common/nodemanager/manager.go:218-233 | Writing survivors over the slice being read yields exactly the filtered order. |
| `NodeCache.ModelCache.PruneNodes` | common/nodemanager/manager.go:209-243 | Pruning as specified, the cursor reduced to the new length. |
| `Capacity.CountersTrackHolders` | common/nodemanager/capacity.go:377-520 | In every run of acquires, matched releases and polls a counter is between 0 and the true outstanding count; counters of unknown nodes are always exact. |
| `Capacity.ExactIffNeverDropped` | common/nodemanager/capacity.go:222-253 | A counter is exact all through a run if and only if no poll of the run finds it above zero and leaves its node out. |
| `Capacity.UnlistedHolderIsLost` | common/nodemanager/capacity.go:514-520 | A node is listed, acquired and left out of the next poll: its holder is no longer counted. |
| `Capacity.ExactWhileListed` | common/nodemanager/capacity.go:222-253 | While no poll drops a counter it is exact and nothing is lost for it. |
| `Capacity.GoneMeansExact` | common/nodemanager/capacity.go:430-442 | Once all holders are gone nothing is counted and nothing is lost. |
| `Capacity.AcquireRespectsShare` | common/nodemanager/capacity.go:377-427 | An acquire succeeds if and only if charged locks plus counted slots leave room, and then the slots really outstanding exceed the share by no more than what polls lost. |
| `Capacity.UnknownAcquireRespectsShare` | common/nodemanager/capacity.go:448-477 | For unlisted nodes an acquire succeeds if and only if the slots really outstanding are below the share, and never exceeds it. |
| `Capacity.RunAccounts` | common/nodemanager/capacity.go:222-520 | Outstanding is counted plus lost, for every key, in every run. |
| `Capacity.PollIsMerge` | common/nodemanager/capacity.go:222-253 | A poll leaves every node with a usable row, the limits of its last row and the models of all its rows. |
| `Capacity.BumpAdds` | common/nodemanager/capacity.go:500-508 | One more slot adds one to its node's sum and to no other. |
| `Capacity.Divisor` | common/nodemanager/capacity.go:298-317 | The larger of 4 and the number of escrows while the load map is fresh, otherwise 4. |
| `Capacity.CapacityCache.constructor` | common/nodemanager/capacity.go:121-158 | A non-positive synthetic maximum becomes 50; nothing is known or in flight. |
| `Capacity.CapacityCache.InFlightSum` | common/nodemanager/capacity.go:500-508 | The loop sums exactly the counters of the node. |
| `Capacity.CapacityCache.AvailableSlots` | common/nodemanager/capacity.go:394-411 | Share less charged locks less in-flight sum, never negative, 0 for an unknown node. |
| `Capacity.CapacityCache.Acquire` | common/nodemanager/capacity.go:377-389 | Succeeds exactly when a slot is available and then bumps one counter. |
| `Capacity.CapacityCache.ReleaseSlot` | common/nodemanager/capacity.go:430-442 | Takes one from one counter and never goes below zero. |
| `Capacity.CapacityCache.AcquireUnknown` | common/nodemanager/capacity.go:465-477 | The same for unlisted nodes against the synthetic share. |
| `Capacity.CapacityCache.ReleaseUnknownSlot` | common/nodemanager/capacity.go:480-492 | Gives such a slot back. |
| `Capacity.CapacityCache.ApplyPoll` | common/nodemanager/capacity.go:222-253 | Replaces the node table and drops exactly the counters of nodes it no longer lists. |
| `Capacity.CapacityCache.PruneInFlight` | common/nodemanager/capacity.go:514-520 | Keeps exactly the counters of listed nodes. |
| `Capacity.CapacityCache.MarkStale` | common/nodemanager/capacity.go:214-220 | Marks every row stale and changes nothing else. |
| `ModelArgs.MergeIsPrecedence` | decentralized-api/broker/broker.go:1809-1864 | The merged list is the epoch list and then a sublist of the local one without epoch keys; it means the epoch flags and then exactly the local flags whose keys are not epoch keys. |
| `ModelArgs.MergeIsIdempotent` | decentralized-api/broker/broker.go:1809-1864 | Merging again with the same epoch arguments changes nothing. |
| `ModelArgs.MeaningOfKept` | decentralized-api/broker/broker.go:1836-1861 | Filtering the list filters its flags and moves no value to another flag. |
| `ModelArgs.CopyEpoch` | decentralized-api/broker/broker.go:1815-1834 | All epoch arguments are copied and exactly their flags remembered. |
| `ModelArgs.MergeModelArgs` | decentralized-api/broker/broker.go:1809-1864 | The two index loops compute that merge. |
| `ModelArgs.OverrideInForceIff` | decentralized-api/broker/model_deployment.go:25-44 | With an override the arguments mean no --model, one --served-model-name whose value is the governance id and one --revision whose value is the commit exactly when one is given, if and only if neither the id nor a given commit starts with two dashes. |
| `ModelArgs.DashedIdServesNoName` | decentralized-api/broker/model_deployment.go:42 | An id that starts with two dashes is read as a flag of its own and no name is served. |
| `ModelArgs.PlainNamesKeepOverrideInForce` | decentralized-api/broker/model_deployment.go:25-44 | Ids and commits that do not start with two dashes are served and pinned as given. |
| `ModelArgs.RemovedKeepsOtherFlags` | decentralized-api/broker/model_deployment.go:52-76 | No deployment argument is left and every other flag is, in order. |
| `ModelArgs.RemovedIsCleanIffTidy` | decentralized-api/broker/model_deployment.go:52-72 | The removal takes deployment arguments out with all their values if and only if none has more values than it skips. |
| `ModelArgs.LeftoverMoves` | decentralized-api/broker/model_deployment.go:60-69 | A second value of --model or --revision becomes a value of the flag before. |
| `ModelArgs.RemoveDeploymentArgs` | decentralized-api/broker/model_deployment.go:52-72 | The index loop computes that removal. |
| `ModelArgs.SkipValues` | decentralized-api/broker/model_deployment.go:64-66 | Moves to the last value before the next flag. |
| `ModelArgs.ResolveModelDeployment` | decentralized-api/broker/model_deployment.go:25-44 | The deployment the lemmas are about, with and without an override. |
| `PhaseCommands.ShouldMutateIff` | decentralized-api/broker/state_commands.go:97-123 | The check answers no if and only if the loop would change no node and every node out of operation has a preserved model. |
| `PhaseCommands.InferenceCheckIsExact` | decentralized-api/broker/state_commands.go:289-300 | For the return to inference it answers yes exactly when some node changes. |
| `PhaseCommands.DisabledNodeRaisesFalseAlarm` | decentralized-api/broker/state_commands.go:97-123 | A disabled node already on inference makes the check answer yes although the loop changes nothing. |
| `PhaseCommands.SplitCommandsAreAtomic` | decentralized-api/broker/state_commands.go:63-92 | Whatever happens between check and loop, and however often the loop is skipped, every run leaves what whole commands leave that take effect one at a time, at the check if it answers no and at the loop otherwise. |
| `PhaseCommands.LastTimelyCommandDecides` | decentralized-api/broker/state_commands.go:29-287 | After any sequence of commands a node is meant for proof of compute exactly if the last timely command sends it there. |
| `PhaseCommands.LastSenderDecides` | decentralized-api/broker/state_commands.go:68-91 | Its sub-status is that of the last timely command that sent it there. |
| `PhaseCommands.AssignmentIsIdempotent` | decentralized-api/broker/state_commands.go:175-197 | Repeating the loop in the same epoch state changes nothing. |
| `PhaseCommands.Broker.ShouldMutateState` | decentralized-api/broker/state_commands.go:203-228 | The reading loop decides whether some node asks for a change. |
| `PhaseCommands.Broker.AssignAll` | decentralized-api/broker/state_commands.go:272-283 | The assignment loop treats every node as specified, once. |
| `PhaseCommands.Broker.Execute` | decentralized-api/broker/state_commands.go:29-95 | A timely command leaves what the loop would leave, whether or not the loop was skipped; an untimely one changes nothing; the response is sent only when the loop ran. |

## Left out

- Transports and storage: HTTP and gRPC clients, SQL and file storage, chain transactions, logging, metrics and tracing.
- Cryptography: SHA-256, hex, signatures and sparse-Merkle proof verification; the strings before hashing are modelled and item verification is an input.
- The generator behind the leaf sample: its draws are inputs, the seed derivation is not modelled.
- Epoch and confirmation windows: taken as inputs wherever a phase decision needs them.
- 64-bit wrap-around of event sequence numbers, generations and block arithmetic.
- Liveness of reconciliation: it does not hold (`NodeReconcile.MistargetedDispatchWedges`), so only safety is claimed; removing a node and shutting its worker down are not steps of that model, registering it again is.
- HostEventPoll.ExactDelivery: speaks about one client; other waiters are covered by the ring's class invariant.
- BrokerLeases.LockCountIsOwed: request contexts and the chain query behind a lock are reduced to "asked", "answered" and "abandoned".
- BandwidthLimiting.EveryWindowStaysWithinLimit: amounts are exact reals, check heights do not decrease, and lifespan and token prices stay fixed within a run; limits may change. Check and record are separate steps: the exact condition is `WindowsStayWithinLimitIffRoom`, what their overlap costs is `WindowsExceedLimitByOverlap`.
- BandwidthLimiting.BandwidthLimiter.CanAcceptRequest: amounts are exact reals, not float64; the refresh of limits from the chain is not modelled.
- WeightDistribution.DistributionMeetsTarget: assumes the 32-bit sum of the counts does not wrap; `EqualBranchExactIffNoWrap` and `TargetMetIffNoWrap` treat sums that do.
- WeightDistribution.TargetMetIffNoWrap: does not treat a wrapped sum with no more units than nodes, or so far below the target that the sum of the products passes 32 bits: there the target is met or missed by how several wraps fall together (`TopUpCanHide`, `WrapsCanCancel`), and a single product beyond 32 bits converts differently by platform.
- WeightDistribution.GetWeightDistribution: the sorting of the keys itself is not modelled; the two orders of the map are inputs.
- RuntimeConfig.ClientsFollowPublisher: one client, started fresh within one server lifetime; epoch-change listeners and the missing-notifier error are not modelled.
- EscrowLoad.CountsAreExact: needs a nondecreasing clock; `CountsUnderAnyClock` says what is counted otherwise. Decay is any multiplicative function on reals, not float64.
- NodeCache.ModelCache.ObserveNode: the lock-free refresh of a known node is one step with its lookup, so a refresh of a node pruned in between is not lost here; the map from models to caches is left out.
- NodeCache.ModelCache.PickNode: loading, searching and storing the cursor are one step, as in `RoundRobin`; the source holds only a read lock around them, and picks that overlap are the subject of `NodePicks`, where the eligible nodes stay the same.
- Capacity.CountersTrackHolders: polls, acquires and releases are steps under the lock; the divisor read before the lock is a parameter, the observed and unsupported flags are not modelled.
- Coverage.CheckInclusion: retries and the miss-streak state around it are not modelled.
- ModelArgs.ResolveModelDeployment: JSON fingerprints and the comparison with the applied deployment are not modelled.
- PhaseCommands.Broker.Execute: runs check and loop in one call; the lock given up in between is in `SplitCommandsAreAtomic`.
- The payload storage cache, keyed by inference id without the epoch, so that agreement with its backend is not a law of the code; the epoch group data cache, whose size bound holds only for epoch queries that do not decrease; node acquisition helpers and query handlers, which keep no state of their own.
