# CCattler: verified models of the control plane's state machines

CCattler is a container orchestrator made of independent reconcile loops over a shared fact
store. This project models the parts of it whose correctness is an argument over whole runs
and proves those arguments in Dafny. Each module follows one source file:

| module | source file | what is modelled |
|---|---|---|
| `WatchMultiplexing` | `api/watch_multiplexer.go` | one store watch shared by subscribers, two lock levels, cleanup goroutines |
| `EventProjection` | `controllers/event_projector.go` | a resumable log reader with rescans and gap markers |
| `DeltaBuffering` | `controllers/delta_buffer.go` | coalescing of watch events between drains |
| `AliveStates` | `agent/telemetry.go` | read, then compare-and-set, against concurrent writers |
| `Autoscaling` | `controllers/autoscale.go` | pruned histories, hold-back decisions, clamping |
| `ClusterScaling` | `controllers/clusterscale.go` | durable capacity requests, post-commit executor, node cap |
| `CloudRouting` | `controllers/cloud_routes.go` | pending-operation log and its executor |
| `Draining` | `controllers/drain.go` | evictions under disruption budgets shared by draining nodes |
| `CronJobs` | `controllers/cronjob.go` | one job per minute, never two unfinished |
| `Probing` | `agent/probes.go` | startup gate, intervals, thresholds |
| `RateLimiting` | `api/rate_limiter.go` | token buckets and their cleanup |
| `StatusSnapshots` | `api/status_snapshot.go` | binary search and prefix range over sorted keys |

`Options` holds the option type and map lookup, `Listings` sequences that list a set once,
`Lexicographic` the string order that job names and store keys are compared by. Verify with `dafny verify dfyconfig.toml`.

## How the models are built

Loops and in-place updates of the source are methods and classes with loop invariants, each
proved against a specification function or predicate. Concurrency is a state machine: a
`Step` datatype with the regions the code executes atomically, `Enabled`, `Apply`, and runs
as arbitrary sequences of enabled steps. Theorems about runs are stated for every run and
every state of it. Clocks, scan results, provider replies and check outcomes are parameters.
Times are integers or reals, and they do not go back where the property needs a monotone
clock; token counts are reals.

Assumptions about what lies outside the modelled files:

- a watch started at a revision delivers every later event in order until it closes or
  reports a compaction or an overflow (`EventProjection`); nothing of the kind is assumed of
  the watch that feeds the delta buffer;
- the store gives every change of a key a fresh, larger revision (`AliveStates`);
- an auto-node comes alive only while a launching request names it (`ClusterScaling`);
- finished jobs stay finished, one reconcile runs at a time, and nobody else adds a job under
  a name the cronjob has already used (`CronJobs`; names it has not used are free, and
  `OverlapIffForeignSortsLast` says which of them do harm);
- a committed proposal is applied whole, except in `ClusterScaling`, where the runner may
  commit only some of the requests of a batch.

## What turned out not to hold

Where a natural property fails, the code is modelled as it is, a lemma gives the failing
input, and the exact condition is proved.

- One watch per prefix: a delayed cleanup can delete the map entry of a newer watcher, after
  which a prefix has two watches (`TwoWatchesOnOnePrefix`). The open watches stay indexed
  exactly as long as no cleanup deletes another watcher's entry (`IndexedIffOwnEntry`).
- No event lost by the projector: when a transaction commits several events at one revision
  and the watch ends between them, the later ones are neither forwarded nor in a gap
  (`SiblingLost`). A close resumes after that revision, and the gap a rescan reports begins
  after it, so both cut siblings off; `LostOnlyWhenCutOff` says that an event is lost exactly
  there, and `ReportedIffEmitted` that a gap goes unreported exactly when emitting its marker
  failed.
- A drain that is not nil has missed nothing: both stores queue the overflow event only with
  the next matching event, so a drain in between shows nothing of the loss
  (`LossBeforeMark`). `DrainsAreComplete` says at which keys such a drain is right all the
  same, and `CopyFollows` when a consumer's copy is right again.
- A cluster-autoscaler batch with unique keys: a finished `remove-*` request of a node that
  is idle again is put and deleted in one batch, which the runner rejects
  (`RejectedIffRemovalCollides`); while that node stays among the first idle ones, no request
  is created or deleted again (`CollisionWedges`).
- The minimum node count: nodes already under removal are counted as alive, so a second
  removal can go below the minimum (`SecondRemovalBreaksFloor`). `FloorAfterReconcile` gives
  the exact condition on the facts read, `StepKeepsFloorIff` the one for every step of a run,
  also for partial commits and for nodes that changed since they were read.
- Cloud routes that follow the node's instance: replacing the cloud instance of a node
  leaves the provider's route on the old instance (`ReplacedInstanceKeepsOldRoute`), and an
  unreadable pending operation stays; `ConvergesInTwoCycles` states both conditions.
- Invisible cleanup of token buckets: it changes no decision if and only if the cleanup
  interval refills a whole burst (`CleanupInvisibleIff`); the defaults satisfy this.
- Pruned histories under changing windows: an entry pruned under a short window is missing
  under a longer one (`WidenedWindowForgets`). `PruningInvisibleIff` says for which schedules
  of call times and windows the pruned history decides as the full one whatever is
  recommended; fixed and narrowed windows are among them (`NarrowerForgetsNothing`).
- A cronjob beside foreign jobs named `<cronjob>-...`: while its last job is unfinished another
  one is created exactly when a finished foreign name sorts after it
  (`OverlapIffForeignSortsLast`, and `ForeignNameOverlaps` for such a run); foreign names that
  sort below its first job do no harm (`NeverOverlaps`).
- A missing alive-state key untouched since the read: it may have been created and deleted
  meanwhile (`MissingKeyMayComeAndGo`), which happens exactly when another writer put it
  (`MissingUntouchedIff`).

Where the code and its comments disagree the model follows the code: draining evicts one
instance per service from each draining node, not one per service and cycle
(`controllers/drain.go:18-20` against `controllers/drain.go:129-153`), and the alive state
overwrites any unprotected value, not only `alive` (`agent/telemetry.go:58` against
`agent/telemetry.go:80-89`).

## Model

| member | source | states |
|---|---|---|
| WatchMultiplexing.StepKeeps | api/watch_multiplexer.go:47-170 | every atomic step of subscribe, cancel, cleanup and fan-out keeps the invariant that ties map, watchers, subscriptions, channels and the mutex together |
| WatchMultiplexing.SafeInEveryRun | api/watch_multiplexer.go:47-79 | in every interleaving no channel is sent on or closed after its close, a watcher with subscribers is never cancelled, and no subscriber is about to join a cancelled one |
| WatchMultiplexing.ClosedIsLeftAlone | api/watch_multiplexer.go:61-66 | in no reachable state is a send on a closed channel, or a second close, the next step |
| WatchMultiplexing.NoWatchLeaks | api/watch_multiplexer.go:61-76 | once every cleanup has run and the mutex is free, every watch ever opened is cancelled and the map is empty |
| WatchMultiplexing.OfferMeans | api/watch_multiplexer.go:156-170 | an offer sends the latest event to its one subscriber if fewer than 64 are waiting, and otherwise drops it for that subscriber |
| WatchMultiplexing.NoneDroppedIff | api/watch_multiplexer.go:159-164 | a channel has lost events exactly if 64 were waiting at some offer |
| WatchMultiplexing.LogIsTaken | api/watch_multiplexer.go:156-158 | a watcher fans out exactly the events taken off its store watch, in order |
| WatchMultiplexing.DeliversEveryEvent | api/watch_multiplexer.go:156-170 | a registered subscriber with fewer than 64 events waiting at every offer was sent every event since it joined, once and in order, and what it has not consumed is waiting |
| WatchMultiplexing.CleanupNeverStuck | api/watch_multiplexer.go:61-76 | while the mutex is held or a cleanup is unfinished, some finishing step is enabled: the two lock levels do not deadlock |
| WatchMultiplexing.FinishingEnds | api/watch_multiplexer.go:61-76 | every finishing step leaves strictly fewer of them to take |
| WatchMultiplexing.LeavingCancelsEveryWatch | api/watch_multiplexer.go:61-76 | once everyone has cancelled, finishing steps in any order are bounded in number, and when none is left every watch is cancelled and the map empty |
| WatchMultiplexing.IndexedIffOwnEntry | api/watch_multiplexer.go:67-74 | a step keeps all open watches reachable through the map if and only if it does not delete another watcher's entry |
| WatchMultiplexing.OneWatchPerPrefix | api/watch_multiplexer.go:47-79 | a run without such a deletion never has two open watches on one prefix |
| WatchMultiplexing.IndexedIffOneWatch | api/watch_multiplexer.go:47-79 | in every reachable state with a free mutex the open watches are indexed if and only if no prefix has two, now or once the next Subscribe has looked it up |
| WatchMultiplexing.TwoWatchesOnOnePrefix | api/watch_multiplexer.go:61-76 | a run that has two open watches on one prefix |
| EventProjection.WatchPrefixWithReconnect | controllers/event_projector.go:82-151 | the nested loops compute the fold of sessions and ask each watch to start just after the last processed revision |
| EventProjection.LoopRefinesRun | controllers/event_projector.go:82-151 | the projector state of every run against a committing store is the loop's fold over exactly the sessions the run's steps show it, and the events of the open watch |
| EventProjection.WatchesStartWhereAsked | controllers/event_projector.go:93-99 | every watch of a run starts at the position of the start revision the loop computes for that session |
| EventProjection.OpenDelivers | controllers/event_projector.go:93-99 | a new watch will deliver, of the events so far, exactly those after the last processed revision, and none if nothing was processed |
| EventProjection.ForwardedInOrder | controllers/event_projector.go:101-140 | forwarded events are in commit order without duplicates over any closes, overflows, compactions and failed rescans; revisions strictly increase with one event per revision |
| EventProjection.EveryEventAccounted | controllers/event_projector.go:82-173 | from the first forwarded event on, or from the very first after an initial gap, an event passed is forwarded or in a marker's gap, never both, unless an earlier event of its revision was forwarded and it was not |
| EventProjection.LostIffCutOff | controllers/event_projector.go:113-134 | a step loses an event not passed before if and only if it ends a watch that still owes it and its revision is the last processed one |
| EventProjection.LostOnlyWhenCutOff | controllers/event_projector.go:82-173 | in every run an event is neither forwarded nor in a gap if and only if some close or rescan cut it off so |
| EventProjection.NothingLostWithOneEventPerRevision | controllers/event_projector.go:82-173 | with one event per revision every event passed is forwarded or in a gap |
| EventProjection.ReportedIffEmitted | controllers/event_projector.go:157-173 | a revision lies in at most one marker's gap and is reported exactly when that marker was emitted |
| EventProjection.ReportedByRescans | controllers/event_projector.go:157-173 | a revision is reported exactly when some successful rescan whose marker was emitted had it after the last processed and up to the store's revision |
| EventProjection.SiblingLost | controllers/event_projector.go:93-97 | a run that loses an event without a marker |
| DeltaBuffering.DeltaBuffer.AppendEvent | controllers/delta_buffer.go:32-41 | the newest event of a key replaces the tracked one and keeps its first previous fact |
| DeltaBuffering.DeltaBuffer.MarkOverflow | controllers/delta_buffer.go:45-49 | sets the overflow flag and nothing else |
| DeltaBuffering.DeltaBuffer.Drain | controllers/delta_buffer.go:53-69 | nil exactly when an overflow is marked, otherwise each tracked event once in some order; the buffer is empty and unmarked afterwards |
| DeltaBuffering.LastEventDecides | controllers/delta_buffer.go:29-41 | after a replay a key holds the fact of its last event if a put, nothing if a delete, and what it held before if there was none |
| DeltaBuffering.DrainedReplays | controllers/delta_buffer.go:53-69 | drained events, replayed in any order on the earlier store, give the current one, and each names the earlier fact |
| DeltaBuffering.CoalescingEqualsLog | controllers/delta_buffer.go:29-69 | for every consistent log, the drained events replay to what the whole log replays to |
| DeltaBuffering.DrainsAreComplete | controllers/delta_buffer.go:32-69 | in every run, whatever the watch drops, a drain is nil exactly when an overflow was marked since the last one; otherwise it replays every key of which nothing was dropped to its current value and names the earlier fact, and the whole store if nothing was dropped |
| DeltaBuffering.CopyFollows | controllers/delta_buffer.go:32-69 | a consumer that replays drains and rereads after a nil one is right, after every drain, about every key whose latest event since the last nil drain was delivered |
| DeltaBuffering.LossBeforeMark | controllers/delta_buffer.go:45-69 | a drain between a loss and its overflow mark is not nil and does not show the change |
| AliveStates.ProtectedKept | agent/telemetry.go:60-96 | in every run with any concurrent writers the agent never changes a key that holds draining, disabled or unreachable |
| AliveStates.CommitMeansUnchanged | agent/telemetry.go:64-92 | a committed transaction that read an entry found it untouched in every state since the read; one that read none found none |
| AliveStates.MissingUntouchedIff | agent/telemetry.go:65-69 | after a commit that read no entry, the key was missing in every state since the read if and only if no other writer put it |
| AliveStates.MissingKeyMayComeAndGo | agent/telemetry.go:65-69 | a key created and deleted between a read that missed it and the commit goes unnoticed |
| AliveStates.QuietStartup | agent/telemetry.go:60-96 | without other writers the key ends alive exactly when it did not hold a protected state |
| Autoscaling.PruneRecommendations | controllers/autoscale.go:442-448 | drops exactly the leading entries older than the cutoff |
| Autoscaling.Stabilize | controllers/autoscale.go:484-520 | the scans of the history give the hold-or-move decision |
| Autoscaling.ComputeRawHorizontalRecommendation | controllers/autoscale.go:214-257 | the largest recommendation of minimum, metrics, events and schedule, for targets of any sign |
| Autoscaling.RawIsLeastSufficient | controllers/autoscale.go:214-257 | with positive targets that is the least number of instances with which no metric or event source exceeds its target per instance and minimum and schedule are met |
| Autoscaling.ClampedIsNearest | controllers/autoscale.go:184-189 | the clamp gives the count between minimum and maximum nearest to the recommendation |
| Autoscaling.AutoscaleController.ApplyStabilizationWindow | controllers/autoscale.go:464-521 | appends, prunes and decides, for this service only |
| Autoscaling.AutoscaleController.ApplyVerticalStabilization | controllers/autoscale.go:362-409 | the same with the fixed vertical windows of one and five minutes |
| Autoscaling.AutoscaleController.ReconcileService | controllers/autoscale.go:166-198 | the count is the largest recommendation, clamped, recorded, stabilised and activated, and it lies within the policy whatever count was observed |
| Autoscaling.PublishedIsNearest | controllers/autoscale.go:178-198 | what is published is the nearest allowed count, or the observed one held back in a window, and at least 1 on activation |
| Autoscaling.PublishedMeans | controllers/autoscale.go:166-171 | a service is published if and only if it has a metric target, event target or schedule, is being activated, or has minimum zero |
| Autoscaling.ReconcileIsCall | controllers/autoscale.go:184-198 | one reconcile of a service is one call of the runs below, in history and in count |
| Autoscaling.AutoscaleController.BuildHorizontalScalingChanges | controllers/autoscale.go:154-208 | every service not skipped gets that count, every count is within its policy, and the histories stay clamped call after call |
| Autoscaling.DecisionWithin | controllers/autoscale.go:478-520 | a decision over a clamped history is within the policy even when it returns the observed count |
| Autoscaling.StoredExactly | controllers/autoscale.go:474-489 | whatever windows were in force, the stored history holds exactly the recorded entries below no cutoff used at or after them |
| Autoscaling.StoredIsSuffix | controllers/autoscale.go:474-489 | the stored history is the full one without some of its first entries |
| Autoscaling.PrunedDecidesAsFull | controllers/autoscale.go:464-521 | if no entry in the present window's sight was pruned, the pruned history decides as the unpruned one |
| Autoscaling.PruningInvisibleIff | controllers/autoscale.go:464-521 | for a schedule of call times and windows the decisions agree for all recommendations and observed counts if and only if no call in sight lies below a cutoff used at or after it |
| Autoscaling.NarrowerForgetsNothing | controllers/autoscale.go:478-489 | a window no longer than any used for the service so far meets that condition |
| Autoscaling.FixedWindowDecidesAsFull | controllers/autoscale.go:464-521 | with a fixed window the pruned history decides as the full one at every call of every run |
| Autoscaling.VerticalMovesIffSustained | controllers/autoscale.go:362-409 | a vertical value grows exactly when the recommendation and all of the last 60 seconds are above it, and shrinks exactly when those of 300 seconds are below it |
| Autoscaling.MovesIffSustained | controllers/autoscale.go:464-521 | the result is the recommendation or the current count, and a non-zero count moves up (down) exactly when this and every recommendation of the up-window (down-window) is above (below) it |
| Autoscaling.FollowedAtOnce | controllers/autoscale.go:471-493 | without a window, or with nothing running, the recommendation is followed |
| Autoscaling.ReturnedWithinPolicy | controllers/autoscale.go:184-198 | with clamped recommendations every call of every run returns a count within the policy, whatever the windows |
| Autoscaling.WidenedWindowForgets | controllers/autoscale.go:482-489 | three calls, the last with a wider window, after which the stored history moves and the full one holds |
| ClusterScaling.CountInFlightCapacityRequests | controllers/clusterscale.go:171-179 | counts the pending and launching requests |
| ClusterScaling.BuildNewCapacityRequests | controllers/clusterscale.go:267-303 | the loop picks the specified instances |
| ClusterScaling.NewInstancesExact | controllers/clusterscale.go:267-303 | distinct uncovered instances within the limit, short of it only when none is left |
| ClusterScaling.NewInstancesFirst | controllers/clusterscale.go:277-303 | they are the first uncovered ones, all or as many as the limit allows |
| ClusterScaling.SlotsMeant | controllers/clusterscale.go:64-80 | the limit is the maximum, 100 if none is set, less alive auto-nodes and pending or launching requests |
| ClusterScaling.EmitScaleDownRequests | controllers/clusterscale.go:322-361 | the loop picks the specified nodes |
| ClusterScaling.RemovalExact | controllers/clusterscale.go:322-361 | one reconcile removes exactly the first eligible idle nodes: all of them, or as many as are alive above the minimum |
| ClusterScaling.RemovalKeepsCount | controllers/clusterscale.go:322-361 | it removes idle nodes only, each once, none under removal and none without a minimum, and leaves the minimum of the nodes it counts, those under removal included |
| ClusterScaling.FloorAfterReconcile | controllers/clusterscale.go:333-358 | after one reconcile the alive nodes not under removal are at least the minimum if and only if that many were alive and none was under removal, or those under removal and all eligible ones fit above the minimum |
| ClusterScaling.SecondRemovalBreaksFloor | controllers/clusterscale.go:333-358 | three nodes alive, a minimum of two, one removal under way: a second is chosen and one node is left |
| ClusterScaling.StepKeepsFloorIff | controllers/clusterscale.go:64-104 | with the minimum serving, any step leaves it serving if and only if it is a commit whose kept removals take no more serving nodes than can be spared, the loss of a doomed or spare node, or any other step |
| ClusterScaling.FloorAfterWholeCommit | controllers/clusterscale.go:64-104 | what a whole commit leaves serving, counted from the nodes as read, the serving ones lost since and those gained |
| ClusterScaling.FloorIffRoomInRun | controllers/clusterscale.go:64-104 | over current nodes a whole commit leaves the minimum serving if and only if the doomed nodes are among the first eligible ones, or doomed and eligible nodes fit above the minimum |
| ClusterScaling.FloorKeptInEveryRun | controllers/clusterscale.go:64-104 | every run of such steps, with stale reads and partial commits, keeps the minimum serving |
| ClusterScaling.CleanupReadyCapacityRequests | controllers/clusterscale.go:389-399 | lists the requests to delete |
| ClusterScaling.FinishedIdsExact | controllers/clusterscale.go:389-399 | exactly the ready and failed requests, each once |
| ClusterScaling.Reconcile | controllers/clusterscale.go:64-80 | the proposal is the specified batch |
| ClusterScaling.BatchExact | controllers/clusterscale.go:64-80 | which change of which request is in a batch, and why |
| ClusterScaling.ScaleUpPutsAndDeletesDisjoint | controllers/clusterscale.go:64-80 | no batch both puts and deletes a scale-up request |
| ClusterScaling.RejectedIffRemovalCollides | controllers/runner.go:760-774 | a batch has a key twice exactly when it removes a node whose finished removal it cleans up |
| ClusterScaling.CapacityExecutor.TransitionCapacityRequest | controllers/clusterscale.go:483-503 | changes state and node of this request only |
| ClusterScaling.CapacityExecutor.ExecutePostCommitOperations | controllers/clusterscale.go:85-104 | every listed request goes through its execution step, the others stay |
| ClusterScaling.ScaleUpLifecycle | controllers/clusterscale.go:424-458 | executing a pending scale-up request makes it launching on the node the provider names, or failed if the provider refuses; executing a launching one makes it ready exactly when its node is alive; commits create it and delete it when ready or failed; nothing else changes it |
| ClusterScaling.ExecutedRemoval | controllers/clusterscale.go:462-479 | executing a removal makes it ready if and only if it names a node and the provider removes it, failed otherwise, and changes no other request |
| ClusterScaling.CommitMeans | controllers/clusterscale.go:64-80 | a batch that is not rejected puts new and chosen requests and deletes ready and failed ones, as far as kept, and leaves the others |
| ClusterScaling.CountedAtLeastCommittal | controllers/clusterscale.go:171-215 | the code's count, with its double counting and stale node reading, is at least the nodes no launching request names plus the requests in flight |
| ClusterScaling.LoadWithinCommittal | controllers/clusterscale.go:171-190 | which is at least the alive auto-nodes plus the requests that may still add one |
| ClusterScaling.CapKeptInEveryRun | controllers/clusterscale.go:64-104 | both stay within the maximum, 100 if none is set, in every run, whatever nodes the provider names |
| ClusterScaling.LoadKeptInEveryRun | controllers/clusterscale.go:64-104 | alive auto-nodes plus requests that may still add one stay within the maximum in every run that starts with launching requests naming different nodes |
| ClusterScaling.CollisionWedges | controllers/clusterscale.go:64-104 | while a node with a finished removal stays among the first idle ones, no request is created or deleted again, however nodes come and go and whatever is executed |
| ClusterScaling.FailedRemovalCollides | controllers/clusterscale.go:322-399 | one failed removal of an idle node is enough |
| CloudRouting.BuildDesiredRouteMap | controllers/cloud_routes.go:81-98 | a route for every alive node with subnet and instance, and for no other |
| CloudRouting.DesiredUnique | controllers/cloud_routes.go:81-98 | with distinct subnets the map does not depend on iteration order |
| CloudRouting.BuildEnsureRouteChanges | controllers/cloud_routes.go:102-121 | ensure operations for exactly the missing or differing routes |
| CloudRouting.BuildDeleteRouteChanges | controllers/cloud_routes.go:125-139 | delete operations for exactly the routes no longer desired |
| CloudRouting.BuildCleanupStaleRouteChanges | controllers/cloud_routes.go:143-155 | which pending operations are dropped as stale |
| CloudRouting.Reconcile | controllers/cloud_routes.go:65-77 | the proposal is the specified one |
| CloudRouting.ProposalCommits | controllers/cloud_routes.go:65-77 | a proposal touches no key twice, and committing it has the specified effect on every subnet |
| CloudRouting.NothingProposedIff | controllers/cloud_routes.go:65-155 | a proposal is empty if and only if every subnet shows its desired node, or is neither desired nor observed and has no pending ensure |
| CloudRouting.RouteExecutor.ExecutePostCommitOperations | controllers/cloud_routes.go:160-229 | every pending operation is carried out or kept as specified, subnet by subnet |
| CloudRouting.ExecutedMeans | controllers/cloud_routes.go:160-229 | an ensure for a dead node is dropped, a failed call leaves everything for a retry, a successful one is recorded in store and provider, an unreadable operation stays |
| CloudRouting.FailingLeavesRoutes | controllers/cloud_routes.go:194-214 | while calls for a subnet fail no cycle changes what is observed or provided there |
| CloudRouting.PendingUntilDone | controllers/cloud_routes.go:194-214 | over any cycles an operation stays pending until its call succeeds, its node has gone, or Reconcile replaces or drops it |
| CloudRouting.AgreementKept | controllers/cloud_routes.go:65-229 | any run of cycles, with failures and changing facts, keeps provider and observed routes in agreement |
| CloudRouting.ConvergesInTwoCycles | controllers/cloud_routes.go:65-229 | after any history two failure-free cycles make observed routes the desired ones and the next proposal empty; pending operations and provider instances follow under exact conditions |
| CloudRouting.ReplacedInstanceKeepsOldRoute | controllers/cloud_routes.go:102-121 | a replaced instance keeps its old provider route |
| Draining.CountGlobalActiveInstancesByService | controllers/drain.go:257-275 | counts the active unevicted instances of every named service |
| Draining.StandingOfSize | controllers/drain.go:257-275 | that count is the size of the set of standing instances |
| Draining.GroupByService | controllers/drain.go:108-126 | the node's standing instances by service, and their number |
| Draining.EvictInstancesFromNode | controllers/drain.go:96-156 | one eviction per service of the node if and only if the budget allows it at the running count, which it decrements |
| Draining.Reconcile | controllers/drain.go:52-89 | the evictions follow the plan over all draining nodes, and exactly the empty unmarked nodes are completed |
| Draining.NoInstanceTwice | controllers/drain.go:69-86 | no instance is evicted twice in a cycle |
| Draining.EvictsFirstListed | controllers/drain.go:129-150 | of several standing instances of a service on a node the first listed one goes |
| Draining.RespectsMeans | controllers/drain.go:286-309 | what a budget asks for, in terms of its minimum, its maximum and the desired number |
| Draining.BudgetRespected | controllers/drain.go:286-309 | after all evictions of a cycle a service that lost any still has what its budget asks for, and it lost exactly the evictions counted |
| Draining.EvictedIffBudgetLeft | controllers/drain.go:96-156 | a node loses an instance of a service exactly when it has a standing one and the budget still holds with one less than the earlier nodes left |
| Draining.CompletesExactly | controllers/drain.go:72-84 | drain-complete is written for a node exactly when it is draining, unmarked and without standing instances |
| Draining.ProgressIffEvictable | controllers/drain.go:96-156 | with any budgets a cycle leaves fewer standing instances on draining nodes if and only if one of them is evictable |
| Draining.EvictableMeans | controllers/drain.go:286-309 | evictable means standing on a draining node with a service that keeps its budget with one instance less |
| Draining.DrainEndsBlocked | controllers/drain.go:52-89 | with any budgets, after as many cycles as instances were waiting none that is left is evictable |
| Draining.CycleMakesProgress | controllers/drain.go:96-156 | without budgets a cycle strictly reduces the standing instances on draining nodes |
| Draining.DrainCompletes | controllers/drain.go:52-89 | without budgets, repeated cycles empty every draining node, mark it complete, and never mark it again |
| CronJobs.StampOrder | controllers/cronjob.go:130 | timestamps compare as strings as their minutes do |
| CronJobs.NameOrder | controllers/cronjob.go:130 | so do the job names of one cronjob, and they are equal only within one minute |
| CronJobs.NameReads | controllers/cronjob.go:130 | a job name is the cronjob's, a dash, and year, month, day, a dash, hour and minute in fixed width |
| CronJobs.NamedMeans | controllers/cronjob.go:165-170 | a job is taken for the cronjob's if its name is the cronjob's, a dash and anything |
| CronJobs.FindLatestJobForCronJob | controllers/cronjob.go:164-175 | the greatest name among the jobs named for the cronjob, or none |
| CronJobs.ReconcileSingleCronJob | controllers/cronjob.go:82-141 | when a job is created and which status is mirrored |
| CronJobs.OverlapIffForeignSortsLast | controllers/cronjob.go:112-130 | with the last job unfinished, a commit creates another one if and only if the schedule matches in a free minute and the greatest name of its form is a finished job of someone else's sorting after that job |
| CronJobs.StepKeepsIff | controllers/cronjob.go:82-141 | a step keeps at most one job unfinished if and only if it is not such a commit |
| CronJobs.KeptUntilOverlap | controllers/cronjob.go:82-141 | every run beside any foreign jobs keeps at most one job unfinished up to its first such commit |
| CronJobs.NeverOverlaps | controllers/cronjob.go:82-141 | in every state of every run whose foreign names sort below the cronjob's first job, at most one job is unfinished, and it has the greatest name of its jobs |
| CronJobs.OncePerMinute | controllers/cronjob.go:117-139 | in every run beside any foreign jobs no two jobs are created in one UTC minute and names increase |
| CronJobs.CreatesExactlyWhenFree | controllers/cronjob.go:82-141 | in every run a reconcile over fresh facts creates a job exactly when the schedule matches, the minute has none yet and the job with the greatest name is not unfinished |
| CronJobs.MirrorsGreatestJob | controllers/cronjob.go:91-110 | in every run a reconcile over fresh facts leaves the status of the greatest-named job mirrored, if it has one |
| CronJobs.StatusKept | controllers/cronjob.go:91-110 | no other step, and no commit without such a job, changes the mirrored status |
| CronJobs.ForeignNameOverlaps | controllers/cronjob.go:164-175 | a run beside a finished foreign job whose first two matching minutes leave two unfinished jobs exactly when that name sorts after the first job's |
| Probing.ProbeScheduler.ExecuteStartupProbe | agent/probes.go:202-265 | tracker, fact and result after a pass over the startup probe |
| Probing.ProbeScheduler.ExecuteLivenessProbe | agent/probes.go:268-313 | tracker and fact after a pass over the liveness probe |
| Probing.ProbeScheduler.ExecuteReadinessProbe | agent/probes.go:316-361 | tracker and fact after a pass over the readiness probe |
| Probing.ProbeScheduler.ExecuteProbesForInstance | agent/probes.go:131-173 | one pass over all probes of an instance, with the startup gate |
| Probing.CountedReaches | agent/probes.go:287-302 | the counters are the trailing streaks, and at the threshold exactly when the streak is |
| Probing.FactIsVerdict | agent/probes.go:268-361 | for every history the liveness (readiness) fact is the kind of the latest streak that reached its threshold, and checks keep delay and interval |
| Probing.StartupDecidedByFirstStreak | agent/probes.go:202-265 | the first streak to reach its threshold decides startup and is its last check |
| Probing.StartupAbsorbing | agent/probes.go:203-209 | succeeded and failed stay, and no startup check runs after them |
| Probing.StartupGate | agent/probes.go:148-169 | with a startup probe no liveness or readiness check runs unless startup has succeeded |
| Probing.CheckedExactlyWhenDue | agent/probes.go:268-285 | in every run a liveness (readiness) check is made in exactly the passes with an address and startup done that come an interval after the last check, or the initial delay after the first such pass |
| Probing.StartupCheckedExactlyWhenDue | agent/probes.go:202-224 | and a startup check in exactly the passes with an address, before success or failure, by the same rule |
| RateLimiting.RateLimiter.constructor | api/rate_limiter.go:60-66 | a limiter without buckets |
| RateLimiting.RateLimiter.Allow | api/rate_limiter.go:93-120 | admits exactly when a token is available and updates this client's bucket only |
| RateLimiting.RateLimiter.CleanupStale | api/rate_limiter.go:133-143 | drops exactly the buckets idle for longer than the interval |
| RateLimiting.RetryAfterSeconds | api/rate_limiter.go:123-129 | at least one second, long enough to earn a token, and at most a second longer |
| RateLimiting.Budget | api/rate_limiter.go:93-120 | tokens spent and left over any stretch of a run never exceed what was there plus what accrued |
| RateLimiting.RateBound | api/rate_limiter.go:93-120 | at most burst + rate * T requests of a client are admitted in any interval of length T |
| RateLimiting.AdmittedIff | api/rate_limiter.go:93-120 | a request is admitted if and only if the burst is at least one and, from every earlier event on, the client's admitted requests with this one are within burst + rate * time |
| RateLimiting.CleanupInvisible | api/rate_limiter.go:133-143 | if an idle interval refills a burst, cleanups anywhere change no decision |
| RateLimiting.DefaultsCleanInvisibly | api/rate_limiter.go:16-25 | the default constants satisfy that condition |
| RateLimiting.CleanupInvisibleIff | api/rate_limiter.go:133-143 | the condition is necessary, too |
| RateLimiting.RateBoundWithCleanup | api/rate_limiter.go:93-143 | the rate bound for runs with cleanups, under that condition |
| RateLimiting.RateBoundIff | api/rate_limiter.go:93-143 | the rate bound holds in every run with cleanups if and only if the cleanup interval refills a whole burst |
| RateLimiting.RetryIsAdmitted | api/rate_limiter.go:123-129 | a refused client silent for the advised time is then admitted, if and only if the burst is at least one |
| StatusSnapshots.StatusPrefixesDisjoint | api/status_snapshot.go:29-44 | no key starts with two of the fourteen prefixes |
| StatusSnapshots.RequiredPrefixes | api/status_snapshot.go:29-44 | every listed prefix is required except that of the secrets |
| StatusSnapshots.SearchKey | api/status_snapshot.go:115-117 | binary search finds the first key not below the one given |
| StatusSnapshots.LoadStatusFactSnapshot | api/status_snapshot.go:59-88 | fails exactly when a required scan failed, otherwise indexes exactly the scanned facts, sorted and by key |
| StatusSnapshots.RequireCoveredKey | api/status_snapshot.go:93-100 | accepts exactly the keys under a listed prefix |
| StatusSnapshots.Value | api/status_snapshot.go:104-108 | the loaded value of a covered key, the panic otherwise |
| StatusSnapshots.FactsUnder | api/status_snapshot.go:113-123 | exactly the loaded facts with the prefix, in key order |
| StatusSnapshots.FactsUnderIsScan | api/status_snapshot.go:113-123 | over an unchanging store and a successful scan this equals a direct scan |
| StatusSnapshots.ValueIsGet | api/status_snapshot.go:104-108 | and a key lookup equals a direct get |

## Left out

- Parsing of facts into maps, key layouts and value formats: structured values are used except where a property is about strings (job names, status prefixes).
- In-place update and locking of the multiplexer's maps and of the alive-state key: concurrent code is a value state machine whose steps are the locked regions, so no heap aliasing is modelled.
- EventProjection.EveryEventAccounted: assumes a watch without silent gaps; the in-memory store can drop events while it replays history to a new watch, and either store can fit an event in before the overflow event that should precede it.
- Event classification, service-name enrichment and what a forwarded event turns into.
- The runner's cap on the number of changes per cycle, except for `ClusterScaling`, and its retry of a conflicting commit.
- Failed store writes that the code only logs, in the route executor, the capacity executor and the probes.
- Autoscaling.ComputeRawHorizontalRecommendation: exact integer ceilings stand for floating-point ones, and what a platform makes of dividing by a target of zero is a parameter; so is the P95 of the vertical scaler.
- Draining.DrainCompletes: about facts that nothing else changes between cycles and without budgets; with budgets `DrainEndsBlocked` says what is left.
- CronJobs.ReconcileSingleCronJob: the outcome of the cron expression is a parameter, and the new job's image, command and limits are not modelled.
- CronJobs.NeverOverlaps: years have four digits, and `last_scheduled` and the jobs' finished statuses are not deleted or rewritten by others.
- Probing.FactIsVerdict: configuration is fixed during a run; the progress record, the summary health fact and the legacy health check are not modelled.
- SortByKey in `StatusSnapshots` stands for the library sort: its contract is used, not its algorithm.
- HTTP handlers, formatting, cloud providers, leader election, overlay networking, container and volume operations: plumbing or foreign effects without a run-level property here.
