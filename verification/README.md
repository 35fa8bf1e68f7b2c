# Kubescape operator: a verified model

The operator watches a cluster and decides what to scan, when, and how often. This project models the parts of it that
keep state or run concurrently, and proves what they guarantee over every input, every run and every schedule.
`dafny verify dfyconfig.toml` checks everything.

- **Which containers get scanned** (`ContainerUtils`, `PodSlugs`, `PodWatcher`, `ScanDedup`, `ScanOrder`, `ScanRuns`,
  `ScanHistory`, `CollidingKeys`, `ChangedParent`). The pod handler and its two caches are a class that updates them in place; each method is
  proved equal to a turn-by-turn meaning. About that meaning: the caches do not depend on the order of Go's map iteration; the
  commands do not either exactly when no two containers contest a key; nothing is marked covered without a submitted scan;
  commands are bounded by covered keys plus image changes; redelivery is quiet exactly when resolved and reported images agree.
- **Delayed responses** (`ResponsePool`). Inserters, timers, workers and the re-inserting handler as a transition system
  with parametric capacities: exactly when it deadlocks, the tight bound, conservation and timing of the callbacks.
- **The cooldown queue and its pipelines** (`CooldownQueue`, `CommandWatcher`, `Shutdown`, `Relay`). Coalescing as a class with
  a history; the closing protocol and the two watch loops as transition systems, one program counter a goroutine, one step a
  lock or channel operation.
- **Resumable watches** (`WatchRetry`, `WatchPool`). No gap and no repetition across reconnects; the readiness protocol, the
  merged output, and exactly when starting the pool can still finish.
- **Loops over maps** (`ScopedScan`, `Rules`, `RuleBindingCache`, `ServiceDiscovery`, `NameLimit`), each against a naive meaning.

These properties do not hold of the code for all inputs. For each, the exact condition is proved and an input that fails is
given:

- *The order of Go's map iteration does not matter for the commands.* Two containers can share the concatenated key, and the order
  then picks the one to scan: `ScanOrder.CommandsIgnoreOrderExactly`, `CollidingKeys.CollidingKeysExample`.
- *The two caches always say what the events said last.* Only while new images agree with resolved ones and old ones keep their
  keys: `ScanHistory.CachesAgreeExactly`, and `PodWatcher.PodHistoryAgrees` for pods that have this. A pod whose workload changes
  parents does not: `ChangedParent.ChangedParentExample`.
- *The response pool never deadlocks.* `ResponsePool.DeadlockExactly`, `ResponsePool.DeadlockReachable`.
- *The SBOM watch never blocks.* `Relay.EventsBlockSBOMWatchExactly`, `Relay.TwoEventsBlockSBOMWatch`.
- *Stopping a queue is safe.* `Shutdown.StopCanPanicExactly` at the call of Stop if nothing more arrives,
  `Shutdown.StopNeverSafeWhileEventsArrive` if something does, `Shutdown.PanicExactlyIfPending` at the close of the channel,
  `Shutdown.StopWithPendingEventExample`.
- *Resumed watches have no gap.* Always without error events; with them, `WatchRetry.ResumesExactly`,
  `WatchRetry.ErrorLosesChangeExample`.
- *Starting the watch pool returns.* `WatchPool.RunCanReturnExactly`, `WatchPool.CancelledBeforeStartHangs`.
- *A cycle of the service discovery leaves one result for each service.* `ServiceDiscovery.ServicesKeepResultsExactly`,
  `ServiceDiscovery.ServiceKeepsResultExactly`, `ServiceDiscovery.BrokenListingDeletesResult`.
- *Normalised names do not end in a dash*, as the comment at mainhandler/cronjobhandler.go:28 has it. `NameLimit.FixedShape`,
  `NameLimit.FixedIsLabelExactly`, `NameLimit.TrailingDashExample`.

Kubernetes, the storage, the worker pool and the clock are parameters: lookups are fixed answers carried by an event, times are
arguments. The expiring cache is assumed to be a map with deadlines that hands each entry to the callback once, after its
deadline, and whose `Set` never waits for a running callback.

## Model

| member | source | states |
|---|---|---|
| ContainerUtils.ResolvedExactly | utils/utils.go:89-112 | container data can be resolved if and only if the parent is found and the first spec and status of the container in the lists of its kind have an image, and every field is then that of these, of the instance and of the parent |
| ContainerUtils.KeysTellApart | watcher/utils.go:48-50 | keys of two containers of one workload are equal if and only if name and image as one string are; so, name being equal, if and only if the images are, and the other way round; of equal name and image, if and only if the workloads are |
| ContainerUtils.ImageIDWithoutPrefix | utils/utils.go:61-63 | the pull prefix is removed once, and an image ID without it stays |
| ContainerUtils.GetImageFromStatusFinds | utils/utils.go:155-162 | a non-empty image found in a status list is the extracted image of a status with the container's name |
| ContainerUtils.ResolvedImageIsTheNamedStatus | utils/utils.go:134-171 | with unique container names over the three status lists, any status of that name carries the image resolved for the container |
| PodSlugs.MapSlugsToImageIDs | watcher/podwatcher.go:237-243 | the loops over the three lists compute the specified overwriting map |
| PodSlugs.SlugToImage | watcher/podwatcher.go:244-257 | the nested loop over statuses and instances computes the specified overwriting map |
| PodSlugs.MapSlugToInstanceID | watcher/podwatcher.go:259-266 | the loop computes the specified map from slugs to instances |
| PodSlugs.ImagesBySlugMeaning | watcher/podwatcher.go:237-257 | a slug has an image if and only if some status reports one for it, and the image is one so reported |
| PodSlugs.LastReportCounts | watcher/podwatcher.go:237-257 | of several statuses reporting an image for a slug the last counts, over regular, then init, then ephemeral containers |
| PodSlugs.InstancesBySlugMeaning | watcher/podwatcher.go:259-266 | the domain is exactly the slugs of the instances, and each slug maps to an instance with that slug |
| PodSlugs.LastInstanceCounts | watcher/podwatcher.go:259-266 | of several instances with one slug the last counts |
| ScanDedup.EventSettles | watcher/podwatcher.go:97-177 | closed form of an event: after any order of turns both caches are a function of the old caches and the set of visits |
| ScanDedup.EventScansProfiles | watcher/podwatcher.go:141-165 | a no-container slug is on the per-event list exactly when some visit past use cases 5 and 6 has a profile for it |
| ScanDedup.EventSubmits | watcher/podwatcher.go:97-177 | an event submits the command of every visit past use cases 5 and 6 exactly once; containers under one profile share one command |
| ScanDedup.SubmittedCommands | watcher/podwatcher.go:112-208 | an event submits an image scan with given data and pod if and only if a visit with these, past use cases 5 and 6, has no profile; and a profile scan with given workload, name and namespace if and only if such a visit has that profile, no-container slug and namespace |
| ScanDedup.LaterTurnSeesItsOwnSlug | watcher/podwatcher.go:106-140 | earlier turns of an event change nothing about whether a later slug is cached or up to date; only its key can be covered meanwhile |
| ScanOrder.CachesIgnoreOrder | watcher/podwatcher.go:97-177 | any two orders of the loop leave the same two caches |
| ScanOrder.CommandsIgnoreOrderIfKeysDistinct | watcher/podwatcher.go:97-177 | with pairwise distinct keys every order submits the same multiset: one profile scan for each no-container slug with a profile and an eligible visit, one image scan for each eligible visit without |
| ScanOrder.CommandsIgnoreOrderExactly | watcher/podwatcher.go:97-177 | the submitted multiset is the same for every order if and only if no command hinges on which visit with a key comes first |
| CollidingKeys.CollidingKeysExample | watcher/utils.go:48-50 | a concrete pod event with two containers whose concatenated keys collide: its visits are these two, and each order scans another one and never both |
| ScanRuns.NoFalseCoverage | watcher/podwatcher.go:106-177 | over any run, every covered key has a resolved container whose image scan or profile scan was submitted, and every cached slug's image has its key covered |
| ScanRuns.ScanBudget | watcher/podwatcher.go:112-176 | over any run, commands are at most the covered keys plus the image changes on cached slugs, and a key goes through the new-slug path at most once |
| ScanRuns.RedeliveryIsQuietExactly | watcher/podwatcher.go:106-140 | handling an event again, in any order, submits nothing and changes nothing if and only if every visit active the first time resolved to the image reported for its slug |
| ScanHistory.CachedSlugsExactly | watcher/podwatcher.go:106-135 | over any run a slug is cached if and only if some event resolved it |
| ScanHistory.SlugsAgreeExactly | watcher/podwatcher.go:106-135 | at every point of a run the slug cache holds exactly the latest reported image of each resolved slug, if and only if every new image of a slug is also the one resolved for its container |
| ScanHistory.CachesAgreeExactly | watcher/podwatcher.go:99-177 | at every point both caches are given by the history (latest images, and the keys of all containers ever resolved), if and only if moreover each slug that reports its old image has a key known before or coming with a new image |
| ChangedParent.ChangedParentExample | watcher/podwatcher.go:106-111 | a pod event and a second one in which only the parent lookup answers otherwise: names and slugs are in order, the slug cache agrees throughout, but the new key is never covered and nothing is submitted for the new parent |
| ScanHistory.CachesAgreeWithHistory | watcher/podwatcher.go:99-177 | a simpler sufficient condition: resolved and reported images agree, and a slug reporting an image it resolved to keeps its key |
| PodWatcher.VisitsAgree | watcher/podwatcher.go:237-257 | with unique container names and slugs, the image mapped to a slug equals the one in its resolved container data |
| PodWatcher.VisitIsOfInstance | watcher/podwatcher.go:106-166 | a visit carries the reported image, the resolved data, the no-container slug and the profile of the instance with its slug |
| PodWatcher.EveryContainerScanned | watcher/podwatcher.go:79-177 | from empty caches, a pod without profiles gets exactly one image scan, with its own data, for each resolved container, in every order, if no two agree in name and image as one string |
| PodWatcher.RedeliveredPodIsQuiet | watcher/podwatcher.go:106-140 | redelivering the event of such a pod with the same answers submits nothing and changes neither cache, from any caches and in any orders |
| PodWatcher.WatchHandler.HandleSlug | watcher/podwatcher.go:106-177 | the turn's branches change the caches, the per-event list and the submissions as the specified turn does |
| PodWatcher.WatchHandler.HandlePodWatcher | watcher/podwatcher.go:79-179 | visits every slug with an image exactly once, in some order, and ends as the specified event does |
| PodWatcher.PodHistoryAgrees | watcher/podwatcher.go:39-76 | for pods with unique container names and slugs, whose slugs stand for one container of one workload, both caches always agree with the history of the handled events |
| PodWatcher.WatchHandler.PodWatch | watcher/podwatcher.go:39-76 | the handled events are the additions and modifications, young pods without a parent being put off until they are mature and then handled if they still exist; caches and submissions are those of the specified run over them |
| PodWatcher.WatchHandler.Dispatch | watcher/podwatcher.go:43-74 | one input: handled at once, put off with a timer, or dropped, as specified |
| PodWatcher.HandledWhen | watcher/podwatcher.go:43-74 | additions and modifications of pods with a parent, or old enough, are handled at once; of young pods without a parent when the guard time is over, if they still exist, with what the lookups answer then |
| PodWatcher.EventsHandledOnce | watcher/podwatcher.go:39-76 | accepted events = handled + still delayed + gone when their timer fired |
| PodWatcher.NoYoungOrphanHandled | watcher/podwatcher.go:56-71 | whatever is handled came with an accepted event of the same pod, and a pod without a parent has reached the guard time by then |
| PodWatcher.WatchHandler.ScanImage | watcher/podwatcher.go:181-197 | submits one image-scan command with this container's data |
| PodWatcher.WatchHandler.ScanApplicationProfile | watcher/podwatcher.go:199-208 | submits one profile-scan command with this workload, name and namespace |
| ResponsePool.DeadlockExactly | mainhandler/handlecommandresponse.go:47-82 | a reachable pool with work in flight can make no progress, now or later, if and only if all buffers and workers are full and the handler waits to insert |
| ResponsePool.NoDeadlockUpToCapacity | mainhandler/handlecommandresponse.go:47-82 | with 1 to (timers + workers + responses) in flight, every reachable state can progress, for any capacities and worker count |
| ResponsePool.OperatorNeverDeadlocksUpTo120 | mainhandler/handlerequests.go:84-85 | the operator's capacities: no deadlock with 1 to 120 responses in flight |
| ResponsePool.DeadlockReachable | mainhandler/handlecommandresponse.go:47-82 | the bound is tight: with exactly one response more a stuck state is reachable, for any capacities |
| ResponsePool.OperatorDeadlocksWith121 | mainhandler/handlerequests.go:84-85 | the operator's pool deadlocks with 10 timers, 10 waiting workers, 100 due responses and one being inserted |
| ResponsePool.JammedForever | mainhandler/handlecommandresponse.go:47-82 | in a jam only time and new inserters move, and no callback is ever called again |
| ResponsePool.EverythingSettles | mainhandler/handlecommandresponse.go:47-82 | from any point of a run, under every schedule without further insertions: at most six steps for each response in flight and each request for rehandling; when no step is possible any more, everything is finished or the pool is jammed, and within capacity everything is finished |
| ResponsePool.StepWork | mainhandler/handlecommandresponse.go:47-82 | each step of the pool takes exactly one off the work to come, but a request for rehandling adds six; and only insertions put more responses in flight |
| ResponsePool.ResponsesConserved | mainhandler/handlecommandresponse.go:47-82 | over any run each inserted response is in exactly one place, once, or finished; nothing else is anywhere |
| ResponsePool.MovesConserve | mainhandler/handlecommandresponse.go:47-82 | a step between two places neither loses nor duplicates a response |
| ResponsePool.ChannelsAreQueues | mainhandler/handlecommandresponse.go:47-82 | both channels are first in, first out and keep to their capacity, and what leaves one is what a worker or the handler goes on with |
| ResponsePool.HandledInTime | mainhandler/handlecommandresponse.go:47-82 | over any run no callback starts before its response's delay has passed, each later one was asked for by the one before, and a response is finished exactly when its last callback asked for no other |
| ResponsePool.RehandledAfterItsDelay | mainhandler/handlecommandresponse.go:64-82 | the next callback of a response is for the insertion that the last one asked for, made when it returned and with the delay it gave, and starts no earlier than that delay allows |
| ResponsePool.KubescapePolledWhileBusy | mainhandler/kubescapehandler.go:127-157 | a scan is polled again only if it was still busy, and the poll is due exactly 40 seconds after the last one returned, not sooner |
| CooldownQueue.JoinInjective | watcher/cooldownqueue.go:56-63 | joining equally many slash-free parts with slashes is injective |
| CooldownQueue.KeyIdentifiesObject | watcher/cooldownqueue.go:56-63 | two events have one key if and only if group, version, kind, namespace and name are all equal |
| CooldownQueue.KeyText | watcher/cooldownqueue.go:56-63 | the key is group, version, kind, namespace and name with slashes in between; only an object without metadata has none |
| CooldownQueue.Queue.Enqueue | watcher/cooldownqueue.go:72-83 | records the event with a fresh deadline, replacing the one that waits; nothing if closed or without a key |
| CooldownQueue.EnqueueConcernsOneObject | watcher/cooldownqueue.go:72-83 | an enqueue replaces what waits for the same object, with a fresh deadline, and leaves what waits for any other object, be it only of another namespace or name, as it was |
| CooldownQueue.Queue.Evict | watcher/cooldownqueue.go:38-53 | a due entry leaves the cache and its event, the latest one, is emitted; it panics if and only if the queue was closed |
| CooldownQueue.Queue.Stop | watcher/cooldownqueue.go:85-92 | closes the queue and leaves what waits untouched; it panics if and only if the queue was closed before |
| CooldownQueue.EmissionsAreCooled | watcher/cooldownqueue.go:38-83 | each emission delivers the latest event of its key, after a full cooldown in which no other arrived |
| CooldownQueue.KeysAreObjects | watcher/cooldownqueue.go:56-63 | in any history two entries share a key if and only if group, version, kind, namespace and name of their objects are equal |
| CooldownQueue.EventsConserved | watcher/cooldownqueue.go:38-83 | enqueued = emitted + overridden + pending, for each key |
| CooldownQueue.LastWriteWins | watcher/cooldownqueue.go:38-83 | what waits is the event enqueued last; with nothing waiting, the last emitted event is the last enqueued one |
| CooldownQueue.EmissionsAreSubsequence | watcher/cooldownqueue.go:38-83 | a key's emissions are a subsequence of its enqueues |
| CommandWatcher.CommandWatchHandler.RegisterForCommands | watcher/commandswatcher.go:44-46 | adds the receiver; a new one starts with an empty inbox, and no inbox changes |
| CommandWatcher.CommandWatchHandler.AddHandler | watcher/commandswatcher.go:120-145 | every registered receiver gets the command once if it converts, is at most 30 minutes old and not completed; otherwise nobody gets anything |
| CommandWatcher.CommandWatchHandler.CommandWatch | watcher/commandswatcher.go:48-62 | every registered receiver gets the eligible commands of the additions, in order |
| CommandWatcher.ForwardsOwedWindows | watcher/commandswatcher.go:48-62 | the forwarded commands are exactly those of the cooldown windows whose last event is an addition of a command not completed and at most thirty minutes old, once each and in order of emission; a later change or deletion in the window suppresses it |
| CommandWatcher.WatchQueue | watcher/commandswatcher.go:55-61 | queue, watch and receivers together: every registered receiver's inbox grows by the commands of exactly the owed cooldown windows, in order, and no other inbox changes |
| CommandWatcher.WindowOfEmission | watcher/cooldownqueue.go:72-83 | every emission ends a cooldown window whose last event it carries |
| Shutdown.NothingAcceptedIsLost | watcher/cooldownqueue.go:72-92 | in every reachable state the latest accepted event of each object is pending, with the callback, or the last one received for it; with nothing left to deliver it has been received |
| Shutdown.NothingDeliveredTwice | watcher/cooldownqueue.go:38-83 | in every reachable state an event is in cache, callback and receipts together no more often than it was accepted |
| Shutdown.EveryReceivedEventHandled | continuousscanning/service.go:58-78 | the consumer handles the received events one at a time and is at the last one received, if at any |
| Shutdown.EnqueueAcceptsExactly | watcher/cooldownqueue.go:72-83 | an open queue accepts exactly what is enqueued, a closed one nothing |
| Shutdown.ClientEnqueues | watcher/cooldownqueue.go:72-83 | a call of Enqueue on an open queue with the lock free puts the event, in place of an earlier one of its object, into the cache |
| Shutdown.NoSendInProgressAtClose | watcher/cooldownqueue.go:85-92 | when the channel is closed, the callback is not in the middle of a send |
| Shutdown.NothingAcceptedAfterClose | watcher/cooldownqueue.go:72-83 | once closed, always closed, and nothing more is accepted |
| Shutdown.PanicExactlyIfPending | watcher/cooldownqueue.go:38-53 | after the close a send on the closed channel can happen if and only if an event was still in the cache or about to be sent |
| Shutdown.StopCanPanicExactly | continuousscanning/service.go:98-101 | with nothing arriving after the call of the service's Stop, some schedule sends on the closed channel if and only if at the call an event is in the cache, on its way out of it, or being enqueued |
| Shutdown.StopNeverSafeWhileEventsArrive | continuousscanning/service.go:40-51 | with events arriving, some schedule sends on the closed channel whatever the state at the call |
| Shutdown.StopWithPendingEventExample | watcher/cooldownqueue.go:72-92 | a run from the start: one event is enqueued, Stop is called, and the event is still in the cache when the channel is about to be closed |
| Shutdown.NeverStuck | continuousscanning/service.go:37-101 | before, while and after Stop is called: as long as a goroutine is in the middle of something, or Stop has not returned, some lock or channel operation is possible |
| Shutdown.OperationsUseUpWork | continuousscanning/service.go:37-101 | every lock or channel operation decreases the work that is left |
| Shutdown.ShutdownCompletes | continuousscanning/service.go:98-101 | under every schedule without new arrivals the operations are bounded, and when none is possible Stop has returned or the process has panicked |
| Shutdown.QuietShutdownReturns | continuousscanning/service.go:98-101 | with no event unsent at the call of Stop, every complete schedule without arrivals ends with Stop returned and no panic |
| Shutdown.ReachableConsistent | watcher/cooldownqueue.go:65-92 | each lock has the one owner that believes to hold it, and the channel is closed only after the flag |
| Relay.NothingIsLost | watcher/applicationprofilewatcher.go:45-121 | in both loops the latest event of each object is under way or the last one handled for it, and exactly the handled events that deserve an answer got one; at rest the last event of every object was handled, without a queue all events in order |
| Relay.SBOMAnswersExactly | watcher/sbomwatcher.go:85-165 | exactly which SBOM events are answered with a command and which with an error, by type, annotations and image |
| Relay.ProfileAnswersExactly | utils/applicationprofile.go:17-43 | exactly which application-profile events are answered with a command and which with an error |
| Relay.OneThingAtATime | watcher/applicationprofilewatcher.go:46-77 | after an answer, or while it replaces a watcher, the select loop takes nothing until it is done |
| Relay.QueuedNeverStuck | watcher/applicationprofilewatcher.go:45-121 | through the queue the select loop and the handler never block each other: unless at rest, a step is possible |
| Relay.QueuedDrains | watcher/applicationprofilewatcher.go:45-121 | under every schedule without new arrivals the steps are bounded and end at rest |
| Relay.DirectStuckExactly | watcher/sbomwatcher.go:46-132 | the SBOM loop is stuck if and only if the loop sends to the handler while the handler sends to the loop |
| Relay.EventsBlockSBOMWatchExactly | watcher/sbomwatcher.go:46-132 | the SBOM loop can block on a sequence of events if and only if some event other than the last makes the handler answer with a command or an error |
| Relay.TwoEventsBlockSBOMWatch | watcher/sbomwatcher.go:46-132 | from any state at rest, two events in a row block the SBOM loop if the first one makes the handler answer |
| Relay.RestAfter | watcher/sbomwatcher.go:46-132 | any sequence of events can be worked off completely, if they come far enough apart |
| Relay.DirectRecoversExactly | watcher/sbomwatcher.go:46-132 | the SBOM loop can still work off what it has if and only if it does not hold an event while the handler has an answer to give |
| WatchRetry.RetryingWatch.Stream | watcher/watchretry.go:29-52 | while the queue is open every change read is passed on and moves the cursor behind it; how many, how the watch ends, whether the queue is closed then and at which version an error leaves the cursor are determined by the reads; a queue found closed has taken nothing |
| WatchRetry.RetryingWatch.ReadOnce | watcher/watchretry.go:30-51 | one read: what it does to cursor, queue and stretches, and if and how it ends the watch, in the order of the checks |
| WatchRetry.EndExactly | watcher/watchretry.go:36-46 | the read after those that were passed on decides: a queue found closed gives the watch up, an error fails it, a closed channel ends it, and a queue closed while a change was passed on is found closed by the next read |
| WatchRetry.RetryingWatch.WatchRetry | watcher/watchretry.go:23-63 | with neither errors nor a closing queue, the queue grows by exactly the kept events of as many changes as the watches yield, up to the end of the log; in general it has exactly the kept events of the stretches read, a new stretch starting only where an error event says; closing the queue costs at most the two changes read last, unless the last read was an error; a queue closed before is found so by the first read, and only then the watch is given up |
| WatchRetry.ResumesExactly | watcher/watchretry.go:31-46 | what the stretches give is the log without gap, repetition or change of order at all times, if and only if only changes of skipped namespaces lie between where a stretch ended and where the error's status object made the next one start |
| WatchRetry.ErrorLosesChangeExample | watcher/watchretry.go:33-46 | a watch whose first read is an error with the version of the one unread change: afterwards the cursor is behind that change and the queue is empty |
| WatchRetry.KeptIsExact | watcher/watchretry.go:47-51 | the kept events are those outside the skipped namespaces, each once, in the log's order |
| WatchRetry.PositionOfChange | watcher/watchretry.go:31-35 | resuming from a change's version resumes right after that change |
| WatchRetry.PositionExactly | watcher/watchretry.go:31-35 | resuming from a version leaves out exactly the changes with no greater version |
| WatchPool.ReadinessProtocol | continuousscanning/watchbuilder.go:60-107 | the counter is the number of added watches not yet acquired, never negative, and Run has returned only if all were acquired |
| WatchPool.OutputMergesStreams | continuousscanning/watchbuilder.go:44-58 | the output restricted to one watch is what that watch received, in order, complete but for one event in its hand, which it has only while streaming |
| WatchPool.EveryEventGetsThrough | continuousscanning/watchbuilder.go:44-58 | the output channel never holds more than its capacity, and an event in hand gets into it at once or after one receive |
| WatchPool.DeliveredEventGetsThrough | continuousscanning/watchbuilder.go:44-58 | an event that an underlying watch delivers is received next and can be passed on, behind all earlier ones of that watch |
| WatchPool.HealsOrLeaves | continuousscanning/watchbuilder.go:60-93 | after the end of a stream or a failed creation another watch can be acquired, without telling the group again; with the context cancelled the watch is left |
| WatchPool.RunCanReturnExactly | continuousscanning/watchbuilder.go:60-107 | Run can still return if and only if the context is not cancelled, or every watch was acquired already or is just being created |
| WatchPool.CancelledBeforeStartHangs | continuousscanning/watchbuilder.go:63-66 | with the context cancelled before the first of one or more watches is started, Run never returns |
| ScopedScan.HandleImageScanningScopedRequest | mainhandler/handlerequests.go:352-479 | at most one successful image scan a slug, none after its slug was marked, and at most one attempt each time a container is listed; every attempt is owed to a reached container: it runs the scan of the profile found for it, else of its image, and has the outcome of running it; every reached resolvable container is scanned or on record as failed, or its slug is the no-container slug of a scanned profile, which cannot be if slugs and no-container slugs are apart; the status is a success if and only if nothing failed, and otherwise names exactly the errors |
| ScopedScan.ScanListing | mainhandler/handlerequests.go:381-472 | the pages of one namespace: all its reached containers are attended, and a broken listing is on record |
| ScopedScan.ScanPod | mainhandler/handlerequests.go:387-467 | one pod: its reached containers are attended and every new attempt serves one of them |
| ScopedScan.ScanContainer | mainhandler/handlerequests.go:415-465 | one container: at most one attempt, the one owed to it, with the outcome that running its command has, and none if its slug is marked |
| Rules.RuleEvaluator.SetParameters | admission/rules/v1/rule.go:49-53 | the given parameters overwrite, the others stay |
| Rules.RuleEvaluator.GetParameters | admission/rules/v1/rule.go:55-67 | the copy equals the parameters |
| Rules.RuleCreator.CreateRulesByTags | admission/rules/v1/factory.go:22-30 | fresh, distinct, unparametrised evaluators for exactly the rules with one of the tags, in order |
| Rules.ByTagsExactly | admission/rules/v1/rule.go:33-42 | the rules by tags are, in order, exactly those that have a tag in common with the wanted ones |
| Rules.RuleCreator.CreateRuleByID | admission/rules/v1/factory.go:32-39 | a fresh evaluator for the first rule with the ID, if any |
| Rules.FirstByIDExactly | admission/rules/v1/factory.go:32-39 | the rule by ID is the first that has it; there is none if and only if no rule has it |
| Rules.RuleCreator.CreateRuleByName | admission/rules/v1/factory.go:41-48 | a fresh evaluator for the first rule with the name, if any |
| Rules.FirstByNameExactly | admission/rules/v1/factory.go:41-48 | the rule by name is the first that has it; there is none if and only if no rule has it |
| RuleBindingCache.RBCache.ListRulesForObject | admission/rulebinding/cache/cache.go:60-114 | the applying bindings, each once, and the concatenation of what exactly these ask for, no evaluator twice |
| RuleBindingCache.AppliesExactly | admission/rulebinding/cache/cache.go:64-84 | cluster objects are subject to every binding unless their label says "false", other objects as the selectors say |
| RuleBindingCache.RBCache.AddRuleBinding | admission/rulebinding/cache/cache.go:174-184 | exactly this binding's entry is replaced, with fresh evaluators; all entries stay what their bindings ask for, and no two bindings share an evaluator |
| RuleBindingCache.RBCache.DeleteRuleBinding | admission/rulebinding/cache/cache.go:185-195 | exactly this name leaves both maps |
| RuleBindingCache.RBCache.ModifiedRuleBinding | admission/rulebinding/cache/cache.go:197-202 | as an addition: exactly this binding's entry is replaced |
| RuleBindingCache.RBCache.CreateRules | admission/rulebinding/cache/cache.go:204-211 | fresh and distinct evaluators for all rules of a binding, in order, each with its own rule's parameters |
| RuleBindingCache.BuildConcatenates | admission/rulebinding/cache/cache.go:204-211 | what a binding asks for is what its rules ask for, one after the other |
| RuleBindingCache.RBCache.CreateRule | admission/rulebinding/cache/cache.go:213-241 | by ID, else by name, else by tags; every evaluator carries exactly the rule's parameters |
| RuleBindingCache.WantedExactly | admission/rulebinding/cache/cache.go:213-241 | the first rule with the ID, if one is given and exists; else the first with the name, likewise; else the rules by tags |
| RuleBindingCache.BuildOne | admission/rulebinding/cache/cache.go:213-241 | one rule asks for exactly the rules it stands for, each with its parameters |
| RuleBindingCache.RBCache.Handle | admission/rulebinding/cache/cache.go:122-169 | one event extends the history that the cache reflects |
| RuleBindingCache.LastAfter | admission/rulebinding/cache/cache.go:122-169 | an addition or modification of a converted binding decides about its name, a deletion about the name it gives, and nothing else is changed |
| RuleBindingCache.RunCache | admission/rulebinding/cache/cache.go:122-202 | after any events the cache holds exactly the bindings that the last event about each name left, each with evaluators of its own for what its rules ask for |
| ServiceDiscovery.CycleOutcome | servicehandler/servicediscovery.go:126-168 | a finished cycle leaves exactly the listed services that have an object from before or from now, and the stale objects that were not listed for deletion or whose deletion failed |
| ServiceDiscovery.RecordsExactly | servicehandler/servicediscovery.go:126-168 | over any run: results count as applied exactly for services that a successful scan took, services as listed exactly if the listing came across them; objects appear only by successful scans and go only by successful deletions |
| ServiceDiscovery.OutcomeOfActions | servicehandler/servicediscovery.go:126-168 | in terms of the actions alone: a finished cycle leaves an object exactly for the names that had one or were scanned successfully, and were listed or not deleted |
| ServiceDiscovery.GoneExactly | servicehandler/servicediscovery.go:46-66 | from the delete phase on an object is gone if and only if its deletion succeeded |
| ServiceDiscovery.NothingWithoutSuccess | servicehandler/servicediscovery.go:133-137 | if no scan succeeds no object is new, and if no deletion succeeds none is gone |
| ServiceDiscovery.CycleReconcilesExactly | servicehandler/servicediscovery.go:126-168 | for the listed services only: one object for each and no other if and only if each had or got one and no stale object stayed |
| ServiceDiscovery.ServicesKeepResultsExactly | servicehandler/servicediscovery.go:126-168 | one object for each service, listed or not, and no other, if and only if each listed service had or got one and the stale objects that stayed are those of the services not listed; if none stayed, if and only if the listing was complete and each service had or got one |
| ServiceDiscovery.ServiceKeepsResultExactly | servicehandler/servicediscovery.go:126-168 | a service ends up with a result if and only if it was listed and had or got one, or was not listed and its old one stayed undeleted |
| ServiceDiscovery.SecondCycleChangesNothing | servicehandler/servicediscovery.go:46-66 | a cycle over the services that have their objects already leaves the set as it is |
| ServiceDiscovery.NoScanAfterDeleteBegins | servicehandler/servicediscovery.go:163-167 | from the delete phase on nothing is scanned or applied, and every invocation had been accepted |
| ServiceDiscovery.CycleCanEndExactly | servicehandler/servicediscovery.go:147-163 | a cycle can still end if and only if no invocation of the pool failed, and then it can with no more stale objects staying |
| ServiceDiscovery.BrokenListingDeletesResult | servicehandler/servicediscovery.go:144-166 | a listing that breaks off early deletes the result of a service that still exists, though every other operation succeeds |
| NameLimit.ReplaceDisallowed | mainhandler/handlerequests.go:70-75 | the replacing loop collapses every maximal run outside the class to one dash |
| NameLimit.ReplacementExactly | mainhandler/handlerequests.go:70-75 | a run of bytes outside the class, between bytes inside it, becomes one dash, and bytes inside it stay |
| NameLimit.ClassesExactly | mainhandler/handlerequests.go:70-75 | the classes are letters, digits and the dash, and lowering maps A to Z to a to z |
| NameLimit.FixK8sNameLimit | mainhandler/cronjobhandler.go:30-44 | cutting, trimming, substituting and lowering compute the specified name |
| NameLimit.CaseFolds | mainhandler/cronjobhandler.go:30-44 | a name within the limit of letters, digits and dashes, not ending in one, only changes case, letter by letter |
| NameLimit.CutAndTrimmed | mainhandler/cronjobhandler.go:30-40 | what lies behind the limit makes no difference, nor do dashes at the end |
| NameLimit.EmptyNameIsSubstituted | mainhandler/cronjobhandler.go:37-43 | nothing left of a name gives "invalid-name-was-given" |
| NameLimit.FixK8sCronJobNameLimit | mainhandler/cronjobhandler.go:24-26 | the same with the limit 52 |
| NameLimit.FixedShape | mainhandler/cronjobhandler.go:28-44 | non-empty, only lower-case letters, digits and dashes, at most max(limit, 22) long; a dash at the end if and only if the trimmed name ends outside the class |
| NameLimit.FixedIsLabelExactly | mainhandler/cronjobhandler.go:28-44 | a label in the sense of section 2.1 of RFC 1123 if and only if the trimmed name begins and ends with a letter or digit |
| NameLimit.FixedPointExactly | mainhandler/cronjobhandler.go:28-44 | normalising twice is normalising once if and only if the result does not end in a dash, for limits of at least 22 |
| NameLimit.OnlyCutNamesEndInDash | mainhandler/cronjobhandler.go:28-44 | a name that ends in a letter or digit, as the callers' names do, can end in a dash only if it is longer than the limit |
| NameLimit.TrailingDashExample | mainhandler/kubescapehandler.go:104 | the cron job name of a scheduled scan ends in a dash, and is no label, whenever byte 34 of the target's name is outside the class |

## Left out

- PodWatcher.WatchHandler.PodWatch: pod events are handled one at a time; that the delayed scan of a pod without a parent (watcher/podwatcher.go:61-68) may overlap with the main loop is not modelled. A submitted command is one handed to the worker pool; a failing hand-over is only logged there.
- Parent lookup, instance IDs and slugs, and profile lookup are fixed answers; the initial listing of pods is not modelled but as the additions it enqueues.
- `ResponsePool`, `Shutdown`, `Relay`, `WatchPool` and `ServiceDiscovery` are transition systems on values: the sharing and in-place update of the one response record is not captured, nor the memory model below single lock and channel operations. `ResponsePool` takes both channels as buffered.
- The expiring cache's own timing: evictions may come late, so only lower bounds on delays are stated.
- CooldownQueue.KeysAreObjects: needs group, version, kind, namespace and name without slashes, as Kubernetes guarantees; so do the reconciliation results for namespace and name.
- `Relay`: an event whose object has no key, which the queue drops, does not occur; adding a command to the pool, logging an error and replacing the watcher are one occupied state of the loop.
- CommandWatcher.CommandWatchHandler.AddHandler: does not model a receiver's channel filling up, because what the receivers do is outside the repository's watcher.
- WatchRetry.RetryingWatch.WatchRetry: an error whose status object has an empty version is left out, as is the empty cursor a watch first starts with: the server answers it with a burst of synthetic additions, which is no part of an ordered log. Back-off durations are left out.
- WatchRetry.RetryingWatch.Stream: leaves out empty versions for the same reason.
- ScopedScan.HandleImageScanningScopedRequest: claims no bound on profile scans, because a profile scan marks only the no-container slug, which the guard at mainhandler/handlerequests.go:417 does not look at. Error values are strings; the session and its reporting are left out.
- `RuleBindingCache`: selectors and the substring test on namespaces (admission/rulebinding/cache/cache.go:98) are an arbitrary predicate; notifiers and `diff`, which no caller gives anything to compare, are left out; object conversion is an optional value.
- `ServiceDiscovery`: port scanning, port translation and the contents of the result objects.
- What the event handlers of the continuous scanning service do with an event; watch construction and the resource list.
- Admission webhook, exporters, REST handlers, cronjob, secret and configmap generation, configuration, telemetry: plumbing around external systems, or easy members.
