# ModelMesh Serving: a verified model of the controller's state synchronisation

ModelMesh Serving is a Kubernetes controller for model-mesh. Most of its logic keeps one store in step with another: a
predictor cache with a remote source, a key mirror with etcd, a predictor's status with what model-mesh reports, a
runtime's replicas with the predictors it must serve. This project models those parts in Dafny and proves what each
keeps over whole runs. `dafny verify dfyconfig.toml` checks everything.

## What is modelled

| file | part of the system |
|---|---|
| `ResourceVersion`, `CacheModel`, `DeletionHeap`, `CachedSource` | the predictor cache with its tombstones, deletion heap and lock bookkeeping |
| `WatchSource` | the start, the loops of `refreshCache` and the body of the event loop over that cache, run alone |
| `SourceLog`, `WatchProtocol`, `WatchSafety`, `WatchRuns`, `WatchDiscipline`, `WatchView`, `WatchExact` | the watch and refresh protocol that fills the cache, with `UpdateStatus` calls running beside it |
| `EtcdMirror`, `EtcdHistory` | the etcd range watcher: paged load, sweep, watch, resync; and the same beside the history of the store |
| `RegistryEvents` | the two registry listeners: from a change in etcd to the predictor reconciled for it |
| `WatchManager`, `ServiceHistory` | one watch per namespace, restarted when the service or the etcd secret changes; and its entries from the history of calls |
| `Text`, `ModelNames` | concrete model ids, the requests decoded from them, etcd prefixes |
| `PredictorStatus` | model-mesh's report merged into a predictor's status |
| `Placement`, `PlacementExact`, `FailureReasons` | runtime labels, type constraints, and the failure reasons that follow from them |
| `ScaleToZero` | replicas and requeue delays under scale-to-zero |
| `Overlay`, `OverlayExact` | the recursive manifest merge, and when it panics |
| `Basics` | optional values, names, clock readings, orders of walking a set |

Objects the source updates in place are classes (`Heap`, `Source`, `WatchPredictorSource`, `RangeWatcher`,
`EventStream`, `Status`, `Reconciler`), and the source's loops are loops. Each such method is proved equal to a function on values; the theorems
are about those functions and about every run built from them.

Go code that runs in several goroutines is a step system. `WatchProtocol` interleaves the remote source, the
event-processing goroutine of `StartWatch` and any number of `UpdateStatus` calls, cutting the goroutine wherever it
gives up the lock, blocks on a channel or calls the source. Its steps use the same `Offer` and `Prune` that the methods of
`CachedSource.Source` and the loops of `WatchSource` are proved against.

## What is taken as given

- Clock readings, the results of remote calls, whether a channel has room and the order in which Go walks a map are
  inputs. Times are integer nanoseconds. Loops over Go maps pick keys arbitrarily, so their contracts hold for every order.
- The remote source is an ordered log of changes with increasing versions. A delete removes something that is there. A
  watch delivers the changes above its starting version in order, and a list shows the log's state at its version.
- The theorems of `WatchRuns` and `WatchView` make two assumptions on runs (`WatchProtocol.Assumed`): deletions and only
  deletions carry a deletion timestamp, and a tombstone is pruned only when no `UpdateStatus` call for its name is in
  flight and no change it covers is above the resume version. `WatchRuns` shows what each is for: a run that goes wrong
  once a predictor still held by the source carries a timestamp, one with a call in flight, one with a replayed deletion.
  `WatchDiscipline` and `WatchExact` assume neither. The first says what every run keeps and which steps crash; the second
  says for every run exactly which steps make it go wrong, and that the assumptions rule them out. There a name that is not cached may be absent as of a version ahead of the resume version.
- The etcd store is an ordered log of changes in which each key's revisions increase. A load lists the store as it is when
  the load starts, and its watch delivers the changes after that in order.
- What `Get` and `Find` answer is stated for readings not earlier than those the run has made.
- Each event brings its own predictor object, not one that is cached or queued already.
- `UpdateStatus` answers are what the source held when it answered: the predictor, or its absence at a version.
- Recorded failure times are equal when they are the same instant.
- Scale-to-zero readings are after the Unix epoch and do not go back.
- Model-mesh's "no running instances" message is as the comment at `controllers/predictor_controller.go:386-390` gives it,
  a label list being printed with `, ` between labels.

## Where the code departs from its comments

The model follows the code. In each case a lemma shows the failure and says exactly when it happens.

- `pkg/mmesh/etcdrangewatcher.go:150-153`: the marks of the first load, and of failed loads, are not cleared, so a later
  sweep keeps deleted keys (`EtcdMirror.FirstResyncMissesDeletion`, `EtcdMirror.SurvivorsExactly`,
  `EtcdHistory.StaleAfterLoadExactly`). A load cut short by
  cancellation goes on to the sweep too (lines 122-124); that is the step `Finish` after some of the pages.
- `pkg/predictor_source/cached_predictor_source.go:198`: a DELETE without a timestamp is cached as live
  (`CacheModel.DeleteWithoutTimestampStaysVisible`).
- `pkg/predictor_source/cached_predictor_source.go:251`: a tombstone for an uncached name dereferences nil
  (`CacheModel.CrashesExactly`, `WatchDiscipline.NextCrashExactly`, `WatchRuns.ReplayedDeletionCrashes`).
- `pkg/predictor_source/cached_predictor_source.go:215`: the cutoff lies 20 seconds ahead, so tombstones are not kept 20
  seconds (`CacheModel.KeptTwentySecondsExactly`, `CacheModel.TombstoneKeptExactly`,
  `WatchRuns.StatusUpdateRevivesDeleted`).
- `pkg/predictor_source/cached_predictor_source.go:251-253`: a tombstone that replaces a tombstone is never pruned
  (`CacheModel.LeaksExactly`, `WatchRuns.RefreshLeaksTombstone`, `WatchRuns.LeakedUntilRecreated`).
- `pkg/predictor_source/watchrefresh_predictor_source.go:95`: 128 blank events precede the overflow
  (`CachedSource.AnnouncedExactly`).
- `pkg/predictor_source/watchrefresh_predictor_source.go:112-121`: `Watch` can be called with the lock held
  (`WatchDiscipline.LockedAfterRefreshExactly`, `WatchRuns.WatchWhileLocked`).
- `controllers/predictor_controller.go:469-474`: the "nowhere to load" case stays blocked
  (`PredictorStatus.NowhereToLoadStaysBlocked`).
- `controllers/predictor_controller.go:523`: `Available` can change unreported (`PredictorStatus.QuietUpdateExactly`,
  `PredictorStatus.AvailableChangesSilently`).
- `pkg/mmesh/modelmesh_events.go:119-129`: after a failed reconnect, going back to the old secret restarts nothing, and
  with a new service name it starts watchers on a nil or closed client (`WatchManager.NextUpdateExactly` over every
  sequence of calls, `WatchManager.RevertExactly`, `WatchManager.RevertRestartsNothing`,
  `WatchManager.SecondFailureCrashes`).
- `controllers/modelmesh/cluster_config.go:131-137`: a vertical bar in a name lets the order of the loops show and the
  placement relations disagree (`PlacementExact.OrderShowsExactly`, `PlacementExact.AgreeInEveryOrderExactly`,
  `PlacementExact.AgreeExactly`, `PlacementExact.BarBreaksPlacement`, `PlacementExact.BarInNamedRuntime`).
- `controllers/config/overlay.go:38-53`: an overlay for something else is to be ignored, but a null under a shared key
  makes the loop panic if it comes before the name (`Overlay.NullBehindName`, `Overlay.OrderShowsExactly`,
  `OverlayExact.NeverPanicsExactly`).

## Model

| member | source | states |
|---|---|---|
| `WatchRuns.EveryChangeReflected` | pkg/predictor_source/watchrefresh_predictor_source.go:106-186 | In every interleaving of watch events, closures, ERR_TOO_OLD refreshes and UpdateStatus calls, each source change at or below the resume version is cached at least as new, or its name is absent and the source does not hold it at that version |
| `WatchRuns.CacheAgreesWithSource` | pkg/predictor_source/watchrefresh_predictor_source.go:106-186 | An entry not newer than the resume version is exactly what the source holds as of that version (contents, or a deletion); a name not cached is not held |
| `WatchDiscipline.ResumeNeverDecreases` | pkg/predictor_source/watchrefresh_predictor_source.go:121-135 | The resume version never decreases along any run, as the TODO at line 135 hopes |
| `WatchDiscipline.LockAndEventDiscipline` | pkg/predictor_source/cached_predictor_source.go:159-209 | In every state of every run, whatever is stamped, pruned or answered late, lockHeld is true exactly when the goroutine owns the write lock and accepted changes are announced once each in order; unless something has crashed, the lock is free whenever the goroutine blocks on a channel. Within the assumptions nothing crashes |
| `WatchDiscipline.AcceptedExactly` | pkg/predictor_source/cached_predictor_source.go:191-209 | In every run the changes the goroutine accepts and announces are exactly those by which one of its steps changes the cache, under their own names |
| `WatchView.RefreshMatchesList` | pkg/predictor_source/watchrefresh_predictor_source.go:144-186 | After a whole refreshCache, with UpdateStatus calls finishing in between, Get and Find answer with the list, except that a name with an entry newer than the list is seen as the source held it at that version; nothing is lost or lowered on the way, every accepted change has been announced, and the resume version becomes the list's |
| `WatchView.GetAgreesWithSource` | pkg/predictor_source/cached_predictor_source.go:108-113 | In every interleaving Get answers with what the source holds as of the resume version, or of the newer version of the entry, and with nothing when the source held nothing then |
| `WatchView.FindAgreesWithSource` | pkg/predictor_source/cached_predictor_source.go:115-124 | In every interleaving Find is true exactly when what the source holds in that sense includes a match in the namespace |
| `WatchView.TombstonesArePast` | pkg/predictor_source/cached_predictor_source.go:246-250 | In every run cached tombstones are dated before every reading not earlier than those made, so they are hidden |
| `WatchRuns.RefreshedCache` | pkg/predictor_source/watchrefresh_predictor_source.go:144-186 | The cache after a refresh: listed names at least as new as listed, unlisted names deleted or newer than the list |
| `WatchExact.UpToDateExactly` | pkg/predictor_source/watchrefresh_predictor_source.go:106-186 | With no assumption on timestamps or prunes: throughout a run nothing crashes and every name is cached at least as new as what has been read or listed of it, or is absent after a deletion, if and only if there is no late arrival for a name that is not cached (a stamped predictor read or answered, an answer that a change already taken in has passed), no prune of what the source has held all along, and no refresh listing a stamped predictor that is not cached |
| `WatchExact.StampedUpToDateExactly` | pkg/predictor_source/cached_predictor_source.go:126-227 | When exactly the deletions carry timestamps, the same holds if and only if there is no such late arrival, whatever is pruned and when |
| `WatchExact.HazardFreeReflects` | pkg/predictor_source/watchrefresh_predictor_source.go:106-186 | Until the first such step nothing crashes, and each change at or below the resume version is cached at least as new or its name is absent after a deletion |
| `WatchDiscipline.NextCrashExactly` | pkg/predictor_source/cached_predictor_source.go:235-257 | At every step of every run: it crashes if and only if a refresh lists, the watch delivers or an UpdateStatus answer brings a stamped predictor for a name that is not cached; sweeping never crashes and no unlock is unmatched |
| `WatchDiscipline.StepKeepsTracks` | pkg/predictor_source/watchrefresh_predictor_source.go:106-186 | Each kind of step either crashes in that way or keeps the lock and event discipline, the order of resume, read and source versions, and the progress of a refresh through its list and its sweep |
| `WatchExact.OnTimeGet` | pkg/predictor_source/cached_predictor_source.go:108-113 | Until the first late arrival Get answers, for each name, with what the source held at some version not behind what has been read or listed of it |
| `WatchExact.AssumedIsOnTime` | pkg/predictor_source/cached_predictor_source.go:90-93 | The condition on prunes assumed by the other run theorems rules out late arrivals |
| `WatchExact.HazardHarms` | pkg/predictor_source/cached_predictor_source.go:211-257 | From any state, each of these steps crashes or leaves a name behind |
| `WatchExact.OtherStepsKeepGood` | pkg/predictor_source/watchrefresh_predictor_source.go:106-186 | Every other step keeps all names up to date |
| `WatchDiscipline.LockedAfterRefreshExactly` | pkg/predictor_source/watchrefresh_predictor_source.go:112-121 | Over every run, Watch is called again after a refresh with the lock held if and only if the last offer of the refresh did not block in its send, or nothing was offered and the refresh began with the lock held |
| `WatchDiscipline.LockedOnlyAfterRefresh` | pkg/predictor_source/watchrefresh_predictor_source.go:106-126 | Over every run, whenever Watch is about to be called with the lock held, the goroutine's last step was the end of a refresh |
| `WatchRuns.LeakedUntilRecreated` | pkg/predictor_source/cached_predictor_source.go:251-253 | In every continuation, whatever is pruned, a tombstone outside the queue stays cached and outside the queue until the name is cached without a timestamp again |
| `WatchRuns.RefreshLeaksTombstone` | pkg/predictor_source/cached_predictor_source.go:251-253 | A run within the assumptions, without UpdateStatus, in which the deletion offered by a refresh replaces a tombstone outside the queue |
| `WatchRuns.EveryStateIsSafe` | pkg/predictor_source/watchrefresh_predictor_source.go:69-186 | The protocol invariant holds in every state of every run that meets the assumptions |
| `WatchSafety.StepKeepsInv` | pkg/predictor_source/watchrefresh_predictor_source.go:106-186 | Each of the eighteen kinds of steps (source, goroutine, UpdateStatus) keeps the invariant: truthful cache, reflected changes, listing and sweeping progress, calls in flight, lock and events |
| `WatchSafety.InitHasInv` | pkg/predictor_source/watchrefresh_predictor_source.go:75-99 | The state after the initial population meets the invariant, for a source that stamps exactly its deletions |
| `WatchRuns.HistoryIsPermanent` | pkg/predictor_source/watchrefresh_predictor_source.go:30-53 | What the source held at a version stays what it held as the run goes on |
| `WatchRuns.LateAnswer` | pkg/predictor_source/cached_predictor_source.go:126-147 | An UpdateStatus answer for a name pruned meanwhile crashes exactly when it reports an absence; otherwise it leaves the cache behind the source exactly when it is not newer than the resume version |
| `WatchRuns.TerminatingPredictorCrashes` | pkg/predictor_source/watchrefresh_predictor_source.go:145-164 | A run in which a predictor created and marked for deletion while unwatched makes the refresh that lists it crash |
| `WatchRuns.StatusUpdateRevivesDeleted` | pkg/predictor_source/cached_predictor_source.go:90-93 | A run in which an UpdateStatus answer brings a deleted predictor back, because its tombstone was pruned during the call |
| `WatchRuns.ReplayedDeletionCrashes` | pkg/predictor_source/watchrefresh_predictor_source.go:128-137 | A run in which a prune with no call in flight is followed by a replayed delete event that crashes |
| `WatchRuns.WatchWhileLocked` | pkg/predictor_source/watchrefresh_predictor_source.go:112-121 | The condition of LockedAfterRefreshExactly is met by a run within the assumptions |
| `CacheModel.LastVersionWins` | pkg/predictor_source/cached_predictor_source.go:235-257 | After any sequence of offers each name holds the highest-version readable offer, the earliest of equal ones, or its initial entry when none is newer |
| `CacheModel.VersionsNeverDecrease` | pkg/predictor_source/cached_predictor_source.go:235-257 | While offers come in no name leaves the cache, and an entry is replaced only by one of a strictly higher version |
| `CacheModel.OrderDoesNotMatter` | pkg/predictor_source/cached_predictor_source.go:235-257 | Two arrival orders of the same offers with distinct versions leave the same predictor at the same version, deleted in both or neither |
| `CacheModel.CrashesExactly` | pkg/predictor_source/cached_predictor_source.go:246-254 | A sequence of offers dereferences nil exactly when the first readable offer for some uncached name is a tombstone |
| `CacheModel.PruneHidesExactly` | pkg/predictor_source/cached_predictor_source.go:211-227 | Pruning changes what Get answers exactly for a pruned entry whose deletion time has not passed |
| `CacheModel.PruneKeepsFind` | pkg/predictor_source/cached_predictor_source.go:211-227 | When every pruned deletion time has passed Find answers as before |
| `CacheModel.DeleteWithoutTimestampStaysVisible` | pkg/predictor_source/cached_predictor_source.go:197-207 | A newer DELETE, for any name: it crashes exactly when it carries a deletion timestamp and the name is not cached, and otherwise hides the predictor exactly when it carries one; without one the predictor is cached as live, even if it was not cached before |
| `CacheModel.LeaksExactly` | pkg/predictor_source/cached_predictor_source.go:246-255 | An accepted offer leaves a tombstone outside the queue exactly when a tombstone replaces a tombstone |
| `CacheModel.LeakedForever` | pkg/predictor_source/cached_predictor_source.go:212-227 | A tombstone outside the queue survives every sequence of prunes |
| `CacheModel.PrunesExactly` | pkg/predictor_source/cached_predictor_source.go:212-227 | A sequence of prunes removes a name exactly when its object is queued and dated before one of the cutoffs, and never changes what it keeps |
| `CacheModel.TombstoneKeptExactly` | pkg/predictor_source/cached_predictor_source.go:212-217 | A tombstone survives prunes at given readings if and only if it replaced a tombstone or is dated at least 20 seconds ahead of every reading; a deletion that has happened and was queued does not survive one |
| `CacheModel.KeptTwentySecondsExactly` | pkg/predictor_source/cached_predictor_source.go:90-93 | A tombstone is kept for 20 seconds whatever prunes come in that time if and only if it replaced a tombstone or is dated at least 40 seconds ahead |
| `ResourceVersion.ParseFormat` | pkg/predictor_source/cached_predictor_source.go:286-300 | Rendering an integer in decimal and reading it back returns it exactly when it fits in 64 bits |
| `ResourceVersion.ParseExactly` | pkg/predictor_source/cached_predictor_source.go:286-300 | Exactly the decimal renderings of 64-bit integers, with any leading zeros and an optional sign, are read, and as that integer |
| `CachedSource.Source.OfferToCache` | pkg/predictor_source/cached_predictor_source.go:235-257 | The new cache and queue are those of the offer on values; a rejected offer changes nothing; the crash is a nil dereference |
| `CachedSource.Source.ProcessEvent` | pkg/predictor_source/cached_predictor_source.go:191-209 | The goroutine owns the lock afterwards and the event has been offered with its deletion time reset; a nil predictor changes nothing |
| `CachedSource.Source.PruneDeletions` | pkg/predictor_source/cached_predictor_source.go:211-227 | Leaves in the queue exactly the tombstones dated from the cutoff on, as many times each, keeps heap order, and uncaches exactly the popped objects that are still the cached ones |
| `CachedSource.Source.ReadEvent` | pkg/predictor_source/cached_predictor_source.go:166-177 | The blocking receive is reached only with the lock given up, after a prune if it was held |
| `CachedSource.Source.WriteEvent` | pkg/predictor_source/cached_predictor_source.go:179-189 | The blocking send is reached only with the lock given up |
| `CachedSource.Source.FinishUpdateStatus` | pkg/predictor_source/cached_predictor_source.go:134-147 | The source's answer, or a deletion at the answered version, is offered; success is reported only for an answer with a predictor |
| `CachedSource.Source.UpdateStatus` | pkg/predictor_source/cached_predictor_source.go:126-147 | With nothing in between: a nil, stale or uncached predictor is refused and an error of the source is passed on, all without effect, each exactly then; otherwise success is reported exactly for an ok answer with a predictor, the cached version becomes the higher of the caller's and the answer's, a newer answer is what is cached (the reply itself, or a tombstone hidden from then on), and any other changes nothing |
| `WatchDiscipline.AnswerIsCached` | pkg/predictor_source/cached_predictor_source.go:134-147 | In every run, once an UpdateStatus answer has been taken in without a crash it is cached, or an entry at least as new was and stays; nothing else in the cache changes |
| `CachedSource.Source.Get` | pkg/predictor_source/cached_predictor_source.go:108-113 | Answers with the cached predictor unless its deletion time has passed |
| `CachedSource.Source.Find` | pkg/predictor_source/cached_predictor_source.go:115-124 | True exactly when some undeleted predictor of the namespace satisfies the predicate, in whatever order the map is walked |
| `CachedSource.Source.Populate` | pkg/predictor_source/watchrefresh_predictor_source.go:84-98 | A new source ends valid with the list indexed by name, and the start-up events are the listed names with the blank ones |
| `CachedSource.IndexedExactly` | pkg/predictor_source/watchrefresh_predictor_source.go:87-90 | Exactly the listed names are cached, each with the last predictor listed under it |
| `WatchSource.WatchPredictorSource.Start` | pkg/predictor_source/watchrefresh_predictor_source.go:69-105 | The source StartWatch hands to its goroutine: valid, unlocked, holding the list, resuming from the list's version |
| `WatchSource.StartMeetsInit` | pkg/predictor_source/watchrefresh_predictor_source.go:69-105 | What Start leaves, for the list the source gives, is a state the protocol's runs start from |
| `CachedSource.AnnouncedExactly` | pkg/predictor_source/watchrefresh_predictor_source.go:84-104 | Every predictor is announced as often as it is listed and in that order, plus exactly 128 blank events after the first 128, and those only for more than 128 predictors |
| `WatchSource.RefreshedExactly` | pkg/predictor_source/watchrefresh_predictor_source.go:144-186 | After a refresh from a list at version v: a listed name is cached at least as new as listed and Get shows the listed entry if that was newer and not deleted; an unlisted one cached below v is deleted at v and hidden; one cached at v or above is cached and shown as before; nothing else is |
| `WatchSource.RefreshedFind` | pkg/predictor_source/watchrefresh_predictor_source.go:144-186 | Find sees exactly the same names |
| `WatchSource.WatchPredictorSource.RefreshCache` | pkg/predictor_source/watchrefresh_predictor_source.go:144-186 | The listed predictors are offered in order, then one deletion at the list's version for each name cached by then and not listed; one event is sent per accepted change; the watch resumes from the list's version; it stops short exactly when an offer crashes |
| `WatchSource.ToldExactly` | pkg/predictor_source/watchrefresh_predictor_source.go:157-184 | However many offers: an event is sent for a name exactly when its cached entry ends up changed, and then at a higher version |
| `WatchSource.WatchPredictorSource.OfferListed` | pkg/predictor_source/watchrefresh_predictor_source.go:157-164 | The first loop: the store, the events and the set of listed names |
| `WatchSource.WatchPredictorSource.Unlisted` | pkg/predictor_source/watchrefresh_predictor_source.go:169-174 | In whatever order the cache is walked, each cached name that is not listed, once |
| `WatchSource.WatchPredictorSource.OfferDeletions` | pkg/predictor_source/watchrefresh_predictor_source.go:178-184 | The second loop: the store and the events |
| `WatchSource.WatchPredictorSource.HandleEvent` | pkg/predictor_source/watchrefresh_predictor_source.go:133-136 | An event read from the watch is offered; the event is sent and the resume version moves exactly when the change is accepted |
| `DeletionHeap.RootIsEarliest` | pkg/predictor_source/heap.go:26-33 | In heap order the first element is the earliest of all |
| `DeletionHeap.Heap.Push` | pkg/predictor_source/heap.go:35-40 | Sift-up keeps heap order and adds exactly the pushed predictor |
| `DeletionHeap.Heap.Pop` | pkg/predictor_source/heap.go:42-48 | Sift-down keeps heap order and removes exactly one earliest predictor |
| `DeletionHeap.Heap.PopExpired` | pkg/predictor_source/heap.go:57-63 | Pops an earliest predictor dated before the cutoff, or nothing when none is |
| `EtcdMirror.Key` | pkg/mmesh/etcdrangewatcher.go:199-202 | The key reported is what follows the prefix: together they are the etcd key |
| `EtcdMirror.ListenerSeesTheCache` | pkg/mmesh/etcdrangewatcher.go:105-191 | In every reachable state, across partial and failed loads, sweeps and watch events, replaying the events sent onto an empty map gives the cache contents, and each DELETE has carried the value last sent for its key |
| `EtcdMirror.InitializedOnce` | pkg/mmesh/etcdrangewatcher.go:150-152 | In every run INITIALIZED is sent exactly once, when the first load completes, after UPDATEs only |
| `EtcdMirror.ResyncExactly` | pkg/mmesh/etcdrangewatcher.go:131-162 | A completed resync leaves the snapshot's keys at the newer revisions plus the keys marked beforehand, all unmarked; it sends UPDATE for exactly the new or newer keys and DELETE for exactly the unmarked keys the snapshot lacks |
| `EtcdMirror.ResyncSoundExactly` | pkg/mmesh/etcdrangewatcher.go:150-162 | The cache ends with exactly the snapshot's keys if and only if every key marked beforehand is in the snapshot |
| `EtcdMirror.UnchangedStoreIsSilent` | pkg/mmesh/etcdrangewatcher.go:131-162 | A resync against an unchanged store sends nothing |
| `EtcdMirror.SurvivorsExactly` | pkg/mmesh/etcdrangewatcher.go:105-162 | Over every run, what a sweep keeps is what this load, the failed loads since the last completed one, and the untouched marks of the first load named; from the second resync on, without failures, exactly the snapshot |
| `EtcdMirror.FirstResyncMissesDeletion` | pkg/mmesh/etcdrangewatcher.go:83-87 | A key deleted before the first resync is kept and no DELETE is sent for it |
| `EtcdHistory.MirrorsStoreExactly` | pkg/mmesh/etcdrangewatcher.go:105-191 | Beside any history of the store, in every interleaving of commits, pages, failed loads, sweeps, watch events and resyncs: while watching, the cache holds under k all that etcd held under prefix + k after the changes delivered, at the newest revisions, and what the listener was told is exactly that if and only if no key was kept by older marks alone |
| `EtcdHistory.ReportsWerePut` | pkg/mmesh/etcdrangewatcher.go:105-191 | In every state of every run each UPDATE sent is a value that was put under the prefix and its key, and each DELETE carries the value last sent for its key |
| `EtcdHistory.DeliveryReported` | pkg/mmesh/etcdrangewatcher.go:165-180 | A change the watch delivers is reported at once, once, under the key that follows the prefix: a put with its value, a deletion with the value last sent |
| `RegistryEvents.ModelPutReachesPredictor` | pkg/mmesh/modelmesh_events.go:194-216 | In every run of a model registry's watcher, putting a concrete model's record makes the controller reconcile the model's predictor, namespace and source exactly under the conditions of ModelNames.RoundTripExactly; deleting it asks for nothing |
| `RegistryEvents.VModelReachesPredictor` | pkg/mmesh/modelmesh_events.go:171-192 | In every run of a vmodel registry's watcher, putting or deleting a record makes the controller reconcile the predictor of that name with the record's owner exactly when the namespace has no "_"; a deletion of a record never told of, or one whose owner cannot be read, asks for nothing |
| `EtcdHistory.StaleAfterLoadExactly` | pkg/mmesh/etcdrangewatcher.go:83-162 | A load leaves no such key if and only if it listed every key marked before it; so every load without a failed attempt before it leaves none, unless it is the first resync |
| `EtcdHistory.CleanLoadMirrorsStore` | pkg/mmesh/etcdrangewatcher.go:105-191 | After a load without failed attempts that is not the first resync, until the next load completes, the listener has been told exactly the store as of the changes delivered |
| `EtcdHistory.SyncStepKeeps` | pkg/mmesh/etcdrangewatcher.go:105-191 | Each step keeps the invariant: cached values were put by changes taken in, a load is complete up to its list, a watch holds the store and the stale keys |
| `EtcdMirror.RangeWatcher.LoadPage` | pkg/mmesh/etcdrangewatcher.go:135-143 | A page caches and reports new or newer keys and marks the rest |
| `EtcdMirror.RangeWatcher.Sweep` | pkg/mmesh/etcdrangewatcher.go:154-161 | In whatever order the map is walked, each unmarked key is deleted and reported once and each marked key is unmarked |
| `EtcdMirror.RangeWatcher.CompleteLoad` | pkg/mmesh/etcdrangewatcher.go:150-162 | The first completed load sends INITIALIZED, every later one sweeps |
| `EtcdMirror.RangeWatcher.WatchResponse` | pkg/mmesh/etcdrangewatcher.go:165-180 | Each PUT is cached unmarked and reported, each DELETE is uncached and reported with the cached value if there was one |
| `WatchManager.NeverLeaks` | pkg/mmesh/modelmesh_events.go:98-220 | Over every sequence of calls, failed reconnects included, the uncancelled watch contexts are exactly those held by current entries, at most one per namespace |
| `WatchManager.EveryServiceIsWatched` | pkg/mmesh/modelmesh_events.go:98-155 | Over every sequence of calls a namespace with a service has a running watch for it through the open client of the current secret if and only if the last attempt to connect did not fail |
| `WatchManager.UpdateWatchesExactly` | pkg/mmesh/modelmesh_events.go:115-146 | A call that reports success leaves its namespace with a running watch if and only if it connected with a new secret or the last attempt to connect had not failed; an uncancelled context, running or not, is there exactly when the secret or service name changed or one was there already |
| `WatchManager.RevertRestartsNothing` | pkg/mmesh/modelmesh_events.go:115-130 | After any failed reconnect, a call with the old secret and service reports success and no watch is running anywhere |
| `WatchManager.RevertExactly` | pkg/mmesh/modelmesh_events.go:119-143 | After a failed attempt from any state, for any namespace, new ones included: a call with the old secret and another service name starts a watcher on a nil client exactly when this attempt failed in creating the client or there was none before; otherwise it reports success, leaves a context on a closed client, and no watch is running |
| `WatchManager.StateFromHistory` | pkg/mmesh/modelmesh_events.go:115-129 | Over every sequence of calls: there is no client exactly when no attempt has connected or one since the last that did failed in creating it; the last attempt failed exactly when one since the last that connected did |
| `WatchManager.NextUpdateExactly` | pkg/mmesh/modelmesh_events.go:98-146 | Over every sequence of calls, for any namespace: the next call crashes exactly when it brings the current secret and another service name and an attempt since the last that connected failed in creating the client; it reports success with no watch running exactly when it brings the current secret after a failed attempt and does not crash |
| `WatchManager.SecondFailureCrashes` | pkg/mmesh/modelmesh_events.go:119-143 | A run in which the client's creation fails, then the secret cannot be read, and going back crashes |
| `WatchManager.EventStream.UpdateWatchedService` | pkg/mmesh/modelmesh_events.go:98-146 | The whole new state, whatever order the namespaces are walked in |
| `WatchManager.EventStream.RemoveWatchedService` | pkg/mmesh/modelmesh_events.go:148-155 | Drops and cancels the namespace's watch only when it is for that service |
| `ServiceHistory.RemoveExactly` | pkg/mmesh/modelmesh_events.go:148-155 | After any sequence of calls a removal leaves the namespace with an entry exactly when it had one for another service; without an entry it has no uncancelled context; every other entry and context, and the client, are as before |
| `ServiceHistory.EntriesFromHistory` | pkg/mmesh/modelmesh_events.go:98-155 | After any sequence of calls a namespace has an entry for a service exactly when the last update for it that reported success brought that service and it has not been removed since; an entry without a service exactly when an unsuccessful update or the start made one and neither a success nor a removal of it followed; calls for other namespaces, reconnects included, do not matter |
| `ServiceHistory.ContextsUseLastRoot` | pkg/mmesh/modelmesh_events.go:157-170 | After any sequence of calls every uncancelled context is under the root of the last connection that succeeded |
| `ServiceHistory.RestartsExactly` | pkg/mmesh/modelmesh_events.go:115-143 | A successful update keeps the namespace's context exactly when it brings the current secret and service; otherwise it starts one that was never there before |
| `WatchManager.EventStream.CancelAll` | pkg/mmesh/modelmesh_events.go:119-121 | Cancels every held context and nothing else |
| `WatchManager.EventStream.RefreshAll` | pkg/mmesh/modelmesh_events.go:132-138 | Starts a new watch for every namespace, the calling one for the new service name |
| `ModelNames.RoundTripExactly` | pkg/mmesh/modelmesh_events.go:198-209 | Naming a concrete model, decoding its key and resolving the event returns the predictor's name, namespace and source if and only if name and source are not empty, no "__" lies in or starts just before the source, and the namespace has no "_" |
| `ModelNames.DecodeExactly` | controllers/predictor_controller.go:381-384 | The registry key decodes to its own name and source exactly under the conditions on those two |
| `ModelNames.RecognisedExactly` | pkg/mmesh/modelmesh_events.go:198-209 | For any key: it is recognised, and as which name and source, exactly when it is a name, "__", a source, "-" and ten characters with no later "__" |
| `ModelNames.ResolveMeans` | pkg/predictor_source/predictor_source.go:59-68 | For any request: its name stays, what follows the last "_" is the namespace, and what precedes it the source, the default when that is empty or there is no "_" |
| `ModelNames.ResolveExactly` | pkg/predictor_source/predictor_source.go:59-68 | An event's namespace resolves to the original namespace and source exactly when the namespace has no "_" |
| `ModelNames.PrefixFree` | pkg/mmesh/modelmesh_events.go:157-195 | No watched prefix extends another, for components without "/", whether in the controller's namespace or under mm_ns |
| `ModelNames.KeyReachesOneWatcher` | pkg/mmesh/modelmesh_events.go:157-195 | No etcd key reaches the watchers of two (namespace, service, registry) targets |
| `PredictorStatus.Status.UpdateFromVModel` | controllers/predictor_controller.go:418-547 | Computes the merged status, whose fields the next six rows characterise by the report, and returns true exactly when a field other than Available differs from entry |
| `PredictorStatus.ActiveShownExactly` | controllers/predictor_controller.go:269-274 | For every previous status and report the active state is Pending exactly when there is no active model, Standby, Loaded, Loading or FailedToLoad exactly by its raw status, a load that failed for want of a running pod showing as Loading, and as before exactly when the status is not recognised |
| `PredictorStatus.TargetShownExactly` | controllers/predictor_controller.go:437-462 | The target state: empty when the target is the active model or is not recognised, as before when it is missing, otherwise by its raw status |
| `PredictorStatus.TransitionShownExactly` | controllers/predictor_controller.go:278-282 | The transition for each definition status, a failed one being in progress exactly when the target is loading; unchanged with an invalid spec, like the failure |
| `PredictorStatus.CopiesShownExactly` | controllers/predictor_controller.go:432-459 | Total and failed copies are the numbers of positions holding a copy, or a failed one, in the active model's list and, when it is another model, in the target's; a model whose load failed for want of a pod counts none |
| `PredictorStatus.FailureShownExactly` | controllers/predictor_controller.go:479-520 | When no failure is shown, when the last one is kept, and otherwise its reason, message (the first error or the fixed text), model id (the target's), location and time (from the first failed copy, or now, or the recorded time while it is at most 20 seconds old) |
| `PredictorStatus.RestShownExactly` | controllers/predictor_controller.go:522-534 | Availability from the shown state and failure, and the endpoints |
| `PredictorStatus.ActiveExactly` | controllers/predictor_controller.go:116-182 | Over every run of reconciliations, invalid specs included, the active state shown is what the last report with a recognised active model says, or what was shown at the start |
| `PredictorStatus.OtherEventsShow` | controllers/predictor_controller.go:118-148 | What missing addresses, a name taken by another source and an invalid spec show |
| `PredictorStatus.QuietUpdateExactly` | controllers/predictor_controller.go:522-547 | When it returns false, Available is unchanged exactly when it satisfied its own formula on entry |
| `PredictorStatus.SettledAvailableExactly` | controllers/predictor_controller.go:522-524 | With no transition under way a predictor is available exactly when its model is unregistered, loaded, or not failed and either reporting an error or not waiting before; a status that is not recognised leaves it to the state shown before |
| `PredictorStatus.RepeatExactly` | controllers/predictor_controller.go:468-520 | The same report a second time changes the status exactly when it restamps a failure time over 20 seconds old |
| `PredictorStatus.ChangesAreSpaced` | controllers/predictor_controller.go:502-512 | However often one report is processed, changes after the first are more than 20 seconds apart |
| `PredictorStatus.WaitingExactly` | controllers/predictor_controller.go:479-520 | Over every run of reconciliations the status waits for a runtime if and only if some event made it wait, or it waited at the start, and every event since reported a target that is there, not loaded and without an error |
| `PredictorStatus.NowhereToLoadStaysBlocked` | controllers/predictor_controller.go:469-474 | A failed transition shows as in progress exactly when the target's raw status is loading, so the case the comment describes is shown as blocked, waiting and unavailable |
| `PredictorStatus.AvailableChangesSilently` | controllers/predictor_controller.go:162-167 | A run in which Available turns false with nothing reported as changed |
| `PredictorStatus.ThreeMoreCharacters` | controllers/predictor_controller.go:406-414 | The three characters read after the message prefix are always there: for every message with that prefix and suffix the two cannot overlap |
| `PredictorStatus.FirstFailed` | controllers/predictor_controller.go:493-502 | Finds the first copy that failed to load, or none when none did |
| `PredictorStatus.Status.FailureInfo` | controllers/predictor_controller.go:479-514 | The failure to show: location and time from the first failed copy, otherwise the recorded time while it is at most 20 seconds old |
| `PredictorStatus.Status.SetStatusFailureInfo` | controllers/predictor_controller.go:549-556 | Records the failure and tells whether it differs |
| `PredictorStatus.CountModelCopyStates` | controllers/predictor_controller.go:558-575 | Adds to each counter the copies in that state and to the last all copies that are not nil |
| `FailureReasons.ReasonTellsTheTruth` | controllers/predictor_controller.go:386-416 | When model-mesh finds no instance for a predictor's type, the reason shown is RuntimeUnhealthy exactly when an enabled multi-model runtime supports the predictor; otherwise it is RuntimeNotRecognized exactly when a runtime was named |
| `FailureReasons.NoHomeExactly` | controllers/predictor_controller.go:386-416 | How a "no running instances" message decodes, by its type and required labels |
| `Placement.PlacementAgrees` | controllers/servingruntime_controller.go:553-564 | For every set of runtimes and every predictor free of the vertical bar, an enabled multi-model runtime supports the predictor exactly when its type label is a key of the generated constraints and the required labels are among the runtime's |
| `Placement.KnownExactly` | controllers/modelmesh/cluster_config.go:126-142 | A predictor's type label is a key of the constraints exactly when some enabled multi-model runtime supports it |
| `Placement.UnplacedAgreesExactly` | controllers/modelmesh/cluster_config.go:127-129 | For a disabled or single-model runtime the two agree exactly when it does not support the predictor or an enabled one does |
| `Placement.SupportsMeans` | controllers/servingruntime_controller.go:553-564 | What a user expects (the named runtime, or an auto-selected format of that type and version and a served protocol, v2 also through the REST proxy) always implies support; the two agree if and only if the predictor names its runtime, its protocol is not served, a format is of its type, or none is misread because of a colon in a name |
| `Placement.SupportsMeansWithoutColon` | controllers/servingruntime_controller.go:553-564 | Without a colon in the names of model types the label test means what a user expects |
| `Placement.ColonBreaksMeaning` | controllers/modelmesh/model_type_labels.go:33-39 | A runtime for the type "a:b" supports a predictor of type "a" and version "b" |
| `Placement.SupportsExactly` | controllers/servingruntime_controller.go:553-564 | Support label by label: the runtime's own name, or its model type and protocol labels |
| `Placement.TypeLabelReads` | controllers/modelmesh/model_type_labels.go:59-75 | The predictor's label: the named runtime, else its model type, version and protocol as far as given |
| `Placement.ConstraintsDetermined` | controllers/modelmesh/cluster_config.go:126-142 | Without a vertical bar in names the constraints do not depend on the order of the loops |
| `PlacementExact.OrderShowsExactly` | controllers/modelmesh/cluster_config.go:126-142 | For any runtimes: two orders of the loops leave different constraints if and only if some key is asked for with two different lists of labels |
| `PlacementExact.AmbiguousNeedsBar` | controllers/modelmesh/cluster_config.go:131-137 | That takes a vertical bar in a name |
| `PlacementExact.OrderLeaving` | controllers/modelmesh/cluster_config.go:126-142 | Whatever an enabled multi-model runtime asks for under a key, some order of the loops leaves there |
| `PlacementExact.AgreeInEveryOrderExactly` | controllers/servingruntime_controller.go:553-564 | For any runtimes and any predictor: the controller's test and the constraints agree in every order if and only if a supporting runtime has all labels of every list asked for under the predictor's type, and there is one, and one that does not support it has all labels of none |
| `PlacementExact.AgreeExactly` | controllers/servingruntime_controller.go:553-564 | For runtimes without a vertical bar in names and any predictor: the two agree for an enabled multi-model runtime if and only if it does not support the predictor or the type label reads as one label or as a model type and a protocol |
| `PlacementExact.BarBreaksPlacement` | controllers/modelmesh/cluster_config.go:131-137 | Two runtimes, one with a vertical bar in a format's name, and two orders of the loops: with one the relations agree, with the other the controller counts a predictor model-mesh will not place |
| `PlacementExact.BarInNamedRuntime` | controllers/modelmesh/model_type_labels.go:58-75 | A predictor that names a runtime with a vertical bar in its name is counted for another runtime while the constraints do not know its type |
| `Placement.CalculateConstraintData` | controllers/modelmesh/cluster_config.go:110-146 | The result is what some order of visiting runtimes and labels writes; its keys are exactly those the enabled multi-model runtimes bring in plus the default, each with a requirement one of them asks for |
| `Placement.GetServingRuntimeLabelSets` | controllers/modelmesh/model_type_labels.go:26-50 | The model type, protocol and runtime labels of a runtime |
| `Placement.RuntimeSupportsPredictor` | controllers/servingruntime_controller.go:553-564 | True exactly when every part of the predictor's type label is a label of the runtime |
| `ScaleToZero.ZeroExactly` | controllers/servingruntime_controller.go:456-527 | Over every run with a fixed grace period a runtime with replicas configured gets none if and only if no registry has a supporting predictor and either none was seen since tracking began or the grace period has passed since the first predictor-free check |
| `ScaleToZero.SameDeadline` | controllers/servingruntime_controller.go:508-520 | Every other predictor-free check keeps the replicas and returns a delay in (0, grace] that ends at the first predictor-free check plus the grace period |
| `ScaleToZero.FindsExactly` | controllers/servingruntime_controller.go:537-551 | While every registry answers, a predictor is found exactly when some registry holds one of the runtime's namespace that the runtime supports |
| `ScaleToZero.RuntimeHasPredictors` | controllers/servingruntime_controller.go:537-551 | The first registry that has one or fails decides |
| `ScaleToZero.Reconciler.DetermineReplicasAndRequeueDuration` | controllers/servingruntime_controller.go:456-535 | With a supporting predictor, or with the feature off, the answer is the runtime's replicas, else the configured number of pods, at once; with a failing registry nothing is decided or noted; any decision is for none or for all of them; the decision and what is remembered follow the grace period; other runtimes are untouched |
| `ScaleToZero.ChecksAnswer` | controllers/servingruntime_controller.go:456-527 | Over every run: a check that finds a predictor answers the configured count with no delay, one in which a registry fails decides nothing and leaves the remembered transition, and only a predictor-free check asks to be called again |
| `ScaleToZero.Reconciler.RemoveRuntimeFromInfoMap` | controllers/servingruntime_controller.go:444-454 | Forgets the runtime and no other |
| `Overlay.MergeMeans` | controllers/config/overlay.go:36-104 | At every path the merge has the subtree, of whatever kind, of the one that has one there and the merge of the two where both do; so the overlay's string if it has one and the source's otherwise |
| `Overlay.MergeLeavesRest` | controllers/config/overlay.go:36-104 | What the overlay does not reach is left as it was: numbers, booleans, nulls and lists of plain values included, and also where differing names abort the merge |
| `Overlay.ListMerges` | controllers/config/overlay.go:83-104 | A list is merged element by element, and an element no overlay element is matched with is as it was |
| `Overlay.MergeTwice` | controllers/config/overlay.go:36-104 | Merging a fitting overlay twice equals merging it once |
| `Overlay.NoPanic` | controllers/config/overlay.go:36-104 | A fitting overlay (kinds agree where both have something, list elements have distinct names with a match) merges without panic |
| `OverlayExact.PanicsExactly` | controllers/config/overlay.go:36-104 | For any source and any overlay, repeated names in its lists included, the merge panics if and only if, in the two as they were, kinds disagree or are not handled under a shared key, or an overlay element is not a map, cannot be compared by name, or has something to write and no match; an element whose name came before is held against its match and the earlier elements of that name |
| `Overlay.OverlayMap` | controllers/config/overlay.go:36-81 | The outcome is that of some order of the keys; it is the merge's, a panic included, unless the overlay of some map is for something else and the source has a null under a key of both, which may make it panic |
| `Overlay.OutcomesExactly` | controllers/config/overlay.go:36-104 | Over all orders in which the loops may walk the maps, the outcomes are exactly the merge's and, where such a null is hidden behind differing names, a panic |
| `Overlay.OrderShowsExactly` | controllers/config/overlay.go:36-104 | The order matters if and only if the merge does not panic and there is such a null |
| `Overlay.NullBehindName` | controllers/config/overlay.go:38-53 | {name: a, x: null} under {name: b, x: y}: with the name first the source is left alone, with x first the loop panics |
| `Overlay.Applies` | controllers/config/overlay.go:38-53 | The first loop does what some order of the overlay's keys gives, and panics only at a null under a shared key |
| `OverlayExact.NeverPanicsExactly` | controllers/config/overlay.go:36-104 | The loops panic in no order if and only if nothing stands in the way of the merge and there is no such null |
| `OverlayExact.FitsInEveryOrderExactly` | controllers/config/overlay.go:36-104 | For a fitting overlay the loops give the merge in every order, without panic, if and only if no map left alone for its name has a null under a shared key; other nulls do not matter |
| `Overlay.OverlaySlice` | controllers/config/overlay.go:83-104 | The same for lists: each overlay element is merged into the first source element of its name, with the panics for elements that are not maps, names that cannot be compared and elements without a match |

## Left out

- The outer loops of `StartWatch` that reconnect for ever: they are steps of `WatchProtocol`. Retry delays and failed `Refresh` calls, which change nothing, have no step. The loops in `WatchSource` run alone; what happens between their rounds is `WatchProtocol`'s part.
- EtcdHistory leaves out a load cut short by cancellation, which `EtcdMirror` has.
- Liveness: nothing is said about events arriving eventually.
- `streamPredictorSource.StartWatch`: a second front end to the same cache, driven by timing.
- The keys-only mode of the range watcher: it changes what etcd returns, not what the watcher does with it.
- Two watchers share each context of `WatchManager`; the model counts contexts, not watchers. Etcd client configuration and TLS are left out.
- Updating manifests in place: `Overlay` works on values, so the sharing of overlay sub-maps with the merged manifest is not captured.
- `PredictorStatus` runs are in memory: the write back through a registry, its conflicts, and the truncation of times to seconds when stored are not modelled. Names a status shows are modelled as values of enumerations.
- `Hash` is any string of ten hexadecimal digits.
- JSON encoding of the constraint map, of vmodel records and of model keys.
- The decision when to load a model at once, the validation of predictor specs, and requeue results of a reconciliation: short case checks.
- Predictor and InferenceService registries other than the cached one: `ScaleToZero` takes what a registry holds as given.
- Deployment assembly, autoscaling, PVC collection, the webhook, `KubeResolver`, `MMService` and `ConfigProvider`: field filling, connection handling or easy collection facts.
