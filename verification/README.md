# Argo CD Monorepo Controller: verified model

The controller watches Argo CD applications and annotates each one with its *change revision*: the last commit
that actually changed it, as opposed to the last commit it was synced to. This project models the parts of the
program on which that promise rests, and proves what they guarantee together.

- **Work queue and worker pool** (`AppQueue`, `KeyedQueue`, `WorkerPool`). The queue is a class with list nodes, a
  key map, a processing set and a pending map; it refines a queue of values. The pool is an interleaving of
  producers, one dispatcher, a bounded channel and any number of workers. One joint invariant yields mutual
  exclusion per application, no lost update, no overtaking, no deadlock and draining.
- **Repository lock** (`PathLock`, `RepositoryLock`, `LockProtocol`). The per-path state is a class; every
  interleaving of callers and closers on a path is a run of a step relation in which a closer unlocks before it
  broadcasts.
- **Change revision** (`GitClient`, `ChangeScan`, `Revisions`, `Annotations`, `Tracking`, `SyncRuns`). From the git
  client's cached queries and the repo server's scan of the commits between two revisions, through reading these
  revisions out of status and history, to the merge patch of four annotations; the exact condition under which one
  reconciliation keeps the annotated change revision accurate; and whole runs of an application that changes in any
  way and is reconciled at any time, with any number of sources.
- **Wire codec** (`Varint`, `Wire`, `Grammar`, `Codec`, `Canonical`). The generated marshalling code fills a
  buffer of the declared size from its end; the unmarshalling code reads forwards with 64-bit overflow checks. Both
  follow the sections "Base 128 Varints", "Message Structure" and "Last One Wins" of the Protocol Buffers Encoding
  specification. The messages are `ChangeRevisionRequest` and `ChangeRevisionResponse` of the repo server and
  `CredentialsRequest` and `CredentialsResponse` of askpass.
- **Cache** (`CacheKeys`, `CacheStore`, `GitRefsLock`). Formatted keys over an in-memory store, and the
  set-if-absent lock on a repository's git references.

Calls into code outside the repository are parameters with a contract: the git commands (`GitClient.Commands`,
given for a line of commits by `Tracking.CommandsOf`), the JSON codec (`Annotations.RoundTrips`), the repo server as
seen by the controller (`Annotations.Ask`), the nested repository message's own reader (`accepts`). Blocking, expiry,
timeouts, failures and wake-ups are steps of the protocols.

Five expectations one may have of the code turned out false, and are stated here as exact conditions.

- Callers of the repository lock that pass an empty revision do not exclude each other:
  `LockProtocol.ExclusiveIffNamed`.
- That the sources of a history entry do not match each other does not make the revision lookup independent of
  their order, because matching is not transitive: `Revisions.DistinctSourcesMayBothMatch`, and the condition in
  `Revisions.OrderIrrelevantIff`. For a source that is itself in the entry it does:
  `Revisions.DistinctAndListedUnambiguous`.
- A history entry that was never reconciled, a reconciled sync that never completed, or a repo-server error can make
  the annotated change revision stale for good: `Tracking.UpdateAccurateIff` gives the exact condition on positions,
  `SyncRuns.UnseenSyncMissesChange` an application it happens to. Listing a commit up to itself yields that commit
  (`util/git/mrp_client.go:53-55`), so a repeated sync does not restart tracking as a way back does.
- Renaming a cache entry to its own key deletes it: `CacheStore.RenameKeepsValueIff`.
- A request without a repository is not answered with an invalid-argument status, because the deferred metrics
  call (`reposerver/repository/mrp_repository.go:32-36`) dereferences the missing repository before the handler
  returns: `ChangeScan.GetChangeRevision`.

`dafny verify dfyconfig.toml` verifies the whole project.

## Model

| member | source | states |
|---|---|---|
| AppQueue.Position | mrp_controller/controller/appqueue.go:61-69 | finds the first entry of a key, or the end of the list when there is none |
| AppQueue.EnqueueWellFormed | mrp_controller/controller/appqueue.go:51-75 | enqueueing keeps one entry per key, no listed key in processing, updates pending only for processed keys |
| AppQueue.DequeueWellFormed | mrp_controller/controller/appqueue.go:108-117 | dequeueing keeps the same invariant |
| AppQueue.DoneWellFormed | mrp_controller/controller/appqueue.go:121-137 | finishing a key, with or without a pending update to re-queue, keeps the same invariant |
| AppQueue.ServedInPosition | mrp_controller/controller/appqueue.go:51-137 | the app at position p is what the (p+1)-th dequeue returns, whatever enqueues, replacements and re-queues interleave |
| AppQueue.KeyInjective | mrp_controller/controller/appqueue.go:52 | two apps with the same "namespace/name" key have the same namespace and name if no namespace holds a slash |
| AppQueue.KeyUnambiguous | mrp_controller/controller/appqueue.go:52 | an app's key can belong to no other app if and only if neither its namespace nor its name holds a slash |
| AppQueue.KeyExample | mrp_controller/controller/appqueue.go:52 | application guestbook in namespace argocd has the key argocd/guestbook |
| KeyedQueue.ReplaceInPlace | mrp_controller/controller/appqueue.go:62-66 | inserting after a node and then removing that node replaces it at its own position |
| KeyedQueue.ReplaceStep | mrp_controller/controller/appqueue.go:51-75 | replacing a queued app's node and key-map entry refines the value-level enqueue and keeps key map and list in agreement |
| KeyedQueue.AppendStep | mrp_controller/controller/appqueue.go:51-75 | the same for an app not yet queued |
| KeyedQueue.DequeueStep | mrp_controller/controller/appqueue.go:108-117 | removing the front node and its key refines the value-level dequeue and keeps key map and list in agreement |
| KeyedQueue.KeyedAppQueue.constructor | mrp_controller/controller/appqueue.go:34-43 | a new queue is empty, valid and without a gauge |
| KeyedQueue.KeyedAppQueue.SetLengthGauge | mrp_controller/controller/appqueue.go:78-83 | from then on the gauge shows the number of listed and pending apps |
| KeyedQueue.KeyedAppQueue.ReportQueueLength | mrp_controller/controller/appqueue.go:85-89 | a gauge, if attached, is set to the number of listed and pending apps |
| KeyedQueue.KeyedAppQueue.Enqueue | mrp_controller/controller/appqueue.go:45-49 | the contents become those of the value-level enqueue; the dispatcher is signalled exactly when the key is not being processed |
| KeyedQueue.KeyedAppQueue.EnqueueLocked | mrp_controller/controller/appqueue.go:51-75 | the same with the mutex held, whatever the gauge showed before |
| KeyedQueue.KeyedAppQueue.DequeueWait | mrp_controller/controller/appqueue.go:92-117 | takes the front item and marks its key as processing; on an empty list waits, or reports cancellation, changing nothing |
| KeyedQueue.KeyedAppQueue.Done | mrp_controller/controller/appqueue.go:121-137 | releases the key and re-queues its pending update with a signal; an unknown key changes nothing |
| WorkerPool.StepInv | mrp_controller/controller/appqueue.go:45-195 | every step of producer, dispatcher or worker keeps the joint invariant of queue, hand, channel, workers and logs |
| WorkerPool.RunInv | mrp_controller/controller/appqueue.go:45-195 | so does every run |
| WorkerPool.StepTrail | mrp_controller/controller/appqueue.go:45-195 | only a producer changes what survives of a key's updates, and only by making the newest one its last |
| WorkerPool.MutualExclusion | mrp_controller/controller/appqueue.go:51-137 | in every run the processing set is, without duplicates, the keys in hand, channel and workers, and disjoint from the list; no two workers run one app; Done is only called for a processed key; the channel bound holds |
| WorkerPool.NoLostUpdate | mrp_controller/controller/appqueue.go:45-195 | in every run the values handed over for a key are an in-order subsequence of those enqueued, and the newest is pending, listed, on its way or the last one handed over |
| WorkerPool.HandedInOrderTaken | mrp_controller/controller/appqueue.go:147-193 | workers get the items in exactly the order in which they were taken from the list; those not yet handed over are in the channel and in hand |
| WorkerPool.DispatcherBlockedIff | mrp_controller/controller/appqueue.go:161-177 | in every run the dispatcher is stuck with an item if and only if the channel holds two items per worker |
| WorkerPool.WokenIffWork | mrp_controller/controller/appqueue.go:51-137 | a waiting dispatcher is woken by exactly the steps after which the list is not empty |
| WorkerPool.AllWorkersBusy | mrp_controller/controller/appqueue.go:173-193 | for every number of workers there is a run in which all of them run at once |
| WorkerPool.EachMayMove | mrp_controller/controller/appqueue.go:147-193 | an idle worker may receive whenever the channel holds something, a running one may finish, an awake dispatcher may take or wait |
| WorkerPool.StepLowersWeight | mrp_controller/controller/appqueue.go:147-195 | every step but a new event strictly lowers the weight of the work left |
| WorkerPool.RunIsBounded | mrp_controller/controller/appqueue.go:147-195 | a run without new events is no longer than the weight it starts from |
| WorkerPool.NeverStuck | mrp_controller/controller/appqueue.go:147-195 | with at least one worker, some step other than a new event is enabled until the pool is quiescent |
| WorkerPool.Drains | mrp_controller/controller/appqueue.go:147-195 | from every state of the invariant the pool can reach quiescence on its own |
| WorkerPool.AllProcessedWhenBlocked | mrp_controller/controller/appqueue.go:147-195 | when nothing but a new event is possible, the pool is quiescent and the handler's last call for each app carried its newest update |
| WorkerPool.NoWorkersNoWork | mrp_controller/controller/appqueue.go:173-195 | without workers nothing is ever handed over |
| RepositoryLock.RepositoryState.constructor | reposerver/repository/lock.go:23-27 | a new path is free |
| RepositoryLock.RepositoryState.TryLock | reposerver/repository/lock.go:51-75 | one pass of the retry loop: acquire and check out, share, fail or wait, with the whole new state |
| RepositoryLock.RepositoryState.Release | reposerver/repository/lock.go:30-49 | one close: the count goes down; the last holder frees the path and must notify |
| RepositoryLock.RepositoryLocks.constructor | reposerver/repository/lock.go:11-13 | no path has a state yet |
| RepositoryLock.RepositoryLocks.StateFor | reposerver/repository/lock.go:21-28 | finds or creates the one state object of a path without changing any lock state |
| RepositoryLock.RepositoryLocks.Attempt | reposerver/repository/lock.go:21-76 | an attempt acts on its own path only |
| RepositoryLock.RepositoryLocks.Close | reposerver/repository/lock.go:30-49 | a close acts on its own path only |
| LockProtocol.StepInv | reposerver/repository/lock.go:21-76 | every step of a caller or closer that names a revision keeps counts, holders, log and wake-ups consistent |
| LockProtocol.RunInv | reposerver/repository/lock.go:21-76 | so does every run |
| LockProtocol.ExclusiveIffNamed | reposerver/repository/lock.go:51-71 | over all runs of callers drawing on a set of revisions, simultaneous holders share the checked-out revision and one that refused concurrency is alone, if and only if the empty revision is not in that set |
| LockProtocol.EmptyRevisionBreaksExclusion | reposerver/repository/lock.go:51-64 | two callers with the empty revision, both refusing company, hold the path at once |
| LockProtocol.CheckoutFixedWhileHeld | reposerver/repository/lock.go:30-76 | until a holder closes, no run of the others changes the revision, the open checkout or that holder |
| LockProtocol.LockAccounting | reposerver/repository/lock.go:30-76 | in every run opens and closes alternate and match, the count is the number of holders, the revision is empty exactly at count zero, and parked callers have a holder or a pending broadcast to wake them |
| LockProtocol.TryOutcome | reposerver/repository/lock.go:51-75 | in every reachable state an attempt holds the path if and only if it is free and the checkout opens, or some holder asked for the same revision and both allow company; else it waits, or leaves when the checkout fails; with the count, log and state of each case |
| LockProtocol.ManyShare | reposerver/repository/lock.go:66-70 | any number of callers of one revision that allow company can hold the path at once, with one checkout |
| LockProtocol.NoDeadlock | reposerver/repository/lock.go:30-76 | in every reachable state with callers, some caller can move |
| LockProtocol.StepLowersWeight | reposerver/repository/lock.go:30-76 | every step but a new arrival brings the callers strictly closer to leaving, although a broadcast sends waiting ones back to try |
| LockProtocol.RunIsBounded | reposerver/repository/lock.go:30-76 | a run without new arrivals is no longer than the weight it starts from |
| LockProtocol.AllServedWhenBlocked | reposerver/repository/lock.go:30-76 | when nothing but a new arrival is possible, every caller has been served or refused, the path is free and the checkout closed |
| LockProtocol.FailedInitLeavesFree | reposerver/repository/lock.go:53-59 | a failed checkout leaves the path free and the others as they were |
| GitClient.NativeGitClient.constructor | util/git/mrp_client.go:9-23 | a client of one repository on a shared cache, with each cache switched on or off |
| GitClient.NativeGitClient.RunCached | util/git/mrp_client.go:56-84 | a hit is returned; otherwise the command runs and a non-empty result is stored |
| GitClient.NativeGitClient.ListRevisions | util/git/mrp_client.go:35-84 | special cases for an empty, an invalid and an equal revision, then the cached command |
| GitClient.NativeGitClient.DiffTree | util/git/mrp_client.go:86-125 | an invalid revision is refused, else the cached command |
| GitClient.CommitsAreClean | util/git/git.go:19-28 | commit hashes hold no bar, so keys built from them satisfy the premise of the collision lemma |
| GitClient.CommitSHAIff | util/git/git.go:19-28 | a commit hash is exactly forty hexadecimal digits of either case |
| GitClient.ListsWithoutGit | util/git/mrp_client.go:38-55 | no previous revision lists the target, a hash up to itself lists itself, anything but hashes is refused |
| GitClient.CommandRunsOnce | util/git/mrp_client.go:57-84 | a non-empty answer is given to every later caching call whatever git would say by then; errors and empty answers are not kept |
| GitClient.WithoutCachingUntouched | util/git/mrp_client.go:57-84 | a client that does not cache neither reads nor writes the cache |
| GitClient.WriteKeepsFaithful | reposerver/cache/cache.go:520-552 | storing what git says for one request leaves every request of every repository answered as git answers it |
| GitClient.ServeIsFresh | util/git/mrp_client.go:35-125 | from such a cache every query is answered as without a cache, and the cache stays such |
| GitClient.CachingIsInvisible | util/git/mrp_client.go:35-125 | so in every interleaving of queries of all repositories, reference writes and expiries |
| ChangeScan.ScanFindsFirst | reposerver/repository/mrp_repository.go:101-123 | the scan stops at the first revision that touches the paths or cannot be read, and reports which |
| ChangeScan.GetChangeRevision | reposerver/repository/mrp_repository.go:22-124 | early returns, errors and scan; panics exactly without a repository; a successful answer is the newest touching commit of the range, the current revision for an empty range, or empty when none touches; on every path all queries lie between locking the checkout at the resolved revision and unlocking it, and earlier exits do not lock |
| ChangeScan.ScanRevisions | reposerver/repository/mrp_repository.go:101-123 | the loop reports the first revision that does not pass and reads no file list beyond it |
| Revisions.NamesDiffer | mrp_controller/service/mrp_service.go:29-34 | the controller's annotation keys have different names |
| Revisions.NamesByDomain | mrp_controller/service/mrp_service.go:29-34 | the names of the annotation keys; the array keys are the plurals of the single ones |
| Revisions.FirstMatch | mrp_controller/service/mrp_service.go:445-452 | the first matching source of a history entry, or -1 when there is none |
| Revisions.GetRevisionFromHistory | mrp_controller/service/mrp_service.go:430-462 | the revision of the source at the same position if it matches, else of the first that does, else empty |
| Revisions.TrimSpaceIs | mrp_controller/service/mrp_service.go:414-416 | trimming removes all white space of both ends and nothing else |
| Revisions.FoundIffSameSource | mrp_controller/service/mrp_service.go:410-462 | for an entry of one source, its revision is found if and only if the trimmed names agree and are not blank, or repository, path, chart, ref and target revision agree, none counting as HEAD |
| Revisions.ChangedSourceFindsNothing | mrp_controller/service/mrp_service.go:410-462 | an unnamed source that changed any one of these fields finds nothing |
| Revisions.MissingReadsEmpty | mrp_controller/service/mrp_service.go:403-408 | a revision read is the one at that position, and empty exactly outside the list or when that one is |
| Revisions.ViewsAgree | mrp_controller/service/mrp_service.go:477-522 | a sync seen while running and the same sync seen when done give the same (current, previous), for single- and multi-source apps |
| Revisions.FoundInPairs | mrp_controller/service/mrp_service.go:430-462 | the lookup returns the revision of some matching source, and empty without one only if none matches |
| Revisions.OrderIrrelevantIff | mrp_controller/service/mrp_service.go:430-462 | the revision read for a source survives every permutation of an entry's sources with their revisions if and only if all matching sources carry one revision |
| Revisions.DistinctAndListedUnambiguous | mrp_controller/service/mrp_service.go:410-462 | for a source that is itself in the entry, pairwise non-matching sources are enough: every order yields its own revision |
| Revisions.DistinctSourcesMayBothMatch | mrp_controller/service/mrp_service.go:410-462 | an entry of two sources that do not match each other, its swap, and a source for which the two give different revisions |
| Annotations.ProcessSource | mrp_controller/service/mrp_service.go:145-202 | the loop body: which sources are asked about, and the new change and git revision of each case |
| Annotations.ProcessSources | mrp_controller/service/mrp_service.go:145-202 | the loop succeeds exactly when no source that must be asked about times out, and then yields all revisions in order |
| Annotations.MakeChangeRevisionPatch | mrp_controller/service/mrp_service.go:120-212 | fails exactly if the application cannot be read, is refused exactly if the manifest paths annotation is absent or empty, abandoned exactly if a call that is made times out, otherwise the patch of four annotations |
| Annotations.NoPathsNoChange | mrp_controller/service/mrp_service.go:127-130 | an application without manifest paths is left as it is |
| Annotations.HelmNeverAsked | mrp_controller/service/mrp_service.go:167-174 | a source with a chart is never asked about: replies make no difference to it and cannot time out |
| Annotations.GitAskedIff | mrp_controller/service/mrp_service.go:176-180 | any other source is asked about if and only if its current revision is known and is not noted yet, or no change revision is |
| Annotations.OutOfSyncLeftAlone | mrp_controller/service/mrp_service.go:383-401 | an idle application that is not in sync keeps its notes whatever is replied |
| Annotations.UnansweredAskedAgainIff | mrp_controller/service/mrp_service.go:180-187 | a source whose call failed is asked about again if and only if it has no change revision |
| Annotations.BlankReadsAsNone | mrp_controller/service/mrp_service.go:58-68 | a blank array annotation counts as none |
| Annotations.MergeRecords | mrp_controller/service/mrp_service.go:214-255 | the patch holds exactly the entries that have to change, and merging it records all four values |
| Annotations.StaleMergeRecordsIff | mrp_controller/service/mrp_service.go:203-255 | a patch made from a queued copy records all four values in what the cluster holds by then if and only if every value the copy has already, and the patch therefore leaves out, is still there |
| Annotations.ReconcileRecords | mrp_controller/service/mrp_service.go:120-255 | an applied patch touches the four controller keys only, the arrays read back as computed, and each single value is element 0 of its array |
| Annotations.ReadsBack | mrp_controller/service/mrp_service.go:58-108 | the next reconciliation reads exactly what the last one recorded |
| Annotations.SettledIffSameRecord | mrp_controller/service/mrp_service.go:145-255 | after a patch the next patch is empty if and only if the same revisions would be recorded again |
| Annotations.OnePatchSettlesIff | mrp_controller/service/mrp_service.go:145-255 | with status and replies fixed one patch is enough if and only if no Helm source moved to another version; so always for git sources |
| Annotations.Converges | mrp_controller/service/mrp_service.go:145-255 | with status and replies fixed two patches are always enough |
| Tracking.NewestIs | reposerver/repository/mrp_repository.go:101-123 | the newest touching position of a range: it touches and nothing later does, or nothing does |
| Tracking.LineExample | util/git/git.go:19-28 | there are lines of commit hashes |
| Tracking.ReconcileAccurateIff | mrp_controller/service/mrp_service.go:145-202 | from an accurate annotation (c, g), reconciling a move from p to n is accurate for all contents of the commits if and only if n < p, or c <= n and p is not past g, or c <= n and p = n = g + 1 |
| Tracking.ErrorAccurateIff | mrp_controller/service/mrp_service.go:163-187 | after a repo-server error the annotation is still accurate for all contents if and only if the new revision lies between change and git revision |
| Tracking.ListedOnLine | util/git/mrp_client.go:35-84 | on a line of commits the client lists those after previous up to current, newest first, and for equal revisions that one commit |
| Tracking.ReplyOnLine | reposerver/repository/mrp_repository.go:69-123 | the repo server answers the newest touching commit of those, current for a way back, empty when none touches |
| Tracking.ReplyOffLine | reposerver/repository/mrp_repository.go:69-95 | without a previous revision the answer is current; with an unknown one it is an error |
| Tracking.UpdateIsNextChange | mrp_controller/service/mrp_service.go:145-202 | asking about two commits and folding in the reply is the step on positions of `ReconcileAccurateIff` |
| Tracking.UpdateWithoutAnswer | mrp_controller/service/mrp_service.go:163-187 | without an answer the git revision moves and the change revision does not, the step of `ErrorAccurateIff` |
| Tracking.SafeIsAccurate | mrp_controller/service/mrp_service.go:145-202 | a safe reconciliation of a source keeps its annotation accurate, answered or not |
| Tracking.UnsafeIsStale | mrp_controller/service/mrp_service.go:145-202 | for an unsafe one, commit contents for which an accurate annotation becomes stale |
| Tracking.UpdateAccurateIff | mrp_controller/service/mrp_service.go:145-202 | for a source that is asked about, the annotation stays accurate for all contents of the commits if and only if the positions of notes, previous and current revision are safe |
| SyncRuns.CopyReadsBack | mrp_controller/service/mrp_service.go:120-255 | after merging the patch of an older copy into the application as it is, every source reads back what was computed from the copy, if what the copy had right is still so |
| SyncRuns.ObserveSource | mrp_controller/service/mrp_service.go:120-255 | one source through one recorded reconciliation, of the application as it is or of an older copy: tracked, and the copy's current revision noted |
| SyncRuns.StepTracks | mrp_controller/service/mrp_service.go:120-255 | any change of the application and any safe reconciliation of any copy, with failing or timed-out calls, keeps every git source tracked |
| SyncRuns.SafeRunsTrack | README.md:7-11 | over every run of arbitrary changes and reconciliations of current or older copies each of which is safe, no commit after a git source's change revision up to its noted revision touches the app, and the change revision touches it or is where tracking last restarted |
| SyncRuns.WithoutPathsNotAnnotated | mrp_controller/service/mrp_service.go:127-130 | over every run, safe or not, an application that never names manifest paths is never annotated |
| SyncRuns.InStepIsSafe | mrp_controller/service/mrp_service.go:383-522 | while notes and history are in step, a source is asked about from the very revision noted last, or without one |
| SyncRuns.OperationEntry | mrp_controller/service/mrp_service.go:430-462 | the entry made of the specified sources and the operation's revisions is looked up as the revision of the operation |
| SyncRuns.KeepsNewest | pkg/apis/application/v1alpha1/types.go:1309-1318 | truncating a history to any size keeps its newest entries |
| SyncRuns.TruncSize | pkg/apis/application/v1alpha1/types.go:1309-1318 | truncation keeps as many entries as asked for, or all there are |
| SyncRuns.FinishInStep | mrp_controller/service/mrp_service.go:477-522 | a finished sync keeps notes and history in step, however short the history is kept |
| SyncRuns.InOrderStep | mrp_controller/service/mrp_service.go:120-255 | beginning, finishing or giving up a sync, any drift of status and result, truncation of the history, and reconciling with timeouts keep notes and history in step, and are safe |
| SyncRuns.InOrderRunsAreSafe | mrp_controller/service/mrp_service.go:120-255 | hence every run in order is a safe run |
| SyncRuns.CaughtUp | mrp_controller/service/mrp_service.go:120-255 | reconciling a finished sync notes the revision each git source is synced to |
| SyncRuns.ReconciledMayBegin | mrp_controller/service/mrp_service.go:120-255 | one such reconciliation establishes what the next sync is required to wait for |
| SyncRuns.TracksLastChange | README.md:7-11 | from any state of an application not annotated yet, over every run of syncs in order, of any length and with any history limit, forward or back, idle, out of sync, failed or drifting in between, with timed-out reconciliations, every git source is tracked |
| SyncRuns.UnseenSyncMissesChange | mrp_controller/service/mrp_service.go:477-522 | two applications, one synced twice to one commit between reconciliations, one whose entry appears before its operation ends, whose change is missed and stays missed |
| Varint.SovIsSize | reposerver/apiclient/repository.pb.go:6318-6320 | the bit-length formula is the number of bytes the writer emits |
| Varint.EncodeInto | reposerver/apiclient/repository.pb.go:5244-5254 | writes the varint so that it ends at the offset and leaves all other bytes alone |
| Varint.OrShifted | reposerver/apiclient/repository.pb.go:12783 | bits shifted past those of a number do not meet them: their bitwise or is their sum |
| Varint.PushAdds | reposerver/apiclient/repository.pb.go:12774-12788 | in the reading loop the or never meets a set bit and stays within 64 bits, also at the tenth byte of which one bit survives |
| Varint.GatherTruncates | reposerver/apiclient/repository.pb.go:12774-12788 | or-ing shifted bytes into a 64-bit accumulator is reading the denoted number and truncating it |
| Varint.ReadBack | util/askpass/askpass.pb.go:311-321 | every 64-bit value written is read back, whatever follows |
| Varint.ExampleOfSpecification | reposerver/apiclient/repository.pb.go:5244-5254 | the example of the Protocol Buffers Encoding specification: 150 is 96 01 |
| Varint.UnendedIsBad | reposerver/apiclient/repository.pb.go:12774-12788 | ten bytes that all ask for more are refused, and so is a text that ends too early |
| Varint.ReadAt | reposerver/apiclient/repository.pb.go:12774-12788 | the reading loop yields the denoted number in 64 bits: at most ten bytes, never outside the input |
| Wire.SkipField | reposerver/apiclient/repository.pb.go:13098-13175 | for every input and with wrapping indices the skip loop ends, advances by at least one, and reports an end inside the input exactly when a complete field is there |
| Grammar.SkipsField | reposerver/apiclient/repository.pb.go:13098-13175 | every field of the recursive grammar, inside any number of open groups, is skipped to its end |
| Grammar.SkipIffField | reposerver/apiclient/repository.pb.go:13098-13175 | counting open groups skips n bytes if and only if they are a field of the grammar, with groups nested at will |
| Wire.PayloadAt | reposerver/apiclient/repository.pb.go:12800-12825 | length, overflow checks and payload agree with the unbounded reading; an overflow is an error |
| Wire.RecordAt | reposerver/apiclient/repository.pb.go:12791-13006 | one record: known field with its payload, unknown field kept as raw bytes, or error |
| Wire.FieldNumberWraps | reposerver/apiclient/repository.pb.go:12789 | the field number is the tag without its wire type, wrapped to a signed 32-bit integer |
| Wire.DecodeConcat | reposerver/apiclient/repository.pb.go:12768-13014 | decoding a concatenation is decoding its parts in turn into one message |
| Wire.UnknownAt | reposerver/apiclient/repository.pb.go:12993-13006 | an unknown field is kept byte for byte, or refused when it is incomplete or overflows |
| Wire.Unmarshal | reposerver/apiclient/repository.pb.go:12768-13014 | for every input the loop ends with the message, or the failure and what it had filled in, of the recursive decoder, never indexing outside the input |
| Codec.SizeIs | reposerver/apiclient/repository.pb.go:6264-6316 | the declared size is the length of the encoding |
| Codec.WriteField | reposerver/apiclient/repository.pb.go:5159-5170 | payload, length and tag, each written before the last, put the whole field in front of what the buffer held and leave the bytes before it alone |
| Codec.WriteTexts | reposerver/apiclient/repository.pb.go:5171-5179 | the repeated strings, written last to first, stand in order |
| Codec.MarshalToSizedBuffer | reposerver/apiclient/repository.pb.go:5149-5208 | writing backwards leaves the encoding at the buffer's end, uses exactly the declared size and leaves the rest alone |
| Codec.Marshal | reposerver/apiclient/repository.pb.go:5134-5142 | a buffer of the declared size is filled exactly |
| Codec.DecodeMerges | reposerver/apiclient/repository.pb.go:12768-13014 | decoding an encoding into a message gives their merge |
| Codec.MergeAt | reposerver/apiclient/repository.pb.go:12768-13014 | the merge is field by field: a later string wins, repeated strings are joined, nested messages merged |
| Codec.RoundTrip | reposerver/apiclient/repository.pb.go:5149-5208 | every message of the template with well-formed unknown fields is decoded from its encoding unchanged |
| Codec.ConcatenationMerges | reposerver/apiclient/repository.pb.go:12768-13014 | the concatenation of two encodings decodes to the field-wise merge |
| Codec.RequestLayout | reposerver/apiclient/repository.pb.go:5149-5208 | the request on the wire, tag by tag in field order, followed by its unrecognised bytes |
| Codec.ResponseLayout | reposerver/apiclient/repository.pb.go:5210-5242 | the response on the wire: revision under 0x0a, then unrecognised bytes |
| Codec.NonceLayout | util/askpass/askpass.pb.go:236-268 | the credentials request on the wire: nonce under 0x0a, then unrecognised bytes |
| Codec.CredentialsLayout | util/askpass/askpass.pb.go:270-309 | the credentials response on the wire: username under 0x0a, password under 0x12, then unrecognised bytes |
| Codec.RequestRoundTrip | reposerver/apiclient/repository.pb.go:5134-5208 | Unmarshal after Marshal is the identity on change-revision requests |
| Codec.ResponseRoundTrip | reposerver/apiclient/repository.pb.go:5210-5242 | the same for change-revision responses |
| Codec.NonceRoundTrip | util/askpass/askpass.pb.go:236-268 | the same for credentials requests |
| Codec.CredentialsRoundTrip | util/askpass/askpass.pb.go:270-309 | the same for credentials responses |
| Wire.SkipExact | reposerver/apiclient/repository.pb.go:13098-13175 | a successful skip depends only on the bytes it consumes |
| Canonical.FailureKeepsPrefix | reposerver/apiclient/repository.pb.go:12768-13014 | a failed call has decoded exactly the records before the first unreadable one |
| Canonical.DecodeProduces | reposerver/apiclient/repository.pb.go:12768-13014 | decoding keeps the message's shape, and what it keeps as unrecognised is a string of unknown fields |
| Canonical.ReencodeDecodes | reposerver/apiclient/repository.pb.go:12768-13014 | for every input accepted by the reader, encoding the result and decoding that yields the same message |
| CacheKeys.SplitDecided | reposerver/cache/cache.go:520-539 | two bar-separated pairs with the same text are equal if and only if their right parts hold equally many bars |
| CacheKeys.FamiliesDiffer | reposerver/cache/cache.go:520-539 | keys of different families never have the same text |
| CacheKeys.SameTextSameKeyIff | reposerver/cache/cache.go:520-539 | two requests with the same key text are the same request if and only if their revisions hold equally many bars |
| CacheKeys.NoCollision | util/cache/cache.go:265-270 | with the version suffix, requests whose revisions hold no bar never share an entry |
| CacheKeys.BarsCollide | reposerver/cache/cache.go:537-539 | with a bar in a revision two requests can share an entry |
| CacheKeys.KeyExamples | reposerver/cache/cache.go:218-220 | one stored key of each family |
| CacheStore.RenameKeepsValueIff | util/cache/inmemory.go:45-53 | a rename keeps the value if and only if the keys differ |
| CacheStore.RenameKeepsOthers | util/cache/inmemory.go:45-53 | a rename removes the old key, leaves all others alone, and fails exactly without an entry |
| CacheStore.InMemoryCache.constructor | util/cache/inmemory.go:14-18 | a new cache is empty |
| CacheStore.InMemoryCache.Set | util/cache/inmemory.go:30-43 | stores the value, unless overwriting is disabled and the key is present |
| CacheStore.InMemoryCache.Get | util/cache/inmemory.go:74-81 | the stored value, or a miss |
| CacheStore.InMemoryCache.Delete | util/cache/inmemory.go:83-86 | removes this key only |
| CacheStore.InMemoryCache.Rename | util/cache/inmemory.go:45-53 | copies to the new key and removes the old one; a missing key is reported and changes nothing |
| CacheStore.ReadsLastWritten | reposerver/cache/cache.go:524-552 | after any history of writes, conditional writes and removals, a read returns what was last written with exactly the same parameters, or a miss |
| GitRefsLock.PublishedReadsBackIff | reposerver/cache/cache.go:223-281 | published references are read back if and only if none is blank and the first is not named like the lock marker |
| GitRefsLock.MarkerIsNotReferences | reposerver/cache/cache.go:261-281 | a lock marker is the word locked with the id, and is never decoded as references |
| GitRefsLock.FoundIdMeansLockedIff | reposerver/cache/cache.go:285-306 | finding one's own id in the cell proves it holds one's marker if and only if the id is not empty |
| GitRefsLock.StepInv | reposerver/cache/cache.go:223-322 | every poll, set, re-read, timeout, publication, unlock, failed cache call and expiry keeps the protocol invariant |
| GitRefsLock.OneOwner | reposerver/cache/cache.go:285-306 | in every run without expiry and timeout at most one client fetches or unlocks at a time, with its marker in the cell |
| GitRefsLock.LosesCellOnlyTo | reposerver/cache/cache.go:223-322 | an owner loses its cell only by its own act, by expiry, or to a client that timed out or had lost its own marker |
| GitRefsLock.OwnerKeepsCell | reposerver/cache/cache.go:223-322 | without expiry and timeout an owner keeps the cell over every run of the others until it publishes, unlocks or gives up on a cache error |
| GitRefsLock.UnlockRemovesOwn | reposerver/cache/cache.go:309-322 | an unlock undisturbed between read and delete removes its own marker; with another id nothing changes |
| GitRefsLock.PublishedIsReturned | reposerver/cache/cache.go:223-306 | after a publication, and until the cell expires, is deleted or published again, every client that polls or re-reads returns exactly those references, so does the publisher, and nobody becomes owner |
| GitRefsLock.ErrorOutcome | reposerver/cache/cache.go:245-297 | a failed set-if-absent leaves the decision to the next read, any other failure ends the client without references |
| GitRefsLock.TimedOutActs | reposerver/cache/cache.go:299-306 | a client that is tired of waiting may fetch, publish and unlock without owning the cell |
| GitRefsLock.StaleUnlockRemovesOther | reposerver/cache/cache.go:309-322 | with an expiry in between, an unlock can remove the marker of another client |

## Left out

- Pool shutdown (`mrp_controller/controller/appqueue.go:147-171`): runs are those before cancellation; `Stop`, the closing of the channel and the stopping of workers are not modelled.
- LockProtocol.LockAccounting: callers pass non-empty revisions and close each closer once; `ExclusiveIffNamed` shows what an empty revision does.
- Starvation: with ever new arrivals same-revision holders may keep a path busy forever; then only the absence of lost wake-ups and of deadlock is claimed.
- LockProtocol.NoDeadlock: `init` and closing what it opened are taken to return.
- ChangeScan.GetChangeRevision: waiting for the lock is the matter of `LockProtocol`, the handler only records when it holds it; what metrics record and log lines are left out, the checkout is a parameter that succeeds or fails, and error messages are reduced to their status code.
- GitClient.NativeGitClient.ListRevisions: git commands are functions of their arguments, so that a command that fails for a moment is not distinguished from one that always fails; resolving symbolic revisions is a parameter.
- The choice of refresh paths and the path matcher (`GetSourceRefreshPaths`, `AppFilesHaveChanged`) are an abstract list and predicate.
- Annotations.MakeChangeRevisionPatch: reading the application from the cluster is a parameter that succeeds or fails, and the sending of the patch with its errors is left out; a source without its own section in the specification (a source hydrator) is not modelled.
- Annotations.ReconcileRecords: JSON is known only by its round trip on string arrays; an annotation that is not valid JSON decodes to whatever the decoder leaves.
- Annotation keys are a datatype; a key outside the controller's five is `Other` and never written.
- SyncRuns.SafeRunsTrack: histories are linear, and sources and their paths are fixed.
- SyncRuns.TracksLastChange: in addition each sync is reconciled before the next begins unless nothing is annotated yet; a sync is given up only before it was reconciled; it enters the history in the update that ends its operation; a running sync is not reported done; a sync reported done is that of the newest entry, and an idle application in sync that has a history carries its result; a sync names commits or nothing; reconciliations work on the application as it is; and a call that is made is answered or times out. Without these `SafeRunsTrack` still holds and `UpdateAccurateIff` says exactly what each reconciliation needs.
- Codec.RequestRoundTrip: the nested repository message is a byte string that its own reader accepts, and merging two of them is concatenation; its fields are not modelled.
- Wire.Unmarshal: errors are one failure without their kind, and what a nested message's reader leaves behind when it fails is not modelled.
- Codec.Marshal: message fields are numbered 1 to at most 15, so that tags take one byte, as in the four messages.
- The other generated messages follow the same template; map fields marshal in no fixed order.
- CacheStore.ReadsLastWritten: values are kept as given; gob, gzip, Redis and the expiry clock are left out, and an expiry is a removal at any time.
- GitRefsLock.OneOwner: the waiting time is a timeout step that may happen at any poll, not a clock.
- GitRefsLock.OwnerKeepsCell: lock ids are distinct and not empty, and nobody publishes a first reference named like the lock marker; `FoundIdMeansLockedIff` and `PublishedReadsBackIff` show why.
- The commented-out manifest generation, its cache entries and `reposerver/repository/utils.go` are not part of this model.
- User interface, metrics, TLS, flags, environment parsing, event broadcasting and controller wiring are not part of this model.
