# A verified model of ngx_cache_purge

`ngx_cache_purge` purges entries of nginx's file cache. This project models its shared-memory state
machines in Dafny and proves what operators rely on: a purged key is never served again, an accepted
cleanup is never lost, no cleanup task has two owners, a cleanup never leaves its cache, a REFRESH
client that follows the cursors sees every entry once. The paths and lines below are those of the C
sources.

**Generations** (`ngx_cache_purge_invalidation.c`). A namespace gives every logical key a generation
that is part of the encoded cache key, so raising the generation hides all files written before. The
specification is `InvalidationLog`: a log of accepted invalidations, in which a key's generation is the
number of the latest entry covering it. The implementation is two byte tries with intrusive lists,
modelled on real nodes in `RuleTrie` and `Generation.GenerationState`: every lookup is proved equal to
the log's answer and every invalidation to one log entry, for every number of allocations that succeed
before memory runs out. `RuleReach` proves that the nodes one can reach by following pointers from the
tries are exactly the allocated list, and none of them is garbage. `GenerationKey` is
the wire format of encoded keys. `Staleness` is what the sweep, REFRESH and the status view conclude
from a key, and `NamespaceProtocol` is the life of a namespace over whole runs: requests that write
late, purges, conditional purges, sweeps that unlink after dropping the lock, restarts.

**Cleanup queue** (`ngx_cache_purge_queue.c`). `QueueState` says what each section under the zone lock
makes of the whole state; `CleanupQueue` is the queue with task objects, lists, slot arrays and
counters that change in place, and each method is proved equal to its function, `Enqueue` together with
the real nested invalidation of a namespace. `QueueInvariants` proves that every section keeps the
queue well-formed. `QueueProtocol` runs many workers that start, take, walk, finish, hand back, crash
and reuse pids and slots, and `QueueWorker` shows that a worker that calls process_queue and exit_worker
takes exactly such steps. `QueueCounters`, `QueueEvents` and `QueueStatus` add up the per-worker counters,
`QueueRotation` bounds how long a ready task can wait behind delayed ones, `QueueAging` is a run in which
the reported age is lost.

**Walk** (`ngx_cache_purge_walk.c`, `ngx_cache_purge.h`). `DirectoryWalk` is the traversal of a finite
tree as one recursion, with every failure of the file system and the allocator as part of the tree; a
walk that counts no error has seen everything.
`WalkCursor` is the resumable cursor over one shared path buffer, sliced by an entry limit and any
clock. `Paths` holds the path helpers and the protected paths, `CleanupFile` decides about one file and
says what a settled pass has done.

**REFRESH** (`ngx_cache_purge_refresh.c`). `PageSelection` and `RefreshPage` are the table of the 32
smallest hashes, `HashOrder` the order of hashes and cursors, `RefreshPagination` a client that follows
the cursors, `RefreshJob` the timer-driven job, `RefreshDecision` its conditional purge on the real queue
and namespace, `ProbeCredits` the credits that limit probes over all workers.

**Reply** (`ngx_cache_purge_response.c`). `CdataEscape` is the CDATA escape of the XML reply with a
reader for section 2.7 of XML 1.0.

## What does not hold

Some statements one might expect are false of the code. Each has a lemma with the exact condition.

- What a sweep unlinks can be asked for again after a restart: exactly a file that carries, in the module's
  own spelling, an epoch no restart has used yet and a generation of at least 1
  (`NamespaceProtocol.StaleComesBackExactly`). No file that a request wrote is one of these
  (`NamespaceProtocol.UnlinkIsSafe`), and within the epoch no file at all
  (`NamespaceProtocol.UnlinkIsSafeInEpoch`).
- A conditional purge of the empty logical key resets its whole namespace, and so does one that runs
  out of memory; it raises only its own key in all other cases, and only in those
  (`NamespaceProtocol.CommitRaisesOnlyItsKey`).
- The age that the status reports is not always that of the pending head: a fruitless scan of more than
  64 tasks rotates the list and keeps the old age, unless the new head happens to have it
  (`QueueRotation.FruitlessScanAge`); `QueueAging.AgeGetsLost` is a reachable state where it happens.
- A crashed worker's task is not given back while its pid runs again in another slot, until a process enters
  the old slot (`QueueProtocol.ReturnedPidHoldsTask`, `QueueProtocol.EnteredSlotFreesTask`);
  `QueueProtocol.RecoveredExactly` says which tasks a pass of recovery gives back.
- When init_worker runs again in the same process, the limit of 16 probes still holds, however the run goes
  on, if and only if no job of that worker holds a credit (`ProbeCredits.ReloadKeepsTheBoundExactly`);
  `ProbeCredits.ReloadBreaksTheBound` is a whole run that exceeds it. The module registers init_worker only
  as nginx's init-process hook (ngx_cache_purge_module.c:231), so whether this can happen depends on nginx
  core: nothing in this repository runs that hook twice in one process.
- A cursor comes back in lower case, so a page can skip candidates: of those up to the next cursor exactly
  the ones between a returned cursor and its lower-case spelling are never processed
  (`RefreshPagination.NothingElseSkipped`). A returned cursor skips some hash exactly when it holds an
  upper-case digit (`HashOrder.ReturnedCursorSkips`, `HashOrder.FamilySkipped`), so a client whose cursors
  hold none misses nothing (`RefreshPagination.LowerCaseCursorsSkipNothing`). The all-zero hash is never
  listed (`HashOrder.ZeroHashIsNeverAbove`).
- A literal purge without a trailing `*` would reach by its walk more keys than it covers, or none when it has
  512 bytes (`CleanupFile.ReachesWhatItCovers`). The request handler queues only purges that end in `*` or
  purge everything (ngx_cache_purge_handler.c:206-210).
- A protected name that spells the cache root with more trailing separators protects the whole cache
  (`Paths.RootProtected`).
- A decoded key that is encoded again is the same key only up to the case of its hex digits
  (`GenerationKey.DecodeEncode`).

## Model

| member | source | states |
|---|---|---|
| InvalidationLog.PurgeAllCoversAll | ngx_cache_purge_invalidation.c:337-341 | a purge of everything covers every key, whatever key the request carries |
| InvalidationLog.ConditionalCovers | ngx_cache_purge_invalidation.c:333-341 | a conditional invalidation asks for its own key only, also when it ends in `*`; an empty one for everything |
| InvalidationLog.LiteralCovers | ngx_cache_purge_invalidation.c:333-342 | so does an unconditional one without a trailing `*` |
| InvalidationLog.PrefixCovers | ngx_cache_purge_invalidation.c:333-347 | a selector that ends in `*` covers exactly the keys that begin, byte by byte and in either letter case, with what stands before it |
| InvalidationLog.LiveAfter | ngx_cache_purge_invalidation.c:331-372 | one more accepted invalidation gives every covered key exactly the new serial and leaves every other key's generation alone |
| InvalidationLog.LiveMonotone | ngx_cache_purge_invalidation.c:331-372 | generations never fall, whatever is invalidated |
| InvalidationLog.LiveRaised | ngx_cache_purge_invalidation.c:331-372 | a covering invalidation raises a key for good: no later generation equals an earlier one |
| GenerationRules.AppliedRepresents | ngx_cache_purge_invalidation.c:202-246 | a table of baseline, exact and prefix rules that answered for a log still does after the rule of a new entry is stored or the table is reset |
| GenerationRules.StoredNeedsNothing | ngx_cache_purge_invalidation.c:342-369 | in a table closed under prefixes, a stored word needs no further node |
| GenerationRules.EffectiveCovers | ngx_cache_purge_invalidation.c:350-358 | memory pressure only broadens an invalidation: what was selected is still covered |
| GenerationRules.EnoughMemory | ngx_cache_purge_invalidation.c:350-358 | with memory for a node for each byte nothing is broadened |
| RuleTrie.GrownTrie | ngx_cache_purge_invalidation.c:346-368 | hanging a fresh node behind the last sibling keeps the trie well formed: unique sibling bytes, one node per word, reachable nodes as recorded |
| RuleTrie.FindChild | ngx_cache_purge_invalidation.c:217-219 | the sibling loop finds the node of the next byte, or that there is none |
| RuleReach.ReachableIsAllocated | ngx_cache_purge_invalidation.c:236-246 | following real child and sibling pointers from the two tries reaches exactly the allocated nodes, each from one trie only, and no garbage |
| Generation.Descend | ngx_cache_purge_invalidation.c:214-229 | one pass of the lookup returns the largest of the floor and the rules met on the way, the exact one only at the last byte |
| Generation.GenerationState.constructor | ngx_cache_purge_invalidation.c:80-105 | a fresh namespace is valid with an empty log |
| Generation.GenerationState.Lookup | ngx_cache_purge_invalidation.c:202-232 | the pointer tries answer exactly what the log says for every key |
| Generation.GenerationState.Reclaim | ngx_cache_purge_invalidation.c:326-330 | at most 64 detached nodes are given back in one call, none of them reachable, and no other node is touched |
| Generation.GenerationState.Reset | ngx_cache_purge_invalidation.c:234-246 | a reset empties both tries and moves every allocated node to the garbage list, losing none |
| Generation.GenerationState.Append | ngx_cache_purge_invalidation.c:350-366 | a new node joins the allocated list and its trie, with generation 0 for its word and nothing else changed |
| Generation.GenerationState.InsertWord | ngx_cache_purge_invalidation.c:342-369 | the insertion loop adds exactly the missing prefixes of the word, or stops where memory ends |
| Generation.GenerationState.Store | ngx_cache_purge_invalidation.c:342-369 | insertion fails exactly when more nodes are missing than can be allocated |
| Generation.GenerationState.Apply | ngx_cache_purge_invalidation.c:342-369 | a rule is stored at the new serial, or the namespace reset when memory ran out, and the node lists are settled accordingly |
| Generation.GenerationState.Change | ngx_cache_purge_invalidation.c:326-370 | the new rules are the old ones with one rule at the new serial, or the reset rules when memory ran out; the lists stay in order and grow by exactly the missing nodes |
| Generation.GenerationState.Invalidate | ngx_cache_purge_invalidation.c:288-373 | the reply for every input, no change at all unless it is success, and on success exactly one log entry with the node lists settled accordingly: what was requested if memory suffices, and the new serial for every key after a purge of everything |
| Generation.GenerationState.RepeatAllocatesNothing | ngx_cache_purge_invalidation.c:344-369 | invalidating a stored selector again allocates nothing and cannot be broadened |
| Generation.GenerationState.Stale | ngx_cache_purge_invalidation.c:468-489 | the sweep's test is staleness with respect to the log |
| Staleness.OwnIsStaleExactly | ngx_cache_purge_invalidation.c:483-488 | of its own keys a namespace calls stale exactly those of another epoch or below the live generation, and current exactly the live one of this epoch |
| Staleness.ForeignIsNotStale | ngx_cache_purge_invalidation.c:478-482 | a key that does not decode is neither stale nor current |
| Staleness.OtherNamespaceIsNotStale | ngx_cache_purge_invalidation.c:478-482 | no key of another namespace is ever stale, whatever its epoch and generation |
| Generation.GenerationState.Current | ngx_cache_purge_invalidation.c:515-535 | REFRESH's test is being the live key with respect to the log |
| Generation.GenerationState.TakeView | ngx_cache_purge_invalidation.c:499-512 | the status view is a true description of the namespace |
| GenerationKey.DecodeKey | ngx_cache_purge_invalidation.c:249-285 | the decoding loops compute the parts of a key, or that it is not one of the namespace's |
| GenerationKey.OwnKeyExactly | ngx_cache_purge_invalidation.c:249-285 | which byte strings are keys of a namespace, byte by byte |
| GenerationKey.ValidNameExactly | ngx_cache_purge_invalidation.c:119-139 | which names a namespace may have |
| GenerationKey.EncodedFields | ngx_cache_purge_invalidation.c:445-458 | where the fields of an encoded key are, and that it is exactly the logical key, the name and 32 bytes long |
| GenerationKey.HexByExample | ngx_cache_purge_invalidation.c:452-458 | the generation is written in lower-case hexadecimal digits, the highest first |
| GenerationKey.EncodeDecode | ngx_cache_purge_invalidation.c:249-285 | decoding an encoded key returns its epoch, its 64-bit generation and its logical key |
| GenerationKey.DecodeEncode | ngx_cache_purge_invalidation.c:273-281 | encoding what was decoded gives the key back with its generation field in lower case |
| GenerationKey.NameIsDetermined | ngx_cache_purge_invalidation.c:119-139 | a key that decodes under two valid namespace names proves the names equal |
| GenerationKey.ForeignNamespace | ngx_cache_purge_invalidation.c:258-263 | a key encoded for one namespace never decodes under another name |
| GenerationKey.EncodeInjective | ngx_cache_purge_invalidation.c:452-458 | different parts have different encodings |
| Staleness.DerivedIsCurrent | ngx_cache_purge_invalidation.c:449-458 | the key a request derives is current and not stale |
| Staleness.StaleForever | ngx_cache_purge_invalidation.c:483-488 | staleness is permanent within an epoch |
| Staleness.StaleIsUnreachable | ngx_cache_purge_invalidation.c:483-488 | no request, now or later in the epoch, derives a stale key |
| Staleness.CoveredIsRenamed | ngx_cache_purge_invalidation.c:331-370 | after a covering invalidation the keys derived before are stale |
| Staleness.JudgeIsSound | ngx_cache_purge_invalidation.c:492-498 | what a tool concludes from the status view about a file is right whenever it concludes anything, and it is told of every file of another epoch or below the baseline |
| RequestKeys.PushKeepsAnswers | ngx_cache_purge_invalidation.c:432-461 | a new snapshot disturbs no answer given before in the request |
| RequestKeys.FindIsOwn | ngx_cache_purge_invalidation.c:432-441 | an answer is that of a snapshot of this very namespace and key |
| RequestKeys.RequestContext.KeyFor | ngx_cache_purge_invalidation.c:383-465 | the first evaluation of a key fixes its encoding for the request; over-long keys are declined |
| NamespaceProtocol.WellFormedRun | ngx_cache_purge_invalidation.c:331-370 | in every reachable state the serial has not wrapped and everything a sweep has marked is stale |
| NamespaceProtocol.PurgedKeysStayUnreachable | ngx_cache_purge_invalidation.c:331-370 | after any accepted invalidation covering a key, conditional or not, no later request derives a key derived for it before, restarts included |
| NamespaceProtocol.LateWriteIsNeverServed | ngx_cache_purge_invalidation.c:432-464 | a file written after a covering invalidation by a request that began before it is never served |
| NamespaceProtocol.FilesHaveOrigins | ngx_cache_purge_invalidation.c:432-464 | every file on disk was there before the run, appeared from outside, or carries a key that some request of the run derived |
| NamespaceProtocol.UnlinkIsSafe | ngx_cache_purge_walk.c:721-750 | what a sweep unlinks after dropping the lock is out of reach of every later request, restarts included, unless the file is foreign |
| NamespaceProtocol.UnlinkIsSafeInEpoch | ngx_cache_purge_walk.c:721-750 | until the next restart the same holds of foreign files |
| NamespaceProtocol.UnlinksOnlyOwn | ngx_cache_purge_walk.c:721-729 | in every run, what a sweep marks or unlinks carries the namespace's own name: no file of another namespace |
| NamespaceProtocol.StaleExactlyIfRenamed | ngx_cache_purge_invalidation.c:468-489 | in every run, a key that some request derived is stale exactly when its logical key derives another one now, after restarts too |
| NamespaceProtocol.StaleComesBackExactly | ngx_cache_purge_invalidation.c:91-101 | a stale file is asked for in some continuation if and only if it is spelled as the module would, with an unused epoch and a generation of at least 1 |
| NamespaceProtocol.AcceptedExactlyIfUncovered | ngx_cache_purge_invalidation.c:311-321 | compare-and-swap: a decision is still accepted exactly for the file's own logical key, in its epoch, and with no covering invalidation accepted in between |
| NamespaceProtocol.OutdatedDecisionIsRefused | ngx_cache_purge_invalidation.c:311-321 | a decision observed before a covering invalidation is declined ever after, for every logical key it may be used with |
| NamespaceProtocol.CommitRaisesItsKey | ngx_cache_purge_invalidation.c:331-372 | an accepted conditional invalidation gives its key the next serial |
| NamespaceProtocol.CommitRaisesOnlyItsKey | ngx_cache_purge_invalidation.c:331-359 | it leaves all other keys alone exactly when the key is not empty and memory sufficed |
| QueueState.WithoutMultiset | ngx_cache_purge_queue.c:834-835 | unlinking a task removes it once and nothing else |
| QueueInvariants.AdmitKeeps | ngx_cache_purge_queue.c:560-607 | admission keeps the queue well formed: sizes, disjoint lists, unique keys, the admission limit |
| QueueInvariants.DedupKeeps | ngx_cache_purge_queue.c:541-550 | so does a duplicate, running or not |
| QueueInvariants.TakeKeeps | ngx_cache_purge_queue.c:708-724 | so does taking the head |
| QueueInvariants.FinishKeeps | ngx_cache_purge_queue.c:806-856 | so does the end of a pass, in all four outcomes |
| QueueInvariants.RecoverKeeps | ngx_cache_purge_queue.c:633-662 | so does every turn of recovery, which never finds the active list empty |
| QueueInvariants.RecoverSplits | ngx_cache_purge_queue.c:632-662 | a recovery pass inspects the first tasks of the active list once each: owned ones rotate behind the rest, orphans go behind the pending ones, in order |
| QueueInvariants.RecoverWellFormed | ngx_cache_purge_queue.c:623-664 | a whole recovery pass keeps the queue well formed |
| CleanupQueue.Item.Touch | ngx_cache_purge_queue.c:541-550 | a duplicate asks a running task for one replay with its protection, refreshes a pending one, and starts a fresh retry window |
| CleanupQueue.Item.Release | ngx_cache_purge_queue.c:837-844 | a task handed back is unowned and carries the protection of its last acceptance |
| CleanupQueue.CleanupQueue.Enqueue | ngx_cache_purge_queue.c:469-609 | the reply for every input; a purge is accepted exactly together with its task and its namespace entry, and nothing at all changes otherwise |
| CleanupQueue.CleanupQueue.AnswerExactly | ngx_cache_purge_queue.c:484-559 | which inputs get which reply: exiting, too long, no lock or no room, nested invalidation busy, declined or out of serials, accepted |
| CleanupQueue.TasksAreDistinct | ngx_cache_purge_queue.c:501-512 | two purges of a path share a task exactly if they are of one namespace, or literal with the same key, purging everything counting as the empty key |
| CleanupQueue.TrailingSlashesDoNotMatter | ngx_cache_purge_queue.c:517-524 | separators behind the path of a cache do not make it another cache |
| CleanupQueue.CleanupQueue.AcceptTask | ngx_cache_purge_queue.c:530-607 | an accepted purge joins the task of its key or becomes a new one |
| CleanupQueue.CleanupQueue.ScanPending | ngx_cache_purge_queue.c:693-703 | the loop rotates exactly the delayed tasks in front of the first ready one, at most 64 |
| CleanupQueue.CleanupQueue.TakeNext | ngx_cache_purge_queue.c:680-725 | the taking half of process_queue: no lock, nothing pending, nothing ready, or the first ready task claimed |
| CleanupQueue.CleanupQueue.Settle | ngx_cache_purge_queue.c:806-856 | the decision at the end of a pass is carried out on the whole state |
| CleanupQueue.CleanupQueue.Complete | ngx_cache_purge_queue.c:796-857 | the locked end of a pass: the walk's counts, then replay, delayed retry, completion or giving up, well formed after |
| CleanupQueue.CleanupQueue.RecoverTasks | ngx_cache_purge_queue.c:623-664 | recovery does the turns of at most 64 active tasks, and nothing without the lock |
| CleanupQueue.CleanupQueue.Enter | ngx_cache_purge_queue.c:246-281 | a worker entering a slot it did not hold begins a new epoch, unless the epochs are used up |
| CleanupQueue.CleanupQueue.Leave | ngx_cache_purge_queue.c:349-354 | a leaving worker gives up its slot |
| QueueProtocol.NothingUndefined | ngx_cache_purge_queue.c:668-861 | in reachable states every step whose guard holds is defined: no empty list is read, no missing task touched |
| QueueProtocol.StepKeeps | ngx_cache_purge_queue.c:530-857 | every step of every worker keeps ownership, well-formedness and what each task owes to its last acceptance |
| QueueProtocol.RunKeeps | ngx_cache_purge_queue.c:530-857 | so these hold in every reachable state |
| QueueProtocol.OneHolder | ngx_cache_purge_queue.c:708-714 | no two live workers hold the same task, in any reachable state, however pids and slots are reused |
| QueueProtocol.RecoverySparesTheLiving | ngx_cache_purge_queue.c:637-643 | recovery leaves the task of every live worker active and unchanged |
| QueueProtocol.LeavesOnlySettled | ngx_cache_purge_queue.c:806-856 | a task leaves the index only at the end of a complete pass that began after its last acceptance with that acceptance's protection, and, if the pass had errors, after three retried erroneous passes |
| QueueProtocol.LeavesExactly | ngx_cache_purge_queue.c:806-856 | a task leaves if and only if a complete pass that began after its last acceptance ends without errors or was the third retry |
| QueueProtocol.AcceptedIsReady | ngx_cache_purge_queue.c:541-551 | after every acceptance the task has three retries again, waits for no delay, and has the new protection or a replay with it |
| QueueProtocol.RetriesAreSpent | ngx_cache_purge_queue.c:806-824 | only an acceptance, a hand-back or a replay gives a task new retries; taking, crashes and recovery keep their number, a failed pass uses one |
| QueueProtocol.AcceptedIsWalked | ngx_cache_purge_queue.c:530-857 | no accepted purge is lost: its task is still queued, or a pass taken after the acceptance has settled it, and that pass walked to the end unless the task was that of a namespace missing from the configuration of the worker when it took the task |
| QueueProtocol.ConfiguredIsReallyWalked | ngx_cache_purge_queue.c:742-757 | a literal purge, and one whose namespace all workers have configured throughout, is settled only by a worker that took the task, walked to the end and ended the pass, in this order |
| QueueProtocol.NewPass | ngx_cache_purge_queue.c:722-757 | a new pass has its task's protection and no counts, and is complete exactly for a namespace that is not configured |
| QueueProtocol.RecoveredIsReady | ngx_cache_purge_queue.c:644-657 | a task taken over from a dead worker is ready at once and keeps what is left of its retry window |
| QueueProtocol.RecoveredExactly | ngx_cache_purge_queue.c:632-646 | a pass gives a task back exactly if it inspects it and its owner is reported dead, or its slot was left, entered anew or given away |
| QueueProtocol.CrashedTaskComesBack | ngx_cache_purge_queue.c:637-657 | a crashed worker's task is pending again after a pass that inspects it and finds the process dead |
| QueueProtocol.ReloadKeepsTheQueue | ngx_cache_purge_queue.c:246-281 | a worker that enters its own slot again keeps epoch and task |
| QueueProtocol.LeavingFreesSlot | ngx_cache_purge_queue.c:349-354 | after a worker has left, no task taken in its slot counts as owned, and nothing else has changed |
| QueueProtocol.ReturnedPidHoldsTask | ngx_cache_purge_queue.c:637-643 | a crashed worker's task stays active in every pass while its pid runs again in another slot |
| QueueWorker.PathKeeps | ngx_cache_purge_queue.c:667-861 | whatever a worker's calls do along their steps stays within what the protocol keeps |
| QueueWorker.Worker.Take | ngx_cache_purge_queue.c:680-757 | taking a task is at most one step of the protocol, the worker's pass is the one the protocol records, and it is complete at once exactly if the key is that of a namespace that is not configured |
| QueueWorker.Worker.ProcessQueue | ngx_cache_purge_queue.c:667-861 | a call is a run of at most three protocol steps; it never swaps one task for another, and a worker on its way out takes nothing and keeps nothing |
| QueueWorker.Worker.Exit | ngx_cache_purge_queue.c:327-360 | an exiting worker hands back its task and leaves the protocol |
| QueueCounters.TotalBump | ngx_cache_purge_queue.c:79-100 | counting in one slot moves exactly that path's and metric's total, while nothing has saturated |
| QueueCounters.BumpSaturates | ngx_cache_purge_queue.c:79-100 | counting changes one counter of one slot, which stops at its maximum and never falls |
| QueueCounters.FinishConserves | ngx_cache_purge_queue.c:806-851 | the end of a pass keeps the balance of counters and tasks |
| QueueStatus.CountersConserved | ngx_cache_purge_queue.c:597-598 | in every reachable state without saturation, over all slots, enqueued minus started is the pending tasks of a path and started minus finished its active ones, likewise for purge-all tasks |
| QueueEvents.CountersTellWhatHappened | ngx_cache_purge_queue.c:820-832 | in every reachable state without saturation, over all slots: the numbers of duplicates and invalidations accepted, of retried and exhausted passes, and the sums of what the walks deleted and failed to delete or read |
| QueueEvents.StatusTellsWhatHappened | ngx_cache_purge_queue.c:1117-1127 | while nothing has saturated, the status shows each of these numbers in its own field |
| QueueStatus.AddUp | ngx_cache_purge_queue.c:1083-1110 | the saturating sum over the slots is the sum, cut off at the maximum |
| QueueStatus.Snapshot | ngx_cache_purge_queue.c:1058-1127 | the snapshot, without the counters left out below, as a function of the queue's state |
| QueueStatus.SnapshotIsExact | ngx_cache_purge_queue.c:1063-1116 | while nothing has saturated, the snapshot's size, pending and active numbers are those of the lists, and it says full exactly when the limit is reached |
| QueueStatus.AgeOfThePast | ngx_cache_purge_queue.c:1069-1070 | the reported age of a past moment is the time since then, across the wrap of the clock |
| QueueRotation.ReadyTaskIsReached | ngx_cache_purge_queue.c:691-707 | with a fixed clock the first ready task at position j is taken by scan j / 64 + 1, every earlier scan being fruitless |
| QueueRotation.ReachedWithin | ngx_cache_purge_queue.c:691-707 | a ready task among n pending ones is taken within ceil(n / 64) scans |
| QueueRotation.RetryWaits | ngx_cache_purge_queue.c:811-815 | a delayed task becomes ready exactly when its delay has passed, across the wrap of the clock, except that a deadline of 0 reads as no delay |
| QueueRotation.RetrySchedule | ngx_cache_purge_queue.c:806-824 | a pass without errors is the last; after one with errors the task is ready 100 ms, 1 s and 10 s later, and the fourth in a row is the last |
| QueueRotation.FruitlessScanAge | ngx_cache_purge_queue.c:693-707 | a fruitless scan keeps the reported age right exactly when at most 64 tasks are pending or the new head happens to have the same age |
| QueueAging.AgeGetsLost | ngx_cache_purge_queue.c:693-707 | there is a reachable state with the right age in which such a scan loses it |
| QueueRotation.StepKeepsAge | ngx_cache_purge_queue.c:602-604 | every other step keeps the reported age that of the pending head |
| Paths.PathLength | ngx_cache_purge.h:348-363 | the loop computes the length without trailing separators |
| Paths.PathEqual | ngx_cache_purge.h:331-345 | the loop compares the first bytes of two paths |
| Paths.PathContains | ngx_cache_purge.h:366-382 | the containment test computes the predicate |
| Paths.ContainsTransitive | ngx_cache_purge.h:366-382 | containment is transitive, for all byte strings |
| Paths.ContainsIsComponentPrefix | ngx_cache_purge.h:366-382 | for absolute paths containment is the prefix order on components, whatever separators trail the root |
| Paths.IsProtectedPath | ngx_cache_purge_walk.c:352-393 | the loop over the captured or configured names computes protection |
| Paths.GuardedExactly | ngx_cache_purge_walk.c:366-382 | a captured protection is used as it is, otherwise the configured paths without a manager or loader |
| Paths.ProtectedBelow | ngx_cache_purge_walk.c:396-408 | everything below a protected directory of the cache is protected |
| Paths.RootProtected | ngx_cache_purge_walk.c:384-389 | the cache root is protected exactly by a name that spells it with more trailing separators |
| DirectoryWalk.WalkNests | ngx_cache_purge_walk.c:147-202 | whatever fails, every opened directory is closed once, innermost first, and every visit is of an entry of the innermost directory |
| DirectoryWalk.PruningLosesNothing | ngx_cache_purge_walk.c:313-318 | skipping protected directories visits exactly the unprotected files of a full walk, in order, as long as memory suffices |
| DirectoryWalk.NoErrorsMeansAllSeen | ngx_cache_purge_walk.c:239-323 | a pruned walk that counted no error has visited exactly the unprotected files of the tree, in order |
| DirectoryWalk.NoErrorsExactly | ngx_cache_purge_walk.c:147-323 | a walk counts no error if and only if the paths it forms fit or memory can be had, and nothing outside the skipped directories fails to open, read, close or be visited |
| DirectoryWalk.EntriesPassed | ngx_cache_purge_walk.c:257-263 | only `.` and `..` are passed over; every other entry is looked at under its joined path |
| DirectoryWalk.VisitedExactly | ngx_cache_purge_walk.c:239-323 | after such a walk an unprotected path has been visited if and only if it is a file of the tree |
| WalkCursor.Cursor.Name | ngx_cache_purge_walk.c:104-144 | the buffer holds the joined path after growing when needed, and fails exactly when it must grow and cannot |
| WalkCursor.Cursor.Grow | ngx_cache_purge_walk.c:118-133 | a reallocation keeps the ancestors' path |
| WalkCursor.Cursor.Open | ngx_cache_purge_walk.c:147-182 | opening continues towards the outcome of the recursive walk, and only memory ends it |
| WalkCursor.Cursor.Close | ngx_cache_purge_walk.c:185-202 | closing shrinks the path to the directory that is closed and pops it |
| WalkCursor.Cursor.Visit | ngx_cache_purge_walk.c:294-312 | the visitor sees the joined path of the file in the shared buffer |
| WalkCursor.Cursor.Turn | ngx_cache_purge_walk.c:250-320 | one turn of the loop changes nothing about what the walk comes to and makes progress |
| WalkCursor.Cursor.Step | ngx_cache_purge_walk.c:205-332 | a slice makes at most the limit of turns, at least one before it pauses, and ends with the outcome and the status of the recursive walk |
| WalkCursor.Cursor.Drive | ngx_cache_purge_walk.c:205-332 | any sequence of limits and clocks gives the trace, the errors and the outcome of the one unsliced walk, enough slices finish it, and it reports success exactly if the root opened and nothing failed |
| WalkCursor.Cursor.Abandon | ngx_cache_purge_queue.c:796-800 | a fast exit closes every directory the walk has opened |
| CleanupFile.Sweep.DeleteFile | ngx_cache_purge_walk.c:690-762 | a file is unlinked exactly when its path, key and generation select it; errors and deletions are counted once |
| CleanupFile.SaturatedExactly | ngx_cache_purge_walk.c:755-757 | the count of deleted bytes stops at its maximum |
| CleanupFile.Sweep.DeleteAll | ngx_cache_purge_walk.c:690-762 | over all visited files, unlinking is tried for exactly the selected ones |
| CleanupFile.Sweep.NamespaceSweep | ngx_cache_purge_walk.c:721-729 | the task of a namespace selects exactly the unprotected cache files with stale keys, whatever the purge that queued it asked for |
| CleanupFile.Sweep.SparesOthers | ngx_cache_purge_walk.c:721-729 | it never selects a file of another namespace, nor one no namespace wrote |
| CleanupFile.Sweep.LiteralSweep | ngx_cache_purge_walk.c:700-747 | the walk of a literal task selects exactly the cache files whose key and newline begin with the task's key, up to 511 bytes, in either letter case |
| CleanupFile.Sweep.CoveredSweep | ngx_cache_purge_walk.c:736-747 | the walk of a purge that ends in `*`, or of everything, selects exactly the unprotected cache files whose keys the purge covers |
| CleanupFile.ReachesWhatItCovers | ngx_cache_purge_walk.c:736-747 | the walk reaches what the purge covers, for all keys, if and only if the purge is of everything or ends in `*` without a newline before it |
| CleanupFile.Sweep.ExactSweep | ngx_cache_purge_walk.c:735-741 | the walk of an exact key selects exactly the cache files of that key |
| CleanupFile.Sweep.PurgeAllSweep | ngx_cache_purge_walk.c:690-720 | a purge of everything selects exactly the unprotected cache files whose key can be read |
| CleanupFile.Sweep.SelectedIsInside | ngx_cache_purge_walk.c:702-708 | nothing outside the cache root or below a protected path is ever selected |
| CleanupFile.Sweep.SettledPassTriesAll | ngx_cache_purge_queue.c:806-824 | a pass that settles its task without errors has tried to unlink every file of the tree that the task selects, under the protection of the last acceptance |
| CleanupFile.AcceptedPrefixFits | ngx_cache_purge_queue.c:495-501 | a literal selector the queue accepts is short enough for the walk exactly when it ends in `*` or is under 512 bytes |
| HashOrder.Memcmp | ngx_cache_purge_refresh.c:316-321 | comparing hashes byte by byte orders them like base-256 numbers |
| HashOrder.ZeroHashIsNeverAbove | ngx_cache_purge_refresh.c:260-262 | the initial cursor excludes the all-zero hash and no other |
| HashOrder.ReturnedCursor | ngx_cache_purge_refresh.c:806-811 | lower-casing a cursor never moves it down, and moves it exactly when it held an upper-case letter |
| HashOrder.ReturnedCursorSkips | ngx_cache_purge_refresh.c:806-811 | a returned cursor passes over some hash if and only if it held an upper-case digit |
| HashOrder.FamilySkipped | ngx_cache_purge_refresh.c:806-811 | it passes over every hash that goes on, at its first upper-case digit, with a byte between the two cases |
| PageSelection.PlaceKeepsSelected | ngx_cache_purge_refresh.c:291-313 | one candidate more, new, repeated or evicted before, keeps the table the smallest 32 seen |
| PageSelection.ScanSelects | ngx_cache_purge_refresh.c:291-313 | after any scan, in any order and with duplicates, the table is the selection of everything offered |
| PageSelection.MoreMeansOverflow | ngx_cache_purge_refresh.c:300-301 | `more` is set exactly when more than 32 distinct hashes were offered, and the table is full exactly then or has all of them |
| PageSelection.PageIsUnique | ngx_cache_purge_refresh.c:336-344 | what was offered determines the sorted page |
| RefreshPage.IsCacheFile | ngx_cache_purge_walk.c:410-438 | the loop recognises names of 32 hex digits |
| RefreshPage.CacheFileExactly | ngx_cache_purge_walk.c:410-438 | a cache file is a hash, alone or as the last part of a path |
| RefreshPage.IsCanonical | ngx_cache_purge_refresh.c:210-238 | the loop over the levels accepts exactly the one place where the hash's file belongs |
| RefreshPage.PlaceIsCacheFile | ngx_cache_purge_refresh.c:210-238 | every hash has a place, and the file there is a cache file of this hash |
| RefreshPage.PlaceByExample | ngx_cache_purge_refresh.c:222-236 | the levels are taken from the end of the hash |
| RefreshPage.WantedIsCovered | ngx_cache_purge_refresh.c:277-289 | a page selects what a purge of the same selector covers, except for the empty selector |
| RefreshPage.RefreshScan.Offer | ngx_cache_purge_refresh.c:291-313 | the in-place table loop appends, replaces the largest entry or only sets `more`, and keeps the selection |
| RefreshPage.RefreshScan.Collect | ngx_cache_purge_refresh.c:241-313 | a visited file is offered exactly when it is eligible, current and wanted; a read error counts once |
| RefreshPage.RefreshScan.ListedExactly | ngx_cache_purge_refresh.c:241-313 | for a selector that is not empty: listed are exactly the files in their place above the cursor whose key is the one requests use now and that a purge with this selector would raise |
| RefreshPage.RefreshScan.Sort | ngx_cache_purge_refresh.c:340-343 | the page is sorted in place without losing an entry |
| RefreshPage.RefreshScan.WalkOffersTheTree | ngx_cache_purge_refresh.c:324-346 | a walk without errors offers exactly the candidates among the files of the tree |
| RefreshPagination.PagesAscend | ngx_cache_purge_refresh.c:747-749 | over all pages, whatever cursors come back in lower case, the processed hashes are strictly ascending: none is processed twice |
| RefreshPagination.NothingElseSkipped | ngx_cache_purge_refresh.c:454-470 | of the candidates up to the next cursor, and of all once a page says `complete`, exactly those are processed that no returned cursor passed over, however pages timed out |
| RefreshPagination.LowerCaseCursorsSkipNothing | ngx_cache_purge_refresh.c:806-811 | a client whose cursors hold no upper-case letter misses no candidate |
| RefreshPagination.PassedOverIsLost | ngx_cache_purge_refresh.c:806-811 | for every such cursor and hash there are two pages, the second complete, that never process the hash |
| RefreshPagination.FullPagesProgress | ngx_cache_purge_refresh.c:454-470 | a fully processed page is complete exactly when at most 32 candidates were left, and otherwise moves the cursor on |
| RefreshJob.IsProbeable | ngx_cache_purge_refresh.c:522-550 | the loops accept exactly the keys and tags that can be sent as a request |
| RefreshJob.ProbeableMeans | ngx_cache_purge_refresh.c:522-550 | what is sent is the prefix and a path of visible bytes without a fragment, and a tag without control bytes |
| RefreshJob.RefreshJob.VerdictMeans | ngx_cache_purge_refresh.c:508-550 | why an entry is not probed: its key is not current, it varies, or it cannot be sent |
| RefreshJob.RefreshJob.Judge | ngx_cache_purge_refresh.c:508-550 | an entry is skipped as replaced exactly when its key is no longer current |
| RefreshJob.RefreshJob.Probe | ngx_cache_purge_refresh.c:497-579 | a probe starts holding one credit; every other outcome holds none |
| RefreshJob.RefreshJob.Done | ngx_cache_purge_refresh.c:582-613 | the first report of a probe's end releases its credit and records what its status means; further reports change nothing |
| RefreshJob.StatusMeans | ngx_cache_purge_refresh.c:595-608 | the result of each upstream status, and that 200, 404 and 410 alone leave a decision |
| RefreshJob.TurnMeans | ngx_cache_purge_refresh.c:714-749 | when an event starts a probe, waits, or moves on, and with which result |
| RefreshJob.RefreshJob.DueMeans | ngx_cache_purge_refresh.c:630-669 | an event leaves the entries alone while a probe or another request's batch runs, and after the deadline |
| RefreshJob.RefreshJob.Cleanup | ngx_cache_purge_refresh.c:386-403 | a disconnect leaves no credit taken and not released |
| RefreshJob.RefreshJob.RunSlice | ngx_cache_purge_refresh.c:324-346 | a slice offers exactly the candidates among the files it visits, and nothing after the deadline |
| RefreshJob.RefreshJob.ScanTree | ngx_cache_purge_refresh.c:324-346 | the slices of one walk without errors offer the page exactly the candidates among the files of the tree |
| RefreshJob.RefreshJob.Decide | ngx_cache_purge_refresh.c:714-732 | a decision ends as invalidated, replaced or failed, or waits while the queue is busy and the key current |
| RefreshDecision.CarryOut | ngx_cache_purge_refresh.c:714-732 | on the real queue and namespace: the entry is invalidated exactly if its key is current and the queue takes the purge, and its file is stale then; otherwise nothing changes |
| RefreshDecision.RepliesMean | ngx_cache_purge_refresh.c:725-731 | what each reply of the queue makes of the entry |
| RefreshJob.InvalidatedByDecision | ngx_cache_purge_refresh.c:582-613 | over a job's whole history, an invalidated entry's probe ended with the status 200, 404 or 410 that it shows, and the queue then took its purge while the key was current |
| RefreshJob.RefreshJob.Proceed | ngx_cache_purge_refresh.c:714-749 | one event settles the pending decision or probes the next entry, and moves on by at most one entry |
| RefreshJob.RefreshJob.Answer | ngx_cache_purge_refresh.c:434-470 | the reply's cursor, `complete` and `undispatched` are those of the page processed so far |
| RefreshJob.RefreshJob.Step | ngx_cache_purge_refresh.c:616-763 | a timer event completes at most one entry, in order, and replies only with no probe running and no credit held |
| ProbeCredits.CreditSlots.Take | ngx_cache_purge_queue.c:1263-1290 | a credit is granted exactly when fewer than 16 are held by slots with live owners; dead owners' slots are cleared |
| ProbeCredits.CreditSlots.Release | ngx_cache_purge_queue.c:1266-1273 | a release never underflows |
| ProbeCredits.RunKeeps | ngx_cache_purge_queue.c:1257-1291 | in every reachable state the slots add up to at most 16 and a live worker's slot equals its jobs' credits less the forgotten ones |
| ProbeCredits.HeldCountsAll | ngx_cache_purge_queue.c:1274-1288 | slot by slot, the workers' credits add up to the probes that run |
| ProbeCredits.AtMostSixteen | ngx_cache_purge_queue.c:1274-1288 | in every reachable state at most 16 probes run over all live workers, as long as no credit was forgotten |
| ProbeCredits.CreditIsFreeExactly | ngx_cache_purge_queue.c:1274-1288 | a credit can be had exactly if fewer than 16 probes run: what dead workers held does not count |
| ProbeCredits.QuietReloadsForgetNothing | ngx_cache_purge_queue.c:270-272 | nothing is forgotten when reloads in the same process find no job holding a credit |
| ProbeCredits.ReloadIsExact | ngx_cache_purge_queue.c:263-272 | such a reload keeps the count exact if and only if no job holds a credit |
| ProbeCredits.ReloadKeepsTheBoundExactly | ngx_cache_purge_queue.c:263-272 | after it at most 16 probes run in every continuation without another reload, if and only if no job of the worker held a credit |
| ProbeCredits.ReloadBreaksTheBound | ngx_cache_purge_queue.c:270-272 | a run from the initial state in which more than 16 probes run after such a reload |
| CdataEscape.EscapeKey | ngx_cache_purge_response.c:176-219 | the loop writes exactly the escaped key and nothing else, and reports the room it needs without a destination |
| CdataEscape.EscapedLength | ngx_cache_purge_response.c:198-218 | the escaped key is longer by exactly the reported extra, at most four times the key |
| CdataEscape.CdataRoundTrip | ngx_cache_purge_response.c:313-338 | reading the consecutive CDATA sections of the reply gives back every key |
| CdataEscape.FitsReplyBuffer | ngx_cache_purge_response.c:291-292 | the reply buffer holds the wrapped key with room for the rest |

## Left out

- Intrusive lists and trees of the queue: the two lists are sequences, the per-path red-black trees one
  map from path and full tagged key, so relinking and hash collisions are not modelled. The rule tries
  and their lists are modelled on real nodes.
- Slab, pool and heap internals: an allocation is an input that says whether it succeeds.
- Locks: a section under a lock is one step; a trylock is an input. Memory barriers, thread pools and
  the 32-bit sequence reads are not modelled.
- The cleaner's timer: batch and delay arithmetic, pool lookup, the form in which walks run in a thread
  pool. In `QueueWorker` a slice of the walk is an input; `WalkCursor.Cursor.Step` is the walk.
- QueueStatus.Snapshot: without the counters of waiting, overflowing, hit and missed requests, which the
  queue's model does not keep.
- `kill(pid, 0)` is a set of pids that is fixed during one locked section.
- Reading cache headers, MD5 and CRC checks, unlinking and nginx's own cache nodes: reading a file's key
  and unlinking it are inputs.
- Windows and case-insensitive file systems.
- Directive parsing, access lists, request headers, subrequests and reply formats other than CDATA.
- Evaluating the key expression of a request and the allocation failures around its snapshots.
- QueueProtocol.AcceptedIsWalked: a task whose namespace is not configured any more settles without a
  walk, as in the source.
- QueueProtocol.RecoverySparesTheLiving: assumes that a live process is never reported dead; the oracle
  may report dead ones alive, which only delays recovery.
- DirectoryWalk.PruningLosesNothing: assumes that allocations succeed in both walks, because a walk that
  runs out of memory stops early.
- WalkCursor.Cursor.Name: lengths are unbounded, so the overflow checks of the source never fire and the
  capacity always doubles. The linked frames of the cursor are a sequence.
- CleanupFile.Sweep.IsMatch: compares all bytes; nginx's case-insensitive comparison, which is not part of
  this model, stops at a zero byte. `RefreshPage.Wants` likewise.
- RefreshJob.RefreshJob.Decide: the queue's answer is an input; `RefreshDecision.CarryOut` is how it comes
  about.
- RefreshJob.RefreshJob.RunSlice: the files a slice visits are an input; `WalkCursor.Cursor.Step` is the
  walk that produces them, and `RefreshJob.RefreshJob.ScanTree` the scan of a whole tree. Scans in a thread
  pool are not modelled.
- CleanupFile.Sweep.DeleteAll: one state of the generations during the pass; staleness only grows meanwhile
  (`Staleness.StaleForever`).
- CdataEscape.CdataRoundTrip: line-end normalisation by an XML reader (section 2.11 of XML 1.0) and the
  base64 form of keys that are not text are not modelled.
