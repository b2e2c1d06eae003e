# quicKFS in Dafny

A model of the protocol-level core of quicKFS, a remote file system, and proofs of what that
core promises.

* **Byte-range locks** (`LockTable`, `LockProtocol`, `LockAnswers`, `LockCalls`, `LockReplay`). The
  server's lock vector is split, replaced and merged per holder; its meaning is the map from bytes to
  (kind, pid) per holder. Any number of sessions set, wait for and release locks; each step is one
  critical section or one notification, and every answer a call gets is recorded. A client remembers
  granted requests and replays them on a reopened handle.
* **Caches** (`Ranges`, `HotRanges`, `CacheState`, `PersistentCache`, `CacheContents`). Two
  assemblers of cached ranges, a byte-bounded least-recently-used tier, and a persistent cache whose disk is a manifest plus
  content-addressed payload files. Every disk state that was ever visible is recorded, so a crash is
  any element of that history. Jobs are committed one by one or in batches.
* **Cached reads and read-ahead** (`CachedRead`, `SingleFlight`, `Prefetch`, `PrefetchRun`,
  `PrefetchSequence`, `Permits`). Block tiling, single-flight fetches through both cache tiers (`RangeTiers`), retries on a changed
  revision, the adaptive read-ahead controller, also across revisions (`PrefetchRevisions`), and the
  byte budget of speculation. A ghost function gives the content of each revision.
* **Node registry** (`Registry`, `RegistryExamples`, `PathRegistry`). The inverse maps between nodes and
  identities, global and per-session permits, reference counts and both evictions over all
  interleavings; and the remembered paths under unlink and rename, against a namespace.
* **Range copy** (`RangeCopy`). Buffered, overlapping and kernel-assisted copies between files that may
  be the same object, with short reads and writes, and the exchange of two files built on them.
* **Reconnect** (`Reconnect`, `ReconnectCalls`). Connection generations, the failed mark, the
  reconnect mutex and the handle map under every interleaving of calls, transport failures and dropped calls.

What comes from outside is a parameter or a free choice: answers of server, disk and kernel, digests
(taken to be free of collisions), the order in which hash maps are walked, the time a read took (a
boolean), and which call runs next. Integers are unbounded except where the source saturates, wraps or
checks, which is written out.

Where the code falls short of what one would expect of it, the code is modelled as it is and the
exact condition is proved, with an input that shows the failure: a lock history that is emptied or does
not see a flush or a close, a file discarded while the durable manifest names it, a store skipped as
current while its file is gone, a forget request cut short by a failed release, an eviction that races
with an open, and a completion that is booked on a stream of a later revision. For an exchange of two
files that fails, it is proved exactly when contents are lost.

`dafny verify dfyconfig.toml` checks the project.

## Model

| member | source | states |
|---|---|---|
| `LockTable.GrantIsUnique` | crates/server-core/src/lib.rs:3454-3524 | in a table of disjoint records a holder has at most one kind and pid on a byte |
| `LockTable.FirstConflict` | crates/server-core/src/lib.rs:3437-3452 | the conflicting record with the smallest start, and none exactly if no record conflicts |
| `LockTable.ConflictIsPointwise` | crates/server-core/src/lib.rs:3437-3452 | the search finds nothing if and only if no other holder has an incompatible grant on any requested byte |
| `LockTable.SplitIsPointwise` | crates/server-core/src/lib.rs:3461-3481 | splitting takes exactly the requested bytes from the requesting holder and nothing from anyone else |
| `LockTable.SplitKeepsWellFormed` | crates/server-core/src/lib.rs:3461-3481 | the pieces of disjoint records are disjoint, also at `u64::MAX` |
| `LockTable.SplitAddsAtMostOne` | crates/server-core/src/lib.rs:3461-3481 | only one record can lie on both sides of a request, so splitting adds at most one record |
| `LockTable.PushStep` | crates/server-core/src/lib.rs:3508-3523 | one step of the merge loop keeps order, disjointness, meaning and the absence of mergeable neighbours |
| `LockTable.MergeIsExact` | crates/server-core/src/lib.rs:3497-3524 | merging leaves no two mergeable records, adds none, keeps records disjoint and every byte as it was |
| `LockTable.MergeOwnerLocks` | crates/server-core/src/lib.rs:3497-3524 | the loop over the sorted records computes the merge specified by `MergeIsExact` |
| `LockTable.SplitOwnerRange` | crates/server-core/src/lib.rs:3461-3481 | the splitting loop computes the split specified by `SplitIsPointwise` |
| `LockTable.ReplaceIsExact` | crates/server-core/src/lib.rs:3454-3495 | replacement changes the holder's kind and pid on exactly the requested bytes, keeps records disjoint and fully merged, adds at most two, and fails only on a full table |
| `LockTable.LockVector.Replace` | crates/server-core/src/lib.rs:3454-3495 | the same for the vector updated in place; on `TooManyLocks` it is untouched |
| `LockTable.LockVector.constructor` | crates/server-core/src/lib.rs:419 | a new vector is empty and valid |
| `LockTable.GrantKeepsExclusive` | crates/server-core/src/lib.rs:2009-2014 | a grant that conflicted with nothing keeps the table free of a write lock beside any other lock on the same byte |
| `LockTable.Retain` | crates/server-core/src/lib.rs:2460-2464 | exactly the records the test selects are removed |
| `LockTable.RetainKeepsExclusive` | crates/server-core/src/lib.rs:2460-2464 | a bulk release keeps exclusion |
| `LockProtocol.AttemptKeepsInv` | crates/server-core/src/lib.rs:1999-2020 | one pass of the locking loop keeps the invariant of the whole system: exclusive locks, no lost wake-up, locks of live sessions only; what it answers is stated by the `LockAnswers` rows |
| `LockProtocol.StepKeepsInv` | crates/server-core/src/lib.rs:1667-2038 | so does every other critical section: connect, listen, wake, cancel, notify, flush, close, drop |
| `LockProtocol.LockExclusion` | crates/server-core/src/lib.rs:1987-2038 | in every reachable state two different holders with grants on one byte of a file both only read |
| `LockProtocol.WaitersAreNeverStranded` | crates/server-core/src/lib.rs:1999-2020 | a parked waiter either still conflicts, or its wake-up has been sent, or a notification is still owed |
| `LockProtocol.NoOrphanLocks` | crates/server-core/src/lib.rs:2660-2676 | no lock outlives the session that took it |
| `LockProtocol.ConcludeShape` | crates/server-core/src/lib.rs:1999-2020 | whatever the verdict, the call either returns with an answer or parks, and the table changes only by a grant |
| `LockAnswers.SameLength` | crates/server-core/src/lib.rs:3497-3524 | two fully merged tables with the same grants on every byte have the same number of records |
| `LockAnswers.VerdictIsJust` | crates/server-core/src/lib.rs:1999-2020 | an attempt parks or is refused exactly if another holder has an incompatible grant on a requested byte, and it is granted exactly if the table then shows the request, a full table included |
| `LockAnswers.EveryAttemptIsRight` | crates/server-core/src/lib.rs:1999-2020 | so it is for every attempt of every run; an unlock is never obstructed, and a call that is not granted leaves the table as it was |
| `LockAnswers.EveryAnswerWasRight` | crates/server-core/src/lib.rs:1999-2020 | whatever a call was answered in a run, one attempt of its own gave that answer, and rightly: WouldBlock if and only if it does not wait and is obstructed, Ok if and only if the table then shows exactly its request |
| `LockAnswers.ParkedCallsWait` | crates/server-core/src/lib.rs:2016-2019 | in every reachable state only calls that asked to wait are parked |
| `LockCalls.AdmitsExactly` | crates/server-core/src/lib.rs:1987-1998 | a request gets to the loop exactly if its range is not empty, its handle is open with the access its kind needs and, for a write lock, the session may write |
| `LockCalls.SessionsAreAsLastSet` | crates/server-core/src/lib.rs:1987-1998 | in every run a session may write exactly if it was last told so, and its handles are those it opened and has not closed |
| `LockCalls.CallsAreAsBegun` | crates/server-core/src/lib.rs:1987-1998 | in every run a call is for the session, file, range and waiting it began with, and had the right to ask for it then |
| `LockCalls.GrantsHadTheRight` | crates/server-core/src/lib.rs:1987-2020 | a lock is granted only to a session that had opened the file with the access its kind needs, and the table then shows the request |
| `LockCalls.WokenSinceListening` | crates/server-core/src/lib.rs:2000-2019 | a parked call wakes only because of a notification sent after it began to listen |
| `LockReplay.LiveStateIsEvents` | crates/server-core/src/lib.rs:1987-2038 | in every run the table shows for a session and a file exactly what its grants, flushes, closes and clean-ups leave, whatever other sessions do |
| `LockReplay.OtherStepKeepsGrants` | crates/server-core/src/lib.rs:1987-2038 | a step that is no event of a session and a file leaves their grants as they were |
| `LockReplay.LiveHistoryIsReplayable` | crates/server-core/src/lib.rs:1999-2014 | without releases the granted requests of one session are mutually compatible at each point |
| `LockReplay.ReplayIsExact` | crates/client-core/src/resilient.rs:382-387 | a replay that gets through reproduces the effect of the history byte by byte, and needs room for two records per request at most |
| `LockReplay.ReplaySucceedsExactly` | crates/client-core/src/resilient.rs:382-387 | given room, the replay gets through if and only if every prefix of the history is free of incompatible grants; otherwise it stops at a conflict |
| `LockReplay.RememberedIsSuffix` | crates/client-core/src/resilient.rs:943-948 | the remembered history is exactly what was granted since it was last emptied |
| `LockReplay.NothingForgotten` | crates/client-core/src/resilient.rs:943-948 | nothing is forgotten up to 4096 entries, nor beyond as long as no unlock comes |
| `LockReplay.RememberedIsRight` | crates/client-core/src/resilient.rs:943-948 | for every sequence of grants and releases: replaying what is remembered would be right if and only if nothing released since is remembered as held and everything held through a forgotten request is covered by a remembered one |
| `LockReplay.ReplayRoundTrip` | crates/client-core/src/resilient.rs:382-391 | for every run: a replay that gets through recreates the live lock state if and only if that condition holds |
| `LockReplay.ReplayWithoutReleases` | crates/client-core/src/resilient.rs:382-391 | without releases the replay never conflicts, however often the history was emptied, and recreates the live state as long as nothing was forgotten |
| `LockReplay.ForgettingLosesHeldLocks` | crates/client-core/src/resilient.rs:945-947 | without releases, what is remembered is right if and only if every byte held through a forgotten request is covered by a remembered request of that owner |
| `LockReplay.ClearedHistoryExample` | crates/client-core/src/resilient.rs:945-947 | a granted history of which nothing is remembered while a lock is held |
| `LockReplay.ReleaseIsNotRemembered` | crates/server-core/src/lib.rs:1667-1681 | after a flush, or the close of any handle on the file (lines 2023-2033), a right history stays right if and only if no owner concerned held anything |
| `LockReplay.FlushedHistoryExample` | crates/server-core/src/lib.rs:1667-1681 | a flushed lock that the history still has |
| `LockReplay.FlushedHistoryConflicts` | crates/client-core/src/resilient.rs:382-387 | a history that cannot be replayed after a flush, because another owner took the byte |
| `Ranges.AssembleRange` | crates/cache/src/lib.rs:1611-1652 | the sorted sweep answers if and only if every requested byte is covered (an empty request: if it lies inside a segment), with stored bytes and keys of used segments only |
| `Ranges.GapAtCursor` | crates/cache/src/lib.rs:1622-1641 | where the sweep gives up, no segment covers the byte at its cursor |
| `Ranges.MemoryGet` | crates/cache/src/lib.rs:260-275 | the memory tier answers exactly the covered requests |
| `Ranges.AnswersAreContent` | crates/cache/src/lib.rs:434-469 | over truthful entries an answer can only be the content of that revision |
| `Ranges.AssemblersAgree` | crates/cache/src/lib.rs:434-469 | sweep and greedy walk agree on every request over truthful entries |
| `HotRanges.HotRangeCache.Furthest` | crates/cache/src/lib.rs:445-453 | the greedy step finds the entry that reaches furthest, and none exactly if the byte is not cached |
| `HotRanges.HotRangeCache.Get` | crates/cache/src/lib.rs:434-469 | a hit moves the entries it used, which cover the request, to the back of the queue, and a miss leaves it alone; the answer is that of the walk |
| `HotRanges.HotRangeCache.Walk` | crates/cache/src/lib.rs:440-461 | the greedy walk answers exactly the covered requests, with stored bytes, and the entries it used cover the request |
| `HotRanges.HotRangeCache.Insert` | crates/cache/src/lib.rs:471-496 | an invalid or oversized payload changes nothing; otherwise the entry is newest and the oldest are dropped until the bound holds |
| `HotRanges.HotRangeCache.Touch` | crates/cache/src/lib.rs:462-467 | the used keys go to the back of the queue in some order, the others keep theirs |
| `HotRanges.HotRangeCache.EvictOldest` | crates/cache/src/lib.rs:488-495 | the eviction loop computes `Keep` |
| `HotRanges.KeepIsLongestFit` | crates/cache/src/lib.rs:488-495 | eviction leaves the longest newest part of the queue that fits |
| `HotRanges.UsedOutlivesUntouched` | crates/cache/src/lib.rs:462-495 | over whole runs of hits, stores and invalidations, an entry used by a hit outlives every entry not used or stored since |
| `HotRanges.HotRangeCache.Invalidate` | crates/cache/src/lib.rs:498-513 | exactly the ranges of the node are forgotten, the order of the others is kept and the byte counter stays exact |
| `HotRanges.HotRangeCache.constructor` | crates/cache/src/lib.rs:427-432 | a new tier is empty and valid |
| `CacheState.BindingIsUnique` | crates/cache/src/lib.rs:1001-1006 | a content-addressed entry belongs to one key and one payload |
| `CacheState.RecoveryIsExact` | crates/cache/src/lib.rs:1255-1283 | on a safe disk a bound key yields its own payload, or is corrupt exactly if the file is missing or the payload over the limit |
| `CacheState.ReadIsVerified` | crates/cache/src/lib.rs:1255-1283 | whatever has happened to the files, a read gives the payload the entry was made for if the file holds it and it is within the limit, and otherwise reports corruption |
| `CacheState.PutAccounts` | crates/cache/src/lib.rs:1055-1077 | replacing an entry keeps the byte counter exact |
| `CacheState.DropAccounts` | crates/cache/src/lib.rs:1110-1118 | removing an entry keeps the byte counter exact |
| `CacheState.Evict` | crates/cache/src/lib.rs:1683-1706 | eviction reaches the budget and leaves surviving entries as they were |
| `CacheState.EvictionIsLru` | crates/cache/src/lib.rs:1683-1706 | whatever was evicted is no younger than whatever stayed |
| `PersistentCache.OldestIsUnique` | crates/cache/src/lib.rs:1683-1706 | the eviction order has no ties |
| `PersistentCache.EvictToBudget` | crates/cache/src/lib.rs:1683-1706 | the eviction loop computes `Evict` |
| `PersistentCache.Stale` | crates/cache/src/lib.rs:1021-1030 | exactly the stores whose entry is already current are dropped |
| `PersistentCache.SpliceStores` | crates/cache/src/lib.rs:1054-1077 | the splicing loop computes the state that `CacheContents.SpliceIsExact` specifies key by key, with exact accounting |
| `PersistentCache.DropKeys` | crates/cache/src/lib.rs:1110-1118 | the removal loop removes exactly the keys and keeps the byte counter exact |
| `PersistentCache.TotalLength` | crates/cache/src/lib.rs:1743-1755 | the loading loop computes the sum of the stored lengths |
| `PersistentCache.Cache.constructor` | crates/cache/src/lib.rs:643-667 | loading a disk left by a crash takes over its manifest, whatever the budget, and knows which named files are missing |
| `PersistentCache.Cache.Open` | crates/cache/src/lib.rs:643-673 | a zero budget and a manifest of too many entries are refused; otherwise opening leaves the manifest evicted down to the budget, no loose file, and every named file on disk except those that were not there |
| `PersistentCache.Cache.EnforceBudget` | crates/cache/src/lib.rs:1122-1130 | eviction on opening commits the evicted state |
| `PersistentCache.Cache.WritePayload` | crates/cache/src/lib.rs:1039-1049 | a payload file is written under its own name and no named file is lost |
| `PersistentCache.Cache.WriteManifest` | crates/cache/src/lib.rs:1237-1253 | an atomic replace takes effect wholly or not at all, also when it reports an error; written after the files it names, it never names a file that is not there |
| `PersistentCache.Cache.RemoveFile` | crates/cache/src/lib.rs:1182-1201 | removing a file leaves manifest and other files alone; durable presence is lost exactly if the durable manifest names the file |
| `PersistentCache.Cache.RemoveUnreferencedFiles` | crates/cache/src/lib.rs:1182-1201 | only files the in-memory state does not name are removed, all of the listed ones unless it fails; durable presence is lost exactly if one of them is named by the durable manifest |
| `PersistentCache.Cache.CommitState` | crates/cache/src/lib.rs:1132-1180 | inside a batch the disk is untouched; otherwise the manifest comes before the removals, so that at no moment the durable manifest names a file that was removed, and memory and manifest end up both new, both old, or the manifest new and memory old |
| `PersistentCache.Cache.CommitNow` | crates/cache/src/lib.rs:1132-1180 | at no moment does the durable manifest name a removed file; starting in step, memory and disk disagree afterwards if and only if the manifest write took effect and then reported an error |
| `PersistentCache.Cache.BeginDeferredCommits` | crates/cache/src/lib.rs:1203-1211 | group-commit mode is entered, nothing else changes |
| `PersistentCache.Cache.FlushDeferredCommits` | crates/cache/src/lib.rs:1213-1230 | the manifest comes before the removals: at no moment does the durable manifest name a removed file; a successful flush of a batch makes disk and memory agree, as does one with nothing to flush unless an earlier write was torn; a failed manifest write keeps the batch for the next flush |
| `PersistentCache.Cache.RemoveKeys` | crates/cache/src/lib.rs:1102-1120 | the state afterwards is the specified one, and inside a batch the disk is untouched |
| `PersistentCache.Cache.InsertEntries` | crates/cache/src/lib.rs:983-1089 | all four phases keep every file the state names; an insert that meets no error ends in the state that `CacheContents.InsertIsExact` specifies key by key, with the files of its entries on disk and no loose file, and answers too large, too many entries or success accordingly; in a batch durable presence is kept if and only if the job does not write and then discard a file the durable manifest names, outside one if and only if the clean-up takes none, in terms of how far the job got |
| `CacheContents.SpliceIsExact` | crates/cache/src/lib.rs:1054-1077 | every stored key is bound to the payload of its last store and stamped by its position; every other key keeps its entry unchanged |
| `CacheContents.SpliceKeys` | crates/cache/src/lib.rs:1078-1080 | the manifest becomes too long exactly if the old and the stored keys together are too many |
| `CacheContents.InsertIsExact` | crates/cache/src/lib.rs:983-1089 | a refused insert changes nothing; otherwise every key left is bound to its last store among those that were not current, or keeps its old entry if it has none |
| `CacheContents.EvictionIsNeeded` | crates/cache/src/lib.rs:1683-1706 | nothing is evicted without need: an evicted entry and all entries no older than it exceeded the budget |
| `CacheContents.NewestSurvives` | crates/cache/src/lib.rs:1683-1706 | the newest entry survives an eviction if it fits the budget at all |
| `CacheContents.StoreBinds` | crates/cache/src/lib.rs:1051-1083 | one store that fits, with room in the manifest and an unsaturated clock, leaves its key bound to it |
| `CacheContents.InsertThenRead` | crates/cache/src/lib.rs:942-1089 | storing a payload and reading its key gives the payload back, whatever else is cached, unless it counted as current while its file was gone: then nothing is written and the read reports corruption |
| `CacheContents.SkippedStoreStaysLost` | crates/cache/src/lib.rs:1021-1030 | a disk that shows this: its manifest names a file that is gone, storing the same payload changes nothing, and the read finds corruption |
| `CacheContents.HitIsNewest` | crates/cache/src/lib.rs:1674-1681 | a hit makes its entry newer than every other and changes no other |
| `CacheContents.HitOutlivesIdle` | crates/cache/src/lib.rs:1674-1706 | over whole runs of jobs and reads, an entry that was hit outlives every entry that is not read or stored again, unless it is removed or found corrupt |
| `PersistentCache.Cache.SpliceIn` | crates/cache/src/lib.rs:1051-1083 | phase four splices, evicts and commits the specified state |
| `PersistentCache.Cache.CleanUp` | crates/cache/src/lib.rs:1085-1088 | written files that nobody refers to are removed; durable presence is lost exactly if the durable manifest names one of them |
| `PersistentCache.Cache.StoreAmongReaders` | crates/cache/src/lib.rs:942-977 | readers that touch and drop any keys before and after phase four of an insert lose no named file, and the state is the specified composition |
| `PersistentCache.Cache.ReadKey` | crates/cache/src/lib.rs:942-958 | a read answers with the verified payload, a miss or a corrupt entry; a hit is touched, a corrupt entry removed, and nothing else changes |
| `PersistentCache.Cache.InvalidateNode` | crates/cache/src/lib.rs:866-896 | afterwards no entry of the node is left, and every directory snapshot that is left can be read and does not list the node; nothing else went |
| `PersistentCache.TouchKeepsMeaning` | crates/cache/src/lib.rs:1674-1681 | touching entries keeps accounting and bindings |
| `PersistentCache.Cache.RunEach` | crates/cache/src/lib.rs:983-1120 | jobs committed one by one end in the specified state with exactly the named files; given how far each job got, memory and manifest are the specified ones, and every file the durable manifest names is on disk throughout if and only if no clean-up takes one; without torn writes none is taken |
| `PersistentCache.Cache.WriterBatch` | crates/cache/src/lib.rs:540-561 | the same jobs under deferred commits and one flush end in the same state with the same files; every file the durable manifest names is on disk throughout if and only if no job writes and discards one of them |
| `PersistentCache.RecreatedThenEvicted` | crates/cache/src/lib.rs:1051-1088 | a batch that does: a key is removed, re-created and then evicted by a neighbour |
| `PersistentCache.TornExactly` | crates/cache/src/lib.rs:1082-1088 | started in step, a clean-up takes a file the durable manifest names exactly if the manifest write was torn and a file the insert wrote is new and survives in the state that was to be committed |
| `PersistentCache.TornInsertLosesFile` | crates/cache/src/lib.rs:1082-1088 | so it is for any store into an empty cache |
| `PersistentCache.TornInsert` | crates/cache/src/lib.rs:1082-1088 | such a store in a live cache: once its clean-up went through, durable presence is lost if and only if the manifest write was torn |
| `PersistentCache.Cache.RemoveOrphanedFiles` | crates/cache/src/lib.rs:1285-1305 | after it no loose file is left and no named one is lost, in memory or in the manifest |
| `PersistentCache.LiveReadsHit` | crates/cache/src/lib.rs:1255-1283 | a live cache answers every bound key with its payload unless the file was lost before opening |
| `PersistentCache.PresentAtAnyTime` | crates/cache/src/lib.rs:1132-1201 | durable presence means presence in every disk state there ever was |
| `PersistentCache.CrashAnywhereIsSafe` | crates/cache/src/lib.rs:1132-1201 | in whatever disk state a crash leaves, the key-to-file map is one that was proposed, and a key answers with the payload bound to it, a miss or corrupt; under durable presence corrupt only if the file was missing at the start or is over the budget |
| `PersistentCache.CrashReopenRead` | crates/cache/src/lib.rs:643-673 | a crash at any moment, a reopening and a read: the manifest can be loaded, an unknown key is a miss, what is read is what the manifest binds, and under durable presence every key whose file was not missing at the start is read |
| `CachedRead.BlocksFor` | crates/client-core/src/cached.rs:881-930 | an overflowing request is refused; otherwise aligned blocks of one revision tile the request, none longer than the policy allows nor, for a small read, than a mebibyte, or the last block would pass the largest offset |
| `CachedRead.BuildBlocks` | crates/client-core/src/cached.rs:909-929 | the block loop produces that tiling |
| `CachedRead.TileHas` | crates/client-core/src/cached.rs:893-930 | every requested byte lies in a block |
| `CachedRead.FetchIsTruthful` | crates/client-core/src/cached.rs:642-679 | a delivered block is a slice of the content of the expected revision and so is what is stored, whatever mix of hits, short reads and reported revisions served it |
| `CachedRead.FetchThrough` | crates/client-core/src/cached.rs:642-679 | a fetch through both tiers keeps them truthful, fails only through the server and is complete if the server is; what it delivered is then held in memory if it fits, and what memory holds is delivered without the server |
| `CachedRead.FetchFailsExactly` | crates/client-core/src/cached.rs:642-679 | a fetch fails exactly if nothing is cached and the server fails, has another revision or sends too much; a lost connection is reported as offline |
| `CachedRead.FetchTwice` | crates/client-core/src/cached.rs:642-679 | a block fetched whole that fits in memory is delivered again, the same, when the server cannot be reached |
| `RangeTiers.Tiers.Get` | crates/cache/src/lib.rs:1478-1499 | the range lookup over both tiers: an answer is complete and a slice of the content, and a request the hot tier covers is always answered |
| `RangeTiers.Tiers.Load` | crates/cache/src/lib.rs:745-841 | the disk tier delivers one entry that covers the request or the assembled request, of stored bytes only |
| `RangeTiers.Tiers.Put` | crates/cache/src/lib.rs:1509-1531 | a store keeps both tiers truthful, whether or not it reaches the disk, and is in memory afterwards if it fits |
| `RangeTiers.Tiers.Invalidate` | crates/cache/src/lib.rs:1533-1539 | exactly the ranges of the node leave both tiers |
| `CachedRead.Collect` | crates/client-core/src/cached.rs:1094-1126 | the blocks fetched through the tiers, with other readers in between, are truthful; complete answers are kept; an error is the server's answer for some block |
| `CachedRead.CompleteBlocksCover` | crates/client-core/src/cached.rs:1094-1140 | complete blocks cover the request |
| `CachedRead.ReadOnline` | crates/client-core/src/cached.rs:1075-1164 | an answer is the requested window of the content at the handle's revision, complete answers always give one, and stale is reported only if the server reported another revision |
| `CachedRead.ReadRangeVersioned` | crates/client-core/src/cached.rs:1588-1639 | through truthful tiers and a server trusted only about the revision it reports, every answer is the window of one revision's content, after at most three refreshes; stale is reported only when they are used up |
| `SingleFlight.StepKeepsCells` | crates/client-core/src/cached.rs:631-686 | a registration points at a cell for its key, and a cell stays registered until it is full, over all interleavings |
| `SingleFlight.StepKeepsCallers` | crates/client-core/src/cached.rs:642-690 | a caller returns only the result of its own cell |
| `SingleFlight.StepKeepsGone` | crates/client-core/src/cached.rs:680-686 | no step leaves a registration pointing at a cell from which some caller has returned |
| `SingleFlight.RegistrationsAreOpen` | crates/client-core/src/cached.rs:680-686 | so it is in every reachable state |
| `SingleFlight.OneFlightPerBlock` | crates/client-core/src/cached.rs:625-690 | at most one unfinished fetch per block, so at most one remote read per block |
| `SingleFlight.SharersAgree` | crates/client-core/src/cached.rs:625-690 | callers that share a fetch see the same success or failure |
| `SingleFlight.LateCallersFetchAnew` | crates/client-core/src/cached.rs:631-686 | a caller that enters after another one returned never shares that one's cell, however long either stays |
| `SingleFlight.SharersOverlapped` | crates/client-core/src/cached.rs:631-686 | two callers that returned from one cell overlapped: neither had returned when the other entered |
| `SingleFlight.ResultsComeFromTheFetch` | crates/client-core/src/cached.rs:642-690 | whatever a caller got, a reader of the block it asked for reported exactly that |
| `SingleFlight.JoinedCallersAreNeverStranded` | crates/client-core/src/cached.rs:642-690 | a dropped initialiser leaves every joined caller able to go on |
| `Prefetch.UnscheduleIsPrefixSchedule` | crates/client-core/src/cached.rs:502-515 | taking back a denied suffix leaves exactly the state of having scheduled only the prefix |
| `Prefetch.Schedule` | crates/client-core/src/cached.rs:451-496 | the scheduling loop lays out the specified blocks and moves cursor and in-flight count with them |
| `Prefetch.LayOut` | crates/client-core/src/cached.rs:480-493 | the loop itself, block by block |
| `Prefetch.LayoutOffsets` | crates/client-core/src/cached.rs:481-493 | block `i` starts where the cursor stood after `i` blocks and ends at the file's end at the latest |
| `Prefetch.Match` | crates/client-core/src/cached.rs:325-334 | the nearest stream within the slack, the first of several equally near, and none exactly if no stream is within it |
| `Prefetch.ContinuesIsNear` | crates/client-core/src/cached.rs:325-334 | a read is within the slack exactly if it starts no further than that from where the stream expects it, on either side |
| `Prefetch.Oldest` | crates/client-core/src/cached.rs:347-354 | the slot to recycle was touched longest ago, and is the first such slot |
| `Prefetch.SequentialPrefetcher.constructor` | crates/client-core/src/cached.rs:251-263 | a new controller tracks nothing |
| `Prefetch.SequentialPrefetcher.Observe` | crates/client-core/src/cached.rs:294-445 | observing a read moves the controller to the specified state and returns the specified blocks; what that state is to the reader is stated by the `PrefetchSequence` rows |
| `Prefetch.SequentialPrefetcher.Unschedule` | crates/client-core/src/cached.rs:502-515 | the named stream takes the blocks back, nothing else changes |
| `Prefetch.SequentialPrefetcher.Complete` | crates/client-core/src/cached.rs:521-538 | the named stream counts one block less and is paused on failure, nothing else changes |
| `PrefetchRun.ScheduleIsOrderly` | crates/client-core/src/cached.rs:451-496 | a schedule pass continues a disjoint, increasing sequence inside the file and stays within the cap |
| `PrefetchRun.ReadKeepsPace` | crates/client-core/src/cached.rs:403-439 | a read keeps an armed window paid for by delivered bytes, two for one, and never shrinks it |
| `PrefetchRun.ContinueKeepsTracked` | crates/client-core/src/cached.rs:401-444 | a matched read keeps the accounting of all streams |
| `PrefetchRun.StartKeepsTracked` | crates/client-core/src/cached.rs:336-398 | so does a read that recycles a slot and starts a stream |
| `PrefetchRun.CompleteKeepsTracked` | crates/client-core/src/cached.rs:521-538 | so does a completion, also of a recycled stream |
| `PrefetchRun.StreamsAreAccounted` | crates/client-core/src/cached.rs:294-538 | over whole runs the granted blocks of a stream are disjoint, increasing and inside the file, and its in-flight count is granted minus completed and within the cap |
| `PrefetchRun.WindowGrowthIsPaced` | crates/client-core/src/cached.rs:409-429 | over whole runs an armed window lies between its armed size and the cap and gained at most twice the bytes delivered since arming (one byte per doubling more at an odd block size) |
| `PrefetchRun.WindowNeverShrinks` | crates/client-core/src/cached.rs:409-429 | over whole runs an armed stream without a failed fetch stays armed and its window never shrinks |
| `PrefetchSequence.EveryReadTouches` | crates/client-core/src/cached.rs:336-445 | every read touches one stream, the nearest within the slack or a new one, which then expects no less than the end of the read and has counted it, and leaves all others as they were |
| `PrefetchSequence.ReadsMoveTheirStream` | crates/client-core/src/cached.rs:336-445 | over whole runs the stream a read names expects no less than its end and, before the touch counter wraps, is the most recently touched |
| `PrefetchSequence.SequentialReaderIsFollowed` | crates/client-core/src/cached.rs:294-538 | over every run whose reads each start where the previous one ended, with completions anywhere between: one stream, numbered 1, expects the end of the last read, has counted every read, and is armed from the second read on unless a fetch has failed since the last read |
| `PrefetchSequence.GrowsExactly` | crates/client-core/src/cached.rs:409-429 | the window of a continued stream doubles, up to the cap, exactly if the read stalled and half a window of bytes was delivered since the last doubling |
| `PrefetchSequence.WindowReachesTheCap` | crates/client-core/src/cached.rs:403-439 | over every sequential run that keeps stalling on reads of half the largest window, the window has at least as many blocks as there were reads, up to the cap |
| `PrefetchSequence.ScheduleFillsTheWindow` | crates/client-core/src/cached.rs:451-496 | read-ahead starts at the cursor or past the blocks of the read, stays within the window behind them, and stops only when window, burst or file is used up |
| `PrefetchRevisions.StreamsAreAccountedAcrossRevisions` | crates/client-core/src/cached.rs:294-538 | the accounting survives revision changes as long as, since the last reset, no completion of an earlier revision finds a stream with its number and blocks in flight |
| `PrefetchRevisions.MiscountsExactly` | crates/client-core/src/cached.rs:521-530 | one event leaves the counts right if and only if it is no such completion; otherwise that stream counts one block less than are in flight |
| `PrefetchRevisions.StaleCompletionMiscounts` | crates/client-core/src/cached.rs:310-315 | a run of two reads and one completion that ends there, for any two revisions of a file longer than a block |
| `PrefetchRevisions.OneBlockLaysOutNothing` | crates/client-core/src/cached.rs:460-473 | in a file of one block nothing is ever scheduled ahead |
| `PrefetchRevisions.ReadStartsFromBase` | crates/client-core/src/cached.rs:310-315 | a read at another revision is a read of a fresh controller |
| `PrefetchRevisions.PausesExactly` | crates/client-core/src/cached.rs:521-538 | an event pauses an armed stream exactly if it reports a failed fetch under its number, of whatever revision; otherwise the window does not shrink |
| `PrefetchRevisions.WindowNeverShrinksAcrossRevisions` | crates/client-core/src/cached.rs:409-429 | over whole runs with revision changes, until the next reset and without such a report, an armed stream stays armed and its window never shrinks |
| `Permits.LaidBlockFitsBudget` | crates/client-core/src/cached.rs:881-891 | a block laid out for read-ahead is never longer than the byte budget |
| `Permits.UnitsForIsLeast` | crates/client-core/src/cached.rs:618-622 | a block asks for the least positive number of units that cover it or are the whole pool |
| `Permits.PoolSpendsTheBudget` | crates/client-core/src/cached.rs:727-731 | the pool is as large as the byte budget allows, and never empty |
| `Permits.UnclampedUnitsCover` | crates/client-core/src/cached.rs:618-622 | a request that was not clamped to the pool has units for all its bytes |
| `Permits.WholePoolIsAlone` | crates/client-core/src/cached.rs:618-622 | a block holding the whole pool is the only one |
| `Permits.StepKeepsInv` | crates/client-core/src/cached.rs:989-1042 | no slot and no unit is lost or invented by taking, refusing or giving back |
| `Permits.AdmittedExactly` | crates/client-core/src/cached.rs:989-1042 | over every run a block is admitted exactly if its units and those held by the blocks in flight fit into the pool; a refused one leaves nothing behind |
| `Permits.SpeculationIsBounded` | crates/client-core/src/cached.rs:727-731 | at every moment the blocks holding permits total at most min(`read_ahead_max_bytes`, 32 MiB), at most eight are in flight, and an idle pool is full |
| `RangeCopy.WriteForward` | crates/server-core/src/lib.rs:3968-3986 | ascending chunks join up to one write |
| `RangeCopy.WriteBackward` | crates/server-core/src/lib.rs:3953-3964 | descending chunks join up to one write, also past the end of the file |
| `RangeCopy.File.ReadAllAt` | crates/server-core/src/lib.rs:3988-4000 | short reads add up to the whole range or fail |
| `RangeCopy.File.WriteAllAt` | crates/server-core/src/lib.rs:3842-3861 | short writes add up to one write; a failure leaves a proper prefix and nothing outside the range changed |
| `RangeCopy.CopyBuffered` | crates/server-core/src/lib.rs:3968-3986 | a forward copy that overtakes nothing moves the old source bytes, also within one file; a failure leaves a proper prefix |
| `RangeCopy.CopyOverlap` | crates/server-core/src/lib.rs:3942-3966 | for any overlap within one file the destination gets the old source bytes |
| `RangeCopy.CopyBackward` | crates/server-core/src/lib.rs:3953-3965 | the backward loop does, also when it extends the file |
| `RangeCopy.KernelLoop` | crates/server-core/src/lib.rs:3898-3926 | wherever the kernel stops, a prefix is in place and the rest can still be read |
| `RangeCopy.CopyDisjoint` | crates/server-core/src/lib.rs:3896-3933 | the result does not depend on how much the kernel copied |
| `RangeCopy.CopyRange` | crates/server-core/src/lib.rs:3863-3940 | the output becomes the old output with the old input bytes written over it, the count stops at the input's end, and even a failure changes nothing outside the destination |
| `RangeCopy.CopyFileRange` | crates/server-core/src/lib.rs:1755-1801 | overflow and access are refused without effect; otherwise the above |
| `RangeCopy.CopyInChunks` | crates/server-core/src/lib.rs:4042-4058 | chunked copies add up to one copy; a failure leaves a proper prefix |
| `RangeCopy.ExchangeContents` | crates/server-core/src/lib.rs:4009-4021 | on success two files have swapped contents; where it stops decides what each file holds, a file being filled a proper prefix |
| `RangeCopy.ExchangeData` | crates/server-core/src/lib.rs:1922-1964 | the whole request: the right file's contents survive any failure; the left file's are lost exactly if refilling the right file failed and the files differed, or refilling the left file failed and they are neither the right file's nor the part that got across |
| `Registry.StepKeepsInverse` | crates/server-core/src/lib.rs:2261-2333 | every critical section keeps the two maps mutually inverse |
| `Registry.StepKeepsGlobalPermits` | crates/server-core/src/lib.rs:2183-2203 | free global permits, registered nodes and reservations always add up to the limit |
| `Registry.StepKeepsSessionPermits` | crates/server-core/src/lib.rs:2215-2259 | so do free session permits, known nodes and permits in hand |
| `Registry.ReferenceBalance` | crates/server-core/src/lib.rs:2343-2381 | each step moves a node's references together with what accounts for them, unless a node is dropped or a release finds nothing |
| `Registry.RegistryIsConsistent` | crates/server-core/src/lib.rs:2183-2333 | in every reachable state the maps are inverse, hold the root, and registry and working sets are within their limits |
| `Registry.ReferencesAreConserved` | crates/server-core/src/lib.rs:2343-2381 | references equal tracking sessions plus releases under way until a node is dropped by remove or rename, and afterwards exceed that by at most one for each forget request cut short with the node left |
| `Registry.NeverAbandonedNeverExceeds` | crates/server-core/src/lib.rs:2343-2381 | if no forget request was cut short with the node left, references never exceed tracking sessions plus releases under way, whatever was dropped |
| `Registry.GlobalEvictionSparesTracked` | crates/server-core/src/lib.rs:2261-2272 | with nothing dropped a global eviction takes neither the root nor a tracked node |
| `Registry.SessionEvictionSparesHandles` | crates/server-core/src/lib.rs:2232-2259 | a session eviction never takes the root or a node behind a handle open when it listed them; it takes one behind an open handle if and only if such a handle was opened since and not closed |
| `Registry.CutShortForgetExceeds` | crates/server-core/src/lib.rs:555-574 | a forget request cut short leaves the references of a remaining node one above what covers them, if and only if they matched before |
| `Registry.RememberFindsTheIdentity` | crates/server-core/src/lib.rs:2294-2333 | over every run a request to remember an identity goes on to track the node registered for exactly that identity, unless the derived identifier collides; then it ends and registers nothing |
| `Registry.TrackKnows` | crates/server-core/src/lib.rs:2343-2365 | tracking adds the node to what the session knows, if it is still registered, and nothing else |
| `Registry.RememberedIsTracked` | crates/server-core/src/lib.rs:2294-2365 | remembering and then tracking: whatever other requests do in between, the session comes to know the node registered for this identity, if it is still registered |
| `Registry.ChosenIsTracked` | crates/server-core/src/lib.rs:2335-2365 | the same for a node a request has found by itself |
| `Registry.StepKeepsKnown` | crates/server-core/src/lib.rs:555-574 | a step takes a node from a session exactly if it forgets it, evicts it or ends the session |
| `Registry.KnownUntilTaken` | crates/server-core/src/lib.rs:555-574 | over every run a session knows a node until such a step, whatever other sessions do |
| `RegistryExamples.CutShortForgetLeaks` | crates/server-core/src/lib.rs:555-574 | a reachable state in which a node keeps a reference that no session accounts for |
| `RegistryExamples.EvictionRacesWithOpen` | crates/server-core/src/lib.rs:2232-2246 | a reachable state in which an eviction is about to take a node behind a handle opened meanwhile |
| `PathRegistry.Table.constructor` | crates/server-core/src/lib.rs:396-418 | the registry starts with the root under its own path |
| `PathRegistry.Table.UpdateAfterRename` | crates/server-core/src/lib.rs:2408-2458 | the three loops compute the specified update |
| `PathRegistry.Table.Spare` | crates/server-core/src/lib.rs:2420-2428 | a replacing rename takes the paths at and under its target from every node but the source |
| `PathRegistry.Table.Rewrite` | crates/server-core/src/lib.rs:2429-2445 | every path is rewritten by its mode |
| `PathRegistry.Table.DropEmpty` | crates/server-core/src/lib.rs:2446-2456 | nodes without paths leave both maps, the root stays |
| `PathRegistry.Table.RemovePath` | crates/server-core/src/lib.rs:2383-2406 | the loops compute the specified removal |
| `PathRegistry.PathsAreApart` | crates/server-core/src/lib.rs:1277-1298 | a rename that did something had neither path above the other |
| `PathRegistry.RenameKeepsTree` | crates/server-core/src/lib.rs:1277-1298 | the renamed namespace is still a tree |
| `PathRegistry.MovedNamesSame` | crates/server-core/src/lib.rs:3530-3538 | a kept path names at its new place what it named before, in subtrees too |
| `PathRegistry.RenameKeepsTruth` | crates/server-core/src/lib.rs:2408-2458 | if every remembered path names its identity before a rename, it does afterwards, for Replace, NoReplace and Exchange, with hard links, subtrees and the same-file no-op |
| `PathRegistry.RenameForgetsOnlyReplaced` | crates/server-core/src/lib.rs:2420-2445 | a remembered path is forgotten only if its own name was replaced |
| `PathRegistry.UnlinkKeepsTruth` | crates/server-core/src/lib.rs:2383-2406 | removal keeps every remembered path true |
| `PathRegistry.UnlinkForgetsOnlyPath` | crates/server-core/src/lib.rs:2383-2406 | removal forgets no other path |
| `PathRegistry.UnlinkIsExact` | crates/server-core/src/lib.rs:2383-2406 | whatever the disk says, a removal takes from every node but the root exactly the path, and what lies below it if asked to; a node is forgotten exactly if it is left without a path |
| `PathRegistry.RenameIsExact` | crates/server-core/src/lib.rs:2408-2458 | whatever the disk says, a rename between different files moves every path that is not overwritten and leaves no other; the node that moves loses none |
| `PathRegistry.UpdatesKeepInverse` | crates/server-core/src/lib.rs:2383-2458 | both updates keep the maps inverse |
| `PathRegistry.RegistryStaysTrue` | crates/server-core/src/lib.rs:2274-2458 | after any sequence of link, remember, unlink and rename every remembered path is true |
| `Reconnect.StepKeepsOwn` | crates/client-core/src/resilient.rs:185-391 | every step leaves the call it belongs to in order: it holds the locks it should, reconnects only from the current generation marked failed, fits its goal and has sent no mutation twice |
| `Reconnect.StepKeepsShared` | crates/client-core/src/resilient.rs:185-249 | every step keeps generation, mark, epochs and handles consistent |
| `Reconnect.OthersKeep` | crates/client-core/src/resilient.rs:197-249 | what one call has locked is not changed by another |
| `Reconnect.GenerationsCountConnections` | crates/client-core/src/resilient.rs:218-232 | the generation counts installed connections: it rises by one per install and never otherwise, until it saturates |
| `Reconnect.ReplacedOnlyAfterFailure` | crates/client-core/src/resilient.rs:197-232 | a connection is replaced only after its generation was marked failed, that only after a transport failure, and every connection has the first reported epoch |
| `Reconnect.OneReconnects` | crates/client-core/src/resilient.rs:197-249 | at most one call reconnects at a time |
| `Reconnect.ResolvedHandleMatches` | crates/client-core/src/resilient.rs:340-391 | the pair `remote_handle` returns has one generation, and below the largest one the handle was issued by that connection |
| `Reconnect.MutationsAreSentOnce` | crates/client-core/src/resilient.rs:271-310 | a call sends at most one mutation, write or truncating open, and a write only over the connection that issued its handle |
| `Reconnect.NoRetryOverMarkedGeneration` | crates/client-core/src/resilient.rs:194-232 | over every run a call that marked a generation failed sends over it again only if the mark was lifted or moved to another generation in between |
| `Reconnect.QueuedCallReconnects` | crates/client-core/src/resilient.rs:198-232 | a queued call for the current generation, marked failed, with nobody reconnecting, replaces it by steps of its own, lifts the mark and goes on over the new connection; otherwise it goes on over the current one |
| `Reconnect.MutexHolderCanStep` | crates/client-core/src/resilient.rs:198-249 | in every reachable state a taken reconnect mutex is held by a call that has a step to make |
| `ReconnectCalls.CallsSendAtMostTwice` | crates/client-core/src/resilient.rs:251-310 | in every run a call sends at most two requests: one and its retry, or a reopening and a write |
| `ReconnectCalls.SendsOverUnmarked` | crates/client-core/src/resilient.rs:185-192 | in every run a call that never waited for a reconnect sends only over generations it found not marked failed |
| `ReconnectCalls.BrokenCallIsRetried` | crates/client-core/src/resilient.rs:251-307 | a query or non-truncating open that loses the current connection can send its request again over a connection of the next generation, by steps of its own |
| `ReconnectCalls.HandlesAreTheLastOpened` | crates/client-core/src/resilient.rs:312-391 | in every run a logical handle stands for the remote handle last opened or reopened for it, over the connection that answered, until it is closed |
| `ReconnectCalls.OpeningIsRemembered` | crates/client-core/src/resilient.rs:281-338 | an open that succeeds ends with its handle remembered |

## Left out

- QUIC, TLS, certificates, passwords, pairing and trust files: foreign libraries and input/output.
- Framing, compression and the wire format: library code with short index arithmetic around it.
- Real file system calls: only their assumed effect on files, names and directories is modelled; SHA-256 is a function assumed injective.
- Freshness of metadata and directory snapshots across the memory and disk tiers: cross-tier claims are made for ranges keyed by a revision only.
- The order in which `adopt_revision` compares revisions: revisions are digests.
- Calls that pair a handle with a connection fetched separately, as retried reads and `set_attributes` on a handle do: the pair may mix generations, so the claim is about the pair `remote_handle` returns.
- Backoff, cooldown and deadlines: a reconnect may fail at any time instead.
- macFUSE callbacks, command line, user interface and mount scripts: platform code.
- Append-mode output of a range copy and resource forks of an exchange: the model covers positioned writes and data forks.
- Changes to a file by other programs while a range copy runs: the operation gates of the server are taken to exclude them.
- Overflow of a node's reference count and of stream and touch counters: the counters are taken to stay below their width in runs (`Prefetch` itself wraps them).
- PersistentCache.Cache.FlushDeferredCommits: the list of files queued for removal is a set, because their order does not matter.
- PersistentCache.Cache.RunEach: the exact condition is stated once every clean-up went through, because a clean-up that fails half-way may or may not have reached a file.
- PersistentCache.Cache.StoreAmongReaders: readers act before and after phase four of an insert, not between single payload writes; a payload write changes what a reader finds only for an entry whose file was missing.
- RangeTiers.Tiers.Get: the disk tier is the map of range payloads it can still deliver; how a payload gets there and back is `PersistentCache`.
- Registry.ReferencesAreConserved: counts releases under way beside tracking sessions, because a forgotten node leaves the working set before its reference is given up.
- PathRegistry.RegistryStaysTrue: operations are taken one after another; a lookup that overlaps a rename may remember a path that no longer exists.
- PrefetchRun.StreamsAreAccounted: holds within one revision; `PrefetchRevisions` has the condition across revisions. Both take one granularity per revision.
- LockReplay.ReplayRoundTrip: takes the history in the order in which the server granted, and of one handle, because the client appends in the order of replies and keeps one history per handle.
- LockAnswers.EveryAnswerWasRight: a call that is cancelled while it waits gets no answer.
- CacheContents.HitOutlivesIdle: says nothing about hits after the clock has saturated at `u64::MAX`, because all later stamps are equal.
- PrefetchSequence.SequentialReaderIsFollowed: holds within one revision and one granularity, as a read at another revision starts the controller anew.
- Reconnect.ResolvedHandleMatches: says nothing about the issuer at generation `u64::MAX`, because the counter saturates there.
