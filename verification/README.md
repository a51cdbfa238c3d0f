# Verified model of the objfs write-back cache

objfs puts a local file cache and a persistent index in front of a remote object store. Clients
open, write, truncate, rename and close files; one background worker uploads what was written and
evicts what has not been used. This project models that cache (`cache/cache.go`, `cache/node.go`,
`cache/link.go`) in Dafny and proves what it promises.

`dafny verify dfyconfig.toml` checks everything.

## What is modelled, and in which form

| file | subject |
|---|---|
| `WriteBack.dfy` | the write-back protocol as interleaved steps: client operations, and the worker one critical section at a time (pick, lock, re-check, send, commit, deferred touch), with time and restarts |
| `WriteBackSafety.dfy` | the invariant and one lemma per step |
| `WriteBackTheorems.dfy` | whole runs: no unsent data is discarded; the cache refines a single-copy file system |
| `WriteBackLimits.dfy` | where the promise fails: unrecorded uploads and recorded hashes that do not tell, with exact conditions |
| `WriteBackEffects.dfy` | what single steps leave behind: bytes, references, recorded signatures and hashes, and what clients and worker can do next |
| `CachedListing.dfy` | how long a cached directory listing is safe from the evicting worker |
| `PathLocks.dfy`, `PathLockSafety.dfy`, `PathLockTheorems.dfy`, `PathLockLimits.dfy`, `PathLockProgress.dfy` | hierarchical path locks: any number of threads, reference-counted reader-writer mutexes created on demand; exclusion, one mutex per path, deadlock freedom, the deadlocks, and completion |
| `LockedNode.dfy` | locking the path of an ino while others rename it |
| `Paths.dfy`, `PrefixScan.dfy` | splitting paths, the at-or-below test, the byte order of keys, cursor scans |
| `NodeIndex.dfy` | the two buckets of the index as an object, and the rename transaction |
| `StaleKeys.dfy` | client operations whose path is renamed between reading it and locking it |
| `Ring.dfy`, `TimedList.dfy` | the intrusive circular list, and a dictionary kept in step with it |
| `LruQueues.dfy` | the rw and ro queues on those lists |
| `Daemon.dfy` | `uploadOne`, `evictOne`, their loops and `resetCache` as code that follows the protocol |
| `Presence.dfy`, `PresenceLog.dfy` | the presence caches, and what they remember of any log of events |
| `NegativeLookups.dfy` | the cache of absent paths |
| `NodeCodec.dfy`, `InoPath.dfy`, `CaseFold.dfy` | record codec, file names of inos, case folding |
| `Runs.dfy`, `Options.dfy` | induction over runs; optional values |

The pieces are tied together: the linked lists refine sequences (`LruQueues.Lru`), the sequences
refine the protocol's maps (`LruQueues.TouchRefines`, `PickRefines`), and the worker's code refines
runs of the protocol (`Daemon`), so the protocol's theorems hold of the code over real lists.

## Assumptions

- The database commits atomically, copies what it stores, and iterates keys in byte order. The
  transaction of an upload and of an eviction may fail; those of clients commit.
- The clock does not go backwards; content hashes do not collide; slices have no spare capacity.
- There is one worker, and the storage changes only through this cache. Signatures are not empty.
- In the write-back protocol a client operation runs under its path lock and is one step, and Open
  and Close are atomic. The code reads the path before it takes the lock and does not read it
  again; `StaleKeys` takes that apart and says exactly when it breaks the index.
- A write or truncate of a local file that fails has no effect.
- In the write-back protocol a path gets a new node only if no other live node has it. The code does
  not see to that; `StaleKeys.OpenFreshExact` and `SecondOpenBreaks` say what follows.
- Keys are absolute. In `NodeIndex` folding works symbol by symbol and keeps lengths.

## Findings

- Every rename can deadlock. Its two `lockPath` calls both read-lock "/", and Go's mutex makes the
  second wait behind a writer that announced itself in between: a concurrent `lockPath("/")`
  blocks it for ever (`RenameDeadlocksWithRoot`).
- Two renames can deadlock even if re-taking a read lock never waits, exactly if the earlier path
  extends a partial path of the later one by a byte below '/', such as '-', '.' or a space
  (`AscendingExact`, `RenameDeadlocksAcross`); otherwise locking cannot deadlock (`NoDeadlock`).
- If the transaction fails after the storage accepted an upload while the file is open, a later
  write through that file is overwritten on reopening, exactly if the signature changed and the
  write did not leave the uploaded content as a prefix (`CommitFailureLosesWrite`).
- Truncating a file that has to be fetched first records the hash of the fetched prefix. After a
  restart the file looks clean and is evicted without being uploaded, exactly if less than the
  stored object was fetched (`ShortTruncateHidesData`, `ShortTruncateIsLost`). The same can follow
  when a signature is refreshed without the hash (`ExactStat`), and wherever a hash is outdated
  under a current signature a client can lose data (`InexactHashLosesData`).
- Renaming a node that has no record does not reach the index: the scan finds no key, so the record
  and the local file of the target stay. A reader of the target gets the renamed object exactly if
  that file has the object's signature and content, or another signature and is no longer than the
  object, which is then copied over it (`RenameShows`). If the file waits for upload, the worker
  sends it over the renamed object, which is then gone (`RenamedObjectIsLost`). And if the
  signature of such a superseded file is refreshed, as an attempt to make it does, it passes for
  current (`StatNeedsCare`).
- An operation that read its path before a rename and locks it afterwards puts its record at the
  old key. For a catalogued node the index is then not one-to-one (`StaleActBreaks`).
- Opening a path that is open and has no record yet makes a second node for it. Once both have been
  looked up, the index is not one-to-one (`SecondOpenBreaks`).
- A key such as "/a-b" between "/a" and "/a/c" ends the cursor scan of "/a" early: rename moves
  only "/a" itself, and a directory with entries looks empty (`InterposedScan`, `NotEmptyExact`).
- The comment on the locking order at `cache/cache.go:733` speaks of one equal pair of keys; equal
  ancestors of different keys are locked twice all the same, and the model follows the code.

## Model

| member | source | states |
|---|---|---|
| `WriteBackTheorems.Keep` | cache/cache.go:1213-1472 | every step of clients, worker, clock and restart keeps the invariant: records name stored objects, open nodes agree with records, unsent data is queued or being uploaded, nothing catalogued is forgotten, paths have one owner |
| `WriteBackTheorems.NoUnsentDataEvicted` | cache/cache.go:1393-1472 | in every run, whenever the worker drops a record its file has no unsent change and reads as the stored object, and whenever it unlinks the file of a current record that file equals the object, even if the ino came back into a queue between pick and lock or before the deferred touch |
| `WriteBackTheorems.UnsentDataIsKnown` | cache/cache.go:1213-1376 | in every reachable state a file that was changed since it was fetched or sent is in rw or in the uploader's hand; every catalogued ino and every local file is queued, open or in the worker's hand; rw and ro are disjoint |
| `WriteBackTheorems.ReadSeesView` | cache/cache.go:447-457 | what a client reads through an open file is what the view shows at its path |
| `WriteBackTheorems.FetchReadsView` | cache/cache.go:1099-1163 | and what opening a closed file and fetching it yields is what the view shows: the file if its signature is current, else the object copied over it |
| `WriteBackTheorems.PrefixSuffices` | cache/cache.go:474-487 | fetching only what a truncate keeps and truncating equals fetching everything and truncating |
| `WriteBackTheorems.TruncateShows` | cache/cache.go:1099-1163 | truncating, with or without a fetch, shows exactly a truncate of the file that readers saw |
| `WriteBackTheorems.UploadIsQuiet` | cache/cache.go:1252-1376 | no step of an upload changes what readers see, whatever fails and whatever is open |
| `WriteBackTheorems.EvictIsQuiet` | cache/cache.go:1393-1472 | no step of an eviction changes what readers see |
| `WriteBackTheorems.FetchIsQuiet` | cache/cache.go:1045-1097 | fetching into a local file, new or outdated, changes nothing that readers see |
| `WriteBackTheorems.CloseIsQuiet` | cache/cache.go:501-521 | closing changes nothing that readers see |
| `WriteBackTheorems.RenameShows` | cache/cache.go:706-834 | a rename of one object shows as that rename, the target replaced and dirty data carried along, if and only if the node has a record or the local file at the target has the object's signature and content, or another signature and no greater length |
| `WriteBackTheorems.ArrivalExact` | cache/cache.go:759-813 | for a node without a record, readers get the object and the invariant is kept if and only if every local file at the target has its content, or another signature, no greater length and no upload ahead of it |
| `WriteBackTheorems.StepRefines` | cache/cache.go:1045-1472 | after any step readers see what a file system without a cache shows after the client operation that the step stands for |
| `WriteBackTheorems.StepExact` | cache/cache.go:1045-1472 | a step keeps the invariant and refines its operation if and only if it is none of four: an unrecorded upload of an open file, a rename of a node without a record over a file that cannot be replaced, a refreshed signature of a superseded file, a restart with a hash that does not tell |
| `WriteBackTheorems.StatNeedsCare` | cache/cache.go:586-591 | refreshing the signature of a superseded file breaks the invariant |
| `WriteBackTheorems.CommitShows` | cache/cache.go:1349-1369 | recording an upload, or failing to, shows nothing, and keeps the invariant if and only if it succeeds, nobody has the file open or the signature is the same |
| `WriteBackTheorems.RunRefines` | cache/cache.go:372-521 | the same over whole runs with uploads, failures, evictions and restarts interleaved anywhere |
| `WriteBackEffects.FsEffect` | cache/cache.go:372-521 | the file system without a cache: each operation changes the files that it names, as its name says, and no other |
| `WriteBackEffects.FsBytes` | cache/cache.go:459-487 | byte by byte, what a write and a truncate leave in that file system |
| `WriteBackEffects.SpliceBytes` | cache/cache.go:459-472 | a write replaces the bytes that it covers and no others, pads a gap with zeros and never shortens the file |
| `WriteBackEffects.ResizeBytes` | cache/cache.go:474-487 | a truncate keeps the bytes that fit and fills up with zeros |
| `WriteBackEffects.OverlayBytes` | cache/cache.go:1144-1157 | copying an object over a longer file replaces its beginning and keeps what is behind |
| `WriteBackEffects.StepRefs` | cache/cache.go:372-391 | opening counts a reference, closing gives one back, a restart forgets all, and no other step counts |
| `WriteBackEffects.RunRefs` | cache/cache.go:501-521 | in every run an ino is open if and only if it has been opened more often than closed since the last restart |
| `WriteBackEffects.CloseUndoesOpen` | cache/node.go:181-188 | closing after opening gives the state back, and leaves a touch if the node was not open |
| `WriteBackEffects.FileStaysOpen` | cache/cache.go:501-521 | an open file stays open through every step but the close of its last reference and a restart |
| `WriteBackEffects.OpenGives` | cache/cache.go:536-574 | opening gives the open node, or one with the record of the path; a fresh one has an unused ino and no record |
| `WriteBackEffects.RecordsAreCurrent` | cache/cache.go:858-892 | looking up, making, fetching, listing and recording an upload leave a record with the signature of the stored object |
| `WriteBackEffects.RecordedIsClean` | cache/cache.go:263-285 | a file that was fetched whole or whose upload was recorded is in ro after a restart |
| `WriteBackEffects.RestartedIsDue` | cache/cache.go:263-285 | with delays that are not zero everything that a restart queues is due at once: changed files for upload, the others for eviction |
| `WriteBackEffects.ChangesAreQueued` | cache/cache.go:459-487 | a write or truncate queues the file for upload at the current time and takes it off ro |
| `WriteBackEffects.WorkerGoesOn` | cache/cache.go:1252-1472 | in every reachable state the worker has a next step, or is idle and can take whatever is due or forced |
| `WriteBackEffects.ClientsGoOn` | cache/cache.go:372-521 | where the worker has no path locked, clients can open, list, look up, make, remove, fetch, write, truncate and close, and rename to a path that nobody has open |
| `WriteBackEffects.RemovedStaysRemoved` | cache/cache.go:645-704 | a removed node stays open with its references and its file, is not catalogued, and takes no more operations |
| `WriteBackSafety.KeepRestart` | cache/cache.go:239-285 | rebuilding the queues at start-up keeps the invariant if and only if no recorded hash matches a changed file and every superseded file has its recorded hash |
| `WriteBackSafety.KeepSend` | cache/cache.go:1308-1341 | sending a file under its path lock keeps the invariant |
| `WriteBackSafety.KeepEvDelete` | cache/cache.go:1454-1463 | dropping a record keeps the invariant, with the failing transaction |
| `WriteBackSafety.KeepTouchIdle` | cache/cache.go:1275-1282 | the deferred touch, after the path lock is gone, keeps the invariant |
| `WriteBackLimits.CommitFailureExact` | cache/cache.go:1343-1361 | after an accepted upload whose transaction fails, the invariant survives if and only if nobody has the file open or the signature did not change |
| `WriteBackLimits.CommitFailureLosesWrite` | cache/cache.go:1343-1361 | after such a failure, for any write and any number of references, the write survives closing and reopening if and only if the signature did not change or the uploaded content is a prefix of the file |
| `WriteBackLimits.ShortTruncateHidesData` | cache/cache.go:1144-1157 | a truncate leaves recorded hashes that tell unsent files apart if and only if it does not fetch, or fetches the whole object; otherwise the file is unsent and a restart puts it up for eviction |
| `WriteBackLimits.ShortTruncateIsLost` | cache/cache.go:263-285 | an unsent file whose recorded hash matches is evicted after a restart without an upload |
| `WriteBackLimits.PlainRunRefines` | cache/cache.go:239-285 | runs from an empty cache whose steps keep hashes exact and track their uploads refine the single-copy file system, with restarts anywhere and no condition on hashes |
| `WriteBackLimits.ExactStep` | cache/cache.go:1099-1163 | for every operation: recorded hashes stay exact if and only if the operation is not one of the named risks, each a test on the state before it |
| `WriteBackLimits.ExactStat` | cache/cache.go:858-892 | refreshing a signature keeps hashes exact if and only if the recorded hash was not outdated |
| `WriteBackLimits.InexactHashLosesData` | cache/cache.go:263-285 | wherever the hash under a current signature is not exact, a client can write something that the next restart takes for sent and that is then evicted |
| `WriteBackLimits.InexactHashLosesObject` | cache/cache.go:263-285 | and wherever the hash of a superseded file is not that of the file, the next restart queues the file, and it is sent over the object |
| `WriteBackLimits.RenamedObjectIsLost` | cache/cache.go:1308-1341 | after the rename of a node without a record over a file that waits for upload, the next upload replaces the renamed object by that file |
| `WriteBackLimits.RenamedObjectIsRead` | cache/cache.go:1099-1163 | after one over a file that can be replaced, a client that opens the target reads the renamed object |
| `CachedListing.ListingLists` | cache/cache.go:1035-1040 | listing a directory leaves every entry, known, new or already picked for eviction, safe from the time of the listing |
| `CachedListing.ListingOutlivesNoEntry` | cache/cache.go:1035-1040 | with a directory timeout within the eviction delay, whenever dirpres has a directory the hit comes from a listing none of whose entries the unforced loop is about to drop or unlink |
| `CachedListing.LateListingIsStale` | cache/cache.go:1402-1407 | there is a moment at which dirpres still has the directory and an entry of the same time may be evicted if and only if the eviction delay is shorter than the timeout, and then the eviction goes through |
| `PathLockTheorems.RunKeeps` | cache/cache.go:1580-1623 | the lock invariant holds in every state of every run of any number of threads |
| `PathLockTheorems.RefcountIsClaims` | cache/cache.go:1586-1615 | a path has a mutex if and only if a thread holds or waits for it, and its reference count is the number of such claims, with multiplicity |
| `PathLockTheorems.OneLiveMutex` | cache/cache.go:1603-1623 | all claims on a path are on one mutex, and what unlockPath unlocks after dropping the map entry is what lockPath locked |
| `PathLockTheorems.MutualExclusion` | cache/cache.go:1580-1657 | no two threads are inside sections of canonical paths of which one is at or below the other |
| `PathLockTheorems.NoDeadlock` | cache/cache.go:722-737 | if every request is a single path, or a rename in ascending order under re-entrant read locks, then in every reachable state with a busy thread some thread can move |
| `PathLocks.RenameIsAllowed` | cache/cache.go:715-737 | for canonical keys a rename is refused if and only if they differ and one is at or below the other; otherwise both keys are locked for writing, equal ones once, the smaller first, and everything else only for reading |
| `PathLocks.LeafLocked` | cache/cache.go:1595-1599 | lockPath locks the path itself for writing, as its last step, and all else for reading |
| `PathLockProgress.ActShortens` | cache/cache.go:1580-1623 | every step of a thread brings its request nearer to the end and leaves the other threads alone |
| `PathLockProgress.StartBounds` | cache/cache.go:1580-1623 | a request takes at most five steps for each of its acquisitions, and one |
| `PathLockProgress.AllComplete` | cache/cache.go:1580-1623 | from any reachable state of safe requests there is a way on which all of them complete |
| `PathLockProgress.IdleIsClean` | cache/cache.go:1603-1623 | when no thread is busy the map of mutexes is empty and every mutex ever made is free |
| `PathLockLimits.AscendingExact` | cache/cache.go:722-737 | a rename locks in ascending order if and only if the first path does not extend a partial path of the second by a byte below the slash |
| `PathLockLimits.HighBytesAscend` | cache/cache.go:722-737 | paths whose component bytes are above the slash are locked in ascending order |
| `PathLockLimits.RenameDeadlocksWithRoot` | cache/cache.go:1595-1599 | under the waiting policy of Go's mutex every rename reaches a deadlock with a lockPath of the root |
| `PathLockLimits.RenameDeadlocksAcross` | cache/cache.go:722-737 | every rename that is not ascending reaches a deadlock with another rename under any policy |
| `LockedNode.Thread.GetLockedNode` | cache/cache.go:1490-1521 | for any answers of the index: on success exactly one lock is held, on the key that was read while it was held; on failure none; no lock is awaited while another is held |
| `LockedNode.QuietDecides` | cache/cache.go:1490-1521 | once the index is quiet two more lookups decide |
| `LockedNode.FoundIsConfirmed` | cache/cache.go:1507-1512 | success means that two successive lookups agreed |
| `Paths.SplitPartials` | cache/cache.go:1625-1650 | the splitting loop yields the root and the join of every prefix of the components, however many slashes separate them |
| `Paths.ComponentsOfJoin` | cache/cache.go:1625-1650 | splitting undoes joining |
| `Paths.HasPrefixIsPartialPath` | cache/cache.go:1652-1657 | for canonical paths the byte test holds if and only if the second path is a partial path of the first |
| `Paths.PartialPathsAscend` | cache/cache.go:1580-1601 | lockPath acquires in strictly ascending byte order |
| `PrefixScan.Scan` | cache/cache.go:764-771 | over sorted keys the scan collects everything at or below the key if none is interposed, only the key itself if one is, and everything for the root |
| `PrefixScan.InterposedScan` | cache/cache.go:764-771 | a key that extends k by a byte below the slash hides everything below k |
| `PrefixScan.ListCached` | cache/cache.go:916-946 | the cached listing is sorted, has only direct children of the directory and no more than the maximum; below the maximum and with nothing interposed it has all of them |
| `PrefixScan.ChildrenExact` | cache/cache.go:916-946 | the listing keeps the scanned keys that are direct children, all of them, in order |
| `PrefixScan.ChildExact` | cache/cache.go:922-924 | for canonical keys the byte test finds exactly the keys with one more component, below the root too |
| `PrefixScan.NotEmptyExact` | cache/cache.go:652-669 | a directory is reported as not empty if and only if something is catalogued below it and no key is interposed |
| `NodeIndex.PutExact` | cache/node.go:109-120 | Put keeps the index one-to-one if and only if the key is free or owned by the same ino and the ino is at no other key |
| `NodeIndex.DeleteKeeps` | cache/node.go:121-137 | deleting a key and its ino keeps the index one-to-one |
| `NodeIndex.Index.GetWithIno` | cache/node.go:80-94 | finds a record if and only if some record has the ino, and then its own, at the key of its path |
| `NodeIndex.Index.NextIno` | cache/node.go:96-107 | a new ino is one that the index has never had |
| `NodeIndex.Index.PutRec` | cache/node.go:109-120 | the whole new state of both buckets |
| `NodeIndex.Index.Delete` | cache/node.go:121-137 | the whole new state, unchanged for a missing key |
| `NodeIndex.Index.MoveKeys` | cache/cache.go:773-813 | the loop computes the fold of its iterations: every scanned record is under the new prefix with its path rewritten, image keys only are overwritten, the rest is as before, and the index stays one-to-one |
| `NodeIndex.MoveAllMoves` | cache/cache.go:773-813 | after any number of iterations the index is one-to-one, the keys so far are moved and the others untouched |
| `NodeIndex.Index.MoveOpen` | cache/cache.go:819-826 | exactly the moved inos get their open paths rewritten |
| `NodeIndex.Index.Rename` | cache/cache.go:706-826 | EINVAL if and only if the keys differ and one is at or below the other; otherwise done if and only if the node is not deleted and the storage renames the object, failed if and only if the storage refuses, EPERM if the node is deleted or the object is missing; unless done nothing changes; when done the scanned subtree is moved, keys stay the keys of paths, and open nodes agree with the catalogue |
| `NodeIndex.SubtreeMoves` | cache/cache.go:759-813 | with nothing interposed every record at or below the old key is at its image with its ino, its attributes and its path rewritten, nothing is left at or below the old key, and records outside both subtrees are as before |
| `NodeIndex.RenameBack` | cache/cache.go:759-813 | renaming there and back restores every record, if and only if its path is spelled as the old path |
| `StaleKeys.PutValidExact` | cache/cache.go:874-887 | putting a node's record keeps the index valid if and only if the key is that of the node's path; at any other key a catalogued node leaves an index that is not one-to-one |
| `StaleKeys.RenameKeepsValid` | cache/cache.go:759-826 | the rename transaction under its locks keeps the index one-to-one and keyed by path, and the open nodes agreeing with it, at keys of their own |
| `StaleKeys.RenameIsStep` | cache/cache.go:706-826 | the rename of the index object, scan and all, is such a step |
| `StaleKeys.FreshSinceLock` | cache/cache.go:837-839 | from lock to action a locked key stays as current or as outdated as it was, whatever other threads do |
| `StaleKeys.ActValidExact` | cache/cache.go:1049-1051 | an operation leaves the index valid if and only if the key was still the node's when the lock was taken |
| `StaleKeys.RunValidExact` | cache/cache.go:553-626 | over any run of opens, closes, renames and operations of any number of threads the index stays valid if and only if every record was put at the key that its node had and every fresh open was at a key that no other node had |
| `StaleKeys.StaleActBreaks` | cache/cache.go:1183-1202 | from any valid state and for any catalogued node: reading its path, a rename, locking and acting can all happen, and leave an index that is not one-to-one |
| `StaleKeys.OpenFreshExact` | cache/cache.go:536-574 | a fresh open leaves every node at a key of its own if and only if no open node has that key |
| `StaleKeys.SecondOpenBreaks` | cache/cache.go:553-571 | from any valid state with an open node that has no record: opening its path again and looking both nodes up can happen, and leaves an index that is not one-to-one |
| `StaleKeys.OpenCloseCan` | cache/cache.go:372-391 | any record whose node is not open can be opened, and any node that no thread works on closed, with nothing else changed |
| `Ring.Link.InsertTail` | cache/link.go:31-37 | the ring with the item appended; only the neighbouring links are written |
| `Ring.Link.Remove` | cache/link.go:39-44 | the ring without the item |
| `Ring.Link.Init` | cache/link.go:26-29 | an empty ring |
| `Ring.RingUnique` | cache/link.go:22-44 | the links determine the items and their order |
| `TimedList.KeyedList.Take` | cache/cache.go:1227-1239 | takes a key out of the dictionary and its link out of the list, which stay in step |
| `TimedList.KeyedList.Append` | cache/cache.go:1243-1247 | puts a link last with its new time, dictionary and list in step |
| `TimedList.HeadDecides` | cache/cache.go:1255-1266 | some entry is due if and only if the head is |
| `LruQueues.RunInOrder` | cache/cache.go:1213-1282 | after any sequence of touches, picks and waits no ino is queued twice, in one queue or both, and times ascend |
| `LruQueues.TouchRefines` | cache/cache.go:1213-1250 | touching on the queues is touching in the protocol |
| `LruQueues.PickRefines` | cache/cache.go:1253-1273 | the head is due if and only if the protocol can pick anything, and then the head is one of its choices |
| `LruQueues.PickEvictRefines` | cache/cache.go:1394-1414 | the same for eviction |
| `LruQueues.DueExact` | cache/cache.go:1255-1266 | the head is due if and only if any entry is, at any time |
| `LruQueues.EachTriedOnce` | cache/cache.go:1275-1282 | with n inos waiting, n failing uploads try each exactly once, in order |
| `LruQueues.Lru.TouchIno` | cache/cache.go:1213-1250 | on the linked lists: the ino's item goes to the tail of its queue, unless it waits for upload and is touched for eviction |
| `LruQueues.Lru.TakeUpload` | cache/cache.go:1253-1273 | on the linked lists: the head leaves rw if and only if it is due or forced |
| `LruQueues.Lru.TakeEvict` | cache/cache.go:1394-1414 | the same for ro |
| `Daemon.SendFollows` | cache/cache.go:1284-1376 | an upload without interruption is a run of the protocol, for every combination of faults and open files; readers see what they saw, and the invariant is lost if and only if an accepted upload with a new signature is not recorded while the file is open |
| `Daemon.DiscardFollows` | cache/cache.go:1423-1472 | an eviction without interruption is a run of the protocol |
| `Daemon.UploadedSound` | cache/cache.go:1252-1376 | uploadOne keeps what readers see whatever fails and whatever is open, and keeps the cache sound if and only if it does not lose track of an upload |
| `Daemon.UploadedQueues` | cache/cache.go:1275-1282 | nothing is uploaded if and only if nothing is due; success takes the head off rw, failure moves it to the tail, and without faults there is no failure |
| `Daemon.DiscardedSound` | cache/cache.go:1393-1472 | evictOne keeps the invariant, the order of the queues and what readers see |
| `Daemon.EmptyQueuesEmptyCache` | cache/cache.go:1523-1534 | with nothing open, empty queues mean an empty catalogue, no local files, and readers seeing the storage itself |
| `Daemon.Cache.UploadOne` | cache/cache.go:1252-1376 | the code over the linked lists computes that state and result |
| `Daemon.Cache.SendFile` | cache/cache.go:1284-1376 | the part under the path lock, with its five exits |
| `Daemon.Cache.EvictOne` | cache/cache.go:1393-1472 | the code over the linked lists computes that state and result |
| `Daemon.Cache.UploadAll` | cache/cache.go:1378-1391 | ends; success means that nothing is due any more, forced or not; keeps whatever one successful upload keeps; after a failure the state is that of the one failed upload |
| `Daemon.Cache.EvictAll` | cache/cache.go:1474-1487 | ends; success means that nothing is due any more, forced or not; keeps whatever one eviction keeps, and rw |
| `Daemon.Cache.ResetCache` | cache/cache.go:1523-1534 | with any files open and any faults: ends; success means that nothing in rw was past its delay when uploading ended and nothing in ro is at the end, and a forced success empties both queues; if no lookup, upload or transaction fails it succeeds; from a sound cache readers see what they saw whatever fails, it is sound afterwards if and only if it did not end in an upload that lost track, a forced success leaves only open inos catalogued and, with nothing open, the storage holding exactly what readers saw |
| `Presence.PathPresenceCache.HasPath` | cache/cache.go:1705-1720 | a hit if and only if the key has an entry within the timeout; a hit changes nothing, and after a miss the key has no entry |
| `Presence.PathPresenceCache.AddPath` | cache/cache.go:1722-1747 | moves a known key to the tail; a new one pushes out the head of a full cache |
| `Presence.PathPresenceCache.RemovePath` | cache/cache.go:1749-1759 | forgets one key |
| `Presence.PathPresenceCache.RemoveAllPath` | cache/cache.go:1761-1769 | forgets all keys |
| `PresenceLog.Bounded` | cache/cache.go:1697-1780 | after any log the cache holds at most its maximum, no key twice, in order of time |
| `PresenceLog.HitIsJustified` | cache/cache.go:1705-1720 | a hit implies an add within the timeout and no removal since |
| `PresenceLog.Survives` | cache/cache.go:1722-1747 | an unexpired, unremoved key is a hit if fewer than the maximum of other keys were added since |
| `PresenceLog.SurvivesExactly` | cache/cache.go:1722-1747 | if only other keys were added since, that bound is exact |
| `NegativeLookups.StepCoherent` | cache/cache.go:858-892 | stat, make, remove, rename and readdir, with failing storage calls, remember no wrong absence |
| `NegativeLookups.RenameCoherent` | cache/cache.go:828-831 | after a rename only the old key is remembered as absent, and it is |
| `NegativeLookups.LookupsAreRight` | cache/cache.go:858-872 | in every run lookups are answered as the storage would answer them |
| `NegativeLookups.StorageEffect` | cache/cache.go:576-704 | which step changes the storage, and how |
| `NegativeLookups.AbsenceIsRemembered` | cache/cache.go:858-872 | an absence that an operation showed is answered for the timeout without asking the storage |
| `NegativeLookups.PresenceIsSeen` | cache/cache.go:1035-1040 | what was made, found or listed is not remembered as absent, and a lookup finds what was made |
| `NegativeLookups.ClearingOneExact` | cache/cache.go:1761-1769 | forgetting the new path alone would be right if and only if the move brings no other remembered absence into being |
| `NegativeLookups.ClearingOneFails` | cache/cache.go:828-831 | a rename for which it would not be |
| `NodeCodec.RoundTripExact` | cache/node.go:195-258 | decoding an encoded record, with anything behind it, gives the record back if and only if path and signature have at most 65535 bytes, the hash at most 255, and the times fit 64-bit nanoseconds |
| `NodeCodec.EncodedLayout` | cache/node.go:195-222 | the place of every field in the encoded record |
| `NodeCodec.TwosComplement` | cache/node.go:195-258 | numbers that are not negative are written as they are, negative ones as 2^64 more |
| `NodeCodec.ReencodeExact` | cache/node.go:224-258 | encoding what was decoded gives the same bytes if and only if the directory flag was zero or one |
| `NodeCodec.PrefixRejected` | cache/node.go:190-258 | a record that fits takes exactly EncodeLen bytes, and no strict prefix decodes |
| `NodeCodec.Node.Encode` | cache/node.go:195-222 | writes the encoded record at the start of the buffer and nothing behind it, with lengths cut to their fields |
| `NodeCodec.Node.Decode` | cache/node.go:224-258 | succeeds if and only if the buffer is long enough, and otherwise leaves the node alone |
| `NodeCodec.GetRecord` | cache/node.go:234-245 | the reads succeed together if and only if the buffer is long enough, and give the record |
| `NodeCodec.PutUint64` | cache/node.go:312-322 | the eight shifted bytes are the big-endian number, and nothing else is written |
| `NodeCodec.PutBytes` | cache/node.go:328-340 | copies at most the maximum and writes nothing else |
| `NodeCodec.NumberOfBigEndian` | cache/node.go:346-358 | reading back keeps a number modulo the width of its field |
| `InoPath.ParseFilePath` | cache/cache.go:1552-1570 | every 64-bit ino is read back from the name of its file |
| `InoPath.FilePathShape` | cache/cache.go:1552-1554 | the file of an ino: two digits for its low byte, a separator, fourteen digits for the rest, in small letters |
| `InoPath.OnlyNumeralsParse` | cache/cache.go:1556-1570 | only a path under the root with nothing behind it but hexadecimal digits and separators reads as an ino, of 64 bits |
| `InoPath.DigitValueExact` | cache/cache.go:1568 | the sixteen digits in both cases have their values, and no other character has one |
| `InoPath.RemoveStrays` | cache/cache.go:241-258 | the start-up walk removes exactly the files whose names read as inos without a record: every file of a catalogued ino stays, that of any other 64-bit ino goes, and what is outside the cache directory or has a character that is no hexadecimal digit or separator stays, such as the database |
| `CaseFold.NormalizeRune` | cache/cache.go:1680-1692 | the folding loop ends with the least rune of the class |
| `CaseFold.NormalizeCase` | cache/cache.go:1677-1695 | every rune is replaced by the least of its class |
| `CaseFold.NormalIdempotent` | cache/cache.go:1677-1695 | normalizing twice is normalizing once |
| `CaseFold.NormalEqualIff` | cache/cache.go:1572-1578 | two paths have the same key if and only if they are equivalent rune by rune |
| `CaseFold.NormalPartialPaths` | cache/cache.go:1572-1601 | the partial paths of a key are the keys of the partial paths |

## Left out

- Open and Close as several steps: a close that overlaps a reopen or a rename of the same ino is not modelled.
- `StaleKeys` takes each rename as one step on its current path; a rename that read its own path too early, and one over a target that is open, are not modelled.
- Rename in the write-back protocol moves one object; whole subtrees are in `NodeIndex`, and a rename over a target that is still open is not modelled.
- Client transactions that fail, and local writes that fail half way.
- Several workers, edits of the storage from outside, and hash collisions.
- `Daemon` runs the worker without interruption, so its re-check for an ino that came back into a queue, and the path lock, appear only in the protocol.
- Deleted nodes in `uploadOne`: a record read from the index is never marked deleted, so that exit is not modelled.
- NodeIndex.Index.Rename: folding keeps the length of a path, because with another length the code cuts paths at the wrong byte.
- CaseFold.NormalizeCase: works on runes; the decoding of UTF-8 and its replacement of invalid bytes are not modelled.
- InoPath.ParseFilePath: the cache directory is taken to be a clean path, so that joining adds one separator.
- Records that do not decode, and the error codes of the database.
- `ListCache`, `CloseCache`, `Statfs`, `Sync`, `Chtime` and the progress callbacks: no hard property.
- Fetching with listing markers and page limits from the storage (`readdirNode` on a directory that is not cached) beyond its effect on the queues and the catalogue.
- FUSE glue, command line, registry, authentication and HTTP: other packages.
