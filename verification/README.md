# Verified models of Linux system-programming examples

The example programs of "The Linux Programming Interface" contain a handful of real
algorithms and protocols among many thin demonstrations. This project models those
and proves what they promise, with the kernel as an environment that takes its own
steps or answers arbitrarily. `dafny verify dfyconfig.toml` checks everything.

| files | component |
|---|---|
| `WatchCache.dfy`, `DirTree.dfy`, `DtreeSync.dfy`, `DtreeSettles.dfy`, `Monitor.dfy`, `EventEffects.dfy`, `EventLoop.dfy`, `LoopDetermined.dfy`, `TreeEvents.dfy` | the inotify directory-tree cache |
| `Bpf.dfy`, `SeccompFilters.dfy`, `TargetMemory.dfy` | seccomp filters as BPF programs, and the supervisor's check-read-check protocol |
| `NamespaceForest.dfy`, `NamespaceScan.dfy`, `PidNamespaces.dfy`, `AncestorWalk.dfy` | namespace hierarchies |
| `MessageQueue.dfy`, `MqThread.dfy`, `MqSignal.dfy`, `Sigchld.dfy`, `Counting.dfy` | notification and reaping protocols |
| `Environ.dfy`, `ExecSearch.dfy`, `Optional.dfy` | environment editing and PATH search |
| `AclUpdate.dfy` | ACL update |

The main results are these.

- **Directory cache.** `DtreeSync.CacheConverges` and `DtreeSettles.EveryScheduleSettles`:
  whatever directories are created between any two steps, the program never needs to
  rebuild, comes to rest when creation stops, and then caches exactly the tree.
  `DirTree.RewriteFollowsRename`: rewriting strings by prefix agrees with moving one
  directory in a tree of parent links, and `DirTree.ZapFollowsMoveOut` does the same for
  a directory that leaves the tree. `EventLoop.FateOfFirstHalf`: a rename is one rename
  unless a block ends inside it and its own retry read times out, or a rebuild throws it
  away. `EventLoop.ReadsRefineWhole`: if no pair is separated in this way and the stream
  read in one piece needs no rebuild, then with the same kernel answers every split into
  reads ends with the same cache. `TreeEvents.EveryRunFollowsTree` puts these together: a
  stream that tells of directories being created, renamed, moved out, moved in and removed
  leaves a cache that is faithful to the final trees. The `EventEffects` lemmas say event by
  event, from the event's own fields, what becomes of the map and of the roots.
  `LoopDetermined.RunDetermined`: the loop's contract admits one run only.
  `WatchCache.SlotsRefineTable`: the slot array is a map.
- **Seccomp.** `SeccompFilters.PrologueGuards` holds for every suffix, and each filter
  equals a decision function on every input. `TargetMemory.SuccessMeansBlockedOwner`
  and `TargetMemory.ResultExact`, which says exactly when each result is returned, hold
  under every interleaving.
- **Namespaces.** `NamespaceScan.ScanOrderIrrelevant`, `NamespaceScan.ShownOnce`, the
  agreement of the two Go programs, and the descriptor accounting of the walk.
- **Protocols.** No wakeup is lost, no registration collides and no child stays
  unreaped, in every run; and the programs make progress.
- **Environment, PATH, ACL.** In-place editing equals filtering, the search tries the
  colon-separated prefixes, and an update is a fold over a map and idempotent.

Slot arrays, `environ` and argument vectors are arrays that methods change in place;
each method is proved against a function on sequences, and the lemmas are about those
functions. Interleaved programs are step relations over values, and theorems about
them quantify over all finite runs.

Points where the code and its documentation, or a standard, differ:

- `setenv()` removes the variable before it allocates, so a failed call loses it, while
  POSIX.1 asks for an unchanged environment. `Environ.FailureUnchangedIff` gives the
  exact condition.
- `rootNS` of `namespaces_of.go` starts as the key of the invisible-owner entry. On a
  kernel built without user namespaces, where there is no `user` link to read, it keeps
  that value and everything is displayed twice (`NamespaceScan.ShownTwice`); every other
  scan shows each entry once (`NamespaceScan.ShownOnce`, `NamespaceScan.ScanDisplay`).
- After a retry read that times out, `processInotifyEvents()` adds -1 to the byte count.
  One event is in the buffer then, so it is still handled, and the model, which counts
  events, is not affected.

Assumptions about the environment: an inotify event carries one event bit and possibly
IN_ISDIR, and only the overflow event has descriptor -1; watch descriptors are not
reused; root directories are different strings for disjoint trees; `nftw()` first reads a
directory's entries after it has reported the directory, and the entries present at that
first read are all returned; outside PID mode the owner of a namespace is a user
namespace; a notification ID is issued once; each rename has a cookie that the next event
about another rename does not share;
message-queue notification is one-shot on arrival at an empty queue (POSIX.1,
mq_notify()); SIGUSR1 and SIGCHLD come only from the queue and from terminations.

## Model

| member | source | states |
|---|---|---|
| `WatchCache.FindWatch` | 操作系统/Linux-UNIX系统编程手册/src/inotify/inotify_dtree.c:230-238 | the slot found is the first with the descriptor, and -1 means no slot has it; looking up -1 is the search for a free slot |
| `WatchCache.TraverseRefines` | 操作系统/Linux-UNIX系统编程手册/src/inotify/inotify_dtree.c:497-548 | adding a directory, whether or not the array must grow by 200, is an update of the descriptor-to-path map that never overwrites, and live descriptors stay distinct |
| `WatchCache.ClearRepresents` | 操作系统/Linux-UNIX系统编程手册/src/inotify/inotify_dtree.c:270-279 | clearing a slot removes exactly that descriptor from the map |
| `WatchCache.RewriteRepresents` | 操作系统/Linux-UNIX系统编程手册/src/inotify/inotify_dtree.c:593-621 | rewriting maps every cached path through the prefix change; blank slots, which the scan does not skip, are untouched |
| `WatchCache.ZapRepresents` | 操作系统/Linux-UNIX系统编程手册/src/inotify/inotify_dtree.c:627-674 | zapping keeps exactly the entries that are not at or below the path |
| `WatchCache.CountIsRemoved` | 操作系统/Linux-UNIX系统编程手册/src/inotify/inotify_dtree.c:641-673 | the count returned is the number of descriptors removed |
| `WatchCache.SlotsRefineTable` | 操作系统/Linux-UNIX系统编程手册/src/inotify/inotify_dtree.c:230-318 | over every sequence of add, grow, clear, rename, zap and rebuild operations, a zap whose watch removal fails included, the slot array refines the map |
| `DirTree.TextualPrefixIsAncestry` | 操作系统/Linux-UNIX系统编程手册/src/inotify/inotify_dtree.c:605-608 | the strncmp-and-slash test on two pathnames holds if and only if one directory is the other or an ancestor of it |
| `DirTree.RenameMovesText` | 操作系统/Linux-UNIX系统编程手册/src/inotify/inotify_dtree.c:593-621 | changing one directory's parent and name changes the pathname of every directory exactly as the textual rewrite does |
| `DirTree.RenameKeepsWellFormed` | 操作系统/Linux-UNIX系统编程手册/src/inotify/inotify_dtree.c:899-927 | a rename to a free name outside the moved subtree keeps the tree a tree |
| `DirTree.RewriteFollowsRename` | 操作系统/Linux-UNIX系统编程手册/src/inotify/inotify_dtree.c:899-927 | if every live slot holds its directory's true pathname before an intra-tree rename, then after rewriteCachedPaths() every live slot holds the true pathname in the renamed tree |
| `DirTree.RewriteTouchesSubtreeOnly` | 操作系统/Linux-UNIX系统编程手册/src/inotify/inotify_dtree.c:605-608 | a path changes if and only if its directory is the renamed one or below it, so a sibling that shares leading characters is unchanged |
| `DirTree.ZapFollowsMoveOut` | 操作系统/Linux-UNIX系统编程手册/src/inotify/inotify_dtree.c:627-674 | zapping the path of a directory that was moved out clears exactly the slots of its subtree, and every slot left is true of the pruned tree, which is again a tree |
| `DirTree.GraftedPathFree` | 操作系统/Linux-UNIX系统编程手册/src/inotify/inotify_dtree.c:765-804 | no slot that is true of the tree holds the pathname of a directory that is only now created or moved in, so the path test cannot skip its walk |
| `DtreeSync.StepKeepsInv` | 操作系统/Linux-UNIX系统编程手册/src/inotify/inotify_dtree.c:777-804 | every mkdir, visit, first read of a directory, return of a single entry, close and event step keeps: slots equal the kernel's watches, every queued event names a cached directory, and every directory in a watched one is cached, about to be visited or read, or announced |
| `DtreeSync.CacheConverges` | 操作系统/Linux-UNIX系统编程手册/src/inotify/inotify_dtree.c:765-804 | in every interleaving, also with creations and descents between two entries of one directory, the missing-watch rebuild is never taken, and with an empty queue and no walk running the live paths are exactly the directories, each in one slot |
| `DtreeSettles.ProgramStepShrinks` | 操作系统/Linux-UNIX系统编程手册/src/inotify/inotify_dtree.c:497-573 | every step of the program, of the walk or of event handling, uses up a budget made of the queue length, the size of the tree and the remaining walk |
| `DtreeSettles.NeverStuck` | 操作系统/Linux-UNIX系统编程手册/src/inotify/inotify_dtree.c:497-573 | before the program is quiet one of its steps is possible |
| `DtreeSettles.EveryScheduleSettles` | 操作系统/Linux-UNIX系统编程手册/src/inotify/inotify_dtree.c:765-804 | for every run from any reachable point in which no directory is created: its length is at most the budget it uses up, nothing is rebuilt, and if no step of the program is left the queue is empty, no walk is running and the cache is exact |
| `Monitor.ProcessKeepsValid` | 操作系统/Linux-UNIX系统编程手册/src/inotify/inotify_dtree.c:731-1023 | whatever the event, the buffer and the kernel's answers, live descriptors stay distinct and free slots blank |
| `Monitor.RenamePairFollowsTree` | 操作系统/Linux-UNIX系统编程手册/src/inotify/inotify_dtree.c:895-927 | a rename pair whose parents are cached consumes two events and keeps the cache true of the renamed tree |
| `Monitor.MoveOutFollowsTree` | 操作系统/Linux-UNIX系统编程手册/src/inotify/inotify_dtree.c:929-956 | an unpaired first half whose watches can be removed consumes one event, clears exactly the moved subtree and keeps the cache true of the pruned tree |
| `Monitor.CreateAgreesWithSync` | 操作系统/Linux-UNIX系统编程手册/src/inotify/inotify_dtree.c:765-804 | the creation step of the concurrent model looks up, rebuilds and walks as the dispatch does |
| `Monitor.RebuiltExact` | 操作系统/Linux-UNIX系统编程手册/src/inotify/inotify_dtree.c:709-711 | for all roots and all answers: a descriptor is in the rebuilt map if and only if the walk of some root that is not NULL reports it, and its path is that of its first report |
| `Monitor.VerdictShape` | 操作系统/Linux-UNIX系统编程手册/src/inotify/inotify_dtree.c:895-956 | how many events a call consumes: a pair two, anything else one, and a retry is asked for only when a first half is the last event on the first try |
| `EventEffects.OnLostTrack` | 操作系统/Linux-UNIX系统编程手册/src/inotify/inotify_dtree.c:747-761 | a queue overflow, or an event on a descriptor that is not cached: the buffer is thrown away, the roots stay, and the map is that of a new walk of every root |
| `EventEffects.OnNewDirectory` | 操作系统/Linux-UNIX系统编程手册/src/inotify/inotify_dtree.c:765-804 | a directory created or moved in: nothing happens if its path is cached; otherwise what the walk reports is added, and no entry is overwritten |
| `EventEffects.OnDelete` | 操作系统/Linux-UNIX系统编程手册/src/inotify/inotify_dtree.c:806-818 | exactly that descriptor is forgotten; a root of that path is no longer monitored, and the program ends exactly when no root is left |
| `EventEffects.OnRename` | 操作系统/Linux-UNIX系统编程手册/src/inotify/inotify_dtree.c:899-927 | a first half and a second half with its cookie, of a directory or not: every path at or below the old one gets the new prefix and all others stay; with an uncached new parent the cache is rebuilt |
| `EventEffects.OnMoveOut` | 操作系统/Linux-UNIX系统编程手册/src/inotify/inotify_dtree.c:929-950 | a first half followed by anything but a second half with its cookie, another rename's second half included, or by nothing on the second try: every entry at or below the path is forgotten, or, if one cannot be removed, the map is that of a new walk and the roots stay |
| `EventEffects.OnHangingHalf` | 操作系统/Linux-UNIX系统编程手册/src/inotify/inotify_dtree.c:951-954 | a first half at the end of the buffer changes nothing on the first try and is asked for again |
| `EventEffects.OnUnmount` | 操作系统/Linux-UNIX系统编程手册/src/inotify/inotify_dtree.c:976-987 | exactly that descriptor is forgotten and the roots stay |
| `EventEffects.OnRootMoved` | 操作系统/Linux-UNIX系统编程手册/src/inotify/inotify_dtree.c:989-1013 | a root that was renamed is no longer monitored; the program ends exactly when no root is left, and otherwise its subtree is forgotten or the remaining roots are walked anew |
| `EventEffects.OnOther` | 操作系统/Linux-UNIX系统编程手册/src/inotify/inotify_dtree.c:731-1023 | IN_IGNORED, events on files and the move of a directory that is not a root are consumed and change nothing |
| `Monitor.Watcher.FindSlot` | 操作系统/Linux-UNIX系统编程手册/src/inotify/inotify_dtree.c:230-238 | the loop returns what the specification of findWatch() says |
| `Monitor.Watcher.PathnameInCache` | 操作系统/Linux-UNIX系统编程手册/src/inotify/inotify_dtree.c:323-339 | true exactly when some live slot holds the path |
| `Monitor.Watcher.FindEmptyCacheSlot` | 操作系统/Linux-UNIX系统编程手册/src/inotify/inotify_dtree.c:283-305 | the first free slot; if there is none, 200 blank slots more with every old slot kept, and then the first of them |
| `Monitor.Watcher.TraverseTree` | 操作系统/Linux-UNIX系统编程手册/src/inotify/inotify_dtree.c:497-548 | the slots become those of the specification; a descriptor already cached changes nothing |
| `Monitor.Watcher.WatchSubtree` | 操作系统/Linux-UNIX系统编程手册/src/inotify/inotify_dtree.c:555-585 | the slots after all directories that nftw() reports |
| `Monitor.Watcher.RewriteCachedPaths` | 操作系统/Linux-UNIX系统编程手册/src/inotify/inotify_dtree.c:593-621 | in place, every slot at or below the old path gets the new prefix and no other slot changes |
| `Monitor.Watcher.ZapSubtree` | 操作系统/Linux-UNIX系统编程手册/src/inotify/inotify_dtree.c:627-674 | clears exactly the live slots at or below the path the argument had on entry, even if that string lies in the cache, and returns their number; -1 exactly at the first removal that fails |
| `Monitor.Watcher.Reinitialize` | 操作系统/Linux-UNIX系统编程手册/src/inotify/inotify_dtree.c:684-722 | the map of the new cache holds exactly the descriptors that the walks of the roots that are left report, every such root walked, each descriptor with the path of its first report |
| `Monitor.Watcher.FindRootDirPath` | 操作系统/Linux-UNIX系统编程手册/src/inotify/inotify_dtree.c:443-454 | index of the first root with the path, or -1 if none has it |
| `Monitor.Watcher.ZapRootDirPath` | 操作系统/Linux-UNIX系统编程手册/src/inotify/inotify_dtree.c:464-481 | the root's entry becomes NULL and the others stay; the counter remains the number of NULL entries, so comparing it with the number of roots tells exactly whether no root is left |
| `Monitor.Watcher.ProcessNext` | 操作系统/Linux-UNIX系统编程手册/src/inotify/inotify_dtree.c:731-1023 | branch by branch, new state and verdict are those of the specification about which the lemmas speak |
| `EventLoop.ProcessInotifyEvents` | 操作系统/Linux-UNIX系统编程手册/src/inotify/inotify_dtree.c:1036-1143 | one block: the loop ends; reads follow one another, with a retry read made exactly when a call asks for it; every logged action fits the buffer those reads left and is what the call answered, discards taking the rest of the buffer and only where a call rebuilt; the cache is the replay of the log |
| `EventLoop.Run` | 操作系统/Linux-UNIX系统编程手册/src/inotify/inotify_dtree.c:1397-1414 | over a whole finite stream, however it is split into reads: the cache is the replay of the log, the log explains every call, the run ends at the end of the stream or when the last root is gone, and live descriptors stay distinct |
| `EventLoop.EachEventOnce` | 操作系统/Linux-UNIX系统编程手册/src/inotify/inotify_dtree.c:1072-1142 | the log accounts for every event before the current position once and in order |
| `EventLoop.FateOfFirstHalf` | 操作系统/Linux-UNIX系统编程手册/src/inotify/inotify_dtree.c:1072-1142 | each first half of a directory rename, unless a rebuild threw it away, is cut exactly if a block ended behind it and the kernel had nothing for the retry read, and otherwise is one rename exactly if the second half follows it in the stream |
| `EventLoop.CutIffTimedOut` | 操作系统/Linux-UNIX系统编程手册/src/inotify/inotify_dtree.c:1072-1142 | an event that was not thrown away is treated as a move out for lack of a second half if and only if its retry read timed out |
| `EventLoop.DeferredOnce` | 操作系统/Linux-UNIX系统编程手册/src/inotify/inotify_dtree.c:1081-1094 | no event is deferred twice |
| `EventLoop.RetryBringsSecondHalf` | 操作系统/Linux-UNIX系统编程手册/src/inotify/inotify_dtree.c:1103-1117 | if the kernel has an event ready at every retry read made for a pair, no pair is separated |
| `EventLoop.ReplayValid` | 操作系统/Linux-UNIX系统编程手册/src/inotify/inotify_dtree.c:1072-1142 | the slot invariant holds after every run, whatever the kernel answers |
| `EventLoop.PairingOfLog` | 操作系统/Linux-UNIX系统编程手册/src/inotify/inotify_dtree.c:1072-1142 | a log that makes the calls of the reference reading divides the stream as adjacent rename halves and single events do |
| `EventLoop.ReadsRefineWhole` | 操作系统/Linux-UNIX系统编程手册/src/inotify/inotify_dtree.c:1072-1142 | if the stream read in one piece needs no rebuild, every run in which no pair was separated by a timeout rebuilds nothing, makes the same calls, ends for the same reason and in the same state |
| `EventLoop.SplitDoesNotMatter` | 操作系统/Linux-UNIX系统编程手册/src/inotify/inotify_dtree.c:1072-1142 | two splits with the same kernel answers and no separated pair: if one run needs no rebuild neither does the other, and both end with the same cache and roots |
| `LoopDetermined.RunDetermined` | 操作系统/Linux-UNIX系统编程手册/src/inotify/inotify_dtree.c:1036-1143 | the stream, the sizes of the reads and the kernel's answers determine the run: two finished runs that meet the contract of the loop have the same reads, the same log and so the same cache |
| `TreeEvents.ChangeFollowed` | 操作系统/Linux-UNIX系统编程手册/src/inotify/inotify_dtree.c:765-1023 | handling the events that announce one change (a rename, a move out, a creation or move in with everything below, a removal) consumes exactly them, leaves the roots, and keeps the cache faithful: true pathnames, and a slot for every watched directory of the trees |
| `TreeEvents.EveryRunFollowsTree` | 操作系统/Linux-UNIX系统编程手册/src/inotify/inotify_dtree.c:731-1143 | for every stream that tells of any sequence of such changes, with events on files in between, and every split into reads that separates no pair: nothing is discarded, the whole stream is handled, the roots stay and the cache is faithful to the final trees; a move out directly followed by a move in with another cookie is not taken for a rename |
| `Bpf.Relocate` | 操作系统/Linux-UNIX系统编程手册/src/seccomp/seccomp_unotify_mkdir.c:121-128 | forward relative jumps: code behind any prefix runs as it would alone |
| `Bpf.CheckedReturns` | 操作系统/Linux-UNIX系统编程手册/src/seccomp/seccomp_bench.c:101-120 | a program that passes the kernel's checks always returns, with one of its own return values |
| `SeccompFilters.PrologueGuards` | 操作系统/Linux-UNIX系统编程手册/src/seccomp/seccomp_unotify_mkdir.c:121-128 | for every suffix: kill when the architecture differs or the number is at least 0x40000000, otherwise the suffix alone with the number in the accumulator |
| `SeccompFilters.LseekFilterDecides` | 操作系统/Linux-UNIX系统编程手册/src/seccomp/seccomp_arg64.c:58-108 | lseek() is allowed exactly for unsigned 64-bit offsets up to 1000, error 2 from 2^32 on, error 1 between; other calls are allowed |
| `SeccompFilters.NotifyFilterDecides` | 操作系统/Linux-UNIX系统编程手册/src/seccomp/seccomp_unotify_mkdir.c:137-151 | mkdir() notifies, other calls are allowed, foreign ones killed |
| `SeccompFilters.BuildSecondFilter` | 操作系统/Linux-UNIX系统编程手册/src/seccomp/seccomp_unotify_mkdir.c:181-220 | the table with its last slot patched according to the option |
| `SeccompFilters.SecondFilterDecides` | 操作系统/Linux-UNIX系统编程手册/src/seccomp/seccomp_unotify_mkdir.c:184-199 | mkdir() gets the patched return value, other calls are allowed, foreign ones killed |
| `SeccompFilters.ErrnoBeatsNotifyBeatsTrace` | 操作系统/Linux-UNIX系统编程手册/src/seccomp/seccomp_unotify_mkdir.c:206-220 | with both filters installed an error return hides the notification and a trace return does not |
| `SeccompFilters.OpenFilterDecides` | 操作系统/Linux-UNIX系统编程手册/src/seccomp/seccomp_control_open.c:47-122 | on each machine the flags argument that is tested is the second of open() and the third of openat(): kill on O_CREAT, ENOTSUP on a writing mode, otherwise allow; unknown machines kill |
| `SeccompFilters.MultiarchDecides` | 操作系统/Linux-UNIX系统编程手册/src/seccomp/seccomp_multiarch.c:165-239 | each of the three ABIs gets its own error for its own mq_notify() number; other architectures are killed |
| `SeccompFilters.CreateFilter` | 操作系统/Linux-UNIX系统编程手册/src/seccomp/seccomp_bench.c:67-125 | for every letter and count: an exit exactly for an unknown letter or a count below -1, a write before the array exactly for -1, and otherwise the chosen instruction icnt times and a return |
| `SeccompFilters.BenchAllows` | 操作系统/Linux-UNIX系统编程手册/src/seccomp/seccomp_bench.c:101-120 | the filter of every length allows every call; cut to its 16-bit length field, the kernel accepts it if and only if fewer than 4096 instructions precede the return |
| `TargetMemory.StepKeepsInv` | 操作系统/Linux-UNIX系统编程手册/src/seccomp/seccomp_functions.c:65-118 | while the notification ID is valid the memory descriptor is the owner's; the ID never becomes valid again; an ID is reported invalid only when it is |
| `TargetMemory.ValidNowValidBefore` | 操作系统/Linux-UNIX系统编程手册/src/seccomp/seccomp_functions.c:40-54 | an ID valid at some moment was valid at every earlier moment of the run |
| `TargetMemory.SuccessMeansBlockedOwner` | 操作系统/Linux-UNIX系统编程手册/src/seccomp/seccomp_functions.c:65-118 | result 0 implies a terminator in the bytes and, at every moment of the read, the owner's descriptor and the owner still blocked, under every interleaving with interruption, death and PID reuse |
| `TargetMemory.BytesAreOwners` | 操作系统/Linux-UNIX系统编程手册/src/seccomp/seccomp_functions.c:87-118 | every returned byte was a byte of the owner's memory at the argument address while the owner was blocked |
| `TargetMemory.ResultExact` | 操作系统/Linux-UNIX系统编程手册/src/seccomp/seccomp_functions.c:65-118 | for every run: 0 exactly if both checks found the ID valid and the bytes read contain a terminator, GTP_BAD_PATH exactly if both did and the bytes contain none, GTP_ID_NOT_VALID exactly if a check failed, GTP_BAD_READ exactly if the open failed or no byte was read |
| `TargetMemory.BlockedTargetSucceeds` | 操作系统/Linux-UNIX系统编程手册/src/seccomp/seccomp_functions.c:87-118 | if the target is still blocked at the end, the bytes alone decide: success exactly for a terminated pathname |
| `TargetMemory.UndisturbedSucceeds` | 操作系统/Linux-UNIX系统编程手册/src/seccomp/seccomp_functions.c:65-118 | a target that is left alone: from the start the function reaches its result for whatever part of the memory is read |
| `TargetMemory.NeverStuck` | 操作系统/Linux-UNIX系统编程手册/src/seccomp/seccomp_functions.c:65-118 | until it has returned the function can take a step |
| `TargetMemory.EndsAfterFewSteps` | 操作系统/Linux-UNIX系统编程手册/src/seccomp/seccomp_functions.c:65-118 | in every run, however interleaved, it takes at most as many steps as the buffer has bytes and four more |
| `NamespaceForest.AncestryRecorded` | 操作系统/Linux-UNIX系统编程手册/src/namespaces/namespaces_of.go:585-592 | a recorded namespace's whole chain of parents or owners is recorded |
| `NamespaceForest.AddLinks` | 操作系统/Linux-UNIX系统编程手册/src/namespaces/namespaces_of.go:603-729 | adding a namespace keeps the map closed and the child lists exact, also while entries further down are not filed yet, and records exactly the chain |
| `NamespaceScan.AddMembers` | 操作系统/Linux-UNIX系统编程手册/src/namespaces/namespaces_of.go:615-621 | only the namespace that is added gains the process |
| `NamespaceScan.AddAppendsChildren` | 操作系统/Linux-UNIX系统编程手册/src/namespaces/namespaces_of.go:603-729 | insertion only appends to child lists: children stay in the order in which they were recorded |
| `NamespaceScan.ScanResult` | 操作系统/Linux-UNIX系统编程手册/src/namespaces/namespaces_of.go:437-456 | after any scan: the map is closed and linked, types are right, and the keys are the chains of the scanned namespaces and nothing else |
| `NamespaceScan.ScanMembers` | 操作系统/Linux-UNIX系统编程手册/src/namespaces/namespaces_of.go:615-621 | each namespace lists each process as often as it was scanned there |
| `NamespaceScan.OneChildList` | 操作系统/Linux-UNIX系统编程手册/src/namespaces/namespaces_of.go:679-728 | every entry but the root and the invisible owner lies in exactly one child list, once |
| `NamespaceScan.ScanOrderIrrelevant` | 操作系统/Linux-UNIX系统编程手册/src/namespaces/namespaces_of.go:437-456 | any permutation of a scan gives the same entries, root, child sets and member multisets |
| `NamespaceScan.DisplayCount` | 操作系统/Linux-UNIX系统编程手册/src/namespaces/namespaces_of.go:1193-1210 | displaying from an entry visits exactly its descendants, each once |
| `NamespaceScan.DisplayVisits` | 操作系统/Linux-UNIX系统编程手册/src/namespaces/namespaces_of.go:1143-1155 | the two trees displayed cover the forest, once if rootNS is a topmost namespace and twice if it still has its initial value |
| `NamespaceScan.DisplaySiblings` | 操作系统/Linux-UNIX系统编程手册/src/namespaces/namespaces_of.go:1193-1210 | an entry is shown first, and then the subtrees of its children one after another in the order of its child list |
| `NamespaceScan.DisplaySubtree` | 操作系统/Linux-UNIX系统编程手册/src/namespaces/namespaces_of.go:1193-1210 | the display of every descendant is one block that begins with it, behind its ancestor |
| `NamespaceScan.RootFound` | 操作系统/Linux-UNIX系统编程手册/src/namespaces/namespaces_of.go:679-690 | after any nonempty scan rootNS is the key of a recorded entry, and it still has its initial value exactly when every scanned namespace is a nonuser one without a visible owner |
| `NamespaceScan.ScanDisplay` | 操作系统/Linux-UNIX系统编程手册/src/namespaces/namespaces_of.go:1143-1155 | after any nonempty scan every recorded entry is displayed exactly once, or exactly twice when every scanned namespace is a nonuser one without a visible owner |
| `NamespaceScan.ShownOnce` | 操作系统/Linux-UNIX系统编程手册/src/namespaces/namespaces_of.go:1143-1155 | a scan that reads some user namespace, and any nonempty scan in PID mode, displays every recorded entry exactly once |
| `NamespaceScan.ShownTwice` | 操作系统/Linux-UNIX系统编程手册/src/namespaces/namespaces_of.go:1143-1155 | on a kernel built without user namespaces every scan is displayed twice, because rootNS starts as the key of the invisible owner |
| `NamespaceScan.ShownTwiceExample` | 操作系统/Linux-UNIX系统编程手册/src/namespaces/namespaces_of.go:1143-1155 | one such scan: a process in one network namespace |
| `NamespaceScan.NamespaceInfo.AddNamespace` | 操作系统/Linux-UNIX系统编程手册/src/namespaces/namespaces_of.go:603-622 | the recursive method computes the specification, and recursion ends because depth falls |
| `NamespaceScan.NamespaceInfo.AddNamespaceToList` | 操作系统/Linux-UNIX系统编程手册/src/namespaces/namespaces_of.go:642-729 | entry first, then parent, then the child link, with the root and invisible-owner cases |
| `NamespaceScan.NamespaceInfo.AddNamespacesForAllProcesses` | 操作系统/Linux-UNIX系统编程手册/src/namespaces/namespaces_of.go:437-456 | the loop folds the scan |
| `PidNamespaces.Program.AddNamespace` | 操作系统/Linux-UNIX系统编程手册/src/namespaces/pid_namespaces.go:95-152 | the single recursive function keeps in step with the larger program in PID mode |
| `PidNamespaces.Program.ScanProcesses` | 操作系统/Linux-UNIX系统编程手册/src/namespaces/pid_namespaces.go:246-262 | for every scan the small program ends with the entries, child lists, members and root of the large one, in the same order |
| `PidNamespaces.PidModeHasNoInvisibleOwner` | 操作系统/Linux-UNIX系统编程手册/src/namespaces/namespaces_of.go:679-690 | in PID mode nothing is filed under the invisible owner |
| `AncestorWalk.ChildUnique` | 操作系统/Linux-UNIX系统编程手册/src/namespaces/ns_capable.c:166-176 | at most one namespace on a chain has a given parent |
| `AncestorWalk.AncestorHasChild` | 操作系统/Linux-UNIX系统编程手册/src/namespaces/ns_capable.c:166-176 | the source is a proper ancestor if and only if such a namespace exists |
| `AncestorWalk.Descriptors.IsAncestorUserns` | 操作系统/Linux-UNIX系统编程手册/src/namespaces/ns_capable.c:178-232 | -1 exactly when the source is not a proper ancestor, otherwise a descriptor of the namespace below the source on the target's chain; everything else opened is closed and the target's descriptor is not |
| `AncestorWalk.Descriptors.Decide` | 操作系统/Linux-UNIX系统编程手册/src/namespaces/ns_capable.c:302-372 | the verdict, and that every descriptor is closed exactly once |
| `MqThread.StepKeepsInv` | 操作系统/Linux-UNIX系统编程手册/src/pmsg/mq_notify_via_thread.c:57-81 | exactly one of: a registration stands, one thread is yet to register; while messages are queued some thread has a drain to finish |
| `MqThread.NoMessageLost` | 操作系统/Linux-UNIX系统编程手册/src/pmsg/mq_notify_via_thread.c:29-98 | for every run with any number of threads and senders: re-registration never collides, no registration stands exactly when one thread is yet to register, a nonempty queue has a thread with a drain to finish, and waiting plus received messages are those that arrived, each once |
| `MqThread.QueueIsServed` | 操作系统/Linux-UNIX系统编程手册/src/pmsg/mq_notify_via_thread.c:29-55 | a nonempty queue never leaves all threads without a step |
| `MqThread.DrainsWhenSendingStops` | 操作系统/Linux-UNIX系统编程手册/src/pmsg/mq_notify_via_thread.c:29-66 | once sending stops every schedule uses up a fixed amount of work, and when no thread can move the queue is empty |
| `MessageQueue.ReceiveConserves` | 操作系统/Linux-UNIX系统编程手册/src/pmsg/mq_notify_via_thread.c:43-49 | taking out any waiting message keeps the waiting and received ones together equal to those that arrived, each once |
| `MqSignal.StepKeepsInv` | 操作系统/Linux-UNIX系统编程手册/src/pmsg/mq_notify_via_signal.c:77-104 | every step of sender, signal and loop keeps one token among registration, pending signal, flag and the step before registering; waiting messages imply a wakeup on its way or a drain; messages are conserved |
| `MqSignal.NoWakeupLost` | 操作系统/Linux-UNIX系统编程手册/src/pmsg/mq_notify_via_signal.c:29-104 | in every run, with messages queued before start-up too: never registered while still registered, and at the sleep a nonempty queue implies the flag or the pending signal |
| `MqSignal.EveryScheduleDrains` | 操作系统/Linux-UNIX系统编程手册/src/pmsg/mq_notify_via_signal.c:77-104 | once the signal is delivered, every schedule without sends comes one step nearer to an empty queue with each step, and a loop that then sleeps is registered again |
| `MqSignal.DrainsAfterDelivery` | 操作系统/Linux-UNIX系统编程手册/src/pmsg/mq_notify_via_signal.c:77-104 | with the signal still on its way: in every schedule without sends the queue is empty a fixed number of steps after the delivery |
| `MqSignal.SignalWaits` | 操作系统/Linux-UNIX系统编程手册/src/pmsg/mq_notify_via_signal.c:77-104 | a pending signal stays deliverable through any other steps |
| `Sigchld.StepKeepsInv` | 操作系统/Linux-UNIX系统编程手册/src/procexec/multi_SIGCHLD.c:28-57 | the counter is running plus unreaped children, an unreaped dead child has a pending signal or a handler at work, and each delivery is paid for by a death |
| `Sigchld.EveryChildReaped` | 操作系统/Linux-UNIX系统编程手册/src/procexec/multi_SIGCHLD.c:80-113 | for any number of children and any timing: at sigsuspend() an unreaped dead child implies a pending signal and otherwise a child still runs; handlers run at most once per child; at the end all are reaped |
| `Sigchld.EveryRunEnds` | 操作系统/Linux-UNIX系统编程手册/src/procexec/multi_SIGCHLD.c:106-113 | every run is at most as long as the finite budget it starts with, and reaps each child at most once |
| `Sigchld.StuckMeansAllReaped` | 操作系统/Linux-UNIX系统编程手册/src/procexec/multi_SIGCHLD.c:106-113 | a state in which no step is possible is the finished program with every child reaped |
| `Sigchld.NeverStuck` | 操作系统/Linux-UNIX系统编程手册/src/procexec/multi_SIGCHLD.c:106-113 | until the program has finished some step is possible: the parent never sleeps forever |
| `Environ.UnsetLookup` | 操作系统/Linux-UNIX系统编程手册/src/proc/setenv.c:23-51 | after removal the name is gone and every other name, prefixes included, reads as before |
| `Environ.LookupExact` | 操作系统/Linux-UNIX系统编程手册/src/proc/setenv.c:62 | a name reads as the text behind the first entry that begins with it and an equals sign, and is not set exactly if no entry does |
| `Environ.WithoutExact` | 操作系统/Linux-UNIX系统编程手册/src/proc/setenv.c:35-48 | removal drops every entry of the name and no other entry |
| `Environ.SetThenGet` | 操作系统/Linux-UNIX系统编程手册/src/proc/setenv.c:53-77 | after a setenv() with overwrite, or of a name that is not set, there is one entry of the name, it holds the value, other names read as before and other entries keep their order |
| `Environ.PresentIsKept` | 操作系统/Linux-UNIX系统编程手册/src/proc/setenv.c:56-63 | without overwrite a name that is set keeps everything as it was, with or without memory; bad arguments change nothing |
| `Environ.FailureUnchangedIff` | 操作系统/Linux-UNIX系统编程手册/src/proc/setenv.c:65-70 | every call that runs out of memory, with or without overwrite, leaves the environment unchanged if and only if the name was not set |
| `Environ.FailureLosesVariable` | 操作系统/Linux-UNIX系统编程手册/src/proc/setenv.c:65-70 | a set variable is lost when the allocation fails |
| `Environ.Environment.ShiftDown` | 操作系统/Linux-UNIX系统编程手册/src/proc/setenv.c:41-42 | the inner loop removes one entry and never passes the terminator |
| `Environ.Environment.Unsetenv` | 操作系统/Linux-UNIX系统编程手册/src/proc/setenv.c:23-51 | in place, the vector becomes the old one without the entries of the name, in order; a bad name changes nothing and gives EINVAL |
| `Environ.Environment.Getenv` | 操作系统/Linux-UNIX系统编程手册/src/proc/setenv.c:62-63 | the value of the first entry of the name |
| `Environ.Environment.Setenv` | 操作系统/Linux-UNIX系统编程手册/src/proc/setenv.c:53-77 | status and contents in every case: bad arguments, present without overwrite, no memory, success |
| `ExecSearch.SplitThenJoin` | 操作系统/Linux-UNIX系统编程手册/src/procexec/execlp.c:141-164 | joining the prefixes with colons gives PATH back |
| `ExecSearch.JoinThenSplit` | 操作系统/Linux-UNIX系统编程手册/src/procexec/execlp.c:141-164 | splitting a nonempty colon-free list that was joined gives the list back |
| `ExecSearch.SplitCharacterized` | 操作系统/Linux-UNIX系统编程手册/src/procexec/execlp.c:141-164 | a list is the prefixes of PATH if and only if it is nonempty, colon-free and joins to PATH |
| `ExecSearch.CandidatesExact` | 操作系统/Linux-UNIX系统编程手册/src/procexec/execlp.c:105-164 | the names to try for every list of prefixes that PATH is: prefix, slash and file in order, with "./" for an empty prefix and for a PATH that is unset or empty; a name with a slash is tried alone |
| `ExecSearch.Exec` | 操作系统/Linux-UNIX系统编程手册/src/procexec/execlp.c:105-195 | names tried are the candidates in order, all of them on total failure; a name with a slash is tried alone; PATH unset or empty counts as "."; on failure EACCES if any attempt gave it, otherwise the last error |
| `ExecSearch.SearchPath` | 操作系统/Linux-UNIX系统编程手册/src/procexec/execlp.c:136-178 | the loop over the prefixes tries each once, in order, and ends |
| `ExecSearch.BuildName` | 操作系统/Linux-UNIX系统编程手册/src/procexec/execlp.c:149-159 | prefix, slash and file, or "./" and file for an empty prefix; the name with its terminator fits the bytes allocated |
| `ExecSearch.BuildArgv` | 操作系统/Linux-UNIX系统编程手册/src/procexec/execlp.c:54-87 | the argument vector is the list up to its NULL, growing by 100, with no write out of bounds and a slot to spare |
| `AclUpdate.FindEntry` | 操作系统/Linux-UNIX系统编程手册/src/acl/acl_update.c:214-265 | the first entry with the tag, and for a named user or group with the qualifier too; -1 exactly if there is none |
| `AclUpdate.EditEntry` | 操作系统/Linux-UNIX系统编程手册/src/acl/acl_update.c:310-334 | one edit deletes, sets or creates exactly the entry of its key |
| `AclUpdate.EditExact` | 操作系统/Linux-UNIX系统编程手册/src/acl/acl_update.c:310-334 | one edit changes no entry with another tag, or with the tag of a named user or group and another qualifier; after a modification the entry named has the permissions, after a removal it is gone; entries stay distinct |
| `AclUpdate.MaskExact` | 操作系统/Linux-UNIX系统编程手册/src/acl/acl_update.c:338-340 | a recalculated mask has a permission exactly if a named user, the owning group or a named group has it |
| `AclUpdate.ValidExact` | 操作系统/Linux-UNIX系统编程手册/src/acl/acl_update.c:345-346 | the check after every edit: distinct entries, the three base entries, and a mask if a user or group is named |
| `AclUpdate.StepRefines` | 操作系统/Linux-UNIX系统编程手册/src/acl/acl_update.c:309-340 | one edit with its mask recalculation is one edit of the map keyed by tag and qualifier, and keys stay unique |
| `AclUpdate.UpdateRefines` | 操作系统/Linux-UNIX系统编程手册/src/acl/acl_update.c:296-353 | a completed update is the fold of the edits over the map, ends with a valid list, and even a refused one leaves unique keys |
| `AclUpdate.CompletesIff` | 操作系统/Linux-UNIX系统编程手册/src/acl/acl_update.c:309-349 | an update completes exactly if the list is valid after every edit; otherwise the file is left as before the first edit whose result is not |
| `AclUpdate.UntouchedEntries` | 操作系统/Linux-UNIX系统编程手册/src/acl/acl_update.c:309-349 | completed or refused, an update leaves every entry that no edit names, a recalculated mask aside |
| `AclUpdate.LastEditWins` | 操作系统/Linux-UNIX系统编程手册/src/acl/acl_update.c:309-349 | the last edit of a key decides it, a key no edit names is untouched, and a recalculated mask is what the final entries ask for |
| `AclUpdate.CompletedEntries` | 操作系统/Linux-UNIX系统编程手册/src/acl/acl_update.c:309-349 | the same entry by entry: the last edit with a tag and qualifier decides that entry, and a recalculated mask is the union over the final list |
| `AclUpdate.UpdateIdempotent` | 操作系统/Linux-UNIX系统编程手册/src/acl/acl_update.c:296-353 | a completed update run again completes and changes no entry |
| `AclUpdate.UpdateAcl` | 操作系统/Linux-UNIX系统编程手册/src/acl/acl_update.c:296-353 | the loop, with the file written after every edit: a refused edit leaves the file as the edit before it did |

## Left out

- Deletions and renames that race with the walk in the concurrent directory model: the kernel may delay IN_DELETE_SELF while a directory is open, and the program itself relies on a rebuild then.
- TreeEvents.EveryRunFollowsTree: the walk of a directory that appears finds it as it appeared, a removal takes effect with its event, and the halves of a rename are adjacent in the stream; creations during a walk are the subject of `DtreeSync`. A directory that leaves and comes back counts as a new one.
- Queue overflow as a source of lost events: only its handling, a rebuild, is modelled.
- PATH_MAX truncation in the cache: pathnames are unbounded.
- Byte offsets inside the event buffer: the loop works on whole events.
- checkCacheConsistency() and the interactive commands of `inotify_dtree.c`: diagnostics.
- The supervisor's reply in handleNotifications(): it is a function of the pathname bytes alone and takes no part in the validity protocol.
- Closing of the memory descriptor in getTargetPathname(): one close on each path, with no effect on the protocol.
- UID and GID maps, creator UIDs, thread scans, bind-mount and descriptor scans of `namespaces_of.go`: input and output around the same insertion.
- Type filter, indentation and sorting of the namespace display: the order of visits is modelled.
- SeccompFilters.CreateFilter: memory is assumed to suffice for a count that is not negative.
- EventLoop.Run: events still queued in the kernel when a rebuild closes the inotify descriptor are never read, so they are not part of the stream; keyboard commands between blocks are not modelled.
- SeccompFilters.OpenFilterDecides: the unknown-machine program is the variant whose headers do not define open().
- Signals sent by other processes to the message-queue programs: a stray SIGUSR1 would make the loop register twice.
- Failing fork(), sigaction() and mq calls: the programs exit.
- Environ.Environment.Setenv: putenv() is modelled as an append, which is what it does for a name that has just been removed; one flag stands for the success of malloc() and putenv().
- execShScript(): its array has room for argc + 1 pointers and the loop writes one more, so an attempt that ends in ENOEXEC is modelled only by whether the process was replaced.
- ExecSearch.BuildArgv: memory for the vector is assumed, and the copy of the environment is not modelled.
- parseEntrySpec() and parseACL(): text parsing; edits enter the model already parsed.
- acl_get_file() and acl_set_file() failures: the program exits.
