# Data structures and protocols of the nginx core

A Dafny model of the hard parts of nginx 1.9.2's `src/core` and of its timers, with proofs of what
those parts are for. `dafny verify dfyconfig.toml` checks all of it.

The model has the form of the code. Code that changes things step by step is a class or a method with
the same fields, branches and loops, proved against a function or relation of the old state; parsers
and formulas that compute are functions; the locks are step systems with one step per atomic access.
Results are lemmas about those functions, over every input or every run.

| part | modules |
|---|---|
| red-black tree: heap nodes, parent pointers, one sentinel | RbShape, RbRules, RbMemory, RbOrder, RedBlackTree |
| event timers on that tree | EventTimers |
| circular queues and their sort | Queue, QueueOrder |
| mutex and reader-writer lock between processes | Shmtx, ShmtxCalls, Rwlock, RwlockCalls |
| open file cache | OpenFileCache (what each C function does to the state), FileCacheInvariant, FileCacheSafety, FileCacheRuns, FileCacheAnswers, FileCacheHistory, FileCacheOps (the functions in place) |
| hash with wildcards | WildcardNames, WildcardHash, WildcardInit, WildcardTails; bytes of the buckets: HashLayout, HashTable |
| output chain | OutputBufs, OutputRoutes, OutputChain |
| radix tree | RadixShape, RadixTree |
| configuration tokenizer | ConfToken, ConfWords, ConfReader |
| IPv6 text | Inet6Text, Inet6Fields, Inet6RoundTrip, Inet6 |
| HTTP dates | HttpTime, HttpDate |
| pools and arrays | PoolSpace, Pool, PoolArray |

How to read the tree proofs: a method performs the stores of its C function on heap nodes; a snapshot of
the nodes' fields is a value, and lemmas about such values say which tree they hold, where a tree is
seen as a path and the subtree at its end. The root's parent pointer, which the code leaves stale
(nginx-1.9.2/src/core/ngx_rbtree.c:731-742), is exempt, and the sentinel's parent is scratch space.
The three insert functions (by key, by timer, by hash and name) are one descent with the comparison
as a parameter.

The queue's middle and sort are declared in ngx_queue.h, which the table cites; their bodies are in
nginx-1.9.2/src/core/ngx_queue.c, lines 88-116 and 143-173.

What stands for the outside world: the file system's answers, the filter's answers, the memory that the
system grants and the time are parameters, so every result holds for all of them. Where a caller owes
something, it is a precondition: keys of timers within half of the key range, names sorted and without
conflicts, non-null values, pool sizes a multiple of 16, prefixes as contiguous masks.

## Findings

Properties that one would expect and that the code does not have, each with an input and the exact
condition under which the code does have it.

| where | what the code does | input | when it is as expected |
|---|---|---|---|
| open file cache, nginx-1.9.2/src/core/ngx_open_file_cache.c:288-390 | the cache goes on with a closed descriptor, or loses an open one | at a retest stat() reports a directory with the cached file's number (FileCacheRuns.DirectoryWithSameNumber), or another file while the file then opened is the cached one again (FileCacheRuns.FileChangesBack); a run leads to that cache (FileCacheRuns.OneFileReached) | order is kept if and only if neither happens (FileCacheRuns.OpenValidIff) |
| hash tables, nginx-1.9.2/src/core/ngx_hash.c:393-500 | the 16-bit counter wraps and the bucket gets too little room | two names of 40000 bytes and a bucket size of 65000 (HashLayout.WrapDeceives) | room suffices if and only if the rounded size is below 65536 (HashLayout.RoomIffFits); buckets up to 32775 bytes are safe (HashLayout.RoomyFits) |
| dates, nginx-1.9.2/src/core/ngx_parse_time.c:222-265 | the division of a negative number truncates: 10368 seconds too many | January or February of the year 0 | exact if and only if the date is not in those months (HttpTime.GaussIsExact) |
| dates, nginx-1.9.2/src/core/ngx_parse_time.c:209-265 | a date is accepted and has the value of another one (HttpTime.TwinShares) | day 0, which has the value of the day before; and around March 1 of the year 0 | a valid date shares its value with a date on a day from 1 on if and only if its day is 0, save in January of the year 0, or it lies in that overlap (HttpTime.SharedIff) |
| IPv6 text, nginx-1.9.2/src/core/ngx_inet.c:121-133 | printed, but not parsed: the tail equals the error value | ::255.255.255.255 (Inet6RoundTrip.LostAddress) | an address comes back if and only if its text does not end in 255.255.255.255 (Inet6RoundTrip.RoundTrip, Inet6.Ntop) |
| address texts, nginx-1.9.2/src/core/ngx_inet.c:17-175 | accepted, though a number is missing | "..." and "::1:" (Inet6Fields.LooseTexts) | accepted if and only if the fields between dots or colons are as stated, where octets may be empty, and the last group behind a gap (Inet6Fields.InetMeans, Inet6Fields.Inet6Means) |
| arrays, nginx-1.9.2/src/core/ngx_array.c:54-90 | the doubled size is 0 and the slot lies outside | an array with nalloc 0 that is not last in its pool (PoolArray.PushIntoNothing) | inside if and only if nalloc > 0 or it grows in place (PoolArray.GrowArray.Push) |
| pools, nginx-1.9.2/src/core/ngx_palloc.c:155-160 | the rest is negative, and as size_t it passes for room | a block whose end is not aligned | never, if and only if the end is aligned (PoolSpace.RoundedEndIffInside) |
| radix tree, nginx-1.9.2/src/core/ngx_radix_tree.c:143-177 | leaves without value stay, and deleting one is answered "ok" | memory for one node and a prefix of two bits or more (RadixTree.DeletesWhatIsNotStored) | the tree stays pruned if and only if there is memory for all nodes that the prefix lacks, or for none (RadixTree.RadixTree.Insert), and then "ok" means stored (RadixTree.RadixTree.Delete) |
| configuration, nginx-1.9.2/src/core/ngx_conf_file.c:740-830 | the brace of a variable begins a block | "${" at the start of a word (ConfWords.DollarFirst) | the brace belongs to the word if and only if the dollar sign is not its first character (ConfWords.BraceIff) |
| reader-writer lock, nginx-1.9.2/src/core/ngx_rwlock.c:51-86 | the count reads as a write lock (Rwlock.OneReaderTooMany) | 2^64 - 1 readers | with fewer processes never (Rwlock.RunInv) |
| timers, nginx-1.9.2/src/core/ngx_rbtree.c:534-566 | the later one sorts first (RbOrder.TimerOrderBreaks) | two times half the key range apart | keys compare as times if and only if these are less than half the range apart (RbOrder.TimerOrderIff), and the tree's order is that of time if and only if all timers are (RbOrder.TimersAgreeIff) |

## Model

| member | source | states |
|---|---|---|
| RedBlackTree.RbTree.Insert | nginx-1.9.2/src/core/ngx_rbtree.c:161-230 | Inserting a node into a valid tree (black root, no red node below a red one, equal black heights, right parent pointers except the root's) gives a valid tree over the old nodes and the new one, in the old order with the new node at place k. By key: if the keys ascended they still do, and the node stands behind every key that is not larger than its own and before every larger one; by key and name the same with the names of equal keys in dictionary order. For any comparison that orders the labels a sorted tree stays sorted. The descent and the rebalancing take at most 2 log2(n + 1) turns. |
| RedBlackTree.RbTree.Delete | nginx-1.9.2/src/core/ngx_rbtree.c:702-866 | Deleting any node gives a valid tree whose contents are the old ones without exactly that node object, whatever keys it shares with others; the remaining nodes keep their labels, ascending keys (and names) still ascend, a sorted tree stays sorted, the node's own fields are cleared, and the fix-up ends after at most 2 log2(n + 1) turns. |
| RedBlackTree.RbTree.LeftRotate | nginx-1.9.2/src/core/ngx_rbtree.c:869-896 | The stores of a left rotation, cell by cell: exactly the pointers of the node, its right child, that child's left child and the holder change, and `root` follows if the node was the root. |
| RedBlackTree.RbTree.RightRotate | nginx-1.9.2/src/core/ngx_rbtree.c:899-926 | The same for a right rotation. |
| RbMemory.RotateLeftRep | nginx-1.9.2/src/core/ngx_rbtree.c:869-896 | In any memory that holds a tree at any place, those stores give a memory that holds the tree rotated at that place, with all parent pointers. |
| RedBlackTree.RbTree.InsertFix | nginx-1.9.2/src/core/ngx_rbtree.c:185-229 | Recolouring and rotating from a red node below a possibly red parent ends with a valid tree and the same order of nodes, after at most as many turns as the node is deep. |
| RedBlackTree.RbTree.DeleteFix | nginx-1.9.2/src/core/ngx_rbtree.c:803-863 | The fix-up of a subtree that is one black node short, which may be the sentinel itself, ends with a valid tree and the same order of nodes, after at most as many turns as the place is deep. |
| RedBlackTree.RbTree.ReplaceBySuccessor | nginx-1.9.2/src/core/ngx_rbtree.c:738-801 | The successor is relinked, not copied: it leaves its place to its only child and takes over place, children and colour of the deleted node, with the cases where it is that node's own child. |
| RedBlackTree.RbTree.FindPlace | nginx-1.9.2/src/core/ngx_rbtree.c:369-391 | The descent ends at an empty place below a node, between the labels that do not sort after the new one and those that do. |
| RedBlackTree.RbTree.First | nginx-1.9.2/src/core/ngx_rbtree.h:250-258 | The leftmost walk from the root returns the first node in order, and with ascending keys its key is the least of all. |
| RedBlackTree.RbTree.Lookup | nginx-1.9.2/src/core/ngx_open_file_cache.c:1273-1310 | On a tree with ascending keys and names the search returns a node with exactly that hash and name, and null only if no node has them. |
| RedBlackTree.RbTree.NodesOnce | nginx-1.9.2/src/core/ngx_rbtree.h:165-225 | In a valid tree every node is in the contents, once. |
| RbShape.RedBlackHeight | nginx-1.9.2/src/core/ngx_rbtree.c:185-229 | A red-black tree of n nodes has height at most 2 log2(n + 1). |
| RbOrder.SortedWith | nginx-1.9.2/src/core/ngx_rbtree.c:369-391 | Putting a label where the descent ended keeps a sorted sequence sorted, for any comparison that is a strict weak order on the labels. |
| RbOrder.SortedAscends | nginx-1.9.2/src/core/ngx_rbtree.c:369-391 | Sorted by the comparison of the insert function means: ascending keys, and with names behind them the names of equal keys in dictionary order. |
| RbOrder.NameLessIsSooner | nginx-1.9.2/src/core/ngx_open_file_cache.c:1232-1270 | The recursive comparison of names is the order by the first character that differs. |
| RbOrder.TimersSorted | nginx-1.9.2/src/core/ngx_rbtree.c:534-566 | While all times lie within half of the key range, the wrapped comparison is a strict weak order on their keys, and the tree is sorted by it exactly if it is sorted by time. |
| RbOrder.TimerOrderIff | nginx-1.9.2/src/core/ngx_rbtree.c:534-566 | Of two times less than a key range apart the wrapped keys compare as the times do, both ways, if and only if they are less than half the range apart. |
| RbOrder.AscendingSortedIff | nginx-1.9.2/src/core/ngx_rbtree.c:534-566 | Timers in the order of time, all within one key range, are in the order of the tree if and only if all lie within half of it. |
| RbOrder.TimersAgreeIff | nginx-1.9.2/src/core/ngx_rbtree.c:534-566 | For timers within one key range: in every arrangement of them the tree's order and the order of time agree if and only if all of them lie within half the range. |
| RbOrder.TimerOrderBreaks | nginx-1.9.2/src/core/ngx_rbtree.c:534-566 | At half the range each of two keys sorts before the other, so the later timer can come first. |
| EventTimers.Timers.Add | nginx-1.9.2/src/event/ngx_event_timer.h:66-108 | The timer tree is a map from events to deadlines: setting a timer maps the event to now + timer, whatever the key wraps to, except that a timer already set less than 300 ms away stays as it is; nothing else changes. |
| EventTimers.Timers.Del | nginx-1.9.2/src/event/ngx_event_timer.h:31-49 | Deleting a timer removes exactly that event from the map. |
| EventTimers.Timers.FindTimer | nginx-1.9.2/src/event/ngx_event_timer.c:76-94 | The answer is the time from now to the earliest of all deadlines, 0 if it has passed, and infinite exactly when there is none, across wrap-around. |
| EventTimers.Timers.ExpireTimers | nginx-1.9.2/src/event/ngx_event_timer.c:106-149 | For any handlers that set and delete timers while the loop runs: in every turn the earliest timer, which is due, is unset, and then its handler's calls are carried out; no timer is due in the end. With handlers that do neither, exactly the timers whose deadline has come are unset, each once, in the order of their deadlines. |
| EventTimers.SignedDifference | nginx-1.9.2/src/event/ngx_event_timer.c:89-93 | For times less than half the range apart the signed difference of the wrapped keys is the difference of the times. |
| Queue.InsertAfter | nginx-1.9.2/src/core/ngx_queue.h:126-132 | Linking a node behind another one makes the ring the old one with the node there, in both directions. |
| Queue.InsertTail | nginx-1.9.2/src/core/ngx_queue.h:135-139 | Linking at the sentinel's other side appends the node. |
| Queue.Remove | nginx-1.9.2/src/core/ngx_queue.h:172-174 | Unlinking gives the ring without that node. |
| Queue.Split | nginx-1.9.2/src/core/ngx_queue.h:182-188 | The ring is cut before a node: the front stays with the sentinel, the rest goes to the new one. |
| Queue.Add | nginx-1.9.2/src/core/ngx_queue.h:192-196 | Two rings become one, the nodes in order, also when either is empty. |
| Queue.Middle | nginx-1.9.2/src/core/ngx_queue.h:222-224 | The middle of an odd number of nodes, the first of the second half of an even one, the sentinel of an empty queue. |
| Queue.SortQueue | nginx-1.9.2/src/core/ngx_queue.h:223-224 | After the sort the ring holds the same nodes; if the comparison is transitive and total on them, they are in sorted order and nodes that compare equal stand as they stood before. |
| QueueOrder.SortIsStable | nginx-1.9.2/src/core/ngx_queue.h:223-224 | Insertion from the back is a stable sort: a permutation, sorted, with every class of equals in its old order. |
| Shmtx.NoLostWakeup | nginx-1.9.2/src/core/ngx_shmtx.c:163-307 | In every state of every run of any number of processes, counter plus semaphore plus claimed but unposted wakeups is the number of registered waiters, and if the lock is free while a process sleeps, another process is active inside lock or unlock. |
| Shmtx.AtMostOneHolder | nginx-1.9.2/src/core/ngx_shmtx.c:152-255 | No two processes own the lock, and the word names the one that does. |
| Shmtx.NoDeadlock | nginx-1.9.2/src/core/ngx_shmtx.c:163-307 | While a process sleeps, some other process that is not idle can take a step. |
| Shmtx.SleeperCanBeHelped | nginx-1.9.2/src/core/ngx_shmtx.c:163-307 | From every reachable state with a free lock and a sleeper, some other process, running alone, takes the lock or posts the semaphore within four steps. |
| Shmtx.CounterBounded | nginx-1.9.2/src/core/ngx_shmtx.c:190-221 | The counter stays between minus and plus the number of processes. |
| Shmtx.CounterGoesNegative | nginx-1.9.2/src/core/ngx_shmtx.c:190-221 | It does become negative: a run that ends with -1. |
| Shmtx.RunInv | nginx-1.9.2/src/core/ngx_shmtx.c:163-307 | Every state of every run satisfies the invariant that the results above follow from. |
| ShmtxCalls.TrylockReturns | nginx-1.9.2/src/core/ngx_shmtx.c:152-156 | In every run a call of trylock makes at most two steps and is never on its way into lock: if the word was 0 at both, the caller is the owner and the word names it; otherwise it has returned and left the shared words as they were. |
| ShmtxCalls.LockReturns | nginx-1.9.2/src/core/ngx_shmtx.c:163-230 | In every run a call of lock ends only with the lock, and the word names the caller. |
| ShmtxCalls.UnlockReturns | nginx-1.9.2/src/core/ngx_shmtx.c:245-307 | In every run a call of unlock frees the word exactly if it names the caller, and otherwise changes nothing; with a semaphore it returns only when it has read that nobody waits, or has taken a waiter off the counter and posted. |
| ShmtxCalls.TakesFreeLock | nginx-1.9.2/src/core/ngx_shmtx.c:152-230 | From anywhere in lock or trylock a process that runs alone owns a free lock within three steps. |
| Rwlock.RunInv | nginx-1.9.2/src/core/ngx_rwlock.c:19-109 | With fewer than 2^64 - 1 processes, in every state of every run the word is -1 exactly when one writer and no reader holds the lock, and otherwise the number of readers. |
| Rwlock.WriterExcludes | nginx-1.9.2/src/core/ngx_rwlock.c:19-109 | Nobody holds the lock together with a writer. |
| Rwlock.OneReaderTooMany | nginx-1.9.2/src/core/ngx_rwlock.c:51-86 | The bound is tight: for every larger number of processes there is a run that ends with 2^64 - 1 readers and a word that reads as a write lock. |
| RwlockCalls.TakingReturns | nginx-1.9.2/src/core/ngx_rwlock.c:19-85 | In every run a call of wlock or rlock ends only with the lock held in that role. |
| RwlockCalls.UnlockReturns | nginx-1.9.2/src/core/ngx_rwlock.c:88-109 | A call of unlock ends with the lock given back, in the role in which it was held. |
| RwlockCalls.StepsWord | nginx-1.9.2/src/core/ngx_rwlock.c:19-109 | A writer takes the word from 0 to -1 and back, a reader adds one and takes one off, and no other step changes it. |
| RwlockCalls.Enters | nginx-1.9.2/src/core/ngx_rwlock.c:19-85 | Readers share the lock: unless a writer has it, a reader that runs alone gets in within three steps, however many have it; so does a writer if it is free. |
| FileCacheRuns.OpenValidIff | nginx-1.9.2/src/core/ngx_open_file_cache.c:146-530 | Opening a name keeps the cache in order (names in tree and queue agree with `current`, every open descriptor belongs to exactly one node, every claim is counted, the queue is sorted by time of access) if and only if the file system does not answer in one of two ways about an open file that is due for a retest. |
| FileCacheRuns.RunValid | nginx-1.9.2/src/core/ngx_open_file_cache.c:146-530 | Over every run of opens, cleanups and expirations in which that does not happen, the cache is in order at every moment. |
| FileCacheRuns.UserReadsOpenDescriptor | nginx-1.9.2/src/core/ngx_open_file_cache.c:1074-1139 | Until a user has been cleaned up, the descriptor it was given is open, exactly one node owns it, and that node's count is the number of its users. |
| FileCacheRuns.OnlyCleanupEndsUser | nginx-1.9.2/src/core/ngx_open_file_cache.c:1074-1087 | No operation but a user's own cleanup takes it off the books. |
| FileCacheRuns.NoLeak | nginx-1.9.2/src/core/ngx_open_file_cache.c:1090-1139 | A descriptor is open exactly when some node owns it. |
| FileCacheRuns.CurrentCountsTree | nginx-1.9.2/src/core/ngx_open_file_cache.c:146-530 | `current` is the number of names in the tree. |
| FileCacheRuns.EvictsLeastRecentlyUsed | nginx-1.9.2/src/core/ngx_open_file_cache.c:1166-1229 | A forced expiration takes the last node of the queue off the tree, and no node in the tree was used earlier. |
| FileCacheRuns.ShutdownClosesAll | nginx-1.9.2/src/core/ngx_open_file_cache.c:88-140 | Once no user is left, the cleanup of the cache closes every descriptor, frees every node and raises neither of its alerts. |
| FileCacheRuns.DirectoryWithSameNumber | nginx-1.9.2/src/core/ngx_open_file_cache.c:288-390 | A concrete input for the first way the order breaks: a directory has taken over the number of the cached file. |
| FileCacheRuns.FileChangesBack | nginx-1.9.2/src/core/ngx_open_file_cache.c:288-390 | A concrete input for the second way: the name changes back between stat() and open(). |
| FileCacheRuns.OneFileReached | nginx-1.9.2/src/core/ngx_open_file_cache.c:146-530 | The cache of these two inputs is reached by a run from an empty cache. |
| FileCacheHistory.AnswerIsRecent | nginx-1.9.2/src/core/ngx_open_file_cache.c:146-530 | Over every run: a call either asks the file system and tells what it answers to this call, or tells what the file system answered when it was last asked for that name, less than `valid` before, with the same settings about symlinks. Whether it asks is told by its behaviour: it does not if no answer could change what it does. |
| FileCacheHistory.RecentIsUnasked | nginx-1.9.2/src/core/ngx_open_file_cache.c:241-286 | And conversely: while the entry has a descriptor, an error or a directory, a call that suits its number does not ask exactly if less than `valid` has passed since the file system was last asked for that name, and with the same settings. |
| FileCacheHistory.UnaskedIff | nginx-1.9.2/src/core/ngx_open_file_cache.c:241-286 | One call asks exactly if there is no entry that is good for an answer, by the time the entry was made, not the time it was used. |
| FileCacheHistory.OpenStamps | nginx-1.9.2/src/core/ngx_open_file_cache.c:288-530 | A call that asks leaves an entry made now with the answer, unless the answer is an error that is not to be kept, or memory is short. |
| FileCacheHistory.OpenUses | nginx-1.9.2/src/core/ngx_open_file_cache.c:231-390 | Every call counts one use of the entry, a new one the first. |
| FileCacheSafety.CleanupValid | nginx-1.9.2/src/core/ngx_open_file_cache.c:1074-1229 | Releasing a registered user keeps the cache in order: the node survives until its last user and is then freed once. |
| FileCacheAnswers.OpenAnswers | nginx-1.9.2/src/core/ngx_open_file_cache.c:146-530 | What the caller is told (error, descriptor, file or directory, facts) is what the cache has of that name afterwards. |
| FileCacheAnswers.OpenKeepsOthers | nginx-1.9.2/src/core/ngx_open_file_cache.c:146-530 | Opening one name leaves the entries of all other names as they are; a name is lost only if the cache was full, and only from the last three nodes of the queue: the last one, or one unused for long enough. |
| FileCacheAnswers.ExpireTakesOldest | nginx-1.9.2/src/core/ngx_open_file_cache.c:1166-1229 | An expiration takes at most 3 - n nodes, from the end of the queue only; all but a forced one have been unused for long enough, and it takes fewer only if the next one has not, or there is none. |
| FileCacheOps.FileCache.OpenCachedFile | nginx-1.9.2/src/core/ngx_open_file_cache.c:146-530 | The operation in place: the file system is asked exactly if there is no entry good for an answer, made less than `valid` ago; then an entry is made with what it answers; the caller is told what the cache has of the name afterwards; the use is counted; and the order holds under exactly the condition of OpenValidIff. |
| FileCacheOps.FileCache.OpenFileCleanup | nginx-1.9.2/src/core/ngx_open_file_cache.c:1074-1087 | The cleanup handler in place: the new state is that of the function, and the cache is in order. |
| FileCacheOps.FileCache.CloseCachedFile | nginx-1.9.2/src/core/ngx_open_file_cache.c:1090-1139 | The node is freed exactly if it is off the tree and has no users; its descriptor is closed exactly then, or if it has no users and was used less than min_uses times; a node still in the tree comes to the head of the queue with the time of access; no other node changes. |
| FileCacheOps.FileCache.ExpireOldCachedFiles | nginx-1.9.2/src/core/ngx_open_file_cache.c:1166-1229 | Expiring in place keeps the invariant and takes only what ExpireTakesOldest allows. |
| FileCacheOps.FileCache.OpenAndStatFile | nginx-1.9.2/src/core/ngx_open_file_cache.c:888-996 | A descriptor that still stands for the same file is kept and nothing is opened; otherwise what is open afterwards and was not before is exactly the descriptor handed out: none on an error that is not to be cached, else with a record from which a node can be filled in. |
| WildcardInit.Init | nginx-1.9.2/src/core/ngx_hash.c:635-797 | For every sorted conflict-free list of names the nested tables that are built answer every later search from the head with the value of the matching name with the most labels, or nothing, and so for a search from the tail if no key ends in a dot; the recursion ends. |
| WildcardInit.FindWcHead | nginx-1.9.2/src/core/ngx_hash.c:74-170 | The scan and recursion over the characters of the name is the search by labels, the last one first, with the low bits deciding whether a pattern matches its own name. |
| WildcardInit.FindWcTail | nginx-1.9.2/src/core/ngx_hash.c:207-274 | The same from the first label on. |
| WildcardInit.FindCombined | nginx-1.9.2/src/core/ngx_hash.c:277-312 | The exact name wins over patterns; then the longest pattern by head, then the longest by tail. |
| WildcardInit.TurnKey | nginx-1.9.2/src/core/ngx_hash.c:1188-1216 | The copying loop turns "*.x" and ".x" into the labels of x in reverse, with a dot at the end in the first case. |
| WildcardInit.PatternMeans | nginx-1.9.2/src/core/ngx_hash.c:74-170 | The turned key of "*.x" suits exactly the names that end in a dot and x, never x itself; that of ".x" suits x as well. |
| WildcardInit.LongestWildcardWins | nginx-1.9.2/src/core/ngx_hash.c:74-170 | Searching the built table gives the value of the longest pattern "*.x" or ".x" that matches the name as text, and nothing exactly when none matches. |
| WildcardTails.TailPatternMeans | nginx-1.9.2/src/core/ngx_hash.c:207-274 | The key of "x.*" suits exactly the names that begin with x and a dot. |
| WildcardTails.TailsArePlain | nginx-1.9.2/src/core/ngx_hash.c:207-274 | The keys of patterns "x.*" do not end in a dot, so the table that is built for them serves searches from the tail. |
| WildcardTails.LongestTailWins | nginx-1.9.2/src/core/ngx_hash.c:207-274 | Searching the built table gives the value of the longest pattern "x.*" that the name begins with, and nothing exactly when there is none. |
| WildcardNames.SuffixIsPrefix | nginx-1.9.2/src/core/ngx_hash.c:74-170 | On reversed labels "ends in a dot and x" is "starts with the labels of x", both ways. |
| WildcardNames.HeadsStandTogether | nginx-1.9.2/src/core/ngx_string.c:928-955 | In the order of ngx_dns_strcmp names with the same first label stand together, which the builder relies on. |
| HashTable.Table.Init | nginx-1.9.2/src/core/ngx_hash.c:359-582 | Keys that are too large for a bucket are refused, exactly; otherwise the table is built inside an area that is as large as the buckets together, with every key's element where the walk will look, at the size that the search for a size chose. |
| HashTable.Table.Find | nginx-1.9.2/src/core/ngx_hash.c:25-62 | The walk over the bytes of a bucket gives each key's lower-cased name its value, and any other name null. |
| HashTable.Table.ChooseSize | nginx-1.9.2/src/core/ngx_hash.c:393-451 | The loop over sizes with its 16-bit counters returns the first size at which no counter passes the limit, or the largest size. |
| HashLayout.WalkStep | nginx-1.9.2/src/core/ngx_hash.c:318-319 | Rounding the end of a name up to the pointer size is the same step as adding the size of the element. |
| HashLayout.RoomyIsFirst | nginx-1.9.2/src/core/ngx_hash.c:393-451 | Every smaller size from the start on was given up, and the chosen size was given up only if all were. |
| HashLayout.OverfullIsTooLarge | nginx-1.9.2/src/core/ngx_hash.c:393-451 | While the bucket size is at most 32775 bytes, the 16-bit counters give a size up exactly when some bucket is too large. |
| HashLayout.RoomyFits | nginx-1.9.2/src/core/ngx_hash.c:393-500 | Under that bound a size that was not given up leaves room for every bucket. |
| HashLayout.RoomIffFits | nginx-1.9.2/src/core/ngx_hash.c:461-530 | What is set aside for a bucket holds its elements and the closing null if and only if the rounded size is below 65536. |
| HashLayout.WrapDeceives | nginx-1.9.2/src/core/ngx_hash.c:393-500 | A concrete input above the bound: two names of 40000 bytes in one bucket. |
| HashLayout.BucketMeans | nginx-1.9.2/src/core/ngx_hash.c:25-62 | The bucket of a name's hash says of the name what the list of keys says, for every size of the table. |
| HashLayout.SpellsAnyCase | nginx-1.9.2/src/core/ngx_hash.c:25-62 | A key is found under a name in lower case if and only if it is that name in whatever case of letters. |
| OutputChain.OutputChain.Output | nginx-1.9.2/src/core/ngx_output_chain.c:147-363 | For any incoming buffers and anything the next filter may do: all bytes that ever came in are, in order, those handed to the filter and those still in ctx->in; what was handed over is what the filter got rid of and what it still holds. Every buffer the filter is shown is a mere flag, or is in memory if the filter needs that or there is no sendfile, and is not read-only memory if it needs writable; without sendfile it is not in a file. Every buffer that came and meets this goes over itself, and no other does. Buffers never exceed the configured number; the loop ends; the code is the filter's last one, or "again" if input is left, and then every allowed buffer is in use; "ok" means everything was handed over. |
| OutputChain.OutputChain.AsIs | nginx-1.9.2/src/core/ngx_output_chain.c:374-479 | Exactly the buffers that the next filter can take pass uncopied; their bytes stay, and without sendfile they are no longer file buffers. |
| OutputChain.OutputChain.CopyBuf | nginx-1.9.2/src/core/ngx_output_chain.c:804-969 | The smaller of what is left in the first buffer and the room in the current one goes from the front of the one into the other, byte for byte, and no other buffer changes. |
| OutputChain.OutputChain.Fill | nginx-1.9.2/src/core/ngx_output_chain.c:205-325 | One pass over ctx->in hands on exactly the buffers that the filter can take and copies the others, without losing a byte, makes progress if it outputs anything, makes at most one buffer and only if none is free, and stops with input left only when no buffer can be had. |
| OutputChain.OutputChain.UpdateChains | nginx-1.9.2/src/core/ngx_buf.c:188-229 | Output joins the busy chain; exactly the empty buffers at its front leave it, the filter's own come emptied to the front of the free list, and no unsent byte is overwritten. |
| OutputChain.OutputChain.AddCopy | nginx-1.9.2/src/core/ngx_output_chain.c:504-571 | The incoming chain is appended to ctx->in, bytes in order. |
| OutputBufs.UpdateSent | nginx-1.9.2/src/core/ngx_buf.c:274-317 | The given number of bytes is taken from the front of the chain; the answer is behind buffers that are empty, at one that is not special. |
| OutputBufs.ConsumedData | nginx-1.9.2/src/core/ngx_buf.c:274-317 | Taking n bytes that way leaves exactly the others, in order. |
| RadixTree.RadixTree.Find | nginx-1.9.2/src/core/ngx_radix_tree.c:243-270 | The value of the longest stored prefix of the key, or none exactly when no prefix of it is stored. |
| RadixTree.RadixTree.Insert | nginx-1.9.2/src/core/ngx_radix_tree.c:115-177 | The prefix is mapped to the value; "busy" is answered exactly when it was stored already, "error" exactly when the prefix lacks more nodes than there is memory for, and in both cases nothing stored changes. A pruned tree stays pruned exactly if memory suffices or there was none at all; else the last node added is a leaf without a value. |
| RadixTree.RadixTree.Delete | nginx-1.9.2/src/core/ngx_radix_tree.c:180-240 | The prefix is stored no longer and nothing else changes; on a pruned tree "ok" is answered exactly when it was stored, and the tree stays pruned: every leaf but the root carries a value. |
| RadixTree.DeletesWhatIsNotStored | nginx-1.9.2/src/core/ngx_radix_tree.c:115-240 | For every key and every mask of at least two bits, in a new tree with memory for one node: the insertion fails, nothing is stored, and deleting the first bit of the key is answered "ok". |
| RadixTree.RadixTree.Alloc | nginx-1.9.2/src/core/ngx_radix_tree.c:470-495 | A node off the free list, else a new one; the tree, the free list and the node in hand never share a node and none is lost. |
| RadixShape.BestIsLongest | nginx-1.9.2/src/core/ngx_radix_tree.c:243-270 | The last value met on the way down is that of the longest stored prefix. |
| ConfReader.ConfFile.ReadToken | nginx-1.9.2/src/core/ngx_conf_file.c:590-919 | Refilling is invisible: for every file and starting position the code, the words and the position are those of reading the whole remaining text word by word (gaps and comments skipped, words up to a blank, ; or { that is neither escaped nor behind a dollar sign, quotes up to the same quote), and the line counts its line feeds, unless the tokenizer comes to a place before the end where one word, comment or gap fills the 4096 bytes; exactly then "too long parameter" is reported. |
| ConfReader.ConfFile.Refill | nginx-1.9.2/src/core/ngx_conf_file.c:625-720 | Moving the rest of the word down and reading on keeps the window on the file and the position in it. |
| ConfToken.StepInWindow | nginx-1.9.2/src/core/ngx_conf_file.c:705-915 | A step of the tokenizer in the window is the step in the whole text. |
| ConfWords.RunReads | nginx-1.9.2/src/core/ngx_conf_file.c:590-919 | The tokenizer with its seven flags, character by character, gives for every text the code, the words and the end that the reading by words gives. |
| ConfWords.TokenComesBack | nginx-1.9.2/src/core/ngx_conf_file.c:590-919 | Words with or without quotes of either kind, separated by blanks, line feeds and comments: with ; behind them they come back with "ok", with { with "block start"; without words ; and { are errors and } is "block done", with words } is an error. Escapes stand for what they should: quotes and backslashes for themselves, \t \r \n for the control characters. |
| ConfWords.EndComesBack | nginx-1.9.2/src/core/ngx_conf_file.c:625-650 | At the end of the text the code is "file done" if there was no word, and else an error. |
| ConfWords.QuotedWordComesBack | nginx-1.9.2/src/core/ngx_conf_file.c:705-915 | Any word whatever, between quotes of either kind with quotes and backslashes escaped, is given back by the tokenizer. |
| ConfWords.BraceIff | nginx-1.9.2/src/core/ngx_conf_file.c:740-830 | A brace behind a dollar sign belongs to the word if and only if that sign is not the first character of the word. |
| ConfWords.DollarFirst | nginx-1.9.2/src/core/ngx_conf_file.c:740-830 | A concrete text: "${" is read as the word "$" and the start of a block. |
| ConfToken.RunProgresses | nginx-1.9.2/src/core/ngx_conf_file.c:590-919 | The tokenizer moves on by at least one character, if there is one. |
| Inet6.Ntop | nginx-1.9.2/src/core/ngx_inet.c:289-363 | The printer compresses the first of the longest runs of at least two zero groups (section 4.2 of RFC 5952), and the text it prints is parsed back to the same 16 bytes, except a dotted tail 255.255.255.255, which is refused. |
| Inet6RoundTrip.RoundTrip | nginx-1.9.2/src/core/ngx_inet.c:62-175 | The parser applied to the printed form of any address (section 2.2 of RFC 4291) gives the address, with that one exception. |
| Inet6RoundTrip.LostAddress | nginx-1.9.2/src/core/ngx_inet.c:62-175 | A concrete address that does not come back: twelve zero bytes and four of 255. |
| Inet6.FindRun | nginx-1.9.2/src/core/ngx_inet.c:296-333 | The scan finds the first of the longest runs of at least two zero groups, or none. |
| Inet6.ParseInet6 | nginx-1.9.2/src/core/ngx_inet.c:62-175 | The loop with its in-place shift of the bytes behind the gap succeeds exactly on texts whose fields between colons are groups of one to four hex digits, at most one of them empty, with a group, nothing or a dotted tail at the end, eight groups in all or fewer with a gap; and the bytes are those groups with zeros for the gap. |
| Inet6.ParseInet | nginx-1.9.2/src/core/ngx_inet.c:17-57 | The loop succeeds exactly on four runs of digits between three dots, possibly empty, each worth at most 255, and gives their value in network order as one number; otherwise the error value. |
| Inet6Fields.InetMeans | nginx-1.9.2/src/core/ngx_inet.c:17-57 | The recursion on characters and states that the loop is proved against gives the value of four such fields, and the error value for all other texts. |
| Inet6Fields.Inet6Means | nginx-1.9.2/src/core/ngx_inet.c:62-175 | The characterwise reading of an IPv6 text, with its states and shifts, is the reading of its fields between colons: accepted exactly as above, with that meaning. |
| Inet6Fields.LooseTexts | nginx-1.9.2/src/core/ngx_inet.c:17-175 | Two texts that are accepted: "..." is the address 0.0.0.0, and "::1:" is ::1:0. |
| Inet6Fields.HexValueIff | nginx-1.9.2/src/core/ngx_inet.c:140-165 | A hexadecimal digit is read in either case. |
| Inet6Fields.HexIsNumeral | nginx-1.9.2/src/core/ngx_inet.c:289-363 | What is printed for a group is its hexadecimal numeral in lower case without zeros in front. |
| Inet6Fields.DecIsNumeral | nginx-1.9.2/src/core/ngx_inet.c:340-363 | What is printed for a byte is its decimal numeral without zeros in front. |
| HttpDate.ParseHttpTime | nginx-1.9.2/src/core/ngx_parse_time.c:14-276 | The parser accepts exactly the texts that say a valid date in one of the three formats (section 7.1.1.1 of RFC 7231) and returns the formula's value for that date; no character outside the text is read. |
| HttpDate.SaysOne | nginx-1.9.2/src/core/ngx_parse_time.c:14-207 | A text says at most one date. |
| HttpDate.FixedDateSays | nginx-1.9.2/src/core/ngx_parse_time.c:40-207 | Every valid date written in the preferred format says that date. |
| HttpDate.ShortDateSays | nginx-1.9.2/src/core/ngx_parse_time.c:40-207 | Every date from 1970 to 2069 written in the format of RFC 850 says that date: two digits stand for the year of that century that ends in them. |
| HttpDate.AscDateSays | nginx-1.9.2/src/core/ngx_parse_time.c:40-207 | Every valid date written in the format of asctime() says that date. |
| HttpTime.GaussIsExact | nginx-1.9.2/src/core/ngx_parse_time.c:222-265 | The closed formula equals the seconds counted year by year and month by month, if and only if the date is not in January or February of the year 0. |
| HttpTime.GaussCountsDays | nginx-1.9.2/src/core/ngx_parse_time.c:222-255 | Over the integers the formula counts Gregorian days, for every year and month. |
| HttpTime.LaterIsLarger | nginx-1.9.2/src/core/ngx_parse_time.c:222-265 | For all dates on days from 1 on, years 0 to 9999, the value is strictly increasing in the date, with one exception: the last 10368 seconds of February 29 of the year 0 against the first 10368 of March 1. |
| HttpTime.SharedIff | nginx-1.9.2/src/core/ngx_parse_time.c:209-265 | A date that the checks let through shares its value with another one on a day from 1 on if and only if its own day is 0 (save in January of the year 0) or it lies in that overlap. |
| HttpTime.TwinShares | nginx-1.9.2/src/core/ngx_parse_time.c:209-265 | Which date that is: for day 0 the last day of the month before, in every month, in January that of the year before; in the overlap 10368 seconds make up the difference. |
| Pool.Pool.Palloc | nginx-1.9.2/src/core/ngx_palloc.c:144-205 | A small allocation is the first fit from the current block on, aligned or not, else the start of a new block, and fails exactly if no block has room and the system has no new one; a large one is the system's. All live pieces are inside their blocks or the system's pieces and pairwise disjoint, old ones unchanged; on failure nothing is handed out. |
| Pool.Pool.PallocBlock | nginx-1.9.2/src/core/ngx_palloc.c:208-247 | The new block joins the chain, every block from the current one on but the last counts a failure, and the current block becomes the first one that has not failed six times. |
| Pool.Pool.PallocLarge | nginx-1.9.2/src/core/ngx_palloc.c:253-300 | A large piece is noted in the first unused one of the first five entries, else in a new entry in front that is allocated from the pool; it fails exactly if the system has no piece, or such an entry is needed and cannot be had. |
| Pool.Pool.Pfree | nginx-1.9.2/src/core/ngx_palloc.c:328-345 | Exactly the large piece that starts there is freed; the answer is "declined" exactly when there is none. |
| PoolSpace.RoundedEndIffInside | nginx-1.9.2/src/core/ngx_palloc.c:155-160 | Rounding up stays inside a block for every position if and only if the block's end is aligned; past the end the cast to size_t makes the negative rest look like room. |
| PoolSpace.PlaceIsLeast | nginx-1.9.2/src/core/ngx_palloc.c:144-205 | A piece is put at the first byte behind what is used, or at the first aligned one. |
| PoolArray.GrowArray.Push | nginx-1.9.2/src/core/ngx_array.c:48-98 | The push fails exactly if the array is full, cannot grow in place and twice its room cannot be had, and then changes nothing. Otherwise the elements keep their values, in place or moved, and so do the bytes of every other live piece; the new slot lies in the array's piece if and only if the array had room for an element before or grew in place. |
| PoolArray.GrowArray.PushN | nginx-1.9.2/src/core/ngx_array.c:101-154 | The same for n elements, without that exception. |
| PoolArray.PushIntoNothing | nginx-1.9.2/src/core/ngx_array.c:48-98 | A concrete case of that exception: an array with nalloc 0 with another allocation behind it; the slot is given out, and nalloc is still 0. |
| PoolArray.KeptThrough | nginx-1.9.2/src/core/ngx_array.c:48-154 | Keeping every live piece and its bytes carries over any sequence of allocations and pushes. |
| PoolArray.WriteKeepsOthers | nginx-1.9.2/src/core/ngx_array.c:48-154 | A write inside one live piece changes no byte of another. |

## Left out

- Shmtx: crashes inside lock or unlock and force_unlock, errors of sem_wait, the number of spins, and the version on file locks.
- Rwlock: the number of spins, and callers that unlock without holding.
- FileCacheOps.FileCache.OpenCachedFile: kqueue vnode events, opening through openat and without symlinks, and a null cache are not modelled; the facts about a file that do not steer the cache are one field, and so are the two settings about symlinks.
- FileCacheOps.FileCache: nodes are records in a map from addresses, the tree is a map from names and the queue a sequence, as RedBlackTree.RbTree.Lookup and module Queue justify but do not replace; widths of `uses` and `count` are not bounded, and cleanup of the cache with users still outstanding is left out.
- EventTimers.Timers.ExpireTimers: what a handler does is a list of timers that it sets, at most a quarter of the key range ahead, and deletes; the rest of a handler is left out, and so is ngx_event_cancel_timers.
- RedBlackTree.RbTree: the debug code; the key is 64 bits wide.
- WildcardInit.Init: an inner table is the map that HashTable.Table.Init and HashTable.Table.Find make of a bucket array; the tag bits are the constructor of an entry and its flag; allocation does not fail.
- WildcardInit.TurnKey: of ngx_hash_add_key only the turning of a pattern; its search for conflicts and its scratch hashes are left out.
- HashTable.Table.Init: key sets with a bucket whose size rounds to 65536 bytes or more are excluded, because there the source reserves too little and writes outside of it (HashLayout.RoomIffFits says exactly when); the area begins at an aligned address; allocation does not fail; an empty list of keys with a bucket below 24 bytes, where the code divides by zero, is excluded.
- HashTable.Table: the wildcard header in front of the bucket array.
- OutputChain.OutputChain.Output: AIO, thread pools, direct I/O and the sendfile limit; failing allocations and reads; the flags of recycled buffers, where the code keeps old ones if the source is copied in part (nginx-1.9.2/src/core/ngx_output_chain.c:862-866): the property is over bytes. Incoming buffers carry another tag than the chain's own.
- OutputChain.OutputChain.NewSize: only the bounds of a new buffer's size are stated, because no byte depends on it.
- RadixTree.RadixTree: the 128-bit functions, which are the same with byte indices, and preallocation; words are 32 truth values.
- RadixTree.RadixTree.Delete: deleting the empty prefix on a root without children is excluded, as the root has no parent.
- ConfReader.ConfFile.ReadToken: read errors and short reads, allocation failures, the buffer of the -g parameter, and the texts of messages.
- Inet6.Ntop: the length of the caller's buffer; uppercase is accepted and not printed.
- HttpDate.ParseHttpTime: a 32-bit time_t.
- Pool.Pool: destroying and resetting a pool, cleanup handlers, ngx_pmemalign and ngx_pcalloc; blocks and large entries linked by pointers are sequences in that order; what the system grants is aligned to 16 bytes and away from everything in use.
- PoolArray.GrowArray: ngx_array_create and ngx_array_destroy.
- Hash functions, MD5, SHA-1, CRC and murmur: a key's hash is any number that depends on the lower-cased name.
- Sockets, logging, signals, configuration slots, cycles, listening, and everything else in `src/core` not named above.
