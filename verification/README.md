# Systems-programming assignments, modelled and verified

Dafny models of the stateful cores of ten programs of a systems-programming course, with proofs of what
each of them is for. Every core file has modules of its own, and `Bytes`, `Options`, `Sequences` and `Runs` are
shared;
`dafny verify dfyconfig.toml` checks them all.

| modules | program |
|---|---|
| `HeapMemory`, `Sweeps`, `LooseHeaps`, `Layouts`, `Allocators`, `HeapRuns`, `CrossingRuns` | the segregated free-list allocator, `malloc/alloc.c` |
| `Graphs`, `CycleFinders`, `Drm` | the deadlock-avoiding resource manager, `deadlock_demolition/libdrm.c` |
| `Pages`, `Mmus`, `FlatMemory` | the MMU with TLB and demand paging, `ideal_indirection/mmu.c` |
| `Graphs`, `Parmake` | the dependency analysis of parallel make, `parallel_make/parmake.c` |
| `Monitor`, `BoundedQueue`, `Semaphores` | the queue and the semaphore, `critical_concurrency/queue.c`, `semamore.c` |
| `Barrier` | the reusable barrier, `critical_concurrency/barrier.c` |
| `Cracker`, `CrackerQueue` | the shutdown protocol of the password cracker, `password_cracker/cracker1.c` |
| `ParReduce` | the parallel reduction, `teaching_threads/par_reduce.c` |
| `Framing` | message framing over short reads and writes, `charming_chatroom/utils.c` |

How the programs appear:

- **Allocator.** Memory is one sequence of cells that ends at the program break; a header occupies 32 cells.
  Two views of it are kept in agreement by every call: the blocks tile the region, and 17 doubly linked lists
  through the headers hold exactly the free blocks, each in the list of its size class. `granted` stands for
  the kernel's answer when the break is to move up. Calls that do not sweep are proved to do on headers and
  links what short functions on the layout do (`Layouts`): the blocks, the order of the lists, and the break.
  What a sweep does is said by `SweptInto`, turn by turn.
- **Resource manager.** The three critical sections are methods on the allocation graph, with the cycle search
  of the program; the protocol around them is a system of interleaved steps, because a wait lets the global
  mutex go between its check and its grant.
- **MMU.** Frames hold tables or bytes. The kernel's behaviour is part of the model as an adversary: whenever
  a frame is asked for, some data page of some process may first go to its swap file, and the TLB may drop
  entries whenever one is added. The main results say that none of this shows: every process sees a flat
  memory of its own, over whole runs of calls.
- **Monitors and protocols.** The queue and the semaphore are two instances of one step system, in which the
  mutex is held or not, sleepers are woken by broadcasts, and spurious wakeups may happen at any time; results
  hold in every interleaving. The barrier and the cracker have step systems of their own; the cracker's takes
  each queue operation as one step, and is proved to cover the runs of its workers on the queue's monitor.

Two results are about where the code falls short.

The sweep of list 15 merges blocks without moving them to the list of their new size, and unlinks a block
that has outgrown the list through the head of list 16. `BlockCoalescing` therefore promises a heap exactly
when `SweepSafe` holds beforehand: no merge of the sweep makes a block too large for list 15, except one that
ends at the break and is not first in the list. Otherwise no reading of the memory is a heap when the sweep
ends, though no live block has been touched. `Malloc` goes on from there: it leaves a heap exactly when its
sweep, if any, was safe, or when the request takes away the one block that spoils list 15 (`Repaired`); `lost`
says that its search starts from a list head at or beyond the break. With at most six requests of class 15 in a
run no such sweep happens, and `Play` shows that every block then keeps what the client wrote to it; `CrossingRun`
is a run with seven that ends in memory which is no heap.

A parallel reduction with an associative reducer agrees with the sequential one on all lists and numbers of
threads exactly when the base case may come up again in the middle without changing the result (`Regroups`,
which a right identity satisfies). `SumTwice` is an input for which it does not.

## Model

| member | source | states |
|---|---|---|
| HeapMemory.ClassIff | malloc/alloc.c:37-43 | a size class holds exactly the sizes above the previous bound and up to its own |
| HeapMemory.ClassDoubles | malloc/alloc.c:16 | two sizes of one class, above 8 and up to 262144, are within a factor of two |
| HeapMemory.TilingUnique | malloc/alloc.c:171 | the headers in memory determine where the blocks are: two tilings of one region are the same |
| HeapMemory.MergeTiled | malloc/alloc.c:171-175 | enlarging a block by its right neighbour leaves the region tiled |
| HeapMemory.PayloadsDisjoint | malloc/alloc.c:171-175 | the payloads of any two blocks, live ones included, have no address in common, and hold no header |
| HeapMemory.CutLinked | malloc/alloc.c:72-92 | cutting a node out of its list leaves all 17 lists properly linked, with that node gone |
| HeapMemory.PushLinked | malloc/alloc.c:94-110 | linking an unlisted block in front of a list leaves all lists properly linked |
| HeapMemory.MergeConsistent | malloc/alloc.c:170-177 | folding a free neighbour into a block keeps both views in agreement, except for the class of the grown block |
| Sweeps.SweepSafeIff | malloc/alloc.c:45-70 | a sweep of list 15 ends with right heads and no block too large for the list iff it is safe |
| Sweeps.HighSweepSound | malloc/alloc.c:246-247 | a sweep of list 16 ends with everything in order |
| Sweeps.LargeStays | malloc/alloc.c:50-68 | a block of some size whose turn in a sweep is over, and which does not end at the break, leaves the swept list with a block of at least that size when the sweep ends |
| Sweeps.SweepAbsorbs | malloc/alloc.c:50-68 | every block of the swept list that is left, and whose turn came, has absorbed the free neighbour it had, exactly that one unless the neighbour had its turn before; turns come in list order until the block at the break is given back |
| Sweeps.SweepAccounts | malloc/alloc.c:45-70 | a free block that a sweep makes disappear is part of one that is left, or was given back |
| Sweeps.SweepLists | malloc/alloc.c:45-70 | lists 15 and 16 lose just the blocks that disappear, and keep their order |
| Sweeps.SweepSweeps | malloc/alloc.c:45-70 | all of that together, and every other free block stays as it is; the break moves down to the start of a block of the list, or not at all |
| Sweeps.FirstMerges | malloc/alloc.c:49-52 | when the first block of the list and its free neighbour together reach some size and do not end at the break, the sweep ends with a block of that size in the list |
| LooseHeaps.ReadableIff | malloc/alloc.c:72-84 | when only the heads of lists 15 and 16 and the sizes in list 15 may be wrong, memory can be read as a heap, in any way at all, iff they are right |
| LooseHeaps.ChainsMeet | malloc/alloc.c:20-25 | two properly linked lists that share a node are the same list |
| LooseHeaps.MergedIsLoose | malloc/alloc.c:170-177 | what a merge in a sweep does to lists, heads and free blocks |
| LooseHeaps.TrimmedIsLoose | malloc/alloc.c:53-66 | what giving back the last block does to them |
| LooseHeaps.TakenSoundIff | malloc/alloc.c:264-269 | taking the best fit out of a list 15 that is not in order sets it right iff that block was the only one too large for it, and not first, and the heads were right |
| HeapMemory.HandedOutDoubles | malloc/alloc.c:238-286 | a request of more than 8 and up to 262144 bytes gets at least what it asked for and less than twice that |
| HeapMemory.MoveComposes | malloc/alloc.c:423-431 | allocating, copying and freeing together reallocate: old bytes kept, other live blocks untouched |
| Layouts.FirstOfIs | malloc/alloc.c:112-124 | the search for the first fit finds what a recursion over the list of blocks finds |
| Layouts.BestOfIs | malloc/alloc.c:126-138 | the search for the best fit finds what a recursion from the end of the list finds: of several smallest blocks the first |
| Layouts.PlacedIs | malloc/alloc.c:257-286 | what a request without a sweep does block by block is a function of the layout |
| Layouts.FreedIs | malloc/alloc.c:304-337 | what freeing does block by block is a function of the layout |
| Layouts.RequestRelease | malloc/alloc.c:238-337 | freeing a new block at once undoes its request if it is large, and otherwise leaves it first in its list; freeing a reused one moves it to the front of its list, unless its right neighbour is free or it is large and last |
| HeapMemory.CopyFreed | malloc/alloc.c:425-428 | freeing the old block does not touch the bytes just copied out of it |
| Allocators.Allocator.GetIndex | malloc/alloc.c:37-43 | the loop finds the size class |
| Allocators.Allocator.RemoveBlock | malloc/alloc.c:72-92 | cuts the node out of its list, which stays properly linked; if it was first, the head of the list of its own size moves, whichever list it was in |
| Allocators.Allocator.AddBlock | malloc/alloc.c:94-110 | links a block in front of the list of its class, changing nothing else |
| Allocators.Allocator.FirstFit | malloc/alloc.c:112-124 | the first free block along the chain from the head of the request's class that is large enough, or none if none is |
| Allocators.Allocator.BestFit | malloc/alloc.c:126-138 | the smallest free block along the chain from the head of the request's class that is large enough, the first of that size, or none if none is |
| Allocators.Allocator.CombineNext | malloc/alloc.c:170-177 | merges exactly when the right neighbour exists and is free; both views agree afterwards |
| Allocators.Allocator.SweepMerge | malloc/alloc.c:50-52 | one merge of a sweep, on lists 15 and 16, their heads and the free blocks exactly as `Merge` says; live blocks untouched |
| Allocators.Allocator.SweepTrim | malloc/alloc.c:53-66 | the last block is unlinked and given back, exactly as `Trim` says; live blocks untouched |
| Allocators.Allocator.SweepList | malloc/alloc.c:45-70 | the loop does to lists, heads and free blocks what the function `SweepFrom` says, whatever it leaves behind; live blocks untouched |
| Allocators.Allocator.BlockCoalescing | malloc/alloc.c:45-70 | every block of the list whose turn comes absorbs its free neighbour, the block that reaches the break is given back and ends the sweep, and no free space is lost; a sweep of list 16 always leaves a heap, a sweep of list 15 memory that can be read as a heap iff it was safe; live blocks untouched in any case |
| Allocators.Allocator.Defragment | malloc/alloc.c:245-254 | which sweeps a request triggers, every seventh request of class 15 among them; they leave a heap iff the sweep of list 15, if there is one, is safe |
| Allocators.Allocator.Malloc | malloc/alloc.c:238-286 | hands out a block that was not live and is large enough, and changes no other live block, even after an unsafe sweep; leaves a heap iff the sweep was safe or the request set it right; after a sweep the request takes a block out of what the sweep left, or moves the break by a new one; a request of class 16 is served without the kernel when the first block of list 16 and its free neighbour suffice; without a sweep the new layout and the pointer are `Layouts.Request` of the old layout; null only for size 0, a refusal by the kernel, or a search beyond the break |
| Allocators.Allocator.Fit | malloc/alloc.c:256-265 | searches only the list of the request's class, best fit from class 5 on; says when the head of that list lies at or beyond the break |
| Allocators.Allocator.Take | malloc/alloc.c:267-269 | the block leaves its list and becomes live; every other block stays as it was |
| Allocators.Allocator.Extend | malloc/alloc.c:273-283 | the break moves up by one live block of the requested size |
| Allocators.Allocator.Free | malloc/alloc.c:304-337 | null, pointers past the break and free blocks are ignored; otherwise the block, with a free neighbour absorbed, is given back iff it is large and last, and is else free and first in the list of its class; every other block and list entry stays as it was, so the new layout is `Layouts.Release` of the old one |
| Allocators.Allocator.Realloc | malloc/alloc.c:384-433 | keeps the first min(old, new) bytes wherever the block ends up, stays put iff the block with its free neighbour is large enough, changes nothing at all when the block alone is, leaves the block intact when refused, and touches no other live block; without a sweep, or when the block stays, the new layout and the pointer are `Layouts.Resize` of the old layout; a null pointer is a plain request, with all that `Malloc` promises |
| Allocators.Allocator.RequestAndCopy | malloc/alloc.c:423-425 | up to the copy, whatever the sweep of the request leaves behind: the new block holds all the bytes of the old one, which is still there, and no other live block has changed |
| Allocators.Allocator.Move | malloc/alloc.c:423-431 | the moving case of a reallocation |
| HeapRuns.Make | malloc/alloc.c:238-433 | one call of a client whose sweep, if any, leaves a heap: what the client has noted of its blocks stays true, with a new note for a request, none for a release, the notes within the new size for a reallocation, and one byte changed for a write |
| HeapRuns.Play | malloc/alloc.c:238-433 | in every run from a new allocator with at most six calls of class 15, every block in use is live, large enough, and holds all that the client last wrote to it |
| CrossingRuns.LayOut | malloc/alloc.c:238-337 | eight requests and three calls of free on a new allocator lay two free blocks of the largest bounded size side by side |
| CrossingRuns.CrossingRun | malloc/alloc.c:248-254 | after them, the seventh large request sweeps list 15 and leaves memory that cannot be read as a heap |
| Graphs.FinishedAppend | deadlock_demolition/libdrm.c:31-33 | a vertex whose neighbours are all finished may be finished next |
| Graphs.FinishedAvoidsCycles | deadlock_demolition/libdrm.c:31-33 | no finished vertex lies on a cycle |
| Graphs.ClosePath | deadlock_demolition/libdrm.c:28-29 | an edge back into the current path closes a cycle |
| Graphs.EdgeToSink | deadlock_demolition/libdrm.c:112-113 | an edge into a vertex without edges closes no cycle |
| Graphs.EdgeClosesIff | deadlock_demolition/libdrm.c:101-103 | in an acyclic graph a new edge closes a cycle iff its target leads back to its source |
| CycleFinders.CycleFinder.DFS | deadlock_demolition/libdrm.c:17-34 | finds only cycles; when it finds none, the start vertex is finished and the current path is as before |
| CycleFinders.CycleFinder.IsCyclic | deadlock_demolition/libdrm.c:36-56 | terminates, and answers yes iff the graph has a cycle |
| Drm.AllocationGraph.TryRequest | deadlock_demolition/libdrm.c:92-107 | the request edge is kept iff the thread does not own the drm and the edge closes no cycle |
| Drm.AllocationGraph.TakeOwnership | deadlock_demolition/libdrm.c:111-114 | turns the request edge into an owner edge and changes no other edge |
| Drm.AllocationGraph.GiveUp | deadlock_demolition/libdrm.c:75-87 | removes the owner edge, and says whether there was one |
| Drm.GrantAcyclic | deadlock_demolition/libdrm.c:112-113 | turning a thread's only request edge round keeps the graph acyclic |
| Drm.StepInv | deadlock_demolition/libdrm.c:73-118 | every step of every thread keeps the protocol's invariant |
| Drm.EveryRun | deadlock_demolition/libdrm.c:73-118 | every interleaving keeps the protocol's invariant |
| Drm.ReachableStates | deadlock_demolition/libdrm.c:73-118 | in every interleaving: the graph is acyclic, a drm has one owner at most, a thread one request at most, and a drm's mutex is held by exactly the thread that owns it or is between lines 110 and 113 |
| Drm.PostUnlocksOwn | deadlock_demolition/libdrm.c:75-87 | a post by the owner unlocks the mutex, which that thread holds, and removes the owner edge; any other post changes nothing |
| Drm.OwnStepsOnly | deadlock_demolition/libdrm.c:73-118 | no step of another thread changes whether a thread holds or owns a drm: both come by its own lock and grant alone, and go by its own post of that drm alone |
| Drm.RefusedIff | deadlock_demolition/libdrm.c:97-109 | a wait is refused iff the drm already leads to the thread through owners and requests, and a refusal leaves no trace in the graph |
| Drm.RefusedRun | deadlock_demolition/libdrm.c:92-107 | such a wait, taken by itself, returns with the state as it was |
| Drm.GrantedRun | deadlock_demolition/libdrm.c:92-115 | a wait for a drm whose mutex is free is granted: taken by itself it returns with the thread owning the drm, and nothing else changed |
| Drm.PostRun | deadlock_demolition/libdrm.c:73-87 | a post, taken by itself, frees the drm if its thread owns it, and otherwise changes nothing |
| Drm.FollowWaits | deadlock_demolition/libdrm.c:102-110 | from a blocked thread, following who holds what ends at a thread that is not blocked |
| Drm.NoCircularWait | deadlock_demolition/libdrm.c:102-110 | in every reachable state every chain of waits ends at a thread not blocked on any drm |
| Drm.CallsProgress | deadlock_demolition/libdrm.c:75-115 | while a thread is inside a call and not blocked, a step of some call can be taken |
| Drm.NoDeadlock | deadlock_demolition/libdrm.c:75-115 | in every reachable state in which all threads are inside calls, one of the calls can go on |
| Pages.DistinctFrames | ideal_indirection/mmu.c:40-66 | two directories, tables or pages in memory never share a frame |
| Pages.EvictUnnoticed | ideal_indirection/mmu_test.c:220-245 | a page that goes to disk changes no process's memory and no table |
| Pages.TableAdded | ideal_indirection/mmu.c:41-49 | a new table leaves every other place and all ownership right |
| Pages.TableAddedData | ideal_indirection/mmu.c:41-49 | a new table shows only pages of zeros, and changes no page |
| Pages.PageLoaded | ideal_indirection/mmu.c:57-65 | bringing a page in leaves tables and ownership right |
| Pages.PageLoadedData | ideal_indirection/mmu.c:57-65 | a page that comes back in is the page that went out, and one never seen is zero |
| Pages.BytesWritten | ideal_indirection/mmu.c:139-141 | storing to a page in memory changes that page of that process alone |
| Pages.ProcessAdded | ideal_indirection/mmu.c:160-164 | a new directory leaves every process's memory as it was |
| Pages.ProcessRemoved | ideal_indirection/mmu.c:235-265 | a process that goes takes its memory along and nobody else's; ownership stays exact |
| Mmus.LayoutAllows | ideal_indirection/mmu.c:170-214 | exactly which addresses a new process may write, and which it may read |
| Mmus.AccessAllowed | ideal_indirection/mmu.c:76-95 | an access whose first address is allowed, and which stays in its page, is allowed at every address |
| Mmus.PagesDiffer | ideal_indirection/mmu.c:38-54 | two pages with the same directory and table index are the same page |
| Mmus.CacheStays | ideal_indirection/mmu.c:68 | cached entries stay the ones the walk finds while tables stay in place, whatever happens to frames |
| Mmus.CacheOfOther | ideal_indirection/mmu.c:258-264 | removing another process leaves the cache right |
| Mmus.StoreShows | ideal_indirection/mmu.c:140-141 | a store within a page is a store to those addresses of that process's flat memory, and to no other |
| Mmus.Mmu.Evict | ideal_indirection/mmu_test.c:220-245 | what the kernel does to a page it evicts |
| Mmus.Mmu.WalkTables | ideal_indirection/mmu.c:37-54 | finds the entry of a page, adding the table with one page fault iff it was missing |
| Mmus.Mmu.FindEntry | ideal_indirection/mmu.c:31-55 | the entry of a page from the TLB or by the walk, one miss iff it was not cached |
| Mmus.Mmu.MakePresent | ideal_indirection/mmu.c:57-66 | makes the page present and accessed, with one page fault iff it was not present, and all rights only then; no other flag changes |
| Mmus.Mmu.GetTableEntry | ideal_indirection/mmu.c:29-70 | the present entry that the walk for the current process gives, changed only by having been used; exact counts of misses and faults; no memory changes; the cache stays right |
| Mmus.Mmu.Read | ideal_indirection/mmu.c:72-106 | a permitted read copies the process's flat memory, another counts a segmentation fault and copies nothing; counts of misses and faults are exact; the entry of the page counts as accessed, and no more dirty than before |
| Mmus.Mmu.Write | ideal_indirection/mmu.c:108-144 | a permitted write changes exactly the bytes written, of that process, and marks the entry of the page dirty; another changes nothing at all |
| Mmus.Mmu.AddProcess | ideal_indirection/mmu.c:158-233 | a new process has zeroed memory, its first table, its two test pages in memory (the first possibly on disk by then), and the usual segments; no other memory changes |
| Mmus.Mmu.RemoveProcess | ideal_indirection/mmu.c:235-265 | returns every frame of the process, each once, and no other; deletes its swap files and no other; flushes the TLB iff it was the current process |
| Mmus.Mmu.ReturnFrames | ideal_indirection/mmu.c:240-255 | the loops hand back exactly the frames that serve the process |
| Mmus.Mmu.Delete | ideal_indirection/mmu.c:267-274 | with the last process gone the kernel has every frame back and no swap file is left |
| FlatMemory.LastStored | ideal_indirection/mmu_test.c:100-132 | in a run on flat memory, a byte is what its own process last stored there |
| FlatMemory.LoadsLastStored | ideal_indirection/mmu_test.c:54-82 | in a run on flat memory, a permitted load returns the bytes that the same process last stored there |
| FlatMemory.Untouched | ideal_indirection/mmu_test.c:100-132 | in a run on flat memory, a byte changes only by its own process's stores to it |
| FlatMemory.Serve | ideal_indirection/mmu.c:72-265 | each call on the unit answers and acts as on flat memory |
| FlatMemory.ServeAll | ideal_indirection/mmu.c:72-265 | over every run of calls, the answers are those of flat memory |
| FlatMemory.Create | ideal_indirection/mmu.c:12-16 | a new unit stands for the memory of no process |
| FlatMemory.ServeFromCreation | ideal_indirection/mmu.c:12-265 | from its creation on, over every run of calls, the unit answers as flat memory does |
| Parmake.Make.DfsCycle | parallel_make/parmake.c:95-128 | reports only real cycles, marks only targets that can reach one, and otherwise finishes the target, as far as unmarked dependencies go |
| Parmake.Make.Explore | parallel_make/parmake.c:112-127 | the search proper, from a target neither finished nor on the path |
| Parmake.Make.CheckCycles | parallel_make/parmake.c:47-65 | `cycle` is set iff the dependencies, without the "" vertex, have a cycle, although marks are shared by all searches; every cycle has a marked target on it |
| Parmake.ReachFurther | parallel_make/parmake.c:119-122 | a target that depends on one reaching a cycle reaches it too |
| Parmake.Make.DfsTopologicalOrder | parallel_make/parmake.c:130-142 | terminates on acyclic dependencies and lists the target after all of its dependencies |
| Parmake.Make.PathFits | parallel_make/parmake.c:136-138 | the recursion is no deeper than there are targets |
| Parmake.Make.BuildOrder | parallel_make/parmake.c:69-73 | every real target is listed exactly once, after its dependencies |
| Parmake.Make.Analyse | parallel_make/parmake.c:47-73 | either a cycle is reported, there is one, and every cycle has a marked target, or the build order is complete and right |
| Monitor.StepInv | critical_concurrency/queue.c:79-106 | every step keeps mutual exclusion, the meaning of the shared data, and that whoever sleeps has to wait |
| Monitor.EveryRun | critical_concurrency/queue.c:77-128 | in every interleaving no wakeup is lost and the data is what the operations give one after the other |
| Monitor.EveryCall | critical_concurrency/queue.c:79-106 | in every interleaving each thread's operations take effect in the order of its calls, each exactly once, and an operation returns only when it has taken effect |
| Monitor.OneTurn | critical_concurrency/queue.c:79-106 | a thread that finds the mutex free takes effect, wakes all sleepers and returns if its guard is true, and else goes to sleep with nothing changed |
| Monitor.Progress | critical_concurrency/queue.c:79-106 | while an operation is under way and awake, a step can be taken |
| BoundedQueue.Queue.constructor | critical_concurrency/queue.c:36-53 | a new queue is empty |
| BoundedQueue.Queue.Push | critical_concurrency/queue.c:85-104 | the linked list gains the element at its end |
| BoundedQueue.Queue.Pull | critical_concurrency/queue.c:115-123 | the linked list loses its first element, and is right even though `tail` is left stale |
| BoundedQueue.Transfer | critical_concurrency/queue.c:77-128 | what was pulled followed by what is queued is what was pushed, and the bound holds |
| BoundedQueue.EveryQueueRun | critical_concurrency/queue.c:77-128 | the same in every interleaving; a pusher sleeps only at the bound, a puller only on an empty queue |
| BoundedQueue.Replay | critical_concurrency/queue.c:85-123 | the operations of a run, done one after the other on the linked list, leave the contents that the run shares and return what its pulls returned |
| BoundedQueue.NotBothAsleep | critical_concurrency/queue.c:80-113 | a pusher and a puller are never asleep together |
| Semaphores.Accounting | critical_concurrency/semamore.c:31-60 | the value is the initial one plus posts minus waits, between 0 and the maximum |
| Semaphores.EverySemaphoreRun | critical_concurrency/semamore.c:31-60 | the same in every interleaving; a wait sleeps only at 0, a post only at the maximum |
| Semaphores.Semamore.Wait | critical_concurrency/semamore.c:36-39 | decrements a value other than 0, staying in range |
| Semaphores.Semamore.Post | critical_concurrency/semamore.c:54-57 | increments a value other than the maximum, staying in range |
| Semaphores.Replay | critical_concurrency/semamore.c:31-60 | the operations of a run, done one after the other on the struct, leave the value that the run shares |
| Cracker.StepInv | password_cracker/cracker1.c:62-110 | every step keeps one NULL, last in the queue or held by one worker, and the tasks in order before it |
| Cracker.EveryRun | password_cracker/cracker1.c:38-110 | the same in every interleaving; nobody has exited while tasks remain |
| Cracker.NoDeadlock | password_cracker/cracker1.c:65-109 | while some worker has not exited, some worker can take a step |
| Cracker.FinalState | password_cracker/cracker1.c:50-66 | when all workers have exited, every task was pulled and worked on once, in order, and the queue is one NULL |
| Cracker.WorkedPulled | password_cracker/cracker1.c:65-105 | over every run the tasks that workers begin to work on are exactly those pulled, in the order of the pulls |
| Cracker.BudgetDecreases | password_cracker/cracker1.c:65-109 | every step but a spurious wakeup brings the end nearer |
| Cracker.RunsEnd | password_cracker/cracker1.c:50-109 | every run is no longer than a bound fixed at its start and two steps more for each spurious wakeup |
| CrackerQueue.Refines | password_cracker/cracker1.c:65-109 | each step of a worker on the queue's monitor is a step of the protocol in which a queue operation is one step, or none |
| CrackerQueue.EveryRun | password_cracker/cracker1.c:38-110 | every run of the workers on the queue's monitor is a run of that protocol with the same pulls and the same queue |
| CrackerQueue.FinalState | password_cracker/cracker1.c:50-110 | so when all workers are done, every task was pulled and worked on once, in order, and the queue is one NULL |
| CrackerQueue.WorkedPulled | password_cracker/cracker1.c:65-105 | the same on the queue's monitor |
| CrackerQueue.MonitorRuns | critical_concurrency/queue.c:77-128 | what the queue goes through in such a run is a run of its monitor |
| Barrier.StepInv | critical_concurrency/barrier.c:32-46 | every step keeps the barrier's invariant |
| Barrier.LastArrives | critical_concurrency/barrier.c:41-45 | the last arrival completes the round and releases every waiter |
| Barrier.EveryRun | critical_concurrency/barrier.c:32-46 | in every interleaving: `left` counts the times a thread returned, and nobody has returned from a round that somebody has not entered, `count` counts the waiters not released, and a waiter is at most one round behind |
| Barrier.StepCounts | critical_concurrency/barrier.c:32-46 | `left` grows exactly when a thread comes out of barrier_wait, and a thread is counted in by its own arrival alone |
| Barrier.NobodyReturnsEarly | critical_concurrency/barrier.c:32-46 | in every interleaving nobody has returned more often than any thread has arrived, let alone called; a thread outside has returned from all its calls |
| Barrier.LeavesIffComplete | critical_concurrency/barrier.c:37-39 | the equality test lets a waiter go iff its round is complete |
| Barrier.NeverAllAsleep | critical_concurrency/barrier.c:35-46 | when all threads have come to the barrier, one of them can move on |
| Barrier.RoundEnds | critical_concurrency/barrier.c:32-46 | once all threads have called, and until the next call, the round takes at most seven steps for each thread and three for each spurious wakeup, and is never stuck before all have returned from it |
| ParReduce.ReduceConcat | teaching_threads/par_reduce.c:54-63 | reducing two parts, the second not empty, and combining them is reducing the whole, for an associative reducer whose base case may come up again |
| ParReduce.ThreadSize | teaching_threads/par_reduce.c:75-94 | the sizes add up to the length, differ by one at most, and the non-empty ones come first |
| ParReduce.AssignWork | teaching_threads/par_reduce.c:35-46 | the first `num` threads get consecutive parts of the list |
| ParReduce.RunThreads | teaching_threads/par_reduce.c:50-61 | each busy thread's result is the reduction of its part |
| ParReduce.ReduceParts | teaching_threads/par_reduce.c:54-63 | reducing the results of the first parts is reducing the list up to there |
| ParReduce.AllParts | teaching_threads/par_reduce.c:63 | reducing all results is reducing the list |
| ParReduce.ParallelReduce | teaching_threads/par_reduce.c:26-73 | computes the reduction of the reductions of the non-empty parts, for every reducer; that is the sequential reduction, for every list and number of threads, when the reducer is associative and the base case may come up again |
| ParReduce.AgreesIff | teaching_threads/par_reduce.c:26-73 | for an associative reducer, parallel and sequential reduction agree on all lists and numbers of threads iff the base case may come up again in the middle without changing the result |
| ParReduce.IdentityRegroups | teaching_threads/par_reduce.c:26-73 | a right identity may come up again |
| ParReduce.SumTwice | teaching_threads/par_reduce.c:26-73 | summing 5 and 7 from 1 gives 13, with two threads 15 |
| Framing.Socket.Read | charming_chatroom/user_hooks.c:15-30 | one read moves at least one byte if it can, or is interrupted, or fails |
| Framing.Socket.ReadAll | charming_chatroom/utils.c:40-73 | fills the buffer with the next bytes of the stream, up to its end; -1 only when a read fails |
| Framing.Socket.WriteAll | charming_chatroom/utils.c:75-108 | writes the whole buffer; -1 only when a write fails, after a prefix |
| Framing.OrderRoundTrip | charming_chatroom/utils.c:31-36 | a size survives network order, truncated to 32 bits |
| Framing.BigEndian | charming_chatroom/utils.c:35-36 | the first byte of a size on the wire counts most |
| Framing.WriteMessageSize | charming_chatroom/utils.c:35-38 | sends four bytes that spell the size, most significant first, or fails |
| Framing.GetMessageSize | charming_chatroom/utils.c:24-32 | the size that the next four bytes of the stream spell, most significant first; 0 at the end of the stream, -1 when a read fails |
| Framing.FramesInjective | charming_chatroom/utils.c:24-38 | no two sequences of messages look the same on the wire |
| Framing.SendMessage | charming_chatroom/client.c:133-138 | one frame goes out, unless a write fails |
| Framing.ReceiveMessages | charming_chatroom/client.c:163-174 | a stream of frames is taken apart into exactly its messages |
| Framing.Transfer | charming_chatroom/utils.c:24-108 | messages arrive unchanged and in order under every fragmentation and any finite number of interruptions |

## Left out

- Malloc: memory is unbounded and sizes do not overflow `size_t`; pointers are not aligned by the program, and alignment is not modelled; the `defrag` counter is unbounded. When `lost` is true the program reads memory it has given back, and nothing is modelled beyond that point. Calls on memory that is no heap are not modelled.
- Realloc: when it has to move a block, the request in the middle must leave a heap (`LeavesHeapAfterMerge`, exactly as for `Malloc`); otherwise the program goes on to free the old block through list heads that may be wrong, and that is not modelled. `RequestAndCopy` says what holds up to the copy in any case.
- Move: requires the same of its request (`LeavesHeap`), for the same reason.
- Free: a pointer must be null, past the break or one handed out; what the code does with other pointers is not modelled.
- Splitting a block: as it is called, `block_splitting` always returns at line 144 or 145, and `BlockSplitting` shows that; its other lines are never reached.
- `calloc`: malloc and a loop of zeros.
- TryRequest: null or unknown drms, for which `drm_wait` returns while it holds the global mutex, are excluded; every drm is live. `drm_destroy` is not modelled.
- GetTableEntry: `mmu.h` is not part of this model, so the number of pages per directory entry is a power of two up to 1024, and the directory index of an accessible address is required to be in range.
- AddProcess: the process must not be live; adding a live one again leaks its frames.
- Read: the permission check at line 92 uses `&&`, so any permission at all allows reading; the model follows the code. As in the code, only the first address of an access is checked against the segments. `find_segment` is taken to look for the segment that contains the address.
- AskKernelForFrame: the kernel's frames, the swap files and the TLB are abstract: a frame handed out is zeroed and unused, an evicted page is saved under its entry, and frames never run out.
- DfsTopologicalOrder: `shallow_set` compares pointers; the model identifies a target with its name. The claim is about the order of insertion, since what `set_elements` returns is not known.
- Running the commands of a makefile, with file times and worker threads (`worker_function`, `get_target_status`).
- Push: allocation failure in `queue_push` is not modelled; neither is `queue_destroy`.
- Semaphores start within their range; null semaphores are ignored by the code and not modelled.
- Barrier.EveryRun: the number of threads is exactly the one it was initialised with, and the value returned, which is read after unlocking, is not modelled.
- Cracker: the tasks are in the queue before the workers start, as in the code; hashing, timing and the summary are left out, and so is the other cracker, which does not use the queue.
- RunThreads: threads run one after the other, since each writes only its own result; thread creation does not fail. `reduce` is taken to be the left fold from the base case.
- GetMessageSize: with one to three bytes before the end of the stream the code returns an arbitrary size, and so does the model.
- ReceiveMessages: the connection is not closed within a frame, and no message is empty, because an empty one ends the loop.
- The scheduler, the file system, the shell, the network programs and the data-structure exercises.
