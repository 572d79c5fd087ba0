# A Lisp on the Boehm collector, verified

The repository is a small Lisp machine (`src/`) that runs on the Boehm conservative
garbage collector (`lib/bdwgc/`). This project models the parts of both whose
correctness is not plain from reading one function, and proves what they promise.
`dafny verify dfyconfig.toml` checks everything.

## The collector

* **Marking** (`Graphs`, `Kinds`, `GcHeap`, `MarkRun`, `Mark`). A heap of words in blocks
  of objects, roots in static data and on stacks, and `GC_mark_some` as a class that is
  stepped: a state machine over a mark stack of bounded size. When the stack overflows
  entries are thrown away, and the heap is searched for marked objects again. A mark phase
  terminates and marks exactly what is reachable, however often that happens. `MarkRun`
  says as functions what marking from the stack does, and so which heaps overflow it.
* **Whole runs** (`Client`, `Collect`). A client holds genuine pointers among arbitrary
  words. Collections that complete, with finalization, or are abandoned, lazy sweeps,
  allocations, stores and changes of the roots follow each other in any order, and what
  the client can reach is never on a free list and never about to be freed.
* **Heap blocks** (`FreeLists`, `BlockMap`, `BlockShape`, `BlockAlloc`). Segregated,
  doubly linked lists of free blocks, best-effort first fit, splitting around
  black-listed blocks, coalescing and byte counters. Blocks tile the heap, the lists hold
  exactly the free blocks, used and free bytes add up, neighbours are never both free, and
  allocation is sound and complete.
* **The index of headers** (`HeaderIndex`, `IndexedHeap`, `Traverse`). Bottom indices with
  headers and capped forwarding counts agree with the map of blocks, and go on to agree
  with it when blocks are freed and merged, cut, dropped and added; the traversal of all
  blocks survives a callback that frees blocks.
* **Finalization** (`Finalize`). The two passes over the hash table of registered objects,
  and disappearing links.
* **Stopping the world** (`Sets`, `StopWorld`) and **parallel marking** (`ParallelMark`,
  `ParallelEnds`, `ParallelRoom`) are systems of steps that interleave freely; the theorems
  are about all runs. Stopping and restarting the world come to an end under every schedule
  that does not starve their steps, parallel marking under every schedule. Parallel marking
  drops entries exactly where there is no room for them, and `ParallelRoom` says how large
  the stacks have to be for that never to happen.
* **The size map** (`SizeMap`).

## The Lisp

* **Reader and printer** (`Sexprs`, `Syntax`, `Reader`). `Parse` says what a text reads
  as; the reader with its lookahead is proved to follow it.
* **Analyzer** (`Analyzer`). Scopes find out what a lambda captures while its body is
  analysed.
* **Evaluator** (`Lisp`, `Evaluator`, `Closures`). `Eval` is the meaning of analysed code,
  with flat closures as in the interpreter or with closures that keep their whole
  environment, the reference. `fuel` bounds the depth of calls and nothing else; running
  out of it is an outcome of its own. `BigStep` and `Failures` have the values and the
  errors of programs as rules, independent of `Eval`, and the proofs that it agrees with
  them; `Programs` proves what the Fibonacci programs of the repository's tests compute,
  for every argument.
* **Inliner** (`Inliner`) and the **read-eval-print loop** (`Session`). `Samples` has
  functions that the repository's tests define, each under the name it carries itself, as
  a recursive function must be; the theorems on closures, sessions and inlining cover them.

## What turned out differently

* An overflow of the mark stack while the descendants of a registered object are marked
  makes the collector mark that object as well, so that it is not queued for
  finalization although nothing refers to it: `Finalize.OverflowHides` has such a heap for
  every size of the stack. `Finalize.MarkFo` overflows exactly if the marking, run on the
  state before the call, does; it cannot when the stack has room for every unmarked
  object, and then the queue is exactly right.
* Two markers may steal the same entry, and each may return it, to a global stack whose
  places are not used again while marking. So the room that a run needs grows with the
  number of such thefts: `ParallelRoom.RoomIsEnough` is proved for any bound on it.
* A function is applied in the environment of its caller. A local variable there can hide
  a global from it, and so can the name that a function gives itself, if its global has
  another name or has been redefined: `Closures.ShadowingBreaks`, `Closures.OwnNameBreaks`.
  `Closures.FlatMeansDeep` is proved where a local may have the name of a global that is
  used only if it is that global, a function under its own name.
* The inliner ignores captures, the callee's own name, arity and shadowing, rebuilds a
  changed `let*` as a `let`, and looks for callees in the environment of the caller that
  happens to trigger the compilation. For each there is a program whose meaning it changes.
  A callee's own name does no harm where it is the name of its global.
* A comment without a final newline makes the reader loop for ever at the end of the text.
  `Syntax.HangsExactly` says on which texts, by a pass that only counts open lists; none
  of them has a newline behind every semicolon.
* Negative numbers print as text that reads as a symbol; integers beyond the range of a
  long saturate. `Syntax.ReaderUndoesPrinter` says exactly which expressions come back.

## Assumptions

* Configuration: not incremental, no unmapping, no disclaim, no leak detection, all
  interior pointers recognized, one mark byte for each object. Descriptors are lengths and
  bitmaps. Static roots take no more than half of the initial mark stack, as its initial
  size is meant to allow. Memory for headers and tables is there when asked for.
* Block addresses and lengths count heap blocks of 4096 bytes; no block is so large that
  its size has the sign bit. The black list is a set of block addresses.
* Signals are not lost and not retried; the stop count does not wrap around. Steps of
  different threads are sequentially consistent, and what happens under a lock is one step.
* The sum or difference of two numbers that is no long is undefined, as overflow is in C++.
* Texts contain no NUL character. Native functions cannot tell corresponding values apart.

## Model

| member | source | states |
|---|---|---|
| `Mark.Marker.PushEntry` | lib/bdwgc/mark.c:598-613 | A push succeeds when there is room; otherwise the top entries are thrown away, the mark state becomes invalid and the stack is remembered as too small. |
| `Mark.Marker.PushContents` | lib/bdwgc/include/private/gc_pmark.h:264-361 | Exactly what the word refers to is newly marked, and pushed if it holds pointers, as `MarkRun.Touch` says; whatever the caller has still to scan stays covered; the state becomes invalid exactly when the stack was full and a new object was to be pushed. |
| `Mark.Marker.ScanRange` | lib/bdwgc/mark.c:814-892 | Scanning a range with the downward search for the last plausible word, which is deferred and pushed after all the others, covers every word of the range and leaves exactly the marks and the stack that touching its words in order leaves. |
| `Mark.Marker.FindDeferred` | lib/bdwgc/mark.c:822-856 | The deferred word may be a heap address; every word of the range behind it refers to nothing. |
| `Mark.Marker.ScanBitmap` | lib/bdwgc/mark.c:718-751 | Every word whose bit is set in a bitmap descriptor is scanned, and nothing outside them is owed. |
| `Mark.Marker.MarkTop` | lib/bdwgc/mark.c:654-896 | One entry, or the first part of a long one with the rest left on the stack, is scanned: marks, stack and overflow are those of one round of `MarkRun`; the work on the stack shrinks or a new object is marked. |
| `Mark.Marker.MarkFrom` | lib/bdwgc/mark.c:630-896 | A call ends, keeps everything that was covered covered, makes progress, and does exactly some number of rounds of `MarkRun`; only a newly marked object comes with an overflow. |
| `Mark.Marker.PushMarked` | lib/bdwgc/mark.c:1840-1893 | When the stack has room for the objects of one block, every marked object of the block is pending afterwards and nothing overflows. |
| `Mark.Marker.PushNextMarked` | lib/bdwgc/mark.c:1956-1971 | The next block in use at or above the scan pointer is handled and the pointer moves behind it; null exactly means that all blocks are done and the pointer is back at the start. |
| `Mark.Marker.PushNextMarkedUncollectable` | lib/bdwgc/mark.c:2017-2046 | The same for the next block of uncollectable objects; blocks of other kinds are skipped. |
| `Mark.Marker.PushAll` | lib/bdwgc/mark.c:1335-1354 | The whole range is pending; with room on the stack nothing overflows. |
| `Mark.Marker.PushAllEager` | lib/bdwgc/mark.c:1572-1595 | What the words of the range refer to is marked and pending, or the state is invalid and a new object was marked. |
| `Mark.Marker.PushRoots` | lib/bdwgc/mark_rts.c:889-957 | Every static range and every stack is covered, or the state is invalid and a new object was marked. |
| `Mark.Marker.MarkSome` | lib/bdwgc/mark.c:306-427 | Every state keeps its promise: with valid roots all marked objects and roots are covered, in the partially invalid state the blocks below the scan pointer, in the invalid state nothing. TRUE means that exactly the objects reachable from the roots and the uncollectable marked objects are marked. Otherwise a lexicographic measure went down. The stack doubles exactly at the two places where the marker asks for it and memory is there. |
| `Mark.Marker.MarkToCompletion` | lib/bdwgc/alloc.c:796-821 | A mark phase that is not stopped terminates however often the stack overflows, and marks exactly what is reachable. |
| `Mark.Marker.ClearMarks` | lib/bdwgc/mark.c:239-245 | The marks of uncollectable objects stay, all others go, and marking may start from scratch. |
| `Mark.Marker.InitiateGc` | lib/bdwgc/mark.c:249-270 | A collection starts with the scan pointer at the beginning. |
| `Mark.MarkedIsReached` | lib/bdwgc/mark.c:368-391 | With an empty stack and everything covered the marked objects are exactly the reachable ones. |
| `Mark.DoneAdvances` | lib/bdwgc/mark.c:1956-1971 | Moving the scan pointer over a block that was handled extends the promise of the partially invalid state to that block. |
| `MarkRun.RoomIsEnough` | lib/bdwgc/mark.c:598-896 | Marking cannot overflow a stack that has room for what is on it and for every unmarked object, whatever the heap looks like. |
| `MarkRun.OverflowsAtEnd` | lib/bdwgc/mark.c:598-613 | Whether marking overflows the stack at any time is known when the stack is empty. |
| `MarkRun.SpineOverflows` | lib/bdwgc/mark.c:598-613 | For every size of the stack there is a heap, a list as long as the stack, whose marking overflows it. |
| `Collect.Collector.ReachableIsSafe` | lib/bdwgc/reclaim.c:390-474 | In every state between operations, what the client can reach are objects of the heap, on no free list, and no sweep still to come will free them. |
| `Collect.Collector.ReclaimObjects` | lib/bdwgc/reclaim.c:151-222 | A sweep puts exactly the unmarked objects of a block on the list, the last first, each once, clears them and changes no other word. |
| `Collect.FreeOfExact` | lib/bdwgc/reclaim.c:151-222 | The list that a sweep builds holds every unmarked object of the block once and no marked one. |
| `Collect.SweptOfExact` | lib/bdwgc/reclaim.c:343-359 | What the sweep of the first n blocks of a queue finds are exactly the unmarked objects of those of them that are not passed over. |
| `Collect.Collector.ReclaimSmall` | lib/bdwgc/reclaim.c:343-359 | The block's free objects join the free list of its class, its uncollectable objects are marked again, and the client stays safe. |
| `Collect.Collector.ContinueReclaim` | lib/bdwgc/reclaim.c:688-704 | Blocks leave the front of the queue of the class, and of each that does every unmarked object, found with the marks at the start, is on the free list now, once, in front of what was there; it ends with a free object exactly if there was one or some queued block has an unmarked object, and no block is swept after the first that has one. |
| `Collect.Collector.ReclaimAll` | lib/bdwgc/reclaim.c:715-765 | Each call of the stop function may end it; otherwise no block waits to be swept any more. However far it got, for every class the blocks that left the queue are the first ones, and the free list has grown by exactly the unmarked objects of those that were swept; blocks not swept in the last collection are passed over if old blocks are to be ignored. The client stays safe. |
| `Collect.Collector.DisposeNext` | lib/bdwgc/reclaim.c:738-750 | The first block queued for a class leaves the queue; it is swept into the free list unless it is old and old blocks are ignored. |
| `Collect.Collector.ReclaimBlock` | lib/bdwgc/reclaim.c:390-474 | A block without marks is given back, a nearly full one is left alone, any other is queued for its class. |
| `Collect.Collector.StartReclaim` | lib/bdwgc/reclaim.c:627-681 | The free lists are dropped and every block is dealt with: after it, only blocks queued or left alone, whose marks are those of the finished mark phase. |
| `Collect.Collector.ClearFlMarks` | lib/bdwgc/alloc.c:963-1001 | No object on a free list stays marked, and no other mark changes. |
| `Collect.Collector.StoppedMark` | lib/bdwgc/alloc.c:742-883 | FALSE, possible only if the stop function may fire, leaves the marks unfinished, with at least those from the start; TRUE means that exactly the reachable objects are marked. |
| `Collect.Collector.FinishCollection` | lib/bdwgc/alloc.c:1026-1172 | After a complete mark phase: finalization, and then the start of the sweep. Exactly the blocks that hold a marked object not on a free list are kept, the marks are those of the marking and of what finalization queued but for the objects that were free, and of the blocks kept exactly those of small objects that are not nearly full wait for a sweep. The queue of finalization and its tables, the weak links and the words of memory are what finalization makes of them; with room on the mark stack for every unmarked object the queue gets exactly the objects that are due. |
| `Collect.WorthwhileFinds` | lib/bdwgc/reclaim.c:453-470 | A block that is queued because it is not nearly full has an unmarked object for the sweep to find. |
| `Collect.Collector.RunFinalizers` | lib/bdwgc/alloc.c:1077-1078 | Finalization between the mark phase and the sweep, from the marks of the mark phase: the queue gets what `Finalize.Finalizer.Finalize` says, and the client keeps the objects it has that are marked now, queue included; its marks are closed again. |
| `Collect.Collector.AliveIsSafe` | lib/bdwgc/reclaim.c:390-474 | What is reached through any objects that the client may still have, such as those of the finalization queue, is on no free list, and no sweep to come will free it. |
| `Collect.Collector.MarkStopped` | lib/bdwgc/alloc.c:550-583 | All marks but those of uncollectable objects go; if the marking is given up the lists and the client are as safe as before, and if not exactly the reachable objects are marked. |
| `Collect.Collector.TryToCollect` | lib/bdwgc/alloc.c:512-598 | A collection that completes, as it does unless the stop function fires, has marked exactly what is reachable, queued the finalizers that are due, given back every block without a marked object and queued every small block that is not nearly full, so that each of its unmarked objects waits for a sweep; blocks that waited for one before the collection have been swept first if it may be stopped. An abandoned one has done no more than such sweeps. Either way the client stays safe: no sweep ever reads the marks of an unfinished phase, the tables of registered objects hold only what the client may still have, and nothing the client sees changes but weak links, which become null. |
| `Collect.Collector.MarkAndFinish` | lib/bdwgc/alloc.c:550-583 | From the first mark to the last queued block: the course of the collection is that of `TryToCollect` from the heap and the marks it is given; given up, it changes nothing but marks. |
| `Collect.Collector.AllocObj` | lib/bdwgc/alloc.c:1548-1595 | Allocation returns an object exactly if the free list had one or some block queued for the class has an unmarked object. It sweeps no block behind the first that has one, and nothing if the list was not empty; every unmarked object of a swept block is on the free list or is the one returned, which was unreachable and is on no list any more, and clear if the class wants it so. |
| `Collect.Collector.NewHblk` | lib/bdwgc/new_hblk.c:109-191 | A new block's objects are all on the free list of its class and the client stays safe. |
| `Collect.Collector.AllocLarge` | lib/bdwgc/malloc.c:38-81 | A large object belongs to the client and its block is in no list. |
| `Collect.Collector.Store` | lib/bdwgc/mallocx.c:630-635 | Whatever the client writes, a pointer it has or any other word, keeps it safe. |
| `Collect.Collector.SetRoots` | lib/bdwgc/mark_rts.c:152-160 | Roots may come and go between operations. |
| `Client.MarkedStayAlive` | lib/bdwgc/mark.c:306-427 | Marks that are closed under everything that looks like a pointer hold at least what a client can reach through genuine pointers. |
| `Finalize.QueuedExactly` | lib/bdwgc/finalize.c:1018-1082 | A dead registered object is queued if and only if no dead registered object, itself included, reaches it through one or more pointers and marking its own descendants did not overflow the mark stack. |
| `Finalize.QueueIsExact` | lib/bdwgc/finalize.c:1018-1082 | Without an overflow the queue gets exactly the registered unmarked objects that no registered unmarked object, itself included, reaches through one or more pointers. |
| `Finalize.OverflowHides` | lib/bdwgc/include/private/gc_pmark.h:435-442 | For every size of the mark stack there is a heap with a registered object that nothing refers to and that is not queued: marking what it refers to overflows the stack, and so marks the object too. |
| `Finalize.QueueBlocked` | lib/bdwgc/finalize.c:1018-1034 | A path of pointers from a dead registered object keeps its target off the queue. |
| `Finalize.BucketOrderIrrelevant` | lib/bdwgc/finalize.c:1018-1082 | Which registered objects are due depends neither on the order of the buckets nor on that of the chains. |
| `Finalize.MarkFo` | lib/bdwgc/include/private/gc_pmark.h:435-442 | Everything that the object refers to, and all that reaches, ends up marked; the object itself when it reaches itself or after an overflow, which happens exactly if running the marking on the state before the call overflows the stack. |
| `Finalize.Finalizer.MarkDescendants` | lib/bdwgc/finalize.c:1018-1034 | After the first pass exactly the closure of the old marks, of the successors of the dead registered objects and of those of them in over is marked. over is known exactly: the entries are taken in the order of the table, and one is in over if it is still unmarked and running its marking on the marks so far overflows a stack of the current size, which changes at such an entry only. With room for every unmarked object over is empty. |
| `Finalize.Finalizer.EnqueueUnreachable` | lib/bdwgc/finalize.c:1035-1082 | The second pass moves the still unmarked registered objects to the front of the queue, in the order met, leaves all other chains as they were, and marks what it queues. |
| `Finalize.Finalizer.Finalize` | lib/bdwgc/finalize.c:995-1164 | The queue gets, in front, the registered objects outside the closure of the old marks, of what dead registered objects refer to and of the objects whose marking overflows the stack, which is the exact set that the first pass gives on the heap without the cleared short links; these and the closure are marked, the table keeps the others, and short and long links are cleared and removed as far as their objects or their places are unmarked. If the mark stack has room for every unmarked object, which can be seen before the call, the queue gets exactly the objects that are due. |
| `Finalize.Finalizer.MakeLinksDisappear` | lib/bdwgc/finalize.c:943-990 | Exactly the links to unmarked objects are cleared and removed, or exactly the links that lie in unmarked objects are removed. |
| `Finalize.ClearedMemAt` | lib/bdwgc/finalize.c:943-990 | Exactly the words that hold a link to an unmarked object become null. |
| `Finalize.GrowTable` | lib/bdwgc/finalize.c:112-167 | Rehashing into twice as many buckets keeps all entries, each in the bucket of its hash value. |
| `FreeLists.FlMonotone` | lib/bdwgc/allchblk.c:84-91 | Larger blocks never go to earlier lists, and below the threshold a list holds one size. |
| `FreeLists.ListIsBin` | lib/bdwgc/allchblk.c:300-388 | Following the next links from the head of a list meets exactly the free blocks that belong to the list, each once. |
| `FreeLists.UnlinkKeeps` | lib/bdwgc/allchblk.c:300-320 | Unlinking a block keeps every list well linked in both directions. |
| `FreeLists.LinkKeeps` | lib/bdwgc/allchblk.c:359-388 | So does linking a block in front. |
| `FreeLists.ReplaceKeeps` | lib/bdwgc/allchblk.c:561-590 | So does putting one block in the place of another. |
| `BlockAlloc.BlockManager.UsedPlusFree` | lib/bdwgc/checksums.c:124-138 | The blocks in use and the free bytes counted on the lists add up to the size of the heap. |
| `BlockMap.TilesSum` | lib/bdwgc/checksums.c:124-138 | The lengths of blocks that tile a heap add up to its size. |
| `BlockAlloc.BlockManager.RemoveFromFlAt` | lib/bdwgc/allchblk.c:300-320 | The block leaves its list, the byte counter of the list goes down by its size, and all else is unchanged. |
| `BlockAlloc.BlockManager.AddToFl` | lib/bdwgc/allchblk.c:359-388 | The block becomes the first of the list for its size, and the counters follow. |
| `BlockAlloc.BlockManager.FreeBlockEndingAt` | lib/bdwgc/allchblk.c:330-355 | The result is the free block that ends at the address if there is one, and null otherwise. |
| `BlockAlloc.BlockManager.Freehblk` | lib/bdwgc/allchblk.c:857-916 | The block and its free neighbours become one free block; afterwards no two adjacent blocks are both free, the rest of the heap is untouched, headers other than its own and that of the next block stay, and a duplicate free changes nothing. |
| `BlockAlloc.BlockManager.SplitBlock` | lib/bdwgc/allchblk.c:561-590 | The second part takes the place of the whole on its list, the first goes to the list for its size; the two tile what the one did. |
| `BlockAlloc.BlockManager.GetFirstPart` | lib/bdwgc/allchblk.c:520-545 | The first part leaves the lists, the rest becomes a free block of its own on its list. |
| `BlockAlloc.BlockManager.Carve` | lib/bdwgc/allchblk.c:690-848 | A stretch inside a free block becomes a block in use with header and forwarding counts; what is left before and after stays free; new blocks begin there and nowhere else. |
| `BlockAlloc.BlockManager.DropBlock` | lib/bdwgc/allchblk.c:762-812 | A free block becomes single dropped blocks in use that tile it. |
| `BlockAlloc.BlockManager.Judge` | lib/bdwgc/allchblk.c:671-770 | What the search makes of a free block: too small, bigger than the next, usable from some start, or black-listed all over. |
| `BlockAlloc.BlockManager.AllochblkNth` | lib/bdwgc/allchblk.c:671-848 | A block that is returned was free all over and is in use now, nothing else changed but dropped blocks; null means that no block of the list would have done. |
| `BlockAlloc.BlockManager.EnoughLargeBytesLeft` | lib/bdwgc/allchblk.c:70-81 | The largest list from which on the lists hold enough bytes for the large objects there have been, or 0. |
| `BlockAlloc.BlockManager.SplitLimit` | lib/bdwgc/allchblk.c:620-645 | The last list that may be searched: the last of all, the first, or the largest from which on the lists hold enough bytes. |
| `BlockAlloc.BlockManager.Allochblk` | lib/bdwgc/allchblk.c:607-660 | Every invariant of the manager is kept, and a result serves the request. The exact matches come first in every mode; then the lists from the next one up to the limit of the mode, which for the steady mode is the largest list from which on there are enough bytes. A result comes from the first of these lists that has anything; null means that none of them has, and with the whole heap allowed that no free block anywhere would have served. |
| `BlockShape.WasFree` | lib/bdwgc/allchblk.c:671-848 | Every address of a block handed out was in a free block before. |
| `BlockShape.SearchedAll` | lib/bdwgc/allchblk.c:607-660 | By monotonicity of the lists, the lists that are searched are all that can hold a block large enough. |
| `BlockShape.UsableClear` | lib/bdwgc/allchblk.c:690-745 | Where nothing is black-listed every large enough block is usable. |
| `BlockAlloc.BlockManager.AddToHeap` | lib/bdwgc/alloc.c:1262-1319 | The addresses of the section, without the first blocks and the last block of the address space, are free afterwards and merged with free neighbours; refused, with no change, only at the limit on sections or when nothing is left of it. |
| `BlockMap.SplitTiled` | lib/bdwgc/allchblk.c:561-590 | Cutting a block in two keeps the heap tiled. |
| `BlockMap.MergeTiled` | lib/bdwgc/allchblk.c:857-916 | Joining two adjacent blocks keeps the heap tiled. |
| `BlockMap.AddTiled` | lib/bdwgc/alloc.c:1262-1319 | A block outside the heap keeps it tiled. |
| `BlockMap.JumpStep` | lib/bdwgc/include/private/gc_hdrs.h:205-211 | Following a forwarding count stays inside the block and gets strictly closer to its header. |
| `HeaderIndex.LinkNew` | lib/bdwgc/headers.c:210-260 | A new bottom index is linked into both chains of indices in the order of the keys. |
| `HeaderIndex.Index.GetIndex` | lib/bdwgc/headers.c:210-260 | There is a bottom index for the address afterwards, both chains are sorted, and no entry changed. |
| `HeaderIndex.Index.InstallHeader` | lib/bdwgc/headers.c:265-278 | The index holds the new header and is otherwise unchanged. |
| `HeaderIndex.Index.InstallCounts` | lib/bdwgc/headers.c:281-299 | Every block after the first gets its capped forwarding count, also across bottom indices. |
| `HeaderIndex.Index.RemoveHeader` | lib/bdwgc/headers.c:302-308 | The header's entry is null and nothing else changed. |
| `HeaderIndex.Index.RemoveCounts` | lib/bdwgc/headers.c:311-318 | The counts are null and nothing else changed. |
| `HeaderIndex.Index.PrevBlockOf` | lib/bdwgc/headers.c:389-419 | The greatest header at or below the address, or null if there is none, also across bottom indices. |
| `HeaderIndex.Index.NextUsedBlock` | lib/bdwgc/headers.c:351-384 | The least block in use at or above the address, or null if there is none. |
| `HeaderIndex.Index.ToHeader` | lib/bdwgc/misc.c:426-435 | The chain of counts ends at the header of the block that owns the address. |
| `HeaderIndex.Index.Base` | lib/bdwgc/misc.c:416-453 | The start of the object that encloses the address, or 0 when none does. |
| `HeaderIndex.ObjectStart` | lib/bdwgc/misc.c:436-452 | Rounding down to a word and then to the object size finds the object that holds the byte. |
| `IndexedHeap.BlockHeap.Free` | lib/bdwgc/allchblk.c:857-916 | Freeing a block with all its merging, together with the removal of its counts and of the headers that are merged into others, leaves the index in agreement with the blocks: a header where a block begins, capped counts inside of blocks in use and nothing else. |
| `IndexedHeap.BlockHeap.Carve` | lib/bdwgc/allchblk.c:690-848 | Cutting a block out of a free one, together with the headers for it and for the rest and its counts, leaves the index in agreement. |
| `IndexedHeap.BlockHeap.Drop` | lib/bdwgc/allchblk.c:762-812 | Taking a free block apart into dropped ones, with a header for each, leaves the index in agreement. |
| `IndexedHeap.BlockHeap.Add` | lib/bdwgc/alloc.c:1262-1319 | A new section, with its header, is added, freed and merged, and leaves the index in agreement. |
| `IndexedHeap.BlockHeap.Base` | lib/bdwgc/misc.c:416-453 | Whatever was freed, cut, dropped and added before, the index finds the start of the object that encloses an address, or that there is none. |
| `IndexedHeap.RefreshedOk` | lib/bdwgc/include/private/gc_hdrs.h:150-168 | Where the index has the headers of the right addresses, it shows what they say now, since its cells refer to them. |
| `Traverse.ApplyToAllBlocks` | lib/bdwgc/headers.c:323-347 | Although the callback frees and coalesces blocks and removes headers while the loop runs, every block in use at the start is visited exactly once, no free one ever is, and exactly the unmarked ones are gone afterwards. |
| `Traverse.VisitCell` | lib/bdwgc/headers.c:333-342 | One cell: a block in use is visited, and is in use no more if it was to be freed; a forwarding count moves the slot down by as much; a free block or an empty cell is passed; nothing else changes. |
| `StopWorld.WorldStops` | lib/bdwgc/pthread_stop_world.c:895-948 | In every interleaving, when the world is stopped every other live thread that is not blocked sits in the handler with its stack pointer saved, has posted exactly one acknowledgement for this stop, and none is left over. |
| `StopWorld.NothingMoves` | lib/bdwgc/pthread_stop_world.c:895-948 | While the world is stopped no step of a thread's own code is possible and no stack pointer changes. |
| `StopWorld.StepInv` | lib/bdwgc/pthread_stop_world.c:305-431 | Every step of the handler, of the collector and of the threads keeps the invariant: acknowledgements posted and owed are those the collector waits for, also for threads still waking from the previous stop. |
| `StopWorld.RunInv` | lib/bdwgc/pthread_stop_world.c:768-893 | The invariant holds after every run. |
| `StopWorld.SomebodyOwes` | lib/bdwgc/pthread_stop_world.c:414-431 | While the collector waits for acknowledgements, some thread still owes one. |
| `StopWorld.CanMove` | lib/bdwgc/pthread_stop_world.c:380-412 | A thread that owes an acknowledgement or is to leave the handler is never stuck, even asleep: a restart signal is pending or the collector is going to send it. |
| `StopWorld.ComesCloser` | lib/bdwgc/pthread_stop_world.c:305-412 | The steps of the handler bring such a thread closer, and no other step takes it back. |
| `StopWorld.BudgetStep` | lib/bdwgc/pthread_stop_world.c:305-431 | From the start of a stop on, every step of the collector, and every handler step of a thread that has to acknowledge it or to leave an old stop, uses up part of a budget, and no other step adds to it. |
| `StopWorld.StopGoesOn` | lib/bdwgc/pthread_stop_world.c:414-431 | Until the world is stopped, such a step is always possible. |
| `StopWorld.StopReturns` | lib/bdwgc/pthread_stop_world.c:895-948 | So stopping the world comes to an end under every schedule that does not starve these steps: at most as many of them as the budget of the first state are taken before it has stopped. |
| `StopWorld.RestartGoesOn` | lib/bdwgc/pthread_stop_world.c:1107-1206 | Until the collector has restarted every thread and every thread is back in its own code, somebody can take a step by which the restart gets on. |
| `StopWorld.ResumeStep` | lib/bdwgc/pthread_stop_world.c:1107-1206 | No step after a stop, until the next one, leaves the restart more to do, and each such step leaves less; threads may start meanwhile. |
| `StopWorld.RestartReturns` | lib/bdwgc/pthread_stop_world.c:1107-1206 | A stopped world is restarted under every schedule that does not starve these steps: at most as many of them as the budget allows are taken, and when it is used up the collector is idle and every thread runs its own code. |
| `ParallelMark.MarkingIsDone` | lib/bdwgc/mark.c:1197-1225 | When the collector returns, all stacks are empty and no helper is left; nothing unreachable is marked, and unless the state is invalid, which `ParallelRoom` is about, exactly what the objects marked at the start reach is marked. |
| `ParallelMark.StepInv` | lib/bdwgc/mark.c:1097-1191 | In every interleaving each marked object is on the global stack, on or in a helper's hands, or its children are marked, unless the state is invalid; entries below every index that a helper or the stack remembers are empty; and the counts are those of the active and the running helpers. |
| `ParallelMark.RunInside` | lib/bdwgc/mark.c:1097-1191 | Marking stays inside every closed set that holds what was marked at the start. |
| `ParallelMark.PlaceStep` | lib/bdwgc/mark.c:964-1029 | Stealing, returning and scanning entries moves work, and loses none. |
| `ParallelMark.ExitQuiet` | lib/bdwgc/mark.c:1146-1164 | A helper that leaves finds all stacks empty, whoever else is running. |
| `ParallelMark.SomebodyMoves` | lib/bdwgc/mark.c:1137-1181 | No wakeup is lost: until the collector returns somebody can go on. |
| `ParallelMark.RunInv` | lib/bdwgc/mark.c:1197-1225 | The invariant holds after every run, and marks are never taken back. |
| `ParallelEnds.StepLess` | lib/bdwgc/mark.c:1031-1191 | Every step of every marker, in any state of a run, leaves less to be done, in this order of weight: free places on the global stack, places ahead of the markers, objects not yet pushed by all who may have found them unmarked, entries on own stacks, children to look at, and steps to leave. |
| `ParallelEnds.MarkLess` | lib/bdwgc/mark.c:1031-1073 | A mark counts once for each marker, since several may find the same object unmarked and push it: after a mark fewer such pushes are left, even if the others still make theirs. |
| `ParallelEnds.MarkingEnds` | lib/bdwgc/mark.c:1197-1225 | In every infinite interleaving of steps that goes on until the collector has returned, it does return, and then all stacks are empty and, unless the state is invalid, exactly what the objects marked at the start reach is marked. |
| `ParallelRoom.InvalidWhen` | lib/bdwgc/mark.c:1002-1029 | A step makes the state invalid if and only if the global stack has no room for the entries that it returns, or the marker's own stack none for the one that it pushes. |
| `ParallelRoom.ReturnedWaits` | lib/bdwgc/mark.c:1002-1029 | Entries that are returned and fit wait on the global stack, each in its place on top of what was there, and the marker keeps the rest. |
| `ParallelRoom.InvalidRun` | lib/bdwgc/mark.c:1002-1029 | A run is invalid if and only if at some step of it there was no room. |
| `ParallelRoom.OwnStep` | lib/bdwgc/mark.c:914-921 | A marker's own stack never overflows if it has room for one theft and for every object unmarked at the start: each marker pushes an object at most once. |
| `ParallelRoom.EnoughStep` | lib/bdwgc/mark.c:1031-1073 | The room on the global stack for what is still to be returned never runs out: between two returns a marker scans an entry, entries come only from pushes and from thefts of an entry that another marker has stolen already, and each return takes no more than there are. |
| `ParallelRoom.RoomIsEnough` | lib/bdwgc/mark.c:1002-1029 | For any number of entries that are stolen twice there are sizes of the stacks, known at the start, with which no interleaving with at most that many such thefts ever becomes invalid. |
| `ParallelRoom.MarksExactly` | lib/bdwgc/mark.c:1197-1225 | With stacks that large every interleaving comes to an end, and then exactly what the objects marked at the start reach is marked. |
| `SizeMap.Map.constructor` | lib/bdwgc/misc.c:241-256 | Exactly the tiny sizes have an entry, each large enough. |
| `SizeMap.Map.Extend` | lib/bdwgc/malloc.c:104-152 | The size gets an entry, and just the range from the first free entry found below it is filled; every entry stays large enough for its size, within the largest small object and, beyond the tiny sizes, even and the largest of which as many fit in a block; all writes are in bounds. |
| `SizeMap.FillKeeps` | lib/bdwgc/malloc.c:101-152 | Filling keeps every entry right, and every filled section that ends at n has at least a quarter of n entries. |
| `SizeMap.SameNumber` | lib/bdwgc/malloc.c:140-144 | The size chosen is the largest even one of which as many objects fit in a block. |
| `Evaluator.Evaluate` | src/Evaluator.cpp:69-187 | The interpreter, with its loops over bindings and arguments, computes what the evaluation function with flat closures says. |
| `Evaluator.ApplyAst` | src/Evaluator.cpp:226-268 | The body is evaluated in the captured variables on top of the caller's environment, the function's own name on top of these, and the parameters on top of all. |
| `BigStep.EvaluatesRight` | src/Evaluator.cpp:69-187 | The evaluator comes to a value, with enough depth of calls, if and only if the rules that say what programs mean give the program that value: in every case, with the bindings of a let outside of each other, those of a let* as nested lets, captured variables as seen at the lambda, and calls as seen from inside. |
| `BigStep.MeansOne` | src/Evaluator.cpp:69-187 | A program means one value at most. |
| `Failures.FailsRight` | src/Evaluator.cpp:87-187 | The evaluator comes to an error, with enough depth of calls, if and only if the rules for failing programs give that error: an unseen name where it is used or captured, a call of what is no function or takes another number of arguments, which is noticed before the arguments are evaluated, a native function that fails, or the first part to fail in order. |
| `BigStep.MoreFuel` | src/Evaluator.cpp:69-187 | Any answer, an error too, stays the same when calls may go deeper. |
| `BigStep.InsideSees` | src/Evaluator.cpp:226-268 | Inside a call a name means the last parameter of that name, or else the function under its own name, or else a captured variable, or else what the caller sees. |
| `BigStep.CaptureSees` | src/Evaluator.cpp:133-147 | A closure holds the values that its captured names have where the lambda is evaluated. |
| `Programs.FibIsFib` | src/test_3_eval.cpp:64 | Calling fib on whatever evaluates to n gives the n-th Fibonacci number for every n for which that is a long, with n levels of calls, in any environment that sees fib and the native functions; a negative n gives itself. |
| `Programs.TailIsFib` | src/test_3_eval.cpp:65 | The tail-recursive program, called on n and two successive Fibonacci numbers, gives the one n further on. |
| `Programs.FibMeans` | src/test_4_jit.cpp:106 | By the rules, too, (fib n) means the n-th Fibonacci number. |
| `Programs.TailMeans` | src/test_4_jit.cpp:108 | And so does (tail_fib n 0 1), the test of the repository for every n and not just for 8. |
| `Closures.EvalSafe` | src/Evaluator.cpp:87-147 | Evaluating analysed code never reaches one of the unknown-variable failures, whatever names its binders have. |
| `Closures.FlatMeansDeep` | src/Evaluator.cpp:133-187 | Flat closures, run in the environment of the caller, give what closures that keep their whole environment give, errors included, if no local takes the name of a global that is used, except that a function without captures may carry the name of its own global, as recursive functions do. |
| `Closures.ShadowingBreaks` | src/Evaluator.cpp:226-268 | Without that condition they differ: a function can see a local of its caller in place of a global. |
| `Closures.OwnNameBreaks` | src/Evaluator.cpp:226-268 | Nor may a function carry the name of a global that is another value: what it calls finds the function there. |
| `Closures.EnterOk` | src/Evaluator.cpp:226-268 | Entering corresponding closures with corresponding arguments makes corresponding environments, in which the locals that have names of used globals are those globals. |
| `Analyzer.Scopes.Lookup` | src/Analyzer.cpp:357-429 | A name is found exactly if some scope or the globals know it; afterwards it is in sight, and scopes changed only by capturing it. |
| `Analyzer.Scopes.Analyze` | src/Analyzer.cpp:85-132 | Analysis succeeds exactly for the programs that are legal but for the types of their heads; the result means the program, every variable in it is in sight where it is used, and every lambda in it and around it captures exactly the free variables of its body that the scopes outside know. |
| `Analyzer.Scopes.AnalyzeLet` | src/Analyzer.cpp:180-256 | The right-hand sides of a let see the names outside it, those of a let* also the earlier bindings; the body sees all. |
| `Analyzer.Scopes.AnalyzeLambda` | src/Analyzer.cpp:276-315 | The captures are exactly the free variables of the body, other than the parameters and the lambda's own name, that a scope outside knows, also when a global has the same name; each scope around captured just what it had to for them. |
| `Analyzer.Scopes.CheckParams` | src/Analyzer.cpp:294-309 | Parameters are accepted exactly if they are distinct symbols. |
| `Analyzer.Captured` | src/Analyzer.cpp:385-429 | Capturing a name that is in sight outside keeps every scope in order. |
| `Analyzer.LetDone` | src/Analyzer.cpp:180-256 | Bindings and body of a let or let*, analysed one after the other, make a form whose variables are in sight and whose lambdas capture exactly what they must. |
| `Inliner.InlineSim` | src/Jit.cpp:628-773 | Let names hold those of the functions that are replaced. Where each callee found by its name is the global of that name, has no captures, uses its own name at most as that of this global and matches in arity, where a local with a name from names is that global, and where no let* is touched, inlined and original code give corresponding results, in both directions of termination. Locals may hide all other globals. |
| `Inliner.InlinedFunction` | src/Jit.cpp:628-773 | The same for a whole function on corresponding arguments, called from any environment in which a local with a name from names is that global; an inlined call saves at most one level of calls in each function. |
| `Inliner.NoneLeft` | src/Jit.cpp:628-773 | Of the calls of small known functions that the inliner comes to, none is left: such calls in the result are exactly those in the bodies that were put in, which it does not look into. |
| `Inliner.NothingToInline` | src/Jit.cpp:628-773 | Code without such calls is not changed, not even a let*. |
| `Inliner.EnterInlined` | src/Jit.cpp:746-763 | Where the call enters the callee, with the callee's own name bound, and where the let that replaces it does, all names that the body may use mean corresponding things. |
| `Inliner.SamplesCovered` | src/test_4_jit.cpp:79-82 | The globals id, const and fib, each under its own name, with the native functions they use, make a world of this kind, and calls of id and of the recursive fib may be replaced. |
| `Inliner.LetStarBreaks` | src/Jit.cpp:675-705 | A let* that is rebuilt as a let can lose a variable. |
| `Inliner.CaptureAndSelfBreak` | src/Jit.cpp:746-763 | Inlining a callee that captures, or that uses its own name, can lose a variable. |
| `Inliner.CalleeNameBreaks` | src/Jit.cpp:746-763 | Inlining a callee that gives itself the name of another global changes what the functions it calls see. |
| `Inliner.ArityAndShadowingBreak` | src/Jit.cpp:746-763 | Inlining a call of wrong arity hides the error, and inlining past a local of the callee's name calls the wrong function. |
| `Inliner.CallerLocalBreaks` | src/Evaluator.cpp:226-243 | The inliner searches the environment of the caller whose call triggers the compilation: a local there with the name of the callee, which is a parameter, is inlined in its place. |
| `Syntax.ReaderUndoesPrinter` | src/sexpr/SexprIO.cpp:11-57 | For expressions without reals: reading the printed text, followed by a delimiter or nothing, gives the expression and leaves the rest, if and only if the expression is printable. |
| `Syntax.ReadIsPrintable` | src/Reader.cpp:56-363 | The reader returns printable expressions only. |
| `Syntax.ReadPrintRead` | src/Reader.cpp:56-363 | What was read prints as a text that reads the same. |
| `Syntax.QuoteReads` | src/Reader.cpp:121-138 | A quote before a text reads as (quote e) where the text reads as e; it fails where the text has come to its end, and else does what the text does. |
| `Syntax.QuoteIsShort` | src/Reader.cpp:121-138 | The short and the long form of a quotation read the same. |
| `Syntax.LayoutIgnored` | src/Reader.cpp:345-376 | Blanks and comments before an expression or an item of a list make no difference. |
| `Syntax.EndsExactly` | src/Reader.cpp:56-94 | The end of the text is reported exactly if nothing but blanks and comments is left; inside a list, a quotation or a string it is a failure. |
| `Syntax.NumberSaturates` | src/Reader.cpp:140-230 | The decimal digits of any number read as that number, or as the largest long if it is larger. |
| `Syntax.UnderscoreIgnored` | src/Reader.cpp:161-163 | An underscore anywhere inside a number, integer or real, makes no difference. |
| `Syntax.CommentHangs` | src/Reader.cpp:345-376 | A comment is never left exactly if no newline follows it. |
| `Syntax.SkipHangs` | src/Reader.cpp:345-376 | Skipping blanks never ends exactly if nothing but blanks and finished comments stands before a comment without a newline. |
| `Syntax.NeverHangs` | src/Reader.cpp:56-94 | A text in which every semicolon has a newline behind it is never read for ever, and neither is what is left of it. |
| `Syntax.HangsExactly` | src/Reader.cpp:56-376 | A text is read for ever if and only if a pass over it that keeps only the number of open lists, and whether a quote waits, comes to a comment without a newline before the expression is complete. |
| `Syntax.ClosedTexts` | src/Reader.cpp:345-376 | Texts without a semicolon and texts that end with a newline have none that is left open. |
| `Syntax.SemicolonInside` | src/Reader.cpp:345-376 | A semicolon inside a symbol starts no comment: such a text is read although no newline follows. |
| `Syntax.OpenCommentHangs` | src/Reader.cpp:345-376 | A semicolon alone, and one inside a list, is read for ever. |
| `Reading.Reader.Read` | src/Reader.cpp:56-94 | The reader returns the expression at the front of the text and leaves the rest, or reports the end, a failure, or a comment that it never leaves, which a text without an open comment never has. |
| `Reading.Reader.ReadList` | src/Reader.cpp:96-119 | Expressions up to the closing parenthesis; failure when the text ends before it. |
| `Reading.Reader.ReadNumber` | src/Reader.cpp:140-230 | The digits up to a delimiter, without underscores; an integer saturates at the largest long, a decimal point makes a real, any other character and a second point fail. |
| `Reading.Reader.ReadChar` | src/Reader.cpp:232-269 | One character up to a delimiter, or tab or newline by name. |
| `Reading.Reader.ReadString` | src/Reader.cpp:271-300 | The text up to the next quote. |
| `Reading.Reader.ReadSymbol` | src/Reader.cpp:302-337 | The text up to a delimiter; quotes and backslashes inside fail. |
| `Reading.Reader.SkipWhitespace` | src/Reader.cpp:345-376 | Blanks and comments are skipped; they are never left exactly if they lead to a semicolon without a newline behind it. |
| `Session.SessionsAgree` | src/repl.cpp:55-82 | A whole session, definitions included, gives form by form the same with flat closures as with closures that keep their environments, if no form binds a name of a used global locally, except that a definition may be of a function that carries the defined name, if that name is defined once. |
| `Session.RecursionCovered` | src/test_4_jit.cpp:79-82 | The session that defines id, const and fib under their own names and calls fib is of this kind. |
| `Session.Session.Round` | src/repl.cpp:55-82 | One round of the loop: a form is rejected exactly when it is not legal, which is where the process aborts; a legal one is evaluated as the specification says, extends the globals if it is a definition, and never fails for an unknown variable; the round never ends exactly if the reader hangs on the text. |
| `Session.DefineSafe` | src/GlobalScope.cpp:13-15 | A definition keeps the world safe for all functions defined before. |

## Left out

- Collect.Collector.FinishCollection: that the finalization queue is a root of the next collection is for the client to arrange, by `SetRoots`; the callers of queued finalizers are not modelled.
- Collect.Collector.StoppedMark: what a FALSE result means for blocks queued for a sweep is said by `MarkStopped`.
- Collect.Collector.StartReclaim: the blocks are visited in some order; that the real traversal visits each once is `Traverse.ApplyToAllBlocks`.
- Collect.Collector.AllocObj: when sweeping finds no free object the choice between a new block, a collection and a larger heap is left to the caller; each of the three is modelled by itself.
- Collect.Collector.AllocLarge: the block enters as any that fits, as for `NewHblk`.
- Collect.Collector.NewHblk: the block manager is any that hands out a free stretch of addresses; that `GC_allochblk` does is `BlockAlloc.BlockManager.Allochblk`.
- Collect.Collector.ReclaimObjects: the links of a free list are a sequence; of the words written only the first word of each object and the clearing are modelled.
- BlockAlloc.BlockManager.FreeBlockEndingAt: the previous header is found by a function on the map of headers; that the index finds the same one is `HeaderIndex.Index.PrevBlockOf`.
- IndexedHeap.BlockHeap.Carve: the search of `GC_allochblk` runs on the map of headers alone; it changes the heap by `Carve` and `Drop` only. The index is changed after the manager and not in between.
- Traverse.ApplyToAllBlocks: the callback is the freeing part of `GC_reclaim_block`; queueing for a sweep changes no header.
- Finalize.QueuedExactly: stated for the objects whose marking overflowed as a given set; which they are is said by `Finalizer.Finalize`, but for how large a new mark stack gets after an overflow, since memory for it may be refused. The normal mark procedure and the non-Java mode only; toggle references are not modelled.
- Closures.FlatMeansDeep: the condition on names is sufficient, and the two ways to violate it have programs that differ; whether a given program that violates it differs is undecidable. A function that captures something must not have the name of a global that is used.
- Inliner.InlineSim: the conditions on call sites are sufficient, and each is needed; a call with more arguments than parameters runs off the end of the parameters in the original and is taken to drop the rest.
- Analyzer.Scopes.Analyze: the check that the head of an application can be a function (`src/Analyzer.cpp:321`) rejects more programs; the types it needs are not modelled.
- Session.Session.Round: in the original a rejected form aborts the process; what the model does after one is its own.
- Analyzer.Scopes.AnalyzeLambda: a named lambda without a body reads past the end of the form in the original and is taken to be rejected; a failed lookup, which returns an uninitialised pointer, is taken to find nothing.
- StopWorld.WorldStops: the retrying configuration, externally suspended threads and the wrap-around of the stop count are not modelled.
- ParallelMark.MarkingIsDone: weak memory orders are not modelled, nor are wakeups without a cause; a marker may share its stack or be asleep at more moments than the original, which only adds runs.
- ParallelRoom.RoomIsEnough: the number of entries that are stolen twice is a parameter; how many there are depends on the schedule alone, and no bound on it is given.
- Syntax.ReaderUndoesPrinter: real numbers are kept as the text of their digits, so nothing is said about how a double prints; source locations are not kept.
- SizeMap.Map.Extend: a heap block of 256 granules of 16 bytes, the usual 64-bit configuration.
- Rescuers of incremental marking, dirty bits, thread-local free lists and recycled mark stacks.
- The explicit free and realloc operations, byte counters of the collector, statistics, logging and callbacks.
- Code generation and native function pointers of the JIT, and the counter that decides when to compile.
- Debugging headers, back graph, checksums, unmapping, disclaim procedures: optional configurations.
- Signal masks and set-up, Darwin, Windows, NaCl and IA64 variants, dynamic libraries.
