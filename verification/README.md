# Verified models of nginx core data structures and of a C++ thread pool

This project models seven components in Dafny and proves what they are for. Each keeps the form of its source: trees, the slab
pool and the radix tree are classes whose methods write the fields the code writes; the mutex and the thread pool are
systems of processes that take one atomic step at a time; the tables of the hash and of the CRC are filled and read by
the loops of the code.

| component | files | main results |
|---|---|---|
| red-black tree (ngx_rbtree.c) | RbShape, RbLinks, RbInsert, RbAttach, RbDelete, RbRemove, RbPromote, RbOrder, RbTree | insert and delete with all fix-up cases over parent pointers and a shared sentinel; height bound; in-order iteration |
| slab allocator (ngx_slab.c) | Words, SlabList, SlabView, SlabAlloc, SlabFree, SlabJoin, SlabBits, SlabChunks, SlabRegions, SlabGrant, SlabServe, SlabReturn, SlabStart, SlabPool, SlabUse | exact partition of the pages, coalescing, disjoint live regions over all size classes, exact success and error conditions |
| process mutex (ngx_shmtx.c) | Shmtx, ShmtxCalls | mutual exclusion and no lost wakeup in every interleaving; how calls end |
| radix tree (ngx_radix_tree.c) | BitMasks, RadixShape, RadixMask, RadixLinks, RadixTree | refinement of a map from prefixes, longest match, pruning, the free list |
| hash tables (ngx_hash.c) | HashLayout, HashTable, HashBuild, HashFill, HashSearch, HashShape, HashRules, HashOrder, HashWild, HashCompile, HashNest | lookup equals an association list; nested wildcard tables equal a naive longest-match search |
| CRC-32 (ngx_crc32.h) | CrcBits, CrcTables, Crc32, CrcBurst, CrcStart | both table forms and the incremental form equal bitwise division; bursts are detected; exactly the right checksum checks |
| thread pool (threadpool_new.cpp) | PoolState, PoolSafety, PoolWork, PoolSubmit, PoolShutdown, PoolRuns, PoolHang | counters and queue in every run; every task is run once; tasks are refused only by a full queue; nobody oversleeps; the shutdown handshake ends with the queue drained; exactly when it can hang |

How to read it. A heap structure has a ghost value beside it: `Tree.shape` is the binary tree that the pointers spell,
`Pool.kind` says what every page is used for. `Valid()` ties the two together, and each method's `ensures` says what
happens to the value: `Items(shape)` is the in-order sequence, `Live(kind, r)` says that region `r` is handed out,
`Lookup(shape, p)` is the value stored for a prefix. A `Spine` is a tree with one hole, seen from the hole; fix-up loops
move a focus along it. Purely functional lemmas about these values carry the proofs, and the methods stay short.

In the two step systems a run is a sequence of states, each a step of some process after the one before. The invariants
are proved for every step, and the theorems are stated for the last state of an arbitrary run, so for every reachable
state.

Where the code does less than one might expect, the project says so. The slab pool accepts the address of a
bitmap chunk, and only that spoils it (`SlabPool.Pool.Free`). The thread pool can lose tasks exactly if it is started with
no threads, in either mode (`PoolRuns.LosesTasksExactlyIf`). In cached mode its destructor can wait for ever, because a
thread that leaves after an idle timeout notifies nobody (`PoolHang.CachedMayHang`), and a notification that comes in
time does not keep the thread from timing out (`PoolHang.NotifiedMayHang`); `PoolHang.HangsExactlyIf` says when. The waiter counter of the mutex may become negative
(`Shmtx.CounterGoesNegative`), which is harmless (`Shmtx.QuietCounter`).

`dafny verify dfyconfig.toml` checks all files together.

## Model

| member | source | states |
|---|---|---|
| `RbTree.Tree.constructor` | nginx/nginx-release-1.13.1/src/core/ngx_rbtree.h:44-48 | the empty tree: the given sentinel is the root, it is black, and the whole invariant holds |
| `RbTree.Tree.Insert` | nginx/nginx-release-1.13.1/src/core/ngx_rbtree.c:24-93 | from any valid tree with a new node: parent links, colours, equal black height and key order hold again, and the in-order sequence is the old one with the node behind all keys that are not greater |
| `RbTree.Tree.InsertValue` | nginx/nginx-release-1.13.1/src/core/ngx_rbtree.c:96-118 | the descent ends where everything to the left is not greater and everything to the right is greater; the new red leaf is hung there and is the only thing left to repair |
| `RbTree.Tree.Search` | nginx/nginx-release-1.13.1/src/core/ngx_rbtree.c:102-111 | the descent itself: it stops at a missing child whose place is that of the key |
| `RbTree.Tree.InsertFixup` | nginx/nginx-release-1.13.1/src/core/ngx_rbtree.c:46-92 | the loop ends (the distance to the root shrinks) with a valid tree and the sequence unchanged |
| `RbTree.Tree.FixLeft` | nginx/nginx-release-1.13.1/src/core/ngx_rbtree.c:50-68 | one turn for a parent that is a left child: the loop invariant is kept, the sequence too, and the focus is nearer to the root |
| `RbTree.Tree.FixRight` | nginx/nginx-release-1.13.1/src/core/ngx_rbtree.c:70-89 | the mirror image |
| `RbTree.Tree.FixRedUncle` | nginx/nginx-release-1.13.1/src/core/ngx_rbtree.c:53-57 | red uncle: recolouring moves the possible red-red edge two levels up and nothing else is out of order |
| `RbTree.Tree.LeftRotate` | nginx/nginx-release-1.13.1/src/core/ngx_rbtree.c:323-350 | every field of every node after the rotation |
| `RbTree.Tree.RightRotate` | nginx/nginx-release-1.13.1/src/core/ngx_rbtree.c:353-380 | every field of every node after the rotation |
| `RbTree.Tree.TurnLeft` | nginx/nginx-release-1.13.1/src/core/ngx_rbtree.c:323-350 | the same in terms of the tree: the pointers spell the rotated tree, inside whatever is above it |
| `RbTree.Tree.TurnRight` | nginx/nginx-release-1.13.1/src/core/ngx_rbtree.c:353-380 | the mirror image |
| `RbTree.Tree.Delete` | nginx/nginx-release-1.13.1/src/core/ngx_rbtree.c:156-320 | from any valid tree and any of its nodes: the tree is valid again, its in-order sequence is the old one with exactly that node taken out, and the fields of the node are reset |
| `RbTree.Tree.DeleteSmall` | nginx/nginx-release-1.13.1/src/core/ngx_rbtree.c:167-173 | a node with at most one child, the root included, leaves the tree |
| `RbTree.Tree.DeleteRoot` | nginx/nginx-release-1.13.1/src/core/ngx_rbtree.c:185-196 | the root with at most one child: its child becomes the root and is blackened; its parent field stays stale |
| `RbTree.Tree.DeleteHalf` | nginx/nginx-release-1.13.1/src/core/ngx_rbtree.c:198-210 | any other node with at most one child is spliced out, and the fix-up restores the laws |
| `RbTree.Tree.DeletePromoted` | nginx/nginx-release-1.13.1/src/core/ngx_rbtree.c:211-253 | a node with two children: its successor takes its place, colour and links, and the fix-up restores the laws |
| `RbTree.Tree.TakeOver` | nginx/nginx-release-1.13.1/src/core/ngx_rbtree.c:198-222 | the writes that unhook the successor and give it the fields of the node, cell by cell |
| `RbTree.Tree.HandOver` | nginx/nginx-release-1.13.1/src/core/ngx_rbtree.c:225-249 | the writes that tell the parent and the children of the node about its successor, cell by cell |
| `RbTree.Tree.DeleteFixup` | nginx/nginx-release-1.13.1/src/core/ngx_rbtree.c:255-319 | the loop ends (a measure over the place of the focus shrinks) with a valid tree and the sequence unchanged, also when the focus is the sentinel |
| `RbTree.Tree.MendLeft` | nginx/nginx-release-1.13.1/src/core/ngx_rbtree.c:259-286 | one turn for a left focus keeps the loop invariant and the sequence and shrinks the measure |
| `RbTree.Tree.MendRight` | nginx/nginx-release-1.13.1/src/core/ngx_rbtree.c:288-315 | the mirror image |
| `RbTree.Tree.MendRedLeft` | nginx/nginx-release-1.13.1/src/core/ngx_rbtree.c:262-267 | red sibling: after the rotation the focus has a black sibling and a red parent, and is as short as before |
| `RbTree.Tree.MendBlackLeft` | nginx/nginx-release-1.13.1/src/core/ngx_rbtree.c:269-271 | black sibling: if both nephews are black the shortage moves up, else the last cases follow |
| `RbTree.Tree.MendNephewLeft` | nginx/nginx-release-1.13.1/src/core/ngx_rbtree.c:273-286 | a red nephew: after one or two rotations nothing is short any more |
| `RbTree.Tree.Min` | nginx/nginx-release-1.13.1/src/core/ngx_rbtree.h:73-81 | the left-most node of a subtree, with the path of left links that leads to it |
| `RbTree.Tree.Next` | nginx/nginx-release-1.13.1/src/core/ngx_rbtree.c:383-409 | the node right behind the given one in the in-order sequence, or null exactly for the last one; the stale parent of the root is never followed |
| `RbTree.Tree.Walk` | nginx/nginx-release-1.13.1/src/core/ngx_rbtree.c:383-409 | starting at the minimum and calling Next until it is null visits every node once, in order |
| `RbShape.HeightBound` | nginx/nginx-release-1.13.1/src/core/ngx_rbtree.c:24-93 | a tree that obeys the laws has height at most 2*log2(n+1): 2^height <= (n+1)^2 for n nodes |
| `RbShape.UpperBoundUnique` | nginx/nginx-release-1.13.1/src/core/ngx_rbtree.c:102-111 | any split of a sequence into keys not greater and keys greater is the place behind the equal keys |
| `RbShape.InsertKeepsSorted` | nginx/nginx-release-1.13.1/src/core/ngx_rbtree.c:96-118 | inserting behind the equal keys keeps the keys non-decreasing |
| `RbShape.PlugRedBlack` | nginx/nginx-release-1.13.1/src/core/ngx_rbtree.c:92 | a repaired piece in a repaired surrounding is a whole red-black tree |
| `RbShape.UnplugRedBlack` | nginx/nginx-release-1.13.1/src/core/ngx_rbtree.c:255-257 | a red-black tree cut at any node: both parts keep the laws, and the black heights fit |
| `RbInsert.GrandparentBlack` | nginx/nginx-release-1.13.1/src/core/ngx_rbtree.c:48-51 | a red parent has a black parent of its own: the grandparent the loop follows exists |
| `RbInsert.PushUp` | nginx/nginx-release-1.13.1/src/core/ngx_rbtree.c:53-57 | the recoloured grandparent is all that can still be wrong, with one more black below |
| `RbInsert.TurnOut` | nginx/nginx-release-1.13.1/src/core/ngx_rbtree.c:60-63 | turning an inner child outwards keeps the state of the loop |
| `RbInsert.TurnDown` | nginx/nginx-release-1.13.1/src/core/ngx_rbtree.c:65-67 | after the last rotation nothing is left to repair |
| `RbInsert.InsertDone` | nginx/nginx-release-1.13.1/src/core/ngx_rbtree.c:92 | when the loop stops, blackening the root gives a red-black tree with the same sequence |
| `RbInsert.PushUpStep` | nginx/nginx-release-1.13.1/src/core/ngx_rbtree.c:53-57 | the same over the pointers: what the recoloured cells spell |
| `RbInsert.TurnDownStep` | nginx/nginx-release-1.13.1/src/core/ngx_rbtree.c:65-67 | the same over the pointers, after the rotation |
| `RbDelete.SiblingExists` | nginx/nginx-release-1.13.1/src/core/ngx_rbtree.c:259-262 | the sibling of a subtree that is short of a black node is a node, never the sentinel |
| `RbDelete.RedSib` | nginx/nginx-release-1.13.1/src/core/ngx_rbtree.c:262-267 | the red-sibling case leads to a black sibling and keeps the shortage where it is |
| `RbDelete.BlackSib` | nginx/nginx-release-1.13.1/src/core/ngx_rbtree.c:269-271 | with two black nephews the shortage moves one level up |
| `RbDelete.InnerRed` | nginx/nginx-release-1.13.1/src/core/ngx_rbtree.c:274-279 | an inner red nephew is turned outwards |
| `RbDelete.OuterRed` | nginx/nginx-release-1.13.1/src/core/ngx_rbtree.c:281-285 | with an outer red nephew the whole tree obeys the laws again |
| `RbDelete.DeleteDone` | nginx/nginx-release-1.13.1/src/core/ngx_rbtree.c:257-319 | when the loop stops, blackening the focus gives a red-black tree |
| `RbDelete.RedSibStep` | nginx/nginx-release-1.13.1/src/core/ngx_rbtree.c:262-267 | the red-sibling case over the pointers: loop invariant, sequence, and what the sentinel remembers |
| `RbDelete.BlackSibStep` | nginx/nginx-release-1.13.1/src/core/ngx_rbtree.c:269-271 | the black-nephews case over the pointers |
| `RbDelete.OuterStep` | nginx/nginx-release-1.13.1/src/core/ngx_rbtree.c:281-285 | the outer-nephew case over the pointers |
| `RbRemove.HalfRemoved` | nginx/nginx-release-1.13.1/src/core/ngx_rbtree.c:167-205 | a node with a missing child goes: nothing to repair if it was red, one black node short if it was black |
| `RbRemove.PromoteRemoved` | nginx/nginx-release-1.13.1/src/core/ngx_rbtree.c:175-253 | the same for the successor that takes over the place and colour of the node |
| `RbRemove.PromoteOrder` | nginx/nginx-release-1.13.1/src/core/ngx_rbtree.c:175-253 | the in-order sequence then is the old one without the node |
| `RbPromote.PromoteLinks` | nginx/nginx-release-1.13.1/src/core/ngx_rbtree.c:198-243 | the pointers after the replacement spell the tree with the successor in the place of the node, also if the successor is its right child |
| `RbPromote.PromoteStep` | nginx/nginx-release-1.13.1/src/core/ngx_rbtree.c:198-253 | after the replacement the fix-up can start where the successor was |
| `RbAttach.AttachStep` | nginx/nginx-release-1.13.1/src/core/ngx_rbtree.c:113-117 | after the new leaf is hung the insert fix-up can start there, over the sequence with the new entry in its place |
| `RbOrder.RightThenLeft` | nginx/nginx-release-1.13.1/src/core/ngx_rbtree.c:390-392 | the left-most node of the right subtree follows the node |
| `RbOrder.UpFollows` | nginx/nginx-release-1.13.1/src/core/ngx_rbtree.c:396-408 | coming up from the left the parent follows; at the root nothing does |
| `RbOrder.FollowsUnique` | nginx/nginx-release-1.13.1/src/core/ngx_rbtree.c:383-409 | only one node follows, and null only the last one |
| `SlabPool.Pool.constructor` | nginx/nginx-release-1.13.1/src/core/ngx_slab.c:85-162 | ngx_slab_init lays out at least one page and the whole invariant holds: one free run of all pages, empty slot lists, nothing handed out; the pages lie aligned before `end` and behind the slot heads, the counters and their headers |
| `SlabPool.Pool.Alloc` | nginx/nginx-release-1.13.1/src/core/ngx_slab.c:180-408 | fails exactly if no free run is long enough and, for a small request, no page of the class has a free chunk either; a success adds exactly one live region, of the smallest class or page count that holds the request: less than half of it is wasted, unless it is a chunk of 8 bytes; a failure changes only the counters; the contents of all live regions stay; the invariant holds again |
| `SlabPool.Pool.Free` | nginx/nginx-release-1.13.1/src/core/ngx_slab.c:451-663 | accepts exactly the addresses of live regions and of bitmap chunks; of a live region exactly that region is gone; every other address ends in the error the code has for it, with nothing changed; the invariant holds again exactly if the address was not that of a bitmap chunk; the contents of all live regions stay |
| `SlabPool.Pool.FreeReserved` | nginx/nginx-release-1.13.1/src/core/ngx_slab.c:482-517 | for the address of a bitmap chunk: what exactly is written then |
| `SlabPool.AcceptedThoughNotLive` | nginx/nginx-release-1.13.1/src/core/ngx_slab.c:482-488 | such an address exists in every pool that serves a request for 8 bytes: it is accepted, and the invariant is lost |
| `SlabPool.Pool.AllocPages` | nginx/nginx-release-1.13.1/src/core/ngx_slab.c:666-719 | first fit: the first run of the free list that is long enough gives its first pages; null exactly if no run is; list, headers and pfree follow |
| `SlabPool.Pool.FreePages` | nginx/nginx-release-1.13.1/src/core/ngx_slab.c:722-799 | from a run or an idle slab page: afterwards the pages are in a free run, no two free runs touch, list and pfree are right again |
| `SlabPool.Pool.AllocChunk` | nginx/nginx-release-1.13.1/src/core/ngx_slab.c:215-400 | a request of one slot: from the first listed page if there is one, else from a new page, else refused; the slot counts the request and the failure |
| `SlabPool.Pool.ShiftFor` | nginx/nginx-release-1.13.1/src/core/ngx_slab.c:205-213 | the shift loop gives the one class that holds the request |
| `SlabPool.Pool.ServeSmall` | nginx/nginx-release-1.13.1/src/core/ngx_slab.c:225-266 | a listed page always has a free chunk: the search succeeds, takes the lowest one, and the page leaves its list exactly when it is full |
| `SlabPool.Pool.ServeExact` | nginx/nginx-release-1.13.1/src/core/ngx_slab.c:268-291 | the same for the bitmap in the header word |
| `SlabPool.Pool.ServeBig` | nginx/nginx-release-1.13.1/src/core/ngx_slab.c:293-323 | the same for the bitmap in the upper half of the header word |
| `SlabPool.Pool.OpenPage` | nginx/nginx-release-1.13.1/src/core/ngx_slab.c:329-396 | a page of its own is cut for the slot, its bitmap chunks are reserved, and its first chunk is handed out |
| `SlabPool.Pool.FindSmall` | nginx/nginx-release-1.13.1/src/core/ngx_slab.c:231-244 | the scan finds the lowest clear bit, or that every word is NGX_SLAB_BUSY |
| `SlabPool.Pool.IdleSmall` | nginx/nginx-release-1.13.1/src/core/ngx_slab.c:503-519 | the scan finds out whether only the reserved bits are set |
| `SlabPool.Pool.FreeSmall` | nginx/nginx-release-1.13.1/src/core/ngx_slab.c:473-526 | a live chunk of a small-class page: exactly it is gone, and an idle page goes back to the free pages |
| `SlabPool.Pool.FreeExact` | nginx/nginx-release-1.13.1/src/core/ngx_slab.c:530-564 | the same for the exact class |
| `SlabPool.Pool.FreeBig` | nginx/nginx-release-1.13.1/src/core/ngx_slab.c:568-604 | the same for the big classes |
| `SlabPool.Pool.FreePageRun` | nginx/nginx-release-1.13.1/src/core/ngx_slab.c:626-633 | a whole multi-page allocation: exactly it is gone |
| `SlabPool.Pool.FreeOnPage` | nginx/nginx-release-1.13.1/src/core/ngx_slab.c:608-633 | a page-aligned address is accepted exactly on the first page of an allocation; free pages and inner pages get their own errors |
| `SlabPool.Pool.JoinNext` | nginx/nginx-release-1.13.1/src/core/ngx_slab.c:742-761 | joins the run behind exactly if it is a free run |
| `SlabPool.Pool.JoinPrev` | nginx/nginx-release-1.13.1/src/core/ngx_slab.c:763-787 | finds the head of the run before through its last page and joins it exactly if it is a free run |
| `SlabPool.Pool.Settle` | nginx/nginx-release-1.13.1/src/core/ngx_slab.c:789-798 | the joined run goes to the front of the free list, and its last page points back to its head |
| `SlabPool.Pool.TakeRun` | nginx/nginx-release-1.13.1/src/core/ngx_slab.c:673-710 | header by header what a split or a removal of a run writes |
| `SlabAlloc.AllocKeepsInv` | nginx/nginx-release-1.13.1/src/core/ngx_slab.c:673-710 | these headers satisfy the invariant: partition, free list and pfree |
| `SlabAlloc.TakenTiling` | nginx/nginx-release-1.13.1/src/core/ngx_slab.c:675-706 | the pages are again exactly partitioned into runs, allocations and slab pages |
| `SlabFree.MergeSound` | nginx/nginx-release-1.13.1/src/core/ngx_slab.c:742-787 | joining a free run to the run that is being returned keeps headers, lists and sums |
| `SlabFree.LoosenRun` | nginx/nginx-release-1.13.1/src/core/ngx_slab.c:728-734 | a multi-page allocation becomes a free run that is not listed yet |
| `SlabFree.RetireSound` | nginx/nginx-release-1.13.1/src/core/ngx_slab.c:728-740 | an idle slab page leaves its slot list and becomes a free run that is not listed yet |
| `SlabJoin.RightTest` | nginx/nginx-release-1.13.1/src/core/ngx_slab.c:742-748 | the test on the header behind the run is true exactly if a free run starts there |
| `SlabJoin.LeftTest` | nginx/nginx-release-1.13.1/src/core/ngx_slab.c:763-772 | the test through the page before the run is true exactly if a free run ends there |
| `SlabJoin.SettleInv` | nginx/nginx-release-1.13.1/src/core/ngx_slab.c:789-798 | putting the joined run on the list restores the invariant |
| `SlabList.PushChain` | nginx/nginx-release-1.13.1/src/core/ngx_slab.c:546-550 | putting a page in front of a ring of headers |
| `SlabList.UnlinkChain` | nginx/nginx-release-1.13.1/src/core/ngx_slab.c:736-740 | taking a page out of a ring of headers |
| `SlabList.ReplaceChain` | nginx/nginx-release-1.13.1/src/core/ngx_slab.c:678-684 | the rest of a split run takes the place of the run in the ring |
| `SlabBits.SmallFull` | nginx/nginx-release-1.13.1/src/core/ngx_slab.c:248-253 | a small-class page is full exactly if all bitmap words are NGX_SLAB_BUSY |
| `SlabBits.SmallIdle` | nginx/nginx-release-1.13.1/src/core/ngx_slab.c:509-519 | it is idle exactly if only the reserved bits are left |
| `SlabBits.SmallFresh` | nginx/nginx-release-1.13.1/src/core/ngx_slab.c:335-348 | the first bitmap words mark the reserved chunks and the first chunk behind them |
| `SlabBits.ExactFullIdle` | nginx/nginx-release-1.13.1/src/core/ngx_slab.c:277-284 | full and idle for the bitmap in the header word |
| `SlabBits.BigFullIdle` | nginx/nginx-release-1.13.1/src/core/ngx_slab.c:308-315 | full and idle for the bitmap in its upper half |
| `SlabServe.ServedStep` | nginx/nginx-release-1.13.1/src/core/ngx_slab.c:246-261 | setting the bit keeps the invariant and adds exactly that chunk |
| `SlabServe.CutStep` | nginx/nginx-release-1.13.1/src/core/ngx_slab.c:331-394 | cutting a page keeps the invariant; total and used follow |
| `SlabServe.NoneServes` | nginx/nginx-release-1.13.1/src/core/ngx_slab.c:220-223 | an empty slot list means that no page of the class has a free chunk |
| `SlabServe.ClassFound` | nginx/nginx-release-1.13.1/src/core/ngx_slab.c:206-208 | halving size - 1 until nothing is left gives the smallest class |
| `SlabReturn.AcceptedIsLive` | nginx/nginx-release-1.13.1/src/core/ngx_slab.c:461-624 | the checks accept exactly the addresses of live regions, and an address stands for one region only |
| `SlabReturn.ReservedNotLive` | nginx/nginx-release-1.13.1/src/core/ngx_slab.c:482-488 | no live chunk lies in the chunks that hold a bitmap |
| `SlabReturn.BitmapAddress` | nginx/nginx-release-1.13.1/src/core/ngx_slab.c:482-488 | every small-class page has such an address, its own |
| `SlabReturn.SpoiledNotInv` | nginx/nginx-release-1.13.1/src/core/ngx_slab.c:640-642 | a free of such an address always breaks the invariant |
| `SlabReturn.ReservedReady` | nginx/nginx-release-1.13.1/src/core/ngx_slab.c:509-519 | a page on which this happens is never taken for idle |
| `SlabReturn.BehindTheHeaders` | nginx/nginx-release-1.13.1/src/core/ngx_slab.c:461-467 | of the addresses that pass the test for the bounds, exactly those behind the last page lead past the page headers; the end of the pool always does |
| `SlabReturn.KeptInv` | nginx/nginx-release-1.13.1/src/core/ngx_slab.c:501-517 | clearing the bit keeps the invariant and removes exactly that chunk, if the page stays in use |
| `SlabReturn.GoneInv` | nginx/nginx-release-1.13.1/src/core/ngx_slab.c:521-525 | the same if the page goes back; total loses its capacity |
| `SlabReturn.RunGoneInv` | nginx/nginx-release-1.13.1/src/core/ngx_slab.c:626-629 | the same for a multi-page allocation |
| `SlabGrant.ClassUnique` | nginx/nginx-release-1.13.1/src/core/ngx_slab.c:205-213 | a request has only one class |
| `SlabGrant.ServesTight` | nginx/nginx-release-1.13.1/src/core/ngx_slab.c:188-213 | a region of the smallest class or page count wastes less than half of its bytes, whatever the size of the request, unless it is a chunk of 8 bytes |
| `SlabGrant.CountersFollow` | nginx/nginx-release-1.13.1/src/core/ngx_slab.c:356-360 | the slot counters follow a change of one page |
| `SlabGrant.LiveTaken` | nginx/nginx-release-1.13.1/src/core/ngx_slab.c:692-706 | taking pages adds exactly one live region |
| `SlabStart.RoomForPages` | nginx/nginx-release-1.13.1/src/core/ngx_slab.c:129-154 | the pages fit behind their headers; the alignment costs at most one |
| `SlabStart.FreshInv` | nginx/nginx-release-1.13.1/src/core/ngx_slab.c:104-157 | the initial state satisfies the invariant, although its run has no pointer back from its last page |
| `SlabRegions.LiveDisjoint` | nginx/nginx-release-1.13.1/src/core/ngx_slab.c:181-408 | any two live regions, of whatever classes, are disjoint in memory |
| `SlabRegions.LiveInside` | nginx/nginx-release-1.13.1/src/core/ngx_slab.c:181-408 | live regions lie inside the pages of the pool |
| `SlabRegions.LiveAligned` | nginx/nginx-release-1.13.1/src/core/ngx_slab.c:242-244 | chunks are aligned to their size and lie behind the bitmap of their page; runs are page-aligned |
| `SlabRegions.LiveUnique` | nginx/nginx-release-1.13.1/src/core/ngx_slab.c:181-408 | two live regions never have the same address |
| `SlabRegions.EncodeChunk` | nginx/nginx-release-1.13.1/src/core/ngx_slab.c:475-486 | the address of a chunk leads back to its page and number |
| `SlabRegions.DecodeChunk` | nginx/nginx-release-1.13.1/src/core/ngx_slab.c:475-486 | an address with clear low bits is the address of the chunk that the code computes from it |
| `SlabRegions.AllFreed` | nginx/nginx-release-1.13.1/src/core/ngx_slab.c:452-663 | once nothing is live the pool is one free run of all pages and the slot lists are empty |
| `SlabUse.UsedCountsLive` | nginx/nginx-release-1.13.1/src/core/ngx_slab.c:246 | used is the number of live chunks of the class |
| `SlabUse.PfreeCountsPages` | nginx/nginx-release-1.13.1/src/core/ngx_slab.c:728 | pfree is the number of free pages |
| `SlabUse.WordsOfMachine` | nginx/nginx-release-1.13.1/src/core/ngx_slab.c:26-40 | in every state of the invariant the header words and the bitmap words are below 2^64: the naturals of the model stay within machine words |
| `SlabUse.WritesKeepInv` | nginx/nginx-release-1.13.1/src/core/ngx_slab.c:342-348 | whatever callers write into their live regions, the bitmaps and the invariant are not touched |
| `SlabRegions.BitmapSparesRegions` | nginx/nginx-release-1.13.1/src/core/ngx_slab.c:342-348 | the other way round: bitmap words have no byte in common with a live region, so that writing them leaves the contents of every live region alone |
| `SlabGrant.NextStep` | nginx/nginx-release-1.13.1/src/core/ngx_slab.c:742-761 | looking at the run behind keeps the state sound and leaves no free run there |
| `SlabGrant.PrevStep` | nginx/nginx-release-1.13.1/src/core/ngx_slab.c:763-787 | looking at the run before keeps the state sound and leaves no free run there |
| `Shmtx.MutualExclusion` | nginx/nginx-release-1.13.1/src/core/ngx_shmtx.c:62-146 | in every run at most one process is between a successful lock or trylock and its unlock, and the lock word is its pid or 0 |
| `Shmtx.UnlockOnlyOwn` | nginx/nginx-release-1.13.1/src/core/ngx_shmtx.c:136-146 | unlock by a process that does not hold the lock changes nothing; by the holder it frees the lock |
| `Shmtx.WaitersAccounted` | nginx/nginx-release-1.13.1/src/core/ngx_shmtx.c:98-196 | in every state counter + semaphore + posts under way = registered waiters |
| `Shmtx.NoLostWakeup` | nginx/nginx-release-1.13.1/src/core/ngx_shmtx.c:98-196 | with the lock free and a waiter blocked on an empty semaphore, some process is in wakeup or on its way to test the lock |
| `Shmtx.QuietIsNotStuck` | nginx/nginx-release-1.13.1/src/core/ngx_shmtx.c:98-196 | if all others are outside or blocked as well, the semaphore is not empty |
| `Shmtx.QuietCounter` | nginx/nginx-release-1.13.1/src/core/ngx_shmtx.c:103-106 | with everybody outside, the counter is minus the tokens posted for waiters that had got the lock themselves |
| `Shmtx.CounterGoesNegative` | nginx/nginx-release-1.13.1/src/core/ngx_shmtx.c:103-183 | a run in which the counter becomes -1 |
| `Shmtx.StepInv` | nginx/nginx-release-1.13.1/src/core/ngx_shmtx.c:62-196 | every atomic step of every process keeps the invariant |
| `Shmtx.RunInv` | nginx/nginx-release-1.13.1/src/core/ngx_shmtx.c:62-196 | the invariant holds in every reachable state |
| `Shmtx.StepActive` | nginx/nginx-release-1.13.1/src/core/ngx_shmtx.c:164-196 | no step leaves counted waiters behind with the lock free, no token and nobody active |
| `ShmtxCalls.FailedSawLock` | nginx/nginx-release-1.13.1/src/core/ngx_shmtx.c:62-66 | a trylock that comes back without the lock had seen a lock word other than 0 |
| `ShmtxCalls.HolderIsRefused` | nginx/nginx-release-1.13.1/src/core/ngx_shmtx.c:62-66 | the holder itself is refused by its own trylock, and nothing changes |
| `ShmtxCalls.AloneGetsLock` | nginx/nginx-release-1.13.1/src/core/ngx_shmtx.c:62-133 | from every reachable state with the lock free, a process inside trylock or lock, also a waiter with a token, that moves alone has the lock after the steps that are to go, whatever it does |
| `ShmtxCalls.AloneCan` | nginx/nginx-release-1.13.1/src/core/ngx_shmtx.c:62-133 | and it can make these steps |
| `ShmtxCalls.MaySpin` | nginx/nginx-release-1.13.1/src/core/ngx_shmtx.c:82-96 | while the lock is taken a process may test it any number of times, without a trace |
| `ShmtxCalls.UnlockAlone` | nginx/nginx-release-1.13.1/src/core/ngx_shmtx.c:136-196 | a holder that unlocks and moves alone leaves a free lock, and exactly one token more and one counted waiter less if any waiter is counted |
| `RadixTree.Tree.constructor` | nginx/nginx-release-1.13.1/src/core/ngx_radix_tree.c:15-43 | the new tree answers NGX_RADIX_NO_VALUE for every prefix, and the invariant holds |
| `RadixTree.Tree.Insert` | nginx/nginx-release-1.13.1/src/core/ngx_radix_tree.c:108-170 | busy, with nothing changed, exactly if the prefix has a value; else exactly that prefix gets the value; the invariant holds: every leaf but the root has a value, every node is in the tree once or on the free list once |
| `RadixTree.Tree.Delete` | nginx/nginx-release-1.13.1/src/core/ngx_radix_tree.c:173-233 | an error, with nothing changed, exactly if the prefix has no value; else exactly that prefix loses it; the invariant holds: the dead branch is pruned and its nodes are on the free list |
| `RadixTree.Tree.Find` | nginx/nginx-release-1.13.1/src/core/ngx_radix_tree.c:236-263 | the value of the longest stored prefix of the key |
| `RadixTree.Tree.Alloc` | nginx/nginx-release-1.13.1/src/core/ngx_radix_tree.c:463-488 | a node that is not in the tree: the first free one if there is one, else a new one |
| `RadixTree.Tree.PruneBranch` | nginx/nginx-release-1.13.1/src/core/ngx_radix_tree.c:206-230 | the loop takes exactly the leaf and the ancestors that are left as empty leaves out of the tree, up to the root, and nothing else can be looked up differently |
| `RadixTree.Tree.PruneUp` | nginx/nginx-release-1.13.1/src/core/ngx_radix_tree.c:207-229 | one turn: the leaf goes to the free list, and the loop goes on exactly if its parent is now an empty leaf that is not the root |
| `RadixTree.Tree.GrowAll` | nginx/nginx-release-1.13.1/src/core/ngx_radix_tree.c:145-167 | the second loop adds the missing nodes, which no lookup can see, and then the value |
| `RadixTree.Tree.WalkIn` | nginx/nginx-release-1.13.1/src/core/ngx_radix_tree.c:115-134 | the first loop stops at the node of the prefix or where no node is left on the way to it |
| `RadixTree.Tree.WalkOut` | nginx/nginx-release-1.13.1/src/core/ngx_radix_tree.c:179-195 | the walk of delete ends at the node of the prefix, or the prefix has no value |
| `RadixTree.StillEmptied` | nginx/nginx-release-1.13.1/src/core/ngx_radix_tree.c:217-229 | dropping an empty parent as well changes no lookup |
| `RadixTree.PruneParted` | nginx/nginx-release-1.13.1/src/core/ngx_radix_tree.c:214-215 | the pruned node moves from the tree to the free list: still each node is in exactly one of them |
| `RadixTree.GrowthInvisible` | nginx/nginx-release-1.13.1/src/core/ngx_radix_tree.c:151-161 | a new node without a value changes no lookup |
| `RadixTree.SearchStep` | nginx/nginx-release-1.13.1/src/core/ngx_radix_tree.c:248-259 | one step of find keeps: the value so far is that of the longest stored prefix above |
| `RadixShape.LongestMeans` | nginx/nginx-release-1.13.1/src/core/ngx_radix_tree.c:236-263 | what "longest" is: the value stored for the first j bits, and no stored prefix of the key has more |
| `RadixShape.PlugElsewhere` | nginx/nginx-release-1.13.1/src/core/ngx_radix_tree.c:115-134 | a change below one prefix does not change the lookup of any prefix elsewhere |
| `RadixShape.UpdateAt` | nginx/nginx-release-1.13.1/src/core/ngx_radix_tree.c:141 | writing the value of a node is an update of exactly its prefix |
| `RadixShape.PrefixOfBits` | nginx/nginx-release-1.13.1/src/core/ngx_radix_tree.c:120-134 | the bits that key and mask stand for are the first bits of the key, up to the first clear bit of the mask |
| `RadixMask.PrefixMatches` | nginx/nginx-release-1.13.1/src/core/ngx_radix_tree.c:115-134 | for every mask: a key has the prefix of k and the mask exactly if it agrees with k in the ones of the mask before its first zero |
| `RadixMask.FairExactly` | nginx/nginx-release-1.13.1/src/core/ngx_radix_tree.c:115-134 | agreeing under the whole mask is the same for all keys exactly if the mask is ones and then zeros |
| `HashFill.Init` | nginx/nginx-release-1.13.1/src/core/ngx_hash.c:251-461 | an error exactly if max_size is 0 or a name does not fit into a bucket; else the table represents the names, and the buckets are where InPlace says |
| `HashFill.RoomInBytes` | nginx/nginx-release-1.13.1/src/core/ngx_hash.c:269 | what fits into a bucket, in bytes: the value, two bytes of length and the name, in whole words, and eight bytes more for the terminator |
| `HashFill.BytesInPlace` | nginx/nginx-release-1.13.1/src/core/ngx_hash.c:354-423 | in a table that Init has built the value, the length and the name of every element end before the next element or the terminator of the bucket starts, and the terminator ends within the bytes reserved for the bucket, which are whole cache lines |
| `HashFill.ElementsAt` | nginx/nginx-release-1.13.1/src/core/ngx_hash.c:395-423 | these are the places where the elements and the terminator are |
| `HashFill.WholeLines` | nginx/nginx-release-1.13.1/src/core/ngx_hash.c:347-393 | every bucket starts at a cache line |
| `HashLayout.EltSize` | nginx/nginx-release-1.13.1/src/core/ngx_hash.c:248-249 | the multiple of eight that holds eight bytes for the value, two for the length and those of the name, and no larger one |
| `HashLayout.TextWords` | nginx/nginx-release-1.13.1/src/core/ngx_hash.c:248-249 | the words for the length and the name, and no more |
| `HashLayout.LowerExactly` | nginx/nginx-release-1.13.1/src/core/ngx_hash.c:410 | two names are the same in lower case exactly if they differ only in the case of letters, and no upper-case letter is left |
| `HashLayout.HashIsNumber` | nginx/nginx-release-1.13.1/src/core/ngx_hash.c:609-622 | the hash is the value of the bytes as digits to the base 31, modulo 2^64 |
| `HashBuild.ChooseSize` | nginx/nginx-release-1.13.1/src/core/ngx_hash.c:284-332 | the first number of buckets from the start value on whose buckets all pass the test on the unsigned shorts, or max_size |
| `HashBuild.TestSize` | nginx/nginx-release-1.13.1/src/core/ngx_hash.c:295-314 | one round of the search: passes exactly if no wrapped bucket count exceeds the bucket size |
| `HashBuild.AcceptedFits` | nginx/nginx-release-1.13.1/src/core/ngx_hash.c:297-314 | a number of buckets that passes keeps every bucket within bucket_size: the wrap-around of the counters cannot fool the test |
| `HashBuild.ReliableExactly` | nginx/nginx-release-1.13.1/src/core/ngx_hash.c:297-314 | the test keeps the room of every bucket, for all names, exactly if that room is below half the range of the counters; from there on two names in one bucket pass it although they do not fit |
| `HashSearch.ChosenIsLeast` | nginx/nginx-release-1.13.1/src/core/ngx_hash.c:284-332 | where the test is right the search finds the least number of buckets that passes it, although it does not start at 1, or max_size if none does; with max_size above 10000 and less than 100 buckets for each name, the least of the last 1000 |
| `HashSearch.PassingIsNotSmall` | nginx/nginx-release-1.13.1/src/core/ngx_hash.c:286-287 | no number of buckets below the start value could pass |
| `HashBuild.Tally` | nginx/nginx-release-1.13.1/src/core/ngx_hash.c:334-345 | the byte totals of all buckets; the unsigned shorts do not wrap |
| `HashBuild.LayOut` | nginx/nginx-release-1.13.1/src/core/ngx_hash.c:347-393 | the buckets lie one after the other, each rounded up to cache lines; empty ones get none |
| `HashFill.Fill` | nginx/nginx-release-1.13.1/src/core/ngx_hash.c:395-413 | every element lands behind the previous one of its bucket, and no other element is overwritten |
| `HashFill.FillOne` | nginx/nginx-release-1.13.1/src/core/ngx_hash.c:399-413 | one name: its element is added to its bucket, the others stay |
| `HashFill.Terminate` | nginx/nginx-release-1.13.1/src/core/ngx_hash.c:415-423 | the terminators land behind the last elements and overwrite nothing |
| `HashFill.Build` | nginx/nginx-release-1.13.1/src/core/ngx_hash.c:334-428 | tally, layout, filling and terminating make a table that represents the names |
| `HashFill.NextFits` | nginx/nginx-release-1.13.1/src/core/ngx_hash.c:404-412 | the next element and a terminator still fit into what is reserved for the bucket |
| `HashFill.Elsewhere` | nginx/nginx-release-1.13.1/src/core/ngx_hash.c:386-413 | the reserved words of different buckets do not overlap |
| `HashTable.Find` | nginx/nginx-release-1.13.1/src/core/ngx_hash.c:12-49 | in a table that represents names: the value of the first of them in the bucket of the hash; with the hash of the name it is what an association list over all lower-cased names gives |
| `HashTable.FindIn` | nginx/nginx-release-1.13.1/src/core/ngx_hash.c:28-48 | the walk along a bucket, which ends at the terminator |
| `HashLayout.BucketEnough` | nginx/nginx-release-1.13.1/src/core/ngx_hash.c:22 | looking only into the bucket of the hash value is as good as looking through all names |
| `HashShape.ShapeFits` | nginx/nginx-release-1.13.1/src/core/ngx_hash.c:293-345 | the layout of a table depends only on the names, not on the values |
| `HashWild.FindHead` | nginx/nginx-release-1.13.1/src/core/ngx_hash.c:52-143 | in the nested tables for a list of rules the result, or else the value of the table itself, is that of the naive search for the longest rule; for every name, also with empty labels |
| `HashWild.FindTop` | nginx/nginx-release-1.13.1/src/core/ngx_hash.c:52-143 | at the top table it is exactly the result of the naive search |
| `HashWild.FindLabel` | nginx/nginx-release-1.13.1/src/core/ngx_hash.c:72-82 | hashing the last label and looking it up gives the entry that the rules ask for |
| `HashWild.SplitMakesName` | nginx/nginx-release-1.13.1/src/core/ngx_hash.c:62-70 | the labels of a looked-up name, from the last one on, joined by dots, are the name again |
| `HashWild.SearchStep` | nginx/nginx-release-1.13.1/src/core/ngx_hash.c:88-142 | how the longest match of a name follows from the rules for and below its last label |
| `HashNest.Compile` | nginx/nginx-release-1.13.1/src/core/ngx_hash.c:464-606 | for a sorted list of names without conflicts: it succeeds exactly if max_size is not 0 and every label fits into a bucket, and then the nested tables implement the rules of the list, with the two tag bits |
| `HashNest.MakeEntry` | nginx/nginx-release-1.13.1/src/core/ngx_hash.c:573-595 | the entry of a first label: data or nested table, tag bits, and the value of the rule for the label alone |
| `HashNest.AddGroup` | nginx/nginx-release-1.13.1/src/core/ngx_hash.c:489-596 | one more group of names with the same first label: the list of entries is right for all names so far |
| `HashNest.GroupTails` | nginx/nginx-release-1.13.1/src/core/ngx_hash.c:545-571 | what follows the first label in a group is all that follows it in the list |
| `HashNest.LevelFits` | nginx/nginx-release-1.13.1/src/core/ngx_hash.c:598-603 | the names of every nested table fit if the labels of the list do |
| `HashCompile.Gather` | nginx/nginx-release-1.13.1/src/core/ngx_hash.c:520-571 | collects exactly the names with the same first label, and what is left of them |
| `HashCompile.SameHeadExact` | nginx/nginx-release-1.13.1/src/core/ngx_hash.c:545-555 | in a sorted list the comparison of the code, with or without a dot, finds exactly the names with the same first label |
| `HashCompile.SameStart` | nginx/nginx-release-1.13.1/src/core/ngx_hash.c:546 | ngx_strncmp on strings that a NUL ends |
| `HashCompile.GroupEnds` | nginx/nginx-release-1.13.1/src/core/ngx_hash.c:489-555 | in a sorted list equal first labels stand together |
| `HashCompile.BareFirst` | nginx/nginx-release-1.13.1/src/core/ngx_hash.c:587-589 | the rule for a label alone can only be the first of its group |
| `HashCompile.GroupOnly` | nginx/nginx-release-1.13.1/src/core/ngx_hash.c:489-596 | what the list up to a group says about its label and about any other |
| `HashRules.NaiveStep` | nginx/nginx-release-1.13.1/src/core/ngx_hash.c:52-143 | the naive search, one label at a time |
| `HashRules.NaiveIsLongest` | nginx/nginx-release-1.13.1/src/core/ngx_hash.c:52-143 | what the naive search finds: a rule that matches, with the most labels of all that match; nothing only if none matches |
| `HashRules.LabelsTell` | nginx/nginx-release-1.13.1/src/core/ngx_hash.c:464-606 | in a sorted list different rules have different labels |
| `HashRules.LabelsMakeName` | nginx/nginx-release-1.13.1/src/core/ngx_hash.c:498-524 | the labels of a name, none of them empty or with a dot in it, joined by dots, are the name again |
| `HashOrder.SortedIsOrdered` | nginx/nginx-release-1.13.1/src/core/ngx_string.c:831-858 | names sorted with ngx_dns_strcmp, without conflicts, are sorted by their labels |
| `HashOrder.DnsBefore` | nginx/nginx-release-1.13.1/src/core/ngx_string.c:831-858 | the comparison of two names decides as the comparison of their labels does |
| `Crc32.Short` | nginx/nginx-release-1.13.1/src/core/ngx_crc32.h:20-35 | the nibble-table form computes the CRC by bitwise division, for every byte string |
| `Crc32.Long` | nginx/nginx-release-1.13.1/src/core/ngx_crc32.h:38-50 | the byte-table form computes the same |
| `Crc32.Running.constructor` | nginx/nginx-release-1.13.1/src/core/ngx_crc32.h:53-54 | a checksum of no data has begun: from here on the variable holds the remainder of the data fed so far |
| `Crc32.Running.Update` | nginx/nginx-release-1.13.1/src/core/ngx_crc32.h:57-69 | the data counts as fed, and the variable holds the remainder of all data so far |
| `Crc32.Running.Final` | nginx/nginx-release-1.13.1/src/core/ngx_crc32.h:72-73 | the variable holds the checksum of all the data that was fed, in however many pieces |
| `Crc32.CutAnywhere` | nginx/nginx-release-1.13.1/src/core/ngx_crc32.h:53-73 | dividing on over any number of pieces and finishing gives the one-shot checksum of their concatenation |
| `Crc32.LongByte` | nginx/nginx-release-1.13.1/src/core/ngx_crc32.h:46 | one table step is eight steps of the division |
| `Crc32.ShortNibble` | nginx/nginx-release-1.13.1/src/core/ngx_crc32.h:30 | one table step is four steps of the division |
| `Crc32.TwoNibbles` | nginx/nginx-release-1.13.1/src/core/ngx_crc32.h:30-31 | two nibbles, the low one first, are one byte |
| `Crc32.TailKeepsDifference` | nginx/nginx-release-1.13.1/src/core/ngx_crc32.h:57-69 | data with different checksums keep different checksums under any common tail |
| `CrcTables.Table16Steps` | nginx/nginx-release-1.13.1/src/core/ngx_crc32.c:26-31 | every entry of the short table is four division steps of its index |
| `CrcTables.Table256Steps` | nginx/nginx-release-1.13.1/src/core/ngx_crc32.c:34-99 | every entry of the long table is eight division steps of its index |
| `CrcBits.ByteAtOnce` | nginx/nginx-release-1.13.1/src/core/ngx_crc32.h:46 | mixing in a byte at once is feeding its bits one by one |
| `CrcBits.Step8Split` | nginx/nginx-release-1.13.1/src/core/ngx_crc32.h:46 | eight steps only mix in the lowest byte |
| `CrcBits.Step4Split` | nginx/nginx-release-1.13.1/src/core/ngx_crc32.h:30 | four steps only mix in the lowest nibble |
| `CrcBits.DivideOneToOne` | nginx/nginx-release-1.13.1/src/core/ngx_crc32.h:57-69 | the same bits keep different remainders different |
| `CrcBurst.BitBurstDetected` | nginx/nginx-release-1.13.1/src/core/ngx_crc32.h:38-50 | two different messages that differ only within 32 consecutive bits, wherever these lie, have different checksums |
| `CrcBurst.BurstDetected` | nginx/nginx-release-1.13.1/src/core/ngx_crc32.h:38-50 | in particular if they differ only within four neighbouring bytes |
| `CrcBurst.ShortDiffers` | nginx/nginx-release-1.13.1/src/core/ngx_crc32.h:57-69 | from the same remainder different strings of up to 32 bits lead to different remainders |
| `CrcStart.ChecksumFromZero` | nginx/nginx-release-1.13.1/src/core/ngx_crc32.h:20-50 | what the start value and the last inversion are: for messages of at least four bytes the checksum is the inverted remainder, from 0 on, of the message with its first 32 bits inverted |
| `CrcStart.ChecksumBehind` | nginx/nginx-release-1.13.1/src/core/ngx_crc32.h:20-50 | a message with its checksum behind it, lowest byte first, always has the checksum 0x2144df1c |
| `CrcStart.CheckedExactly` | nginx/nginx-release-1.13.1/src/core/ngx_crc32.h:20-50 | four bytes behind a message give that constant exactly if they are its checksum |
| `PoolSafety.StepInv` | threadpool/threadpool_new.cpp:76-133 | every step of every worker, caller and of the destructor, every timeout and every stray wakeup keeps the invariant |
| `PoolSafety.TraceInv` | threadpool/threadpool_new.cpp:24-133 | the invariant holds in every reachable state |
| `PoolSafety.WorkerInv` | threadpool/threadpool_new.cpp:76-133 | the steps of the workers |
| `PoolSafety.ClientInv` | threadpool/threadpool_new.h:54-95 | the steps of submitTask |
| `PoolSafety.DtorInv` | threadpool/threadpool_new.cpp:24-31 | the steps of the destructor |
| `PoolSafety.LiveIdsCounted` | threadpool/threadpool_new.h:105 | the size of threads_ is the number of threads that have not returned |
| `PoolShutdown.NobodyOversleeps` | threadpool/threadpool_new.cpp:86-122 | in either mode no worker sleeps un-notified while a task is queued, unless the submitter is just about to notify |
| `PoolShutdown.NobodyLeftToWake` | threadpool/threadpool_new.cpp:119-122 | so a worker that leaves tasks in the queue has nobody to wake |
| `PoolShutdown.CountersAgree` | threadpool/threadpool_new.h:54-95 | while the pool runs: curThreadSize_ is the size of threads_, idle plus busy threads are all threads, the bounds on the number of threads, and taskSize_ is the length of the queue, which is what was submitted and not yet taken, in order |
| `PoolWork.TasksAccounted` | threadpool/threadpool_new.cpp:114-131 | in every reachable state each task is, as often as it was submitted, still queued, in the hands of a worker, or has been run |
| `PoolWork.EveryTaskRunOnce` | threadpool/threadpool_new.cpp:24-131 | when the destructor of a pool that was started with a thread is done, the tasks that were run are exactly the submitted ones, each as often as it was submitted |
| `PoolSubmit.RefusedSawFull` | threadpool/threadpool_new.h:54-75 | in every run: a call of submitTask that ends without its task in the queue had held the mutex with the queue at its limit |
| `PoolSubmit.CallersWakeUp` | threadpool/threadpool_new.cpp:123-124 | in every run no caller sleeps while there is room, except until the worker that has just made room notifies |
| `PoolSubmit.FillsUp` | threadpool/threadpool_new.h:54-95 | for every limit and every number of tasks up to it some run from the start puts just these into the queue; a cached pool then has one thread for each task, between its initial number and its threshold |
| `PoolSubmit.MayRefuse` | threadpool/threadpool_new.h:63-75 | for a pool filled to its limit a run is built in which a caller is refused, whether its wait timed out or it was woken before |
| `PoolShutdown.NobodyBlocksAgain` | threadpool/threadpool_new.cpp:24-31 | after the notification of the destructor no worker waits on noEmpty_ any more |
| `PoolShutdown.EndNearer` | threadpool/threadpool_new.cpp:76-133 | from then on every step of a thread shortens what is left to do |
| `PoolShutdown.StuckExactlyIfHung` | threadpool/threadpool_new.cpp:24-133 | from then on some thread can make a step, except exactly if the destructor waits and no thread is left to notify it |
| `PoolShutdown.WaitEnds` | threadpool/threadpool_new.cpp:24-31 | every run from there on is bounded by what is left and by the stray wakeups, and ends with the destructor done or hung |
| `PoolShutdown.Drained` | threadpool/threadpool_new.cpp:24-31 | when the destructor is done every thread has returned, and in either mode a pool that was started with a thread has taken every submitted task, in order |
| `PoolShutdown.FixedDrained` | threadpool/threadpool_new.cpp:24-31 | in fixed mode the queue is drained at the end exactly if the pool was started with a thread or got no task |
| `PoolShutdown.DestructorReturns` | threadpool/threadpool_new.cpp:24-31 | both for every run |
| `PoolHang.HangsExactlyIf` | threadpool/threadpool_new.cpp:24-107 | called in any state, the destructor can hang exactly if the pool has more threads than it was started with and one of them waits for a task, is about to, or wants the mutex back after its wait, whether it was notified or not |
| `PoolHang.SafeNeverHangs` | threadpool/threadpool_new.cpp:24-107 | where that condition fails, no run hangs |
| `PoolHang.SafeKept` | threadpool/threadpool_new.cpp:76-133 | every step of every thread, every timeout and every stray wakeup keeps a safe pool safe |
| `PoolHang.LateMayHang` | threadpool/threadpool_new.cpp:93-107 | where it holds, a run is built that hangs: the wait of that thread has lasted too long, all others retire, and it leaves last without a notification |
| `PoolHang.OthersRetire` | threadpool/threadpool_new.cpp:86-107 | the part of that run after the notification, for any number of threads and tasks |
| `PoolHang.FixedNeverHangs` | threadpool/threadpool_new.cpp:110-112 | in fixed mode there are never more threads, so the destructor cannot hang |
| `PoolHang.NotifiedMayHang` | threadpool/threadpool_new.cpp:94-107 | a reachable state in which the only thread was woken in time, and from which the destructor can hang all the same |
| `PoolRuns.LosesTasksExactlyIf` | threadpool/threadpool_new.cpp:24-107 | in either mode, for every threshold and every queue with room: the destructor can return with a task still queued exactly if the pool is started with no threads |
| `PoolRuns.NeverAbandoned` | threadpool/threadpool_new.cpp:76-133 | in every reachable state of a pool that was started with a thread there is a thread while a task is queued |
| `PoolRuns.NobodyTakesIt` | threadpool/threadpool_new.cpp:94-107 | a run of a cached pool that was started with no threads: a task arrives while the only thread times out, no other is made, and the thread leaves; the pool is still running, and nobody takes the task |
| `PoolRuns.NoThreadsNoTasks` | threadpool/threadpool_new.cpp:56-73 | a run: a pool that is started with no threads and cannot grow keeps its task |
| `PoolHang.CachedMayHang` | threadpool/threadpool_new.cpp:98-107 | a run from the start of a cached pool to a destructor that hangs |

## Left out

- ngx_rbtree_insert_timer_value: its comparison modulo the word size is an order only while all keys lie within half the range; the fix-up it shares with ngx_rbtree_insert_value is modelled.
- Red-black keys are unbounded naturals; the code only compares them.
- The parent field of the root and of the sentinel is scratch: the invariant says nothing about it, as the code leaves stale values there.
- The slab model is that of 64-bit words, 4096-byte pages and min_shift 3; other page sizes and larger minimum sizes are not modelled.
- SlabPool.Pool.constructor: asks for room for at least one page; with less the code sets up a free run of length 0.
- SlabPool.Pool.Free: does not cover addresses behind the last page and up to the end of the pool, for which the code reads past the page headers (SlabReturn.BehindTheHeaders says which these are): what lies there is not modelled.
- The bytes behind a small-class bitmap, and everything callers write, are only modelled as words that may change (SlabUse.WritesKeepInv); junk fills, ngx_slab_calloc, the locking wrappers and log messages are left out.
- Machine words of the slab pool are naturals with explicit bit functions; counters are integers without a bound.
- Page headers are named by index, with the free-list head and the slot heads behind the pages; the two tag bits of `prev` are a field of their own.
- ngx_shmtx: the file-lock branch, ngx_shmtx_force_unlock, errors of the semaphore calls, EINTR and processes that die are left out; spinning is one more test of the lock, and the waiter counter is an unbounded integer.
- ngx_shmtx: the holder may call ngx_shmtx_trylock again, and gets 0; that it calls ngx_shmtx_lock again, and blocks itself, is left out.
- Shmtx.NoLostWakeup: is a safety property: that the active process is scheduled is left to the operating system.
- Radix: the 128-bit functions, preallocation and failing page allocations are left out; a node that ngx_radix_alloc cuts from a page is a new object.
- RadixTree.Tree.Delete: does not cover the empty prefix when the root has no children; the code follows the null parent of the root then.
- RadixTree.Tree.Insert: does not cover the value NGX_RADIX_NO_VALUE, which ngx_radix_tree_create passes when it preallocates empty nodes; that call is left out with the preallocation. Masks need not be contiguous, as the walk stops at the first clear bit.
- Hash: the memory for the elements is a sequence of eight-byte words (a value, then the length and the name, then the rest of the name); values are not null, which is what ends a bucket in the code.
- HashFill.Init: asks for bucket totals that the unsigned shorts hold, and for bucket_size of at least 24 if there are no names, where the code would divide by zero or wrap around; failing allocations are left out.
- HashNest.Compile: asks for the same at every level, for names in lower case without NUL bytes or empty labels, and for no two names with the same labels; the tag bits stand beside the pointer, as data addresses are multiples of four.
- Hash: ngx_hash_add_key, ngx_hash_find_wc_tail and ngx_hash_find_combined are left out: they add parsing and a mirror image without nested recursion.
- HashBuild.AcceptedFits: is stated for bucket sizes below half the range of the unsigned shorts, since only there the test is right (HashBuild.ReliableExactly).
- CRC: the tables are functions of the index with the values of the source; ngx_crc32_table_init, which copies the short table to a cache line, is left out.
- Thread pool: a step is what a thread does between two operations on the mutex, a condition variable or an atomic counter; std::cout, futures and results are left out, a task is a number, and its body ends.
- Thread pool: the model starts when start() has returned, with thread ids from 0, as start() indexes threads_ by its loop counter; a second pool in the same process and submitTask before start() are left out, and so are the setters.
- Thread pool: the idle time of a cached thread and the one-second limits are not measured: a wait may time out at any moment until the mutex is back, notified or not, and the test of the idle time may have either result.
- Thread pool: the queue limit is not negative (the code compares it with an unsigned size), and nobody calls submitTask while the destructor runs.
