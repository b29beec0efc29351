# A verified model of OneBase

OneBase is a small disk-backed relational engine. This project models the parts of it whose behaviour is
decided by intricate code, each in the form the engine gives it, and proves what the engine promises about
them. `dafny verify dfyconfig.toml` checks everything.

The B+ tree (`BPlus*.dfy`) is a store of pages with parent pointers, a leaf chain and an unused key in slot 0
of internal pages. A flat invariant gives every page the span of keys it is responsible for; splits, merges,
borrows and root changes are steps on it, with one pending pair of siblings allowed in between. The class
`BPlusTree` runs the loops of the engine over the buffer pool, fetching and unpinning its pages through `BPlusPager`, and
is shown to be a finite map. `BPlusPages` holds the page objects themselves, arrays shifted in place, shown to do what
the functions used in the tree say.

The buffer pool (`BufferPool.dfy`) is a write-back cache that its clients cannot tell from a plain store of pages;
`LruK.dfy` is its replacer, exact against the complete access history although it keeps only k times per frame.

The lock manager (`Lock*.dfy`) is a state machine with one step per critical section; a blocked call ends its
section and a wake-up is a step of its own. `LockInvariant` holds in every reachable state, `LockSerial` derives
conflict serializability and `LockExact` shows that its condition is exact, and the class `LockManager` with its `TransactionManager` performs the steps on mutable
queues, transactions and sets.

Query execution starts from values and expressions with their typing (`Values`, `Expressions`), models the joins and
the aggregation as pull-based executors whose children hand out rows until their end or an error (`Pulls`, `Joins`,
`Aggregates`, `Aggregation`, `GroupKeys`, `GroupBy`, `Sorts`), says what running a plan tree can come to (`Plans`), when it
cannot raise an error (`CalmPlans`), and when the optimizer keeps it: by what the parts of the plan come to, exactly at each
join (`Optimizer`, `OptimizerTheorem`), and as a check of the plan tree (`OptimizerChecks`, `PlanExamples`).

Storage under the scans is the slotted page in bytes (`PageBytes`, `TablePage`), the page chain of a table heap with
its iterator (`TableHeap`), stored tuples (`Tuples`), and the scans and index building on top (`Scans`,
`CatalogStore`).

## Where the code departs from its intent

The model follows the code; these departures are theorems.

- An internal borrow from the right reads the new separator after the donor's slots were shifted and so takes the
  donor's second routing key (`b_plus_tree.cpp:563-565`). `BPlusTree.BPlusTree.Remove` is right exactly when the removal
  does not end there, `WillBreak` decides that beforehand, and `BPlusExample` is a tree on which it happens.
- A waiting upgrade gives up its shared grant (`lock_manager.cpp:128-129`) while the row stays in its shared set. Granted
  requests stay compatible, and a waiting upgrade alone does no harm. Runs are serializable as long as no growing
  transaction is overtaken, that is, waits to upgrade a row while another one is granted it exclusively. The condition is
  exact: from a run that overtakes somebody, the same lock steps followed by one unlock and one wake-up allow a cycle.
  `LockExample` says when the grant is kept and gives such a run.
- The guard of a page update compares the growth with the free space, but the update consumes the whole new size
  (`table_page.cpp:96-101`). It is right exactly when the whole record fits.
- Hashing goes by text, where a null reads `NULL`, while comparison looks at a zero payload. Hash join and nested-loop
  join agree exactly when no such pair of keys meets. For the same reason a rewritten scan for a null constant differs
  from the sequential one exactly when some row holds a zero.
- A nested-loop join with an empty left side never asks its right side for a row (`nested_loop_join_executor.cpp:34-41`), but
  the hash join it is rewritten to runs it (`hash_join_executor.cpp:42-43`), so an error there appears only after the
  rewrite. The rewrite keeps errors exactly when none can go unseen in this way. A nested-loop join that stays one keeps
  them exactly when its right side and the optimized one start together for an empty left side, which the order of rows
  can prevent; `PlanExamples` has an input for each of the two. Whenever plan and optimized plan both run through, they
  return the same rows all the same.
- Group keys are joined with `|`. The joined text tells all keys of given column types apart exactly when at most one
  column is a string and that one is never null; with two strings, or a null that reads `NULL`, groups can merge. A
  merged group shows the key of its first row, so exactly then the output depends on the order of the input.
- A stored string is as long as it is, but the schema counts four bytes for it (`schema.h:10-21`). The rows of a schema all
  read back exactly when only its last column may be a string.
- Unpinning a written page for the last time without a dirty mark, which the pool accepts, loses the write once the frame
  is evicted, unless the disk has the same contents.
- Deleting a page that is not resident returns true and leaves it on disk, and freed page ids are not reused.
- A record too long for any page leaves an empty page at the end of the chain.

## Assumptions

A B+ tree has leaf pages of at least two and internal pages of at least three rows, and a pool of at least four frames
with nothing else pinned; every operation then holds at most four pins, keeps all other pin counts, unpins what it wrote
as dirty and deletes only unpinned pages, because the pager's preconditions are met at each of its calls; so no fetch or
allocation inside the tree fails. Replacers have
k of at least one. Clients of the pool write only while they hold a pin and unpin a written page as dirty; only allocated
pages are fetched. A transaction runs on one thread, makes no lock calls after commit and asks for an upgrade as an upgrade;
accesses are made under held locks. `Commit` and `Abort` unlock a snapshot of the lock sets, because the loops in the
engine erase from the sets they walk. Integer arithmetic is taken to wrap at 32 bits. A child executor, once started again,
comes to the same. A division by zero, or an operator on the wrong type, raises an error where the executors evaluate it;
an expression that no executor evaluates raises none.

## Model

| member | source | states |
|---|---|---|
| BPlusTree.Run | src/storage/index/b_plus_tree.cpp:143-628 | any run of inserts and removes from the empty tree, over a buffer pool of four frames or more, ends in a valid tree whose entries are those of the plain finite map after the same run; with the removal as coded the run gets as far as the first removal that breaks, with the repaired one always to the end; pages other clients had in the pool stay as they were |
| BPlusTree.BPlusTree.Insert | src/storage/index/b_plus_tree.cpp:143-341 | false exactly when the key is present, and then nothing changes; otherwise the map gains exactly this pair; shape, sizes, leaf chain and parent links hold again; all pages are unpinned |
| BPlusTree.BPlusTree.Remove | src/storage/index/b_plus_tree.cpp:344-628 | removal as coded: afterwards every search agrees with the map without the key if and only if the removal did not end in a borrow from the right sibling of an internal page |
| BPlusTree.BPlusTree.RemoveRepaired | src/storage/index/b_plus_tree.cpp:344-628 | removal with the new separator read before the move: valid on every tree, deletes exactly the key |
| BPlusTree.BPlusTree.WillBreak | src/storage/index/b_plus_tree.cpp:407-626 | the condition of Remove, decided before the call by one descent and a walk back up that fetches pages and looks at their sizes |
| BPlusTree.BPlusTree.GetValue | src/storage/index/b_plus_tree.cpp:45-76 | the value of the key in the map, or none |
| BPlusTree.BPlusTree.Propagate | src/storage/index/b_plus_tree.cpp:248-339 | the split loop: a pending pair of siblings is hung into the parent, splitting upwards until it fits or a new root is made |
| BPlusTree.BPlusTree.RepairUp | src/storage/index/b_plus_tree.cpp:407-626 | the underflow loop: borrows or merges upwards; ends by distance to the root; valid unless it ended in the faulty borrow |
| BPlusTree.BPlusTree.SplitLeafPage | src/storage/index/b_plus_tree.cpp:213-246 | leaf split: the upper half moves to a new right sibling in the chain, the pair is pending in the parent |
| BPlusTree.BPlusTree.InsertIntoParent | src/storage/index/b_plus_tree.cpp:285-303 | the right half of a pair becomes a child of the existing parent next to the left one |
| BPlusTree.BPlusTree.SplitInnerPage | src/storage/index/b_plus_tree.cpp:309-338 | internal split: the middle key moves up, moved children name their new parent |
| BPlusTree.BPlusTree.GrowRoot | src/storage/index/b_plus_tree.cpp:258-283 | a split root gets a new root above it |
| BPlusTree.BPlusTree.DropRoot | src/storage/index/b_plus_tree.cpp:500-516 | a root left with one child is deleted and the child becomes the root |
| BPlusShape.OneCover | src/storage/index/b_plus_tree.cpp:181-196 | at every level at most one page is responsible for a key, also while a split is pending |
| BPlusSearch.OneResponsible | src/storage/index/b_plus_tree.cpp:181-196 | in a settled tree, at every level exactly one page is responsible for a key |
| BPlusSearch.FindAgrees | src/storage/index/b_plus_tree.cpp:45-76 | a search through any sound tree finds exactly the map's pairs |
| BPlusSearch.LeafDepth | src/storage/index/b_plus_tree.cpp:143-341 | every leaf is as far from the root as the tree is high: all leaves lie at one depth |
| BPlusSearch.OnePath | src/storage/index/b_plus_tree.cpp:143-341 | no page is reached from the root along two different paths |
| BPlusSearch.PathTo | src/storage/index/b_plus_tree.cpp:143-341 | every page of the store is reached from the root |
| BPlusSearch.InsertAtLeaf | src/storage/index/b_plus_tree.cpp:198-211 | inserting at the responsible leaf inserts into the map and touches no other pair |
| BPlusSearch.RemoveAtLeaf | src/storage/index/b_plus_tree.cpp:382-405 | removing at the responsible leaf removes from the map and touches no other pair |
| BPlusSplit.SplitLeafKeeps | src/storage/index/b_plus_tree.cpp:213-246 | a leaf split keeps the shape, with the pair pending |
| BPlusSplit.SplitInnerKeeps | src/storage/index/b_plus_tree.cpp:309-338 | an internal split keeps the shape and the children's parent links |
| BPlusSplit.LinkKeeps | src/storage/index/b_plus_tree.cpp:285-303 | hanging the right half into the parent settles the pair and keeps separator bounds |
| BPlusSplit.NewRootKeeps | src/storage/index/b_plus_tree.cpp:258-283 | a new root keeps the shape one level higher |
| BPlusMerge.UnlinkKeeps | src/storage/index/b_plus_tree.cpp:485-497 | taking the right sibling out of the parent leaves a pending pair |
| BPlusMerge.JoinLeavesKeeps | src/storage/index/b_plus_tree.cpp:476-498 | merging two leaves keeps the shape and splices the chain |
| BPlusMerge.JoinInnersKeeps | src/storage/index/b_plus_tree.cpp:575-599 | merging two internal pages with the separator between them keeps the shape and reparents the children |
| BPlusMerge.ShrinkRootKeeps | src/storage/index/b_plus_tree.cpp:601-614 | dropping a one-child root keeps the shape |
| BPlusBorrow.ShareLeavesKeeps | src/storage/index/b_plus_tree.cpp:446-474 | moving the boundary between two sibling leaves, with the separator set to the right one's first key, keeps the shape |
| BPlusBorrow.ShareInnersKeeps | src/storage/index/b_plus_tree.cpp:538-573 | moving the boundary between two internal siblings through the parent keeps the shape, if the separator is the key at the boundary |
| BPlusBorrow.LeftGives | src/storage/page/b_plus_tree_internal_page.cpp:215-246 | a borrow from the left sibling is such a move of the boundary |
| BPlusBorrow.RightGives | src/storage/page/b_plus_tree_internal_page.cpp:187-212 | a borrow from the right sibling is such a move when the separator is the donor's first routing key |
| BPlusFaults.LateSeparatorRaises | src/storage/index/b_plus_tree.cpp:557-571 | read after the move, the separator is the donor's second routing key: too high |
| BPlusFaults.RaisedIsWrong | src/storage/index/b_plus_tree.cpp:563-565 | with the raised separator exactly the keys between the two routing keys are lost, and there is at least one |
| BPlusFaults.ToldBefore | src/storage/index/b_plus_tree.cpp:407-572 | whether a removal ends in that borrow can be told from the page sizes before it starts |
| BPlusFaults.LeafDecides | src/storage/index/b_plus_tree.cpp:365-405 | the leaf responsible for the key decides whether its removal breaks |
| BPlusExample.RemovalCanBreak | src/storage/index/b_plus_tree.cpp:557-571 | a concrete sound tree and key on which the condition of Remove holds |
| BPlusPager.Pager.New | src/storage/index/b_plus_tree.cpp:213-221 | a page allocated and filled by the tree never fails while fewer pages are pinned than the pool has frames: a fresh id, pinned once, with the given contents |
| BPlusPager.Pager.Fetch | src/storage/index/b_plus_tree.cpp:183-195 | a page of the tree fetched from the pool has the contents last written to it, and cannot be refused while fewer pages are pinned than the pool has frames |
| BPlusPager.Pager.Unpin | src/storage/index/b_plus_tree.cpp:193-204 | a page unpinned as dirty whenever it was written keeps pool and tree in agreement |
| BPlusPager.Pager.Delete | src/storage/index/b_plus_tree.cpp:488-494 | an unpinned page deleted from the pool leaves the tree's pages, all others stay |
| BPlusIterator.Iterator.Current | src/storage/index/b_plus_tree_iterator.cpp:28-52 | operator*: the first pair still to be visited |
| BPlusIterator.Iterator.Advance | src/storage/index/b_plus_tree_iterator.cpp:55-89 | operator++: drops exactly the first pair, moving along the leaf chain |
| BPlusIterator.Iterator.SameIff | src/storage/index/b_plus_tree_iterator.cpp:91-99 | operator==: two iterators on a tree are equal if and only if the same pairs are left to visit, so one equals the end if and only if none are |
| BPlusIterator.Begin | src/storage/index/b_plus_tree.cpp:79-102 | starts at the map's least key |
| BPlusIterator.BeginAt | src/storage/index/b_plus_tree.cpp:105-140 | starts at the first key not below the given one, also when the leaf it routes to has none |
| BPlusIterator.Scan | src/storage/index/b_plus_tree_iterator.cpp:55-100 | Begin(key) to End() yields exactly the map's pairs from the key on, in strictly increasing order |
| BPlusIterator.ScanAll | src/storage/index/b_plus_tree_iterator.cpp:55-100 | Begin() to End() yields exactly the map's pairs in strictly increasing order |
| BPlusIterator.ChainLists | src/storage/index/b_plus_tree.cpp:234-236 | following the leaf chain from the first leaf meets the leaves left to right |
| BPlusIterator.OneListing | src/storage/index/b_plus_tree_iterator.cpp:55-89 | there is only one increasing listing of a map from a key on |
| BPlusNodes.LowerBoundFinds | src/storage/page/b_plus_tree_leaf_page.cpp:32-47 | the lower bound is the key's place if it is present |
| BPlusNodes.LeafInsertMeaning | src/storage/page/b_plus_tree_leaf_page.cpp:66-88 | leaf insertion keeps the order and adds exactly the pair, or nothing if the key is present |
| BPlusNodes.LeafRemoveMeaning | src/storage/page/b_plus_tree_leaf_page.cpp:90-108 | leaf removal keeps the order and drops exactly the key |
| BPlusPages.LeafPage.KeyIndex | src/storage/page/b_plus_tree_leaf_page.cpp:32-47 | the binary search returns the lower bound |
| BPlusPages.LeafPage.Lookup | src/storage/page/b_plus_tree_leaf_page.cpp:49-64 | the value of the key on the page, or none |
| BPlusPages.LeafPage.Insert | src/storage/page/b_plus_tree_leaf_page.cpp:66-88 | the in-place shift inserts in order, or changes nothing if the key is present |
| BPlusPages.LeafPage.RemoveAndDeleteRecord | src/storage/page/b_plus_tree_leaf_page.cpp:90-108 | the in-place shift removes the key, or changes nothing |
| BPlusPages.LeafPage.MoveHalfTo | src/storage/page/b_plus_tree_leaf_page.cpp:110-128 | lower half stays, upper half moves |
| BPlusPages.LeafPage.MoveAllTo | src/storage/page/b_plus_tree_leaf_page.cpp:130-145 | everything is appended to the recipient, which takes over the next pointer |
| BPlusPages.LeafPage.MoveFirstToEndOf | src/storage/page/b_plus_tree_leaf_page.cpp:147-161 | one row moves left; an empty donor is an error |
| BPlusPages.LeafPage.MoveLastToFrontOf | src/storage/page/b_plus_tree_leaf_page.cpp:164-177 | one row moves right; an empty donor is an error |
| BPlusPages.InternalPage.FindChild | src/storage/page/b_plus_tree_internal_page.cpp:41-48 | the child's place, or -1 |
| BPlusPages.InternalPage.Lookup | src/storage/page/b_plus_tree_internal_page.cpp:51-68 | the child routed to |
| BPlusPages.InternalPage.PopulateNewRoot | src/storage/page/b_plus_tree_internal_page.cpp:71-80 | two children and one routing key |
| BPlusPages.InternalPage.InsertNodeAfter | src/storage/page/b_plus_tree_internal_page.cpp:83-100 | the new child follows the old one; an unknown old child is an error |
| BPlusPages.InternalPage.Remove | src/storage/page/b_plus_tree_internal_page.cpp:103-112 | one slot goes; an index out of range is an error |
| BPlusPages.InternalPage.RemoveAndReturnOnlyChild | src/storage/page/b_plus_tree_internal_page.cpp:115-123 | the only child; any other size is an error |
| BPlusPages.InternalPage.MoveAllTo | src/storage/page/b_plus_tree_internal_page.cpp:126-149 | the slots are appended with the middle key in the first one |
| BPlusPages.InternalPage.MoveHalfTo | src/storage/page/b_plus_tree_internal_page.cpp:152-184 | lower half stays, upper half moves with the middle key in its unused slot 0 |
| BPlusPages.InternalPage.MoveFirstToEndOf | src/storage/page/b_plus_tree_internal_page.cpp:187-212 | the first child moves left with the middle key, and slot 1 then holds the old second routing key |
| BPlusPages.InternalPage.MoveLastToFrontOf | src/storage/page/b_plus_tree_internal_page.cpp:215-244 | the last child moves right, the middle key becomes the old first child's |
| LruK.Replacer.PickVictim | src/buffer/lru_k_replacer.cpp:9-49 | the scan with its running best finds the frame the definition over the complete log names, whatever order the map is walked in |
| LruK.OneVictim | src/buffer/lru_k_replacer.cpp:9-49 | the definition names at most one frame |
| LruK.Replacer.FrontTells | src/buffer/lru_k_replacer.cpp:20-35 | the front of the truncated history gives the backward k-distance over the complete log |
| LruK.Replacer.Evict | src/buffer/lru_k_replacer.cpp:9-49 | evicts that frame, forgets its log; fails, changing nothing, only if nothing is evictable |
| LruK.Replacer.RecordAccess | src/buffer/lru_k_replacer.cpp:51-67 | one access more in the frame's log; flags and size unchanged; out-of-range frames are refused |
| LruK.Replacer.SetEvictable | src/buffer/lru_k_replacer.cpp:69-84 | sets the flag of a tracked frame and keeps the size the number of evictable frames |
| LruK.Replacer.Remove | src/buffer/lru_k_replacer.cpp:86-100 | forgets an evictable frame; a pinned one is refused |
| BufferPool.Pool.NewPage | src/buffer/buffer_pool_manager.cpp:22-57 | a fresh zero page, pinned once; null exactly when every frame is pinned, and then table, frames, free list, replacer and disk are as before |
| BufferPool.Pool.FetchPage | src/buffer/buffer_pool_manager.cpp:59-102 | the bytes last written to the page, whatever was evicted, flushed and read again in between; null exactly when the page is not resident and every frame is pinned, and then nothing has changed |
| BufferPool.Pool.UnpinPage | src/buffer/buffer_pool_manager.cpp:104-131 | one pin less; refused for a page not resident or not pinned; the pool stays sound if and only if the last unpin of a written page leaves it marked dirty or the disk has the same contents, and otherwise evicting this one page loses the write |
| BufferPool.Pool.Write | src/buffer/buffer_pool_manager.cpp:22-182 | a client's write while pinned changes the store at that page only |
| BufferPool.Pool.FlushPage | src/buffer/buffer_pool_manager.cpp:133-143 | the page is on disk as it is in the store; pins unchanged |
| BufferPool.Pool.FlushAllPages | src/buffer/buffer_pool_manager.cpp:145-154 | every resident page is on disk as it is in the store |
| BufferPool.Pool.DeletePage | src/buffer/buffer_pool_manager.cpp:156-182 | refused for a pinned page; a resident page leaves the store; one not resident stays on disk |
| BufferPool.Pool.Acquire | src/buffer/buffer_pool_manager.cpp:26-46 | a free frame, or the victim with its dirty page written back first; none exactly when all frames are pinned |
| BufferPool.Pool.WhenFull | src/buffer/buffer_pool_manager.cpp:26-32 | no free frame and nothing evictable exactly when every frame is pinned |
| BufferPool.Pool.FewPinned | src/buffer/buffer_pool_manager.cpp:72-79 | with fewer pinned pages than frames the next fetch or allocation cannot fail |
| BufferPool.TakeVictim | src/buffer/buffer_pool_manager.cpp:34-46 | forgetting an evicted frame's page keeps free and resident frames a partition and the page table injective |
| BufferPool.WriteBack | src/buffer/buffer_pool_manager.cpp:38-44 | writing a dirty victim back before forgetting it loses nothing |
| BufferPool.CleanUnpinLosesWrite | src/buffer/buffer_pool_manager.cpp:104-131 | after a last unpin, what a fetch reads back once the frame was evicted: the written contents if the frame is dirty, else those of the disk; the two are equal if and only if the pool still agrees with the store |
| LockManager.LockManager.LockShared | src/concurrency/lock_manager.cpp:6-47 | the critical section of the call is the step LockShared of the state machine |
| LockManager.LockManager.LockExclusive | src/concurrency/lock_manager.cpp:49-89 | the same for LockExclusive |
| LockManager.LockManager.LockUpgrade | src/concurrency/lock_manager.cpp:91-156 | the same for LockUpgrade |
| LockManager.LockManager.Unlock | src/concurrency/lock_manager.cpp:158-192 | the same for Unlock, with the notification of the queue |
| LockManager.LockManager.Wake | src/concurrency/lock_manager.cpp:25-46 | what a woken thread does: gives up and notifies the others if aborted, proceeds if its condition holds, waits on otherwise |
| LockManager.LockManager.Check | src/concurrency/lock_manager.cpp:131-141 | the scan of the other transactions' granted requests |
| LockManager.TransactionManager.Begin | src/concurrency/transaction_manager.cpp:5-12 | a growing transaction without locks under a fresh id |
| LockManager.TransactionManager.Commit | src/concurrency/transaction_manager.cpp:14-27 | no request of the transaction is left, its lock sets are empty, all others are untouched, the invariant holds |
| LockManager.TransactionManager.Abort | src/concurrency/transaction_manager.cpp:29-42 | the same, in state aborted |
| LockInvariant.Reachable | src/concurrency/lock_manager.cpp:6-192 | in every reachable state of every interleaving queues, lock sets and waiting threads agree and grants are compatible |
| LockInvariant.StepKeeps | src/concurrency/lock_manager.cpp:6-192 | every allowed step keeps that invariant |
| LockTheorems.MutualExclusion | src/concurrency/lock_manager.cpp:68-88 | a granted exclusive request excludes every other transaction's grant on the row |
| LockTheorems.SetsAgree | src/concurrency/lock_manager.cpp:44-45 | exclusive set = granted exclusive, shared set = granted shared or pending upgrade, one request per transaction and row |
| LockTheorems.SingleUpgrader | src/concurrency/lock_manager.cpp:108-143 | the upgrade flag is set exactly while one transaction waits to upgrade on the row |
| LockTheorems.GrantedWhenFree | src/concurrency/lock_manager.cpp:25-44 | a request becomes granted only by its own transaction's step, with no incompatible grant in that state |
| LockTheorems.ProceedMeans | src/concurrency/lock_manager.cpp:29-35 | the scanned condition holds exactly when no other transaction's grant stands in the way |
| LockTheorems.NoLostWakeup | src/concurrency/lock_manager.cpp:166-190 | a step of another transaction that makes a waiter's condition true notifies the waiter's queue |
| LockTheorems.BlockedUpgradeBlocks | src/concurrency/lock_manager.cpp:128-156 | an upgrade, granted or waiting, leaves a grant that still blocks exclusive waiters |
| LockSerial.TwoPhase | src/concurrency/lock_manager.cpp:183-188 | locks are gained only while growing; who loses one has stopped growing for good |
| LockSerial.NothingLeft | src/concurrency/transaction_manager.cpp:14-42 | once a finished transaction has unlocked its snapshot, no request of it is left, whatever others did in between |
| LockSerial.ConflictsFollowLockPoints | src/concurrency/lock_manager.cpp:6-192 | in any run in which nobody is overtaken, conflicting accesses follow the order of lock points; upgrades may wait |
| LockSerial.OvertakenMeans | src/concurrency/lock_manager.cpp:128-141 | overtaken is exactly a growing transaction that waits to upgrade while another one has been granted the row exclusively |
| LockSerial.NoCycle | src/concurrency/lock_manager.cpp:6-192 | the precedence graph of such a run has no cycle: the run is conflict-serializable |
| LockExact.SerializableIff | src/concurrency/lock_manager.cpp:6-192 | the condition is exact: a run overtakes somebody if and only if at some point of it an upgrade waits such that, once another transaction unlocks the row and the waiter wakes, accesses placed under held locks make a cycle |
| LockSerial.ReadsAsSerial | src/concurrency/lock_manager.cpp:6-192 | each transaction reads from the same writer as in the serial order by lock points |
| LockSerial.FinalWriteAsSerial | src/concurrency/lock_manager.cpp:6-192 | each row's last write is that of the serial order |
| LockExample.UpgradeKeepsGrant | src/concurrency/lock_manager.cpp:128-141 | an upgrade keeps its transaction's grant if and only if no other transaction has a grant on the row |
| LockExample.SharedProtects | src/concurrency/lock_manager.cpp:64-88 | a shared row keeps out exclusive locks, except exactly while its holder waits to upgrade and no one else has a grant |
| LockExample.WaitingUpgradeBreaks | src/concurrency/lock_manager.cpp:128-129 | a run in which a waiting upgrade is overtaken and whose precedence graph has a cycle |
| Values.TextDecides | src/type/value.cpp:273-289 | two values of a type have the same text if and only if they compare equal, except exactly for the clashing pairs: a null against the zero of its type or against the string that reads as null |
| GroupKeys.TextsTellIff | src/execution/executors/aggregation_executor.cpp:60-66 | the joined key text tells all keys of given column types apart if and only if at most one column is a string and that one is never null |
| Values.SeparatorMerges | src/execution/executors/aggregation_executor.cpp:60-66 | two different keys of strings with the same joined text |
| Values.BeforeTotal | src/type/value.cpp:48-61 | the order on strings is total and strict |
| Values.Wrap | src/type/value.cpp:138-148 | 32-bit arithmetic in two's complement |
| Expressions.EvalSound | src/include/onebase/execution/expressions/comparison_expression.h:14-41 | a typed expression evaluates to a value of its type, and only a division can raise an error |
| Joins.NestedLoopJoin.Next | src/execution/executors/nested_loop_join_executor.cpp:43-91 | one call examines the remaining pairs up to the next match or error and leaves exactly the rest; an error of a child comes up where the loop meets it |
| Joins.NestedLoopJoin.Init | src/execution/executors/nested_loop_join_executor.cpp:34-41 | starts both children and asks for the first left row; otherwise all pairs, left row by left row, are to be examined |
| Joins.NestedLoopJoin.Run | src/execution/executors/nested_loop_join_executor.cpp:34-91 | Init and Next until the end or an error come to exactly LoopOutcome of what the children come to |
| Joins.LoopJoinRows | src/execution/executors/nested_loop_join_executor.cpp:34-91 | no error is raised exactly when the left side runs through, the right side starts and, if there is a left row, the right side runs through too and the predicate has a value on every pair; the rows are then the filtered cross product in left-major order |
| Joins.HashJoin.Init | src/execution/executors/hash_join_executor.cpp:17-63 | comes to exactly HashOutcome: runs both children through and produces the text-equal pairs in right-major order; fails exactly when a child does or a key cannot be evaluated |
| Joins.HashJoin.Next | src/execution/executors/hash_join_executor.cpp:65-78 | hands out the results one by one |
| Joins.HashJoinIff | src/execution/executors/hash_join_executor.cpp:17-63 | on a column equality of one type, in either operand order, the hash join returns a permutation of the nested-loop join's rows if and only if no pair of keys clashes |
| Joins.NonNullNeverClash | src/execution/executors/hash_join_executor.cpp:33-46 | columns without nulls never clash |
| Bags.OrdersAgree | src/execution/executors/hash_join_executor.cpp:17-63 | left-major and right-major joins hold the same rows |
| Bags.ConditionsAgree | src/execution/executors/hash_join_executor.cpp:17-63 | two join conditions give the same bag exactly when they agree on every pair |
| Bags.JoinPermuted | src/execution/executors/nested_loop_join_executor.cpp:43-91 | permuting the inputs permutes the output |
| Aggregation.Aggregation.Init | src/execution/executors/aggregation_executor.cpp:35-195 | for all inputs: one row per key text with its first key values and the folds over its rows, in some order; one row of initial values for an empty input without GROUP BY; fails exactly when the child, an evaluation or an update does |
| Aggregation.Aggregation.AddRow | src/execution/executors/aggregation_executor.cpp:67-151 | one row finds or starts its group and updates the aggregates |
| Aggregation.Aggregation.Materialize | src/execution/executors/aggregation_executor.cpp:154-195 | the output rows, and the empty case |
| Aggregates.FoldMeans | src/execution/executors/aggregation_executor.cpp:98-151 | the running updates compute count, sum, minimum and maximum of the non-null arguments; null when there are none |
| Aggregates.FoldPermuted | src/execution/executors/aggregation_executor.cpp:98-151 | an aggregate does not depend on the order of the rows |
| GroupBy.TextGroup | src/execution/executors/aggregation_executor.cpp:54-67 | a group by text is the group by key values if and only if no other key among the rows has that text |
| GroupBy.OneRowPerKey | src/execution/executors/aggregation_executor.cpp:54-195 | output rows have different keys; each key of the input has an output row if and only if the texts tell the input's keys apart; then each output row has a key of the input and the aggregates of all rows of that key |
| GroupBy.GroupsShareRows | src/execution/executors/aggregation_executor.cpp:54-151 | the group sizes add up to the input size |
| GroupBy.OutputPermuted | src/execution/executors/aggregation_executor.cpp:35-195 | a permutation of the input gives the same rows, where the texts tell the keys apart |
| GroupBy.OutputStaysIff | src/execution/executors/aggregation_executor.cpp:35-195 | an output stays one under every reordering of the input if and only if the texts tell the keys apart |
| Plans.PlanSound | src/execution/executors/seq_scan_executor.cpp:18-52 | whatever a well-typed plan returns, also before an error, has the plan's types |
| Plans.PlanRuns | src/execution/executors/execution_engine.cpp:5-22 | running a well-typed plan comes to something, rows or an error, so statements about all its runs are not empty |
| Sorts.SortedExists | src/execution/executors/sort_executor.cpp:11-43 | rows whose sort keys can all be compared have a sorted order: the comparison is a strict weak order, nulls and strings included |
| CalmPlans.CalmRuns | src/type/value.cpp:174-200 | a plan in which no expression divides by anything but a nonzero constant and no sort key is BOOLEAN never raises an error |
| Optimizer.Optimizer.Optimize | src/optimizer/optimizer.cpp:12-23 | children first, in a loop that replaces them one by one, then both rules: the function Optimized |
| Optimizer.Optimizer.OptimizeSeqScanToIndexScan | src/optimizer/optimizer.cpp:25-74 | takes the first index of the table that serves the column |
| Optimizer.ScanRewritten | src/optimizer/optimizer.cpp:25-74 | a scan is rewritten exactly when it filters by a column equal to a constant, in either order, and some index of the table serves the column |
| Optimizer.JoinRewritten | src/optimizer/optimizer.cpp:76-128 | a join is rewritten exactly when its predicate equates a left and a right column, in either order |
| Optimizer.OptimizedTwice | src/optimizer/optimizer.cpp:12-23 | no rewrite is left to do: optimizing again changes nothing |
| Optimizer.SameScan | src/optimizer/optimizer.cpp:25-74 | on a current index the lookup of an integer returns exactly the rows of the filtered scan in the same order |
| Optimizer.IndexScanIff | src/optimizer/optimizer.cpp:25-74 | the rewrite keeps the rows if and only if the constant is not null or no row holds a zero in the column |
| Optimizer.TwoJoins | src/execution/executors/hash_join_executor.cpp:17-63 | the hash join runs exactly when both children run through; the nested-loop join also when the left side is empty and the right side merely starts; when both children run through the two return the same rows if and only if no keys clash |
| Optimizer.JoinRewriteIff | src/optimizer/optimizer.cpp:76-128 | the rewrite, with the children replaced by equivalent ones, keeps what the plan comes to, errors included, if and only if no keys ever clash and, whenever the left side is empty and the right side starts, the right side raises no error |
| Optimizer.LoopKeepsIff | src/execution/executors/nested_loop_join_executor.cpp:34-41 | replacing the children of a nested-loop join by equivalent ones keeps what it comes to if and only if, for an empty left side, the right sides start together |
| OptimizerTheorem.OptimizedRows | src/optimizer/optimizer.cpp:12-128 | for every well-typed plan tree, whatever errors its parts come to: runs of the plan and of the optimized plan that raise none return the same bag of rows, if at each node null constants find nothing, keys of a rewritten join never clash, texts tell group keys apart and a LIMIT is taken of rows in one order |
| OptimizerTheorem.KeptAll | src/optimizer/optimizer.cpp:12-128 | errors as well, one way or both: if at each nested-loop join no error goes unseen where it is rewritten, and the right sides start together for an empty left one where it is not |
| OptimizerTheorem.JoinDecides | src/optimizer/optimizer.cpp:76-128 | those conditions are exact: where the children of a nested-loop join are kept, the join is kept if and only if its condition holds |
| OptimizerTheorem.FixedStays | src/optimizer/optimizer.cpp:12-128 | a plan of scans, projections, limits, hash joins and joins that are not rewritten comes to the same, row by row and error by error |
| OptimizerChecks.RowsStay | src/optimizer/optimizer.cpp:12-128 | the same as a check of types: for every plan without null lookups, nullable keys at a rewritten join, inseparable group keys and a LIMIT of reordered rows, runs that raise no error return the same bag of rows |
| OptimizerChecks.OptimizeKeeps | src/optimizer/optimizer.cpp:12-128 | as a check of the plan tree: if also the right side of a rewritten join can raise no error, and that of a join that is not rewritten starts or not whatever the order of rows, plan and optimized plan raise an error together, and otherwise return the same bag of rows of the same types |
| OptimizerChecks.OptimizedRuns | src/optimizer/optimizer.cpp:12-128 | one way, with right sides of rewritten joins that may raise errors: if the optimized plan raises none, the plan raises none and returns the same bag of rows |
| OptimizerTheorem.TypesStay | src/optimizer/optimizer.cpp:12-128 | the optimized plan of any well-typed plan has the same types |
| PlanExamples.ErrorAppears | src/execution/executors/nested_loop_join_executor.cpp:34-91 | a join of an empty table with a division by zero returns nothing, and raises an error once it is rewritten to a hash join |
| PlanExamples.ErrorGoes | src/optimizer/optimizer.cpp:76-128 | a plan that raises an error when its right side starts returns nothing once it is optimized, because the hash join inside returns its rows in another order; nothing else is amiss with it |
| OptimizerTheorem.UnaryBelow | src/execution/executors/sort_executor.cpp:11-43 | aggregation, sort and projection of a child that runs and returns the same rows in another order run and return the same rows, where texts tell group keys apart |
| TablePage.Page.Init | src/storage/page/table_page.cpp:7-12 | an empty sound page naming the next one |
| TablePage.Page.InsertTuple | src/storage/page/table_page.cpp:63-76 | appends the record, or changes nothing when record and slot do not fit |
| TablePage.Page.GetTuple | src/storage/page/table_page.cpp:78-83 | the record as it was written |
| TablePage.Page.DeleteTuple | src/storage/page/table_page.cpp:89-92 | empties one record and keeps all others |
| TablePage.Page.UpdateTuple | src/storage/page/table_page.cpp:94-107 | as coded: refused by the growth guard; otherwise the page is right if and only if the whole new record fits the free space; or the write falls outside the page |
| TablePage.InsertKeeps | src/storage/page/table_page.cpp:63-76 | the page stays sound (live records disjoint and clear of the directory), the record is appended, all others and the next page stay, record and slot are taken from the free space |
| TablePage.DeleteKeeps | src/storage/page/table_page.cpp:89-92 | the page stays sound, one record becomes empty, all others, the next page and the free space stay |
| TablePage.UpdateKeeps | src/storage/page/table_page.cpp:94-107 | if the whole record fits, the page stays sound, one record is replaced, all others and the next page stay |
| TablePage.UpdateIff | src/storage/page/table_page.cpp:94-107 | an update that passes the guard does what it should if and only if the whole record fits the free space |
| TablePage.GuardTooWeak | src/storage/page/table_page.cpp:96-101 | once the free space is used up the guard passes every update to a record of the same size, and each goes wrong |
| TablePage.FillsPage | src/storage/page/table_page.cpp:63-76 | such pages come up: a record that takes all the free space left fills the page, and an update of it to the same size passes the guard and goes wrong |
| TablePage.FillsNewPage | src/storage/page/table_page.cpp:7-12 | on a new page one record of 4076 bytes does so, and updating it writes outside the page |
| TablePage.RunKeeps | src/storage/page/table_page.cpp:58-107 | over any run every record reads back as it was last written |
| TableHeap.TableHeap.InsertTuple | src/storage/table/table_heap.cpp:18-52 | first-fit over the chain, else on a new page at its end; a record too long for that is not stored though the page stays; exactly one entry is added |
| TableHeap.TableHeap.DeleteTuple | src/storage/table/table_heap.cpp:79-85 | removes exactly one entry |
| TableHeap.TableHeap.UpdateTuple | src/storage/table/table_heap.cpp:70-77 | replaces exactly one entry if the record fits |
| TableHeap.TableHeap.GetTuple | src/storage/table/table_heap.cpp:54-68 | the record of a slot, nothing exactly if it was deleted; a live one is an entry of the heap and the one an iterator there stands on |
| TableHeap.TableHeap.Begin | src/storage/table/table_heap.cpp:137-160 | the first live record in chain-and-slot order, or the end |
| TableHeap.TableHeap.Advance | src/storage/table/table_heap.cpp:96-127 | the next live record, or the end |
| TableHeap.TableHeap.Scan | src/storage/table/table_heap.cpp:96-160 | a full iteration ends and yields every live record in chain-and-slot order |
| TableHeap.VisitedOnce | src/storage/table/table_heap.cpp:96-127 | no record is visited twice |
| TableHeap.AllVisited | src/storage/table/table_heap.cpp:96-127 | every live record is visited |
| TableHeap.PlaceKeeps | src/storage/table/table_heap.cpp:29-37 | a record placed on one page adds exactly its own entry |
| TableHeap.ExtendKeeps | src/storage/table/table_heap.cpp:38-51 | a page linked to the end adds exactly its own entries |
| Tuples.RoundTrip | src/storage/table/tuple.cpp:8-31 | a stored row with no text before its last column reads back the same, with nulls turned into zeros; unchanged if and only if it holds no null |
| Tuples.RoundTripIff | src/include/onebase/catalog/schema.h:10-21 | the rows of a schema all read back if and only if only its last column may be a string, since offsets count a string as four bytes |
| Scans.SeqScan.Next | src/execution/executors/seq_scan_executor.cpp:18-52 | skips heap rows to the next one that passes and leaves exactly the rest |
| Scans.IndexScan.Init | src/execution/executors/index_scan_executor.cpp:9-32 | the identifiers of a non-null integer key, none otherwise |
| Scans.IndexScan.Next | src/execution/executors/index_scan_executor.cpp:34-61 | fetches rows to the next one that passes and leaves exactly the rest |
| Scans.BuildIndex | src/catalog/catalog.cpp:59-68 | each key's identifiers in the order the heap is iterated |
| Scans.ScansAgree | src/execution/executors/index_scan_executor.cpp:9-61 | on a table unchanged since the index was built both scans return the same rows in the same order |
| CatalogStore.Catalog.CreateTable | src/catalog/catalog.cpp:6-17 | refused exactly when the name is taken; otherwise found under its name and a fresh id; a catalog with current indexes stays one |
| CatalogStore.Catalog.CreateIndex | src/catalog/catalog.cpp:40-73 | refused exactly for a missing table, an empty or taken name, no columns or unknown ones; otherwise entered and current; a catalog with current indexes stays one |
| CatalogStore.Catalog.DropIndex | src/catalog/catalog.cpp:75-87 | removes exactly that index and its name; a catalog with current indexes stays one |
| CatalogStore.Catalog.GetTableIndexes | src/catalog/catalog.cpp:105-113 | the table's indexes, each once |
| CatalogStore.Catalog.ViewOK | src/catalog/catalog.cpp:40-73 | a catalog whose tables have not changed since their indexes were built, as table and index calls leave it, meets all the optimizer theorem asks of one |

## Left out

- Pages inside the B+ tree are values in a store, so aliasing of page buffers and their byte layout are not captured. The
  tree's operations use the same functions of a page that the in-place page objects of `BPlusPages` are proved against,
  and do not call those objects.
- BPlusPager.Pager.Fetch: called by one tree that does not pin a page twice; further clients of the same pool are not
  modelled, and a second fetch of a pinned page is described by `BufferPool` only.
- BPlusPager.Pager.Unpin: the tree unpins a written page as dirty; what a clean unpin does is described by `BufferPool` only.
- BPlusPager.Pager.Delete: the tree deletes only pages of its own that are not pinned; the pool's other answers are described
  by `BufferPool` only.
- BufferPool.Pool.UnpinPage: once a client has broken the discipline and the pool is no longer sound, later calls are not
  described.
- BPlusTree.BPlusTree.Remove: as coded it keeps the invariant only where the condition above holds; what a tree does after
  a removal that breaks is not modelled.
- BPlusExample.RemovalCanBreak: the example tree is shown to be sound, not to be what some run leaves, since the operations'
  contracts fix the map and not the layout of the tree.
- Page sizes below two (leaf) or three (internal) rows, and the formula for default sizes.
- LruK.Replacer.RecordAccess: the clock is unbounded, so its wrap-around after 2^64 accesses is not modelled.
- Disk files, their error flags and the page guards; the disk is a map that reads zero where nothing was written.
- TableHeap.TableHeap.InsertTuple: the heap's pages are a map without a pool, so the returns for an exhausted pool are not
  modelled; the same holds for its iterator.
- TableHeap.TableHeap.UpdateTuple: what the heap holds after an update that overflows its page is not described.
- TablePage.Page.UpdateTuple: a write that falls outside the page is reported, not performed.
- Deadlocks, fairness and starvation of lock waiters: the engine neither detects nor orders them.
- LockTheorems.NoLostWakeup: an abort from outside that only sets a transaction's state notifies nobody, and is excepted.
- Isolation levels, which the lock manager does not look at.
- FLOAT values, whose text conflates different numbers.
- Tuples.RoundTrip: a row with text before its last column, which does not read back; a read outside the tuple's bytes is
  reported, not performed.
- Scans.IndexScan.Init: identifiers of rows deleted since the index was built, which nothing removes from it; fetching one
  evaluates the predicate on an empty tuple.
- OptimizerTheorem.OptimizedRows: a LIMIT of rows whose order a rewrite, a group or a sort leaves open is excluded, since it may
  return other rows; so are group keys that texts do not tell apart, whose output depends on the order of the rows.
- OptimizerChecks.OptimizeKeeps: a check of the plan tree cannot see what its parts come to; where it fails, the conditions of
  `OptimizerTheorem.KeptAll`, exact at each join, decide.
- The optimizer's plan nodes are values, so a subtree shared by two parents is two subtrees.
- An executor sees a child as what running it comes to: it does not start, or it gives rows and then ends or raises an
  error. A tree of executor objects calling each other is described by the outcomes of plans.
- The sort algorithm: a sort returns some ordered permutation, and raises an error when two of its rows cannot be compared.
- Index maintenance by INSERT, DELETE and UPDATE: the engine does none, so index statements are about unchanged tables.
- Insert, delete, update and utility executors, the binder, shell, server and wire protocol.
