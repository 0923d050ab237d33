# Verified models of the search engine, the memory lessons and three contest programs

Dafny models of the code in this repository that carries real invariants, with proofs that the code keeps them.
`dafny verify dfyconfig.toml` verifies everything. Nothing here was executed.

The main results, by subsystem:

- **B+ tree** (`BPlusNodes`, `BPlusInsert`, `BPlusDelete`, `BPlusContents`, `BPlusChain`, `BPlusSearch`,
  `BPlusValidate`, `BPlusAccepted`, `BPlusTree`). For every order m >= 3, every sequence of insertions, removals and
  updates from the empty tree keeps all structural invariants, terminates, and acts on an ordinary map from keys to
  posting lists as its documentation says. Range searches return exactly the records of the range in key order. Every
  node but the root is at least half full (`HalfFull`). `Validate` is modelled on arbitrary heaps: it terminates, it
  accepts every tree the operations build, and any heap it accepts is half full and evenly deep
  (`ValidateChecksNodes`), and a search in it finds a key exactly when a leaf reachable from the root holds it
  (`ValidateThenLookup`).
- **Bounded MPMC queue** (`RingSlots`, `MpmcProtocol`, `MpmcHistory`, `MpmcProgress`, `MpmcQueue`). Any number of
  threads, one atomic access per step, any interleaving: the ticket invariant, single ownership of cells, and
  exactly-once delivery by ticket. Every call that succeeds takes effect in one step between its begin and its return,
  on an ordinary bounded FIFO, so calls that do not overlap keep their order, and a call that nobody disturbs returns
  within six steps. With one caller at a time it is a FIFO of capacity exactly `Cap`.
- **Indexing pipeline** (`RingBuffer`, `Lexer`, `LineReader`, `Pipeline`, `PipelineRuns`, `PipelineText`,
  `IndexTree`). The Engine starts on the cold path only after exactly the tokens of the pieces that `fgets` reads have
  been indexed (`EngineNeedsCompleteIndex`), and a run that ends without the kernal giving up has started it exactly
  if there is a token (`EngineStartsIff`). Those are the tokens of the lines of the files when every line fits into
  the buffer (`EngineHasText`), and then the parser's search tree finds exactly the words of the text
  (`SearchCorpus`). No run that is not told to stop can block or go on forever.
- **Reference counts** (`RefCount`, `RefCountRuns`), **leak tracker** (`LeakTracker`), **hardened allocator**
  (`HardenedAllocator`), **page file** (`FileHeader`, `DiskManager`) and **search tree** (`StringOrder`, `BSTree`):
  lifetime, lookup, free list and ordering invariants over all operations.
- **Contest programs** (`ArrivalOfGeneral`, `ChangeMaking`, `MakePalindrome`): the printed number is the optimum.

How the code is represented:

- A node of the B+ tree is a record in a finite store indexed by an identifier, which stands for its address; 0 is the
  null pointer and `nextId` the next address the allocator hands out. Parent, next and previous links are part of the
  record, as in the source. A ghost `Shape` gives every node its key window and its height, which makes every
  invariant local to a node and its children. Keys are integers. The code uses nothing of a key but `<`; the proofs
  use more, for the integers are discrete and have no least element: a window below a bound has the key `hi - 1`, and
  a range is summed up key by key.
- The concurrent parts are state machines: `Enabled` says when a thread can take a step and `Step` what it does. Steps
  are atomic accesses, interleaved sequentially consistently. A blocking push or pop is one step that is enabled when
  it need not wait.
- Where the source updates an object in place there is a class with the same fields and one method per operation, and
  ghost fields for the value the object stands for.

Where code and documentation disagree the model follows the code, gives the failing input, and says exactly when the
two agree:

- The insertion rules written down beside `BPlusTree.hpp` promise duplicate-free, ascending posting lists (I20) and a
  size that counts pairs (I23). The code appends blindly and counts keys; `InsertedTwice` breaks both rules.
  `NoDuplicatesIffNew`, `AscendingIffLargest`, `SizeStaysPairsIffNewKey` and `SizeIsPairsAfterRemoveIff` say which
  calls keep them. Rule I24 wants the height to count edges; the code counts levels, which are always one more
  (`Height`).
- `ValidateLeafChain` asks neither whether the chain reaches every leaf nor whether it stays in the tree:
  `AcceptedChainMaySkipALeaf` and `AcceptedChainMayLeaveTheTree` are heaps it accepts. `ChainIsLeavesIff` says exactly
  when the chain of an accepted heap is the list of its leaves; for the trees built by the operations it always is
  (`ChainIsInOrderLeaves`).
- The lexer means to hand out lines, but reads them into 456 bytes, so a longer line falls apart, a word with it
  (`LongWordIsCut`). `CutIsHarmlessIff` says when one cut goes unnoticed, `ChunksMatchTextIff` and `IndexIsTextIff`
  when the cuts of a file and of the whole corpus do.
- The comment in `ReadPage` speaks of zeros past the end of the file; the code returns before writing them, so the
  caller's buffer stays as it was, exactly when the page is past the end (`ReadPage`, `StaleRead`).
- `DeallocatePage` does not notice that a page is free already (`FreedTwice`). Exactly then the free list is ruined
  (`FreeKeepsChainIff`).
- `LoadOrInitHeader` trusts the length of the file over the page count, but leaves the free list as it is
  (`TruncatedListDangles`). The list survives exactly when no free page was cut off (`TruncationKeepsChainIff`).
- A `false` from the concurrent `push` does not mean that the queue is full, nor one from `pop` that it is empty
  (`RefusedThoughNotFull`, `RefusedThoughNotEmpty`; `PushRefusedIff` and `PopRefusedIff` say exactly what it means).

## Model

| member | source | states |
|---|---|---|
| BPlusTree.BPlusTree.Create | searchengine/internal/kernal/core/datastructures/bplustree/BPlusTree.hpp:17-21 | constructing a tree fails exactly for an order below 3; otherwise the new tree satisfies the invariant and holds the empty index |
| BPlusTree.BPlusTree.Insert | searchengine/internal/kernal/core/datastructures/bplustree/BPlusTree.hpp:53-66 | from any valid tree: the invariant holds again (sorted keys, separator windows, n keys and n+1 children, fill between half and m-1, leaves on one level, parent links, non-empty lists, leaf chain, size); the list of the key is the old one, or none, with the record behind it, and no other list changes |
| BPlusTree.BPlusTree.InsertFirst | searchengine/internal/kernal/core/datastructures/bplustree/BPlusTree.hpp:55-62 | inserting into the empty tree builds a lone root leaf with one key and one posting |
| BPlusTree.BPlusTree.InsertIntoLeaf | searchengine/internal/kernal/core/datastructures/bplustree/BPlusTree.hpp:381-398 | on the leaf whose window holds the key: the index gains the record; a known key, or a new one that fits, changes that leaf alone, and otherwise the leaf with the new key is cut at ceil(m/2) |
| BPlusTree.BPlusTree.SplitLeaf | searchengine/internal/kernal/core/datastructures/bplustree/BPlusTree.hpp:400-427 | a tree in order but for one leaf with m keys is a valid tree afterwards, the same index, whatever cascade of splits that takes; that leaf is cut at ceil(m/2), the new half follows it in the chain, and no other leaf changes but for its parent; the cascade ends because it climbs |
| BPlusTree.BPlusTree.MoveUpperHalf | searchengine/internal/kernal/core/datastructures/bplustree/BPlusTree.hpp:404-422 | the leaf is cut in two at splitPoint and the new half is spliced into the doubly linked chain behind it; no other node changes |
| BPlusTree.BPlusTree.InsertIntoParent | searchengine/internal/kernal/core/datastructures/bplustree/BPlusTree.hpp:429-456 | a node cut in two that its parent still sees as one (Pending): afterwards the tree is valid and the index the same; the parent has the separator and the new half beside the old one, and is cut around its middle key only if that makes it over-full; no node as low as the one cut changes but for its parent |
| BPlusTree.BPlusTree.GrowRoot | searchengine/internal/kernal/core/datastructures/bplustree/BPlusTree.hpp:433-443 | the same when the node cut in two was the root: a new root with that one key and the two halves is put on top |
| BPlusTree.BPlusTree.SplitInternal | searchengine/internal/kernal/core/datastructures/bplustree/BPlusTree.hpp:458-483 | a tree in order but for one internal node with m keys is valid afterwards, the same index; that node is cut around keys[m/2], and no lower node changes but for its parent |
| BPlusTree.BPlusTree.MoveUpperChildren | searchengine/internal/kernal/core/datastructures/bplustree/BPlusTree.hpp:460-480 | the internal node is cut around keys[mid], which stays on neither side; the moved children get their new parent; no other node changes |
| BPlusTree.BPlusTree.Remove | searchengine/internal/kernal/core/datastructures/bplustree/BPlusTree.hpp:70-101 | from any valid tree: the invariant holds again; of the list of the key exactly the first entry equal to the record is gone, and the key with the last one; a missing key or record changes nothing, and no other list changes |
| BPlusTree.BPlusTree.EraseFirst | searchengine/internal/kernal/core/datastructures/bplustree/BPlusTree.hpp:81-87 | the list without its first entry equal to the record, or the whole list |
| BPlusTree.BPlusTree.Update | searchengine/internal/kernal/core/datastructures/bplustree/BPlusTree.hpp:103-110 | false and no change if the old key is missing; otherwise the first entry equal to the record leaves the old list, if it is there, the record goes behind the new list, and no other list changes |
| BPlusTree.BPlusTree.FixUnderflow | searchengine/internal/kernal/core/datastructures/bplustree/BPlusTree.hpp:489-528 | a tree in order but for one node below its minimum is valid afterwards, the same index: a node with enough keys stays, else the left sibling lends a key, else the right one, and only if neither can spare one it is merged, into the left sibling if there is one; no lower node changes but for its parent; the recursion climbs and so ends |
| BPlusTree.BPlusTree.BorrowFromLeft | searchengine/internal/kernal/core/datastructures/bplustree/BPlusTree.hpp:530-562 | with a left sibling that can spare a key, moving exactly one across makes the tree valid, leaf or internal, the same index |
| BPlusTree.BPlusTree.BorrowKeyFromLeft | searchengine/internal/kernal/core/datastructures/bplustree/BPlusTree.hpp:535-547 | the leaf case: the last key of the left leaf moves over and the separator follows |
| BPlusTree.BPlusTree.BorrowChildFromLeft | searchengine/internal/kernal/core/datastructures/bplustree/BPlusTree.hpp:549-561 | the internal case: a rotation through the parent, with the moved child re-parented |
| BPlusTree.BPlusTree.BorrowFromRight | searchengine/internal/kernal/core/datastructures/bplustree/BPlusTree.hpp:564-594 | the mirror image |
| BPlusTree.BPlusTree.BorrowKeyFromRight | searchengine/internal/kernal/core/datastructures/bplustree/BPlusTree.hpp:569-581 | the mirror image on leaves |
| BPlusTree.BPlusTree.BorrowChildFromRight | searchengine/internal/kernal/core/datastructures/bplustree/BPlusTree.hpp:583-593 | the mirror image on internal nodes |
| BPlusTree.BPlusTree.MergeNodes | searchengine/internal/kernal/core/datastructures/bplustree/BPlusTree.hpp:598-639 | folding the right of two neighbours that fit in one node into the left leaves a tree in order but for the parent, which loses the separator between them; same index, same levels |
| BPlusTree.BPlusTree.MergeLeaves | searchengine/internal/kernal/core/datastructures/bplustree/BPlusTree.hpp:602-615 | the leaf case: the left leaf takes over the keys, the posting lists and the next link, and the leaf after it is relinked; no other node but the parent changes |
| BPlusTree.BPlusTree.MergeInternals | searchengine/internal/kernal/core/datastructures/bplustree/BPlusTree.hpp:616-636 | the internal case: the separator comes down between the keys, and the children get their new parent |
| BPlusTree.BPlusTree.ShrinkRoot | searchengine/internal/kernal/core/datastructures/bplustree/BPlusTree.hpp:643-660 | a root with keys stays; one without leaves the empty tree, or its only child in its place; valid afterwards |
| BPlusTree.BPlusTree.CollapseRoot | searchengine/internal/kernal/core/datastructures/bplustree/BPlusTree.hpp:654-659 | the second case: the only child becomes the root and nothing else changes |
| BPlusTree.BPlusTree.HalfFull | searchengine/internal/kernal/core/datastructures/bplustree/BPlusTree.hpp:295-305 | in every valid tree every node has at least one and at most m-1 keys, and every node but the root is at least half full: 2n >= m-1 keys in a leaf, 2n >= m children in an internal node |
| BPlusTree.BPlusTree.ListsAreNotEmpty | searchengine/internal/kernal/core/datastructures/bplustree/BPlusTree.hpp:89-97 | no key of a valid tree has an empty posting list |
| BPlusTree.BPlusTree.Clear | searchengine/internal/kernal/core/datastructures/bplustree/BPlusTree.hpp:112-116 | a valid empty tree |
| BPlusTree.BPlusTree.Find | searchengine/internal/kernal/core/datastructures/bplustree/BPlusTree.hpp:311-326 | the search that Remove, Contains and Search share: found exactly when the index has the key, and then at its posting list |
| BPlusTree.BPlusTree.Contains | searchengine/internal/kernal/core/datastructures/bplustree/BPlusTree.hpp:122-136 | true exactly when the index has the key |
| BPlusTree.BPlusTree.Search | searchengine/internal/kernal/core/datastructures/bplustree/BPlusTree.hpp:138-152 | the posting list of the key, empty if there is none |
| BPlusTree.BPlusTree.RangeSearch | searchengine/internal/kernal/core/datastructures/bplustree/BPlusTree.hpp:156-179 | the posting lists of exactly the keys in [lower, upper], concatenated in ascending order of the keys |
| BPlusTree.BPlusTree.Empty | searchengine/internal/kernal/core/datastructures/bplustree/BPlusTree.hpp:185-187 | true exactly when the index is empty |
| BPlusTree.BPlusTree.Size | searchengine/internal/kernal/core/datastructures/bplustree/BPlusTree.hpp:189-191 | the number of distinct keys |
| BPlusTree.BPlusTree.Height | searchengine/internal/kernal/core/datastructures/bplustree/BPlusTree.hpp:194-208 | the number of levels, 0 for the empty tree: the number of nodes on every path of child pointers from the root to a leaf |
| BPlusTree.BPlusTree.Validate | searchengine/internal/kernal/core/datastructures/bplustree/BPlusTree.hpp:257-279 | true in every valid tree, so after any sequence of operations |
| BPlusSearch.UpperBoundIndex | searchengine/internal/kernal/core/datastructures/bplustree/BPlusTree.hpp:328-343 | on sorted keys, the index that parts the keys <= key from those > key |
| BPlusSearch.LowerBoundIndex | searchengine/internal/kernal/core/datastructures/bplustree/BPlusTree.hpp:345-360 | on sorted keys, the index that parts the keys < key from those >= key |
| BPlusSearch.ChildIndex | searchengine/internal/kernal/core/datastructures/bplustree/BPlusTree.hpp:367-375 | the first position of the child, or the number of children if it is not one |
| BPlusSearch.FindLeaf | searchengine/internal/kernal/core/datastructures/bplustree/BPlusTree.hpp:311-326 | on any linked heap with an unbounded root window: the leaf under the root whose window holds the key |
| BPlusSearch.Lookup | searchengine/internal/kernal/core/datastructures/bplustree/BPlusTree.hpp:122-136 | FindLeaf plus LowerBoundIndex finds a key exactly when a leaf that child pointers lead to from the root holds it, on any linked heap |
| BPlusSearch.ShapeIsWhatRootReaches | searchengine/internal/kernal/core/datastructures/bplustree/BPlusTree.hpp:744-778 | the ghost shape of a linked heap is no more and no less than the nodes that child pointers lead to from the root |
| BPlusNodes.KeyIsInItsLeaf | searchengine/internal/kernal/core/datastructures/bplustree/BPlusTree.hpp:311-326 | a key is held somewhere below the root exactly when the one leaf that FindLeaf descends to, whose window contains it, holds it |
| BPlusInsert.CutLeafPending | searchengine/internal/kernal/core/datastructures/bplustree/BPlusTree.hpp:400-426 | cutting a leaf of a tree that stands gives a Pending tree |
| BPlusInsert.CutInternalPending | searchengine/internal/kernal/core/datastructures/bplustree/BPlusTree.hpp:458-482 | cutting an internal node of a tree that stands gives a Pending tree |
| BPlusInsert.AttachedTree | searchengine/internal/kernal/core/datastructures/bplustree/BPlusTree.hpp:445-451 | telling the parent of the cut makes the Pending tree stand again |
| BPlusInsert.RootedTree | searchengine/internal/kernal/core/datastructures/bplustree/BPlusTree.hpp:433-443 | a new root over the two halves of the old one makes the Pending tree stand again |
| BPlusDelete.MergedLeafTree | searchengine/internal/kernal/core/datastructures/bplustree/BPlusTree.hpp:602-615 | folding a leaf into its left neighbour keeps the tree, the chain included |
| BPlusDelete.MergedInternalTree | searchengine/internal/kernal/core/datastructures/bplustree/BPlusTree.hpp:616-636 | folding an internal node into its left neighbour, the separator between, keeps the tree |
| BPlusDelete.RotatedLeafTree | searchengine/internal/kernal/core/datastructures/bplustree/BPlusTree.hpp:535-547 | moving any number of keys between neighbouring leaves and resetting the separator keeps the tree |
| BPlusDelete.RotatedInternalTree | searchengine/internal/kernal/core/datastructures/bplustree/BPlusTree.hpp:549-561 | the same for internal nodes, whose children change parent |
| BPlusDelete.ShrunkTree | searchengine/internal/kernal/core/datastructures/bplustree/BPlusTree.hpp:654-659 | dropping a root with one child keeps the tree |
| BPlusChain.ChainIsInOrderLeaves | searchengine/internal/kernal/core/datastructures/bplustree/BPlusTree.hpp:416-422 | in a tree that stands the chain holds every leaf, once, in the order of the tree |
| BPlusContents.RemoveUndoesInsert | searchengine/internal/kernal/core/datastructures/bplustree/BPlusTree.hpp:53-101 | removing a record just inserted, and not listed before, gives back the index |
| BPlusContents.InRangeOfInserted | searchengine/internal/kernal/core/datastructures/bplustree/BPlusTree.hpp:156-179 | an insertion adds the record to a range result exactly when the key is in the range, and nothing else |
| BPlusContents.InRangeSplit | searchengine/internal/kernal/core/datastructures/bplustree/BPlusTree.hpp:156-179 | a range result is the concatenation of the results of its two parts |
| BPlusContents.InRangeOfOne | searchengine/internal/kernal/core/datastructures/bplustree/BPlusTree.hpp:156-179 | the result of the range of one key is its posting list |
| BPlusContents.RemovedList | searchengine/internal/kernal/core/datastructures/bplustree/BPlusTree.hpp:70-101 | what a removal leaves under every key, by the position of the first entry equal to the record |
| BPlusContents.NoDuplicatesIffNew | searchengine/internal/kernal/core/datastructures/bplustree/BPlusTree.hpp:384-388 | rule I20 (one entry per document) is kept by the code exactly when the document is not on the list yet |
| BPlusContents.AscendingIffLargest | searchengine/internal/kernal/core/datastructures/bplustree/BPlusTree.hpp:384-388 | rule I20 (ascending documents) is kept by the code exactly when the new document is above all listed ones |
| BPlusContents.SizeStaysPairsIffNewKey | searchengine/internal/kernal/core/datastructures/bplustree/BPlusTree.hpp:384-392 | rule I23 (size counts pairs; the code counts keys): where it holds, an insertion keeps it exactly when the key is new |
| BPlusContents.SizeIsPairsAfterRemoveIff | searchengine/internal/kernal/core/datastructures/bplustree/BPlusTree.hpp:79-97 | a removal never breaks rule I23; it restores it exactly when it takes the one surplus pair off a list that stays |
| BPlusContents.SizeCountsPairsIff | searchengine/internal/kernal/core/datastructures/bplustree/BPlusTree.hpp:384-392 | an index satisfies rule I23 exactly when no key has two records |
| BPlusContents.InsertedTwice | searchengine/internal/kernal/core/datastructures/bplustree/BPlusTree.hpp:384-388 | the failing input for I20 and I23: one record inserted twice under one key leaves a duplicate, no strict order, and two pairs for one key |
| BPlusValidate.Validate | searchengine/internal/kernal/core/datastructures/bplustree/BPlusTree.hpp:257-279 | on any typed heap, however built: true exactly when there is an accepted shape and a full chain, of which it returns the witnesses |
| BPlusValidate.ValidateNode | searchengine/internal/kernal/core/datastructures/bplustree/BPlusTree.hpp:686-742 | on any typed heap the walk terminates; when it succeeds the subtree is checked with all leaves on one depth, and it does not reject a subtree that is |
| BPlusValidate.ValidateChildren | searchengine/internal/kernal/core/datastructures/bplustree/BPlusTree.hpp:744-778 | the loop over the children: it succeeds on exactly the checked subtrees, and counts the keys |
| BPlusValidate.ValidateLeafChain | searchengine/internal/kernal/core/datastructures/bplustree/BPlusTree.hpp:780-805 | true exactly when the walk from the first leaf is a chain whose links agree and whose keys ascend; the walk ends on any heap |
| BPlusValidate.ChainNeverReturns | searchengine/internal/kernal/core/datastructures/bplustree/BPlusTree.hpp:780-805 | a chain whose previous links agree never visits a leaf twice |
| BPlusValidate.DescentExtends | searchengine/internal/kernal/core/datastructures/bplustree/BPlusTree.hpp:759-766 | a node whose parent link is right is none of its own ancestors, so the walk ends |
| BPlusAccepted.AcceptedHeapIsSearchable | searchengine/internal/kernal/core/datastructures/bplustree/BPlusTree.hpp:257-279 | in any heap that Validate accepts, the shape it has seen is exactly the nodes reachable from the root, its keys are exactly the keys of the reachable leaves, and the search works on it |
| BPlusAccepted.ValidateThenLookup | searchengine/internal/kernal/core/datastructures/bplustree/BPlusTree.hpp:122-279 | end to end, on any typed heap: if Validate answers true, the search finds a key exactly when a leaf reachable from the root through child pointers holds it |
| BPlusValidate.SameShape | searchengine/internal/kernal/core/datastructures/bplustree/BPlusTree.hpp:686-778 | a heap has at most one searchable shape below a root |
| BPlusValidate.TreeAccepted | searchengine/internal/kernal/core/datastructures/bplustree/BPlusTree.hpp:257-279 | a tree that stands is accepted |
| BPlusAccepted.ValidateChecksNodes | searchengine/internal/kernal/core/datastructures/bplustree/BPlusTree.hpp:257-279 | on any typed heap, a true answer means: every node that the root reaches has at most m-1 keys and, but for the root, is at least half full; all leaves lie equally deep; and as many keys are held as size says |
| BPlusAccepted.AcceptedNode | searchengine/internal/kernal/core/datastructures/bplustree/BPlusTree.hpp:686-778 | every node below the root of an accepted heap: ascending keys, within the fill bounds, a non-empty list for every key of a leaf, and children that know their parent |
| BPlusAccepted.AcceptedKeysBetween | searchengine/internal/kernal/core/datastructures/bplustree/BPlusTree.hpp:701-709 | every key below a child of an accepted heap, of whatever level, lies between the separators on either side of that child |
| BPlusAccepted.ChainIsLeavesIff | searchengine/internal/kernal/core/datastructures/bplustree/BPlusTree.hpp:780-805 | the chain of an accepted heap is the leaves of the tree in order exactly when it stays in the tree and has as many leaves: a count decides |
| BPlusAccepted.ChainInTreeIsNoLonger | searchengine/internal/kernal/core/datastructures/bplustree/BPlusTree.hpp:780-805 | a chain that stays in the tree can only be too short |
| BPlusAccepted.ChainIsLeavesIffTiles | searchengine/internal/kernal/core/datastructures/bplustree/BPlusTree.hpp:780-805 | or, equivalently, exactly when the windows of its leaves follow on one another without a gap |
| BPlusAccepted.AcceptedChainMaySkipALeaf | searchengine/internal/kernal/core/datastructures/bplustree/BPlusTree.hpp:780-805 | a concrete heap that Validate accepts although its chain leaves out a leaf |
| BPlusAccepted.AcceptedChainMayLeaveTheTree | searchengine/internal/kernal/core/datastructures/bplustree/BPlusTree.hpp:780-805 | a concrete heap that Validate accepts although its chain goes on to a leaf that is not below the root |
| MpmcProtocol.StepKeepsInv | core-lesson/memory-management/exercises/15-mpmc-queue/include/mm/mpmc_queue.hpp:49-87 | every step of every thread keeps the ticket invariant |
| MpmcProtocol.ReachableInv | core-lesson/memory-management/exercises/15-mpmc-queue/include/mm/mpmc_queue.hpp:32-36 | in every reachable state dequeue_pos <= enqueue_pos <= dequeue_pos + Cap, every cell's number encodes its phase, and threads and history agree with it |
| MpmcProtocol.PushClaimValid | core-lesson/memory-management/exercises/15-mpmc-queue/include/mm/mpmc_queue.hpp:53-57 | a number read before a successful CAS of push is still in the cell at the CAS, and the queue is not full then |
| MpmcProtocol.PopClaimValid | core-lesson/memory-management/exercises/15-mpmc-queue/include/mm/mpmc_queue.hpp:73-77 | the same for pop: the cell still holds the value of that ticket |
| MpmcProtocol.OneOwnerPerCell | core-lesson/memory-management/exercises/15-mpmc-queue/include/mm/mpmc_queue.hpp:56-58 | between the CAS and the store of the number a cell has at most one owner, pushers and poppers together |
| MpmcProtocol.PopReturnsItsTicket | core-lesson/memory-management/exercises/15-mpmc-queue/include/mm/mpmc_queue.hpp:76-79 | the pop with ticket k returns the value of the push with ticket k, and no other pop reads it |
| MpmcProtocol.EveryTicketAccounted | core-lesson/memory-management/exercises/15-mpmc-queue/include/mm/mpmc_queue.hpp:49-87 | tickets are handed out in order; each accepted value is on its way in, in its cell, held by one pop, or returned unchanged |
| MpmcProtocol.QuiescentQueue | core-lesson/memory-management/exercises/15-mpmc-queue/include/mm/mpmc_queue.hpp:49-87 | with all operations finished, the returned values are the first accepted ones and the cells hold the others |
| MpmcProtocol.PushRefusedIff | core-lesson/memory-management/exercises/15-mpmc-queue/include/mm/mpmc_queue.hpp:61-62 | push sees a too small number exactly when the queue is full, or when a pop still holds the cell |
| MpmcProtocol.RefusedThoughNotFull | core-lesson/memory-management/exercises/15-mpmc-queue/include/mm/mpmc_queue.hpp:61-62 | a concrete run in which push is about to return false although there is room for one more value |
| MpmcProtocol.PopRefusedIff | core-lesson/memory-management/exercises/15-mpmc-queue/include/mm/mpmc_queue.hpp:81-82 | pop sees a too small number exactly when the queue is empty, or when a push still holds the cell |
| MpmcHistory.RefusedPushSaw | core-lesson/memory-management/exercises/15-mpmc-queue/include/mm/mpmc_queue.hpp:61-62 | a push call that returns false has found, between its begin and its return, the queue full or a pop holding the cell it needed |
| MpmcHistory.RefusedPopSaw | core-lesson/memory-management/exercises/15-mpmc-queue/include/mm/mpmc_queue.hpp:81-82 | a pop call that returns false has found the queue empty or a push holding the oldest cell |
| MpmcProgress.PushDecides | core-lesson/memory-management/exercises/15-mpmc-queue/include/mm/mpmc_queue.hpp:55-65 | a smaller number refuses, the number at the unmoved position wins, and any other case, a spurious failure included, tries again from the position as it is now |
| MpmcProgress.PopDecides | core-lesson/memory-management/exercises/15-mpmc-queue/include/mm/mpmc_queue.hpp:75-85 | the same for pop |
| MpmcProgress.OwnStepFalls | core-lesson/memory-management/exercises/15-mpmc-queue/include/mm/mpmc_queue.hpp:49-87 | each step of a call that nobody disturbs brings it nearer to its return |
| MpmcProgress.CallReturns | core-lesson/memory-management/exercises/15-mpmc-queue/include/mm/mpmc_queue.hpp:49-87 | from every reachable state, a call that is under way returns within six steps of its own thread |
| MpmcProtocol.RefusedThoughNotEmpty | core-lesson/memory-management/exercises/15-mpmc-queue/include/mm/mpmc_queue.hpp:81-82 | a concrete run in which pop is about to return false although a push has its ticket |
| MpmcHistory.StepIsQueueStep | core-lesson/memory-management/exercises/15-mpmc-queue/include/mm/mpmc_queue.hpp:55-60 | any number of threads, each step: the CAS of a push appends its value to the queue, which has room; that of a pop takes the oldest value; no other step changes the queue |
| MpmcHistory.PushHasItsPoint | core-lesson/memory-management/exercises/15-mpmc-queue/include/mm/mpmc_queue.hpp:49-67 | a push call that returns true has done so with its own value, in one step between its begin and its return |
| MpmcHistory.PopHasItsPoint | core-lesson/memory-management/exercises/15-mpmc-queue/include/mm/mpmc_queue.hpp:69-87 | a pop call that returns true has taken, in one step between its begin and its return, the value that was then the oldest |
| MpmcHistory.PushesInOrder | core-lesson/memory-management/exercises/15-mpmc-queue/include/mm/mpmc_queue.hpp:49-67 | a push that has returned before another begins has the smaller ticket |
| MpmcHistory.PopsInOrder | core-lesson/memory-management/exercises/15-mpmc-queue/include/mm/mpmc_queue.hpp:69-87 | a pop that has returned before another begins has the smaller ticket |
| MpmcHistory.FifoInRealTime | core-lesson/memory-management/exercises/15-mpmc-queue/include/mm/mpmc_queue.hpp:49-87 | of two pushes one after the other, the value of the second is not popped before that of the first, one pop after the other |
| MpmcHistory.PopReturnsAPush | core-lesson/memory-management/exercises/15-mpmc-queue/include/mm/mpmc_queue.hpp:76-79 | a pop that returns gives back the value of the push of its ticket, which has returned before |
| MpmcHistory.TicketsReturnOnce | core-lesson/memory-management/exercises/15-mpmc-queue/include/mm/mpmc_queue.hpp:49-87 | no two pushes and no two pops return with the same ticket, so no value is popped twice |
| MpmcHistory.ReachableHasTrace | core-lesson/memory-management/exercises/15-mpmc-queue/include/mm/mpmc_queue.hpp:49-87 | every reachable state is the end of a history, so these hold of all runs |
| MpmcQueue.MpmcQueue.constructor | core-lesson/memory-management/exercises/15-mpmc-queue/include/mm/mpmc_queue.hpp:32-36 | an empty queue of the given capacity |
| MpmcQueue.MpmcQueue.Push | core-lesson/memory-management/exercises/15-mpmc-queue/include/mm/mpmc_queue.hpp:49-67 | with one caller: refused exactly when Cap values are queued, otherwise the value goes last |
| MpmcQueue.MpmcQueue.Pop | core-lesson/memory-management/exercises/15-mpmc-queue/include/mm/mpmc_queue.hpp:69-87 | with one caller: refused exactly when empty, with the caller's variable untouched; otherwise the first value leaves |
| RingBuffer.RingBuffer.Push | searchengine/internal/kernal/core/datastructures/ringbuffer.hpp:20-31 | refused exactly when full, otherwise appends |
| RingBuffer.RingBuffer.Pop | searchengine/internal/kernal/core/datastructures/ringbuffer.hpp:33-45 | refused exactly when empty, with the caller's item untouched; otherwise takes the oldest |
| RingBuffer.RingBuffer.Put | searchengine/internal/kernal/core/datastructures/ringbuffer.hpp:57-59 | what push_blocking does once its wait is over: appends |
| RingBuffer.RingBuffer.Take | searchengine/internal/kernal/core/datastructures/ringbuffer.hpp:75-77 | what pop_blocking does once its wait is over: takes the oldest |
| RingBuffer.RingBuffer.Full | searchengine/internal/kernal/core/datastructures/ringbuffer.hpp:83-87 | true exactly when SIZE items are queued |
| RingBuffer.RingBuffer.Empty | searchengine/internal/kernal/core/datastructures/ringbuffer.hpp:89-93 | true exactly when none is |
| Lexer.Tokenise | searchengine/internal/lexer/lexer.cpp:174-198 | the tokens of a line are its pieces between single spaces, cleaned, without empty ones and stop words; the last piece of the line included |
| Lexer.SplitLine | searchengine/internal/lexer/lexer.cpp:212-224 | the pieces of a line between its spaces |
| Lexer.CleanPiece | searchengine/internal/lexer/lexer.cpp:182-189 | the characters that are neither white space nor punctuation, in lower case |
| Lexer.SplitJoins | searchengine/internal/lexer/lexer.cpp:212-224 | the pieces joined by spaces are the line: splitting loses nothing |
| Lexer.SplitHasNoSpaces | searchengine/internal/lexer/lexer.cpp:212-224 | no piece has a space in it |
| Lexer.JoinSplits | searchengine/internal/lexer/lexer.cpp:212-224 | pieces without spaces, joined by spaces, split into the same pieces |
| Lexer.LowerCase | searchengine/internal/lexer/lexer.cpp:187 | lower case for each of the 26 letters, and no change for any other character |
| Lexer.WhiteSpace | searchengine/internal/lexer/lexer.cpp:186 | the six characters that count as white space |
| Lexer.Punctuation | searchengine/internal/lexer/lexer.cpp:186 | the 32 characters that count as punctuation |
| Lexer.CleanIsClean | searchengine/internal/lexer/lexer.cpp:185-189 | a cleaned piece has no white space, punctuation or capital, and cleaning it again changes nothing |
| Lexer.TokensAreStable | searchengine/internal/lexer/lexer.cpp:174-198 | tokenising is a normal form: the tokens of a line, joined by spaces, have themselves as tokens |
| Lexer.EmittedAreTokens | searchengine/internal/lexer/lexer.cpp:191-194 | no emitted token is empty or a stop word, so none is taken for an end marker |
| LineReader.ReadLength | searchengine/internal/lexer/lexer.cpp:115-116 | what one call of fgets takes: the text to the end of the line, or as much as the buffer holds, or what is left |
| LineReader.CutIsHarmlessIff | searchengine/internal/lexer/lexer.cpp:115-131 | a line cut in two has the tokens of the whole line exactly when one of the two words that meet at the cut is empty, or they and the word they make are all stop words; after a NUL, when the rest has no tokens |
| LineReader.ChunksMatchText | searchengine/internal/lexer/lexer.cpp:115-131 | if every cut in a file is harmless, the tokens of the pieces that fgets reads are the tokens of its lines |
| LineReader.FittingLinesAreNotCut | searchengine/internal/lexer/lexer.cpp:115-116 | no line is cut if every line, its newline counted, fits into 455 bytes |
| LineReader.CutsBalance | searchengine/internal/lexer/lexer.cpp:115-131 | for every file: the tokens of the pieces and the words the cuts part make up the tokens of the lines and the parts that the cuts make of them |
| LineReader.ChunksMatchTextIff | searchengine/internal/lexer/lexer.cpp:115-131 | so, for every file, the pieces have the tokens of the lines exactly when the cuts put in what they take out |
| LineReader.PlainCutsMatchIff | searchengine/internal/lexer/lexer.cpp:115-131 | where no NUL comes before a cut and no word at it is a stop word, exactly when every single cut is harmless |
| LineReader.BufferHolds | searchengine/internal/lexer/lexer.cpp:115-116 | a line of up to 455 bytes, newline counted, is read whole, and of a longer one the first 455 bytes |
| LineReader.LineByLine | searchengine/internal/lexer/lexer.cpp:115-131 | the tokens of a text are those of its first line, up to a NUL, and those of the text after it; those of the pieces likewise while lines fit |
| LineReader.LongWordIsCut | searchengine/internal/lexer/lexer.cpp:115-116 | the failing input: a line of one word of 456 letters comes out as two tokens |
| Pipeline.StepKeepsInv | searchengine/internal/lexer/lexer.cpp:85-210 | every step of every thread keeps the invariant: end markers come last and once, and no token is lost or made up |
| PipelineRuns.ReachableInv | searchengine/internal/directoryreader/directoryreader.cpp:48-69 | the invariant holds in every reachable state |
| PipelineRuns.IndexComplete | searchengine/internal/parser/parser.cpp:48-78 | once the parser has seen the end marker it has indexed exactly the tokens of the pieces that fgets reads from the regular files that open, each as often as it occurs |
| PipelineRuns.EngineNeedsCompleteIndex | searchengine/internal/kernal/kernal.cpp:124-141 | on the cold path the Engine starts only on that index, the tokens of the pieces that fgets reads, with tokensIndexed its exact, non-zero size |
| PipelineText.EngineHasText | searchengine/internal/kernal/kernal.cpp:124-141 | if every line fits into the buffer, that index is the tokens of the lines of the files |
| PipelineText.IndexIsText | searchengine/internal/lexer/lexer.cpp:115-131 | so it is if every cut that fgets makes is harmless |
| PipelineText.IndexIsTextIff | searchengine/internal/lexer/lexer.cpp:115-131 | for every corpus: it is exactly when the cuts of all its files put in what they take out, and in any case it differs from the text by just that |
| PipelineText.PlainIndexIsTextIff | searchengine/internal/lexer/lexer.cpp:115-131 | where no NUL comes before a cut and no word at it is a stop word, exactly when every single cut is harmless |
| IndexTree.IndexTokens | searchengine/internal/parser/parser.cpp:43-60 | the loop of the parser: a valid search tree with one node for every different token, and the count of all of them |
| IndexTree.TreeOfRun | searchengine/internal/parser/parser.cpp:43-78 | after any run that drained the queue the words of the tree are the tokens of the corpus, and tokensIndexed counts them with repetition |
| IndexTree.SearchCorpus | searchengine/internal/kernal/core/datastructures/bstree.hpp:61-70 | from files to answers: a search in that tree finds a word exactly when it is a token of a piece that fgets reads from some regular file that opens; and, if every line fits into the buffer, of a line of such a file |
| PipelineRuns.EmptyCorpusFails | searchengine/internal/parser/parser.cpp:71-73 | the promise carries an error exactly when the corpus has no tokens |
| PipelineRuns.EngineStartsIff | searchengine/internal/kernal/kernal.cpp:76-141 | a finished run in which the kernal did not give up has started the Engine exactly if the corpus has a token, and failed exactly if it has none; a kernal that gave up has failed |
| PipelineRuns.RunsCanFinish | searchengine/internal/kernal/kernal.cpp:76-141 | every run in which the kernal has not given up can be carried on to such an end, so every corpus with a token can start the Engine |
| PipelineRuns.StagesStartInOrder | searchengine/internal/kernal/kernal.cpp:128-133 | no stage has done anything before the kernal has started it |
| PipelineRuns.StagesRunAtOnce | searchengine/internal/kernal/kernal.cpp:128-133 | and a stage may go ahead as soon as it is started |
| PipelineText.WordsOfCorpus | searchengine/internal/directoryreader/directoryreader.cpp:48-69 | a word is in the corpus exactly when some entry of the directory is a regular file that opens and has it |
| PipelineRuns.EndMarkerIsLast | searchengine/internal/lexer/lexer.cpp:204-209 | the parser's end marker is pushed once, after every token, when every worker is out |
| PipelineRuns.SomeoneCanStep | searchengine/internal/kernal/core/datastructures/ringbuffer.hpp:47-81 | no deadlock: until all threads have returned and the kernal has its answer, some thread can step; any corpus, capacity and number of workers |
| PipelineRuns.EveryStepWorks | searchengine/internal/lexer/lexer.cpp:93-210 | every step lowers a measure |
| PipelineRuns.RunsAreBounded | searchengine/internal/lexer/lexer.cpp:93-210 | so no run is longer than the measure it starts with |
| PipelineRuns.StuckRunsAreFinished | searchengine/internal/kernal/kernal.cpp:76-141 | a run that cannot be extended has finished, with the complete index |
| RefCount.StepKeepsInv | core-lesson/memory-management/exercises/12-smart-pointers/include/mm/shared_ptr.hpp:31-52 | every step of every owner and observer keeps: strong counts the owners, weak the observers and those about to let go, plus one for the owners together |
| RefCount.ReachableInv | core-lesson/memory-management/exercises/12-smart-pointers/include/mm/shared_ptr.hpp:20-24 | that holds in every reachable state |
| RefCount.ObjectLifetime | core-lesson/memory-management/exercises/12-smart-pointers/include/mm/shared_ptr.hpp:32-37 | the object is destroyed at most once, and not while a strong owner remains |
| RefCount.BlockLifetime | core-lesson/memory-management/exercises/12-smart-pointers/include/mm/shared_ptr.hpp:39-42 | the block is freed at most once, after the object is destroyed and when no handle is left; afterwards no step is possible |
| RefCount.NoTouchAfterFree | core-lesson/memory-management/exercises/12-smart-pointers/include/mm/shared_ptr.hpp:31-52 | any step that can be taken finds the block allocated |
| RefCount.NoRevival | core-lesson/memory-management/exercises/12-smart-pointers/include/mm/shared_ptr.hpp:45-52 | once the strong count is 0 it stays 0 and no strong handle ever appears |
| RefCount.LockFailsOnlyWhenDead | core-lesson/memory-management/exercises/12-smart-pointers/include/mm/shared_ptr.hpp:45-52 | lock comes back empty only when the strong count is 0 and the object destroyed or about to be, and with a strong handle only while the object lives |
| RefCount.LockSucceeds | core-lesson/memory-management/exercises/12-smart-pointers/include/mm/shared_ptr.hpp:46-51 | while the object lives, a CAS on the current count yields a strong handle |
| RefCount.AllDroppedAllGone | core-lesson/memory-management/exercises/12-smart-pointers/include/mm/shared_ptr.hpp:75-123 | when every reference has been dropped once, the object is destroyed and the block freed |
| RefCountRuns.GivingEffects | core-lesson/memory-management/exercises/12-smart-pointers/include/mm/shared_ptr.hpp:31-38 | a copy and an observer put a new handle into its slot and leave the old one; a move takes it from there; nothing else changes |
| RefCountRuns.DroppingEffects | core-lesson/memory-management/exercises/12-smart-pointers/include/mm/shared_ptr.hpp:32-42 | a drop takes the handle out of its slot and one off the number of handles; exactly the last owner goes on to destroy the object, exactly the last reference to free the block |
| RefCountRuns.EndingEffects | core-lesson/memory-management/exercises/12-smart-pointers/include/mm/shared_ptr.hpp:32-42 | what follows: the object is destroyed, the owners give back their weak reference, the block is freed |
| RefCountRuns.LockingEffects | core-lesson/memory-management/exercises/12-smart-pointers/include/mm/shared_ptr.hpp:45-52 | lock ends empty on a count of 0, with a SharedPtr on an unchanged count, and otherwise tries again with the count as it is now |
| RefCountRuns.LettingGoEnds | core-lesson/memory-management/exercises/12-smart-pointers/include/mm/shared_ptr.hpp:32-42 | a run of drops and what follows them is no longer than what the handles owe |
| RefCountRuns.NobodyHoldsOn | core-lesson/memory-management/exercises/12-smart-pointers/include/mm/shared_ptr.hpp:32-42 | when no lock is pending and nobody can let go any more, the object is destroyed, the block freed and no handle left |
| RefCountRuns.EverythingCanGo | core-lesson/memory-management/exercises/12-smart-pointers/include/mm/shared_ptr.hpp:31-52 | from every reachable state the pending locks can be decided and all references dropped, and then the object has been destroyed and the block freed, once each |
| LeakTracker.LeakTracker.constructor | core-lesson/memory-management/exercises/16-leak-detector/include/mm/leak_tracker.hpp:104-108 | an empty table, of any capacity |
| LeakTracker.LeakTracker.FindSlot | core-lesson/memory-management/exercises/16-leak-detector/include/mm/leak_tracker.hpp:86-94 | the slot of p exactly when p is tracked, despite tombstones |
| LeakTracker.LeakTracker.SlotForInsert | core-lesson/memory-management/exercises/16-leak-detector/include/mm/leak_tracker.hpp:97-102 | the first slot on the probe path of p that is not USED; none exactly when the table is full |
| LeakTracker.LeakTracker.Track | core-lesson/memory-management/exercises/16-leak-detector/include/mm/leak_tracker.hpp:32-40 | as its comment says: p is live with its size and the next id, counters follow, and the table stays searchable |
| LeakTracker.LeakTracker.Untrack | core-lesson/memory-management/exercises/16-leak-detector/include/mm/leak_tracker.hpp:42-51 | true exactly when p was live, and then it is not any more; otherwise only the count of invalid frees changes |
| LeakTracker.LeakTracker.Report | core-lesson/memory-management/exercises/16-leak-detector/include/mm/leak_tracker.hpp:53-61 | up to cap different live allocations with their data, and how many there are |
| LeakTracker.LeakTracker.Reset | core-lesson/memory-management/exercises/16-leak-detector/include/mm/leak_tracker.hpp:68-73 | the empty table with zero counters |
| LeakTracker.EndOfPath | core-lesson/memory-management/exercises/16-leak-detector/include/mm/leak_tracker.hpp:88-93 | a probe that ends at an EMPTY slot, or after a full round, has proved that p is not in the table |
| LeakTracker.ProbeIsLinear | core-lesson/memory-management/exercises/16-leak-detector/include/mm/leak_tracker.hpp:86-90 | the probe path goes slot by slot from the hash and wraps around once |
| LeakTracker.Filled | core-lesson/memory-management/exercises/16-leak-detector/include/mm/leak_tracker.hpp:97-102 | filling the first free slot of a probe path leaves no EMPTY slot before a USED one |
| LeakTracker.Emptied | core-lesson/memory-management/exercises/16-leak-detector/include/mm/leak_tracker.hpp:91 | a tombstone keeps all probe paths unbroken |
| LeakTracker.CountIsLive | core-lesson/memory-management/exercises/16-leak-detector/include/mm/leak_tracker.hpp:63 | the number of USED slots is the number of live allocations |
| HardenedAllocator.HardenedAllocator.constructor | core-lesson/memory-management/exercises/17-hardened-allocator/include/mm/hardened_allocator.hpp:41-55 | the payload is the request rounded up to 16, at least 16, and a block is 24 bytes, payload and 8 bytes; every block is on the free list, in order of address, whatever the memory held |
| HardenedAllocator.HardenedAllocator.Allocate | core-lesson/memory-management/exercises/17-hardened-allocator/include/mm/hardened_allocator.hpp:61-72 | null exactly when the list is empty; otherwise the block at its head, which was not live and is now, with both canaries set to that of its address and no other block touched; the free list stays acyclic and holds exactly the free blocks, and the corrupted-link exception does not occur |
| HardenedAllocator.HardenedAllocator.Deallocate | core-lesson/memory-management/exercises/17-hardened-allocator/include/mm/hardened_allocator.hpp:74-84 | field by field, for the payload of any block: double free iff marked free, bad state iff marked neither way, overflow iff marked in use and the header or the trailer canary is not that of the address, accepted otherwise; any other pointer but null is foreign; an accepted block is filled with 0xDD, marked free and heads the list, and a refusal changes one counter alone |
| HardenedAllocator.HardenedAllocator.DoneIffLive | core-lesson/memory-management/exercises/17-hardened-allocator/include/mm/hardened_allocator.hpp:74-84 | the checks of deallocate pass exactly for the payload of a live block, as long as nobody wrote outside a live payload |
| HardenedAllocator.HardenedAllocator.Push | core-lesson/memory-management/exercises/17-hardened-allocator/include/mm/hardened_allocator.hpp:139 | the block heads the list, with the old head encoded in its link; no other block changes |
| HardenedAllocator.HardenedAllocator.PayloadAddress | core-lesson/memory-management/exercises/17-hardened-allocator/include/mm/hardened_allocator.hpp:146-149 | every address in the payload range check is the payload of exactly one block |
| HardenedAllocator.HardenedAllocator.LinkRange | core-lesson/memory-management/exercises/17-hardened-allocator/include/mm/hardened_allocator.hpp:142-145 | the range check of a link admits exactly the addresses of the blocks |
| HardenedAllocator.HardenedAllocator.BlocksApart | core-lesson/memory-management/exercises/17-hardened-allocator/include/mm/hardened_allocator.hpp:132-133 | the blocks lie side by side, in order of address, and do not overlap |
| HardenedAllocator.HardenedAllocator.Popped | core-lesson/memory-management/exercises/17-hardened-allocator/include/mm/hardened_allocator.hpp:61-64 | taking the head off a well-formed list leaves a well-formed list |
| HardenedAllocator.HardenedAllocator.Pushed | core-lesson/memory-management/exercises/17-hardened-allocator/include/mm/hardened_allocator.hpp:139 | putting a block on a well-formed list leaves a well-formed list |
| FileHeader.EncodeHeader | searchengine/internal/kernal/core/storage/fileheader.hpp:18-34 | each field sits at its own offset, magic at 0 to reserved at 28, and the rest of the page is zero |
| FileHeader.DecodeHeader | searchengine/internal/kernal/core/storage/fileheader.hpp:36-54 | each field is read from its own offset, magic from 0 to reserved from 28 |
| FileHeader.NumberAtIs | searchengine/internal/kernal/core/storage/fileheader.hpp:21-24 | the number at an offset is its four bytes, least significant first |
| FileHeader.MagicSpells | searchengine/internal/kernal/core/storage/fileheader.hpp:59 | the file begins with the letters SEDB |
| FileHeader.HeaderRoundTrip | searchengine/internal/kernal/core/storage/fileheader.hpp:18-54 | on pages with a zero tail, encoded header and decoded header determine each other |
| FileHeader.NumberOfBytes | searchengine/internal/kernal/core/storage/fileheader.hpp:21-24 | a 32-bit number survives being copied to bytes and back |
| DiskManager.DiskManager.ReadPage | searchengine/internal/kernal/core/storage/diskmanager.cpp:44-70 | throws exactly on the invalid id; otherwise the page in the file, or, past its end, the caller's buffer as it was |
| DiskManager.DiskManager.WritePage | searchengine/internal/kernal/core/storage/diskmanager.cpp:72-89 | throws exactly on the invalid id; otherwise that page alone changes, and the file grows by zero pages if need be |
| DiskManager.DiskManager.AllocatePage | searchengine/internal/kernal/core/storage/diskmanager.cpp:120-138 | with a non-empty free list: the page freed last, zeroed; the rest of the chain stays well formed and no other page changes |
| DiskManager.DiskManager.DeallocatePage | searchengine/internal/kernal/core/storage/diskmanager.cpp:140-153 | refuses the header page, the invalid id and ids out of range; otherwise the page heads the chain, and the chain is well formed exactly when the page was not on it already |
| DiskManager.DiskManager.LoadOrInitHeader | searchengine/internal/kernal/core/storage/diskmanager.cpp:155-194 | a new file gets a one-page header; an old one is accepted exactly when magic, version and page size fit, and its page count never exceeds the file; afterwards the invariant holds exactly when the free list on disk is a well-formed chain below that page count, of the recorded length |
| DiskManager.DiskManager.FlushHeader | searchengine/internal/kernal/core/storage/diskmanager.cpp:196-202 | afterwards the header on disk decodes to the header in memory; no other page changes |
| DiskManager.DiskManager.SetRootPageId | searchengine/internal/kernal/core/storage/diskmanager.cpp:204-208 | the new root id is in memory and on disk; the free list is as before |
| DiskManager.FreeKeepsChainIff | searchengine/internal/kernal/core/storage/diskmanager.cpp:140-153 | freeing page id leaves some well-formed chain exactly when id is not on the chain |
| DiskManager.FreedTwice | searchengine/internal/kernal/core/storage/diskmanager.cpp:140-153 | the failing input: page 1 of a two-page file freed twice leaves no well-formed chain |
| DiskManager.TruncationKeepsChainIff | searchengine/internal/kernal/core/storage/diskmanager.cpp:186-193 | cutting a file and its page count down keeps some well-formed chain exactly when no free page is cut off |
| DiskManager.TruncatedListDangles | searchengine/internal/kernal/core/storage/diskmanager.cpp:186-193 | the failing input: a three-page file with page 2 free, cut down to two |
| DiskManager.StaleRead | searchengine/internal/kernal/core/storage/diskmanager.cpp:55-61 | a read of any page past the end of the file, into a buffer that is not zero: the buffer is returned as it was, not zero |
| DiskManager.ChainUnique | searchengine/internal/kernal/core/storage/diskmanager.cpp:120-129 | the file and its head determine the chain |
| DiskManager.ChainPop | searchengine/internal/kernal/core/storage/diskmanager.cpp:124-135 | following the head's link and overwriting that page keeps the rest of the chain |
| DiskManager.ChainPush | searchengine/internal/kernal/core/storage/diskmanager.cpp:145-150 | linking a page that is off the chain in front keeps the chain |
| ArrivalOfGeneral.SwapsIsMinimal | CodeForces/144A/144A.cpp:16-28 | the printed number is the length of a shortest sequence of neighbour swaps that puts a maximum first and a minimum last |
| ArrivalOfGeneral.SwapLowersByAtMostOne | CodeForces/144A/144A.cpp:22-26 | no single swap lowers the formula by more than one |
| ArrivalOfGeneral.SomeSwapLowers | CodeForces/144A/144A.cpp:22-26 | while the formula is positive, some swap lowers it by one |
| ArrivalOfGeneral.ArrangedIffNoSwaps | CodeForces/144A/144A.cpp:22-26 | the formula is 0 exactly when the line is arranged |
| ChangeMaking.GreedyIsOptimal | CodeForces/996A/996A.cpp:4-30 | getResult(n), for n >= 1, is the least number of notes from {1, 5, 10, 20, 100} worth n, over all bundles |
| ChangeMaking.OneMoreNote | CodeForces/996A/996A.cpp:9-27 | one more note of any value makes the greedy count grow by at most one |
| ChangeMaking.SomeBundleFits | CodeForces/996A/996A.cpp:4-30 | a bundle of that size exists |
| MakePalindrome.Solve | CodeForces/2267A/2267A.cc:21-54 | the string becomes a palindrome by overwriting with the given character alone, for the printed cost, which no other such palindrome undercuts |
| MakePalindrome.IsPalindrome | CodeForces/2267A/2267A.cc:4-19 | true exactly when the string reads the same backwards |
| MakePalindrome.MendPair | CodeForces/2267A/2267A.cc:34-46 | one pair: both sides agree afterwards, and the coins are the characters that changed |
| MakePalindrome.EveryChangeIsForced | CodeForces/2267A/2267A.cc:33-46 | every solution overwrites all the characters that this one does |
| MakePalindrome.MendedIsCheapest | CodeForces/2267A/2267A.cc:21-54 | the result is cheapest, and the only solution at its price |
| MakePalindrome.CostIsZeroIffPalindrome | CodeForces/2267A/2267A.cc:24-27 | nothing is to be paid exactly when the string is a palindrome already |
| BSTree.BSTree.Insert | searchengine/internal/kernal/core/datastructures/bstree.hpp:21-59 | from any valid tree: still ordered, and the set of words gains the value; a value that is there already changes nothing, and exactly one node is created for one that is not |
| BSTree.BSTree.Search | searchengine/internal/kernal/core/datastructures/bstree.hpp:61-70 | non-null exactly when the word is in the set, and then a node of the tree with that word |
| BSTree.BSTree.Remove | searchengine/internal/kernal/core/datastructures/bstree.hpp:87-109 | from any valid tree: still ordered, and the set loses exactly that word, the two-child case included; no node is created, and the nodes left alive are those of the tree |
| BSTree.BSTree.RecurseInsertion | searchengine/internal/kernal/core/datastructures/bstree.hpp:48-59 | a new node is linked into the slot where the search falls off, or nothing changes |
| BSTree.BSTree.GetNodeRef | searchengine/internal/kernal/core/datastructures/bstree.hpp:72-80 | the slot that the search for the value ends at |
| BSTree.BSTree.FindMin | searchengine/internal/kernal/core/datastructures/bstree.hpp:82-85 | the slot of the leftmost node |
| BSTree.BSTree.Unlink | searchengine/internal/kernal/core/datastructures/bstree.hpp:91-108 | the four branches: one node is deleted, the subtree loses its root key, and no slot outside it but the given one changes |
| BSTree.BSTree.UnlinkSuccessor | searchengine/internal/kernal/core/datastructures/bstree.hpp:103-107 | the two-child branch: the successor's key moves up and the successor is spliced out |
| BSTree.BSTree.Clear | searchengine/internal/kernal/core/datastructures/bstree.hpp:40-46 | the nodes of the subtree are deleted, each once, in post-order: after its children |
| BSTree.SearchEndsAtKey | searchengine/internal/kernal/core/datastructures/bstree.hpp:61-80 | in a sorted tree the search path ends at the key exactly when the tree has it |
| BSTree.PlugAtSearchPath | searchengine/internal/kernal/core/datastructures/bstree.hpp:48-59 | replacing what a search ends at, by something that differs in that key alone, keeps the order and all other keys |
| BSTree.SuccessorTakesOver | searchengine/internal/kernal/core/datastructures/bstree.hpp:91-108 | a root with two children takes over the least key on its right, which goes from there; one with one child gives way to it |
| BSTree.RootKeyRemoved | searchengine/internal/kernal/core/datastructures/bstree.hpp:91-108 | what the four branches leave is sorted and lacks exactly the root key |
| BSTree.RootNodeRemoved | searchengine/internal/kernal/core/datastructures/bstree.hpp:91-108 | and lacks exactly one node |
| BSTree.MinIsLeast | searchengine/internal/kernal/core/datastructures/bstree.hpp:82-85 | the leftmost key is below all others, and unlinking it removes it alone |
| BSTree.ChangeReplaces | searchengine/internal/kernal/core/datastructures/bstree.hpp:72-109 | a write through the reference getNodeRef returns replaces that subtree in the whole tree |
| StringOrder.Trichotomy | searchengine/internal/kernal/core/datastructures/bstree.hpp:53-57 | of two strings exactly one of less, equal and greater holds |
| StringOrder.FirstDifferenceDecides | searchengine/internal/kernal/core/datastructures/bstree.hpp:53-57 | the first character that differs decides, and a proper prefix comes first |
| StringOrder.LessIsTransitive | searchengine/internal/kernal/core/datastructures/bstree.hpp:53-57 | the order of strings is transitive |

## Left out

- BPlusTree.BPlusTree.constructor: takes an order of at least 3; `Create`, which calls it, answers null where the source throws.
- BPlusTree.BPlusTree.RangeSearch: on integer keys, which are discrete and have no least element; key types with other orders (strings, reals, unsigned numbers) are not modelled.
- BPlusTree.BPlusTree.BorrowFromLeft: takes the parent and the index as arguments where the source looks them up again; so do the other borrows and `MergeNodes`. The branches on leaf or internal are methods of their own.
- DiskManager.DiskManager.AllocatePage: only with a non-empty free list, because the source has no return value otherwise.
- DiskManager.DiskManager.ReadPage: a file is a whole number of pages, so reads of part of a page, seek errors and read errors do not occur; nor do failing writes.
- LeakTracker.LeakTracker.Track: the source leaves `track`, `untrack` and `report` to the student; they are modelled as their comments spell them out, for an untracked pointer and a table that is not full.
- RefCount.LockSucceeds: copying and locking a pointer are left to the student in the source; the steps are those of the control block's own functions, which are written out.
- HardenedAllocator.HardenedAllocator.Allocate: for any canary function and any link codec whose decoding undoes its encoding, the identity codec of the source among them; links of free blocks are never overwritten, so the branch for a corrupted link is never taken.
- PipelineRuns.EngineNeedsCompleteIndex: for runs in which no subsystem is stopped before the promise is set; on an aborting run the marker pushed by `OnStop` can be taken for the end of the stream.
- MakePalindrome.Solve: for non-empty strings, as in the source, which reads out of bounds on the empty one.
- MpmcHistory.StepIsQueueStep: calls that succeed; a call that returns false has no such point, since it may be refused with room left or a value accepted.
- Memory orderings and data races of the MPMC queue and the reference counts: steps are sequentially consistent.
- Overflow of sizes, counters and positions; the conversions to `int` in the bound searches of the B+ tree are exact.
- Index masks (`pos & mask`) are remainders, which is the same for a capacity that is a power of two.
- Reclamation of B+ tree nodes: deleted nodes leave the store, but `DestroyTree` is only its effect.
- Waiting and waking on condition variables, thread creation failure, time-outs (`KernalGivesUp` covers time-out and abort of the kernal), logging, and shutdown of the pipeline.
- The warm path of `StartAll`, where a stored index exists and the pipeline does not run.
- The parser's `BSTree` is represented in the state machine by the sequence of tokens inserted into it; `IndexTree` inserts them.
- Read errors in the middle of a file, after which `fgets` stops early.
- Copy and move assignment of `WeakPtr`, which are made of the modelled steps.
- Printing, in-order traversal, move construction, iterators and accessors of the containers.
- The constructor of `DiskManager` and the synchronisation of the file with the device.
- Functions the source leaves as stubs (the LSM tree, direct file access, the memory allocators of the early lessons): there is no code to model.
- The object storage server, the benchmarks, the test runners, the tools and the other contest programs.
