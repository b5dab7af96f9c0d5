# Cranelift: trees, dominators, alias analysis and the e-graph pass

A Dafny model of five pieces of Cranelift and proofs of what they are for. Code that updates objects in place is
modelled by classes and methods with the same fields, loops and branches; a method is proved against a specification
on values, and the properties are lemmas about that specification or invariants of all runs.

## The parts

**B+-tree forest** (`bforest_*.dfy`). A tree is seen level by level: row `l` lists the nodes of level `l` with their
critical keys, each row is the concatenation of what the nodes of the row above hold, and the last row expands to the
entries. `TreeOK` is the invariant that the debug function `verify_tree` spells out: strict key order, separators equal
to the first key of the right sub-tree, nodes half full except on the right edge, no sharing, no single-child root. A
path is at a level and an index of each row. The leaf capacity is a parameter of the pool, so the same proofs serve
maps and sets. Insertion, removal with borrowing, merging with cousins, cascades and root collapse, navigation,
cursors, `retain`, and runs over several maps in one pool are proved to act on the sequence of entries as they
should, to keep the invariant, and to own exactly their nodes.

**Dominator tree** (`domtree*.dfy`). Dominance is a statement about all paths. The depth-first traversal with an
explicit stack is shown to give the order of the recursive one, to be a post-order, and to obey a law of depth-first
order that is stated on the graph alone; Cooper's algorithm is shown to
terminate with a tree whose ancestor relation is dominance, at the level of single instructions; and the pre-order
index is shown to answer the same question by two comparisons. Nothing is assumed of the control flow graph except
that successors and predecessors agree and that branches are instructions of existing blocks.

**Alias analysis** (`alias*.dfy`). An execution is a sequence of configurations: a point, the values and the memory. It
begins with arguments and memory that the machine allows (`init`). The last-store markers are shown to mean what they
should on every path, loops included, and to be as precise as the paths allow: a marker is a given write exactly if all
paths have it as their last write. Replacing loads is shown to preserve executions in both directions, for every order
of blocks; for a pre-order of the dominator tree no redundant load is missed. The premises are those the analysis states: in executions from allowed start states an address is
accessed under one region only (`RegionsOK`), which is what producers of the code promise; an ordinary load reads back
what an ordinary store of the same type writes (`MachineOK`); and the function is in SSA form with branches at the end
of non-empty blocks and no loads in unreachable ones (`FuncOK`). `AliasExample.TwoRegions` shows that a function with
two regions, one reached through a base kept in the other, meets them.

**E-graph pass** (`egraph*.dfy`). Every value has a meaning, an integer. Rewrite rules are an oracle that returns
terms with the meaning of the value matched, over operands available at its block (`RulesOK`). The invariant says that
members of a class have one meaning and one available block, that every entry of the GVN map is an equal value in a
dominating block, and that every replacement is equal. Classes are a union-find forest with ranks, pins and path
halving. Because the operands of entries are pinned, value numbering is complete: an instruction whose operation and
operand classes are in the table is found, until two pinned classes are merged. Of equal mergeable instructions exactly
those are kept that no kept one dominates. It is kept by every operation, recursive rewriting included,
and by the scoped walk over the dominator tree, which also keeps the layout of what is left. `EgraphFunction.Optimize`
joins the pass to the computed dominator tree and its index, and states the results for all paths of the control flow
graph.

**Smaller parts**. Control flow graph maintenance (`flowgraph.dfy`), hash tables with quadratic probing, from their
generation to look-up (`constant_hash.dfy`), and the incremental compilation cache (`incremental_cache.dfy`) under the
premises `CompilerOK`: hashes of keys differ for different keys, and what was serialized can be read back.

## Where the code and its comments differ

The model follows the code.

- `wasmtime-repo/cranelift/bforest/src/lib.rs:46-48` says that node references run out before `MAX_PATH` is reached.
  What is proved is the other half of that comment: with at most 2^32 entries a tree has at most 16 levels.
- `wasmtime-repo/cranelift/codegen/src/dominator_tree.rs:264-266` says that `compute_postorder` leaves number 1 for
  reachable blocks. The code leaves 0 for all blocks.
- In `wasmtime-repo/cranelift/codegen/src/alias_analysis.rs:129-137` the arms that look as if they kept the only marker
  do not apply, because the conversions there always give a `Some` of the packed option. The meet is the common marker
  if the two are equal and the merge location otherwise, and soundness in loops rests on that.
- `wasmtime-repo/cranelift/codegen/src/alias_analysis.rs:265` says that `process_inst` returns `true` if the instruction
  was removed. It returns the replacing value and leaves removal to the caller.
- `wasmtime-repo/cranelift/codegen/src/alias_analysis.rs:261-263` recommends reverse post-order or a dominator-tree
  pre-order for maximal reuse. In reverse post-order a redundant load can be missed (`AliasLost.LoseReuse`); in
  pre-order none is (`AliasPreorder.PreorderReuses`).
- `wasmtime-repo/cranelift/codegen/src/egraph.rs:139-144` calls the canonical value of a class its oldest. The union-find
  picks it by rank, and by pins.
- The comment on the union loop in `wasmtime-repo/cranelift/codegen/src/egraph.rs:361-363` speaks of a union of all new
  values with the original. The loop skips the original unless it is the first value taken.

## Model

| member | source | states |
|---|---|---|
| `BforestSlice.SliceInsertInPlace` | wasmtime-repo/cranelift/bforest/src/lib.rs:116-121 | inserting into a slice in place shifts the tail right by one, drops the last element and leaves everything outside the slice alone |
| `BforestSlice.SliceShiftInPlace` | wasmtime-repo/cranelift/bforest/src/lib.rs:124-128 | shifting a slice left by n in place, everything outside it unchanged |
| `BforestSlice.InsertUsed` | wasmtime-repo/cranelift/bforest/src/lib.rs:116-121 | on a buffer with one unused slot the slice insertion is list insertion on the used part |
| `BforestSlice.ShiftUsed` | wasmtime-repo/cranelift/bforest/src/lib.rs:124-128 | shifting the tail by one is list removal on the used part |
| `BforestSlice.LeafInsertInPlace` | wasmtime-repo/cranelift/bforest/src/node.rs:194-218 | the in-place insertion into the arrays of a leaf is the insertion on its used entries; a full leaf is left alone |
| `BforestSlice.InnerInsertInPlace` | wasmtime-repo/cranelift/bforest/src/node.rs:168-190 | the same for keys and sub-trees of an inner node |
| `BforestSlice.LeafRemoveInPlace` | wasmtime-repo/cranelift/bforest/src/node.rs:335-352 | the in-place removal from a leaf is the removal on its used entries |
| `BforestSlice.InnerRemoveInPlace` | wasmtime-repo/cranelift/bforest/src/node.rs:310-330 | the same for an inner node, down to the last sub-tree |
| `BforestFind.SearchBy` | wasmtime-repo/cranelift/bforest/src/lib.rs:64-74 | binary search under any comparator that is a total order: an equal key with everything left of it smaller and right of it greater, or the only place where the key can go |
| `BforestNode.TryInnerInsert` | wasmtime-repo/cranelift/bforest/src/node.rs:168-190 | fails exactly when the node is full; otherwise, read as (separator, child) pairs under any left separator, the new pair stands after the child at the index |
| `BforestNode.TryLeafInsert` | wasmtime-repo/cranelift/bforest/src/node.rs:194-218 | fails exactly when the leaf is full; otherwise the entries are the old ones with the new one at the index |
| `BforestNode.Split` | wasmtime-repo/cranelift/bforest/src/node.rs:225-301 | both halves are well formed and not empty, together have the capacity of the node, and the critical key of a leaf split is the first key of the right half |
| `BforestNode.SplitHalves` | wasmtime-repo/cranelift/bforest/src/node.rs:225-301 | the pairs of the left half followed by those of the right half under the critical key are the pairs of the node |
| `BforestNode.InnerRemove` | wasmtime-repo/cranelift/bforest/src/node.rs:310-330 | removes one child with the separator left of it, or, for the first child, gives its separator to the next one |
| `BforestNode.LeafRemove` | wasmtime-repo/cranelift/bforest/src/node.rs:335-352 | removes exactly one entry |
| `BforestNode.Balance` | wasmtime-repo/cranelift/bforest/src/node.rs:364-465 | returns no critical key exactly when both nodes fit in one |
| `BforestNode.BalanceMerges` | wasmtime-repo/cranelift/bforest/src/node.rs:364-465 | after a merge the right node holds the pairs of both, in order |
| `BforestNode.BalanceSpreads` | wasmtime-repo/cranelift/bforest/src/node.rs:364-465 | after a redistribution both nodes are at least half full, the left one has grown, and no pair is lost, added or moved past another |
| `BforestSplit.SplitInsertExpand` | wasmtime-repo/cranelift/bforest/src/path.rs:292-336 | splitting a full node and inserting into the half chosen gives the old pairs with the new one inserted, across the two halves |
| `BforestSplit.SplitInsertCrit` | wasmtime-repo/cranelift/bforest/src/path.rs:318-336 | the critical key handed upward is the first key of the right leaf even when the new key became that first key |
| `BforestPool.NodePool.constructor` | wasmtime-repo/cranelift/bforest/src/pool.rs:19-24 | a new pool has no nodes and a valid free list |
| `BforestPool.NodePool.Clear` | wasmtime-repo/cranelift/bforest/src/pool.rs:27-30 | no nodes are left |
| `BforestPool.NodePool.AllocNode` | wasmtime-repo/cranelift/bforest/src/pool.rs:33-50 | takes a free node, or a new one when none is free; the free list stays the acyclic list of exactly the free nodes |
| `BforestPool.NodePool.FreeNode` | wasmtime-repo/cranelift/bforest/src/pool.rs:53-60 | a live node joins the free list, which stays acyclic and complete |
| `BforestFree.FreeTree` | wasmtime-repo/cranelift/bforest/src/pool.rs:63-74 | frees exactly the nodes of the sub-tree, each once |
| `BforestFree.FreeChildren` | wasmtime-repo/cranelift/bforest/src/pool.rs:63-74 | frees exactly the nodes of the sub-trees of one inner node |
| `BforestPath.Path.constructor` | wasmtime-repo/cranelift/bforest/src/path.rs:24-33 | an empty path |
| `BforestPath.Path.Find` | wasmtime-repo/cranelift/bforest/src/path.rs:47-88 | from the root of a valid tree the path ends at the place of the key among all entries: at the entry if there is one, else between its neighbours |
| `BforestFind.UnderStep` | wasmtime-repo/cranelift/bforest/src/path.rs:59-70 | one step down: the child chosen by the binary search covers the key |
| `BforestFind.LeafSearch` | wasmtime-repo/cranelift/bforest/src/path.rs:71-83 | the search in the leaf reached settles where the key is among all entries of the tree |
| `BforestPath.Path.First` | wasmtime-repo/cranelift/bforest/src/path.rs:91-104 | the path stands at the first entry, which is returned |
| `BforestPath.Path.Next` | wasmtime-repo/cranelift/bforest/src/path.rs:107-125 | moves from entry t to entry t+1 of the whole sequence, and off the end after the last; off the end it stays off the end |
| `BforestPath.Path.Prev` | wasmtime-repo/cranelift/bforest/src/path.rs:132-158 | moves from entry t, or from between entries or off the end, to entry t-1; at the first entry it returns nothing and the path is unchanged |
| `BforestPath.Path.NextNode` | wasmtime-repo/cranelift/bforest/src/path.rs:165-187 | the path at a level moves to the right neighbour on that level, also when the neighbour is a cousin; without one the path is off the end |
| `BforestPath.Path.PrevLeaf` | wasmtime-repo/cranelift/bforest/src/path.rs:194-201 | moves to the last entry of the leaf to the left if and only if there is an earlier entry |
| `BforestPath.Path.GotoSubtreeLast` | wasmtime-repo/cranelift/bforest/src/path.rs:204-222 | descends to the last entry of a sub-tree |
| `BforestPath.Path.SetRootNode` | wasmtime-repo/cranelift/bforest/src/path.rs:225-229 | a path to the first entry of a root leaf |
| `BforestPath.Path.SetValue` | wasmtime-repo/cranelift/bforest/src/path.rs:255-257 | writing through the value reference changes the value of the entry at the path and nothing else in the tree |
| `BforestPath.Path.Normalize` | wasmtime-repo/cranelift/bforest/src/path.rs:637-644 | a path past the last entry of a leaf is moved to the next entry of the tree, or off the end |
| `BforestPath.Path.RightSiblingBranchLevel` | wasmtime-repo/cranelift/bforest/src/path.rs:585-590 | the deepest level above where the path can step right |
| `BforestPath.Path.LeftSiblingBranchLevel` | wasmtime-repo/cranelift/bforest/src/path.rs:593-595 | the deepest level above where the path can step left |
| `BforestPath.Path.RightSibling` | wasmtime-repo/cranelift/bforest/src/path.rs:599-620 | the next node of the level with its critical key, sibling or cousin, or none at the right edge |
| `BforestPath.Path.CurrentCritKey` | wasmtime-repo/cranelift/bforest/src/path.rs:387-393 | the critical key of the node on the path at a level, none on the left edge |
| `BforestPath.Path.UpdateCritKey` | wasmtime-repo/cranelift/bforest/src/path.rs:396-417 | the separator of the current leaf, wherever above it is stored, becomes the first key of the leaf; the tree above stays linked |
| `BforestPath.Path.UpdateRightCritKey` | wasmtime-repo/cranelift/bforest/src/path.rs:623-633 | the separator of the right neighbour is set in the one ancestor that stores it |
| `BforestPath.Path.Insert` | wasmtime-repo/cranelift/bforest/src/path.rs:263-268 | for an absent key at its place in a valid tree: the entries are the old ones with the new one inserted there, the tree invariant holds, the path stands at the new entry, new nodes come only from free or fresh ones |
| `BforestPath.Path.TryInsert` | wasmtime-repo/cranelift/bforest/src/path.rs:272-281 | inserts at one level if the node has room; if not, nothing has changed and the node is full |
| `BforestPath.Path.SplitAndInsert` | wasmtime-repo/cranelift/bforest/src/path.rs:285-362 | splits upward as far as needed and grows the root; the insertion is complete and the root never has a single child |
| `BforestPath.Path.SplitLevel` | wasmtime-repo/cranelift/bforest/src/path.rs:292-352 | one level: the full node is split, the pending item is placed, and the right half becomes the pending item of the level above, the path following its target |
| `BforestPath.Path.SplitNode` | wasmtime-repo/cranelift/bforest/src/path.rs:294-340 | node contents and path after one split and insertion |
| `BforestPath.Path.HalveNode` | wasmtime-repo/cranelift/bforest/src/path.rs:294-314 | the right half gets a node of its own and the path moves there exactly when the insertion point does |
| `BforestPath.Path.GrowRoot` | wasmtime-repo/cranelift/bforest/src/path.rs:355-361 | a new root over the two halves; the path gets one level longer and MAX_PATH is not exceeded |
| `BforestGrow.TreeDepth` | wasmtime-repo/cranelift/bforest/src/lib.rs:42-49 | a valid tree of d >= 2 levels has at least 4^(d-1)+1 entries |
| `BforestGrow.MaxPathSuffices` | wasmtime-repo/cranelift/bforest/src/lib.rs:46-49 | a valid tree with at most 2^32 entries has at most MAX_PATH levels |
| `BforestPath.Path.Remove` | wasmtime-repo/cranelift/bforest/src/path.rs:368-379 | for every valid tree and every entry: exactly that entry is gone, the tree invariant holds again, the path stands at the entry that followed or is off the end, exactly the nodes no longer used were freed, and no root is returned if and only if it was the only entry |
| `BforestPath.Path.ShrinkLeaf` | wasmtime-repo/cranelift/bforest/src/path.rs:368-376 | removal in the leaf with the separator above repaired, and the status that says what is left to heal |
| `BforestPath.Path.HealLevel` | wasmtime-repo/cranelift/bforest/src/path.rs:475-491 | whatever the status, the levels down to this one are valid again with the same content below and the path kept on its target; the tree is reported empty exactly when the root itself became empty |
| `BforestPath.Path.UnderflowedNode` | wasmtime-repo/cranelift/bforest/src/path.rs:499-541 | borrowing from or merging with the right neighbour, or tolerating the rightmost node, keeps the sequence and the target of the path |
| `BforestPath.Path.BalanceRight` | wasmtime-repo/cranelift/bforest/src/path.rs:502-526 | merge or redistribution with the right sibling or cousin, with the separator of the neighbour updated |
| `BforestPath.Path.EmptyNode` | wasmtime-repo/cranelift/bforest/src/path.rs:551-577 | the empty node is unhooked and freed and its parent healed; above the root level the recursion never reports an empty tree, so its ignored result hides nothing |
| `BforestPath.Path.CollapseRoot` | wasmtime-repo/cranelift/bforest/src/path.rs:423-467 | inner roots with a single child are freed until the root is a leaf or has two children, with the path shifted and kept at its entry |
| `BforestPath.Path.DescendRoot` | wasmtime-repo/cranelift/bforest/src/path.rs:439-447 | finds the first level that does not consist of one single-child inner node |
| `BforestPath.Path.FreeRoots` | wasmtime-repo/cranelift/bforest/src/path.rs:449-452 | frees exactly the nodes above the new root |
| `BforestBalance.MergedFlat` | wasmtime-repo/cranelift/bforest/src/path.rs:499-541 | a merge of neighbours leaves the sequence of the level below unchanged |
| `BforestBalance.SpreadFlat` | wasmtime-repo/cranelift/bforest/src/path.rs:499-541 | a redistribution between neighbours leaves the sequence of the level below unchanged |
| `BforestMap.Map.constructor` | wasmtime-repo/cranelift/bforest/src/map.rs:86-91 | an empty map |
| `BforestMap.Map.Get` | wasmtime-repo/cranelift/bforest/src/map.rs:99-103 | the value of the key in the finite map the tree stands for, or none |
| `BforestMap.Map.GetOrLess` | wasmtime-repo/cranelift/bforest/src/map.rs:112-125 | the entry with the greatest key at or below the given one, or none if there is none |
| `BforestMap.Map.Insert` | wasmtime-repo/cranelift/bforest/src/map.rs:128-136 | the map is updated at the key, the old value is returned, the tree stays valid and only its own, free or fresh nodes change |
| `BforestMap.Map.Remove` | wasmtime-repo/cranelift/bforest/src/map.rs:139-151 | the key is gone from the map, its value is returned, the tree stays valid |
| `BforestMap.Map.Clear` | wasmtime-repo/cranelift/bforest/src/map.rs:154-158 | no entries are left and exactly the nodes of this map are freed |
| `BforestMap.Map.Retain` | wasmtime-repo/cranelift/bforest/src/map.rs:165-184 | for every predicate with state, the final state and the entries are those of one left-to-right fold over the original entries, although removals rebalance the tree under the path |
| `BforestMap.RetainedCalls` | wasmtime-repo/cranelift/bforest/src/map.rs:165-184 | in that fold the predicate is called exactly once per original entry, in ascending key order |
| `BforestMap.MapCursor.constructor` | wasmtime-repo/cranelift/bforest/src/map.rs:269-276 | a new cursor is off the end |
| `BforestMap.MapCursor.Next` | wasmtime-repo/cranelift/bforest/src/map.rs:287-289 | one entry forward in key order, stopping off the end |
| `BforestMap.MapCursor.Prev` | wasmtime-repo/cranelift/bforest/src/map.rs:294-298 | one entry back, also from off the end; stays at the first |
| `BforestMap.MapCursor.Current` | wasmtime-repo/cranelift/bforest/src/map.rs:301-312 | key and value of the entry at the cursor, none off the end |
| `BforestMap.MapCursor.SetValue` | wasmtime-repo/cranelift/bforest/src/map.rs:315-319 | changes the value at the cursor and nothing else |
| `BforestMap.MapCursor.Goto` | wasmtime-repo/cranelift/bforest/src/map.rs:327-335 | moves to the key and returns its value, or to the first greater key |
| `BforestMap.MapCursor.GotoFirst` | wasmtime-repo/cranelift/bforest/src/map.rs:338-340 | moves to the first entry |
| `BforestMap.MapCursor.Insert` | wasmtime-repo/cranelift/bforest/src/map.rs:347-366 | updates or inserts, returns the old value, and leaves the cursor at the key |
| `BforestMap.MapCursor.InsertHere` | wasmtime-repo/cranelift/bforest/src/map.rs:355-364 | insertion of an absent key at the place just found |
| `BforestMap.MapCursor.Remove` | wasmtime-repo/cranelift/bforest/src/map.rs:370-376 | removes the entry at the cursor and leaves the cursor at the next one; off the end nothing happens |
| `BforestMap.MapCursor.RetainOne` | wasmtime-repo/cranelift/bforest/src/map.rs:173-183 | one round of retain: the entry is kept with its new value or removed, and the path is at the next original entry |
| `BforestMap.MapIter.constructor` | wasmtime-repo/cranelift/bforest/src/map.rs:197-203 | iteration starts before the first entry |
| `BforestMap.MapIter.Next` | wasmtime-repo/cranelift/bforest/src/map.rs:397-405 | iteration gives all entries in ascending order, then none |
| `BforestEntries.ToMapInjective` | wasmtime-repo/cranelift/bforest/src/map.rs:62-78 | the map determines the entries: two ascending sequences with the same map are equal |
| `BforestEntries.ToMapInsert` | wasmtime-repo/cranelift/bforest/src/map.rs:128-136 | inserting at the place of an absent key keeps the order and updates the map |
| `BforestEntries.ToMapRemove` | wasmtime-repo/cranelift/bforest/src/map.rs:139-151 | removing an entry keeps the order and removes its key |
| `BforestEntries.OtherTree` | wasmtime-repo/cranelift/bforest/src/pool.rs:33-74 | an operation that owns the nodes of one tree leaves every disjoint tree valid, with the same entries, and disjoint from its new nodes |
| `BforestForest.PartitionStep` | wasmtime-repo/cranelift/bforest/src/pool.rs:33-74 | if live nodes split exactly into disjoint trees, they still do after an operation on one of them |
| `BforestForest.RetainFilters` | wasmtime-repo/cranelift/bforest/src/map.rs:165-184 | on maps, retain with a predicate without state is filtering and updating |
| `BforestForest.ToMapSize` | wasmtime-repo/cranelift/bforest/src/map.rs:62-78 | a map has as many keys as its tree has entries |
| `BforestForest.Step` | wasmtime-repo/cranelift/bforest/src/map.rs:128-184 | one command on one map of a forest acts on that map as on a finite map, leaves every other map as it was and keeps the partition of the pool |
| `BforestForest.Run` | wasmtime-repo/cranelift/bforest/src/map.rs:128-184 | after every sequence of inserts, removes, clears and retains on any maps of a forest, each map stands for what the commands make of a finite map, and the pool is an acyclic free list plus pairwise disjoint trees: nothing leaked, nothing freed twice |
| `BforestForest.RunSeparate` | wasmtime-repo/cranelift/bforest/src/map.rs:128-184 | in such a run each map depends only on the commands addressed to it |
| `BforestForest.NewForest` | wasmtime-repo/cranelift/bforest/src/map.rs:48-52 | a new forest with empty maps satisfies the invariant of runs |
| `DomtreeDfs.Dfs.constructor` | wasmtime-repo/cranelift/codegen/src/traversals.rs:44-46 | nothing seen, nothing on the stack |
| `DomtreeDfs.Dfs.Iter` | wasmtime-repo/cranelift/codegen/src/traversals.rs:54-61 | restarts at the entry, if there is one |
| `DomtreeDfs.Dfs.Next` | wasmtime-repo/cranelift/codegen/src/traversals.rs:88-121 | one event: the traversal invariant is kept, what was still to be given out by the recursive traversal is this event followed by what is still to come, and progress is made |
| `DomtreeDfs.Dfs.PostOrderIter` | wasmtime-repo/cranelift/codegen/src/traversals.rs:145-156 | the explicit-stack traversal terminates and gives exactly the order of the recursive depth-first traversal; it lists the reachable blocks once, the entry last, every other block before one of its predecessors; and the blocks listed obey the law of depth-first order (DomtreeVisit.VisitOrder) |
| `DomtreeVisit.WhitePath` | wasmtime-repo/cranelift/codegen/src/traversals.rs:88-121 | visiting a block adds exactly the blocks that can be reached from it without passing blocks seen before |
| `DomtreeVisit.VisitStretches` | wasmtime-repo/cranelift/codegen/src/traversals.rs:97-107 | the successors of a block are served in their order: what each one finds is one stretch of the output, made of the blocks reached from it outside those seen before and those found through earlier successors |
| `DomtreeVisit.VisitOrder` | wasmtime-repo/cranelift/codegen/src/traversals.rs:88-121 | a law of the output alone: every block stands after the stretches of its successors, in the order of the successors, each stretch being the blocks first reached through that successor |
| `DomtreeDfs.FinishPush` | wasmtime-repo/cranelift/codegen/src/traversals.rs:93-117 | leaving out successors already seen when pushing makes no difference to the result |
| `DomtreeDfs.DfsEnd` | wasmtime-repo/cranelift/codegen/src/traversals.rs:85-122 | when the stack is empty the blocks given out are a post-order of the graph |
| `Domtree.DominatorTree.constructor` | wasmtime-repo/cranelift/codegen/src/dominator_tree.rs:216-223 | an empty tree |
| `Domtree.DominatorTree.Dominates` | wasmtime-repo/cranelift/codegen/src/dominator_tree.rs:113-134 | for every point of a reachable block: true if and only if every path from the entry to b goes through a; for an unreachable block, a is in the same block and not later |
| `Domtree.DominatorTree.Walks` | wasmtime-repo/cranelift/codegen/src/dominator_tree.rs:113-134 | the walk up the tree decides the ancestor relation of points |
| `Domtree.DominatorTree.LastDominator` | wasmtime-repo/cranelift/codegen/src/dominator_tree.rs:138-166 | the last instruction of block a that is an ancestor of b: exactly the points of a up to it are ancestors |
| `Domtree.DominatorTree.CommonDominator` | wasmtime-repo/cranelift/codegen/src/dominator_tree.rs:171-210 | the two-finger walk ends, without leaving the tree, at the nearest common ancestor |
| `Domtree.DominatorTree.ComputeIdom` | wasmtime-repo/cranelift/codegen/src/dominator_tree.rs:327-345 | the meet of the predecessors visited so far |
| `Domtree.DominatorTree.FirstPass` | wasmtime-repo/cranelift/codegen/src/dominator_tree.rs:291-306 | reverse post-order numbers in steps of STRIDE and a first tree in which every dominator of a block is an ancestor |
| `Domtree.DominatorTree.Pass` | wasmtime-repo/cranelift/codegen/src/dominator_tree.rs:308-322 | one round: dominators stay ancestors; if anything changed the termination measure fell, if nothing changed the tree is a fixed point |
| `Domtree.DominatorTree.ComputeDomtree` | wasmtime-repo/cranelift/codegen/src/dominator_tree.rs:275-323 | terminates with the dominator tree of the graph |
| `Domtree.DominatorTree.ComputePostorder` | wasmtime-repo/cranelift/codegen/src/dominator_tree.rs:267-271 | the post-order of the depth-first traversal, which obeys the law of depth-first order, and all nodes reset |
| `Domtree.DominatorTree.Compute` | wasmtime-repo/cranelift/codegen/src/dominator_tree.rs:239-246 | for every control flow graph and whatever the state before, the result is its dominator tree |
| `Domtree.AncIffDom` | wasmtime-repo/cranelift/codegen/src/dominator_tree.rs:275-323 | in a tree so computed, ancestor and dominator are the same for points of reachable blocks |
| `Domtree.ImmediateDominator` | wasmtime-repo/cranelift/codegen/src/dominator_tree.rs:78-80 | the idom of a reachable block dominates it and is dominated by all its other dominators |
| `Domtree.CommonDominators` | wasmtime-repo/cranelift/codegen/src/dominator_tree.rs:171-210 | what dominates the common dominator is exactly what dominates both points |
| `Domtree.PassRound` | wasmtime-repo/cranelift/codegen/src/dominator_tree.rs:315-321 | one block of a round keeps the invariant of rounds, and a change lowers the measure |
| `DomtreePass.Rises` | wasmtime-repo/cranelift/codegen/src/dominator_tree.rs:308-322 | the new idom of a block is an ancestor of its old one, both in the tree at the start of the round and in the current one |
| `DomtreePass.PassStep` | wasmtime-repo/cranelift/codegen/src/dominator_tree.rs:308-322 | replacing an idom by the meet keeps what a round relies on |
| `DomtreePass.FirstStep` | wasmtime-repo/cranelift/codegen/src/dominator_tree.rs:291-306 | adding the next block in reverse post-order keeps soundness |
| `DomtreePass.CoverNew` | wasmtime-repo/cranelift/codegen/src/dominator_tree.rs:327-345 | whatever dominates a block dominates the meet of its predecessors |
| `DomtreePass.MoveFalls` | wasmtime-repo/cranelift/codegen/src/dominator_tree.rs:308-322 | moving an idom to a proper ancestor lowers the sum of idom numbers, or that of the positions inside blocks |
| `DomtreeTree.Shrinks` | wasmtime-repo/cranelift/codegen/src/dominator_tree.rs:308-322 | ancestors after idoms moved up were ancestors before |
| `DomtreeTree.StillAbove` | wasmtime-repo/cranelift/codegen/src/dominator_tree.rs:308-322 | an ancestor that survived a move is still above the old ancestors below it |
| `DomtreeTree.DomAnc` | wasmtime-repo/cranelift/codegen/src/dominator_tree.rs:113-134 | every dominator is an ancestor |
| `DomtreeTree.AncDom` | wasmtime-repo/cranelift/codegen/src/dominator_tree.rs:113-134 | at a fixed point every ancestor is on every path |
| `DomtreePaths.Leaves` | wasmtime-repo/cranelift/codegen/src/dominator_tree.rs:113-134 | a path that enters a block and ends in another one passes all instructions of the block |
| `DomtreePreorder.DominatorTreePreorder.Compute` | wasmtime-repo/cranelift/codegen/src/dominator_tree.rs:393-441 | child lists, pre-order numbers and greatest numbers all match the dominator tree |
| `DomtreePreorder.DominatorTreePreorder.Link` | wasmtime-repo/cranelift/codegen/src/dominator_tree.rs:399-411 | the child and sibling links are the children of each block in reverse post-order |
| `DomtreePreorder.DominatorTreePreorder.Number` | wasmtime-repo/cranelift/codegen/src/dominator_tree.rs:413-427 | the explicit stack numbers the blocks in the recursive pre-order of the tree |
| `DomtreePreorder.DominatorTreePreorder.Propagate` | wasmtime-repo/cranelift/codegen/src/dominator_tree.rs:429-440 | the greatest number of a block is its own plus the size of its sub-tree less one |
| `DomtreePreorder.DominatorTreePreorder.Dominates` | wasmtime-repo/cranelift/codegen/src/dominator_tree.rs:482-486 | for reachable blocks the interval test holds if and only if every path to b goes through a; otherwise it holds exactly when both are unreachable |
| `DomtreePreorder.DominatorTreePreorder.Children` | wasmtime-repo/cranelift/codegen/src/dominator_tree.rs:450-473 | exactly the blocks whose idom is in the block, in reverse post-order |
| `DomtreePreorder.Intervals` | wasmtime-repo/cranelift/codegen/src/dominator_tree.rs:482-486 | interval containment of pre-order numbers is the ancestor relation of blocks |
| `DomtreePreorder.NumberReachable` | wasmtime-repo/cranelift/codegen/src/dominator_tree.rs:373-375 | a block has a non-zero number if and only if it is reachable |
| `DomtreeOrder.SubStretch` | wasmtime-repo/cranelift/codegen/src/dominator_tree.rs:393-441 | every sub-tree is one contiguous stretch of the pre-order |
| `DomtreeOrder.PreUnique` | wasmtime-repo/cranelift/codegen/src/dominator_tree.rs:393-441 | no block occurs twice in the pre-order |
| `DomtreeOrder.OverPre` | wasmtime-repo/cranelift/codegen/src/dominator_tree.rs:393-441 | the pre-order of a block lists all blocks below it |
| `DomtreeOrder.PreOver` | wasmtime-repo/cranelift/codegen/src/dominator_tree.rs:393-441 | and no others |
| `AliasMarkers.Update` | wasmtime-repo/cranelift/codegen/src/alias_analysis.rs:87-109 | an instruction moves exactly the markers of the regions it may write |
| `AliasMarkers.MeetFrom` | wasmtime-repo/cranelift/codegen/src/alias_analysis.rs:128-143 | per region: a marker that is equal on both sides stays, and otherwise it becomes the first instruction of the block where control flow merges |
| `AliasMarkers.MarkersSound` | wasmtime-repo/cranelift/codegen/src/alias_analysis.rs:206-251 | at the fixed point, for every path to an instruction and every region: no marker means nothing on the path wrote to the region; a marker means the path passed it and nothing wrote to the region since |
| `AliasAnalysis.Analysis.ComputeBlockInputStates` | wasmtime-repo/cranelift/codegen/src/alias_analysis.rs:206-251 | the worklist terminates at a fixed point of the block input states, which is exactly what the steps of the last-in first-out worklist give, and which is precise |
| `AliasAnalysis.Analysis.FlowSuccs` | wasmtime-repo/cranelift/codegen/src/alias_analysis.rs:232-249 | flowing out of one block changes states and queue exactly as the specification of the worklist says, keeps its invariant, and queues a block only if the rank of the states fell |
| `AliasWorklist.FlowFalls` | wasmtime-repo/cranelift/codegen/src/alias_analysis.rs:232-249 | a changed input state lowers the rank |
| `AliasPrecise.StepsPrecise` | wasmtime-repo/cranelift/codegen/src/alias_analysis.rs:206-251 | after any number of steps of the worklist: if all paths to the start of a block have the same last write to a region, or none has one, the marker of the block says so |
| `AliasPrecise.MarkersExact` | wasmtime-repo/cranelift/codegen/src/alias_analysis.rs:206-251 | before a reachable instruction, the marker of a region is a given write, or is empty, if and only if that is the last write to the region on every path there, or no path has one |
| `AliasPrecise.NeverWritten` | wasmtime-repo/cranelift/codegen/src/alias_analysis.rs:206-251 | a region that no reachable instruction writes has no marker anywhere |
| `AliasLate.LateMeet` | wasmtime-repo/cranelift/codegen/src/alias_analysis.rs:232-249 | a marker can be the merge location although all edges into the block bring the same other marker: the worklist met an older state of the only predecessor first |
| `AliasAnalysis.Analysis.constructor` | wasmtime-repo/cranelift/codegen/src/alias_analysis.rs:194-204 | input states at the fixed point, an empty table of memory values |
| `AliasAnalysis.Analysis.ProcessInst` | wasmtime-repo/cranelift/codegen/src/alias_analysis.rs:266-373 | if a value is returned for a load, then in every execution that reaches the load it equals what the load would read, and it is available there; the table keeps this for every entry. Exactly: a store notes its data under its location, a load is replaced if and only if the table has an entry for its location made by an instruction that dominates it, and notes its result under its location if it is not replaced |
| `AliasAnalysis.Analysis.ComputeAndUpdateAliases` | wasmtime-repo/cranelift/codegen/src/alias_analysis.rs:380-394 | for every order of blocks and every set of start states from which regions are kept apart: the function with the loads replaced has the same executions as the original one. For an order in which dominators come first and what a block dominates is contiguous, no load is left that accesses the same location under the same marker as an instruction that dominates it |
| `AliasReuse.HeldStep` | wasmtime-repo/cranelift/codegen/src/alias_analysis.rs:303-363 | one instruction keeps the table complete: for every visited access whose block dominates the current one, the table has an entry for its location made by an instruction that dominates it |
| `AliasReuse.NotMissed` | wasmtime-repo/cranelift/codegen/src/alias_analysis.rs:335-363 | so a load that accesses the same location under the same marker as an instruction that dominates it is replaced |
| `AliasPreorder.PreorderReuses` | wasmtime-repo/cranelift/codegen/src/alias_analysis.rs:261-263 | a pre-order of the dominator tree is such an order, and has all reachable blocks |
| `AliasLost.LoseReuse` | wasmtime-repo/cranelift/codegen/src/alias_analysis.rs:261-263 | a reverse post-order need not be: processing three loads of one location in that order replaces none of them, although the first dominates the third |
| `AliasExample.TwoRegions` | wasmtime-repo/cranelift/codegen/src/alias_analysis.rs:12-17 | the premises hold of a function that loads a heap base from the context, stores to the heap through it and loads the base again; that function has executions, and the second load reads the value of the first although the store lies between them |
| `AliasValues.NoWrites` | wasmtime-repo/cranelift/codegen/src/alias_analysis.rs:266-373 | between the last visit of the instruction that defined a table entry and a load with the same marker nothing writes to the region, loops included |
| `AliasValues.LoadReads` | wasmtime-repo/cranelift/codegen/src/alias_analysis.rs:303-363 | in an execution that reaches the load, the load reads the value now held by the table entry that a dominating store or load made for its location |
| `AliasValues.KnownReads` | wasmtime-repo/cranelift/codegen/src/alias_analysis.rs:303-363 | so in all executions the load reads the value of the entry |
| `AliasEquiv.NewAlias` | wasmtime-repo/cranelift/codegen/src/alias_analysis.rs:303-363 | a new alias is equal to its source at every point after the load |
| `AliasEquiv.Forward` | wasmtime-repo/cranelift/codegen/src/alias_analysis.rs:380-394 | every execution of the original function is one of the rewritten function |
| `AliasEquiv.Backward` | wasmtime-repo/cranelift/codegen/src/alias_analysis.rs:380-394 | every execution of the rewritten function comes from one of the original function that agrees at every step on points, memory and all values still defined |
| `AliasEquiv.LogEquivalent` | wasmtime-repo/cranelift/codegen/src/alias_analysis.rs:380-394 | sound aliases with fresh targets make the two functions equivalent |
| `Egraph.OptimizeCtx.constructor` | wasmtime-repo/cranelift/codegen/src/egraph.rs:677-694 | an empty e-graph satisfies the invariant |
| `EgraphClasses.UnionFind.Add` | wasmtime-repo/cranelift/codegen/src/unionfind.rs:67-70 | a value in a class of its own |
| `EgraphClasses.UnionFind.Find` | wasmtime-repo/cranelift/codegen/src/unionfind.rs:73-78 | following parents ends at the representative of the class |
| `EgraphClasses.UnionFind.FindAndUpdate` | wasmtime-repo/cranelift/codegen/src/unionfind.rs:84-95 | the same with path halving, which changes no class and no representative |
| `EgraphClasses.UnionFind.PinIndex` | wasmtime-repo/cranelift/codegen/src/unionfind.rs:107-111 | the class of the value has the highest rank from then on |
| `EgraphClasses.UnionFind.Union` | wasmtime-repo/cranelift/codegen/src/unionfind.rs:114-142 | merges the two classes under the representative of higher rank, with the ranks and the count of broken pins that go with it; the forest stays a forest |
| `EgraphClasses.UnitedClasses` | wasmtime-repo/cranelift/codegen/src/unionfind.rs:113-142 | after a merge two values are in one class if and only if they were before, or are in the two classes merged |
| `EgraphClasses.UnitedEvolves` | wasmtime-repo/cranelift/codegen/src/unionfind.rs:97-142 | a merge separates nothing, and a pinned class stays pinned and keeps its representative unless the other is pinned too, which is counted |
| `EgraphTable.AllFound` | wasmtime-repo/cranelift/codegen/src/ctxhash.rs:109-122 | unless two pinned classes were merged, every entry with the operation and operands of the same classes is found, whatever was merged since it was made, and is the only one |
| `EgraphTable.TableEvolves` | wasmtime-repo/cranelift/codegen/src/unionfind.rs:13-28 | entries have pinned operands, so merges leave their hashes current and the table without a second entry for an instruction, until two pinned classes are merged |
| `EgraphTable.FoundAgain` | wasmtime-repo/cranelift/codegen/src/egraph.rs:151-190 | an instruction that is in the table is found again later if its operands have the same representatives |
| `EgraphTable.FoundForever` | wasmtime-repo/cranelift/codegen/src/unionfind.rs:13-28 | and, as long as no two pinned classes are merged, whatever happens, by the same entry |
| `EgraphTable.InsertedHolds` | wasmtime-repo/cranelift/codegen/src/ctxhash.rs:87-106 | after an insertion an instruction has the new value if and only if it is of the same operation and operand classes; every other instruction has what it had |
| `EgraphTable.ValueReplaced` | wasmtime-repo/cranelift/codegen/src/egraph.rs:214-224 | the value of an instruction can be replaced although its operands keep their representatives: the operand of another instruction joins their class while that one is optimized |
| `Egraph.OptimizeCtx.InsertPureEnode` | wasmtime-repo/cranelift/codegen/src/egraph.rs:151-230 | the value returned means what the instruction computes and is available in a block that dominates every block where all operands are; the result of an existing instruction is mapped to it; afterwards the table has this value for the instruction. If the table had a value before, that one is returned and no value, class, definition or entry changes |
| `Egraph.OptimizeCtx.AddEnode` | wasmtime-repo/cranelift/codegen/src/egraph.rs:191-229 | the case without a hit: the same, and the table has the value afterwards |
| `Egraph.OptimizeCtx.PlaceAndOptimize` | wasmtime-repo/cranelift/codegen/src/egraph.rs:214-227 | a new enode gets its available block and is optimized; the result means the same, is available at least as high, and is in the table for the instruction |
| `Egraph.OptimizeCtx.PinArgs` | wasmtime-repo/cranelift/codegen/src/egraph.rs:217-219 | all operands are pinned, and no class changes |
| `Egraph.OptimizeCtx.Representatives` | wasmtime-repo/cranelift/codegen/src/egraph.rs:793-811 | operands are compared and hashed by their representatives |
| `Egraph.OptimizeCtx.GetAvailableBlock` | wasmtime-repo/cranelift/codegen/src/egraph.rs:241-269 | the one operand block that all operand blocks dominate, the entry without operands |
| `Egraph.OptimizeCtx.GvnFind` | wasmtime-repo/cranelift/codegen/src/ctxhash.rs:109-122 | finds the first entry with this operation, operands of the same classes and the hash of their representatives now, and fails only if there is none |
| `Egraph.OptimizeCtx.GvnInsert` | wasmtime-repo/cranelift/codegen/src/ctxhash.rs:87-106 | the value is put in the entry for the instruction, or in a new one if there is none; all other entries stay, and the table stays in order |
| `Egraph.BucketServes` | wasmtime-repo/cranelift/codegen/src/egraph.rs:166-190 | an entry of the map with equal operation and equivalent operands is an equal value in a dominating block |
| `Egraph.BucketGrows` | wasmtime-repo/cranelift/codegen/src/egraph.rs:166-190 | entries stay right when values and unions are added later |
| `Egraph.MergeGraph` | wasmtime-repo/cranelift/codegen/src/egraph.rs:376-393 | merging two classes with equal meaning and available block keeps the invariant of the whole graph |
| `Egraph.PutBucket` | wasmtime-repo/cranelift/codegen/src/ctxhash.rs:87-106 | overwriting or adding an entry keeps the invariant |
| `Egraph.OptimizeCtx.OptimizePureEnode` | wasmtime-repo/cranelift/codegen/src/egraph.rs:276-403 | the optimized value means the same and its available block dominates that of the original; beyond the depth limit it is the value itself and nothing changes; otherwise the candidates are one for each match and the value, all of the highest block are chosen up to the limit, and the chosen ones are joined as UnionAll says; terminates by the rewrite depth |
| `Egraph.OptimizeCtx.Simplify` | wasmtime-repo/cranelift/codegen/src/egraph.rs:299-310 | all candidates from the rules mean the same as the value and are available at its block |
| `Egraph.OptimizeCtx.BuildTerm` | wasmtime-repo/cranelift/codegen/src/egraph.rs:299-308 | building a right-hand side bottom-up through recursive insertion yields a value with its meaning |
| `Egraph.OptimizeCtx.KeepBest` | wasmtime-repo/cranelift/codegen/src/egraph.rs:312-345 | the backward scan keeps all candidates of one block, and no others, and that block dominates the blocks of all candidates |
| `Egraph.OptimizeCtx.Choose` | wasmtime-repo/cranelift/codegen/src/egraph.rs:312-359 | all candidates of the highest block, in any order, up to the limit of matches |
| `Egraph.OptimizeCtx.UnionAll` | wasmtime-repo/cranelift/codegen/src/egraph.rs:361-394 | the result is the first value that subsumes the others, the last one taken and the original not counted, or a union of all; exactly the classes of the last value and of those up to the subsuming one, without the original, become one, and the result is in it; it has their meaning and their block |
| `Egraph.OrigJoins` | wasmtime-repo/cranelift/codegen/src/egraph.rs:361-374 | the original value joins the rewritten ones if and only if it is the value taken first, or was in the class of one of them before |
| `Egraph.OptimizeCtx.Join` | wasmtime-repo/cranelift/codegen/src/egraph.rs:385-393 | a new union value; the classes of both operands become one that it is in, and no others change |
| `EgraphPass.Pass.PlaceAll` | wasmtime-repo/cranelift/codegen/src/egraph.rs:645-650 | block parameters and kept results stand for themselves in their block |
| `EgraphPass.Pass.RewriteArgs` | wasmtime-repo/cranelift/codegen/src/egraph.rs:663-670 | operands are replaced by values with the same meaning that are available here |
| `EgraphPass.Pass.VisitPure` | wasmtime-repo/cranelift/codegen/src/egraph.rs:696-705 | a pure instruction is replaced by a value available in a dominating block, which the table has for its operation and replaced operands afterwards; if the table had a value for them, it is that one and nothing is made |
| `EgraphPass.Pass.VisitSkeleton` | wasmtime-repo/cranelift/codegen/src/egraph.rs:472-482 | any other instruction stays in its block with its operands replaced, and its results stand for themselves |
| `EgraphPass.Pass.VisitMergeable` | wasmtime-repo/cranelift/codegen/src/egraph.rs:408-452 | a hit in the scoped map names a kept instruction that comes earlier in the block or in a block above it, of the same operation and operands, and the instruction leaves the layout; without a hit no kept instruction before it is of the same operation and operands, and it stays and enters the scope of its block; each scope holds exactly the kept instructions of its block |
| `EgraphPass.Pass.VisitStmt` | wasmtime-repo/cranelift/codegen/src/egraph.rs:651-711 | one instruction, of any kind, keeps the invariant of the walk and the layout |
| `EgraphPass.Pass.RemovePureAndOptimize` | wasmtime-repo/cranelift/codegen/src/egraph.rs:569-718 | for every order of dominator-tree children: every block is visited once, every value and every operand is replaced by one with the same meaning as in the original function that is available in a dominating block; a mergeable instruction is merged with the kept one before it of the same operation and operands, and is kept if and only if there is none; what is left in the layout is exactly the other instructions in their order |
| `EgraphFunction.EarlierDominates` | wasmtime-repo/cranelift/codegen/src/egraph.rs:427-431 | an instruction that the pass takes to come earlier is on every path to the later one |
| `EgraphFunction.DominatesEarlier` | wasmtime-repo/cranelift/codegen/src/egraph.rs:427-431 | and an instruction on every path to another one comes earlier for the pass |
| `EgraphFunction.UseOver` | wasmtime-repo/cranelift/codegen/src/egraph.rs:663-670 | a definition that dominates a use is earlier in its block or in a block above it in the tree |
| `EgraphFunction.AllChildren` | wasmtime-repo/cranelift/codegen/src/egraph.rs:633-637 | the shuffled children from the index are the immediate children of every block |
| `EgraphFunction.ProgramOf` | wasmtime-repo/cranelift/codegen/src/egraph.rs:505-527 | the computed dominator tree and its index, on a function whose definitions dominate their uses, meet all that the pass relies on |
| `EgraphFunction.Optimize` | wasmtime-repo/cranelift/codegen/src/egraph.rs:505-532 | with the index computed from the dominator tree of the control flow graph: in every reachable block each value and each operand is replaced by one with its meaning that is available in a block on every path there; a mergeable instruction is replaced by the kept one of the same operation and operands that is on every path to it, and is kept if and only if there is none; the layout is what is left |
| `EgraphPass.Pass.VisitBlock` | wasmtime-repo/cranelift/codegen/src/egraph.rs:629-712 | one block keeps the invariant of the walk |
| `EgraphWalk.VisitStep` | wasmtime-repo/cranelift/codegen/src/egraph.rs:629-638 | a block on top of the stack was not visited before, and visiting it keeps the walk invariant |
| `EgraphWalk.PopStep` | wasmtime-repo/cranelift/codegen/src/egraph.rs:713-715 | leaving a scope keeps the walk invariant |
| `EgraphWalk.NextOver` | wasmtime-repo/cranelift/codegen/src/egraph.rs:626-717 | when a block is visited, all blocks above it in the tree have open scopes |
| `EgraphWalk.PathAbove` | wasmtime-repo/cranelift/codegen/src/egraph.rs:626-717 | and no other block has |
| `EgraphWalk.WalkEnd` | wasmtime-repo/cranelift/codegen/src/egraph.rs:626-717 | at the end every reachable block was visited |
| `EgraphOrder.TestIsOver` | wasmtime-repo/cranelift/codegen/src/dominator_tree.rs:482-486 | the interval test on reachable blocks is the tree relation that the walk uses |
| `EgraphOrder.TestTreeOrder` | wasmtime-repo/cranelift/codegen/src/dominator_tree.rs:482-486 | the interval test, also on unreachable blocks, is the tree order on which the e-graph relies |
| `Flowgraph.ControlFlowGraph.Compute` | wasmtime-repo/cranelift/codegen/src/flowgraph.rs:107-117 | successor sets and predecessor maps describe the same edges, exactly those of the function |
| `Flowgraph.ControlFlowGraph.ComputeBlock` | wasmtime-repo/cranelift/codegen/src/flowgraph.rs:119-123 | adds exactly the edges out of one block |
| `Flowgraph.ControlFlowGraph.InvalidateBlockSuccessors` | wasmtime-repo/cranelift/codegen/src/flowgraph.rs:125-136 | exactly the edges out of the block are gone, at both ends |
| `Flowgraph.ControlFlowGraph.RecomputeBlock` | wasmtime-repo/cranelift/codegen/src/flowgraph.rs:144-148 | after edits to one block the result is the graph of the edited function |
| `Flowgraph.GraphUnique` | wasmtime-repo/cranelift/codegen/src/flowgraph.rs:107-148 | a function has one graph, so recomputing a block gives what computing from scratch gives |
| `Flowgraph.AddedEdge` | wasmtime-repo/cranelift/codegen/src/flowgraph.rs:150-157 | a new edge adds itself and nothing else and keeps both ends in agreement |
| `Flowgraph.EdgeStep` | wasmtime-repo/cranelift/codegen/src/flowgraph.rs:119-123 | one more branch of a block |
| `Flowgraph.Forgotten` | wasmtime-repo/cranelift/codegen/src/flowgraph.rs:125-136 | forgetting keeps both ends in agreement |
| `ConstantHash.ProbesDiffer` | wasmtime-repo/cranelift/codegen/src/constant_hash.rs:33-62 | in a table of power-of-two length the first len probes go to different slots |
| `ConstantHash.AllProbed` | wasmtime-repo/cranelift/codegen/src/constant_hash.rs:33-62 | so every slot is probed |
| `ConstantHash.Probe` | wasmtime-repo/cranelift/codegen/src/constant_hash.rs:33-62 | with an empty slot the loop ends before len steps, at the key or at an empty slot, having passed only other keys |
| `ConstantHash.ProbeCorrect` | wasmtime-repo/cranelift/codegen/src/constant_hash.rs:33-62 | in a table filled through probing, found if and only if the key is in the table |
| `ConstantHash.StoreKeeps` | wasmtime-repo/cranelift/codegen/meta/src/constant_hash.rs:31-39 | storing a key at the first empty slot of its probes keeps every key findable |
| `ConstantHash.EmptySlot` | wasmtime-repo/cranelift/codegen/meta/src/constant_hash.rs:32-37 | with an empty slot in the table the search for one ends, at the first empty slot of the probes |
| `ConstantHash.GenerateTable` | wasmtime-repo/cranelift/codegen/meta/src/constant_hash.rs:15-42 | for every list of items, repeated or not: a table whose length is the least power of two above 12/10 of their number, with an empty slot, that holds exactly the items, one slot each, all findable |
| `ConstantHash.LookUp` | wasmtime-repo/cranelift/codegen/meta/src/constant_hash.rs:15-42 | generating and probing compose: a look-up in the generated table finds a key if and only if it is one of the items |
| `IncrementalCache.StoreInsert` | wasmtime-repo/cranelift/codegen/src/incremental_cache.rs:76-90 | a freshly serialized result keeps every entry of the store right |
| `IncrementalCache.Context.TryFinishRecompile` | wasmtime-repo/cranelift/codegen/src/incremental_cache.rs:245-256 | a blob is accepted if and only if it can be read and is of this version; an accepted one that is right for the stencil gives the result of plain compilation with the parameters of this function |
| `IncrementalCache.Context.CompileWithCache` | wasmtime-repo/cranelift/codegen/src/incremental_cache.rs:40-97 | hit, miss, undecodable blob, other version or failed serialization: the result is that of plain compilation, the optional consistency check holds, and the store stays right; the store is used if and only if it has a readable entry of this version and is unchanged then, and otherwise a result that can be serialized is in it afterwards |
| `IncrementalCache.StoredUsable` | wasmtime-repo/cranelift/codegen/src/incremental_cache.rs:76-90 | what was stored is used by the next compilation |
| `IncrementalCache.Context.Compile` | wasmtime-repo/cranelift/codegen/src/context.rs:202-216 | plain compilation |
| `IncrementalCache.CompileAll` | wasmtime-repo/cranelift/codegen/src/incremental_cache.rs:40-97 | every sequence of cached compilations from an empty store gives the results of plain compilation |

## Left out

- Nothing of the compiler is executed by this project; results are about the model.
- BforestMap.Map.Insert: a new key needs fewer than 2^32 entries in the map, the size for which `MAX_PATH` is meant; overrunning the path arrays beyond that is not modelled.
- BforestMap.MapCursor.Insert: the same bound on the number of entries.
- BforestPath.Path.Insert: the same bound on the number of entries.
- BforestPath.Path.Find: the keys of trees are numbers under their usual order; only the binary search itself is proved for all comparators.
- BforestNode.Split: nodes of trees are sequences of the used slots; insertion and removal are also proved in place on arrays, splitting and balancing are not, and what is left in unused slots is not modelled.
- BforestPool.NodePool.AllocNode: node numbers do not run out.
- BforestMap.MapCursor.Current: models the two accessors for key and value in one member.
- DomtreePreorder.DominatorTreePreorder.Dominates: for blocks that are not reachable the interval test says only whether both are unreachable, as in the code.
- Domtree.DominatorTree.Compute: numbers are unbounded, so wrap-around of 32-bit reverse post-order numbers is not modelled.
- Domtree.DominatorTree.Dominates: the layout is modelled by positions, instruction k of a block being point k; instruction numbers and their renumbering are not part of the model.
- AliasAnalysis.Analysis.ComputeAndUpdateAliases: the cursor that removes instructions while iterating is modelled by a log of replaced loads, and the removed loads keep their positions.
- AliasAnalysis.Analysis.ProcessInst: memory is that of a single thread, with fences clobbering all regions; each instruction is processed once.
- AliasAnalysis.Analysis.constructor: loads in blocks that cannot be reached are taken to have been removed before, as `Context::optimize` does; in such blocks a value may be used before its definition, and the aliases made there could form a cycle.
- EgraphPass.Pass.VisitSkeleton: loads and stores are kept as other instructions with effects; replacing loads inside the pass is covered by the alias analysis part only.
- EgraphPass.Pass.RemovePureAndOptimize: a value has one meaning, so the equations between values are those of one moment; executions of loops are not modelled in this part.
- ConstantHash.GenerateTable: the size is computed with exact arithmetic, not in floating point.
- Egraph.OptimizeCtx.Simplify: the rewrite rules themselves, their generated matcher, and which values they mark as subsuming are an oracle.
- Egraph.OptimizeCtx.GvnFind: entries are searched in the order they were made; where several match, which needs a merge of two pinned classes, the order of the raw hash table is not modelled.
- Egraph.OptimizeCtx.InsertPureEnode: an instruction that was inserted before may return another value than then, if its entry was overwritten in between; EgraphTable.ValueReplaced shows how, and EgraphTable.InsertedHolds states exactly when.
- EgraphClasses.UnionFind.Union: that ranks bound the height of trees is not stated.
- Flowgraph.ControlFlowGraph.Compute: sets and maps are finite sets and maps; that the forest implements such maps is the first part.
- IncrementalCache.Context.CompileWithCache: compilation is a function of target and stencil, with a fixed control plane.
- `Set` of the forest (the same tree with 15-key leaves): covered by the leaf capacity of the pool, without wrappers of its own.
- The pre-order iterator of the depth-first traversal, which only yields the enter events.
- Elaboration, cost extraction, loop analysis and proof-carrying facts.
- Merging of facts, statistics, tracing, timing and display code.
- The benchmark programs around Cranelift, the command line tools and the fuzz targets.
