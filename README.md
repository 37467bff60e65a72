# Peer tree engine

A Dafny model of the peer tree at the core of FaaSNet. The tree arranges worker peers into a binary fan-out tree. `Insert` fills the tree in level order: a new peer goes into the first free child slot that a breadth-first walk from the root meets, scanning at most `MaxLength - 1` = 19 levels. `Delete` removes any attached peer. A leaf is cut off, an only child takes the peer's place, and a peer with two children is replaced by its *successor*: the first leaf in level order of its subtree. After that, a bottom-up walk recomputes cached heights and applies the AVL rotations R, L, LR and RL where a balance factor exceeds 1. `Find` and `DumpTree` are breadth-first walks that only read.

## How the model is built

- **Peers live in an arena.** `PeerNode.Arena.peers` is a sequence of `Peer` records. A peer reference is an index into it, and `NULL` (-1) is the absent reference, as in `NULL = -1` at tree.go:17. Rewiring a link therefore means updating a field of one record.
- **The tree is a class.** `PeerTree.Tree` holds `Root`, the counter `length` and `funcName`, as tree.go's `Tree` does. It also holds a ghost `shape`: an abstract binary tree of arena indices. `Tree.Valid()` says four things:
  - the child links and parent links of the arena follow `shape`;
  - every attached peer caches its true height;
  - no index occurs twice;
  - the ids of attached peers are distinct and below `length`.
- **Each tree operation is proved against a function on shapes.** The shape functions are `InsertShape`, `Unlink`/`FixStart`/`DeleteShape`, `RotL`/`RotR`/`FixStep`/`FixUp`, `NextSlot`, `FirstLeaf`, `FindFirst` and `LevelIds`. Lemmas state what those functions preserve or promise.
- **The BFS loops stay loops.** The four breadth-first loops keep tree.go's queue of one level. Their invariants tie the queue to a ghost list of subtrees.
- **The counter only grows.** `Delete` never decrements `length`, so `GetLen` is an upper bound on the number of attached peers, not the tree's size. Because the counter only grows, the ids of attached peers stay distinct (`PeerTree.IdsInsert`, `PeerTree.IdsKeep`).
- **Peers outside the tree are framed.** `Insert`, `Delete` and every step between them state that no peer outside the tree they work on is written (`Relink.Untouched`), so peers allocated with `NewPeer` can be inserted one after another (`PeerTree.AllocKeepsTree`).
- **Imperative code stays imperative.** The source's loops and in-place updates (`Insert`'s height walk, the fix-up loop, the rotations, the splice) are methods that update `arena.peers` and `Root` step by step, in the source's order.

## Model

| member | source | states |
|---|---|---|
| `Util.Abs` | util/util.go:3-8 | the result is never negative; it is `i` for `i >= 0` and `-i` otherwise |
| `Util.Max` | util/util.go:10-15 | the result is at least each argument and equals one of them |
| `Util.MaxSymmetric` | util/util.go:10-15 | `Max` is commutative and `Max(i, i) == i` |
| `Util.IsExist` | util/util.go:17-24 | `found` holds exactly when `val` occurs; then `idx` is the smallest index holding `val`; otherwise `idx == -1` |
| `PeerNode.InitialPeer` | functionTree/peer.go:17-25 | a new peer is detached: no parent and no children, height 0, id 0, not ready, empty address and port |
| `PeerNode.Arena.NewPeer` | functionTree/peer.go:17-25 | allocates one new peer holding `InitialPeer()` and changes no other peer |
| `Relink.CachedRoot` | functionTree/peer.go:35-47 | on a subtree whose links and cached heights are correct, `GetHeight` of its root is the subtree's true height (-1 when empty) and `GetBalanceFactor` is its true balance factor, left height minus right height |
| `PeerNode.LeafIsBalanced` | functionTree/peer.go:42-47 | a present peer with no children has balance factor 0 |
| `PeerNode.Arena.SetAddr` | functionTree/peer.go:27-33 | afterwards `GetAddr` returns the new address; only that field of that peer changes |
| `PeerNode.SetAddrOnlyAddr` | functionTree/peer.go:27-55 | after the address write, `GetAddr` on that peer returns it; `GetId`, `GetParent`, `GetHeight`, `IsReady` and other peers' addresses read as before |
| `PeerNode.Arena.SetReady` | functionTree/peer.go:57-63 | afterwards `IsReady` holds; only `ready` of that peer changes, and setting an already ready peer changes nothing |
| `PeerNode.SetReadyOnlyReady` | functionTree/peer.go:49-63 | after the ready write, `IsReady` holds on that peer; writing it twice equals writing it once; `GetId`, `GetParent`, `GetHeight`, `GetAddr` and other peers' readiness read as before |
| `PeerTree.Tree.constructor` | tree.go:37-43 | a new tree is empty: no root, counter 0, the given name |
| `PeerTree.Tree.GetLen` | tree.go:49-59 | the counter, which under `Valid()` is at least the number of attached peers |
| `PeerTree.Tree.NextAvailableNode` | tree.go:61-93 | returns the first node, in level order within the first `MaxLength - 1` levels, that lacks a child, with `LeftDir` when its left is free and `RightDir` otherwise; `(NULL, NULL, false)` when every node there is full |
| `Levels.SlotIsFree` | tree.go:73-85 | the reported slot belongs to a node of the tree, and that side of the node is empty |
| `Levels.NoSlotMeansTall` | tree.go:64-72 | the search fails exactly when all nodes of the first 19 levels are full; the tree is then at least 19 high |
| `PeerTree.Tree.Insert` | tree.go:95-134 | the new peer's id is the old counter. The shape becomes `InsertShape`. On success the counter grows by one and an empty tree gets the peer as root with no parent; otherwise the peer's parent is the reported slot owner. On "tree is full" the counter, Root and every link stay as they were, and only the peer's id changes. Afterwards all cached heights are correct, heights off the new peer's ancestor path are unchanged, the attached peers are the old ones plus the new peer, no peer outside them changes at all, and `Valid()` holds |
| `PeerTree.InsertPlaced` | tree.go:99-122 | once the new peer is placed with the counter as its id, the attached peers are the old ones plus it, and their ids are distinct and below the counter grown by one |
| `PeerTree.Tree.Settle` | tree.go:124-133 | the height walk from the new peer's parent and the counter increment restore `Valid()`; links, payloads and the peers outside the tree stay as they were, and heights change only on the new peer's ancestor path |
| `PeerTree.InsertSettled` | tree.go:99-133 | across the whole Insert, payloads are those after the id write, heights differ only on the new peer's ancestor path, and no peer outside the grown tree is touched |
| `PeerTree.AllocKeepsTree` | functionTree/peer.go:17-25 | allocating a new peer keeps a valid tree valid, and the new index is not attached, so the next `Insert` may take it |
| `Shapes.AppendKeeps` | functionTree/peer.go:17-25 | appending a peer to the arena keeps every child link, parent link and cached height the tree describes |
| `PeerTree.Tree.Place` | tree.go:99-122 | the id write and the attach: root with nil parent in an empty tree, the reported slot otherwise, an error with nothing linked when there is no slot; only heights on the parent's ancestor path become stale |
| `PeerTree.Tree.Attach` | tree.go:111-121 | the slot owner takes the new peer as its child on the reported side and the new peer takes the owner as parent; no other peer changes |
| `PeerTree.Tree.RefreshPath` | tree.go:124-129 | after the walk from the parent up to the root, every cached height equals `1 + Max` of the children's heights; links are untouched and heights off the path are unchanged |
| `Insertion.InsertKeys` | tree.go:95-134 | Insert adds exactly the new peer, once, and the size grows by one; when the slot search fails the shape is unchanged |
| `Insertion.InsertedLeaf` | tree.go:101-121 | the new peer is a leaf: parentless in an empty tree, and otherwise on the reported side of the reported slot owner, below that owner's ancestor path |
| `Search.GetSuccessor` | tree.go:136-158 | the BFS from n returns the first leaf of n's subtree in level order |
| `Levels.FirstLeafIsLeaf` | tree.go:136-158 | the successor of a non-empty subtree is never NULL: it is a node of the subtree without children |
| `Deletion.SuccessorFacts` | tree.go:293-305 | for a node with two children the successor is a leaf other than the node itself; cutting it removes just that leaf |
| `PeerTree.LeftRotation` | tree.go:161-181 | the arena writes of `leftRotate`: with y = x's right child, b = y's left child and P = x's parent, x takes b as right child and y as parent; b takes x as parent; y takes P as parent and x as left child; P's link to x names y. x's height is recomputed, then y's; no other peer changes |
| `PeerTree.RightRotation` | tree.go:185-205 | the mirror image of `LeftRotation` |
| `PeerTree.Tree.LeftRotate` | tree.go:160-182 | the shape becomes the subtree at x rotated left (`RotL`) in x's place; the arena's child and parent links and Root follow the new shape, so y is Root when x was the root, and heights are correct except on x's old ancestor path above x; the set of attached peers is unchanged and no peer outside it is written |
| `PeerTree.Tree.RightRotate` | tree.go:184-206 | the mirror image of `LeftRotate` |
| `Balance.RotL` | tree.go:161-182 | a left rotation makes the right child the root, with the old root as its left child |
| `Balance.RotR` | tree.go:185-206 | a right rotation makes the left child the root, with the old root as its right child |
| `Balance.RotLKeys` | tree.go:161-182 | a left rotation keeps the set of nodes and their distinctness |
| `Balance.RotRKeys` | tree.go:185-206 | a right rotation keeps the set of nodes and their distinctness |
| `PeerTree.Tree.Delete` | tree.go:209-371 | Delete(NULL) is an error and changes no link and no root. Otherwise the shape becomes `DeleteShape` and exactly the deleted peer leaves the tree. Links and all cached heights are correct afterwards, payload fields are unchanged, no peer outside the old tree changes, and the counter is not decremented |
| `PeerTree.Tree.Detach` | tree.go:218-347 | the unlinking phase: the shape becomes `Unlink`, the fix-up cursor is `FixStart`, and it is NULL in the two early-return cases (sole root, root with one child) |
| `PeerTree.Tree.CutLeaf` | tree.go:240-247 | a non-root leaf is cut: exactly the parent's link that named it becomes NULL |
| `PeerTree.Tree.PromoteChild` | tree.go:252-280 | the only child takes the node's slot (or becomes Root) and takes the node's parent as its parent |
| `PeerTree.Tree.CutSuccessor` | tree.go:295-305 | finds the successor and cuts it from its parent, whose link that named it becomes NULL |
| `PeerTree.Tree.SpliceSuccessor` | tree.go:307-346 | the successor takes the deleted node's slot (or Root) and its children other than itself, and those children point back to it |
| `PeerTree.Tree.ReplaceBySuccessor` | tree.go:293-347 | case 3 as a whole; the fix-up starts at the successor's old parent, or at the successor when that parent was the deleted node |
| `Deletion.SplicedKeys` | tree.go:293-347 | the subtree rebuilt around the successor holds the old subtree's nodes except the deleted one, each once, with the successor at its root |
| `Deletion.UnlinkKeys` | tree.go:218-347 | unlinking removes exactly the deleted peer and keeps the rest distinct; the fix-up start is NULL or a node of the new tree |
| `Deletion.DeleteKeys` | tree.go:209-371 | after Delete the attached peers are the old ones minus the deleted peer, each once, and the size drops by exactly one |
| `Deletion.RootPromotionAsWritten` | tree.go:252-270 | as written, the promoted child of a one-child root keeps the removed root as parent, so the arena does not realise the new tree |
| `Deletion.RootPromotionCorrected` | tree.go:252-270 | when the promoted child's parent is also cleared, its subtree is the whole tree with every link and height correct |
| `Balance.CaseOfUnbalanced` | tree.go:353-367 | a rotation case is chosen exactly when \|balance factor\| > 1; R and LR need a left-heavy node, L and RL a right-heavy one; LR and RL have the inner grandchild their first rotation needs |
| `Balance.FixStepKeys` | tree.go:350-369 | one fix-up step rearranges the subtree without adding or losing a node, and changes nothing when no case applies |
| `Balance.FixStepMeasure` | tree.go:353-367 | a rotation lowers the subtree's height sum, or keeps it and leaves its root in balance, so the walk terminates |
| `Balance.FixUp` | tree.go:349-369 | the whole bottom-up walk keeps the set of nodes and their distinctness |
| `FixUpWalk.FixUpStep` | tree.go:350-369 | one loop iteration is one step of `FixUp`: the rest of the walk from the next cursor gives the same tree, and the measure (depth, height sum, imbalance) decreases |
| `PeerTree.Tree.FixAt` | tree.go:351-368 | one iteration: the cursor's height is recomputed first, the four tests choose R, L, LR or RL as `CaseOf` does, and the cursor moves to its parent after any rotation |
| `PeerTree.Tree.RotateLeftRight` | tree.go:359-362 | the LR case: left rotation at the left child, then right rotation at the node |
| `PeerTree.Tree.RotateRightLeft` | tree.go:363-366 | the RL case: right rotation at the right child, then left rotation at the node |
| `PeerTree.Tree.Rebalance` | tree.go:349-369 | the loop ends with the shape `FixUp` describes and every cached height correct |
| `PeerTree.Tree.Find` | tree.go:373-401 | NULL on an empty tree; otherwise the first node in level order carrying the id; NULL exactly when no attached peer carries it; never writes |
| `Levels.FindFirstCorrect` | tree.go:373-401 | a found peer is attached and carries the id; none is found exactly when no attached peer carries the id |
| `PeerTree.Tree.DumpTree` | tree.go:404-434 | the per-level id lists of the tree in BFS order, and a count of visited peers equal to the tree's size |
| `Levels.LevelIdsFlatten` | tree.go:413-432 | concatenating the per-level lists gives the ids of all nodes in level order |
| `Levels.LevelIdsNonEmpty` | tree.go:416-431 | every level list DumpTree builds is non-empty |
| `PeerTree.IdsInsert` | tree.go:99-132 | giving the new peer the counter as id keeps attached ids distinct and below the counter once it has grown |
| `PeerTree.IdsKeep` | tree.go:209-371 | a Delete keeps the remaining ids distinct and below the counter |

## Left out

- Locking and atomics (`sync.Mutex`, `sync/atomic`): each operation is modelled as one atomic step, because the lock is held for the whole of every operation.
- Logging: the log calls and the logger global are left out. `DumpTree` is modelled as the level lists and count it logs. The unused `context` parameter is dropped.
- `lastModified`, `updateTs` and `GetLatestTs`: they read the wall clock, so they are left out.
- `GetFuncName` and `getRoot`: these plain reads of `funcName` and `Root` are fields of the class, not separate members.
- Go's `int`/`int64` are unbounded `int`. Go's `Abs(math.MinInt)` overflows; the model's `Abs` does not.
- The repository's second, near-identical copy of the tree (its DumpTree has no context parameter) is not part of this model; tree.go is the one modelled.
- The test drivers (tree_test.go, functionTree/tree_test.go) run goroutines and are not modelled.
- PeerTree.Tree.Delete: it requires that the peer is NULL or attached to this tree. The source does not check this, and deleting a peer of another tree, or one already deleted, is not modelled.
- PeerTree.Tree.Insert: it requires a detached peer that is not attached already, as every caller creates one with `NewPeer`. Re-inserting an attached peer is not modelled.
- Tree-wide AVL balance is not claimed. `Insert` never rotates, and the fix-up only repairs the path it walks. Heights are proved correct everywhere, but balance only where a rotation fired.
- The shape of the tree after a sequence of operations is not computed for concrete inputs. The sequential scenario of the tests (15 inserts, then deletes of ids 1, 2, 3) is not replayed.
- The arena never reclaims peers. A deleted peer stays in `arena.peers` with its stale links, as the Go object does until it is collected.

## Findings

| source | as written | input that shows it | evidently intended | confidence | as-written member | corrected member |
|---|---|---|---|---|---|---|
| tree.go:254-256, tree.go:268-270 | when the deleted root has exactly one child, `Root` is set to that child and the function returns; the child's `parent` still names the deleted root | a two-peer tree, root 0 with left child 1; `Delete(0)` leaves `Root = 1` with `peer1.parent = 0`. A later rotation at 1 then writes into the deleted peer instead of updating `Root` | the promoted child's `parent` becomes nil, as in the non-root branches (tree.go:259, tree.go:273) | high, not executed | `Deletion.RootPromotionAsWritten` | `Deletion.RootPromotionCorrected` (used by `PeerTree.Tree.PromoteChild`) |
