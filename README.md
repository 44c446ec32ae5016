# B-tree (CLRS) in Dafny

A model of the B-tree from the Rust crate btree-clrs: the `BTree` object (a
root node and a minimum degree `t`), its constructors `degree` and `order`,
`search`, and insertion as in CLRS chapter 18 — `insert` grows a full root,
and `insert_nonfull` splits every full child before it descends into it.
The assertions of the repository's tests are restated as lemmas and
methods on the model as well.

Modules, one per concern, each in its own file:

- `node.dfy` (`Nodes`): the node record with `keys`, `children` and the
  `leaf` flag, and its `empty` and `new` constructors.
- `shape.dfy` (`Shape`): the B-tree invariants.
  - Fan-out: at most `2t-1` keys per node, at least `t-1` below the root,
    and `|keys|+1` children at an internal node.
  - Depth: every child sits exactly one level below its parent.
  - Order: the in-order key sequence `Keys(n)` is sorted.
- `search.dfy` (`Search`): the count-down scan `Slot` shared by search and
  insertion, and `search_from_node`.
- `split.dfy` (`Splitting`): `split_child`. The method follows the source
  step by step and is specified by the pure function `Split`.
- `insert.dfy` (`Insertion`): `insert_nonfull`. The method keeps the
  source's `while` scan and is specified by the pure function
  `InsertedNonfull`. The pure functions `Grown` (the root growth) and
  `Inserted` (the whole of `insert`) specify `Trees.BTree.Insert`.
- `trees.dfy` (`Trees`): the `BTree` class. Its `Insert` updates `root` in
  place.
- `properties.dfy` (`Properties`): what search sees after insertions.
- `scenarios.dfy` (`Scenarios`): `fill_btree` and the two tests of
  `main.rs`.

Nodes are values. The source's `&mut Node` arguments of `split_child` and
`insert_nonfull` become methods that take a node and return the updated one.
This is sound because every child has exactly one owner.

The order invariant is the textbook's (CLRS section 18.1): non-decreasing
keys in each node and child[i] <= keys[i] <= child[i+1]. It is stated as a
non-decreasing in-order key sequence. This code inserts unconditionally
(src/btree.rs:141-147), so duplicates do occur: every insertion adds one
occurrence of the key, and the tree's keys form a multiset.

- **Equal keys on both sides of a separator.** Splitting a full node whose
  keys are all equal puts that key into the parent and into both halves,
  so a child key can equal its separator on either side
  (Scenarios.EqualKeysSplit).
- **Which occurrence search finds.** Search finds the last occurrence
  within the first node on its path that holds the key.

## Model

| member | source | states |
|---|---|---|
| Nodes.Empty | src/node.rs:18-24 | the empty node is a leaf with no keys and no children |
| Nodes.New | src/node.rs:25-33 | the node built holds exactly the given keys, children and leaf flag |
| Search.Slot | src/btree.rs:160-163 | the scan stops at a slot i <= \|keys\| such that keys[i-1] <= key (when i > 0) and every key from i on is greater than key |
| Search.SlotUnique | src/btree.rs:142-145 | any position with a key <= key just before it and only greater keys from it on is the slot, so the while loop of insert_nonfull computes Slot |
| Search.SlotPartitions | src/btree.rs:160-163 | on sorted keys, every key before the slot is <= key and every key from it on is > key |
| Search.SearchFromNode | src/btree.rs:159-171 | a hit names a node reachable from the start node and a 1-based slot in range that holds the key |
| Search.SearchComplete | src/btree.rs:159-171 | on a well-formed sorted subtree, search succeeds if and only if the key is in the subtree's key sequence |
| Shape.Separation | src/btree.rs:164-169 | in a valid tree, every key of children[i] is <= keys[i], which is <= every key of children[i+1], so search may descend into the child at the slot |
| Shape.NodeKeysSorted | src/btree.rs:160-163 | the keys of each node of a valid tree are in non-decreasing order, as the count-down scan assumes |
| Splitting.SplitChild | src/btree.rs:177-191 | the split_off/pop/insert steps produce exactly Split(node, index, t) |
| Splitting.SplitLayout | src/btree.rs:177-191 | after the split: the median child.keys[t-1] is at keys[index] and the new sibling at children[index+1]; all other keys and children are shifted by one; the child keeps its first t-1 keys and, when internal, its first t children; the sibling takes the rest with the same leaf flag |
| Splitting.SplitChildKeys | src/btree.rs:180-188 | the child's key sequence is the left half's, then the median, then the sibling's |
| Splitting.SplitPreserves | src/btree.rs:177-191 | splitting a full child of a non-full node keeps the node well formed at the same height and leaves its key sequence unchanged; the parent gains one key and one child, and both halves have t-1 keys |
| Insertion.LeafInsert | src/btree.rs:146-147 | inserting at the slot adds exactly one occurrence of key to a leaf and keeps sorted keys sorted |
| Insertion.Descent | src/btree.rs:151-153 | the descent after a split enters index or index+1; when no key before the median exceeds key and the key after the median is greater than key, the child entered is the one whose range holds key: the key before it is <= key and the key after it is >= key |
| Insertion.DescentBounds | src/btree.rs:149-155 | when the median enters the keys at the slot of key, the child Descent enters lies between parent keys that bound key: the one before is <= key, the one after >= key |
| Insertion.InsertedNonfullCorrect | src/btree.rs:141-157 | insert_nonfull on a non-full well-formed node gives a well-formed node of the same height that holds exactly one more occurrence of key and is sorted if the input was |
| Insertion.InsertNonfull | src/btree.rs:141-157 | the loop-and-recursion method computes InsertedNonfull and meets the same guarantee |
| Insertion.GrowPreserves | src/btree.rs:32-41 | a full root pushed under a new empty internal root and split there gives a well-formed root with the median as its only key and two children; it is one level higher and has the same key sequence |
| Insertion.InsertedShaped | src/btree.rs:31-43 | insert keeps a well-formed tree well formed |
| Insertion.InsertedCorrect | src/btree.rs:31-43 | insert keeps a valid tree valid and adds exactly one occurrence of key; the height grows by one if and only if the root was full |
| Trees.EmptyValid | src/node.rs:18-24 | the empty root is a valid B-tree of every degree >= 2, with no keys and height 0 |
| Trees.SearchFinds | src/btree.rs:27-29 | on a valid tree, search from the root succeeds if and only if the key is in the tree |
| Trees.BTree.Degree | src/btree.rs:13-18 | the new tree has an empty root and the given degree, and is valid when degree >= 2 |
| Trees.BTree.Order | src/btree.rs:20-25 | the new tree has an empty root and degree order/2, and is valid when order >= 4 |
| Trees.BTree.Search | src/btree.rs:27-29 | a hit names a reachable node and a slot holding the key; on a valid tree, search succeeds if and only if the key is in the tree |
| Trees.BTree.Insert | src/btree.rs:31-43 | the tree stays valid with the same degree; the new root is Inserted(old root, key); the keys gain exactly one occurrence of key; the height grows by one if and only if the root was full |
| Properties.AbsentSplit | src/btree.rs:177-191 | a split adds no key, so a key in no node is still in no node |
| Properties.InsertedLeaves | src/btree.rs:141-157 | a key the valid tree did not hold is placed only in leaves: splits lift only keys already present |
| Properties.InsertThenSearch | src/main.rs:79-80 | after insert(key) on a valid tree, search(key) succeeds |
| Properties.FreshKeyFoundInLeaf | src/main.rs:79-81 | after insert(key) of a key the valid tree did not hold, search(key) succeeds and the node found is a leaf |
| Properties.InsertAllCorrect | src/main.rs:85-105 | inserting a sequence of keys one after another into a valid tree gives a valid tree whose keys are the old ones plus the inserted ones |
| Properties.InsertedBound | src/main.rs:72-78 | if every key of a valid tree and the new key are below a bound, every key after insert is below it too |
| Scenarios.Fill19 | src/main.rs:85-105 | inserting 1 to 19 into an empty tree of degree 3 gives the root [9] over [3, 6] and [12, 15], over the leaves [1, 2], [4, 5], [7, 8], [10, 11], [13, 14] and [16, 17, 18, 19] |
| Scenarios.FillBTree | src/main.rs:85-105 | on an empty valid tree of degree 3, the nineteen calls to insert leave a valid tree whose root is that tree |
| Scenarios.SearchNineteenKeys | src/main.rs:39-59 | on that tree, search(12) finds the second internal node at slot 1, search(6) the first at slot 2, and search(1) the leaf [1, 2] at slot 1 |
| Scenarios.TestBTreeSearch | src/main.rs:36-60 | the assertions of test_btree_search hold: the node holding 12 has 2 keys over [10, 11], [13, 14] and [16, 17, 18, 19]; the node holding 6 has 2 keys and 3 children, the first [1, 2]; the node holding 1 is a leaf with 2 keys |
| Scenarios.TestOrderMatchesDegree | src/main.rs:61-63 | filling a tree built with order(6) gives the same tree as one built with degree(3) |
| Scenarios.EqualKeysSplit | src/btree.rs:31-43 | inserting 5 into a full root [5, 5, 5] of degree 2 gives the root [5] over the leaves [5] and [5, 5]: child keys equal their separator on both sides |
| Scenarios.TestRandomFilling | src/main.rs:66-82 | after one hundred arbitrary keys below 100 are inserted into a tree of order 9, then 101, search(101) finds 101 in a leaf |

## Left out

- Deletion (`delete`, src/btree.rs:45-139) is not modelled. It is unfinished in the source.
- The source's node type wraps children as `Rc<RefCell<Node>>` (src/node.rs:13), while btree.rs uses them as plain nodes. The model follows btree.rs: children are owned node values, with no sharing or interior mutability.
- `mem::swap` in `insert` becomes a swap of the field `root` with the local `newRoot` (Trees.BTree.Insert). Reference identity is not modelled.
- Keys are unbounded naturals, not machine-word `usize`. No key arithmetic happens in the source, so nothing depends on the width.
- `degree * 2 - 1` underflows in `usize` when the degree is 0, for example for `order(0)` or `order(1)`. Trees.BTree.Insert therefore requires a valid tree, which includes degree >= 2. A degree of 1 lets the source build nodes without keys, and it is excluded too.
- Insertion.InsertNonfull, Splitting.SplitChild: they require what `insert` and the recursive `insert_nonfull` guarantee on a valid tree (src/btree.rs:40, 42, 150, 155). For insert_nonfull that is a well-formed node that is not full. For split_child it is a child long enough for `split_off(t)` and `pop`, which would otherwise panic.
- Duplicate suppression is not modelled, because the source does not do it. `insert(k); insert(k)` stores `k` twice.
- The demo `main` (src/main.rs:6-28) only fills a tree as `fill_btree` does and prints it; printing is left out.
- The random keys of test_random_btree_filling come from a random number generator in the source. They become the parameter of Scenarios.TestRandomFilling, constrained to 100 keys below 100.
