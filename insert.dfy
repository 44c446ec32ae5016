/** B-TREE-INSERT and B-TREE-INSERT-NONFULL: split a full root, then descend
    from the root, splitting every full child before entering it, and place
    the key at its sorted position in a leaf.  Duplicates are stored: every
    insertion adds one occurrence of the key. */
module Insertion {
  import opened Nodes
  import opened Shape
  import opened Search
  import opened Splitting

  /** The node after insert_nonfull(node, key, t).  The scan finds the slot
      after the last key <= key; at a leaf the key is inserted there, at an
      internal node a full child at that slot is split first, and the
      descent goes right of the promoted median iff key > median. */
  ghost function InsertedNonfull(node: Node, key: nat, t: nat): Node
    requires 2 <= t && Shaped(node, t, true) && |node.keys| < 2 * t - 1
    decreases Height(node)
  {
    var i := Slot(node.keys, key);
    if node.leaf then
      node.(keys := node.keys[..i] + [key] + node.keys[i..])
    else if |node.children[i].keys| == 2 * t - 1 then
      assert Shaped(node.children[i], t, false);
      SplitPreserves(node, i, t, true);
      var n := Split(node, i, t);
      var j := Descent(n, i, key);
      assert Shaped(n.children[j], t, false);
      n.(children := n.children[j := InsertedNonfull(n.children[j], key, t)])
    else
      assert Shaped(node.children[i], t, false);
      node.(children := node.children[i := InsertedNonfull(node.children[i], key, t)])
  }

  /** The root of a full tree after it is pushed under a new internal root
      without keys, which is then split at its only child. */
  function Grown(root: Node, t: nat): Node
    requires 1 <= t <= |root.keys| && (!root.leaf ==> t <= |root.children|)
  {
    Split(Node([], [root], false), 0, t)
  }

  /** The root after insert(key). */
  ghost function Inserted(root: Node, key: nat, t: nat): Node
    requires 2 <= t && Shaped(root, t, true)
  {
    if |root.keys| == 2 * t - 1 then
      GrowPreserves(root, t);
      InsertedNonfull(Grown(root, t), key, t)
    else
      InsertedNonfull(root, key, t)
  }

  /** Replacing child j by a well-formed node of the same height keeps the
      node well formed at its height. */
  lemma ReplaceChildShape(n: Node, j: nat, c': Node, t: nat, isRoot: bool)
    requires Shaped(n, t, isRoot) && !n.leaf && j < |n.children|
    requires Shaped(c', t, false) && Height(c') == Height(n.children[j])
    ensures var r := n.(children := n.children[j := c']);
      Shaped(r, t, isRoot) && Height(r) == Height(n)
  {
    var r := n.(children := n.children[j := c']);
    assert Height(r) == Height(n) by {
      if j > 0 {
        assert r.children[0] == n.children[0];
      }
    }
    forall i | 0 <= i < |r.children|
      ensures Height(r.children[i]) + 1 == Height(r) && Shaped(r.children[i], t, false)
    {
    }
  }

  /** Replacing child j changes only the middle of the node's in-order
      sequence. */
  lemma ReplaceChildParts(n: Node, j: nat, c': Node)
    requires !n.leaf && |n.children| == |n.keys| + 1 && j < |n.children|
    ensures var r := n.(children := n.children[j := c']);
      var pre, post := Before(n.keys, ChildKeys(n), j), After(n.keys, ChildKeys(n), j);
      Keys(n) == pre + Keys(n.children[j]) + post && Keys(r) == pre + Keys(c') + post
  {
    var r := n.(children := n.children[j := c']);
    var ck, ck' := ChildKeys(n), ChildKeys(r);
    assert ck' == ck[j := Keys(c')];
    Decompose(n, j);
    Decompose(r, j);
    assert ck'[..j] == ck[..j];
    assert ck'[j + 1..] == ck[j + 1..];
    assert Before(r.keys, ck', j) == Before(n.keys, ck, j);
    assert After(r.keys, ck', j) == After(n.keys, ck, j);
  }

  /** Replacing child j by a node that holds one more occurrence of key,
      where key lies between the keys around slot j, adds exactly that
      occurrence to the node's key sequence and keeps it sorted. */
  lemma ReplaceChildKeys(n: Node, j: nat, c': Node, key: nat)
    requires !n.leaf && |n.children| == |n.keys| + 1 && j < |n.children|
    requires multiset(Keys(c')) == multiset(Keys(n.children[j])) + multiset{key}
    requires j > 0 ==> n.keys[j - 1] <= key
    requires j < |n.keys| ==> key <= n.keys[j]
    ensures var r := n.(children := n.children[j := c']);
      multiset(Keys(r)) == multiset(Keys(n)) + multiset{key}
      && (Sorted(Keys(n)) && Sorted(Keys(c')) ==> Sorted(Keys(r)))
  {
    var r := n.(children := n.children[j := c']);
    ReplaceChildParts(n, j, c');
    var pre, post := Before(n.keys, ChildKeys(n), j), After(n.keys, ChildKeys(n), j);
    MiddleMultiset(Keys(r), Keys(n), pre, Keys(n.children[j]), Keys(c'), post, key);
    if Sorted(Keys(n)) && Sorted(Keys(c')) {
      ChildOrder(n, j);
      Decompose(n, j);
      MiddleBounds(pre, Keys(n.children[j]), Keys(c'), post, key, n.keys, j);
      SortedReplaceMiddle(pre, Keys(n.children[j]), Keys(c'), post);
    }
  }

  /** The elements of the new child lie between the keys around slot j. */
  lemma MiddleBounds(pre: seq<nat>, mid: seq<nat>, mid': seq<nat>, post: seq<nat>, key: nat,
                     keys: seq<nat>, j: nat)
    requires j <= |keys|
    requires |pre| > 0 <==> j > 0
    requires |pre| > 0 ==> pre[|pre| - 1] == keys[j - 1]
    requires |post| > 0 <==> j < |keys|
    requires |post| > 0 ==> post[0] == keys[j]
    requires multiset(mid') == multiset(mid) + multiset{key}
    requires j > 0 ==> keys[j - 1] <= key && forall x :: x in mid ==> keys[j - 1] <= x
    requires j < |keys| ==> key <= keys[j] && forall x :: x in mid ==> x <= keys[j]
    ensures forall x :: x in mid' ==> (|pre| > 0 ==> pre[|pre| - 1] <= x)
    ensures forall x :: x in mid' ==> (|post| > 0 ==> x <= post[0])
  {
    forall x | x in mid'
      ensures (|pre| > 0 ==> pre[|pre| - 1] <= x) && (|post| > 0 ==> x <= post[0])
    {
      assert x in multiset(mid');
      assert x == key || x in multiset(mid);
      if x != key {
        assert x in mid;
      }
      if |pre| > 0 {
        assert j > 0 && keys[j - 1] <= x;
      }
      if |post| > 0 {
        assert j < |keys| && x <= keys[j];
      }
    }
  }

  /** Multiset bookkeeping for ReplaceChild, apart from the recursive
      definitions. */
  lemma MiddleMultiset(x: seq<nat>, y: seq<nat>, pre: seq<nat>, mid: seq<nat>, mid': seq<nat>,
                       post: seq<nat>, key: nat)
    requires x == pre + mid' + post && y == pre + mid + post
    requires multiset(mid') == multiset(mid) + multiset{key}
    ensures multiset(x) == multiset(y) + multiset{key}
  {
  }

  /** Inserting at a leaf: the key goes in at its slot, so the keys stay
      sorted and gain exactly one occurrence of key. */
  lemma LeafInsert(keys: seq<nat>, key: nat)
    ensures var i := Slot(keys, key);
      var keys' := keys[..i] + [key] + keys[i..];
      multiset(keys') == multiset(keys) + multiset{key} && (Sorted(keys) ==> Sorted(keys'))
  {
    var i := Slot(keys, key);
    var pre, post := keys[..i], keys[i..];
    assert keys == pre + post;
    assert |pre| > 0 ==> pre[|pre| - 1] == keys[i - 1];
    assert |post| > 0 ==> post[0] == keys[i];
    InsertBetween(keys, pre, post, key);
  }

  /** A key placed between the last element of pre and the first of post
      keeps pre + post sorted and adds one occurrence of itself. */
  lemma InsertBetween(keys: seq<nat>, pre: seq<nat>, post: seq<nat>, key: nat)
    requires keys == pre + post
    requires |pre| > 0 ==> pre[|pre| - 1] <= key
    requires |post| > 0 ==> key <= post[0]
    ensures multiset(pre + [key] + post) == multiset(keys) + multiset{key}
    ensures Sorted(keys) ==> Sorted(pre + [key] + post)
  {
    if Sorted(keys) {
      assert pre + [] + post == keys;
      SortedReplaceMiddle(pre, [], [key], post);
    }
  }

  /** What insertion promises of a node and its replacement r: r is well
      formed at the same height with at least as many keys, holds exactly
      one more occurrence of key, and is sorted if the node was. */
  ghost predicate InsertOk(node: Node, r: Node, key: nat, t: nat) {
    Shaped(r, t, true) && |node.keys| <= |r.keys| && Height(r) == Height(node)
    && multiset(Keys(r)) == multiset(Keys(node)) + multiset{key}
    && (Sorted(Keys(node)) ==> Sorted(Keys(r)))
  }

  /** One step of the descent: if the child at slot j, between whose
      surrounding keys the key lies, is replaced correctly, so is the node. */
  lemma DescendOk(n: Node, j: nat, c': Node, key: nat, t: nat)
    requires 2 <= t && Shaped(n, t, true) && !n.leaf && j < |n.children|
    requires j > 0 ==> n.keys[j - 1] <= key
    requires j < |n.keys| ==> key <= n.keys[j]
    requires InsertOk(n.children[j], c', key, t)
    ensures InsertOk(n, n.(children := n.children[j := c']), key, t)
  {
    assert Shaped(n.children[j], t, false);
    assert Shaped(c', t, false);
    ReplaceChildShape(n, j, c', t, true);
    ReplaceChildKeys(n, j, c', key);
    if Sorted(Keys(n)) {
      ChildOrder(n, j);
    }
  }

  /** The child to descend into after splitting the full child at slot i:
      right of the promoted median iff key is greater than it.  When the key
      lies between keys[i-1] and the key after the median, the chosen child
      is the one whose range holds the key: no greater key before it and no
      smaller key after it. */
  function Descent(n: Node, i: nat, key: nat): (j: nat)
    requires i < |n.keys|
    ensures j == i || j == i + 1
    ensures (i > 0 ==> n.keys[i - 1] <= key) && (i + 1 < |n.keys| ==> key < n.keys[i + 1]) ==>
      (j > 0 ==> n.keys[j - 1] <= key) && (j < |n.keys| ==> key <= n.keys[j])
  {
    if key > n.keys[i] then i + 1 else i
  }

  /** Splitting the full child at the slot and then replacing the half the
      key belongs to by a correct insertion is a correct insertion into the
      node. */
  lemma SplitStep(node: Node, i: nat, key: nat, t: nat, c': Node)
    requires CanSplit(node, i, t, true) && i == Slot(node.keys, key)
    requires var n := Split(node, i, t); InsertOk(n.children[Descent(n, i, key)], c', key, t)
    ensures var n := Split(node, i, t);
      InsertOk(node, n.(children := n.children[Descent(n, i, key) := c']), key, t)
  {
    SplitPreserves(node, i, t, true);
    var n := Split(node, i, t);
    var m := node.children[i].keys[t - 1];
    assert n.keys == node.keys[..i] + [m] + node.keys[i..];
    DescentBounds(n, node.keys, m, key, i);
    DescendOk(n, Descent(n, i, key), c', key, t);
  }

  /** After the median m enters the keys at the slot i of key, the key lies
      between the keys around the child the descent picks. */
  lemma DescentBounds(n: Node, keys: seq<nat>, m: nat, key: nat, i: nat)
    requires i == Slot(keys, key) && n.keys == keys[..i] + [m] + keys[i..]
    ensures var j := Descent(n, i, key);
      (j > 0 ==> n.keys[j - 1] <= key) && (j < |n.keys| ==> key <= n.keys[j])
  {
    if i > 0 {
      assert n.keys[i - 1] == keys[i - 1];
    }
    if i + 1 < |n.keys| {
      assert n.keys[i + 1] == keys[i];
    }
  }

  /** insert_nonfull on a non-full well-formed node: the result is well
      formed at the same height (so no node ever exceeds 2t-1 keys), holds
      exactly one more occurrence of key, and stays sorted. */
  lemma {:induction false} InsertedNonfullCorrect(node: Node, key: nat, t: nat)
    requires 2 <= t && Shaped(node, t, true) && |node.keys| < 2 * t - 1
    ensures InsertOk(node, InsertedNonfull(node, key, t), key, t)
    decreases Height(node)
  {
    var i := Slot(node.keys, key);
    if node.leaf {
      LeafInsert(node.keys, key);
    } else {
      NonfullStep(node, key, t);
      var full := |node.children[i].keys| == 2 * t - 1;
      var n := if full then Split(node, i, t) else node;
      var j := if full then Descent(n, i, key) else i;
      InsertedNonfullCorrect(n.children[j], key, t);
      if full {
        SplitStep(node, i, key, t, InsertedNonfull(n.children[j], key, t));
      } else {
        DescendOk(node, i, InsertedNonfull(node.children[i], key, t), key, t);
      }
    }
  }

  /** Root growth: pushing a full root under a new root and splitting it
      gives a well-formed root with one key and two children, one level
      higher, with the same key sequence. */
  lemma GrowPreserves(root: Node, t: nat)
    requires 2 <= t && Shaped(root, t, true) && |root.keys| == 2 * t - 1
    ensures 1 <= t <= |root.keys| && (!root.leaf ==> t <= |root.children|)
    ensures var g := Grown(root, t);
      Shaped(g, t, true) && g.keys == [root.keys[t - 1]] && |g.children| == 2
      && Height(g) == Height(root) + 1 && Keys(g) == Keys(root)
  {
    var top := Node([], [root], false);
    assert Shaped(root, t, false);
    assert Height(top) == Height(root) + 1;
    assert ChildKeys(top) == [Keys(root)];
    assert Keys(top) == Keys(root);
    SplitPreserves(top, 0, t, true);
  }

  /** insert keeps a well-formed tree well formed, whatever its order. */
  lemma InsertedShaped(root: Node, key: nat, t: nat)
    requires 2 <= t && Shaped(root, t, true)
    ensures Shaped(Inserted(root, key, t), t, true)
  {
    if |root.keys| == 2 * t - 1 {
      GrowPreserves(root, t);
      InsertedNonfullCorrect(Grown(root, t), key, t);
    } else {
      InsertedNonfullCorrect(root, key, t);
    }
  }

  /** insert keeps a valid B-tree valid, adds exactly one occurrence of key
      to its key sequence, and grows the height by one exactly when the
      root was full. */
  lemma InsertedCorrect(root: Node, key: nat, t: nat)
    requires IsBTree(root, t)
    ensures var r := Inserted(root, key, t);
      IsBTree(r, t)
      && multiset(Keys(r)) == multiset(Keys(root)) + multiset{key}
      && Height(r) == Height(root) + (if |root.keys| == 2 * t - 1 then 1 else 0)
  {
    if |root.keys| == 2 * t - 1 {
      GrowPreserves(root, t);
      InsertedNonfullCorrect(Grown(root, t), key, t);
    } else {
      InsertedNonfullCorrect(root, key, t);
    }
  }

  /** The recursive step of insert_nonfull at an internal node, spelled out:
      after the optional split, the child the descent enters is well formed
      and not full, and the result replaces it by its own insertion. */
  lemma NonfullStep(node: Node, key: nat, t: nat)
    requires 2 <= t && Shaped(node, t, true) && |node.keys| < 2 * t - 1 && !node.leaf
    ensures var i := Slot(node.keys, key);
      var full := |node.children[i].keys| == 2 * t - 1;
      full ==> CanSplit(node, i, t, true)
    ensures var i := Slot(node.keys, key);
      var full := |node.children[i].keys| == 2 * t - 1;
      var n := if full then Split(node, i, t) else node;
      var j := if full then Descent(n, i, key) else i;
      j < |n.children| && Shaped(n.children[j], t, true) && |n.children[j].keys| < 2 * t - 1
      && Height(n.children[j]) < Height(node)
      && InsertedNonfull(node, key, t) == n.(children := n.children[j := InsertedNonfull(n.children[j], key, t)])
  {
    var i := Slot(node.keys, key);
    assert Shaped(node.children[i], t, false);
    if |node.children[i].keys| == 2 * t - 1 {
      SplitPreserves(node, i, t, true);
      var n := Split(node, i, t);
      assert Shaped(n.children[Descent(n, i, key)], t, false);
    }
  }

  /** The imperative insert_nonfull: the count-down scan is the source's
      while loop; a full child is split in place before the descent. */
  method InsertNonfull(node: Node, key: nat, t: nat) returns (r: Node)
    requires 2 <= t && Shaped(node, t, true) && |node.keys| < 2 * t - 1
    ensures r == InsertedNonfull(node, key, t)
    ensures InsertOk(node, r, key, t)
    decreases Height(node)
  {
    var index: nat := |node.keys|;
    while index > 0 && key < node.keys[index - 1]
      invariant index <= |node.keys|
      invariant forall j :: index <= j < |node.keys| ==> key < node.keys[j]
    {
      index := index - 1;
    }
    SlotUnique(node.keys, key, index);
    if node.leaf {
      r := node.(keys := node.keys[..index] + [key] + node.keys[index..]);
    } else {
      NonfullStep(node, key, t);
      var n := node;
      if |n.children[index].keys| == 2 * t - 1 {
        n := SplitChild(n, index, t);
        if key > n.keys[index] {
          index := index + 1;
        }
      }
      var c := InsertNonfull(n.children[index], key, t);
      r := n.(children := n.children[index := c]);
    }
    InsertedNonfullCorrect(node, key, t);
  }
}
