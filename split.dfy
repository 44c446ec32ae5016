/** B-TREE-SPLIT-CHILD: halve a full child around its median and lift the
    median into the parent. */
module Splitting {
  import opened Nodes
  import opened Shape

  /** The parent after split_child(parent, index, t): the child at index
      keeps its first t-1 keys (and, when internal, its first t children),
      a new sibling takes the keys after the median (and the remaining
      children) with the same leaf flag, the median child.keys[t-1] enters
      the parent at keys[index] and the sibling at children[index+1].
      The requires are what the source needs not to panic: both `split_off`
      calls and the `pop` need t to be at most the lengths they cut, and at
      least 1. */
  function Split(parent: Node, index: nat, t: nat): Node
    requires index < |parent.children| && index <= |parent.keys|
    requires 1 <= t <= |parent.children[index].keys|
    requires !parent.children[index].leaf ==> t <= |parent.children[index].children|
  {
    var child := parent.children[index];
    var left := Node(child.keys[..t - 1],
                     if child.leaf then child.children else child.children[..t],
                     child.leaf);
    var right := Node(child.keys[t..], if child.leaf then [] else child.children[t..], child.leaf);
    Node(parent.keys[..index] + [child.keys[t - 1]] + parent.keys[index..],
         parent.children[..index] + [left, right] + parent.children[index + 1..],
         parent.leaf)
  }

  /** The condition under which insertion splits: a non-full internal parent
      of a well-formed subtree whose child at index is full. */
  ghost predicate CanSplit(parent: Node, index: nat, t: nat, isRoot: bool) {
    2 <= t && Shaped(parent, t, isRoot) && !parent.leaf && |parent.keys| < 2 * t - 1
    && index < |parent.children| && |parent.children[index].keys| == 2 * t - 1
    && (!parent.children[index].leaf ==> |parent.children[index].children| == 2 * t)
  }

  /** Both halves of a split full child are well formed non-root nodes of
      t-1 keys at the child's height. */
  lemma SplitHalvesShaped(parent: Node, index: nat, t: nat, isRoot: bool)
    requires CanSplit(parent, index, t, isRoot)
    ensures var r := Split(parent, index, t);
      var child := parent.children[index];
      Shaped(r.children[index], t, false) && Shaped(r.children[index + 1], t, false)
      && Height(r.children[index]) == Height(child) && Height(r.children[index + 1]) == Height(child)
  {
    var r := Split(parent, index, t);
    var child := parent.children[index];
    var left, right := r.children[index], r.children[index + 1];
    assert Shaped(child, t, false);
    if !child.leaf {
      assert left.children == child.children[..t];
      assert right.children == child.children[t..];
      forall j | 0 <= j < |left.children|
        ensures Height(left.children[j]) + 1 == Height(left) && Shaped(left.children[j], t, false)
      {
        assert left.children[j] == child.children[j];
      }
      forall j | 0 <= j < |right.children|
        ensures Height(right.children[j]) + 1 == Height(right) && Shaped(right.children[j], t, false)
      {
        assert right.children[j] == child.children[t + j];
        assert right.children[0] == child.children[t];
      }
    }
  }

  /** Splitting keeps the key sequence of the child: left ++ [median] ++ right. */
  lemma SplitChildKeys(parent: Node, index: nat, t: nat, isRoot: bool)
    requires CanSplit(parent, index, t, isRoot)
    ensures var r := Split(parent, index, t);
      var child := parent.children[index];
      Keys(child) == Keys(r.children[index]) + [child.keys[t - 1]] + Keys(r.children[index + 1])
  {
    var r := Split(parent, index, t);
    var child := parent.children[index];
    var left, right := r.children[index], r.children[index + 1];
    assert Shaped(child, t, false);
    if child.leaf {
      assert child.keys == child.keys[..t - 1] + [child.keys[t - 1]] + child.keys[t..];
    } else {
      HalvesKeys(child, left, right, t);
    }
  }

  /** The in-order sequence of an internal node cut at key t-1 into the node
      with the keys and children before it and the node with those after. */
  lemma HalvesKeys(child: Node, left: Node, right: Node, t: nat)
    requires !child.leaf && |child.children| == |child.keys| + 1 && 1 <= t <= |child.keys|
    requires left == Node(child.keys[..t - 1], child.children[..t], false)
    requires right == Node(child.keys[t..], child.children[t..], false)
    ensures Keys(child) == Keys(left) + [child.keys[t - 1]] + Keys(right)
  {
    var ck := ChildKeys(child);
    var before, after := Inorder(child.keys[..t - 1], ck[..t]), Inorder(child.keys[t..], ck[t..]);
    assert Keys(child) == before + [child.keys[t - 1]] + after by {
      InorderCut(child.keys, ck, t - 1);
    }
    assert Keys(left) == before by {
      ChildKeysSlice(child, left, 0, t);
    }
    assert Keys(right) == after by {
      ChildKeysSlice(child, right, t, |child.children|);
      assert ck[t..|child.children|] == ck[t..];
    }
  }

  /** A node whose children are a slice of n's children has the matching
      slice of n's child key sequences. */
  lemma ChildKeysSlice(n: Node, m: Node, lo: nat, hi: nat)
    requires lo <= hi <= |n.children| && m.children == n.children[lo..hi]
    ensures ChildKeys(m) == ChildKeys(n)[lo..hi]
  {
    assert forall i :: 0 <= i < hi - lo ==> m.children[i] == n.children[lo + i];
  }

  /** Splitting a full child of a non-full node keeps the node well formed
      at the same height. */
  lemma SplitShape(parent: Node, index: nat, t: nat, isRoot: bool)
    requires CanSplit(parent, index, t, isRoot)
    ensures var r := Split(parent, index, t);
      Shaped(r, t, isRoot) && Height(r) == Height(parent)
  {
    var r := Split(parent, index, t);
    var child := parent.children[index];
    SplitHalvesShaped(parent, index, t, isRoot);
    assert Height(child) + 1 == Height(parent);
    assert Height(r.children[0]) + 1 == Height(parent) by {
      if index > 0 {
        assert r.children[0] == parent.children[0];
      }
    }
    forall j | 0 <= j < |r.children|
      ensures Height(r.children[j]) + 1 == Height(r) && Shaped(r.children[j], t, false)
    {
      if j < index {
        assert r.children[j] == parent.children[j];
      } else if j > index + 1 {
        assert r.children[j] == parent.children[j - 1];
      }
    }
  }

  /** The child key sequences after a split: the split child's entry is
      replaced by those of its two halves. */
  lemma SplitChildList(parent: Node, index: nat, t: nat)
    requires index < |parent.children| && index <= |parent.keys|
    requires 1 <= t <= |parent.children[index].keys|
    requires !parent.children[index].leaf ==> t <= |parent.children[index].children|
    ensures var r := Split(parent, index, t);
      var ck := ChildKeys(parent);
      ChildKeys(r) == ck[..index] + [Keys(r.children[index]), Keys(r.children[index + 1])] + ck[index + 1..]
  {
    var r := Split(parent, index, t);
    assert r.children[..index] == parent.children[..index];
    assert r.children[index + 2..] == parent.children[index + 1..];
  }

  /** Splitting leaves the parent's in-order key sequence unchanged. */
  lemma SplitKeys(parent: Node, index: nat, t: nat, isRoot: bool)
    requires CanSplit(parent, index, t, isRoot)
    ensures Keys(Split(parent, index, t)) == Keys(parent)
  {
    var r := Split(parent, index, t);
    var child := parent.children[index];
    SplitChildKeys(parent, index, t, isRoot);
    var ck := ChildKeys(parent);
    SplitChildList(parent, index, t);
    InorderSplice(parent.keys, ck, index, Keys(r.children[index]), child.keys[t - 1], Keys(r.children[index + 1]));
  }

  /** Splitting a full child of a non-full node keeps the node well formed
      at the same height and leaves its in-order key sequence unchanged. */
  lemma SplitPreserves(parent: Node, index: nat, t: nat, isRoot: bool)
    requires CanSplit(parent, index, t, isRoot)
    ensures var r := Split(parent, index, t);
      Shaped(r, t, isRoot) && Height(r) == Height(parent) && Keys(r) == Keys(parent)
      && |r.keys| == |parent.keys| + 1 && |r.children| == |parent.children| + 1
      && |r.children[index].keys| == t - 1 && |r.children[index + 1].keys| == t - 1
  {
    SplitShape(parent, index, t, isRoot);
    SplitKeys(parent, index, t, isRoot);
  }

  /** Where split_child puts everything: the parent gains the median at
      keys[index] and the new sibling at children[index+1] with all other
      keys and children shifted, the child keeps the keys before the median,
      the sibling takes the keys after it, and an internal child's children
      are divided t and t. */
  lemma SplitLayout(parent: Node, index: nat, t: nat)
    requires index < |parent.children| && index <= |parent.keys|
    requires 1 <= t <= |parent.children[index].keys|
    requires !parent.children[index].leaf ==> t <= |parent.children[index].children|
    ensures var r := Split(parent, index, t);
      var child := parent.children[index];
      r.leaf == parent.leaf && |r.keys| == |parent.keys| + 1 && |r.children| == |parent.children| + 1
      && r.keys[..index] == parent.keys[..index] && r.keys[index + 1..] == parent.keys[index..]
      && r.children[..index] == parent.children[..index]
      && r.children[index + 2..] == parent.children[index + 1..]
      && r.children[index].keys + [r.keys[index]] + r.children[index + 1].keys == child.keys
      && |r.children[index].keys| == t - 1
      && r.children[index].leaf == r.children[index + 1].leaf == child.leaf
      && (!child.leaf ==> r.children[index].children + r.children[index + 1].children == child.children
                          && |r.children[index].children| == t)
  {
    var r := Split(parent, index, t);
    var child := parent.children[index];
    assert r.keys[..index] == parent.keys[..index];
    assert r.keys[index + 1..] == parent.keys[index..];
    assert r.children[..index] == parent.children[..index];
    assert r.children[index + 2..] == parent.children[index + 1..];
    assert child.keys == child.keys[..t - 1] + [child.keys[t - 1]] + child.keys[t..];
    if !child.leaf {
      assert child.children == child.children[..t] + child.children[t..];
    }
  }

  /** The imperative split_child: `split_off(t)` cuts the child's keys (and,
      for an internal child, its children) after position t, `pop` takes the
      median off the child's remaining keys, and two `insert`s place the
      median and the new sibling in the parent. */
  method SplitChild(node: Node, index: nat, t: nat) returns (r: Node)
    requires index < |node.children| && index <= |node.keys|
    requires 1 <= t <= |node.children[index].keys|
    requires !node.children[index].leaf ==> t <= |node.children[index].children|
    ensures r == Split(node, index, t)
  {
    var child := node.children[index];
    var sibling := New(child.keys[t..], [], child.leaf);
    child := child.(keys := child.keys[..t]);
    if !child.leaf {
      sibling := sibling.(children := child.children[t..]);
      child := child.(children := child.children[..t]);
    }
    var median := child.keys[|child.keys| - 1];
    child := child.(keys := child.keys[..|child.keys| - 1]);
    r := node.(children := node.children[index := child]);
    r := r.(keys := r.keys[..index] + [median] + r.keys[index..]);
    r := r.(children := r.children[..index + 1] + [sibling] + r.children[index + 1..]);
    assert child.keys == node.children[index].keys[..t - 1];
  }
}
