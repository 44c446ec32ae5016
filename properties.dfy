/** What search can see after insert: an inserted key is always found, and a
    key the tree did not hold before is found in a leaf, because splits only
    ever lift keys that were already in the tree. */
module Properties {
  import opened Nodes
  import opened Shape
  import opened Search
  import opened Splitting
  import opened Insertion

  /** key occurs in no node of the subtree rooted at n. */
  ghost predicate Absent(n: Node, key: nat)
    decreases n
  {
    key !in n.keys && forall i :: 0 <= i < |n.children| ==> Absent(n.children[i], key)
  }

  /** key occurs in no internal node of the subtree rooted at n. */
  ghost predicate OnlyInLeaves(n: Node, key: nat)
    decreases n
  {
    (!n.leaf ==> key !in n.keys) && forall i :: 0 <= i < |n.children| ==> OnlyInLeaves(n.children[i], key)
  }

  /** A key missing from the in-order sequence of a well-formed subtree is in
      none of its nodes. */
  lemma {:induction false} AbsentFromKeys(n: Node, key: nat, t: nat, isRoot: bool)
    requires Shaped(n, t, isRoot) && key !in Keys(n)
    ensures Absent(n, key)
    decreases n
  {
    if !n.leaf {
      forall k | 0 <= k < |n.keys| ensures n.keys[k] != key {
        Decompose(n, k + 1);
        assert n.keys[k] in Before(n.keys, ChildKeys(n), k + 1);
      }
      forall i | 0 <= i < |n.children| ensures Absent(n.children[i], key) {
        Decompose(n, i);
        AbsentFromKeys(n.children[i], key, t, false);
      }
    }
  }

  lemma {:induction false} AbsentOnlyInLeaves(n: Node, key: nat)
    requires Absent(n, key)
    ensures OnlyInLeaves(n, key)
    decreases n
  {
    forall i | 0 <= i < |n.children| ensures OnlyInLeaves(n.children[i], key) {
      AbsentOnlyInLeaves(n.children[i], key);
    }
  }

  /** Splitting moves keys and children around but adds none, so an absent
      key stays absent. */
  lemma AbsentSplit(parent: Node, index: nat, t: nat, key: nat)
    requires index < |parent.children| && index <= |parent.keys|
    requires 1 <= t <= |parent.children[index].keys|
    requires !parent.children[index].leaf ==> t <= |parent.children[index].children|
    requires Absent(parent, key)
    ensures Absent(Split(parent, index, t), key)
  {
    var r := Split(parent, index, t);
    var child := parent.children[index];
    assert Absent(child, key);
    assert child.keys[t - 1] in child.keys;
    assert Absent(r.children[index], key) by {
      PartAbsent(child, r.children[index], key);
    }
    assert Absent(r.children[index + 1], key) by {
      PartAbsent(child, r.children[index + 1], key);
    }
    forall i | 0 <= i < |r.children| && i != index && i != index + 1 ensures Absent(r.children[i], key) {
      if i < index {
        assert r.children[i] == parent.children[i];
      } else {
        assert r.children[i] == parent.children[i - 1];
      }
    }
    assert key !in r.keys;
  }

  /** A node made of some of the keys and children of a node without key is
      without key too. */
  lemma PartAbsent(whole: Node, part: Node, key: nat)
    requires Absent(whole, key)
    requires forall k :: k in part.keys ==> k in whole.keys
    requires forall c :: c in part.children ==> c in whole.children
    ensures Absent(part, key)
  {
    forall i | 0 <= i < |part.children| ensures Absent(part.children[i], key) {
      assert part.children[i] in whole.children;
    }
  }

  /** insert_nonfull puts a key that was in no node of the subtree into a
      leaf and into no internal node. */
  lemma {:induction false} InsertedNonfullLeaves(node: Node, key: nat, t: nat)
    requires 2 <= t && Shaped(node, t, true) && |node.keys| < 2 * t - 1 && Absent(node, key)
    ensures OnlyInLeaves(InsertedNonfull(node, key, t), key)
    decreases Height(node)
  {
    var i := Slot(node.keys, key);
    if !node.leaf {
      var n := node;
      var j := i;
      assert Shaped(node.children[i], t, false);
      if |node.children[i].keys| == 2 * t - 1 {
        SplitPreserves(node, i, t, true);
        AbsentSplit(node, i, t, key);
        n := Split(node, i, t);
        j := Descent(n, i, key);
      }
      assert Shaped(n.children[j], t, false);
      InsertedNonfullLeaves(n.children[j], key, t);
      var r := n.(children := n.children[j := InsertedNonfull(n.children[j], key, t)]);
      assert r == InsertedNonfull(node, key, t);
      forall c | 0 <= c < |r.children| ensures OnlyInLeaves(r.children[c], key) {
        if c != j {
          AbsentOnlyInLeaves(n.children[c], key);
        }
      }
    }
  }

  /** insert puts a key the tree did not hold into leaves only. */
  lemma InsertedLeaves(root: Node, key: nat, t: nat)
    requires IsBTree(root, t) && key !in Keys(root)
    ensures OnlyInLeaves(Inserted(root, key, t), key)
  {
    AbsentFromKeys(root, key, t, true);
    if |root.keys| == 2 * t - 1 {
      GrowPreserves(root, t);
      var top := Node([], [root], false);
      assert Absent(top, key);
      AbsentSplit(top, 0, t, key);
      InsertedNonfullLeaves(Grown(root, t), key, t);
    } else {
      InsertedNonfullLeaves(root, key, t);
    }
  }

  /** A node below n that holds a key found only in leaves is a leaf. */
  lemma {:induction false} ReachableHolderIsLeaf(m: Node, n: Node, key: nat)
    requires OnlyInLeaves(n, key) && Reachable(m, n) && key in m.keys
    ensures m.leaf
    decreases n
  {
    if m != n {
      var i :| 0 <= i < |n.children| && Reachable(m, n.children[i]);
      ReachableHolderIsLeaf(m, n.children[i], key);
    }
  }

  /** After insert(key) on a valid tree, search(key) succeeds. */
  lemma InsertThenSearch(root: Node, key: nat, t: nat)
    requires IsBTree(root, t)
    ensures SearchFromNode(Inserted(root, key, t), key).Some?
  {
    InsertedCorrect(root, key, t);
    var r := Inserted(root, key, t);
    assert key in multiset(Keys(r));
    SearchComplete(r, key, t, true);
  }

  /** After insert(key) of a key the valid tree did not hold, search(key)
      finds it in a leaf. */
  lemma FreshKeyFoundInLeaf(root: Node, key: nat, t: nat)
    requires IsBTree(root, t) && key !in Keys(root)
    ensures var found := SearchFromNode(Inserted(root, key, t), key);
      found.Some? && found.value.0.leaf
  {
    InsertThenSearch(root, key, t);
    InsertedLeaves(root, key, t);
    var found := SearchFromNode(Inserted(root, key, t), key);
    var m, s := found.value.0, found.value.1;
    assert m.keys[s - 1] == key;
    ReachableHolderIsLeaf(m, Inserted(root, key, t), key);
  }

  /** The tree after inserting keys one after another, first to last. */
  ghost function InsertAll(root: Node, keys: seq<nat>, t: nat): (r: Node)
    requires 2 <= t && Shaped(root, t, true)
    ensures Shaped(r, t, true)
    decreases |keys|
  {
    if keys == [] then root
    else
      var prefix := InsertAll(root, keys[..|keys| - 1], t);
      InsertedShaped(prefix, keys[|keys| - 1], t);
      Inserted(prefix, keys[|keys| - 1], t)
  }

  /** One more key at the end of the sequence is one more insert. */
  lemma InsertAllStep(root: Node, keys: seq<nat>, i: nat, t: nat)
    requires 2 <= t && Shaped(root, t, true) && i < |keys|
    ensures InsertAll(root, keys[..i + 1], t) == Inserted(InsertAll(root, keys[..i], t), keys[i], t)
  {
    assert keys[..i + 1][..i] == keys[..i];
  }

  /** Inserting a sequence of keys into a valid tree gives a valid tree
      holding exactly the old keys and the inserted ones. */
  lemma {:induction false} InsertAllCorrect(root: Node, keys: seq<nat>, t: nat)
    requires IsBTree(root, t)
    ensures IsBTree(InsertAll(root, keys, t), t)
    ensures multiset(Keys(InsertAll(root, keys, t))) == multiset(Keys(root)) + multiset(keys)
    decreases |keys|
  {
    if keys != [] {
      var init, last := keys[..|keys| - 1], keys[|keys| - 1];
      InsertAllCorrect(root, init, t);
      var prefix := InsertAll(root, init, t);
      InsertedCorrect(prefix, last, t);
      assert InsertAll(root, keys, t) == Inserted(prefix, last, t);
      MultisetSnoc(multiset(Keys(root)), multiset(Keys(prefix)), multiset(Keys(Inserted(prefix, last, t))),
                   keys, init, last);
    }
  }

  lemma MultisetSnoc(m0: multiset<nat>, m1: multiset<nat>, m2: multiset<nat>,
                     keys: seq<nat>, init: seq<nat>, last: nat)
    requires |keys| > 0 && init == keys[..|keys| - 1] && last == keys[|keys| - 1]
    requires m1 == m0 + multiset(init) && m2 == m1 + multiset{last}
    ensures m2 == m0 + multiset(keys)
  {
    assert keys == init + [last];
  }

  /** insert adds no key other than its own: a bound on every key of a valid
      tree that the new key also meets still bounds every key after it. */
  lemma InsertedBound(root: Node, key: nat, t: nat, bound: nat)
    requires IsBTree(root, t) && key < bound && forall x :: x in Keys(root) ==> x < bound
    ensures forall x :: x in Keys(Inserted(root, key, t)) ==> x < bound
  {
    InsertedCorrect(root, key, t);
    BoundedByMultiset(Keys(Inserted(root, key, t)), Keys(root), key, bound);
  }

  lemma BoundedByMultiset(s: seq<nat>, s0: seq<nat>, key: nat, bound: nat)
    requires multiset(s) == multiset(s0) + multiset{key}
    requires key < bound && forall x :: x in s0 ==> x < bound
    ensures forall x :: x in s ==> x < bound
  {
    forall x | x in s ensures x < bound {
      assert x in multiset(s);
      if x != key {
        assert x in multiset(s0);
        assert x in s0;
      }
    }
  }
}
