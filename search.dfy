/** Search in a B-tree: descend from a node, one node per level, until the
    key is found or a leaf is reached. */
module Search {
  import opened Nodes
  import opened Shape

  datatype Option<T> = None | Some(value: T)

  /** The count-down scan shared by search and insertion: start at |keys| and
      step left while the key just before the index is greater than key.
      The result is the first slot to the right of every key <= key that
      ends the list. */
  function Slot(keys: seq<nat>, key: nat): (i: nat)
    ensures i <= |keys|
    ensures i > 0 ==> keys[i - 1] <= key
    ensures forall j :: i <= j < |keys| ==> key < keys[j]
  {
    if |keys| == 0 then 0
    else if key < keys[|keys| - 1] then Slot(keys[..|keys| - 1], key)
    else |keys|
  }

  /** The slot is the only position with no greater key just before it and
      only greater keys from it on. */
  lemma SlotUnique(keys: seq<nat>, key: nat, i: nat)
    requires i <= |keys| && (i > 0 ==> keys[i - 1] <= key)
    requires forall j :: i <= j < |keys| ==> key < keys[j]
    ensures i == Slot(keys, key)
  {
  }

  /** On sorted keys the scan stops at the number of keys <= key: every key
      before the slot is <= key and every key from it on is > key. */
  lemma SlotPartitions(keys: seq<nat>, key: nat)
    requires Sorted(keys)
    ensures forall j :: 0 <= j < Slot(keys, key) ==> keys[j] <= key
    ensures forall j :: Slot(keys, key) <= j < |keys| ==> key < keys[j]
  {
    var i := Slot(keys, key);
    forall j | 0 <= j < i ensures keys[j] <= key {
      assert keys[j] <= keys[i - 1];
    }
  }

  /** m is n itself or a node somewhere below it. */
  ghost predicate Reachable(m: Node, n: Node)
    decreases n
  {
    m == n || exists i :: 0 <= i < |n.children| && Reachable(m, n.children[i])
  }

  /** Search from node n.  A hit returns the node holding the key and the
      1-based slot of the key in it; a miss at a leaf returns None, and so
      does a missing child. */
  function SearchFromNode(n: Node, key: nat): (r: Option<(Node, nat)>)
    ensures r.Some? ==> 1 <= r.value.1 <= |r.value.0.keys| && r.value.0.keys[r.value.1 - 1] == key
    ensures r.Some? ==> Reachable(r.value.0, n)
    decreases n
  {
    var i := Slot(n.keys, key);
    if i > 0 && key == n.keys[i - 1] then Some((n, i))
    else if n.leaf then None
    else if i < |n.children| then SearchFromNode(n.children[i], key)
    else None
  }

  /** On a well-formed, well-ordered subtree, search succeeds exactly for the
      keys the subtree holds. */
  lemma {:induction false} SearchComplete(n: Node, key: nat, t: nat, isRoot: bool)
    requires Shaped(n, t, isRoot) && Sorted(Keys(n))
    ensures SearchFromNode(n, key).Some? <==> key in Keys(n)
    decreases n
  {
    var i := Slot(n.keys, key);
    if i > 0 && key == n.keys[i - 1] {
      if !n.leaf {
        ChildOrder(n, i - 1);
      }
    } else if n.leaf {
      SlotPartitions(n.keys, key);
      assert key !in n.keys;
    } else {
      MissDescends(n, key, t, isRoot);
      SearchComplete(n.children[i], key, t, false);
    }
  }

  /** When the slot does not hold the key, an internal node holds the key
      exactly when the child at the slot does, and that child is sorted. */
  lemma MissDescends(n: Node, key: nat, t: nat, isRoot: bool)
    requires Shaped(n, t, isRoot) && Sorted(Keys(n)) && !n.leaf
    requires var i := Slot(n.keys, key); !(i > 0 && key == n.keys[i - 1])
    ensures var i := Slot(n.keys, key);
      i < |n.children| && Shaped(n.children[i], t, false) && Sorted(Keys(n.children[i]))
      && (key in Keys(n) <==> key in Keys(n.children[i]))
  {
    var i := Slot(n.keys, key);
    ChildOrder(n, i);
    Decompose(n, i);
    var pre, post := Before(n.keys, ChildKeys(n), i), After(n.keys, ChildKeys(n), i);
    SortedParts(pre, Keys(n.children[i]), post);
    if i > 0 {
      SortedEnds(pre);
      assert key !in pre;
    }
    if i < |n.keys| {
      SortedEnds(post);
      assert key !in post;
    }
  }
}
