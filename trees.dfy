/** The BTree object: a root node and the minimum degree t, with search and
    insertion on it. */
module Trees {
  import opened Nodes
  import opened Shape
  import opened Search
  import opened Splitting
  import opened Insertion

  /** A tree with no keys is a valid B-tree of every degree t >= 2. */
  lemma EmptyValid(t: nat)
    requires 2 <= t
    ensures IsBTree(Empty(), t) && Keys(Empty()) == [] && Height(Empty()) == 0
  {
  }

  /** On a valid B-tree, search succeeds exactly for the keys the tree holds. */
  lemma SearchFinds(root: Node, key: nat, t: nat)
    ensures IsBTree(root, t) ==> (SearchFromNode(root, key).Some? <==> key in Keys(root))
  {
    if IsBTree(root, t) {
      SearchComplete(root, key, t, true);
    }
  }

  class BTree {
    var root: Node
    var degree: nat

    /** The tree is a valid B-tree of minimum degree `degree`. */
    ghost predicate Valid()
      reads this
    {
      IsBTree(root, degree)
    }

    /** BTree::degree: an empty leaf root with the given minimum degree. */
    constructor Degree(degree: nat)
      ensures this.root == Empty() && this.degree == degree
      ensures 2 <= degree ==> Valid()
    {
      this.root := Empty();
      this.degree := degree;
      if 2 <= degree {
        EmptyValid(degree);
      }
    }

    /** BTree::order: an empty leaf root whose minimum degree is half the
        order, rounded down. */
    constructor Order(order: nat)
      ensures root == Empty() && degree == order / 2
      ensures 4 <= order ==> Valid()
    {
      root := Empty();
      degree := order / 2;
      if 4 <= order {
        EmptyValid(order / 2);
      }
    }

    /** BTree::search: search from the root.  A hit names the node and the
        1-based slot holding the key; on a valid tree search succeeds
        exactly for the keys the tree holds.  Only reads the tree. */
    function Search(key: nat): (r: Option<(Node, nat)>)
      reads this
      ensures r.Some? ==> 1 <= r.value.1 <= |r.value.0.keys| && r.value.0.keys[r.value.1 - 1] == key
      ensures r.Some? ==> Reachable(r.value.0, root)
      ensures Valid() ==> (r.Some? <==> key in Keys(root))
    {
      SearchFinds(root, key, degree);
      SearchFromNode(root, key)
    }

    /** BTree::insert: a full root is swapped for a new empty internal root
        whose only child is the old root, which is then split; the key then
        goes in by insert_nonfull.  The tree stays valid, gains exactly one
        occurrence of key, and is one level higher exactly when the root
        was full. */
    method Insert(key: nat)
      requires Valid()
      modifies this
      ensures Valid() && degree == old(degree)
      ensures root == Inserted(old(root), key, degree)
      ensures multiset(Keys(root)) == multiset(Keys(old(root))) + multiset{key}
      ensures Height(root) == Height(old(root)) + (if |old(root).keys| == 2 * degree - 1 then 1 else 0)
    {
      if |root.keys| == degree * 2 - 1 {
        var newRoot := New([], [], false);
        newRoot, root := root, newRoot;
        root := root.(children := [newRoot] + root.children);
        GrowPreserves(newRoot, degree);
        root := SplitChild(root, 0, degree);
      }
      root := InsertNonfull(root, key, degree);
      InsertedCorrect(old(root), key, degree);
    }
  }
}
