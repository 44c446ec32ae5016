/** The B-tree invariants: node fan-out, uniform leaf depth, and the order of
    the in-order key sequence.

    The order is non-strict, as in CLRS 18.1.  Insertion stores duplicates, and splitting a
    full node whose keys are all equal puts that key into the parent and into
    both halves, so a key of a child may equal the separating key on either
    side.  "Keys in child[i] <= keys[i] <= keys in child[i+1]" is exactly what
    a non-decreasing in-order sequence says (see lemma Separation). */
module Shape {
  import opened Nodes

  ghost predicate Sorted(s: seq<nat>) {
    forall i, j :: 0 <= i < j < |s| ==> s[i] <= s[j]
  }

  /** The interleaving subs[0], ks[0], subs[1], ..., ks[k-1], subs[k]. */
  ghost function Inorder(ks: seq<nat>, subs: seq<seq<nat>>): seq<nat>
    decreases |ks|
  {
    if |subs| == 0 then []
    else if |ks| == 0 then subs[0]
    else subs[0] + [ks[0]] + Inorder(ks[1..], subs[1..])
  }

  /** The in-order key sequence of the subtree rooted at n. */
  ghost function Keys(n: Node): seq<nat>
    decreases n, 1
  {
    if n.leaf then n.keys else Inorder(n.keys, ChildKeys(n))
  }

  /** The in-order key sequences of n's children, child by child. */
  ghost function ChildKeys(n: Node): (r: seq<seq<nat>>)
    decreases n, 0
    ensures |r| == |n.children|
    ensures forall i :: 0 <= i < |n.children| ==> r[i] == Keys(n.children[i])
  {
    seq(|n.children|, i requires 0 <= i < |n.children| => Keys(n.children[i]))
  }

  /** The number of edges from n down to a leaf, following the first child. */
  ghost function Height(n: Node): nat
    decreases n
  {
    if n.leaf || |n.children| == 0 then 0 else 1 + Height(n.children[0])
  }

  /** Fan-out and depth: at most 2t-1 keys per node, at least t-1 below the
      root, no children at a leaf, one more child than keys at an internal
      node, and every child exactly one level below its parent (so all
      leaves lie at the same depth). */
  ghost predicate Shaped(n: Node, t: nat, isRoot: bool)
    decreases n
  {
    |n.keys| <= 2 * t - 1
    && (!isRoot ==> t - 1 <= |n.keys|)
    && (n.leaf ==> n.children == [])
    && (!n.leaf ==>
          |n.children| == |n.keys| + 1
          && forall i :: 0 <= i < |n.children| ==>
               Height(n.children[i]) + 1 == Height(n) && Shaped(n.children[i], t, false))
  }

  /** A valid B-tree of minimum degree t rooted at n. */
  ghost predicate IsBTree(n: Node, t: nat) {
    2 <= t && Shaped(n, t, true) && Sorted(Keys(n))
  }

  /** The part of an interleaving to the left of subs[i]. */
  ghost function Before(ks: seq<nat>, subs: seq<seq<nat>>, i: nat): seq<nat>
    requires |subs| == |ks| + 1 && i <= |ks|
  {
    if i == 0 then [] else Inorder(ks[..i - 1], subs[..i]) + [ks[i - 1]]
  }

  /** The part of an interleaving to the right of subs[i]. */
  ghost function After(ks: seq<nat>, subs: seq<seq<nat>>, i: nat): seq<nat>
    requires |subs| == |ks| + 1 && i <= |ks|
  {
    if i == |ks| then [] else [ks[i]] + Inorder(ks[i + 1..], subs[i + 1..])
  }

  /** Cutting an interleaving at the separating key ks[j]. */
  lemma {:induction false} InorderCut(ks: seq<nat>, subs: seq<seq<nat>>, j: nat)
    requires |subs| == |ks| + 1 && j < |ks|
    ensures Inorder(ks, subs)
         == Inorder(ks[..j], subs[..j + 1]) + [ks[j]] + Inorder(ks[j + 1..], subs[j + 1..])
    decreases j
  {
    if j > 0 {
      var ks1, subs1 := ks[1..], subs[1..];
      InorderCut(ks1, subs1, j - 1);
      assert ks1[..j - 1] == ks[..j][1..];
      assert subs1[..j] == subs[..j + 1][1..];
      assert ks1[j - 1] == ks[j];
      assert ks1[j..] == ks[j + 1..];
      assert subs1[j..] == subs[j + 1..];
      var left := Inorder(ks[..j], subs[..j + 1]);
      assert left == subs[0] + [ks[0]] + Inorder(ks1[..j - 1], subs1[..j]);
      Reassociate(Inorder(ks, subs), subs[0] + [ks[0]], Inorder(ks1, subs1),
                  Inorder(ks1[..j - 1], subs1[..j]), ks[j], Inorder(ks[j + 1..], subs[j + 1..]), left);
    }
  }

  /** Sequence bookkeeping for InorderCut. */
  lemma Reassociate(x: seq<nat>, h: seq<nat>, y: seq<nat>, a: seq<nat>, m: nat, b: seq<nat>, l: seq<nat>)
    requires x == h + y && y == a + [m] + b && l == h + a
    ensures x == l + [m] + b
  {
  }

  /** Isolating one sub-sequence of an interleaving. */
  lemma InorderAt(ks: seq<nat>, subs: seq<seq<nat>>, i: nat)
    requires |subs| == |ks| + 1 && i <= |ks|
    ensures Inorder(ks, subs) == Before(ks, subs, i) + subs[i] + After(ks, subs, i)
  {
    var rest := Inorder(ks[i..], subs[i..]);
    if i < |ks| {
      assert ks[i..][1..] == ks[i + 1..];
      assert subs[i..][1..] == subs[i + 1..];
      assert rest == subs[i] + After(ks, subs, i);
    } else {
      assert rest == subs[i];
    }
    if i > 0 {
      InorderCut(ks, subs, i - 1);
    } else {
      assert ks[i..] == ks && subs[i..] == subs;
    }
  }

  /** An interleaving starts with its first sub-sequence. */
  lemma InorderFront(ks: seq<nat>, b: seq<nat>, rest: seq<seq<nat>>)
    requires |rest| == |ks|
    ensures Inorder(ks, [b] + rest)
         == b + (if |ks| == 0 then [] else [ks[0]] + Inorder(ks[1..], rest))
  {
    if |ks| > 0 {
      assert ([b] + rest)[1..] == rest;
    }
  }

  /** Replacing subs[i] = A + [m] + B by the two sequences A and B with m
      between them leaves the interleaving unchanged: this is what a split
      does to the parent's in-order sequence. */
  lemma InorderSplice(ks: seq<nat>, subs: seq<seq<nat>>, i: nat, a: seq<nat>, m: nat, b: seq<nat>)
    requires |subs| == |ks| + 1 && i <= |ks| && subs[i] == a + [m] + b
    ensures Inorder(ks[..i] + [m] + ks[i..], subs[..i] + [a, b] + subs[i + 1..]) == Inorder(ks, subs)
  {
    var ks' := ks[..i] + [m] + ks[i..];
    var subs' := subs[..i] + [a, b] + subs[i + 1..];
    InorderAt(ks', subs', i);
    InorderAt(ks, subs, i);
    SpliceBefore(ks, subs, i, a, m, b);
    SpliceAfter(ks, subs, i, a, m, b);
    assert subs'[i] == a;
    Regroup(Inorder(ks', subs'), Inorder(ks, subs), Before(ks, subs, i), a, m, b, After(ks, subs, i),
            Before(ks', subs', i), After(ks', subs', i));
  }

  /** Sequence bookkeeping for InorderSplice, kept apart from the recursive
      definitions so that the solver does not unfold them. */
  lemma Regroup(x: seq<nat>, y: seq<nat>, pre: seq<nat>, a: seq<nat>, m: nat, b: seq<nat>,
                post: seq<nat>, pre': seq<nat>, post': seq<nat>)
    requires x == pre' + a + post' && y == pre + (a + [m] + b) + post
    requires pre' == pre && post' == [m] + b + post
    ensures x == y
  {
  }

  lemma SpliceBefore(ks: seq<nat>, subs: seq<seq<nat>>, i: nat, a: seq<nat>, m: nat, b: seq<nat>)
    requires |subs| == |ks| + 1 && i <= |ks|
    ensures Before(ks[..i] + [m] + ks[i..], subs[..i] + [a, b] + subs[i + 1..], i) == Before(ks, subs, i)
  {
    if i > 0 {
      var ks' := ks[..i] + [m] + ks[i..];
      var subs' := subs[..i] + [a, b] + subs[i + 1..];
      assert ks'[..i - 1] == ks[..i - 1];
      assert subs'[..i] == subs[..i];
      assert ks'[i - 1] == ks[i - 1];
    }
  }

  lemma SpliceAfter(ks: seq<nat>, subs: seq<seq<nat>>, i: nat, a: seq<nat>, m: nat, b: seq<nat>)
    requires |subs| == |ks| + 1 && i <= |ks|
    ensures After(ks[..i] + [m] + ks[i..], subs[..i] + [a, b] + subs[i + 1..], i)
         == [m] + b + After(ks, subs, i)
  {
    var ks' := ks[..i] + [m] + ks[i..];
    var subs' := subs[..i] + [a, b] + subs[i + 1..];
    assert ks'[i] == m;
    assert ks'[i + 1..] == ks[i..];
    assert subs'[i + 1..] == [b] + subs[i + 1..];
    InorderFront(ks[i..], b, subs[i + 1..]);
    if i < |ks| {
      assert ks[i..][1..] == ks[i + 1..];
    }
  }

  /** Sortedness of a concatenation, part by part. */
  lemma SortedParts(pre: seq<nat>, mid: seq<nat>, post: seq<nat>)
    requires Sorted(pre + mid + post)
    ensures Sorted(pre) && Sorted(mid) && Sorted(post)
    ensures forall x, y :: x in pre && y in mid ==> x <= y
    ensures forall x, y :: x in mid && y in post ==> x <= y
    ensures forall x, y :: x in pre && y in post ==> x <= y
  {
    var s := pre + mid + post;
    assert forall i :: 0 <= i < |pre| ==> s[i] == pre[i];
    assert forall i :: 0 <= i < |mid| ==> s[|pre| + i] == mid[i];
    assert forall i :: 0 <= i < |post| ==> s[|pre| + |mid| + i] == post[i];
    forall x, y | x in pre && y in mid ensures x <= y {
      var i :| 0 <= i < |pre| && pre[i] == x;
      var j :| 0 <= j < |mid| && mid[j] == y;
      assert s[i] <= s[|pre| + j];
    }
    forall x, y | x in mid && y in post ensures x <= y {
      var i :| 0 <= i < |mid| && mid[i] == x;
      var j :| 0 <= j < |post| && post[j] == y;
      assert s[|pre| + i] <= s[|pre| + |mid| + j];
    }
    forall x, y | x in pre && y in post ensures x <= y {
      var i :| 0 <= i < |pre| && pre[i] == x;
      var j :| 0 <= j < |post| && post[j] == y;
      assert s[i] <= s[|pre| + |mid| + j];
    }
  }

  /** A sorted concatenation whose parts are sorted and ordered across. */
  lemma SortedJoin(pre: seq<nat>, mid: seq<nat>, post: seq<nat>)
    requires Sorted(pre) && Sorted(mid) && Sorted(post)
    requires forall x, y :: x in pre && y in mid ==> x <= y
    requires forall x, y :: x in mid && y in post ==> x <= y
    requires forall x, y :: x in pre && y in post ==> x <= y
    ensures Sorted(pre + mid + post)
  {
    var s := pre + mid + post;
    forall i, j | 0 <= i < j < |s| ensures s[i] <= s[j] {
      if i < |pre| && j >= |pre| + |mid| {
        assert s[i] in pre && s[j] in post;
      } else if i < |pre| && j >= |pre| {
        assert s[i] in pre && s[j] in mid;
      } else if i >= |pre| && i < |pre| + |mid| && j >= |pre| + |mid| {
        assert s[i] in mid && s[j] in post;
      } else if i < |pre| {
        assert s[i] == pre[i] && s[j] == pre[j];
      } else if j < |pre| + |mid| {
        assert s[i] == mid[i - |pre|] && s[j] == mid[j - |pre|];
      } else {
        assert s[i] == post[i - |pre| - |mid|] && s[j] == post[j - |pre| - |mid|];
      }
    }
  }

  /** Replacing the middle of a sorted concatenation by a sorted sequence
      whose elements lie between the last of pre and the first of post keeps
      the whole sorted. */
  lemma SortedReplaceMiddle(pre: seq<nat>, mid: seq<nat>, mid': seq<nat>, post: seq<nat>)
    requires Sorted(pre + mid + post) && Sorted(mid')
    requires forall x :: x in mid' ==> (|pre| > 0 ==> pre[|pre| - 1] <= x)
    requires forall x :: x in mid' ==> (|post| > 0 ==> x <= post[0])
    ensures Sorted(pre + mid' + post)
  {
    SortedParts(pre, mid, post);
    forall x, y | x in pre && y in mid' ensures x <= y {
      var i :| 0 <= i < |pre| && pre[i] == x;
      assert pre[i] <= pre[|pre| - 1];
    }
    forall x, y | x in mid' && y in post ensures x <= y {
      var j :| 0 <= j < |post| && post[j] == y;
      assert post[0] <= post[j];
    }
    SortedJoin(pre, mid', post);
  }

  lemma SortedEnds(s: seq<nat>)
    requires Sorted(s) && |s| > 0
    ensures forall x :: x in s ==> s[0] <= x <= s[|s| - 1]
  {
    forall x | x in s ensures s[0] <= x <= s[|s| - 1] {
      var i :| 0 <= i < |s| && s[i] == x;
    }
  }

  /** An internal node's in-order sequence, cut around its i-th child. */
  lemma Decompose(n: Node, i: nat)
    requires !n.leaf && |n.children| == |n.keys| + 1 && i < |n.children|
    ensures Keys(n) == Before(n.keys, ChildKeys(n), i) + Keys(n.children[i]) + After(n.keys, ChildKeys(n), i)
  {
    InorderAt(n.keys, ChildKeys(n), i);
  }

  /** In a well-ordered internal node, the i-th child is well ordered, lies
      between the keys that surround it, and all of it, together with those
      keys, belongs to the node's in-order sequence. */
  lemma ChildOrder(n: Node, i: nat)
    requires !n.leaf && |n.children| == |n.keys| + 1 && i < |n.children| && Sorted(Keys(n))
    ensures Sorted(Keys(n.children[i]))
    ensures i > 0 ==> forall x :: x in Keys(n.children[i]) ==> n.keys[i - 1] <= x
    ensures i < |n.keys| ==> forall x :: x in Keys(n.children[i]) ==> x <= n.keys[i]
    ensures forall x :: x in Keys(n.children[i]) ==> x in Keys(n)
    ensures i > 0 ==> n.keys[i - 1] in Keys(n)
    ensures i < |n.keys| ==> n.keys[i] in Keys(n)
  {
    Decompose(n, i);
    var pre, post := Before(n.keys, ChildKeys(n), i), After(n.keys, ChildKeys(n), i);
    SortedParts(pre, Keys(n.children[i]), post);
    if i > 0 {
      assert n.keys[i - 1] in pre;
    }
    if i < |n.keys| {
      assert n.keys[i] in post;
    }
  }

  /** The ordering between subtrees: every key of child[i] is at most
      keys[i], which is at most every key of child[i+1]. */
  lemma Separation(n: Node, t: nat, i: nat)
    requires IsBTree(n, t) && !n.leaf && i < |n.keys|
    ensures forall x :: x in Keys(n.children[i]) ==> x <= n.keys[i]
    ensures var right := n.children[i + 1]; forall x :: x in Keys(right) ==> n.keys[i] <= x
  {
    ChildOrder(n, i);
    ChildOrder(n, i + 1);
  }

  /** A node's own keys are in non-decreasing order. */
  lemma NodeKeysSorted(n: Node)
    requires (n.leaf || |n.children| == |n.keys| + 1) && Sorted(Keys(n))
    ensures Sorted(n.keys)
  {
    if !n.leaf {
      forall j | 0 < j < |n.keys| ensures n.keys[j - 1] <= n.keys[j] {
        Decompose(n, j);
        var pre, post := Before(n.keys, ChildKeys(n), j), After(n.keys, ChildKeys(n), j);
        SortedParts(pre, Keys(n.children[j]), post);
        assert n.keys[j - 1] in pre && n.keys[j] in post;
      }
      AdjacentSorted(n.keys);
    }
  }

  lemma {:induction false} AdjacentSorted(s: seq<nat>)
    requires forall j :: 0 < j < |s| ==> s[j - 1] <= s[j]
    ensures Sorted(s)
  {
    if |s| > 1 {
      AdjacentSorted(s[..|s| - 1]);
      forall i | 0 <= i < |s| - 1 ensures s[i] <= s[|s| - 1] {
        assert s[..|s| - 1][i] == s[i];
        assert s[..|s| - 1][|s| - 2] == s[|s| - 2];
      }
    }
  }
}
