/** The assertions of the repository's tests, restated as lemmas and
    methods: keys 1 to 19 inserted in order into a tree of minimum degree 3
    (fill_btree, used by the search test and mirrored by the demo program),
    and arbitrary keys below 100 followed by 101 (the random filling test,
    whose random keys become a parameter). */
module Scenarios {
  import opened Nodes
  import opened Shape
  import opened Search
  import opened Splitting
  import opened Insertion
  import opened Trees
  import opened Properties

  /** The leaf holding keys, as Node::new(keys, vec![], true) builds it;
      shorthand for the trees below. */
  function Leaf(keys: seq<nat>): (n: Node)
    ensures n.leaf && n.keys == keys && n.children == []
  {
    Node(keys, [], true)
  }

  /** The tree after inserting 1, ..., 6 into an empty tree of degree 3. */
  function After6(): Node {
    Node([3], [Leaf([1, 2]), Leaf([4, 5, 6])], false)
  }

  /** The tree after inserting 1, ..., 7 into an empty tree of degree 3. */
  function After7(): Node {
    Node([3], [Leaf([1, 2]), Leaf([4, 5, 6, 7])], false)
  }

  /** The tree after inserting 1, ..., 8 into an empty tree of degree 3. */
  function After8(): Node {
    Node([3], [Leaf([1, 2]), Leaf([4, 5, 6, 7, 8])], false)
  }

  /** The tree After8() with its full child 1 split. */
  function After8Split(): Node {
    Node([3, 6], [Leaf([1, 2]), Leaf([4, 5]), Leaf([7, 8])], false)
  }

  /** The tree after inserting 1, ..., 9 into an empty tree of degree 3. */
  function After9(): Node {
    Node([3, 6], [Leaf([1, 2]), Leaf([4, 5]), Leaf([7, 8, 9])], false)
  }

  /** The tree after inserting 1, ..., 10 into an empty tree of degree 3. */
  function After10(): Node {
    Node([3, 6], [Leaf([1, 2]), Leaf([4, 5]), Leaf([7, 8, 9, 10])], false)
  }

  /** The tree after inserting 1, ..., 11 into an empty tree of degree 3. */
  function After11(): Node {
    Node([3, 6], [Leaf([1, 2]), Leaf([4, 5]), Leaf([7, 8, 9, 10, 11])], false)
  }

  /** The tree After11() with its full child 2 split. */
  function After11Split(): Node {
    Node([3, 6, 9], [Leaf([1, 2]), Leaf([4, 5]), Leaf([7, 8]), Leaf([10, 11])], false)
  }

  /** The tree after inserting 1, ..., 12 into an empty tree of degree 3. */
  function After12(): Node {
    Node([3, 6, 9], [Leaf([1, 2]), Leaf([4, 5]), Leaf([7, 8]), Leaf([10, 11, 12])], false)
  }

  /** The tree after inserting 1, ..., 13 into an empty tree of degree 3. */
  function After13(): Node {
    Node([3, 6, 9], [Leaf([1, 2]), Leaf([4, 5]), Leaf([7, 8]), Leaf([10, 11, 12, 13])], false)
  }

  /** The tree after inserting 1, ..., 14 into an empty tree of degree 3. */
  function After14(): Node {
    Node([3, 6, 9], [
      Leaf([1, 2]),
      Leaf([4, 5]),
      Leaf([7, 8]),
      Leaf([10, 11, 12, 13, 14])], false)
  }

  /** The tree After14() with its full child 3 split. */
  function After14Split(): Node {
    Node([3, 6, 9, 12], [
      Leaf([1, 2]),
      Leaf([4, 5]),
      Leaf([7, 8]),
      Leaf([10, 11]),
      Leaf([13, 14])], false)
  }

  /** The tree after inserting 1, ..., 15 into an empty tree of degree 3. */
  function After15(): Node {
    Node([3, 6, 9, 12], [
      Leaf([1, 2]),
      Leaf([4, 5]),
      Leaf([7, 8]),
      Leaf([10, 11]),
      Leaf([13, 14, 15])], false)
  }

  /** The tree after inserting 1, ..., 16 into an empty tree of degree 3. */
  function After16(): Node {
    Node([3, 6, 9, 12], [
      Leaf([1, 2]),
      Leaf([4, 5]),
      Leaf([7, 8]),
      Leaf([10, 11]),
      Leaf([13, 14, 15, 16])], false)
  }

  /** The tree after inserting 1, ..., 17 into an empty tree of degree 3. */
  function After17(): Node {
    Node([3, 6, 9, 12], [
      Leaf([1, 2]),
      Leaf([4, 5]),
      Leaf([7, 8]),
      Leaf([10, 11]),
      Leaf([13, 14, 15, 16, 17])], false)
  }

  /** The tree After17() with its full child 4 split. */
  function After17Split(): Node {
    Node([3, 6, 9, 12, 15], [
      Leaf([1, 2]),
      Leaf([4, 5]),
      Leaf([7, 8]),
      Leaf([10, 11]),
      Leaf([13, 14]),
      Leaf([16, 17])], false)
  }

  /** The tree after inserting 1, ..., 18 into an empty tree of degree 3. */
  function After18(): Node {
    Node([3, 6, 9, 12, 15], [
      Leaf([1, 2]),
      Leaf([4, 5]),
      Leaf([7, 8]),
      Leaf([10, 11]),
      Leaf([13, 14]),
      Leaf([16, 17, 18])], false)
  }

  /** The tree After18() pushed under a new root and split there. */
  function After18Grown(): Node {
    Node([9], [
      Node([3, 6], [Leaf([1, 2]), Leaf([4, 5]), Leaf([7, 8])], false),
      Node([12, 15], [Leaf([10, 11]), Leaf([13, 14]), Leaf([16, 17, 18])], false)], false)
  }

  /** The tree after inserting 1, 2, ..., 19 into an empty tree of degree 3:
      the root [9] over [3, 6] and [12, 15], over six leaves. */
  function NineteenKeys(): Node {
    Node([9], [
      Node([3, 6], [Leaf([1, 2]), Leaf([4, 5]), Leaf([7, 8])], false),
      Node([12, 15], [Leaf([10, 11]), Leaf([13, 14]), Leaf([16, 17, 18, 19])], false)], false)
  }

  /** An internal node whose children are leaves of legal size is well
      formed at height 1. */
  lemma LeafParentShaped(n: Node, t: nat)
    requires !n.leaf && |n.keys| <= 2 * t - 1 && |n.children| == |n.keys| + 1
    requires forall i :: 0 <= i < |n.children| ==>
      n.children[i].leaf && n.children[i].children == [] && t - 1 <= |n.children[i].keys| <= 2 * t - 1
    ensures Shaped(n, t, true) && Height(n) == 1
  {
    forall i | 0 <= i < |n.children|
      ensures Height(n.children[i]) + 1 == Height(n) && Shaped(n.children[i], t, false)
    {
      assert Height(n.children[i]) == 0;
    }
  }

  // One lemma per insertion of the run 1..19: the tree after it, with the
  // scans and splits on the way.

  lemma Step1()
    ensures Shaped(Empty(), 3, true)
    ensures Inserted(Empty(), 1, 3) == Leaf([1])
  {
    assert Slot([], 1) == 0;
    assert InsertedNonfull(Empty(), 1, 3) == Leaf([1]);
  }

  lemma Fill1()
    ensures InsertAll(Empty(), [1], 3) == Leaf([1])
  {
    assert [1][..0] == [];
    Step1();
    InsertAllStep(Empty(), [1], 0, 3);
  }

  lemma Step2()
    ensures Shaped(Leaf([1]), 3, true)
    ensures Inserted(Leaf([1]), 2, 3) == Leaf([1, 2])
  {
    assert Slot([1], 2) == 1;
    assert InsertedNonfull(Leaf([1]), 2, 3) == Leaf([1, 2]);
  }

  lemma Fill2()
    ensures InsertAll(Empty(), [1, 2], 3) == Leaf([1, 2])
  {
    Fill1();
    assert [1, 2][..1] == [1];
    Step2();
    InsertAllStep(Empty(), [1, 2], 1, 3);
  }

  lemma Step3()
    ensures Shaped(Leaf([1, 2]), 3, true)
    ensures Inserted(Leaf([1, 2]), 3, 3) == Leaf([1, 2, 3])
  {
    assert Slot([1, 2], 3) == 2;
    assert InsertedNonfull(Leaf([1, 2]), 3, 3) == Leaf([1, 2, 3]);
  }

  lemma Fill3()
    ensures InsertAll(Empty(), [1, 2, 3], 3) == Leaf([1, 2, 3])
  {
    Fill2();
    assert [1, 2, 3][..2] == [1, 2];
    Step3();
    InsertAllStep(Empty(), [1, 2, 3], 2, 3);
  }

  lemma Step4()
    ensures Shaped(Leaf([1, 2, 3]), 3, true)
    ensures Inserted(Leaf([1, 2, 3]), 4, 3) == Leaf([1, 2, 3, 4])
  {
    assert Slot([1, 2, 3], 4) == 3;
    assert InsertedNonfull(Leaf([1, 2, 3]), 4, 3) == Leaf([1, 2, 3, 4]);
  }

  lemma Fill4()
    ensures InsertAll(Empty(), [1, 2, 3, 4], 3) == Leaf([1, 2, 3, 4])
  {
    Fill3();
    assert [1, 2, 3, 4][..3] == [1, 2, 3];
    Step4();
    InsertAllStep(Empty(), [1, 2, 3, 4], 3, 3);
  }

  lemma Step5()
    ensures Shaped(Leaf([1, 2, 3, 4]), 3, true)
    ensures Inserted(Leaf([1, 2, 3, 4]), 5, 3) == Leaf([1, 2, 3, 4, 5])
  {
    assert Slot([1, 2, 3, 4], 5) == 4;
    assert InsertedNonfull(Leaf([1, 2, 3, 4]), 5, 3) == Leaf([1, 2, 3, 4, 5]);
  }

  lemma Fill5()
    ensures InsertAll(Empty(), [1, 2, 3, 4, 5], 3) == Leaf([1, 2, 3, 4, 5])
  {
    Fill4();
    assert [1, 2, 3, 4, 5][..4] == [1, 2, 3, 4];
    Step5();
    InsertAllStep(Empty(), [1, 2, 3, 4, 5], 4, 3);
  }

  lemma Grow6()
    ensures Shaped(Leaf([1, 2, 3, 4, 5]), 3, true)
            && Grown(Leaf([1, 2, 3, 4, 5]), 3) == Node([3], [Leaf([1, 2]), Leaf([4, 5])], false)
            && Shaped(Node([3], [Leaf([1, 2]), Leaf([4, 5])], false), 3, true)
  {
    assert [1, 2, 3, 4, 5][..2] == [1, 2] && [1, 2, 3, 4, 5][3..] == [4, 5];
    assert Grown(Leaf([1, 2, 3, 4, 5]), 3) == Node([3], [Leaf([1, 2]), Leaf([4, 5])], false);
    GrowPreserves(Leaf([1, 2, 3, 4, 5]), 3);
  }

  lemma Descend6()
    requires Shaped(Node([3], [Leaf([1, 2]), Leaf([4, 5])], false), 3, true)
    ensures InsertedNonfull(Node([3], [Leaf([1, 2]), Leaf([4, 5])], false), 6, 3) == After6()
  {
    assert Slot([3], 6) == 1;
    assert Slot([4, 5], 6) == 2;
    assert InsertedNonfull(Leaf([4, 5]), 6, 3) == Leaf([4, 5, 6]);
    LeafParentShaped(Node([3], [Leaf([1, 2]), Leaf([4, 5])], false), 3);
    assert InsertedNonfull(Node([3], [Leaf([1, 2]), Leaf([4, 5])], false), 6, 3) == After6();
  }

  lemma Step6()
    ensures Shaped(Leaf([1, 2, 3, 4, 5]), 3, true)
    ensures Inserted(Leaf([1, 2, 3, 4, 5]), 6, 3) == After6()
  {
    Grow6();
    Descend6();
  }

  lemma Fill6()
    ensures InsertAll(Empty(), [1, 2, 3, 4, 5, 6], 3) == After6()
  {
    Fill5();
    assert [1, 2, 3, 4, 5, 6][..5] == [1, 2, 3, 4, 5];
    Step6();
    InsertAllStep(Empty(), [1, 2, 3, 4, 5, 6], 5, 3);
  }

  lemma Step7()
    ensures Shaped(After6(), 3, true)
    ensures Inserted(After6(), 7, 3) == After7()
  {
    LeafParentShaped(After6(), 3);
    assert Slot([3], 7) == 1;
    assert Slot([4, 5, 6], 7) == 3;
    assert InsertedNonfull(Leaf([4, 5, 6]), 7, 3) == Leaf([4, 5, 6, 7]);
    assert InsertedNonfull(After6(), 7, 3) == After7();
  }

  lemma Fill7()
    ensures InsertAll(Empty(), [1, 2, 3, 4, 5, 6, 7], 3) == After7()
  {
    Fill6();
    assert [1, 2, 3, 4, 5, 6, 7][..6] == [1, 2, 3, 4, 5, 6];
    Step7();
    InsertAllStep(Empty(), [1, 2, 3, 4, 5, 6, 7], 6, 3);
  }

  lemma Step8()
    ensures Shaped(After7(), 3, true)
    ensures Inserted(After7(), 8, 3) == After8()
  {
    LeafParentShaped(After7(), 3);
    assert Slot([3], 8) == 1;
    assert Slot([4, 5, 6, 7], 8) == 4;
    assert InsertedNonfull(Leaf([4, 5, 6, 7]), 8, 3) == Leaf([4, 5, 6, 7, 8]);
    assert InsertedNonfull(After7(), 8, 3) == After8();
  }

  lemma Fill8()
    ensures InsertAll(Empty(), [1, 2, 3, 4, 5, 6, 7, 8], 3) == After8()
  {
    Fill7();
    assert [1, 2, 3, 4, 5, 6, 7, 8][..7] == [1, 2, 3, 4, 5, 6, 7];
    Step8();
    InsertAllStep(Empty(), [1, 2, 3, 4, 5, 6, 7, 8], 7, 3);
  }

  lemma Split9()
    ensures Split(After8(), 1, 3) == After8Split()
  {
    assert [4, 5, 6, 7, 8][..2] == [4, 5] && [4, 5, 6, 7, 8][3..] == [7, 8];
    assert [3][..1] == [3] && [3][1..] == [];
    assert [Leaf([1, 2]), Leaf([4, 5, 6, 7, 8])][..1] == [Leaf([1, 2])]
           && [Leaf([1, 2]), Leaf([4, 5, 6, 7, 8])][2..] == [];
  }

  lemma Step9()
    ensures Shaped(After8(), 3, true)
    ensures Inserted(After8(), 9, 3) == After9()
  {
    LeafParentShaped(After8(), 3);
    assert Slot([3], 9) == 1;
    Split9();
    assert Slot([7, 8], 9) == 2;
    assert InsertedNonfull(Leaf([7, 8]), 9, 3) == Leaf([7, 8, 9]);
    assert InsertedNonfull(After8(), 9, 3) == After9();
  }

  lemma Fill9()
    ensures InsertAll(Empty(), [1, 2, 3, 4, 5, 6, 7, 8, 9], 3) == After9()
  {
    Fill8();
    assert [1, 2, 3, 4, 5, 6, 7, 8, 9][..8] == [1, 2, 3, 4, 5, 6, 7, 8];
    Step9();
    InsertAllStep(Empty(), [1, 2, 3, 4, 5, 6, 7, 8, 9], 8, 3);
  }

  lemma Step10()
    ensures Shaped(After9(), 3, true)
    ensures Inserted(After9(), 10, 3) == After10()
  {
    LeafParentShaped(After9(), 3);
    assert Slot([3, 6], 10) == 2;
    assert Slot([7, 8, 9], 10) == 3;
    assert InsertedNonfull(Leaf([7, 8, 9]), 10, 3) == Leaf([7, 8, 9, 10]);
    assert InsertedNonfull(After9(), 10, 3) == After10();
  }

  lemma Fill10()
    ensures InsertAll(Empty(), [1, 2, 3, 4, 5, 6, 7, 8, 9, 10], 3) == After10()
  {
    Fill9();
    assert [1, 2, 3, 4, 5, 6, 7, 8, 9, 10][..9] == [1, 2, 3, 4, 5, 6, 7, 8, 9];
    Step10();
    InsertAllStep(Empty(), [1, 2, 3, 4, 5, 6, 7, 8, 9, 10], 9, 3);
  }

  lemma Step11()
    ensures Shaped(After10(), 3, true)
    ensures Inserted(After10(), 11, 3) == After11()
  {
    LeafParentShaped(After10(), 3);
    assert Slot([3, 6], 11) == 2;
    assert Slot([7, 8, 9, 10], 11) == 4;
    assert InsertedNonfull(Leaf([7, 8, 9, 10]), 11, 3) == Leaf([7, 8, 9, 10, 11]);
    assert InsertedNonfull(After10(), 11, 3) == After11();
  }

  lemma Fill11()
    ensures InsertAll(Empty(), [1, 2, 3, 4, 5, 6, 7, 8, 9, 10, 11], 3) == After11()
  {
    Fill10();
    assert [1, 2, 3, 4, 5, 6, 7, 8, 9, 10, 11][..10] == [1, 2, 3, 4, 5, 6, 7, 8, 9, 10];
    Step11();
    InsertAllStep(Empty(), [1, 2, 3, 4, 5, 6, 7, 8, 9, 10, 11], 10, 3);
  }

  lemma Split12()
    ensures Split(After11(), 2, 3) == After11Split()
  {
    assert [7, 8, 9, 10, 11][..2] == [7, 8] && [7, 8, 9, 10, 11][3..] == [10, 11];
    assert [3, 6][..2] == [3, 6] && [3, 6][2..] == [];
    assert [Leaf([1, 2]), Leaf([4, 5]), Leaf([7, 8, 9, 10, 11])][..2]
        == [Leaf([1, 2]), Leaf([4, 5])]
           && [Leaf([1, 2]), Leaf([4, 5]), Leaf([7, 8, 9, 10, 11])][3..] == [];
  }

  lemma Step12()
    ensures Shaped(After11(), 3, true)
    ensures Inserted(After11(), 12, 3) == After12()
  {
    LeafParentShaped(After11(), 3);
    assert Slot([3, 6], 12) == 2;
    Split12();
    assert Slot([10, 11], 12) == 2;
    assert InsertedNonfull(Leaf([10, 11]), 12, 3) == Leaf([10, 11, 12]);
    assert InsertedNonfull(After11(), 12, 3) == After12();
  }

  lemma Fill12()
    ensures InsertAll(Empty(), [1, 2, 3, 4, 5, 6, 7, 8, 9, 10, 11, 12], 3) == After12()
  {
    Fill11();
    assert [1, 2, 3, 4, 5, 6, 7, 8, 9, 10, 11, 12][..11] == [1, 2, 3, 4, 5, 6, 7, 8, 9, 10, 11];
    Step12();
    InsertAllStep(Empty(), [1, 2, 3, 4, 5, 6, 7, 8, 9, 10, 11, 12], 11, 3);
  }

  lemma Step13()
    ensures Shaped(After12(), 3, true)
    ensures Inserted(After12(), 13, 3) == After13()
  {
    LeafParentShaped(After12(), 3);
    assert Slot([3, 6, 9], 13) == 3;
    assert Slot([10, 11, 12], 13) == 3;
    assert InsertedNonfull(Leaf([10, 11, 12]), 13, 3) == Leaf([10, 11, 12, 13]);
    assert InsertedNonfull(After12(), 13, 3) == After13();
  }

  lemma Fill13()
    ensures InsertAll(Empty(), [1, 2, 3, 4, 5, 6, 7, 8, 9, 10, 11, 12, 13], 3) == After13()
  {
    Fill12();
    assert [1, 2, 3, 4, 5, 6, 7, 8, 9, 10, 11, 12, 13][..12]
        == [1, 2, 3, 4, 5, 6, 7, 8, 9, 10, 11, 12];
    Step13();
    InsertAllStep(Empty(), [1, 2, 3, 4, 5, 6, 7, 8, 9, 10, 11, 12, 13], 12, 3);
  }

  lemma Step14()
    ensures Shaped(After13(), 3, true)
    ensures Inserted(After13(), 14, 3) == After14()
  {
    LeafParentShaped(After13(), 3);
    assert Slot([3, 6, 9], 14) == 3;
    assert Slot([10, 11, 12, 13], 14) == 4;
    assert InsertedNonfull(Leaf([10, 11, 12, 13]), 14, 3) == Leaf([10, 11, 12, 13, 14]);
    assert InsertedNonfull(After13(), 14, 3) == After14();
  }

  lemma Fill14()
    ensures InsertAll(Empty(), [1, 2, 3, 4, 5, 6, 7, 8, 9, 10, 11, 12, 13, 14], 3) == After14()
  {
    Fill13();
    assert [1, 2, 3, 4, 5, 6, 7, 8, 9, 10, 11, 12, 13, 14][..13]
        == [1, 2, 3, 4, 5, 6, 7, 8, 9, 10, 11, 12, 13];
    Step14();
    InsertAllStep(Empty(), [1, 2, 3, 4, 5, 6, 7, 8, 9, 10, 11, 12, 13, 14], 13, 3);
  }

  lemma Split15()
    ensures Split(After14(), 3, 3) == After14Split()
  {
    assert [10, 11, 12, 13, 14][..2] == [10, 11] && [10, 11, 12, 13, 14][3..] == [13, 14];
    assert [3, 6, 9][..3] == [3, 6, 9] && [3, 6, 9][3..] == [];
    assert [Leaf([1, 2]), Leaf([4, 5]), Leaf([7, 8]), Leaf([10, 11, 12, 13, 14])][..3]
        == [Leaf([1, 2]), Leaf([4, 5]), Leaf([7, 8])]
           && [Leaf([1, 2]), Leaf([4, 5]), Leaf([7, 8]), Leaf([10, 11, 12, 13, 14])][4..] == [];
  }

  lemma Step15()
    ensures Shaped(After14(), 3, true)
    ensures Inserted(After14(), 15, 3) == After15()
  {
    LeafParentShaped(After14(), 3);
    assert Slot([3, 6, 9], 15) == 3;
    Split15();
    assert Slot([13, 14], 15) == 2;
    assert InsertedNonfull(Leaf([13, 14]), 15, 3) == Leaf([13, 14, 15]);
    assert InsertedNonfull(After14(), 15, 3) == After15();
  }

  lemma Fill15()
    ensures InsertAll(Empty(), [1, 2, 3, 4, 5, 6, 7, 8, 9, 10, 11, 12, 13, 14, 15], 3) == After15()
  {
    Fill14();
    assert [1, 2, 3, 4, 5, 6, 7, 8, 9, 10, 11, 12, 13, 14, 15][..14]
        == [1, 2, 3, 4, 5, 6, 7, 8, 9, 10, 11, 12, 13, 14];
    Step15();
    InsertAllStep(Empty(), [1, 2, 3, 4, 5, 6, 7, 8, 9, 10, 11, 12, 13, 14, 15], 14, 3);
  }

  lemma Step16()
    ensures Shaped(After15(), 3, true)
    ensures Inserted(After15(), 16, 3) == After16()
  {
    LeafParentShaped(After15(), 3);
    assert Slot([3, 6, 9, 12], 16) == 4;
    assert Slot([13, 14, 15], 16) == 3;
    assert InsertedNonfull(Leaf([13, 14, 15]), 16, 3) == Leaf([13, 14, 15, 16]);
    assert InsertedNonfull(After15(), 16, 3) == After16();
  }

  lemma Fill16()
    ensures InsertAll(Empty(), [1, 2, 3, 4, 5, 6, 7, 8, 9, 10, 11, 12, 13, 14, 15, 16], 3)
        == After16()
  {
    Fill15();
    assert [1, 2, 3, 4, 5, 6, 7, 8, 9, 10, 11, 12, 13, 14, 15, 16][..15]
        == [1, 2, 3, 4, 5, 6, 7, 8, 9, 10, 11, 12, 13, 14, 15];
    Step16();
    InsertAllStep(Empty(), [1, 2, 3, 4, 5, 6, 7, 8, 9, 10, 11, 12, 13, 14, 15, 16], 15, 3);
  }

  lemma Step17()
    ensures Shaped(After16(), 3, true)
    ensures Inserted(After16(), 17, 3) == After17()
  {
    LeafParentShaped(After16(), 3);
    assert Slot([3, 6, 9, 12], 17) == 4;
    assert Slot([13, 14, 15, 16], 17) == 4;
    assert InsertedNonfull(Leaf([13, 14, 15, 16]), 17, 3) == Leaf([13, 14, 15, 16, 17]);
    assert InsertedNonfull(After16(), 17, 3) == After17();
  }

  lemma Fill17()
    ensures InsertAll(Empty(), [1, 2, 3, 4, 5, 6, 7, 8, 9, 10, 11, 12, 13, 14, 15, 16, 17], 3)
        == After17()
  {
    Fill16();
    assert [1, 2, 3, 4, 5, 6, 7, 8, 9, 10, 11, 12, 13, 14, 15, 16, 17][..16]
        == [1, 2, 3, 4, 5, 6, 7, 8, 9, 10, 11, 12, 13, 14, 15, 16];
    Step17();
    InsertAllStep(Empty(), [1, 2, 3, 4, 5, 6, 7, 8, 9, 10, 11, 12, 13, 14, 15, 16, 17], 16, 3);
  }

  lemma Split18()
    ensures Split(After17(), 4, 3) == After17Split()
  {
    assert [13, 14, 15, 16, 17][..2] == [13, 14] && [13, 14, 15, 16, 17][3..] == [16, 17];
    assert [3, 6, 9, 12][..4] == [3, 6, 9, 12] && [3, 6, 9, 12][4..] == [];
    assert [Leaf([1, 2]), Leaf([4, 5]), Leaf([7, 8]), Leaf([10, 11]), Leaf([13, 14, 15, 16, 17])][..4]
        == [Leaf([1, 2]), Leaf([4, 5]), Leaf([7, 8]), Leaf([10, 11])]
           && [Leaf([1, 2]), Leaf([4, 5]), Leaf([7, 8]), Leaf([10, 11]), Leaf([13, 14, 15, 16, 17])][5..]
               == [];
  }

  lemma Step18()
    ensures Shaped(After17(), 3, true)
    ensures Inserted(After17(), 18, 3) == After18()
  {
    LeafParentShaped(After17(), 3);
    assert Slot([3, 6, 9, 12], 18) == 4;
    Split18();
    assert Slot([16, 17], 18) == 2;
    assert InsertedNonfull(Leaf([16, 17]), 18, 3) == Leaf([16, 17, 18]);
    assert InsertedNonfull(After17(), 18, 3) == After18();
  }

  lemma Fill18()
    ensures InsertAll(Empty(), [1, 2, 3, 4, 5, 6, 7, 8, 9, 10, 11, 12, 13, 14, 15, 16, 17, 18], 3)
        == After18()
  {
    Fill17();
    assert [1, 2, 3, 4, 5, 6, 7, 8, 9, 10, 11, 12, 13, 14, 15, 16, 17, 18][..17]
        == [1, 2, 3, 4, 5, 6, 7, 8, 9, 10, 11, 12, 13, 14, 15, 16, 17];
    Step18();
    InsertAllStep(Empty(), [1, 2, 3, 4, 5, 6, 7, 8, 9, 10, 11, 12, 13, 14, 15, 16, 17, 18], 17, 3);
  }

  lemma Grow19()
    ensures Shaped(After18(), 3, true)
            && Grown(After18(), 3) == After18Grown()
            && Shaped(After18Grown(), 3, true)
  {
    LeafParentShaped(After18(), 3);
    assert [3, 6, 9, 12, 15][..2] == [3, 6] && [3, 6, 9, 12, 15][3..] == [12, 15];
    assert [Leaf([1, 2]), Leaf([4, 5]), Leaf([7, 8]), Leaf([10, 11]), Leaf([13, 14]), Leaf([16, 17, 18])][..3]
        == [Leaf([1, 2]), Leaf([4, 5]), Leaf([7, 8])]
           && [Leaf([1, 2]), Leaf([4, 5]), Leaf([7, 8]), Leaf([10, 11]), Leaf([13, 14]), Leaf([16, 17, 18])][3..]
               == [Leaf([10, 11]), Leaf([13, 14]), Leaf([16, 17, 18])];
    assert Grown(After18(), 3) == After18Grown();
    GrowPreserves(After18(), 3);
  }

  lemma Descend19()
    requires Shaped(After18Grown(), 3, true)
    ensures InsertedNonfull(After18Grown(), 19, 3) == NineteenKeys()
  {
    assert Slot([9], 19) == 1;
    assert Slot([12, 15], 19) == 2;
    assert Slot([16, 17, 18], 19) == 3;
    assert InsertedNonfull(Leaf([16, 17, 18]), 19, 3) == Leaf([16, 17, 18, 19]);
    LeafParentShaped(Node([12, 15], [Leaf([10, 11]), Leaf([13, 14]), Leaf([16, 17, 18])], false), 3);
    assert InsertedNonfull(Node([12, 15], [Leaf([10, 11]), Leaf([13, 14]), Leaf([16, 17, 18])], false), 19, 3)
        == Node([12, 15], [Leaf([10, 11]), Leaf([13, 14]), Leaf([16, 17, 18, 19])], false);
    assert InsertedNonfull(After18Grown(), 19, 3) == NineteenKeys();
  }

  lemma Step19()
    ensures Shaped(After18(), 3, true)
    ensures Inserted(After18(), 19, 3) == NineteenKeys()
  {
    Grow19();
    Descend19();
  }

  lemma Fill19()
    ensures InsertAll(Empty(), [1, 2, 3, 4, 5, 6, 7, 8, 9, 10, 11, 12, 13, 14, 15, 16, 17, 18, 19], 3)
        == NineteenKeys()
  {
    Fill18();
    assert [1, 2, 3, 4, 5, 6, 7, 8, 9, 10, 11, 12, 13, 14, 15, 16, 17, 18, 19][..18]
        == [1, 2, 3, 4, 5, 6, 7, 8, 9, 10, 11, 12, 13, 14, 15, 16, 17, 18];
    Step19();
    InsertAllStep(Empty(), [1, 2, 3, 4, 5, 6, 7, 8, 9, 10, 11, 12, 13, 14, 15, 16, 17, 18, 19], 18, 3);
  }


  /** fill_btree: insert 1 through 19, in order. */
  method FillBTree(tree: BTree)
    requires tree.Valid() && tree.degree == 3 && tree.root == Empty()
    modifies tree
    ensures tree.Valid() && tree.degree == 3 && tree.root == NineteenKeys()
  {
    var keys := [1, 2, 3, 4, 5, 6, 7, 8, 9, 10, 11, 12, 13, 14, 15, 16, 17, 18, 19];
    for i := 0 to |keys|
      invariant tree.Valid() && tree.degree == 3
      invariant tree.root == InsertAll(Empty(), keys[..i], 3)
    {
      tree.Insert(keys[i]);
      InsertAllStep(Empty(), keys, i, 3);
    }
    assert keys[..|keys|] == keys;
    Fill19();
  }

  /** The searches of the search test on the filled tree. */
  lemma SearchNineteenKeys()
    ensures SearchFromNode(NineteenKeys(), 12) == Some((NineteenKeys().children[1], 1))
    ensures SearchFromNode(NineteenKeys(), 6) == Some((NineteenKeys().children[0], 2))
    ensures SearchFromNode(NineteenKeys(), 1) == Some((Leaf([1, 2]), 1))
  {
    assert Slot([9], 12) == 1 && Slot([12, 15], 12) == 1;
    assert Slot([9], 6) == 0 && Slot([3, 6], 6) == 2;
    assert Slot([9], 1) == 0 && Slot([3, 6], 1) == 0 && Slot([1, 2], 1) == 1;
  }

  /** test_btree_search, searches: search(12) yields a node with 2 keys
      over [10, 11], [13, 14] and [16, 17, 18, 19]; search(6) a node with 2
      keys and 3 children, the first [1, 2]; search(1) a leaf with 2 keys. */
  method TestBTreeSearch() returns (at12: Option<(Node, nat)>, at6: Option<(Node, nat)>,
                                    at1: Option<(Node, nat)>)
    ensures at12.Some? && |at12.value.0.keys| == 2 && |at12.value.0.children| == 3
            && at12.value.0.children[0].keys == [10, 11]
            && at12.value.0.children[1].keys == [13, 14]
            && at12.value.0.children[2].keys == [16, 17, 18, 19]
    ensures at6.Some? && |at6.value.0.keys| == 2 && |at6.value.0.children| == 3
            && at6.value.0.children[0].keys == [1, 2]
    ensures at1.Some? && |at1.value.0.keys| == 2 && at1.value.0.leaf
  {
    var btree := new BTree.Degree(3);
    FillBTree(btree);
    SearchNineteenKeys();
    at12 := btree.Search(12);
    at6 := btree.Search(6);
    at1 := btree.Search(1);
  }

  /** test_btree_search, last check: the tree built with order(6) equals the
      one built with degree(3). */
  method TestOrderMatchesDegree() returns (same: bool)
    ensures same
  {
    var btree := new BTree.Degree(3);
    FillBTree(btree);
    var withOrder := new BTree.Order(6);
    FillBTree(withOrder);
    same := btree.root == withOrder.root && btree.degree == withOrder.degree;
  }

  /** test_random_btree_filling: a tree of order 9 (minimum degree 4) takes
      one hundred keys below 100, then 101; search(101) finds 101 in a leaf. */
  method TestRandomFilling(randomKeys: seq<nat>) returns (found: Node)
    requires |randomKeys| == 100 && forall i :: 0 <= i < |randomKeys| ==> randomKeys[i] < 100
    ensures found.leaf && 101 in found.keys
  {
    var btree := new BTree.Order(9);
    var count := 0;
    while count < |randomKeys|
      invariant 0 <= count <= |randomKeys|
      invariant btree.Valid() && btree.degree == 4
      invariant forall x :: x in Keys(btree.root) ==> x < 100
    {
      ghost var before := btree.root;
      btree.Insert(randomKeys[count]);
      InsertedBound(before, randomKeys[count], 4, 100);
      count := count + 1;
    }
    FreshKeyFoundInLeaf(btree.root, 101, 4);
    btree.Insert(101);
    var result := btree.Search(101);
    found := result.value.0;
  }

  /** Equal keys: a full root of three 5s in a tree of degree 2 is split
      around a median equal to both halves' keys, so a child key may equal
      its separator on either side, and the tree then stores 5 four times. */
  lemma EqualKeysSplit()
    ensures Inserted(Leaf([5, 5, 5]), 5, 2) == Node([5], [Leaf([5]), Leaf([5, 5])], false)
  {
    assert [5, 5, 5][..1] == [5] && [5, 5, 5][2..] == [5];
    assert Grown(Leaf([5, 5, 5]), 2) == Node([5], [Leaf([5]), Leaf([5])], false);
    GrowPreserves(Leaf([5, 5, 5]), 2);
    assert Slot([5], 5) == 1;
    assert InsertedNonfull(Leaf([5]), 5, 2) == Leaf([5, 5]);
  }
}
