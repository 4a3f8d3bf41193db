/** The plain tree's and the rotation engine's test runs, and the examples
    that show where the two orders part. Values are compared as integers;
    single-letter strings by character code, which orders them as Java's
    `String.compareTo` does. */
module Scenarios {
  import opened Outcomes
  import opened Trees
  import opened Zippers
  import opened BinarySearchTree
  import opened BSTRotation

  /** A node as the plain tree builds it: fresh nodes are red and nothing in
      the plain tree or the rotation engine recolours them. */
  function N(l: Tree, v: int, r: Tree): Tree { Node(Red, l, v, r) }

  /** The first plain-tree test: seven integers, then clearing, then three
      more into the cleared tree. */
  lemma IntegerTree(vs: seq<int>, ws: seq<int>)
    requires vs == [6, 3, 8, 1, 4, 5, 9] && ws == [2, 1, 3]
    ensures var t := InsertAll(Leaf, vs);
      && Size(t) == 7 && !IsEmpty(t)
      && Contains(t, 6) && Contains(t, 3) && Contains(t, 8) && Contains(t, 1)
      && Contains(t, 4) && Contains(t, 5) && Contains(t, 9)
    ensures IsEmpty(Clear(InsertAll(Leaf, vs))) && !Contains(Clear(InsertAll(Leaf, vs)), 6)
    ensures var u := InsertAll(Clear(InsertAll(Leaf, vs)), ws);
      && Size(u) == 3 && !IsEmpty(u) && Contains(u, 2) && Contains(u, 3) && Contains(u, 1)
  {
    InsertionsFromEmpty(vs);
    InsertionsFromEmpty(ws);
  }

  /** The second plain-tree test, on one-letter strings. */
  lemma StringTree(vs: seq<int>, ws: seq<int>)
    requires vs == ['H' as int, 'F' as int, 'K' as int, 'C' as int, 'G' as int, 'I' as int, 'N' as int]
    requires ws == ['B' as int, 'A' as int, 'C' as int]
    ensures var t := InsertAll(Leaf, vs);
      && Size(t) == 7 && !IsEmpty(t)
      && Contains(t, 'H' as int) && Contains(t, 'F' as int) && Contains(t, 'K' as int)
      && Contains(t, 'C' as int) && Contains(t, 'G' as int) && Contains(t, 'I' as int)
      && Contains(t, 'N' as int)
    ensures IsEmpty(Clear(InsertAll(Leaf, vs))) && !Contains(Clear(InsertAll(Leaf, vs)), 'H' as int)
    ensures var u := InsertAll(Clear(InsertAll(Leaf, vs)), ws);
      && Size(u) == 3 && !IsEmpty(u)
      && Contains(u, 'B' as int) && Contains(u, 'A' as int) && Contains(u, 'C' as int)
  {
    InsertionsFromEmpty(vs);
    InsertionsFromEmpty(ws);
  }

  /** The third plain-tree test: an ascending run (a chain of right
      children), clearing, then a descending run (a chain of left children). */
  lemma SkewedTrees(vs: seq<int>, ws: seq<int>)
    requires vs == [10, 20, 30, 40, 50, 60, 70] && ws == [70, 60, 50, 40, 30, 20, 10]
    ensures var t := InsertAll(Leaf, vs);
      && Size(t) == 7 && !IsEmpty(t)
      && Contains(t, 10) && Contains(t, 20) && Contains(t, 30) && Contains(t, 40)
      && Contains(t, 50) && Contains(t, 60) && Contains(t, 70)
    ensures IsEmpty(Clear(InsertAll(Leaf, vs))) && !Contains(Clear(InsertAll(Leaf, vs)), 10)
    ensures var u := InsertAll(Clear(InsertAll(Leaf, vs)), ws);
      && Size(u) == 7 && !IsEmpty(u)
      && Contains(u, 70) && Contains(u, 60) && Contains(u, 50) && Contains(u, 40)
      && Contains(u, 30) && Contains(u, 20) && Contains(u, 10)
  {
    InsertionsFromEmpty(vs);
    InsertionsFromEmpty(ws);
  }

  /** The first rotation test's first tree. */
  lemma RotationTest1Tree1()
    ensures InsertAll(Leaf, [30, 20, 10]) == N(N(N(Leaf, 10, Leaf), 20, Leaf), 30, Leaf)
  {
    assert InsertAll(N(N(Leaf, 20, Leaf), 30, Leaf), [10]) == N(N(N(Leaf, 10, Leaf), 20, Leaf), 30, Leaf);
    assert InsertAll(N(Leaf, 30, Leaf), [20, 10]) == N(N(N(Leaf, 10, Leaf), 20, Leaf), 30, Leaf);
  }

  /** The first rotation test's second tree. */
  lemma RotationTest1Tree2()
    ensures InsertAll(Leaf, [30, 20, 25, 10]) == N(N(N(Leaf, 10, Leaf), 20, N(Leaf, 25, Leaf)), 30, Leaf)
  {
    assert InsertAll(N(N(Leaf, 20, N(Leaf, 25, Leaf)), 30, Leaf), [10]) == N(N(N(Leaf, 10, Leaf), 20, N(Leaf, 25, Leaf)), 30, Leaf);
    assert InsertAll(N(N(Leaf, 20, Leaf), 30, Leaf), [25, 10]) == N(N(N(Leaf, 10, Leaf), 20, N(Leaf, 25, Leaf)), 30, Leaf);
    assert InsertAll(N(Leaf, 30, Leaf), [20, 25, 10]) == N(N(N(Leaf, 10, Leaf), 20, N(Leaf, 25, Leaf)), 30, Leaf);
  }

  /** The second rotation test's first tree. */
  lemma RotationTest2Tree1()
    ensures InsertAll(Leaf, [10, 20, 30]) == N(Leaf, 10, N(Leaf, 20, N(Leaf, 30, Leaf)))
  {
    assert InsertAll(N(Leaf, 10, N(Leaf, 20, Leaf)), [30]) == N(Leaf, 10, N(Leaf, 20, N(Leaf, 30, Leaf)));
    assert InsertAll(N(Leaf, 10, Leaf), [20, 30]) == N(Leaf, 10, N(Leaf, 20, N(Leaf, 30, Leaf)));
  }

  /** The second rotation test's second tree. */
  lemma RotationTest2Tree2()
    ensures InsertAll(Leaf, [5, 7, 3, 8, 4, 6]) == N(N(Leaf, 3, N(Leaf, 4, Leaf)), 5, N(N(Leaf, 6, Leaf), 7, N(Leaf, 8, Leaf)))
  {
    assert InsertAll(N(N(Leaf, 3, N(Leaf, 4, Leaf)), 5, N(Leaf, 7, N(Leaf, 8, Leaf))), [6]) == N(N(Leaf, 3, N(Leaf, 4, Leaf)), 5, N(N(Leaf, 6, Leaf), 7, N(Leaf, 8, Leaf)));
    assert InsertAll(N(N(Leaf, 3, Leaf), 5, N(Leaf, 7, N(Leaf, 8, Leaf))), [4, 6]) == N(N(Leaf, 3, N(Leaf, 4, Leaf)), 5, N(N(Leaf, 6, Leaf), 7, N(Leaf, 8, Leaf)));
    assert InsertAll(N(N(Leaf, 3, Leaf), 5, N(Leaf, 7, Leaf)), [8, 4, 6]) == N(N(Leaf, 3, N(Leaf, 4, Leaf)), 5, N(N(Leaf, 6, Leaf), 7, N(Leaf, 8, Leaf)));
    assert InsertAll(N(Leaf, 5, N(Leaf, 7, Leaf)), [3, 8, 4, 6]) == N(N(Leaf, 3, N(Leaf, 4, Leaf)), 5, N(N(Leaf, 6, Leaf), 7, N(Leaf, 8, Leaf)));
    assert InsertAll(N(Leaf, 5, Leaf), [7, 3, 8, 4, 6]) == N(N(Leaf, 3, N(Leaf, 4, Leaf)), 5, N(N(Leaf, 6, Leaf), 7, N(Leaf, 8, Leaf)));
  }

  /** The third rotation test's first tree. */
  lemma RotationTest3Tree1()
    ensures InsertAll(Leaf, [40, 30, 50, 20, 35]) == N(N(N(Leaf, 20, Leaf), 30, N(Leaf, 35, Leaf)), 40, N(Leaf, 50, Leaf))
  {
    assert InsertAll(N(N(N(Leaf, 20, Leaf), 30, Leaf), 40, N(Leaf, 50, Leaf)), [35]) == N(N(N(Leaf, 20, Leaf), 30, N(Leaf, 35, Leaf)), 40, N(Leaf, 50, Leaf));
    assert InsertAll(N(N(Leaf, 30, Leaf), 40, N(Leaf, 50, Leaf)), [20, 35]) == N(N(N(Leaf, 20, Leaf), 30, N(Leaf, 35, Leaf)), 40, N(Leaf, 50, Leaf));
    assert InsertAll(N(N(Leaf, 30, Leaf), 40, Leaf), [50, 20, 35]) == N(N(N(Leaf, 20, Leaf), 30, N(Leaf, 35, Leaf)), 40, N(Leaf, 50, Leaf));
    assert InsertAll(N(Leaf, 40, Leaf), [30, 50, 20, 35]) == N(N(N(Leaf, 20, Leaf), 30, N(Leaf, 35, Leaf)), 40, N(Leaf, 50, Leaf));
  }

  /** The third rotation test's second tree. */
  lemma RotationTest3Tree2()
    ensures InsertAll(Leaf, [10, 20]) == N(Leaf, 10, N(Leaf, 20, Leaf))
  {
    assert InsertAll(N(Leaf, 10, Leaf), [20]) == N(Leaf, 10, N(Leaf, 20, Leaf));
  }

  /** The first rotation test: right rotations, at the root and one level
      below it. The trees are the ones `RotationTest1Tree1` and
      `RotationTest1Tree2` build. */
  lemma RotationTest1(t: Tree, u: Tree)
    requires t == N(N(N(Leaf, 10, Leaf), 20, Leaf), 30, Leaf)
    requires u == N(N(N(Leaf, 10, Leaf), 20, N(Leaf, 25, Leaf)), 30, Leaf)
    ensures Rotate(t, [Left], []) == Success(N(N(Leaf, 10, Leaf), 20, N(Leaf, 30, Leaf)))
    ensures Rotate(u, [Left, Left], [Left]) == Success(N(N(Leaf, 10, N(Leaf, 20, N(Leaf, 25, Leaf))), 30, Leaf))
  {
    RotateAtFocus(Zipper(t, []), Left);
    var z := Zipper(u.left, [Frame(Left, Red, 30, Leaf)]);
    assert PathOf(z) == [Left];
    RotateAtFocus(z, Left);
  }

  /** The second rotation test: left rotations, at the root and one level
      below it; the rotated child's left subtree moves to the parent. */
  lemma RotationTest2(t: Tree, u: Tree)
    requires t == N(Leaf, 10, N(Leaf, 20, N(Leaf, 30, Leaf)))
    requires u == N(N(Leaf, 3, N(Leaf, 4, Leaf)), 5, N(N(Leaf, 6, Leaf), 7, N(Leaf, 8, Leaf)))
    ensures Rotate(t, [Right], []) == Success(N(N(Leaf, 10, Leaf), 20, N(Leaf, 30, Leaf)))
    ensures Rotate(u, [Right, Right], [Right]) ==
            Success(N(N(Leaf, 3, N(Leaf, 4, Leaf)), 5, N(N(N(Leaf, 6, Leaf), 7, Leaf), 8, Leaf)))
  {
    RotateAtFocus(Zipper(t, []), Right);
    var z := Zipper(u.right, [Frame(Right, Red, 5, u.left)]);
    assert PathOf(z) == [Right];
    RotateAtFocus(z, Right);
  }

  /** The third rotation test: a right rotation at the root whose child has
      two children, and a left rotation of a two-node tree. */
  lemma RotationTest3(t: Tree, u: Tree)
    requires t == N(N(N(Leaf, 20, Leaf), 30, N(Leaf, 35, Leaf)), 40, N(Leaf, 50, Leaf))
    requires u == N(Leaf, 10, N(Leaf, 20, Leaf))
    ensures Rotate(t, [Left], []) == Success(N(N(Leaf, 20, Leaf), 30, N(N(Leaf, 35, Leaf), 40, N(Leaf, 50, Leaf))))
    ensures Rotate(u, [Right], []) == Success(N(N(Leaf, 10, Leaf), 20, Leaf))
  {
    RotateAtFocus(Zipper(t, []), Left);
    RotateAtFocus(Zipper(u, []), Right);
  }

  /** The refusals, on the first test's three-node tree: a reference to an
      empty slot, a grandchild given as the child, and the two roles
      exchanged. */
  lemma RotationErrors(t: Tree)
    requires t == N(N(N(Leaf, 10, Leaf), 20, Leaf), 30, Leaf)
    ensures Rotate(t, [Left, Left, Left], [Left, Left]) == Failure(NullArgument)
    ensures Rotate(t, [Left, Left], []) == Failure(IllegalArgument)
    ensures Rotate(t, [], [Left]) == Failure(IllegalArgument)
  {
  }

  /** With equal values the strict order (left at most, right strictly
      greater) is not kept by a rotation: the rotated child's parent, equal
      to it, ends on its right. The weak order is kept. */
  lemma RotationLeavesStrictOrder(t: Tree)
    requires t == Node(Black, N(Leaf, 5, Leaf), 5, Leaf)
    ensures StrictOrdered(t)
    ensures Rotate(t, [Left], []) == Success(Node(Red, Leaf, 5, Node(Black, Leaf, 5, Leaf)))
    ensures !StrictOrdered(Rotate(t, [Left], []).value) && Ordered(Rotate(t, [Left], []).value)
  {
    RotateAtFocus(Zipper(t, []), Left);
    var r := Rotate(t, [Left], []).value;
    assert 5 in Elements(r.right);
    assert Elements(r.right) == multiset{5};
  }
}
