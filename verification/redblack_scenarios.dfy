/** The red-black tests' insertion runs. Each run is checked one insertion
    at a time (`...Insert<k>`, the k-th insertion; the larger fixups are
    split into the slot the descent finds, the blackened start and the
    fixup's successive steps) and then composed (`...From<k>`: inserting
    the remaining values into the tree built by the first k insertions).
    The pieces exist only to keep each proof small: evaluating a whole run
    of insertions on literal trees in one lemma is too costly for the
    verifier, so each test is one chain of small lemmas ending in
    `RedBlackTest<n>`, and a few pieces repeat across the tests where two
    runs pass through the same insertion step. Single-letter strings are compared by character code, which orders them
    as Java's `String.compareTo` does. */
module RedBlackScenarios {
  import opened Outcomes
  import opened Trees
  import opened Zippers
  import BinarySearchTree
  import RedBlackTree

  function B(l: Tree, c: char, r: Tree): Tree { Node(Black, l, c as int, r) }
  function R(l: Tree, c: char, r: Tree): Tree { Node(Red, l, c as int, r) }

  /** One red-black insertion into a non-empty tree, read off its stages:
      the slot the descent finds, the blackened start, the fixup's end. */
  lemma InsertVia(t: Tree, v: int, path: seq<Frame>, start: Zipper, end: Zipper, u: Tree)
    requires t.Node?
    requires BinarySearchTree.InsertionSlot(t, v).path == path
    requires RedBlackTree.BlackenRoot(Zipper(NewNode(v), path)) == start
    requires RedBlackTree.EnsureRedProperty(start) == end
    requires Plug(end) == u
    ensures RedBlackTree.Insert(t, Some(v)).value == u
  {
  }

  lemma RedBlackTest1Insert2Slot()
    ensures BinarySearchTree.InsertionSlot(B(Leaf, 'N', Leaf), 'H' as int).path ==
            Zipper(Leaf, [Frame(Left, Black, 'N' as int, Leaf)]).path
  {
  }

  lemma RedBlackTest1Insert2Start()
    ensures RedBlackTree.BlackenRoot(Zipper(NewNode('H' as int), Zipper(Leaf, [Frame(Left, Black, 'N' as int, Leaf)]).path)) ==
            Zipper(R(Leaf, 'H', Leaf), [Frame(Left, Black, 'N' as int, Leaf)])
  {
  }

  lemma RedBlackTest1Insert2Fix0()
    ensures RedBlackTree.EnsureRedProperty(Zipper(R(Leaf, 'H', Leaf), [Frame(Left, Black, 'N' as int, Leaf)])) ==
            Zipper(R(Leaf, 'H', Leaf), [Frame(Left, Black, 'N' as int, Leaf)])
  {
  }

  lemma RedBlackTest1Insert2End()
    ensures Plug(Zipper(R(Leaf, 'H', Leaf), [Frame(Left, Black, 'N' as int, Leaf)])) ==
            B(R(Leaf, 'H', Leaf), 'N', Leaf)
  {
  }

  lemma RedBlackTest1Insert2(t: Tree, v: int)
    requires t == B(Leaf, 'N', Leaf) && v == 'H' as int
    ensures RedBlackTree.Insert(t, Some(v)).value ==
            B(R(Leaf, 'H', Leaf), 'N', Leaf)
  {
    RedBlackTest1Insert2Slot();
    RedBlackTest1Insert2Start();
    RedBlackTest1Insert2Fix0();
    RedBlackTest1Insert2End();
    InsertVia(t, v, Zipper(Leaf, [Frame(Left, Black, 'N' as int, Leaf)]).path, Zipper(R(Leaf, 'H', Leaf), [Frame(Left, Black, 'N' as int, Leaf)]), Zipper(R(Leaf, 'H', Leaf), [Frame(Left, Black, 'N' as int, Leaf)]), B(R(Leaf, 'H', Leaf), 'N', Leaf));
  }

  lemma RedBlackTest1Insert3Slot()
    ensures BinarySearchTree.InsertionSlot(B(R(Leaf, 'H', Leaf), 'N', Leaf), 'S' as int).path ==
            Zipper(Leaf, [Frame(Right, Black, 'N' as int, R(Leaf, 'H', Leaf))]).path
  {
  }

  lemma RedBlackTest1Insert3Start()
    ensures RedBlackTree.BlackenRoot(Zipper(NewNode('S' as int), Zipper(Leaf, [Frame(Right, Black, 'N' as int, R(Leaf, 'H', Leaf))]).path)) ==
            Zipper(R(Leaf, 'S', Leaf), [Frame(Right, Black, 'N' as int, R(Leaf, 'H', Leaf))])
  {
  }

  lemma RedBlackTest1Insert3Fix0()
    ensures RedBlackTree.EnsureRedProperty(Zipper(R(Leaf, 'S', Leaf), [Frame(Right, Black, 'N' as int, R(Leaf, 'H', Leaf))])) ==
            Zipper(R(Leaf, 'S', Leaf), [Frame(Right, Black, 'N' as int, R(Leaf, 'H', Leaf))])
  {
  }

  lemma RedBlackTest1Insert3End()
    ensures Plug(Zipper(R(Leaf, 'S', Leaf), [Frame(Right, Black, 'N' as int, R(Leaf, 'H', Leaf))])) ==
            B(R(Leaf, 'H', Leaf), 'N', R(Leaf, 'S', Leaf))
  {
  }

  lemma RedBlackTest1Insert3(t: Tree, v: int)
    requires t == B(R(Leaf, 'H', Leaf), 'N', Leaf) && v == 'S' as int
    ensures RedBlackTree.Insert(t, Some(v)).value ==
            B(R(Leaf, 'H', Leaf), 'N', R(Leaf, 'S', Leaf))
  {
    RedBlackTest1Insert3Slot();
    RedBlackTest1Insert3Start();
    RedBlackTest1Insert3Fix0();
    RedBlackTest1Insert3End();
    InsertVia(t, v, Zipper(Leaf, [Frame(Right, Black, 'N' as int, R(Leaf, 'H', Leaf))]).path, Zipper(R(Leaf, 'S', Leaf), [Frame(Right, Black, 'N' as int, R(Leaf, 'H', Leaf))]), Zipper(R(Leaf, 'S', Leaf), [Frame(Right, Black, 'N' as int, R(Leaf, 'H', Leaf))]), B(R(Leaf, 'H', Leaf), 'N', R(Leaf, 'S', Leaf)));
  }

  lemma RedBlackTest1Insert4Slot()
    ensures BinarySearchTree.InsertionSlot(B(R(Leaf, 'H', Leaf), 'N', R(Leaf, 'S', Leaf)), 'E' as int).path ==
            Zipper(Leaf, [Frame(Left, Red, 'H' as int, Leaf), Frame(Left, Black, 'N' as int, R(Leaf, 'S', Leaf))]).path
  {
  }

  lemma RedBlackTest1Insert4Start()
    ensures RedBlackTree.BlackenRoot(Zipper(NewNode('E' as int), Zipper(Leaf, [Frame(Left, Red, 'H' as int, Leaf), Frame(Left, Black, 'N' as int, R(Leaf, 'S', Leaf))]).path)) ==
            Zipper(R(Leaf, 'E', Leaf), [Frame(Left, Red, 'H' as int, Leaf), Frame(Left, Black, 'N' as int, R(Leaf, 'S', Leaf))])
  {
  }

  lemma RedBlackTest1Insert4Fix0()
    ensures RedBlackTree.EnsureRedProperty(Zipper(R(Leaf, 'E', Leaf), [Frame(Left, Red, 'H' as int, Leaf), Frame(Left, Black, 'N' as int, R(Leaf, 'S', Leaf))])) ==
            RedBlackTree.EnsureRedProperty(Zipper(B(B(R(Leaf, 'E', Leaf), 'H', Leaf), 'N', B(Leaf, 'S', Leaf)), []))
  {
  }

  lemma RedBlackTest1Insert4Fix1()
    ensures RedBlackTree.EnsureRedProperty(Zipper(B(B(R(Leaf, 'E', Leaf), 'H', Leaf), 'N', B(Leaf, 'S', Leaf)), [])) ==
            Zipper(B(B(R(Leaf, 'E', Leaf), 'H', Leaf), 'N', B(Leaf, 'S', Leaf)), [])
  {
  }

  lemma RedBlackTest1Insert4Fix()
    ensures RedBlackTree.EnsureRedProperty(Zipper(R(Leaf, 'E', Leaf), [Frame(Left, Red, 'H' as int, Leaf), Frame(Left, Black, 'N' as int, R(Leaf, 'S', Leaf))])) ==
            Zipper(B(B(R(Leaf, 'E', Leaf), 'H', Leaf), 'N', B(Leaf, 'S', Leaf)), [])
  {
    RedBlackTest1Insert4Fix0();
    RedBlackTest1Insert4Fix1();
  }

  lemma RedBlackTest1Insert4End()
    ensures Plug(Zipper(B(B(R(Leaf, 'E', Leaf), 'H', Leaf), 'N', B(Leaf, 'S', Leaf)), [])) ==
            B(B(R(Leaf, 'E', Leaf), 'H', Leaf), 'N', B(Leaf, 'S', Leaf))
  {
  }

  lemma RedBlackTest1Insert4(t: Tree, v: int)
    requires t == B(R(Leaf, 'H', Leaf), 'N', R(Leaf, 'S', Leaf)) && v == 'E' as int
    ensures RedBlackTree.Insert(t, Some(v)).value ==
            B(B(R(Leaf, 'E', Leaf), 'H', Leaf), 'N', B(Leaf, 'S', Leaf))
  {
    RedBlackTest1Insert4Slot();
    RedBlackTest1Insert4Start();
    RedBlackTest1Insert4Fix();
    RedBlackTest1Insert4End();
    InsertVia(t, v, Zipper(Leaf, [Frame(Left, Red, 'H' as int, Leaf), Frame(Left, Black, 'N' as int, R(Leaf, 'S', Leaf))]).path, Zipper(R(Leaf, 'E', Leaf), [Frame(Left, Red, 'H' as int, Leaf), Frame(Left, Black, 'N' as int, R(Leaf, 'S', Leaf))]), Zipper(B(B(R(Leaf, 'E', Leaf), 'H', Leaf), 'N', B(Leaf, 'S', Leaf)), []), B(B(R(Leaf, 'E', Leaf), 'H', Leaf), 'N', B(Leaf, 'S', Leaf)));
  }

  lemma RedBlackTest1Insert5Slot()
    ensures BinarySearchTree.InsertionSlot(B(B(R(Leaf, 'E', Leaf), 'H', Leaf), 'N', B(Leaf, 'S', Leaf)), 'K' as int).path ==
            Zipper(Leaf, [Frame(Right, Black, 'H' as int, R(Leaf, 'E', Leaf)), Frame(Left, Black, 'N' as int, B(Leaf, 'S', Leaf))]).path
  {
  }

  lemma RedBlackTest1Insert5Start()
    ensures RedBlackTree.BlackenRoot(Zipper(NewNode('K' as int), Zipper(Leaf, [Frame(Right, Black, 'H' as int, R(Leaf, 'E', Leaf)), Frame(Left, Black, 'N' as int, B(Leaf, 'S', Leaf))]).path)) ==
            Zipper(R(Leaf, 'K', Leaf), [Frame(Right, Black, 'H' as int, R(Leaf, 'E', Leaf)), Frame(Left, Black, 'N' as int, B(Leaf, 'S', Leaf))])
  {
  }

  lemma RedBlackTest1Insert5Fix0()
    ensures RedBlackTree.EnsureRedProperty(Zipper(R(Leaf, 'K', Leaf), [Frame(Right, Black, 'H' as int, R(Leaf, 'E', Leaf)), Frame(Left, Black, 'N' as int, B(Leaf, 'S', Leaf))])) ==
            Zipper(R(Leaf, 'K', Leaf), [Frame(Right, Black, 'H' as int, R(Leaf, 'E', Leaf)), Frame(Left, Black, 'N' as int, B(Leaf, 'S', Leaf))])
  {
  }

  lemma RedBlackTest1Insert5End()
    ensures Plug(Zipper(R(Leaf, 'K', Leaf), [Frame(Right, Black, 'H' as int, R(Leaf, 'E', Leaf)), Frame(Left, Black, 'N' as int, B(Leaf, 'S', Leaf))])) ==
            B(B(R(Leaf, 'E', Leaf), 'H', R(Leaf, 'K', Leaf)), 'N', B(Leaf, 'S', Leaf))
  {
    assert Plug(Zipper(B(R(Leaf, 'E', Leaf), 'H', R(Leaf, 'K', Leaf)), [Frame(Left, Black, 'N' as int, B(Leaf, 'S', Leaf))])) == B(B(R(Leaf, 'E', Leaf), 'H', R(Leaf, 'K', Leaf)), 'N', B(Leaf, 'S', Leaf));
  }

  lemma RedBlackTest1Insert5(t: Tree, v: int)
    requires t == B(B(R(Leaf, 'E', Leaf), 'H', Leaf), 'N', B(Leaf, 'S', Leaf)) && v == 'K' as int
    ensures RedBlackTree.Insert(t, Some(v)).value ==
            B(B(R(Leaf, 'E', Leaf), 'H', R(Leaf, 'K', Leaf)), 'N', B(Leaf, 'S', Leaf))
  {
    RedBlackTest1Insert5Slot();
    RedBlackTest1Insert5Start();
    RedBlackTest1Insert5Fix0();
    RedBlackTest1Insert5End();
    InsertVia(t, v, Zipper(Leaf, [Frame(Right, Black, 'H' as int, R(Leaf, 'E', Leaf)), Frame(Left, Black, 'N' as int, B(Leaf, 'S', Leaf))]).path, Zipper(R(Leaf, 'K', Leaf), [Frame(Right, Black, 'H' as int, R(Leaf, 'E', Leaf)), Frame(Left, Black, 'N' as int, B(Leaf, 'S', Leaf))]), Zipper(R(Leaf, 'K', Leaf), [Frame(Right, Black, 'H' as int, R(Leaf, 'E', Leaf)), Frame(Left, Black, 'N' as int, B(Leaf, 'S', Leaf))]), B(B(R(Leaf, 'E', Leaf), 'H', R(Leaf, 'K', Leaf)), 'N', B(Leaf, 'S', Leaf)));
  }

  lemma RedBlackTest1Insert6Slot()
    ensures BinarySearchTree.InsertionSlot(B(B(R(Leaf, 'E', Leaf), 'H', R(Leaf, 'K', Leaf)), 'N', B(Leaf, 'S', Leaf)), 'Q' as int).path ==
            Zipper(Leaf, [Frame(Left, Black, 'S' as int, Leaf), Frame(Right, Black, 'N' as int, B(R(Leaf, 'E', Leaf), 'H', R(Leaf, 'K', Leaf)))]).path
  {
  }

  lemma RedBlackTest1Insert6Start()
    ensures RedBlackTree.BlackenRoot(Zipper(NewNode('Q' as int), Zipper(Leaf, [Frame(Left, Black, 'S' as int, Leaf), Frame(Right, Black, 'N' as int, B(R(Leaf, 'E', Leaf), 'H', R(Leaf, 'K', Leaf)))]).path)) ==
            Zipper(R(Leaf, 'Q', Leaf), [Frame(Left, Black, 'S' as int, Leaf), Frame(Right, Black, 'N' as int, B(R(Leaf, 'E', Leaf), 'H', R(Leaf, 'K', Leaf)))])
  {
  }

  lemma RedBlackTest1Insert6Fix0()
    ensures RedBlackTree.EnsureRedProperty(Zipper(R(Leaf, 'Q', Leaf), [Frame(Left, Black, 'S' as int, Leaf), Frame(Right, Black, 'N' as int, B(R(Leaf, 'E', Leaf), 'H', R(Leaf, 'K', Leaf)))])) ==
            Zipper(R(Leaf, 'Q', Leaf), [Frame(Left, Black, 'S' as int, Leaf), Frame(Right, Black, 'N' as int, B(R(Leaf, 'E', Leaf), 'H', R(Leaf, 'K', Leaf)))])
  {
  }

  lemma RedBlackTest1Insert6End()
    ensures Plug(Zipper(R(Leaf, 'Q', Leaf), [Frame(Left, Black, 'S' as int, Leaf), Frame(Right, Black, 'N' as int, B(R(Leaf, 'E', Leaf), 'H', R(Leaf, 'K', Leaf)))])) ==
            B(B(R(Leaf, 'E', Leaf), 'H', R(Leaf, 'K', Leaf)), 'N', B(R(Leaf, 'Q', Leaf), 'S', Leaf))
  {
    assert Plug(Zipper(B(R(Leaf, 'Q', Leaf), 'S', Leaf), [Frame(Right, Black, 'N' as int, B(R(Leaf, 'E', Leaf), 'H', R(Leaf, 'K', Leaf)))])) == B(B(R(Leaf, 'E', Leaf), 'H', R(Leaf, 'K', Leaf)), 'N', B(R(Leaf, 'Q', Leaf), 'S', Leaf));
  }

  lemma RedBlackTest1Insert6(t: Tree, v: int)
    requires t == B(B(R(Leaf, 'E', Leaf), 'H', R(Leaf, 'K', Leaf)), 'N', B(Leaf, 'S', Leaf)) && v == 'Q' as int
    ensures RedBlackTree.Insert(t, Some(v)).value ==
            B(B(R(Leaf, 'E', Leaf), 'H', R(Leaf, 'K', Leaf)), 'N', B(R(Leaf, 'Q', Leaf), 'S', Leaf))
  {
    RedBlackTest1Insert6Slot();
    RedBlackTest1Insert6Start();
    RedBlackTest1Insert6Fix0();
    RedBlackTest1Insert6End();
    InsertVia(t, v, Zipper(Leaf, [Frame(Left, Black, 'S' as int, Leaf), Frame(Right, Black, 'N' as int, B(R(Leaf, 'E', Leaf), 'H', R(Leaf, 'K', Leaf)))]).path, Zipper(R(Leaf, 'Q', Leaf), [Frame(Left, Black, 'S' as int, Leaf), Frame(Right, Black, 'N' as int, B(R(Leaf, 'E', Leaf), 'H', R(Leaf, 'K', Leaf)))]), Zipper(R(Leaf, 'Q', Leaf), [Frame(Left, Black, 'S' as int, Leaf), Frame(Right, Black, 'N' as int, B(R(Leaf, 'E', Leaf), 'H', R(Leaf, 'K', Leaf)))]), B(B(R(Leaf, 'E', Leaf), 'H', R(Leaf, 'K', Leaf)), 'N', B(R(Leaf, 'Q', Leaf), 'S', Leaf)));
  }

  lemma RedBlackTest1Insert7Slot()
    ensures BinarySearchTree.InsertionSlot(B(B(R(Leaf, 'E', Leaf), 'H', R(Leaf, 'K', Leaf)), 'N', B(R(Leaf, 'Q', Leaf), 'S', Leaf)), 'Y' as int).path ==
            Zipper(Leaf, [Frame(Right, Black, 'S' as int, R(Leaf, 'Q', Leaf)), Frame(Right, Black, 'N' as int, B(R(Leaf, 'E', Leaf), 'H', R(Leaf, 'K', Leaf)))]).path
  {
  }

  lemma RedBlackTest1Insert7Start()
    ensures RedBlackTree.BlackenRoot(Zipper(NewNode('Y' as int), Zipper(Leaf, [Frame(Right, Black, 'S' as int, R(Leaf, 'Q', Leaf)), Frame(Right, Black, 'N' as int, B(R(Leaf, 'E', Leaf), 'H', R(Leaf, 'K', Leaf)))]).path)) ==
            Zipper(R(Leaf, 'Y', Leaf), [Frame(Right, Black, 'S' as int, R(Leaf, 'Q', Leaf)), Frame(Right, Black, 'N' as int, B(R(Leaf, 'E', Leaf), 'H', R(Leaf, 'K', Leaf)))])
  {
  }

  lemma RedBlackTest1Insert7Fix0()
    ensures RedBlackTree.EnsureRedProperty(Zipper(R(Leaf, 'Y', Leaf), [Frame(Right, Black, 'S' as int, R(Leaf, 'Q', Leaf)), Frame(Right, Black, 'N' as int, B(R(Leaf, 'E', Leaf), 'H', R(Leaf, 'K', Leaf)))])) ==
            Zipper(R(Leaf, 'Y', Leaf), [Frame(Right, Black, 'S' as int, R(Leaf, 'Q', Leaf)), Frame(Right, Black, 'N' as int, B(R(Leaf, 'E', Leaf), 'H', R(Leaf, 'K', Leaf)))])
  {
  }

  lemma RedBlackTest1Insert7End()
    ensures Plug(Zipper(R(Leaf, 'Y', Leaf), [Frame(Right, Black, 'S' as int, R(Leaf, 'Q', Leaf)), Frame(Right, Black, 'N' as int, B(R(Leaf, 'E', Leaf), 'H', R(Leaf, 'K', Leaf)))])) ==
            B(B(R(Leaf, 'E', Leaf), 'H', R(Leaf, 'K', Leaf)), 'N', B(R(Leaf, 'Q', Leaf), 'S', R(Leaf, 'Y', Leaf)))
  {
    assert Plug(Zipper(B(R(Leaf, 'Q', Leaf), 'S', R(Leaf, 'Y', Leaf)), [Frame(Right, Black, 'N' as int, B(R(Leaf, 'E', Leaf), 'H', R(Leaf, 'K', Leaf)))])) == B(B(R(Leaf, 'E', Leaf), 'H', R(Leaf, 'K', Leaf)), 'N', B(R(Leaf, 'Q', Leaf), 'S', R(Leaf, 'Y', Leaf)));
  }

  lemma RedBlackTest1Insert7(t: Tree, v: int)
    requires t == B(B(R(Leaf, 'E', Leaf), 'H', R(Leaf, 'K', Leaf)), 'N', B(R(Leaf, 'Q', Leaf), 'S', Leaf)) && v == 'Y' as int
    ensures RedBlackTree.Insert(t, Some(v)).value ==
            B(B(R(Leaf, 'E', Leaf), 'H', R(Leaf, 'K', Leaf)), 'N', B(R(Leaf, 'Q', Leaf), 'S', R(Leaf, 'Y', Leaf)))
  {
    RedBlackTest1Insert7Slot();
    RedBlackTest1Insert7Start();
    RedBlackTest1Insert7Fix0();
    RedBlackTest1Insert7End();
    InsertVia(t, v, Zipper(Leaf, [Frame(Right, Black, 'S' as int, R(Leaf, 'Q', Leaf)), Frame(Right, Black, 'N' as int, B(R(Leaf, 'E', Leaf), 'H', R(Leaf, 'K', Leaf)))]).path, Zipper(R(Leaf, 'Y', Leaf), [Frame(Right, Black, 'S' as int, R(Leaf, 'Q', Leaf)), Frame(Right, Black, 'N' as int, B(R(Leaf, 'E', Leaf), 'H', R(Leaf, 'K', Leaf)))]), Zipper(R(Leaf, 'Y', Leaf), [Frame(Right, Black, 'S' as int, R(Leaf, 'Q', Leaf)), Frame(Right, Black, 'N' as int, B(R(Leaf, 'E', Leaf), 'H', R(Leaf, 'K', Leaf)))]), B(B(R(Leaf, 'E', Leaf), 'H', R(Leaf, 'K', Leaf)), 'N', B(R(Leaf, 'Q', Leaf), 'S', R(Leaf, 'Y', Leaf))));
  }

  lemma RedBlackTest1Insert8Slot()
    ensures BinarySearchTree.InsertionSlot(B(B(R(Leaf, 'E', Leaf), 'H', R(Leaf, 'K', Leaf)), 'N', B(R(Leaf, 'Q', Leaf), 'S', R(Leaf, 'Y', Leaf))), 'W' as int).path ==
            Zipper(Leaf, [Frame(Left, Red, 'Y' as int, Leaf), Frame(Right, Black, 'S' as int, R(Leaf, 'Q', Leaf)), Frame(Right, Black, 'N' as int, B(R(Leaf, 'E', Leaf), 'H', R(Leaf, 'K', Leaf)))]).path
  {
  }

  lemma RedBlackTest1Insert8Start()
    ensures RedBlackTree.BlackenRoot(Zipper(NewNode('W' as int), Zipper(Leaf, [Frame(Left, Red, 'Y' as int, Leaf), Frame(Right, Black, 'S' as int, R(Leaf, 'Q', Leaf)), Frame(Right, Black, 'N' as int, B(R(Leaf, 'E', Leaf), 'H', R(Leaf, 'K', Leaf)))]).path)) ==
            Zipper(R(Leaf, 'W', Leaf), [Frame(Left, Red, 'Y' as int, Leaf), Frame(Right, Black, 'S' as int, R(Leaf, 'Q', Leaf)), Frame(Right, Black, 'N' as int, B(R(Leaf, 'E', Leaf), 'H', R(Leaf, 'K', Leaf)))])
  {
  }

  lemma RedBlackTest1Insert8Fix0()
    ensures RedBlackTree.EnsureRedProperty(Zipper(R(Leaf, 'W', Leaf), [Frame(Left, Red, 'Y' as int, Leaf), Frame(Right, Black, 'S' as int, R(Leaf, 'Q', Leaf)), Frame(Right, Black, 'N' as int, B(R(Leaf, 'E', Leaf), 'H', R(Leaf, 'K', Leaf)))])) ==
            RedBlackTree.EnsureRedProperty(Zipper(R(B(Leaf, 'Q', Leaf), 'S', B(R(Leaf, 'W', Leaf), 'Y', Leaf)), [Frame(Right, Black, 'N' as int, B(R(Leaf, 'E', Leaf), 'H', R(Leaf, 'K', Leaf)))]))
  {
  }

  lemma RedBlackTest1Insert8Fix1()
    ensures RedBlackTree.EnsureRedProperty(Zipper(R(B(Leaf, 'Q', Leaf), 'S', B(R(Leaf, 'W', Leaf), 'Y', Leaf)), [Frame(Right, Black, 'N' as int, B(R(Leaf, 'E', Leaf), 'H', R(Leaf, 'K', Leaf)))])) ==
            Zipper(R(B(Leaf, 'Q', Leaf), 'S', B(R(Leaf, 'W', Leaf), 'Y', Leaf)), [Frame(Right, Black, 'N' as int, B(R(Leaf, 'E', Leaf), 'H', R(Leaf, 'K', Leaf)))])
  {
  }

  lemma RedBlackTest1Insert8Fix()
    ensures RedBlackTree.EnsureRedProperty(Zipper(R(Leaf, 'W', Leaf), [Frame(Left, Red, 'Y' as int, Leaf), Frame(Right, Black, 'S' as int, R(Leaf, 'Q', Leaf)), Frame(Right, Black, 'N' as int, B(R(Leaf, 'E', Leaf), 'H', R(Leaf, 'K', Leaf)))])) ==
            Zipper(R(B(Leaf, 'Q', Leaf), 'S', B(R(Leaf, 'W', Leaf), 'Y', Leaf)), [Frame(Right, Black, 'N' as int, B(R(Leaf, 'E', Leaf), 'H', R(Leaf, 'K', Leaf)))])
  {
    RedBlackTest1Insert8Fix0();
    RedBlackTest1Insert8Fix1();
  }

  lemma RedBlackTest1Insert8End()
    ensures Plug(Zipper(R(B(Leaf, 'Q', Leaf), 'S', B(R(Leaf, 'W', Leaf), 'Y', Leaf)), [Frame(Right, Black, 'N' as int, B(R(Leaf, 'E', Leaf), 'H', R(Leaf, 'K', Leaf)))])) ==
            B(B(R(Leaf, 'E', Leaf), 'H', R(Leaf, 'K', Leaf)), 'N', R(B(Leaf, 'Q', Leaf), 'S', B(R(Leaf, 'W', Leaf), 'Y', Leaf)))
  {
  }

  lemma RedBlackTest1Insert8(t: Tree, v: int)
    requires t == B(B(R(Leaf, 'E', Leaf), 'H', R(Leaf, 'K', Leaf)), 'N', B(R(Leaf, 'Q', Leaf), 'S', R(Leaf, 'Y', Leaf))) && v == 'W' as int
    ensures RedBlackTree.Insert(t, Some(v)).value ==
            B(B(R(Leaf, 'E', Leaf), 'H', R(Leaf, 'K', Leaf)), 'N', R(B(Leaf, 'Q', Leaf), 'S', B(R(Leaf, 'W', Leaf), 'Y', Leaf)))
  {
    RedBlackTest1Insert8Slot();
    RedBlackTest1Insert8Start();
    RedBlackTest1Insert8Fix();
    RedBlackTest1Insert8End();
    InsertVia(t, v, Zipper(Leaf, [Frame(Left, Red, 'Y' as int, Leaf), Frame(Right, Black, 'S' as int, R(Leaf, 'Q', Leaf)), Frame(Right, Black, 'N' as int, B(R(Leaf, 'E', Leaf), 'H', R(Leaf, 'K', Leaf)))]).path, Zipper(R(Leaf, 'W', Leaf), [Frame(Left, Red, 'Y' as int, Leaf), Frame(Right, Black, 'S' as int, R(Leaf, 'Q', Leaf)), Frame(Right, Black, 'N' as int, B(R(Leaf, 'E', Leaf), 'H', R(Leaf, 'K', Leaf)))]), Zipper(R(B(Leaf, 'Q', Leaf), 'S', B(R(Leaf, 'W', Leaf), 'Y', Leaf)), [Frame(Right, Black, 'N' as int, B(R(Leaf, 'E', Leaf), 'H', R(Leaf, 'K', Leaf)))]), B(B(R(Leaf, 'E', Leaf), 'H', R(Leaf, 'K', Leaf)), 'N', R(B(Leaf, 'Q', Leaf), 'S', B(R(Leaf, 'W', Leaf), 'Y', Leaf))));
  }

  lemma RedBlackTest1Insert9Slot()
    ensures BinarySearchTree.InsertionSlot(B(B(R(Leaf, 'E', Leaf), 'H', R(Leaf, 'K', Leaf)), 'N', R(B(Leaf, 'Q', Leaf), 'S', B(R(Leaf, 'W', Leaf), 'Y', Leaf))), 'Z' as int).path ==
            Zipper(Leaf, [Frame(Right, Black, 'Y' as int, R(Leaf, 'W', Leaf)), Frame(Right, Red, 'S' as int, B(Leaf, 'Q', Leaf)), Frame(Right, Black, 'N' as int, B(R(Leaf, 'E', Leaf), 'H', R(Leaf, 'K', Leaf)))]).path
  {
  }

  lemma RedBlackTest1Insert9Start()
    ensures RedBlackTree.BlackenRoot(Zipper(NewNode('Z' as int), Zipper(Leaf, [Frame(Right, Black, 'Y' as int, R(Leaf, 'W', Leaf)), Frame(Right, Red, 'S' as int, B(Leaf, 'Q', Leaf)), Frame(Right, Black, 'N' as int, B(R(Leaf, 'E', Leaf), 'H', R(Leaf, 'K', Leaf)))]).path)) ==
            Zipper(R(Leaf, 'Z', Leaf), [Frame(Right, Black, 'Y' as int, R(Leaf, 'W', Leaf)), Frame(Right, Red, 'S' as int, B(Leaf, 'Q', Leaf)), Frame(Right, Black, 'N' as int, B(R(Leaf, 'E', Leaf), 'H', R(Leaf, 'K', Leaf)))])
  {
  }

  lemma RedBlackTest1Insert9Fix0()
    ensures RedBlackTree.EnsureRedProperty(Zipper(R(Leaf, 'Z', Leaf), [Frame(Right, Black, 'Y' as int, R(Leaf, 'W', Leaf)), Frame(Right, Red, 'S' as int, B(Leaf, 'Q', Leaf)), Frame(Right, Black, 'N' as int, B(R(Leaf, 'E', Leaf), 'H', R(Leaf, 'K', Leaf)))])) ==
            Zipper(R(Leaf, 'Z', Leaf), [Frame(Right, Black, 'Y' as int, R(Leaf, 'W', Leaf)), Frame(Right, Red, 'S' as int, B(Leaf, 'Q', Leaf)), Frame(Right, Black, 'N' as int, B(R(Leaf, 'E', Leaf), 'H', R(Leaf, 'K', Leaf)))])
  {
  }

  lemma RedBlackTest1Insert9End()
    ensures Plug(Zipper(R(Leaf, 'Z', Leaf), [Frame(Right, Black, 'Y' as int, R(Leaf, 'W', Leaf)), Frame(Right, Red, 'S' as int, B(Leaf, 'Q', Leaf)), Frame(Right, Black, 'N' as int, B(R(Leaf, 'E', Leaf), 'H', R(Leaf, 'K', Leaf)))])) ==
            B(B(R(Leaf, 'E', Leaf), 'H', R(Leaf, 'K', Leaf)), 'N', R(B(Leaf, 'Q', Leaf), 'S', B(R(Leaf, 'W', Leaf), 'Y', R(Leaf, 'Z', Leaf))))
  {
    assert Plug(Zipper(R(B(Leaf, 'Q', Leaf), 'S', B(R(Leaf, 'W', Leaf), 'Y', R(Leaf, 'Z', Leaf))), [Frame(Right, Black, 'N' as int, B(R(Leaf, 'E', Leaf), 'H', R(Leaf, 'K', Leaf)))])) == B(B(R(Leaf, 'E', Leaf), 'H', R(Leaf, 'K', Leaf)), 'N', R(B(Leaf, 'Q', Leaf), 'S', B(R(Leaf, 'W', Leaf), 'Y', R(Leaf, 'Z', Leaf))));
    assert Plug(Zipper(B(R(Leaf, 'W', Leaf), 'Y', R(Leaf, 'Z', Leaf)), [Frame(Right, Red, 'S' as int, B(Leaf, 'Q', Leaf)), Frame(Right, Black, 'N' as int, B(R(Leaf, 'E', Leaf), 'H', R(Leaf, 'K', Leaf)))])) == B(B(R(Leaf, 'E', Leaf), 'H', R(Leaf, 'K', Leaf)), 'N', R(B(Leaf, 'Q', Leaf), 'S', B(R(Leaf, 'W', Leaf), 'Y', R(Leaf, 'Z', Leaf))));
  }

  lemma RedBlackTest1Insert9(t: Tree, v: int)
    requires t == B(B(R(Leaf, 'E', Leaf), 'H', R(Leaf, 'K', Leaf)), 'N', R(B(Leaf, 'Q', Leaf), 'S', B(R(Leaf, 'W', Leaf), 'Y', Leaf))) && v == 'Z' as int
    ensures RedBlackTree.Insert(t, Some(v)).value ==
            B(B(R(Leaf, 'E', Leaf), 'H', R(Leaf, 'K', Leaf)), 'N', R(B(Leaf, 'Q', Leaf), 'S', B(R(Leaf, 'W', Leaf), 'Y', R(Leaf, 'Z', Leaf))))
  {
    RedBlackTest1Insert9Slot();
    RedBlackTest1Insert9Start();
    RedBlackTest1Insert9Fix0();
    RedBlackTest1Insert9End();
    InsertVia(t, v, Zipper(Leaf, [Frame(Right, Black, 'Y' as int, R(Leaf, 'W', Leaf)), Frame(Right, Red, 'S' as int, B(Leaf, 'Q', Leaf)), Frame(Right, Black, 'N' as int, B(R(Leaf, 'E', Leaf), 'H', R(Leaf, 'K', Leaf)))]).path, Zipper(R(Leaf, 'Z', Leaf), [Frame(Right, Black, 'Y' as int, R(Leaf, 'W', Leaf)), Frame(Right, Red, 'S' as int, B(Leaf, 'Q', Leaf)), Frame(Right, Black, 'N' as int, B(R(Leaf, 'E', Leaf), 'H', R(Leaf, 'K', Leaf)))]), Zipper(R(Leaf, 'Z', Leaf), [Frame(Right, Black, 'Y' as int, R(Leaf, 'W', Leaf)), Frame(Right, Red, 'S' as int, B(Leaf, 'Q', Leaf)), Frame(Right, Black, 'N' as int, B(R(Leaf, 'E', Leaf), 'H', R(Leaf, 'K', Leaf)))]), B(B(R(Leaf, 'E', Leaf), 'H', R(Leaf, 'K', Leaf)), 'N', R(B(Leaf, 'Q', Leaf), 'S', B(R(Leaf, 'W', Leaf), 'Y', R(Leaf, 'Z', Leaf)))));
  }

  lemma RedBlackTest1Insert10Slot()
    ensures BinarySearchTree.InsertionSlot(B(B(R(Leaf, 'E', Leaf), 'H', R(Leaf, 'K', Leaf)), 'N', R(B(Leaf, 'Q', Leaf), 'S', B(R(Leaf, 'W', Leaf), 'Y', R(Leaf, 'Z', Leaf)))), 'M' as int).path ==
            Zipper(Leaf, [Frame(Right, Red, 'K' as int, Leaf), Frame(Right, Black, 'H' as int, R(Leaf, 'E', Leaf)), Frame(Left, Black, 'N' as int, R(B(Leaf, 'Q', Leaf), 'S', B(R(Leaf, 'W', Leaf), 'Y', R(Leaf, 'Z', Leaf))))]).path
  {
  }

  lemma RedBlackTest1Insert10Start()
    ensures RedBlackTree.BlackenRoot(Zipper(NewNode('M' as int), Zipper(Leaf, [Frame(Right, Red, 'K' as int, Leaf), Frame(Right, Black, 'H' as int, R(Leaf, 'E', Leaf)), Frame(Left, Black, 'N' as int, R(B(Leaf, 'Q', Leaf), 'S', B(R(Leaf, 'W', Leaf), 'Y', R(Leaf, 'Z', Leaf))))]).path)) ==
            Zipper(R(Leaf, 'M', Leaf), [Frame(Right, Red, 'K' as int, Leaf), Frame(Right, Black, 'H' as int, R(Leaf, 'E', Leaf)), Frame(Left, Black, 'N' as int, R(B(Leaf, 'Q', Leaf), 'S', B(R(Leaf, 'W', Leaf), 'Y', R(Leaf, 'Z', Leaf))))])
  {
  }

  lemma RedBlackTest1Insert10Fix0()
    ensures RedBlackTree.EnsureRedProperty(Zipper(R(Leaf, 'M', Leaf), [Frame(Right, Red, 'K' as int, Leaf), Frame(Right, Black, 'H' as int, R(Leaf, 'E', Leaf)), Frame(Left, Black, 'N' as int, R(B(Leaf, 'Q', Leaf), 'S', B(R(Leaf, 'W', Leaf), 'Y', R(Leaf, 'Z', Leaf))))])) ==
            RedBlackTree.EnsureRedProperty(Zipper(R(B(Leaf, 'E', Leaf), 'H', B(Leaf, 'K', R(Leaf, 'M', Leaf))), [Frame(Left, Black, 'N' as int, R(B(Leaf, 'Q', Leaf), 'S', B(R(Leaf, 'W', Leaf), 'Y', R(Leaf, 'Z', Leaf))))]))
  {
  }

  lemma RedBlackTest1Insert10Fix1()
    ensures RedBlackTree.EnsureRedProperty(Zipper(R(B(Leaf, 'E', Leaf), 'H', B(Leaf, 'K', R(Leaf, 'M', Leaf))), [Frame(Left, Black, 'N' as int, R(B(Leaf, 'Q', Leaf), 'S', B(R(Leaf, 'W', Leaf), 'Y', R(Leaf, 'Z', Leaf))))])) ==
            Zipper(R(B(Leaf, 'E', Leaf), 'H', B(Leaf, 'K', R(Leaf, 'M', Leaf))), [Frame(Left, Black, 'N' as int, R(B(Leaf, 'Q', Leaf), 'S', B(R(Leaf, 'W', Leaf), 'Y', R(Leaf, 'Z', Leaf))))])
  {
  }

  lemma RedBlackTest1Insert10Fix()
    ensures RedBlackTree.EnsureRedProperty(Zipper(R(Leaf, 'M', Leaf), [Frame(Right, Red, 'K' as int, Leaf), Frame(Right, Black, 'H' as int, R(Leaf, 'E', Leaf)), Frame(Left, Black, 'N' as int, R(B(Leaf, 'Q', Leaf), 'S', B(R(Leaf, 'W', Leaf), 'Y', R(Leaf, 'Z', Leaf))))])) ==
            Zipper(R(B(Leaf, 'E', Leaf), 'H', B(Leaf, 'K', R(Leaf, 'M', Leaf))), [Frame(Left, Black, 'N' as int, R(B(Leaf, 'Q', Leaf), 'S', B(R(Leaf, 'W', Leaf), 'Y', R(Leaf, 'Z', Leaf))))])
  {
    RedBlackTest1Insert10Fix0();
    RedBlackTest1Insert10Fix1();
  }

  lemma RedBlackTest1Insert10End()
    ensures Plug(Zipper(R(B(Leaf, 'E', Leaf), 'H', B(Leaf, 'K', R(Leaf, 'M', Leaf))), [Frame(Left, Black, 'N' as int, R(B(Leaf, 'Q', Leaf), 'S', B(R(Leaf, 'W', Leaf), 'Y', R(Leaf, 'Z', Leaf))))])) ==
            B(R(B(Leaf, 'E', Leaf), 'H', B(Leaf, 'K', R(Leaf, 'M', Leaf))), 'N', R(B(Leaf, 'Q', Leaf), 'S', B(R(Leaf, 'W', Leaf), 'Y', R(Leaf, 'Z', Leaf))))
  {
  }

  lemma RedBlackTest1Insert10(t: Tree, v: int)
    requires t == B(B(R(Leaf, 'E', Leaf), 'H', R(Leaf, 'K', Leaf)), 'N', R(B(Leaf, 'Q', Leaf), 'S', B(R(Leaf, 'W', Leaf), 'Y', R(Leaf, 'Z', Leaf)))) && v == 'M' as int
    ensures RedBlackTree.Insert(t, Some(v)).value ==
            B(R(B(Leaf, 'E', Leaf), 'H', B(Leaf, 'K', R(Leaf, 'M', Leaf))), 'N', R(B(Leaf, 'Q', Leaf), 'S', B(R(Leaf, 'W', Leaf), 'Y', R(Leaf, 'Z', Leaf))))
  {
    RedBlackTest1Insert10Slot();
    RedBlackTest1Insert10Start();
    RedBlackTest1Insert10Fix();
    RedBlackTest1Insert10End();
    InsertVia(t, v, Zipper(Leaf, [Frame(Right, Red, 'K' as int, Leaf), Frame(Right, Black, 'H' as int, R(Leaf, 'E', Leaf)), Frame(Left, Black, 'N' as int, R(B(Leaf, 'Q', Leaf), 'S', B(R(Leaf, 'W', Leaf), 'Y', R(Leaf, 'Z', Leaf))))]).path, Zipper(R(Leaf, 'M', Leaf), [Frame(Right, Red, 'K' as int, Leaf), Frame(Right, Black, 'H' as int, R(Leaf, 'E', Leaf)), Frame(Left, Black, 'N' as int, R(B(Leaf, 'Q', Leaf), 'S', B(R(Leaf, 'W', Leaf), 'Y', R(Leaf, 'Z', Leaf))))]), Zipper(R(B(Leaf, 'E', Leaf), 'H', B(Leaf, 'K', R(Leaf, 'M', Leaf))), [Frame(Left, Black, 'N' as int, R(B(Leaf, 'Q', Leaf), 'S', B(R(Leaf, 'W', Leaf), 'Y', R(Leaf, 'Z', Leaf))))]), B(R(B(Leaf, 'E', Leaf), 'H', B(Leaf, 'K', R(Leaf, 'M', Leaf))), 'N', R(B(Leaf, 'Q', Leaf), 'S', B(R(Leaf, 'W', Leaf), 'Y', R(Leaf, 'Z', Leaf)))));
  }

  /** The first test: level order N(b), H(r), S(r), E(b), K(b), Q(b), Y(b), M(r), W(r), Z(r). */
  lemma RedBlackTest1()
    ensures RedBlackTree.InsertAll(Leaf, ['N' as int, 'H' as int, 'S' as int, 'E' as int, 'K' as int, 'Q' as int, 'Y' as int, 'W' as int, 'Z' as int, 'M' as int]) ==
            B(R(B(Leaf, 'E', Leaf), 'H', B(Leaf, 'K', R(Leaf, 'M', Leaf))), 'N', R(B(Leaf, 'Q', Leaf), 'S', B(R(Leaf, 'W', Leaf), 'Y', R(Leaf, 'Z', Leaf))))
  {
    RedBlackTest1From1();
  }

  lemma RedBlackTest1From1()
    ensures RedBlackTree.InsertAll(B(Leaf, 'N', Leaf), ['H' as int, 'S' as int, 'E' as int, 'K' as int, 'Q' as int, 'Y' as int, 'W' as int, 'Z' as int, 'M' as int]) ==
            B(R(B(Leaf, 'E', Leaf), 'H', B(Leaf, 'K', R(Leaf, 'M', Leaf))), 'N', R(B(Leaf, 'Q', Leaf), 'S', B(R(Leaf, 'W', Leaf), 'Y', R(Leaf, 'Z', Leaf))))
  {
    RedBlackTest1From2();
    RedBlackTest1Insert2(B(Leaf, 'N', Leaf), 'H' as int);
  }

  lemma RedBlackTest1From2()
    ensures RedBlackTree.InsertAll(B(R(Leaf, 'H', Leaf), 'N', Leaf), ['S' as int, 'E' as int, 'K' as int, 'Q' as int, 'Y' as int, 'W' as int, 'Z' as int, 'M' as int]) ==
            B(R(B(Leaf, 'E', Leaf), 'H', B(Leaf, 'K', R(Leaf, 'M', Leaf))), 'N', R(B(Leaf, 'Q', Leaf), 'S', B(R(Leaf, 'W', Leaf), 'Y', R(Leaf, 'Z', Leaf))))
  {
    RedBlackTest1From3();
    RedBlackTest1Insert3(B(R(Leaf, 'H', Leaf), 'N', Leaf), 'S' as int);
  }

  lemma RedBlackTest1From3()
    ensures RedBlackTree.InsertAll(B(R(Leaf, 'H', Leaf), 'N', R(Leaf, 'S', Leaf)), ['E' as int, 'K' as int, 'Q' as int, 'Y' as int, 'W' as int, 'Z' as int, 'M' as int]) ==
            B(R(B(Leaf, 'E', Leaf), 'H', B(Leaf, 'K', R(Leaf, 'M', Leaf))), 'N', R(B(Leaf, 'Q', Leaf), 'S', B(R(Leaf, 'W', Leaf), 'Y', R(Leaf, 'Z', Leaf))))
  {
    RedBlackTest1From4();
    RedBlackTest1Insert4(B(R(Leaf, 'H', Leaf), 'N', R(Leaf, 'S', Leaf)), 'E' as int);
  }

  lemma RedBlackTest1From4()
    ensures RedBlackTree.InsertAll(B(B(R(Leaf, 'E', Leaf), 'H', Leaf), 'N', B(Leaf, 'S', Leaf)), ['K' as int, 'Q' as int, 'Y' as int, 'W' as int, 'Z' as int, 'M' as int]) ==
            B(R(B(Leaf, 'E', Leaf), 'H', B(Leaf, 'K', R(Leaf, 'M', Leaf))), 'N', R(B(Leaf, 'Q', Leaf), 'S', B(R(Leaf, 'W', Leaf), 'Y', R(Leaf, 'Z', Leaf))))
  {
    RedBlackTest1From5();
    RedBlackTest1Insert5(B(B(R(Leaf, 'E', Leaf), 'H', Leaf), 'N', B(Leaf, 'S', Leaf)), 'K' as int);
  }

  lemma RedBlackTest1From5()
    ensures RedBlackTree.InsertAll(B(B(R(Leaf, 'E', Leaf), 'H', R(Leaf, 'K', Leaf)), 'N', B(Leaf, 'S', Leaf)), ['Q' as int, 'Y' as int, 'W' as int, 'Z' as int, 'M' as int]) ==
            B(R(B(Leaf, 'E', Leaf), 'H', B(Leaf, 'K', R(Leaf, 'M', Leaf))), 'N', R(B(Leaf, 'Q', Leaf), 'S', B(R(Leaf, 'W', Leaf), 'Y', R(Leaf, 'Z', Leaf))))
  {
    RedBlackTest1From6();
    RedBlackTest1Insert6(B(B(R(Leaf, 'E', Leaf), 'H', R(Leaf, 'K', Leaf)), 'N', B(Leaf, 'S', Leaf)), 'Q' as int);
  }

  lemma RedBlackTest1From6()
    ensures RedBlackTree.InsertAll(B(B(R(Leaf, 'E', Leaf), 'H', R(Leaf, 'K', Leaf)), 'N', B(R(Leaf, 'Q', Leaf), 'S', Leaf)), ['Y' as int, 'W' as int, 'Z' as int, 'M' as int]) ==
            B(R(B(Leaf, 'E', Leaf), 'H', B(Leaf, 'K', R(Leaf, 'M', Leaf))), 'N', R(B(Leaf, 'Q', Leaf), 'S', B(R(Leaf, 'W', Leaf), 'Y', R(Leaf, 'Z', Leaf))))
  {
    RedBlackTest1From7();
    RedBlackTest1Insert7(B(B(R(Leaf, 'E', Leaf), 'H', R(Leaf, 'K', Leaf)), 'N', B(R(Leaf, 'Q', Leaf), 'S', Leaf)), 'Y' as int);
  }

  lemma RedBlackTest1From7()
    ensures RedBlackTree.InsertAll(B(B(R(Leaf, 'E', Leaf), 'H', R(Leaf, 'K', Leaf)), 'N', B(R(Leaf, 'Q', Leaf), 'S', R(Leaf, 'Y', Leaf))), ['W' as int, 'Z' as int, 'M' as int]) ==
            B(R(B(Leaf, 'E', Leaf), 'H', B(Leaf, 'K', R(Leaf, 'M', Leaf))), 'N', R(B(Leaf, 'Q', Leaf), 'S', B(R(Leaf, 'W', Leaf), 'Y', R(Leaf, 'Z', Leaf))))
  {
    RedBlackTest1From8();
    RedBlackTest1Insert8(B(B(R(Leaf, 'E', Leaf), 'H', R(Leaf, 'K', Leaf)), 'N', B(R(Leaf, 'Q', Leaf), 'S', R(Leaf, 'Y', Leaf))), 'W' as int);
  }

  lemma RedBlackTest1From8()
    ensures RedBlackTree.InsertAll(B(B(R(Leaf, 'E', Leaf), 'H', R(Leaf, 'K', Leaf)), 'N', R(B(Leaf, 'Q', Leaf), 'S', B(R(Leaf, 'W', Leaf), 'Y', Leaf))), ['Z' as int, 'M' as int]) ==
            B(R(B(Leaf, 'E', Leaf), 'H', B(Leaf, 'K', R(Leaf, 'M', Leaf))), 'N', R(B(Leaf, 'Q', Leaf), 'S', B(R(Leaf, 'W', Leaf), 'Y', R(Leaf, 'Z', Leaf))))
  {
    RedBlackTest1From9();
    RedBlackTest1Insert9(B(B(R(Leaf, 'E', Leaf), 'H', R(Leaf, 'K', Leaf)), 'N', R(B(Leaf, 'Q', Leaf), 'S', B(R(Leaf, 'W', Leaf), 'Y', Leaf))), 'Z' as int);
  }

  lemma RedBlackTest1From9()
    ensures RedBlackTree.InsertAll(B(B(R(Leaf, 'E', Leaf), 'H', R(Leaf, 'K', Leaf)), 'N', R(B(Leaf, 'Q', Leaf), 'S', B(R(Leaf, 'W', Leaf), 'Y', R(Leaf, 'Z', Leaf)))), ['M' as int]) ==
            B(R(B(Leaf, 'E', Leaf), 'H', B(Leaf, 'K', R(Leaf, 'M', Leaf))), 'N', R(B(Leaf, 'Q', Leaf), 'S', B(R(Leaf, 'W', Leaf), 'Y', R(Leaf, 'Z', Leaf))))
  {
    RedBlackTest1Insert10(B(B(R(Leaf, 'E', Leaf), 'H', R(Leaf, 'K', Leaf)), 'N', R(B(Leaf, 'Q', Leaf), 'S', B(R(Leaf, 'W', Leaf), 'Y', R(Leaf, 'Z', Leaf)))), 'M' as int);
  }

  lemma RedBlackTest2Insert2Slot()
    ensures BinarySearchTree.InsertionSlot(B(Leaf, 'M', Leaf), 'H' as int).path ==
            Zipper(Leaf, [Frame(Left, Black, 'M' as int, Leaf)]).path
  {
  }

  lemma RedBlackTest2Insert2Start()
    ensures RedBlackTree.BlackenRoot(Zipper(NewNode('H' as int), Zipper(Leaf, [Frame(Left, Black, 'M' as int, Leaf)]).path)) ==
            Zipper(R(Leaf, 'H', Leaf), [Frame(Left, Black, 'M' as int, Leaf)])
  {
  }

  lemma RedBlackTest2Insert2Fix0()
    ensures RedBlackTree.EnsureRedProperty(Zipper(R(Leaf, 'H', Leaf), [Frame(Left, Black, 'M' as int, Leaf)])) ==
            Zipper(R(Leaf, 'H', Leaf), [Frame(Left, Black, 'M' as int, Leaf)])
  {
  }

  lemma RedBlackTest2Insert2End()
    ensures Plug(Zipper(R(Leaf, 'H', Leaf), [Frame(Left, Black, 'M' as int, Leaf)])) ==
            B(R(Leaf, 'H', Leaf), 'M', Leaf)
  {
  }

  lemma RedBlackTest2Insert2(t: Tree, v: int)
    requires t == B(Leaf, 'M', Leaf) && v == 'H' as int
    ensures RedBlackTree.Insert(t, Some(v)).value ==
            B(R(Leaf, 'H', Leaf), 'M', Leaf)
  {
    RedBlackTest2Insert2Slot();
    RedBlackTest2Insert2Start();
    RedBlackTest2Insert2Fix0();
    RedBlackTest2Insert2End();
    InsertVia(t, v, Zipper(Leaf, [Frame(Left, Black, 'M' as int, Leaf)]).path, Zipper(R(Leaf, 'H', Leaf), [Frame(Left, Black, 'M' as int, Leaf)]), Zipper(R(Leaf, 'H', Leaf), [Frame(Left, Black, 'M' as int, Leaf)]), B(R(Leaf, 'H', Leaf), 'M', Leaf));
  }

  lemma RedBlackTest2Insert3Slot()
    ensures BinarySearchTree.InsertionSlot(B(R(Leaf, 'H', Leaf), 'M', Leaf), 'T' as int).path ==
            Zipper(Leaf, [Frame(Right, Black, 'M' as int, R(Leaf, 'H', Leaf))]).path
  {
  }

  lemma RedBlackTest2Insert3Start()
    ensures RedBlackTree.BlackenRoot(Zipper(NewNode('T' as int), Zipper(Leaf, [Frame(Right, Black, 'M' as int, R(Leaf, 'H', Leaf))]).path)) ==
            Zipper(R(Leaf, 'T', Leaf), [Frame(Right, Black, 'M' as int, R(Leaf, 'H', Leaf))])
  {
  }

  lemma RedBlackTest2Insert3Fix0()
    ensures RedBlackTree.EnsureRedProperty(Zipper(R(Leaf, 'T', Leaf), [Frame(Right, Black, 'M' as int, R(Leaf, 'H', Leaf))])) ==
            Zipper(R(Leaf, 'T', Leaf), [Frame(Right, Black, 'M' as int, R(Leaf, 'H', Leaf))])
  {
  }

  lemma RedBlackTest2Insert3End()
    ensures Plug(Zipper(R(Leaf, 'T', Leaf), [Frame(Right, Black, 'M' as int, R(Leaf, 'H', Leaf))])) ==
            B(R(Leaf, 'H', Leaf), 'M', R(Leaf, 'T', Leaf))
  {
  }

  lemma RedBlackTest2Insert3(t: Tree, v: int)
    requires t == B(R(Leaf, 'H', Leaf), 'M', Leaf) && v == 'T' as int
    ensures RedBlackTree.Insert(t, Some(v)).value ==
            B(R(Leaf, 'H', Leaf), 'M', R(Leaf, 'T', Leaf))
  {
    RedBlackTest2Insert3Slot();
    RedBlackTest2Insert3Start();
    RedBlackTest2Insert3Fix0();
    RedBlackTest2Insert3End();
    InsertVia(t, v, Zipper(Leaf, [Frame(Right, Black, 'M' as int, R(Leaf, 'H', Leaf))]).path, Zipper(R(Leaf, 'T', Leaf), [Frame(Right, Black, 'M' as int, R(Leaf, 'H', Leaf))]), Zipper(R(Leaf, 'T', Leaf), [Frame(Right, Black, 'M' as int, R(Leaf, 'H', Leaf))]), B(R(Leaf, 'H', Leaf), 'M', R(Leaf, 'T', Leaf)));
  }

  lemma RedBlackTest2Insert4Slot()
    ensures BinarySearchTree.InsertionSlot(B(R(Leaf, 'H', Leaf), 'M', R(Leaf, 'T', Leaf)), 'E' as int).path ==
            Zipper(Leaf, [Frame(Left, Red, 'H' as int, Leaf), Frame(Left, Black, 'M' as int, R(Leaf, 'T', Leaf))]).path
  {
  }

  lemma RedBlackTest2Insert4Start()
    ensures RedBlackTree.BlackenRoot(Zipper(NewNode('E' as int), Zipper(Leaf, [Frame(Left, Red, 'H' as int, Leaf), Frame(Left, Black, 'M' as int, R(Leaf, 'T', Leaf))]).path)) ==
            Zipper(R(Leaf, 'E', Leaf), [Frame(Left, Red, 'H' as int, Leaf), Frame(Left, Black, 'M' as int, R(Leaf, 'T', Leaf))])
  {
  }

  lemma RedBlackTest2Insert4Fix0()
    ensures RedBlackTree.EnsureRedProperty(Zipper(R(Leaf, 'E', Leaf), [Frame(Left, Red, 'H' as int, Leaf), Frame(Left, Black, 'M' as int, R(Leaf, 'T', Leaf))])) ==
            RedBlackTree.EnsureRedProperty(Zipper(B(B(R(Leaf, 'E', Leaf), 'H', Leaf), 'M', B(Leaf, 'T', Leaf)), []))
  {
  }

  lemma RedBlackTest2Insert4Fix1()
    ensures RedBlackTree.EnsureRedProperty(Zipper(B(B(R(Leaf, 'E', Leaf), 'H', Leaf), 'M', B(Leaf, 'T', Leaf)), [])) ==
            Zipper(B(B(R(Leaf, 'E', Leaf), 'H', Leaf), 'M', B(Leaf, 'T', Leaf)), [])
  {
  }

  lemma RedBlackTest2Insert4Fix()
    ensures RedBlackTree.EnsureRedProperty(Zipper(R(Leaf, 'E', Leaf), [Frame(Left, Red, 'H' as int, Leaf), Frame(Left, Black, 'M' as int, R(Leaf, 'T', Leaf))])) ==
            Zipper(B(B(R(Leaf, 'E', Leaf), 'H', Leaf), 'M', B(Leaf, 'T', Leaf)), [])
  {
    RedBlackTest2Insert4Fix0();
    RedBlackTest2Insert4Fix1();
  }

  lemma RedBlackTest2Insert4End()
    ensures Plug(Zipper(B(B(R(Leaf, 'E', Leaf), 'H', Leaf), 'M', B(Leaf, 'T', Leaf)), [])) ==
            B(B(R(Leaf, 'E', Leaf), 'H', Leaf), 'M', B(Leaf, 'T', Leaf))
  {
  }

  lemma RedBlackTest2Insert4(t: Tree, v: int)
    requires t == B(R(Leaf, 'H', Leaf), 'M', R(Leaf, 'T', Leaf)) && v == 'E' as int
    ensures RedBlackTree.Insert(t, Some(v)).value ==
            B(B(R(Leaf, 'E', Leaf), 'H', Leaf), 'M', B(Leaf, 'T', Leaf))
  {
    RedBlackTest2Insert4Slot();
    RedBlackTest2Insert4Start();
    RedBlackTest2Insert4Fix();
    RedBlackTest2Insert4End();
    InsertVia(t, v, Zipper(Leaf, [Frame(Left, Red, 'H' as int, Leaf), Frame(Left, Black, 'M' as int, R(Leaf, 'T', Leaf))]).path, Zipper(R(Leaf, 'E', Leaf), [Frame(Left, Red, 'H' as int, Leaf), Frame(Left, Black, 'M' as int, R(Leaf, 'T', Leaf))]), Zipper(B(B(R(Leaf, 'E', Leaf), 'H', Leaf), 'M', B(Leaf, 'T', Leaf)), []), B(B(R(Leaf, 'E', Leaf), 'H', Leaf), 'M', B(Leaf, 'T', Leaf)));
  }

  lemma RedBlackTest2Insert5Slot()
    ensures BinarySearchTree.InsertionSlot(B(B(R(Leaf, 'E', Leaf), 'H', Leaf), 'M', B(Leaf, 'T', Leaf)), 'J' as int).path ==
            Zipper(Leaf, [Frame(Right, Black, 'H' as int, R(Leaf, 'E', Leaf)), Frame(Left, Black, 'M' as int, B(Leaf, 'T', Leaf))]).path
  {
  }

  lemma RedBlackTest2Insert5Start()
    ensures RedBlackTree.BlackenRoot(Zipper(NewNode('J' as int), Zipper(Leaf, [Frame(Right, Black, 'H' as int, R(Leaf, 'E', Leaf)), Frame(Left, Black, 'M' as int, B(Leaf, 'T', Leaf))]).path)) ==
            Zipper(R(Leaf, 'J', Leaf), [Frame(Right, Black, 'H' as int, R(Leaf, 'E', Leaf)), Frame(Left, Black, 'M' as int, B(Leaf, 'T', Leaf))])
  {
  }

  lemma RedBlackTest2Insert5Fix0()
    ensures RedBlackTree.EnsureRedProperty(Zipper(R(Leaf, 'J', Leaf), [Frame(Right, Black, 'H' as int, R(Leaf, 'E', Leaf)), Frame(Left, Black, 'M' as int, B(Leaf, 'T', Leaf))])) ==
            Zipper(R(Leaf, 'J', Leaf), [Frame(Right, Black, 'H' as int, R(Leaf, 'E', Leaf)), Frame(Left, Black, 'M' as int, B(Leaf, 'T', Leaf))])
  {
  }

  lemma RedBlackTest2Insert5End()
    ensures Plug(Zipper(R(Leaf, 'J', Leaf), [Frame(Right, Black, 'H' as int, R(Leaf, 'E', Leaf)), Frame(Left, Black, 'M' as int, B(Leaf, 'T', Leaf))])) ==
            B(B(R(Leaf, 'E', Leaf), 'H', R(Leaf, 'J', Leaf)), 'M', B(Leaf, 'T', Leaf))
  {
    assert Plug(Zipper(B(R(Leaf, 'E', Leaf), 'H', R(Leaf, 'J', Leaf)), [Frame(Left, Black, 'M' as int, B(Leaf, 'T', Leaf))])) == B(B(R(Leaf, 'E', Leaf), 'H', R(Leaf, 'J', Leaf)), 'M', B(Leaf, 'T', Leaf));
  }

  lemma RedBlackTest2Insert5(t: Tree, v: int)
    requires t == B(B(R(Leaf, 'E', Leaf), 'H', Leaf), 'M', B(Leaf, 'T', Leaf)) && v == 'J' as int
    ensures RedBlackTree.Insert(t, Some(v)).value ==
            B(B(R(Leaf, 'E', Leaf), 'H', R(Leaf, 'J', Leaf)), 'M', B(Leaf, 'T', Leaf))
  {
    RedBlackTest2Insert5Slot();
    RedBlackTest2Insert5Start();
    RedBlackTest2Insert5Fix0();
    RedBlackTest2Insert5End();
    InsertVia(t, v, Zipper(Leaf, [Frame(Right, Black, 'H' as int, R(Leaf, 'E', Leaf)), Frame(Left, Black, 'M' as int, B(Leaf, 'T', Leaf))]).path, Zipper(R(Leaf, 'J', Leaf), [Frame(Right, Black, 'H' as int, R(Leaf, 'E', Leaf)), Frame(Left, Black, 'M' as int, B(Leaf, 'T', Leaf))]), Zipper(R(Leaf, 'J', Leaf), [Frame(Right, Black, 'H' as int, R(Leaf, 'E', Leaf)), Frame(Left, Black, 'M' as int, B(Leaf, 'T', Leaf))]), B(B(R(Leaf, 'E', Leaf), 'H', R(Leaf, 'J', Leaf)), 'M', B(Leaf, 'T', Leaf)));
  }

  lemma RedBlackTest2Insert6Slot()
    ensures BinarySearchTree.InsertionSlot(B(B(R(Leaf, 'E', Leaf), 'H', R(Leaf, 'J', Leaf)), 'M', B(Leaf, 'T', Leaf)), 'Q' as int).path ==
            Zipper(Leaf, [Frame(Left, Black, 'T' as int, Leaf), Frame(Right, Black, 'M' as int, B(R(Leaf, 'E', Leaf), 'H', R(Leaf, 'J', Leaf)))]).path
  {
  }

  lemma RedBlackTest2Insert6Start()
    ensures RedBlackTree.BlackenRoot(Zipper(NewNode('Q' as int), Zipper(Leaf, [Frame(Left, Black, 'T' as int, Leaf), Frame(Right, Black, 'M' as int, B(R(Leaf, 'E', Leaf), 'H', R(Leaf, 'J', Leaf)))]).path)) ==
            Zipper(R(Leaf, 'Q', Leaf), [Frame(Left, Black, 'T' as int, Leaf), Frame(Right, Black, 'M' as int, B(R(Leaf, 'E', Leaf), 'H', R(Leaf, 'J', Leaf)))])
  {
  }

  lemma RedBlackTest2Insert6Fix0()
    ensures RedBlackTree.EnsureRedProperty(Zipper(R(Leaf, 'Q', Leaf), [Frame(Left, Black, 'T' as int, Leaf), Frame(Right, Black, 'M' as int, B(R(Leaf, 'E', Leaf), 'H', R(Leaf, 'J', Leaf)))])) ==
            Zipper(R(Leaf, 'Q', Leaf), [Frame(Left, Black, 'T' as int, Leaf), Frame(Right, Black, 'M' as int, B(R(Leaf, 'E', Leaf), 'H', R(Leaf, 'J', Leaf)))])
  {
  }

  lemma RedBlackTest2Insert6End()
    ensures Plug(Zipper(R(Leaf, 'Q', Leaf), [Frame(Left, Black, 'T' as int, Leaf), Frame(Right, Black, 'M' as int, B(R(Leaf, 'E', Leaf), 'H', R(Leaf, 'J', Leaf)))])) ==
            B(B(R(Leaf, 'E', Leaf), 'H', R(Leaf, 'J', Leaf)), 'M', B(R(Leaf, 'Q', Leaf), 'T', Leaf))
  {
    assert Plug(Zipper(B(R(Leaf, 'Q', Leaf), 'T', Leaf), [Frame(Right, Black, 'M' as int, B(R(Leaf, 'E', Leaf), 'H', R(Leaf, 'J', Leaf)))])) == B(B(R(Leaf, 'E', Leaf), 'H', R(Leaf, 'J', Leaf)), 'M', B(R(Leaf, 'Q', Leaf), 'T', Leaf));
  }

  lemma RedBlackTest2Insert6(t: Tree, v: int)
    requires t == B(B(R(Leaf, 'E', Leaf), 'H', R(Leaf, 'J', Leaf)), 'M', B(Leaf, 'T', Leaf)) && v == 'Q' as int
    ensures RedBlackTree.Insert(t, Some(v)).value ==
            B(B(R(Leaf, 'E', Leaf), 'H', R(Leaf, 'J', Leaf)), 'M', B(R(Leaf, 'Q', Leaf), 'T', Leaf))
  {
    RedBlackTest2Insert6Slot();
    RedBlackTest2Insert6Start();
    RedBlackTest2Insert6Fix0();
    RedBlackTest2Insert6End();
    InsertVia(t, v, Zipper(Leaf, [Frame(Left, Black, 'T' as int, Leaf), Frame(Right, Black, 'M' as int, B(R(Leaf, 'E', Leaf), 'H', R(Leaf, 'J', Leaf)))]).path, Zipper(R(Leaf, 'Q', Leaf), [Frame(Left, Black, 'T' as int, Leaf), Frame(Right, Black, 'M' as int, B(R(Leaf, 'E', Leaf), 'H', R(Leaf, 'J', Leaf)))]), Zipper(R(Leaf, 'Q', Leaf), [Frame(Left, Black, 'T' as int, Leaf), Frame(Right, Black, 'M' as int, B(R(Leaf, 'E', Leaf), 'H', R(Leaf, 'J', Leaf)))]), B(B(R(Leaf, 'E', Leaf), 'H', R(Leaf, 'J', Leaf)), 'M', B(R(Leaf, 'Q', Leaf), 'T', Leaf)));
  }

  lemma RedBlackTest2Insert7Slot()
    ensures BinarySearchTree.InsertionSlot(B(B(R(Leaf, 'E', Leaf), 'H', R(Leaf, 'J', Leaf)), 'M', B(R(Leaf, 'Q', Leaf), 'T', Leaf)), 'V' as int).path ==
            Zipper(Leaf, [Frame(Right, Black, 'T' as int, R(Leaf, 'Q', Leaf)), Frame(Right, Black, 'M' as int, B(R(Leaf, 'E', Leaf), 'H', R(Leaf, 'J', Leaf)))]).path
  {
  }

  lemma RedBlackTest2Insert7Start()
    ensures RedBlackTree.BlackenRoot(Zipper(NewNode('V' as int), Zipper(Leaf, [Frame(Right, Black, 'T' as int, R(Leaf, 'Q', Leaf)), Frame(Right, Black, 'M' as int, B(R(Leaf, 'E', Leaf), 'H', R(Leaf, 'J', Leaf)))]).path)) ==
            Zipper(R(Leaf, 'V', Leaf), [Frame(Right, Black, 'T' as int, R(Leaf, 'Q', Leaf)), Frame(Right, Black, 'M' as int, B(R(Leaf, 'E', Leaf), 'H', R(Leaf, 'J', Leaf)))])
  {
  }

  lemma RedBlackTest2Insert7Fix0()
    ensures RedBlackTree.EnsureRedProperty(Zipper(R(Leaf, 'V', Leaf), [Frame(Right, Black, 'T' as int, R(Leaf, 'Q', Leaf)), Frame(Right, Black, 'M' as int, B(R(Leaf, 'E', Leaf), 'H', R(Leaf, 'J', Leaf)))])) ==
            Zipper(R(Leaf, 'V', Leaf), [Frame(Right, Black, 'T' as int, R(Leaf, 'Q', Leaf)), Frame(Right, Black, 'M' as int, B(R(Leaf, 'E', Leaf), 'H', R(Leaf, 'J', Leaf)))])
  {
  }

  lemma RedBlackTest2Insert7End()
    ensures Plug(Zipper(R(Leaf, 'V', Leaf), [Frame(Right, Black, 'T' as int, R(Leaf, 'Q', Leaf)), Frame(Right, Black, 'M' as int, B(R(Leaf, 'E', Leaf), 'H', R(Leaf, 'J', Leaf)))])) ==
            B(B(R(Leaf, 'E', Leaf), 'H', R(Leaf, 'J', Leaf)), 'M', B(R(Leaf, 'Q', Leaf), 'T', R(Leaf, 'V', Leaf)))
  {
    assert Plug(Zipper(B(R(Leaf, 'Q', Leaf), 'T', R(Leaf, 'V', Leaf)), [Frame(Right, Black, 'M' as int, B(R(Leaf, 'E', Leaf), 'H', R(Leaf, 'J', Leaf)))])) == B(B(R(Leaf, 'E', Leaf), 'H', R(Leaf, 'J', Leaf)), 'M', B(R(Leaf, 'Q', Leaf), 'T', R(Leaf, 'V', Leaf)));
  }

  lemma RedBlackTest2Insert7(t: Tree, v: int)
    requires t == B(B(R(Leaf, 'E', Leaf), 'H', R(Leaf, 'J', Leaf)), 'M', B(R(Leaf, 'Q', Leaf), 'T', Leaf)) && v == 'V' as int
    ensures RedBlackTree.Insert(t, Some(v)).value ==
            B(B(R(Leaf, 'E', Leaf), 'H', R(Leaf, 'J', Leaf)), 'M', B(R(Leaf, 'Q', Leaf), 'T', R(Leaf, 'V', Leaf)))
  {
    RedBlackTest2Insert7Slot();
    RedBlackTest2Insert7Start();
    RedBlackTest2Insert7Fix0();
    RedBlackTest2Insert7End();
    InsertVia(t, v, Zipper(Leaf, [Frame(Right, Black, 'T' as int, R(Leaf, 'Q', Leaf)), Frame(Right, Black, 'M' as int, B(R(Leaf, 'E', Leaf), 'H', R(Leaf, 'J', Leaf)))]).path, Zipper(R(Leaf, 'V', Leaf), [Frame(Right, Black, 'T' as int, R(Leaf, 'Q', Leaf)), Frame(Right, Black, 'M' as int, B(R(Leaf, 'E', Leaf), 'H', R(Leaf, 'J', Leaf)))]), Zipper(R(Leaf, 'V', Leaf), [Frame(Right, Black, 'T' as int, R(Leaf, 'Q', Leaf)), Frame(Right, Black, 'M' as int, B(R(Leaf, 'E', Leaf), 'H', R(Leaf, 'J', Leaf)))]), B(B(R(Leaf, 'E', Leaf), 'H', R(Leaf, 'J', Leaf)), 'M', B(R(Leaf, 'Q', Leaf), 'T', R(Leaf, 'V', Leaf))));
  }

  lemma RedBlackTest2Insert8Slot()
    ensures BinarySearchTree.InsertionSlot(B(B(R(Leaf, 'E', Leaf), 'H', R(Leaf, 'J', Leaf)), 'M', B(R(Leaf, 'Q', Leaf), 'T', R(Leaf, 'V', Leaf))), 'I' as int).path ==
            Zipper(Leaf, [Frame(Left, Red, 'J' as int, Leaf), Frame(Right, Black, 'H' as int, R(Leaf, 'E', Leaf)), Frame(Left, Black, 'M' as int, B(R(Leaf, 'Q', Leaf), 'T', R(Leaf, 'V', Leaf)))]).path
  {
  }

  lemma RedBlackTest2Insert8Start()
    ensures RedBlackTree.BlackenRoot(Zipper(NewNode('I' as int), Zipper(Leaf, [Frame(Left, Red, 'J' as int, Leaf), Frame(Right, Black, 'H' as int, R(Leaf, 'E', Leaf)), Frame(Left, Black, 'M' as int, B(R(Leaf, 'Q', Leaf), 'T', R(Leaf, 'V', Leaf)))]).path)) ==
            Zipper(R(Leaf, 'I', Leaf), [Frame(Left, Red, 'J' as int, Leaf), Frame(Right, Black, 'H' as int, R(Leaf, 'E', Leaf)), Frame(Left, Black, 'M' as int, B(R(Leaf, 'Q', Leaf), 'T', R(Leaf, 'V', Leaf)))])
  {
  }

  lemma RedBlackTest2Insert8Fix0()
    ensures RedBlackTree.EnsureRedProperty(Zipper(R(Leaf, 'I', Leaf), [Frame(Left, Red, 'J' as int, Leaf), Frame(Right, Black, 'H' as int, R(Leaf, 'E', Leaf)), Frame(Left, Black, 'M' as int, B(R(Leaf, 'Q', Leaf), 'T', R(Leaf, 'V', Leaf)))])) ==
            RedBlackTree.EnsureRedProperty(Zipper(R(B(Leaf, 'E', Leaf), 'H', B(R(Leaf, 'I', Leaf), 'J', Leaf)), [Frame(Left, Black, 'M' as int, B(R(Leaf, 'Q', Leaf), 'T', R(Leaf, 'V', Leaf)))]))
  {
  }

  lemma RedBlackTest2Insert8Fix1()
    ensures RedBlackTree.EnsureRedProperty(Zipper(R(B(Leaf, 'E', Leaf), 'H', B(R(Leaf, 'I', Leaf), 'J', Leaf)), [Frame(Left, Black, 'M' as int, B(R(Leaf, 'Q', Leaf), 'T', R(Leaf, 'V', Leaf)))])) ==
            Zipper(R(B(Leaf, 'E', Leaf), 'H', B(R(Leaf, 'I', Leaf), 'J', Leaf)), [Frame(Left, Black, 'M' as int, B(R(Leaf, 'Q', Leaf), 'T', R(Leaf, 'V', Leaf)))])
  {
  }

  lemma RedBlackTest2Insert8Fix()
    ensures RedBlackTree.EnsureRedProperty(Zipper(R(Leaf, 'I', Leaf), [Frame(Left, Red, 'J' as int, Leaf), Frame(Right, Black, 'H' as int, R(Leaf, 'E', Leaf)), Frame(Left, Black, 'M' as int, B(R(Leaf, 'Q', Leaf), 'T', R(Leaf, 'V', Leaf)))])) ==
            Zipper(R(B(Leaf, 'E', Leaf), 'H', B(R(Leaf, 'I', Leaf), 'J', Leaf)), [Frame(Left, Black, 'M' as int, B(R(Leaf, 'Q', Leaf), 'T', R(Leaf, 'V', Leaf)))])
  {
    RedBlackTest2Insert8Fix0();
    RedBlackTest2Insert8Fix1();
  }

  lemma RedBlackTest2Insert8End()
    ensures Plug(Zipper(R(B(Leaf, 'E', Leaf), 'H', B(R(Leaf, 'I', Leaf), 'J', Leaf)), [Frame(Left, Black, 'M' as int, B(R(Leaf, 'Q', Leaf), 'T', R(Leaf, 'V', Leaf)))])) ==
            B(R(B(Leaf, 'E', Leaf), 'H', B(R(Leaf, 'I', Leaf), 'J', Leaf)), 'M', B(R(Leaf, 'Q', Leaf), 'T', R(Leaf, 'V', Leaf)))
  {
  }

  lemma RedBlackTest2Insert8(t: Tree, v: int)
    requires t == B(B(R(Leaf, 'E', Leaf), 'H', R(Leaf, 'J', Leaf)), 'M', B(R(Leaf, 'Q', Leaf), 'T', R(Leaf, 'V', Leaf))) && v == 'I' as int
    ensures RedBlackTree.Insert(t, Some(v)).value ==
            B(R(B(Leaf, 'E', Leaf), 'H', B(R(Leaf, 'I', Leaf), 'J', Leaf)), 'M', B(R(Leaf, 'Q', Leaf), 'T', R(Leaf, 'V', Leaf)))
  {
    RedBlackTest2Insert8Slot();
    RedBlackTest2Insert8Start();
    RedBlackTest2Insert8Fix();
    RedBlackTest2Insert8End();
    InsertVia(t, v, Zipper(Leaf, [Frame(Left, Red, 'J' as int, Leaf), Frame(Right, Black, 'H' as int, R(Leaf, 'E', Leaf)), Frame(Left, Black, 'M' as int, B(R(Leaf, 'Q', Leaf), 'T', R(Leaf, 'V', Leaf)))]).path, Zipper(R(Leaf, 'I', Leaf), [Frame(Left, Red, 'J' as int, Leaf), Frame(Right, Black, 'H' as int, R(Leaf, 'E', Leaf)), Frame(Left, Black, 'M' as int, B(R(Leaf, 'Q', Leaf), 'T', R(Leaf, 'V', Leaf)))]), Zipper(R(B(Leaf, 'E', Leaf), 'H', B(R(Leaf, 'I', Leaf), 'J', Leaf)), [Frame(Left, Black, 'M' as int, B(R(Leaf, 'Q', Leaf), 'T', R(Leaf, 'V', Leaf)))]), B(R(B(Leaf, 'E', Leaf), 'H', B(R(Leaf, 'I', Leaf), 'J', Leaf)), 'M', B(R(Leaf, 'Q', Leaf), 'T', R(Leaf, 'V', Leaf))));
  }

  lemma RedBlackTest2Insert9Slot()
    ensures BinarySearchTree.InsertionSlot(B(R(B(Leaf, 'E', Leaf), 'H', B(R(Leaf, 'I', Leaf), 'J', Leaf)), 'M', B(R(Leaf, 'Q', Leaf), 'T', R(Leaf, 'V', Leaf))), 'K' as int).path ==
            Zipper(Leaf, [Frame(Right, Black, 'J' as int, R(Leaf, 'I', Leaf)), Frame(Right, Red, 'H' as int, B(Leaf, 'E', Leaf)), Frame(Left, Black, 'M' as int, B(R(Leaf, 'Q', Leaf), 'T', R(Leaf, 'V', Leaf)))]).path
  {
  }

  lemma RedBlackTest2Insert9Start()
    ensures RedBlackTree.BlackenRoot(Zipper(NewNode('K' as int), Zipper(Leaf, [Frame(Right, Black, 'J' as int, R(Leaf, 'I', Leaf)), Frame(Right, Red, 'H' as int, B(Leaf, 'E', Leaf)), Frame(Left, Black, 'M' as int, B(R(Leaf, 'Q', Leaf), 'T', R(Leaf, 'V', Leaf)))]).path)) ==
            Zipper(R(Leaf, 'K', Leaf), [Frame(Right, Black, 'J' as int, R(Leaf, 'I', Leaf)), Frame(Right, Red, 'H' as int, B(Leaf, 'E', Leaf)), Frame(Left, Black, 'M' as int, B(R(Leaf, 'Q', Leaf), 'T', R(Leaf, 'V', Leaf)))])
  {
  }

  lemma RedBlackTest2Insert9Fix0()
    ensures RedBlackTree.EnsureRedProperty(Zipper(R(Leaf, 'K', Leaf), [Frame(Right, Black, 'J' as int, R(Leaf, 'I', Leaf)), Frame(Right, Red, 'H' as int, B(Leaf, 'E', Leaf)), Frame(Left, Black, 'M' as int, B(R(Leaf, 'Q', Leaf), 'T', R(Leaf, 'V', Leaf)))])) ==
            Zipper(R(Leaf, 'K', Leaf), [Frame(Right, Black, 'J' as int, R(Leaf, 'I', Leaf)), Frame(Right, Red, 'H' as int, B(Leaf, 'E', Leaf)), Frame(Left, Black, 'M' as int, B(R(Leaf, 'Q', Leaf), 'T', R(Leaf, 'V', Leaf)))])
  {
  }

  lemma RedBlackTest2Insert9End()
    ensures Plug(Zipper(R(Leaf, 'K', Leaf), [Frame(Right, Black, 'J' as int, R(Leaf, 'I', Leaf)), Frame(Right, Red, 'H' as int, B(Leaf, 'E', Leaf)), Frame(Left, Black, 'M' as int, B(R(Leaf, 'Q', Leaf), 'T', R(Leaf, 'V', Leaf)))])) ==
            B(R(B(Leaf, 'E', Leaf), 'H', B(R(Leaf, 'I', Leaf), 'J', R(Leaf, 'K', Leaf))), 'M', B(R(Leaf, 'Q', Leaf), 'T', R(Leaf, 'V', Leaf)))
  {
    assert Plug(Zipper(R(B(Leaf, 'E', Leaf), 'H', B(R(Leaf, 'I', Leaf), 'J', R(Leaf, 'K', Leaf))), [Frame(Left, Black, 'M' as int, B(R(Leaf, 'Q', Leaf), 'T', R(Leaf, 'V', Leaf)))])) == B(R(B(Leaf, 'E', Leaf), 'H', B(R(Leaf, 'I', Leaf), 'J', R(Leaf, 'K', Leaf))), 'M', B(R(Leaf, 'Q', Leaf), 'T', R(Leaf, 'V', Leaf)));
    assert Plug(Zipper(B(R(Leaf, 'I', Leaf), 'J', R(Leaf, 'K', Leaf)), [Frame(Right, Red, 'H' as int, B(Leaf, 'E', Leaf)), Frame(Left, Black, 'M' as int, B(R(Leaf, 'Q', Leaf), 'T', R(Leaf, 'V', Leaf)))])) == B(R(B(Leaf, 'E', Leaf), 'H', B(R(Leaf, 'I', Leaf), 'J', R(Leaf, 'K', Leaf))), 'M', B(R(Leaf, 'Q', Leaf), 'T', R(Leaf, 'V', Leaf)));
  }

  lemma RedBlackTest2Insert9(t: Tree, v: int)
    requires t == B(R(B(Leaf, 'E', Leaf), 'H', B(R(Leaf, 'I', Leaf), 'J', Leaf)), 'M', B(R(Leaf, 'Q', Leaf), 'T', R(Leaf, 'V', Leaf))) && v == 'K' as int
    ensures RedBlackTree.Insert(t, Some(v)).value ==
            B(R(B(Leaf, 'E', Leaf), 'H', B(R(Leaf, 'I', Leaf), 'J', R(Leaf, 'K', Leaf))), 'M', B(R(Leaf, 'Q', Leaf), 'T', R(Leaf, 'V', Leaf)))
  {
    RedBlackTest2Insert9Slot();
    RedBlackTest2Insert9Start();
    RedBlackTest2Insert9Fix0();
    RedBlackTest2Insert9End();
    InsertVia(t, v, Zipper(Leaf, [Frame(Right, Black, 'J' as int, R(Leaf, 'I', Leaf)), Frame(Right, Red, 'H' as int, B(Leaf, 'E', Leaf)), Frame(Left, Black, 'M' as int, B(R(Leaf, 'Q', Leaf), 'T', R(Leaf, 'V', Leaf)))]).path, Zipper(R(Leaf, 'K', Leaf), [Frame(Right, Black, 'J' as int, R(Leaf, 'I', Leaf)), Frame(Right, Red, 'H' as int, B(Leaf, 'E', Leaf)), Frame(Left, Black, 'M' as int, B(R(Leaf, 'Q', Leaf), 'T', R(Leaf, 'V', Leaf)))]), Zipper(R(Leaf, 'K', Leaf), [Frame(Right, Black, 'J' as int, R(Leaf, 'I', Leaf)), Frame(Right, Red, 'H' as int, B(Leaf, 'E', Leaf)), Frame(Left, Black, 'M' as int, B(R(Leaf, 'Q', Leaf), 'T', R(Leaf, 'V', Leaf)))]), B(R(B(Leaf, 'E', Leaf), 'H', B(R(Leaf, 'I', Leaf), 'J', R(Leaf, 'K', Leaf))), 'M', B(R(Leaf, 'Q', Leaf), 'T', R(Leaf, 'V', Leaf))));
  }

  lemma RedBlackTest2Insert10Slot()
    ensures BinarySearchTree.InsertionSlot(B(R(B(Leaf, 'E', Leaf), 'H', B(R(Leaf, 'I', Leaf), 'J', R(Leaf, 'K', Leaf))), 'M', B(R(Leaf, 'Q', Leaf), 'T', R(Leaf, 'V', Leaf))), 'L' as int).path ==
            Zipper(Leaf, [Frame(Right, Red, 'K' as int, Leaf), Frame(Right, Black, 'J' as int, R(Leaf, 'I', Leaf)), Frame(Right, Red, 'H' as int, B(Leaf, 'E', Leaf)), Frame(Left, Black, 'M' as int, B(R(Leaf, 'Q', Leaf), 'T', R(Leaf, 'V', Leaf)))]).path
  {
  }

  lemma RedBlackTest2Insert10Start()
    ensures RedBlackTree.BlackenRoot(Zipper(NewNode('L' as int), Zipper(Leaf, [Frame(Right, Red, 'K' as int, Leaf), Frame(Right, Black, 'J' as int, R(Leaf, 'I', Leaf)), Frame(Right, Red, 'H' as int, B(Leaf, 'E', Leaf)), Frame(Left, Black, 'M' as int, B(R(Leaf, 'Q', Leaf), 'T', R(Leaf, 'V', Leaf)))]).path)) ==
            Zipper(R(Leaf, 'L', Leaf), [Frame(Right, Red, 'K' as int, Leaf), Frame(Right, Black, 'J' as int, R(Leaf, 'I', Leaf)), Frame(Right, Red, 'H' as int, B(Leaf, 'E', Leaf)), Frame(Left, Black, 'M' as int, B(R(Leaf, 'Q', Leaf), 'T', R(Leaf, 'V', Leaf)))])
  {
  }

  lemma RedBlackTest2Insert10Fix0()
    ensures RedBlackTree.EnsureRedProperty(Zipper(R(Leaf, 'L', Leaf), [Frame(Right, Red, 'K' as int, Leaf), Frame(Right, Black, 'J' as int, R(Leaf, 'I', Leaf)), Frame(Right, Red, 'H' as int, B(Leaf, 'E', Leaf)), Frame(Left, Black, 'M' as int, B(R(Leaf, 'Q', Leaf), 'T', R(Leaf, 'V', Leaf)))])) ==
            RedBlackTree.EnsureRedProperty(Zipper(R(B(Leaf, 'I', Leaf), 'J', B(Leaf, 'K', R(Leaf, 'L', Leaf))), [Frame(Right, Red, 'H' as int, B(Leaf, 'E', Leaf)), Frame(Left, Black, 'M' as int, B(R(Leaf, 'Q', Leaf), 'T', R(Leaf, 'V', Leaf)))]))
  {
  }

  lemma RedBlackTest2Insert10Fix1()
    ensures RedBlackTree.EnsureRedProperty(Zipper(R(B(Leaf, 'I', Leaf), 'J', B(Leaf, 'K', R(Leaf, 'L', Leaf))), [Frame(Right, Red, 'H' as int, B(Leaf, 'E', Leaf)), Frame(Left, Black, 'M' as int, B(R(Leaf, 'Q', Leaf), 'T', R(Leaf, 'V', Leaf)))])) ==
            RedBlackTree.EnsureRedProperty(Zipper(R(B(Leaf, 'K', R(Leaf, 'L', Leaf)), 'M', B(R(Leaf, 'Q', Leaf), 'T', R(Leaf, 'V', Leaf))), [Frame(Right, Black, 'J' as int, R(B(Leaf, 'E', Leaf), 'H', B(Leaf, 'I', Leaf)))]))
  {
  }

  lemma RedBlackTest2Insert10Fix2()
    ensures RedBlackTree.EnsureRedProperty(Zipper(R(B(Leaf, 'K', R(Leaf, 'L', Leaf)), 'M', B(R(Leaf, 'Q', Leaf), 'T', R(Leaf, 'V', Leaf))), [Frame(Right, Black, 'J' as int, R(B(Leaf, 'E', Leaf), 'H', B(Leaf, 'I', Leaf)))])) ==
            Zipper(R(B(Leaf, 'K', R(Leaf, 'L', Leaf)), 'M', B(R(Leaf, 'Q', Leaf), 'T', R(Leaf, 'V', Leaf))), [Frame(Right, Black, 'J' as int, R(B(Leaf, 'E', Leaf), 'H', B(Leaf, 'I', Leaf)))])
  {
  }

  lemma RedBlackTest2Insert10Fix()
    ensures RedBlackTree.EnsureRedProperty(Zipper(R(Leaf, 'L', Leaf), [Frame(Right, Red, 'K' as int, Leaf), Frame(Right, Black, 'J' as int, R(Leaf, 'I', Leaf)), Frame(Right, Red, 'H' as int, B(Leaf, 'E', Leaf)), Frame(Left, Black, 'M' as int, B(R(Leaf, 'Q', Leaf), 'T', R(Leaf, 'V', Leaf)))])) ==
            Zipper(R(B(Leaf, 'K', R(Leaf, 'L', Leaf)), 'M', B(R(Leaf, 'Q', Leaf), 'T', R(Leaf, 'V', Leaf))), [Frame(Right, Black, 'J' as int, R(B(Leaf, 'E', Leaf), 'H', B(Leaf, 'I', Leaf)))])
  {
    RedBlackTest2Insert10Fix0();
    RedBlackTest2Insert10Fix1();
    RedBlackTest2Insert10Fix2();
  }

  lemma RedBlackTest2Insert10End()
    ensures Plug(Zipper(R(B(Leaf, 'K', R(Leaf, 'L', Leaf)), 'M', B(R(Leaf, 'Q', Leaf), 'T', R(Leaf, 'V', Leaf))), [Frame(Right, Black, 'J' as int, R(B(Leaf, 'E', Leaf), 'H', B(Leaf, 'I', Leaf)))])) ==
            B(R(B(Leaf, 'E', Leaf), 'H', B(Leaf, 'I', Leaf)), 'J', R(B(Leaf, 'K', R(Leaf, 'L', Leaf)), 'M', B(R(Leaf, 'Q', Leaf), 'T', R(Leaf, 'V', Leaf))))
  {
  }

  lemma RedBlackTest2Insert10(t: Tree, v: int)
    requires t == B(R(B(Leaf, 'E', Leaf), 'H', B(R(Leaf, 'I', Leaf), 'J', R(Leaf, 'K', Leaf))), 'M', B(R(Leaf, 'Q', Leaf), 'T', R(Leaf, 'V', Leaf))) && v == 'L' as int
    ensures RedBlackTree.Insert(t, Some(v)).value ==
            B(R(B(Leaf, 'E', Leaf), 'H', B(Leaf, 'I', Leaf)), 'J', R(B(Leaf, 'K', R(Leaf, 'L', Leaf)), 'M', B(R(Leaf, 'Q', Leaf), 'T', R(Leaf, 'V', Leaf))))
  {
    RedBlackTest2Insert10Slot();
    RedBlackTest2Insert10Start();
    RedBlackTest2Insert10Fix();
    RedBlackTest2Insert10End();
    InsertVia(t, v, Zipper(Leaf, [Frame(Right, Red, 'K' as int, Leaf), Frame(Right, Black, 'J' as int, R(Leaf, 'I', Leaf)), Frame(Right, Red, 'H' as int, B(Leaf, 'E', Leaf)), Frame(Left, Black, 'M' as int, B(R(Leaf, 'Q', Leaf), 'T', R(Leaf, 'V', Leaf)))]).path, Zipper(R(Leaf, 'L', Leaf), [Frame(Right, Red, 'K' as int, Leaf), Frame(Right, Black, 'J' as int, R(Leaf, 'I', Leaf)), Frame(Right, Red, 'H' as int, B(Leaf, 'E', Leaf)), Frame(Left, Black, 'M' as int, B(R(Leaf, 'Q', Leaf), 'T', R(Leaf, 'V', Leaf)))]), Zipper(R(B(Leaf, 'K', R(Leaf, 'L', Leaf)), 'M', B(R(Leaf, 'Q', Leaf), 'T', R(Leaf, 'V', Leaf))), [Frame(Right, Black, 'J' as int, R(B(Leaf, 'E', Leaf), 'H', B(Leaf, 'I', Leaf)))]), B(R(B(Leaf, 'E', Leaf), 'H', B(Leaf, 'I', Leaf)), 'J', R(B(Leaf, 'K', R(Leaf, 'L', Leaf)), 'M', B(R(Leaf, 'Q', Leaf), 'T', R(Leaf, 'V', Leaf)))));
  }

  /** The second test: level order J(b), H(r), M(r), E(b), I(b), K(b), T(b), L(r), Q(r), V(r). */
  lemma RedBlackTest2()
    ensures RedBlackTree.InsertAll(Leaf, ['M' as int, 'H' as int, 'T' as int, 'E' as int, 'J' as int, 'Q' as int, 'V' as int, 'I' as int, 'K' as int, 'L' as int]) ==
            B(R(B(Leaf, 'E', Leaf), 'H', B(Leaf, 'I', Leaf)), 'J', R(B(Leaf, 'K', R(Leaf, 'L', Leaf)), 'M', B(R(Leaf, 'Q', Leaf), 'T', R(Leaf, 'V', Leaf))))
  {
    RedBlackTest2From1();
  }

  lemma RedBlackTest2From1()
    ensures RedBlackTree.InsertAll(B(Leaf, 'M', Leaf), ['H' as int, 'T' as int, 'E' as int, 'J' as int, 'Q' as int, 'V' as int, 'I' as int, 'K' as int, 'L' as int]) ==
            B(R(B(Leaf, 'E', Leaf), 'H', B(Leaf, 'I', Leaf)), 'J', R(B(Leaf, 'K', R(Leaf, 'L', Leaf)), 'M', B(R(Leaf, 'Q', Leaf), 'T', R(Leaf, 'V', Leaf))))
  {
    RedBlackTest2From2();
    RedBlackTest2Insert2(B(Leaf, 'M', Leaf), 'H' as int);
  }

  lemma RedBlackTest2From2()
    ensures RedBlackTree.InsertAll(B(R(Leaf, 'H', Leaf), 'M', Leaf), ['T' as int, 'E' as int, 'J' as int, 'Q' as int, 'V' as int, 'I' as int, 'K' as int, 'L' as int]) ==
            B(R(B(Leaf, 'E', Leaf), 'H', B(Leaf, 'I', Leaf)), 'J', R(B(Leaf, 'K', R(Leaf, 'L', Leaf)), 'M', B(R(Leaf, 'Q', Leaf), 'T', R(Leaf, 'V', Leaf))))
  {
    RedBlackTest2From3();
    RedBlackTest2Insert3(B(R(Leaf, 'H', Leaf), 'M', Leaf), 'T' as int);
  }

  lemma RedBlackTest2From3()
    ensures RedBlackTree.InsertAll(B(R(Leaf, 'H', Leaf), 'M', R(Leaf, 'T', Leaf)), ['E' as int, 'J' as int, 'Q' as int, 'V' as int, 'I' as int, 'K' as int, 'L' as int]) ==
            B(R(B(Leaf, 'E', Leaf), 'H', B(Leaf, 'I', Leaf)), 'J', R(B(Leaf, 'K', R(Leaf, 'L', Leaf)), 'M', B(R(Leaf, 'Q', Leaf), 'T', R(Leaf, 'V', Leaf))))
  {
    RedBlackTest2From4();
    RedBlackTest2Insert4(B(R(Leaf, 'H', Leaf), 'M', R(Leaf, 'T', Leaf)), 'E' as int);
  }

  lemma RedBlackTest2From4()
    ensures RedBlackTree.InsertAll(B(B(R(Leaf, 'E', Leaf), 'H', Leaf), 'M', B(Leaf, 'T', Leaf)), ['J' as int, 'Q' as int, 'V' as int, 'I' as int, 'K' as int, 'L' as int]) ==
            B(R(B(Leaf, 'E', Leaf), 'H', B(Leaf, 'I', Leaf)), 'J', R(B(Leaf, 'K', R(Leaf, 'L', Leaf)), 'M', B(R(Leaf, 'Q', Leaf), 'T', R(Leaf, 'V', Leaf))))
  {
    RedBlackTest2From5();
    RedBlackTest2Insert5(B(B(R(Leaf, 'E', Leaf), 'H', Leaf), 'M', B(Leaf, 'T', Leaf)), 'J' as int);
  }

  lemma RedBlackTest2From5()
    ensures RedBlackTree.InsertAll(B(B(R(Leaf, 'E', Leaf), 'H', R(Leaf, 'J', Leaf)), 'M', B(Leaf, 'T', Leaf)), ['Q' as int, 'V' as int, 'I' as int, 'K' as int, 'L' as int]) ==
            B(R(B(Leaf, 'E', Leaf), 'H', B(Leaf, 'I', Leaf)), 'J', R(B(Leaf, 'K', R(Leaf, 'L', Leaf)), 'M', B(R(Leaf, 'Q', Leaf), 'T', R(Leaf, 'V', Leaf))))
  {
    RedBlackTest2From6();
    RedBlackTest2Insert6(B(B(R(Leaf, 'E', Leaf), 'H', R(Leaf, 'J', Leaf)), 'M', B(Leaf, 'T', Leaf)), 'Q' as int);
  }

  lemma RedBlackTest2From6()
    ensures RedBlackTree.InsertAll(B(B(R(Leaf, 'E', Leaf), 'H', R(Leaf, 'J', Leaf)), 'M', B(R(Leaf, 'Q', Leaf), 'T', Leaf)), ['V' as int, 'I' as int, 'K' as int, 'L' as int]) ==
            B(R(B(Leaf, 'E', Leaf), 'H', B(Leaf, 'I', Leaf)), 'J', R(B(Leaf, 'K', R(Leaf, 'L', Leaf)), 'M', B(R(Leaf, 'Q', Leaf), 'T', R(Leaf, 'V', Leaf))))
  {
    RedBlackTest2From7();
    RedBlackTest2Insert7(B(B(R(Leaf, 'E', Leaf), 'H', R(Leaf, 'J', Leaf)), 'M', B(R(Leaf, 'Q', Leaf), 'T', Leaf)), 'V' as int);
  }

  lemma RedBlackTest2From7()
    ensures RedBlackTree.InsertAll(B(B(R(Leaf, 'E', Leaf), 'H', R(Leaf, 'J', Leaf)), 'M', B(R(Leaf, 'Q', Leaf), 'T', R(Leaf, 'V', Leaf))), ['I' as int, 'K' as int, 'L' as int]) ==
            B(R(B(Leaf, 'E', Leaf), 'H', B(Leaf, 'I', Leaf)), 'J', R(B(Leaf, 'K', R(Leaf, 'L', Leaf)), 'M', B(R(Leaf, 'Q', Leaf), 'T', R(Leaf, 'V', Leaf))))
  {
    RedBlackTest2From8();
    RedBlackTest2Insert8(B(B(R(Leaf, 'E', Leaf), 'H', R(Leaf, 'J', Leaf)), 'M', B(R(Leaf, 'Q', Leaf), 'T', R(Leaf, 'V', Leaf))), 'I' as int);
  }

  lemma RedBlackTest2From8()
    ensures RedBlackTree.InsertAll(B(R(B(Leaf, 'E', Leaf), 'H', B(R(Leaf, 'I', Leaf), 'J', Leaf)), 'M', B(R(Leaf, 'Q', Leaf), 'T', R(Leaf, 'V', Leaf))), ['K' as int, 'L' as int]) ==
            B(R(B(Leaf, 'E', Leaf), 'H', B(Leaf, 'I', Leaf)), 'J', R(B(Leaf, 'K', R(Leaf, 'L', Leaf)), 'M', B(R(Leaf, 'Q', Leaf), 'T', R(Leaf, 'V', Leaf))))
  {
    RedBlackTest2From9();
    RedBlackTest2Insert9(B(R(B(Leaf, 'E', Leaf), 'H', B(R(Leaf, 'I', Leaf), 'J', Leaf)), 'M', B(R(Leaf, 'Q', Leaf), 'T', R(Leaf, 'V', Leaf))), 'K' as int);
  }

  lemma RedBlackTest2From9()
    ensures RedBlackTree.InsertAll(B(R(B(Leaf, 'E', Leaf), 'H', B(R(Leaf, 'I', Leaf), 'J', R(Leaf, 'K', Leaf))), 'M', B(R(Leaf, 'Q', Leaf), 'T', R(Leaf, 'V', Leaf))), ['L' as int]) ==
            B(R(B(Leaf, 'E', Leaf), 'H', B(Leaf, 'I', Leaf)), 'J', R(B(Leaf, 'K', R(Leaf, 'L', Leaf)), 'M', B(R(Leaf, 'Q', Leaf), 'T', R(Leaf, 'V', Leaf))))
  {
    RedBlackTest2Insert10(B(R(B(Leaf, 'E', Leaf), 'H', B(R(Leaf, 'I', Leaf), 'J', R(Leaf, 'K', Leaf))), 'M', B(R(Leaf, 'Q', Leaf), 'T', R(Leaf, 'V', Leaf))), 'L' as int);
  }

  lemma RedBlackTest3Insert2Slot()
    ensures BinarySearchTree.InsertionSlot(B(Leaf, 'O', Leaf), 'G' as int).path ==
            Zipper(Leaf, [Frame(Left, Black, 'O' as int, Leaf)]).path
  {
  }

  lemma RedBlackTest3Insert2Start()
    ensures RedBlackTree.BlackenRoot(Zipper(NewNode('G' as int), Zipper(Leaf, [Frame(Left, Black, 'O' as int, Leaf)]).path)) ==
            Zipper(R(Leaf, 'G', Leaf), [Frame(Left, Black, 'O' as int, Leaf)])
  {
  }

  lemma RedBlackTest3Insert2Fix0()
    ensures RedBlackTree.EnsureRedProperty(Zipper(R(Leaf, 'G', Leaf), [Frame(Left, Black, 'O' as int, Leaf)])) ==
            Zipper(R(Leaf, 'G', Leaf), [Frame(Left, Black, 'O' as int, Leaf)])
  {
  }

  lemma RedBlackTest3Insert2End()
    ensures Plug(Zipper(R(Leaf, 'G', Leaf), [Frame(Left, Black, 'O' as int, Leaf)])) ==
            B(R(Leaf, 'G', Leaf), 'O', Leaf)
  {
  }

  lemma RedBlackTest3Insert2(t: Tree, v: int)
    requires t == B(Leaf, 'O', Leaf) && v == 'G' as int
    ensures RedBlackTree.Insert(t, Some(v)).value ==
            B(R(Leaf, 'G', Leaf), 'O', Leaf)
  {
    RedBlackTest3Insert2Slot();
    RedBlackTest3Insert2Start();
    RedBlackTest3Insert2Fix0();
    RedBlackTest3Insert2End();
    InsertVia(t, v, Zipper(Leaf, [Frame(Left, Black, 'O' as int, Leaf)]).path, Zipper(R(Leaf, 'G', Leaf), [Frame(Left, Black, 'O' as int, Leaf)]), Zipper(R(Leaf, 'G', Leaf), [Frame(Left, Black, 'O' as int, Leaf)]), B(R(Leaf, 'G', Leaf), 'O', Leaf));
  }

  lemma RedBlackTest3Insert3Slot()
    ensures BinarySearchTree.InsertionSlot(B(R(Leaf, 'G', Leaf), 'O', Leaf), 'U' as int).path ==
            Zipper(Leaf, [Frame(Right, Black, 'O' as int, R(Leaf, 'G', Leaf))]).path
  {
  }

  lemma RedBlackTest3Insert3Start()
    ensures RedBlackTree.BlackenRoot(Zipper(NewNode('U' as int), Zipper(Leaf, [Frame(Right, Black, 'O' as int, R(Leaf, 'G', Leaf))]).path)) ==
            Zipper(R(Leaf, 'U', Leaf), [Frame(Right, Black, 'O' as int, R(Leaf, 'G', Leaf))])
  {
  }

  lemma RedBlackTest3Insert3Fix0()
    ensures RedBlackTree.EnsureRedProperty(Zipper(R(Leaf, 'U', Leaf), [Frame(Right, Black, 'O' as int, R(Leaf, 'G', Leaf))])) ==
            Zipper(R(Leaf, 'U', Leaf), [Frame(Right, Black, 'O' as int, R(Leaf, 'G', Leaf))])
  {
  }

  lemma RedBlackTest3Insert3End()
    ensures Plug(Zipper(R(Leaf, 'U', Leaf), [Frame(Right, Black, 'O' as int, R(Leaf, 'G', Leaf))])) ==
            B(R(Leaf, 'G', Leaf), 'O', R(Leaf, 'U', Leaf))
  {
  }

  lemma RedBlackTest3Insert3(t: Tree, v: int)
    requires t == B(R(Leaf, 'G', Leaf), 'O', Leaf) && v == 'U' as int
    ensures RedBlackTree.Insert(t, Some(v)).value ==
            B(R(Leaf, 'G', Leaf), 'O', R(Leaf, 'U', Leaf))
  {
    RedBlackTest3Insert3Slot();
    RedBlackTest3Insert3Start();
    RedBlackTest3Insert3Fix0();
    RedBlackTest3Insert3End();
    InsertVia(t, v, Zipper(Leaf, [Frame(Right, Black, 'O' as int, R(Leaf, 'G', Leaf))]).path, Zipper(R(Leaf, 'U', Leaf), [Frame(Right, Black, 'O' as int, R(Leaf, 'G', Leaf))]), Zipper(R(Leaf, 'U', Leaf), [Frame(Right, Black, 'O' as int, R(Leaf, 'G', Leaf))]), B(R(Leaf, 'G', Leaf), 'O', R(Leaf, 'U', Leaf)));
  }

  lemma RedBlackTest3Insert4Slot()
    ensures BinarySearchTree.InsertionSlot(B(R(Leaf, 'G', Leaf), 'O', R(Leaf, 'U', Leaf)), 'C' as int).path ==
            Zipper(Leaf, [Frame(Left, Red, 'G' as int, Leaf), Frame(Left, Black, 'O' as int, R(Leaf, 'U', Leaf))]).path
  {
  }

  lemma RedBlackTest3Insert4Start()
    ensures RedBlackTree.BlackenRoot(Zipper(NewNode('C' as int), Zipper(Leaf, [Frame(Left, Red, 'G' as int, Leaf), Frame(Left, Black, 'O' as int, R(Leaf, 'U', Leaf))]).path)) ==
            Zipper(R(Leaf, 'C', Leaf), [Frame(Left, Red, 'G' as int, Leaf), Frame(Left, Black, 'O' as int, R(Leaf, 'U', Leaf))])
  {
  }

  lemma RedBlackTest3Insert4Fix0()
    ensures RedBlackTree.EnsureRedProperty(Zipper(R(Leaf, 'C', Leaf), [Frame(Left, Red, 'G' as int, Leaf), Frame(Left, Black, 'O' as int, R(Leaf, 'U', Leaf))])) ==
            RedBlackTree.EnsureRedProperty(Zipper(B(B(R(Leaf, 'C', Leaf), 'G', Leaf), 'O', B(Leaf, 'U', Leaf)), []))
  {
  }

  lemma RedBlackTest3Insert4Fix1()
    ensures RedBlackTree.EnsureRedProperty(Zipper(B(B(R(Leaf, 'C', Leaf), 'G', Leaf), 'O', B(Leaf, 'U', Leaf)), [])) ==
            Zipper(B(B(R(Leaf, 'C', Leaf), 'G', Leaf), 'O', B(Leaf, 'U', Leaf)), [])
  {
  }

  lemma RedBlackTest3Insert4Fix()
    ensures RedBlackTree.EnsureRedProperty(Zipper(R(Leaf, 'C', Leaf), [Frame(Left, Red, 'G' as int, Leaf), Frame(Left, Black, 'O' as int, R(Leaf, 'U', Leaf))])) ==
            Zipper(B(B(R(Leaf, 'C', Leaf), 'G', Leaf), 'O', B(Leaf, 'U', Leaf)), [])
  {
    RedBlackTest3Insert4Fix0();
    RedBlackTest3Insert4Fix1();
  }

  lemma RedBlackTest3Insert4End()
    ensures Plug(Zipper(B(B(R(Leaf, 'C', Leaf), 'G', Leaf), 'O', B(Leaf, 'U', Leaf)), [])) ==
            B(B(R(Leaf, 'C', Leaf), 'G', Leaf), 'O', B(Leaf, 'U', Leaf))
  {
  }

  lemma RedBlackTest3Insert4(t: Tree, v: int)
    requires t == B(R(Leaf, 'G', Leaf), 'O', R(Leaf, 'U', Leaf)) && v == 'C' as int
    ensures RedBlackTree.Insert(t, Some(v)).value ==
            B(B(R(Leaf, 'C', Leaf), 'G', Leaf), 'O', B(Leaf, 'U', Leaf))
  {
    RedBlackTest3Insert4Slot();
    RedBlackTest3Insert4Start();
    RedBlackTest3Insert4Fix();
    RedBlackTest3Insert4End();
    InsertVia(t, v, Zipper(Leaf, [Frame(Left, Red, 'G' as int, Leaf), Frame(Left, Black, 'O' as int, R(Leaf, 'U', Leaf))]).path, Zipper(R(Leaf, 'C', Leaf), [Frame(Left, Red, 'G' as int, Leaf), Frame(Left, Black, 'O' as int, R(Leaf, 'U', Leaf))]), Zipper(B(B(R(Leaf, 'C', Leaf), 'G', Leaf), 'O', B(Leaf, 'U', Leaf)), []), B(B(R(Leaf, 'C', Leaf), 'G', Leaf), 'O', B(Leaf, 'U', Leaf)));
  }

  lemma RedBlackTest3Insert5Slot()
    ensures BinarySearchTree.InsertionSlot(B(B(R(Leaf, 'C', Leaf), 'G', Leaf), 'O', B(Leaf, 'U', Leaf)), 'K' as int).path ==
            Zipper(Leaf, [Frame(Right, Black, 'G' as int, R(Leaf, 'C', Leaf)), Frame(Left, Black, 'O' as int, B(Leaf, 'U', Leaf))]).path
  {
  }

  lemma RedBlackTest3Insert5Start()
    ensures RedBlackTree.BlackenRoot(Zipper(NewNode('K' as int), Zipper(Leaf, [Frame(Right, Black, 'G' as int, R(Leaf, 'C', Leaf)), Frame(Left, Black, 'O' as int, B(Leaf, 'U', Leaf))]).path)) ==
            Zipper(R(Leaf, 'K', Leaf), [Frame(Right, Black, 'G' as int, R(Leaf, 'C', Leaf)), Frame(Left, Black, 'O' as int, B(Leaf, 'U', Leaf))])
  {
  }

  lemma RedBlackTest3Insert5Fix0()
    ensures RedBlackTree.EnsureRedProperty(Zipper(R(Leaf, 'K', Leaf), [Frame(Right, Black, 'G' as int, R(Leaf, 'C', Leaf)), Frame(Left, Black, 'O' as int, B(Leaf, 'U', Leaf))])) ==
            Zipper(R(Leaf, 'K', Leaf), [Frame(Right, Black, 'G' as int, R(Leaf, 'C', Leaf)), Frame(Left, Black, 'O' as int, B(Leaf, 'U', Leaf))])
  {
  }

  lemma RedBlackTest3Insert5End()
    ensures Plug(Zipper(R(Leaf, 'K', Leaf), [Frame(Right, Black, 'G' as int, R(Leaf, 'C', Leaf)), Frame(Left, Black, 'O' as int, B(Leaf, 'U', Leaf))])) ==
            B(B(R(Leaf, 'C', Leaf), 'G', R(Leaf, 'K', Leaf)), 'O', B(Leaf, 'U', Leaf))
  {
    assert Plug(Zipper(B(R(Leaf, 'C', Leaf), 'G', R(Leaf, 'K', Leaf)), [Frame(Left, Black, 'O' as int, B(Leaf, 'U', Leaf))])) == B(B(R(Leaf, 'C', Leaf), 'G', R(Leaf, 'K', Leaf)), 'O', B(Leaf, 'U', Leaf));
  }

  lemma RedBlackTest3Insert5(t: Tree, v: int)
    requires t == B(B(R(Leaf, 'C', Leaf), 'G', Leaf), 'O', B(Leaf, 'U', Leaf)) && v == 'K' as int
    ensures RedBlackTree.Insert(t, Some(v)).value ==
            B(B(R(Leaf, 'C', Leaf), 'G', R(Leaf, 'K', Leaf)), 'O', B(Leaf, 'U', Leaf))
  {
    RedBlackTest3Insert5Slot();
    RedBlackTest3Insert5Start();
    RedBlackTest3Insert5Fix0();
    RedBlackTest3Insert5End();
    InsertVia(t, v, Zipper(Leaf, [Frame(Right, Black, 'G' as int, R(Leaf, 'C', Leaf)), Frame(Left, Black, 'O' as int, B(Leaf, 'U', Leaf))]).path, Zipper(R(Leaf, 'K', Leaf), [Frame(Right, Black, 'G' as int, R(Leaf, 'C', Leaf)), Frame(Left, Black, 'O' as int, B(Leaf, 'U', Leaf))]), Zipper(R(Leaf, 'K', Leaf), [Frame(Right, Black, 'G' as int, R(Leaf, 'C', Leaf)), Frame(Left, Black, 'O' as int, B(Leaf, 'U', Leaf))]), B(B(R(Leaf, 'C', Leaf), 'G', R(Leaf, 'K', Leaf)), 'O', B(Leaf, 'U', Leaf)));
  }

  lemma RedBlackTest3Insert6Slot()
    ensures BinarySearchTree.InsertionSlot(B(B(R(Leaf, 'C', Leaf), 'G', R(Leaf, 'K', Leaf)), 'O', B(Leaf, 'U', Leaf)), 'R' as int).path ==
            Zipper(Leaf, [Frame(Left, Black, 'U' as int, Leaf), Frame(Right, Black, 'O' as int, B(R(Leaf, 'C', Leaf), 'G', R(Leaf, 'K', Leaf)))]).path
  {
  }

  lemma RedBlackTest3Insert6Start()
    ensures RedBlackTree.BlackenRoot(Zipper(NewNode('R' as int), Zipper(Leaf, [Frame(Left, Black, 'U' as int, Leaf), Frame(Right, Black, 'O' as int, B(R(Leaf, 'C', Leaf), 'G', R(Leaf, 'K', Leaf)))]).path)) ==
            Zipper(R(Leaf, 'R', Leaf), [Frame(Left, Black, 'U' as int, Leaf), Frame(Right, Black, 'O' as int, B(R(Leaf, 'C', Leaf), 'G', R(Leaf, 'K', Leaf)))])
  {
  }

  lemma RedBlackTest3Insert6Fix0()
    ensures RedBlackTree.EnsureRedProperty(Zipper(R(Leaf, 'R', Leaf), [Frame(Left, Black, 'U' as int, Leaf), Frame(Right, Black, 'O' as int, B(R(Leaf, 'C', Leaf), 'G', R(Leaf, 'K', Leaf)))])) ==
            Zipper(R(Leaf, 'R', Leaf), [Frame(Left, Black, 'U' as int, Leaf), Frame(Right, Black, 'O' as int, B(R(Leaf, 'C', Leaf), 'G', R(Leaf, 'K', Leaf)))])
  {
  }

  lemma RedBlackTest3Insert6End()
    ensures Plug(Zipper(R(Leaf, 'R', Leaf), [Frame(Left, Black, 'U' as int, Leaf), Frame(Right, Black, 'O' as int, B(R(Leaf, 'C', Leaf), 'G', R(Leaf, 'K', Leaf)))])) ==
            B(B(R(Leaf, 'C', Leaf), 'G', R(Leaf, 'K', Leaf)), 'O', B(R(Leaf, 'R', Leaf), 'U', Leaf))
  {
    assert Plug(Zipper(B(R(Leaf, 'R', Leaf), 'U', Leaf), [Frame(Right, Black, 'O' as int, B(R(Leaf, 'C', Leaf), 'G', R(Leaf, 'K', Leaf)))])) == B(B(R(Leaf, 'C', Leaf), 'G', R(Leaf, 'K', Leaf)), 'O', B(R(Leaf, 'R', Leaf), 'U', Leaf));
  }

  lemma RedBlackTest3Insert6(t: Tree, v: int)
    requires t == B(B(R(Leaf, 'C', Leaf), 'G', R(Leaf, 'K', Leaf)), 'O', B(Leaf, 'U', Leaf)) && v == 'R' as int
    ensures RedBlackTree.Insert(t, Some(v)).value ==
            B(B(R(Leaf, 'C', Leaf), 'G', R(Leaf, 'K', Leaf)), 'O', B(R(Leaf, 'R', Leaf), 'U', Leaf))
  {
    RedBlackTest3Insert6Slot();
    RedBlackTest3Insert6Start();
    RedBlackTest3Insert6Fix0();
    RedBlackTest3Insert6End();
    InsertVia(t, v, Zipper(Leaf, [Frame(Left, Black, 'U' as int, Leaf), Frame(Right, Black, 'O' as int, B(R(Leaf, 'C', Leaf), 'G', R(Leaf, 'K', Leaf)))]).path, Zipper(R(Leaf, 'R', Leaf), [Frame(Left, Black, 'U' as int, Leaf), Frame(Right, Black, 'O' as int, B(R(Leaf, 'C', Leaf), 'G', R(Leaf, 'K', Leaf)))]), Zipper(R(Leaf, 'R', Leaf), [Frame(Left, Black, 'U' as int, Leaf), Frame(Right, Black, 'O' as int, B(R(Leaf, 'C', Leaf), 'G', R(Leaf, 'K', Leaf)))]), B(B(R(Leaf, 'C', Leaf), 'G', R(Leaf, 'K', Leaf)), 'O', B(R(Leaf, 'R', Leaf), 'U', Leaf)));
  }

  lemma RedBlackTest3Insert7Slot()
    ensures BinarySearchTree.InsertionSlot(B(B(R(Leaf, 'C', Leaf), 'G', R(Leaf, 'K', Leaf)), 'O', B(R(Leaf, 'R', Leaf), 'U', Leaf)), 'W' as int).path ==
            Zipper(Leaf, [Frame(Right, Black, 'U' as int, R(Leaf, 'R', Leaf)), Frame(Right, Black, 'O' as int, B(R(Leaf, 'C', Leaf), 'G', R(Leaf, 'K', Leaf)))]).path
  {
  }

  lemma RedBlackTest3Insert7Start()
    ensures RedBlackTree.BlackenRoot(Zipper(NewNode('W' as int), Zipper(Leaf, [Frame(Right, Black, 'U' as int, R(Leaf, 'R', Leaf)), Frame(Right, Black, 'O' as int, B(R(Leaf, 'C', Leaf), 'G', R(Leaf, 'K', Leaf)))]).path)) ==
            Zipper(R(Leaf, 'W', Leaf), [Frame(Right, Black, 'U' as int, R(Leaf, 'R', Leaf)), Frame(Right, Black, 'O' as int, B(R(Leaf, 'C', Leaf), 'G', R(Leaf, 'K', Leaf)))])
  {
  }

  lemma RedBlackTest3Insert7Fix0()
    ensures RedBlackTree.EnsureRedProperty(Zipper(R(Leaf, 'W', Leaf), [Frame(Right, Black, 'U' as int, R(Leaf, 'R', Leaf)), Frame(Right, Black, 'O' as int, B(R(Leaf, 'C', Leaf), 'G', R(Leaf, 'K', Leaf)))])) ==
            Zipper(R(Leaf, 'W', Leaf), [Frame(Right, Black, 'U' as int, R(Leaf, 'R', Leaf)), Frame(Right, Black, 'O' as int, B(R(Leaf, 'C', Leaf), 'G', R(Leaf, 'K', Leaf)))])
  {
  }

  lemma RedBlackTest3Insert7End()
    ensures Plug(Zipper(R(Leaf, 'W', Leaf), [Frame(Right, Black, 'U' as int, R(Leaf, 'R', Leaf)), Frame(Right, Black, 'O' as int, B(R(Leaf, 'C', Leaf), 'G', R(Leaf, 'K', Leaf)))])) ==
            B(B(R(Leaf, 'C', Leaf), 'G', R(Leaf, 'K', Leaf)), 'O', B(R(Leaf, 'R', Leaf), 'U', R(Leaf, 'W', Leaf)))
  {
    assert Plug(Zipper(B(R(Leaf, 'R', Leaf), 'U', R(Leaf, 'W', Leaf)), [Frame(Right, Black, 'O' as int, B(R(Leaf, 'C', Leaf), 'G', R(Leaf, 'K', Leaf)))])) == B(B(R(Leaf, 'C', Leaf), 'G', R(Leaf, 'K', Leaf)), 'O', B(R(Leaf, 'R', Leaf), 'U', R(Leaf, 'W', Leaf)));
  }

  lemma RedBlackTest3Insert7(t: Tree, v: int)
    requires t == B(B(R(Leaf, 'C', Leaf), 'G', R(Leaf, 'K', Leaf)), 'O', B(R(Leaf, 'R', Leaf), 'U', Leaf)) && v == 'W' as int
    ensures RedBlackTree.Insert(t, Some(v)).value ==
            B(B(R(Leaf, 'C', Leaf), 'G', R(Leaf, 'K', Leaf)), 'O', B(R(Leaf, 'R', Leaf), 'U', R(Leaf, 'W', Leaf)))
  {
    RedBlackTest3Insert7Slot();
    RedBlackTest3Insert7Start();
    RedBlackTest3Insert7Fix0();
    RedBlackTest3Insert7End();
    InsertVia(t, v, Zipper(Leaf, [Frame(Right, Black, 'U' as int, R(Leaf, 'R', Leaf)), Frame(Right, Black, 'O' as int, B(R(Leaf, 'C', Leaf), 'G', R(Leaf, 'K', Leaf)))]).path, Zipper(R(Leaf, 'W', Leaf), [Frame(Right, Black, 'U' as int, R(Leaf, 'R', Leaf)), Frame(Right, Black, 'O' as int, B(R(Leaf, 'C', Leaf), 'G', R(Leaf, 'K', Leaf)))]), Zipper(R(Leaf, 'W', Leaf), [Frame(Right, Black, 'U' as int, R(Leaf, 'R', Leaf)), Frame(Right, Black, 'O' as int, B(R(Leaf, 'C', Leaf), 'G', R(Leaf, 'K', Leaf)))]), B(B(R(Leaf, 'C', Leaf), 'G', R(Leaf, 'K', Leaf)), 'O', B(R(Leaf, 'R', Leaf), 'U', R(Leaf, 'W', Leaf))));
  }

  lemma RedBlackTest3Insert8Slot()
    ensures BinarySearchTree.InsertionSlot(B(B(R(Leaf, 'C', Leaf), 'G', R(Leaf, 'K', Leaf)), 'O', B(R(Leaf, 'R', Leaf), 'U', R(Leaf, 'W', Leaf))), 'B' as int).path ==
            Zipper(Leaf, [Frame(Left, Red, 'C' as int, Leaf), Frame(Left, Black, 'G' as int, R(Leaf, 'K', Leaf)), Frame(Left, Black, 'O' as int, B(R(Leaf, 'R', Leaf), 'U', R(Leaf, 'W', Leaf)))]).path
  {
  }

  lemma RedBlackTest3Insert8Start()
    ensures RedBlackTree.BlackenRoot(Zipper(NewNode('B' as int), Zipper(Leaf, [Frame(Left, Red, 'C' as int, Leaf), Frame(Left, Black, 'G' as int, R(Leaf, 'K', Leaf)), Frame(Left, Black, 'O' as int, B(R(Leaf, 'R', Leaf), 'U', R(Leaf, 'W', Leaf)))]).path)) ==
            Zipper(R(Leaf, 'B', Leaf), [Frame(Left, Red, 'C' as int, Leaf), Frame(Left, Black, 'G' as int, R(Leaf, 'K', Leaf)), Frame(Left, Black, 'O' as int, B(R(Leaf, 'R', Leaf), 'U', R(Leaf, 'W', Leaf)))])
  {
  }

  lemma RedBlackTest3Insert8Fix0()
    ensures RedBlackTree.EnsureRedProperty(Zipper(R(Leaf, 'B', Leaf), [Frame(Left, Red, 'C' as int, Leaf), Frame(Left, Black, 'G' as int, R(Leaf, 'K', Leaf)), Frame(Left, Black, 'O' as int, B(R(Leaf, 'R', Leaf), 'U', R(Leaf, 'W', Leaf)))])) ==
            RedBlackTree.EnsureRedProperty(Zipper(R(B(R(Leaf, 'B', Leaf), 'C', Leaf), 'G', B(Leaf, 'K', Leaf)), [Frame(Left, Black, 'O' as int, B(R(Leaf, 'R', Leaf), 'U', R(Leaf, 'W', Leaf)))]))
  {
  }

  lemma RedBlackTest3Insert8Fix1()
    ensures RedBlackTree.EnsureRedProperty(Zipper(R(B(R(Leaf, 'B', Leaf), 'C', Leaf), 'G', B(Leaf, 'K', Leaf)), [Frame(Left, Black, 'O' as int, B(R(Leaf, 'R', Leaf), 'U', R(Leaf, 'W', Leaf)))])) ==
            Zipper(R(B(R(Leaf, 'B', Leaf), 'C', Leaf), 'G', B(Leaf, 'K', Leaf)), [Frame(Left, Black, 'O' as int, B(R(Leaf, 'R', Leaf), 'U', R(Leaf, 'W', Leaf)))])
  {
  }

  lemma RedBlackTest3Insert8Fix()
    ensures RedBlackTree.EnsureRedProperty(Zipper(R(Leaf, 'B', Leaf), [Frame(Left, Red, 'C' as int, Leaf), Frame(Left, Black, 'G' as int, R(Leaf, 'K', Leaf)), Frame(Left, Black, 'O' as int, B(R(Leaf, 'R', Leaf), 'U', R(Leaf, 'W', Leaf)))])) ==
            Zipper(R(B(R(Leaf, 'B', Leaf), 'C', Leaf), 'G', B(Leaf, 'K', Leaf)), [Frame(Left, Black, 'O' as int, B(R(Leaf, 'R', Leaf), 'U', R(Leaf, 'W', Leaf)))])
  {
    RedBlackTest3Insert8Fix0();
    RedBlackTest3Insert8Fix1();
  }

  lemma RedBlackTest3Insert8End()
    ensures Plug(Zipper(R(B(R(Leaf, 'B', Leaf), 'C', Leaf), 'G', B(Leaf, 'K', Leaf)), [Frame(Left, Black, 'O' as int, B(R(Leaf, 'R', Leaf), 'U', R(Leaf, 'W', Leaf)))])) ==
            B(R(B(R(Leaf, 'B', Leaf), 'C', Leaf), 'G', B(Leaf, 'K', Leaf)), 'O', B(R(Leaf, 'R', Leaf), 'U', R(Leaf, 'W', Leaf)))
  {
  }

  lemma RedBlackTest3Insert8(t: Tree, v: int)
    requires t == B(B(R(Leaf, 'C', Leaf), 'G', R(Leaf, 'K', Leaf)), 'O', B(R(Leaf, 'R', Leaf), 'U', R(Leaf, 'W', Leaf))) && v == 'B' as int
    ensures RedBlackTree.Insert(t, Some(v)).value ==
            B(R(B(R(Leaf, 'B', Leaf), 'C', Leaf), 'G', B(Leaf, 'K', Leaf)), 'O', B(R(Leaf, 'R', Leaf), 'U', R(Leaf, 'W', Leaf)))
  {
    RedBlackTest3Insert8Slot();
    RedBlackTest3Insert8Start();
    RedBlackTest3Insert8Fix();
    RedBlackTest3Insert8End();
    InsertVia(t, v, Zipper(Leaf, [Frame(Left, Red, 'C' as int, Leaf), Frame(Left, Black, 'G' as int, R(Leaf, 'K', Leaf)), Frame(Left, Black, 'O' as int, B(R(Leaf, 'R', Leaf), 'U', R(Leaf, 'W', Leaf)))]).path, Zipper(R(Leaf, 'B', Leaf), [Frame(Left, Red, 'C' as int, Leaf), Frame(Left, Black, 'G' as int, R(Leaf, 'K', Leaf)), Frame(Left, Black, 'O' as int, B(R(Leaf, 'R', Leaf), 'U', R(Leaf, 'W', Leaf)))]), Zipper(R(B(R(Leaf, 'B', Leaf), 'C', Leaf), 'G', B(Leaf, 'K', Leaf)), [Frame(Left, Black, 'O' as int, B(R(Leaf, 'R', Leaf), 'U', R(Leaf, 'W', Leaf)))]), B(R(B(R(Leaf, 'B', Leaf), 'C', Leaf), 'G', B(Leaf, 'K', Leaf)), 'O', B(R(Leaf, 'R', Leaf), 'U', R(Leaf, 'W', Leaf))));
  }

  lemma RedBlackTest3Insert9Slot()
    ensures BinarySearchTree.InsertionSlot(B(R(B(R(Leaf, 'B', Leaf), 'C', Leaf), 'G', B(Leaf, 'K', Leaf)), 'O', B(R(Leaf, 'R', Leaf), 'U', R(Leaf, 'W', Leaf))), 'E' as int).path ==
            Zipper(Leaf, [Frame(Right, Black, 'C' as int, R(Leaf, 'B', Leaf)), Frame(Left, Red, 'G' as int, B(Leaf, 'K', Leaf)), Frame(Left, Black, 'O' as int, B(R(Leaf, 'R', Leaf), 'U', R(Leaf, 'W', Leaf)))]).path
  {
  }

  lemma RedBlackTest3Insert9Start()
    ensures RedBlackTree.BlackenRoot(Zipper(NewNode('E' as int), Zipper(Leaf, [Frame(Right, Black, 'C' as int, R(Leaf, 'B', Leaf)), Frame(Left, Red, 'G' as int, B(Leaf, 'K', Leaf)), Frame(Left, Black, 'O' as int, B(R(Leaf, 'R', Leaf), 'U', R(Leaf, 'W', Leaf)))]).path)) ==
            Zipper(R(Leaf, 'E', Leaf), [Frame(Right, Black, 'C' as int, R(Leaf, 'B', Leaf)), Frame(Left, Red, 'G' as int, B(Leaf, 'K', Leaf)), Frame(Left, Black, 'O' as int, B(R(Leaf, 'R', Leaf), 'U', R(Leaf, 'W', Leaf)))])
  {
  }

  lemma RedBlackTest3Insert9Fix0()
    ensures RedBlackTree.EnsureRedProperty(Zipper(R(Leaf, 'E', Leaf), [Frame(Right, Black, 'C' as int, R(Leaf, 'B', Leaf)), Frame(Left, Red, 'G' as int, B(Leaf, 'K', Leaf)), Frame(Left, Black, 'O' as int, B(R(Leaf, 'R', Leaf), 'U', R(Leaf, 'W', Leaf)))])) ==
            Zipper(R(Leaf, 'E', Leaf), [Frame(Right, Black, 'C' as int, R(Leaf, 'B', Leaf)), Frame(Left, Red, 'G' as int, B(Leaf, 'K', Leaf)), Frame(Left, Black, 'O' as int, B(R(Leaf, 'R', Leaf), 'U', R(Leaf, 'W', Leaf)))])
  {
  }

  lemma RedBlackTest3Insert9End()
    ensures Plug(Zipper(R(Leaf, 'E', Leaf), [Frame(Right, Black, 'C' as int, R(Leaf, 'B', Leaf)), Frame(Left, Red, 'G' as int, B(Leaf, 'K', Leaf)), Frame(Left, Black, 'O' as int, B(R(Leaf, 'R', Leaf), 'U', R(Leaf, 'W', Leaf)))])) ==
            B(R(B(R(Leaf, 'B', Leaf), 'C', R(Leaf, 'E', Leaf)), 'G', B(Leaf, 'K', Leaf)), 'O', B(R(Leaf, 'R', Leaf), 'U', R(Leaf, 'W', Leaf)))
  {
    assert Plug(Zipper(R(B(R(Leaf, 'B', Leaf), 'C', R(Leaf, 'E', Leaf)), 'G', B(Leaf, 'K', Leaf)), [Frame(Left, Black, 'O' as int, B(R(Leaf, 'R', Leaf), 'U', R(Leaf, 'W', Leaf)))])) == B(R(B(R(Leaf, 'B', Leaf), 'C', R(Leaf, 'E', Leaf)), 'G', B(Leaf, 'K', Leaf)), 'O', B(R(Leaf, 'R', Leaf), 'U', R(Leaf, 'W', Leaf)));
    assert Plug(Zipper(B(R(Leaf, 'B', Leaf), 'C', R(Leaf, 'E', Leaf)), [Frame(Left, Red, 'G' as int, B(Leaf, 'K', Leaf)), Frame(Left, Black, 'O' as int, B(R(Leaf, 'R', Leaf), 'U', R(Leaf, 'W', Leaf)))])) == B(R(B(R(Leaf, 'B', Leaf), 'C', R(Leaf, 'E', Leaf)), 'G', B(Leaf, 'K', Leaf)), 'O', B(R(Leaf, 'R', Leaf), 'U', R(Leaf, 'W', Leaf)));
  }

  lemma RedBlackTest3Insert9(t: Tree, v: int)
    requires t == B(R(B(R(Leaf, 'B', Leaf), 'C', Leaf), 'G', B(Leaf, 'K', Leaf)), 'O', B(R(Leaf, 'R', Leaf), 'U', R(Leaf, 'W', Leaf))) && v == 'E' as int
    ensures RedBlackTree.Insert(t, Some(v)).value ==
            B(R(B(R(Leaf, 'B', Leaf), 'C', R(Leaf, 'E', Leaf)), 'G', B(Leaf, 'K', Leaf)), 'O', B(R(Leaf, 'R', Leaf), 'U', R(Leaf, 'W', Leaf)))
  {
    RedBlackTest3Insert9Slot();
    RedBlackTest3Insert9Start();
    RedBlackTest3Insert9Fix0();
    RedBlackTest3Insert9End();
    InsertVia(t, v, Zipper(Leaf, [Frame(Right, Black, 'C' as int, R(Leaf, 'B', Leaf)), Frame(Left, Red, 'G' as int, B(Leaf, 'K', Leaf)), Frame(Left, Black, 'O' as int, B(R(Leaf, 'R', Leaf), 'U', R(Leaf, 'W', Leaf)))]).path, Zipper(R(Leaf, 'E', Leaf), [Frame(Right, Black, 'C' as int, R(Leaf, 'B', Leaf)), Frame(Left, Red, 'G' as int, B(Leaf, 'K', Leaf)), Frame(Left, Black, 'O' as int, B(R(Leaf, 'R', Leaf), 'U', R(Leaf, 'W', Leaf)))]), Zipper(R(Leaf, 'E', Leaf), [Frame(Right, Black, 'C' as int, R(Leaf, 'B', Leaf)), Frame(Left, Red, 'G' as int, B(Leaf, 'K', Leaf)), Frame(Left, Black, 'O' as int, B(R(Leaf, 'R', Leaf), 'U', R(Leaf, 'W', Leaf)))]), B(R(B(R(Leaf, 'B', Leaf), 'C', R(Leaf, 'E', Leaf)), 'G', B(Leaf, 'K', Leaf)), 'O', B(R(Leaf, 'R', Leaf), 'U', R(Leaf, 'W', Leaf))));
  }

  lemma RedBlackTest3Insert10Slot()
    ensures BinarySearchTree.InsertionSlot(B(R(B(R(Leaf, 'B', Leaf), 'C', R(Leaf, 'E', Leaf)), 'G', B(Leaf, 'K', Leaf)), 'O', B(R(Leaf, 'R', Leaf), 'U', R(Leaf, 'W', Leaf))), 'A' as int).path ==
            Zipper(Leaf, [Frame(Left, Red, 'B' as int, Leaf), Frame(Left, Black, 'C' as int, R(Leaf, 'E', Leaf)), Frame(Left, Red, 'G' as int, B(Leaf, 'K', Leaf)), Frame(Left, Black, 'O' as int, B(R(Leaf, 'R', Leaf), 'U', R(Leaf, 'W', Leaf)))]).path
  {
  }

  lemma RedBlackTest3Insert10Start()
    ensures RedBlackTree.BlackenRoot(Zipper(NewNode('A' as int), Zipper(Leaf, [Frame(Left, Red, 'B' as int, Leaf), Frame(Left, Black, 'C' as int, R(Leaf, 'E', Leaf)), Frame(Left, Red, 'G' as int, B(Leaf, 'K', Leaf)), Frame(Left, Black, 'O' as int, B(R(Leaf, 'R', Leaf), 'U', R(Leaf, 'W', Leaf)))]).path)) ==
            Zipper(R(Leaf, 'A', Leaf), [Frame(Left, Red, 'B' as int, Leaf), Frame(Left, Black, 'C' as int, R(Leaf, 'E', Leaf)), Frame(Left, Red, 'G' as int, B(Leaf, 'K', Leaf)), Frame(Left, Black, 'O' as int, B(R(Leaf, 'R', Leaf), 'U', R(Leaf, 'W', Leaf)))])
  {
  }

  lemma RedBlackTest3Insert10Fix0()
    ensures RedBlackTree.EnsureRedProperty(Zipper(R(Leaf, 'A', Leaf), [Frame(Left, Red, 'B' as int, Leaf), Frame(Left, Black, 'C' as int, R(Leaf, 'E', Leaf)), Frame(Left, Red, 'G' as int, B(Leaf, 'K', Leaf)), Frame(Left, Black, 'O' as int, B(R(Leaf, 'R', Leaf), 'U', R(Leaf, 'W', Leaf)))])) ==
            RedBlackTree.EnsureRedProperty(Zipper(R(B(R(Leaf, 'A', Leaf), 'B', Leaf), 'C', B(Leaf, 'E', Leaf)), [Frame(Left, Red, 'G' as int, B(Leaf, 'K', Leaf)), Frame(Left, Black, 'O' as int, B(R(Leaf, 'R', Leaf), 'U', R(Leaf, 'W', Leaf)))]))
  {
  }

  lemma RedBlackTest3Insert10Fix1()
    ensures RedBlackTree.EnsureRedProperty(Zipper(R(B(R(Leaf, 'A', Leaf), 'B', Leaf), 'C', B(Leaf, 'E', Leaf)), [Frame(Left, Red, 'G' as int, B(Leaf, 'K', Leaf)), Frame(Left, Black, 'O' as int, B(R(Leaf, 'R', Leaf), 'U', R(Leaf, 'W', Leaf)))])) ==
            RedBlackTree.EnsureRedProperty(Zipper(R(B(Leaf, 'K', Leaf), 'O', B(R(Leaf, 'R', Leaf), 'U', R(Leaf, 'W', Leaf))), [Frame(Right, Black, 'G' as int, R(B(R(Leaf, 'A', Leaf), 'B', Leaf), 'C', B(Leaf, 'E', Leaf)))]))
  {
  }

  lemma RedBlackTest3Insert10Fix2()
    ensures RedBlackTree.EnsureRedProperty(Zipper(R(B(Leaf, 'K', Leaf), 'O', B(R(Leaf, 'R', Leaf), 'U', R(Leaf, 'W', Leaf))), [Frame(Right, Black, 'G' as int, R(B(R(Leaf, 'A', Leaf), 'B', Leaf), 'C', B(Leaf, 'E', Leaf)))])) ==
            Zipper(R(B(Leaf, 'K', Leaf), 'O', B(R(Leaf, 'R', Leaf), 'U', R(Leaf, 'W', Leaf))), [Frame(Right, Black, 'G' as int, R(B(R(Leaf, 'A', Leaf), 'B', Leaf), 'C', B(Leaf, 'E', Leaf)))])
  {
  }

  lemma RedBlackTest3Insert10Fix()
    ensures RedBlackTree.EnsureRedProperty(Zipper(R(Leaf, 'A', Leaf), [Frame(Left, Red, 'B' as int, Leaf), Frame(Left, Black, 'C' as int, R(Leaf, 'E', Leaf)), Frame(Left, Red, 'G' as int, B(Leaf, 'K', Leaf)), Frame(Left, Black, 'O' as int, B(R(Leaf, 'R', Leaf), 'U', R(Leaf, 'W', Leaf)))])) ==
            Zipper(R(B(Leaf, 'K', Leaf), 'O', B(R(Leaf, 'R', Leaf), 'U', R(Leaf, 'W', Leaf))), [Frame(Right, Black, 'G' as int, R(B(R(Leaf, 'A', Leaf), 'B', Leaf), 'C', B(Leaf, 'E', Leaf)))])
  {
    RedBlackTest3Insert10Fix0();
    RedBlackTest3Insert10Fix1();
    RedBlackTest3Insert10Fix2();
  }

  lemma RedBlackTest3Insert10End()
    ensures Plug(Zipper(R(B(Leaf, 'K', Leaf), 'O', B(R(Leaf, 'R', Leaf), 'U', R(Leaf, 'W', Leaf))), [Frame(Right, Black, 'G' as int, R(B(R(Leaf, 'A', Leaf), 'B', Leaf), 'C', B(Leaf, 'E', Leaf)))])) ==
            B(R(B(R(Leaf, 'A', Leaf), 'B', Leaf), 'C', B(Leaf, 'E', Leaf)), 'G', R(B(Leaf, 'K', Leaf), 'O', B(R(Leaf, 'R', Leaf), 'U', R(Leaf, 'W', Leaf))))
  {
  }

  lemma RedBlackTest3Insert10(t: Tree, v: int)
    requires t == B(R(B(R(Leaf, 'B', Leaf), 'C', R(Leaf, 'E', Leaf)), 'G', B(Leaf, 'K', Leaf)), 'O', B(R(Leaf, 'R', Leaf), 'U', R(Leaf, 'W', Leaf))) && v == 'A' as int
    ensures RedBlackTree.Insert(t, Some(v)).value ==
            B(R(B(R(Leaf, 'A', Leaf), 'B', Leaf), 'C', B(Leaf, 'E', Leaf)), 'G', R(B(Leaf, 'K', Leaf), 'O', B(R(Leaf, 'R', Leaf), 'U', R(Leaf, 'W', Leaf))))
  {
    RedBlackTest3Insert10Slot();
    RedBlackTest3Insert10Start();
    RedBlackTest3Insert10Fix();
    RedBlackTest3Insert10End();
    InsertVia(t, v, Zipper(Leaf, [Frame(Left, Red, 'B' as int, Leaf), Frame(Left, Black, 'C' as int, R(Leaf, 'E', Leaf)), Frame(Left, Red, 'G' as int, B(Leaf, 'K', Leaf)), Frame(Left, Black, 'O' as int, B(R(Leaf, 'R', Leaf), 'U', R(Leaf, 'W', Leaf)))]).path, Zipper(R(Leaf, 'A', Leaf), [Frame(Left, Red, 'B' as int, Leaf), Frame(Left, Black, 'C' as int, R(Leaf, 'E', Leaf)), Frame(Left, Red, 'G' as int, B(Leaf, 'K', Leaf)), Frame(Left, Black, 'O' as int, B(R(Leaf, 'R', Leaf), 'U', R(Leaf, 'W', Leaf)))]), Zipper(R(B(Leaf, 'K', Leaf), 'O', B(R(Leaf, 'R', Leaf), 'U', R(Leaf, 'W', Leaf))), [Frame(Right, Black, 'G' as int, R(B(R(Leaf, 'A', Leaf), 'B', Leaf), 'C', B(Leaf, 'E', Leaf)))]), B(R(B(R(Leaf, 'A', Leaf), 'B', Leaf), 'C', B(Leaf, 'E', Leaf)), 'G', R(B(Leaf, 'K', Leaf), 'O', B(R(Leaf, 'R', Leaf), 'U', R(Leaf, 'W', Leaf)))));
  }

  /** The third test: level order G(b), C(r), O(r), B(b), E(b), K(b), U(b), A(r), R(r), W(r). */
  lemma RedBlackTest3()
    ensures RedBlackTree.InsertAll(Leaf, ['O' as int, 'G' as int, 'U' as int, 'C' as int, 'K' as int, 'R' as int, 'W' as int, 'B' as int, 'E' as int, 'A' as int]) ==
            B(R(B(R(Leaf, 'A', Leaf), 'B', Leaf), 'C', B(Leaf, 'E', Leaf)), 'G', R(B(Leaf, 'K', Leaf), 'O', B(R(Leaf, 'R', Leaf), 'U', R(Leaf, 'W', Leaf))))
  {
    RedBlackTest3From1();
  }

  lemma RedBlackTest3From1()
    ensures RedBlackTree.InsertAll(B(Leaf, 'O', Leaf), ['G' as int, 'U' as int, 'C' as int, 'K' as int, 'R' as int, 'W' as int, 'B' as int, 'E' as int, 'A' as int]) ==
            B(R(B(R(Leaf, 'A', Leaf), 'B', Leaf), 'C', B(Leaf, 'E', Leaf)), 'G', R(B(Leaf, 'K', Leaf), 'O', B(R(Leaf, 'R', Leaf), 'U', R(Leaf, 'W', Leaf))))
  {
    RedBlackTest3From2();
    RedBlackTest3Insert2(B(Leaf, 'O', Leaf), 'G' as int);
  }

  lemma RedBlackTest3From2()
    ensures RedBlackTree.InsertAll(B(R(Leaf, 'G', Leaf), 'O', Leaf), ['U' as int, 'C' as int, 'K' as int, 'R' as int, 'W' as int, 'B' as int, 'E' as int, 'A' as int]) ==
            B(R(B(R(Leaf, 'A', Leaf), 'B', Leaf), 'C', B(Leaf, 'E', Leaf)), 'G', R(B(Leaf, 'K', Leaf), 'O', B(R(Leaf, 'R', Leaf), 'U', R(Leaf, 'W', Leaf))))
  {
    RedBlackTest3From3();
    RedBlackTest3Insert3(B(R(Leaf, 'G', Leaf), 'O', Leaf), 'U' as int);
  }

  lemma RedBlackTest3From3()
    ensures RedBlackTree.InsertAll(B(R(Leaf, 'G', Leaf), 'O', R(Leaf, 'U', Leaf)), ['C' as int, 'K' as int, 'R' as int, 'W' as int, 'B' as int, 'E' as int, 'A' as int]) ==
            B(R(B(R(Leaf, 'A', Leaf), 'B', Leaf), 'C', B(Leaf, 'E', Leaf)), 'G', R(B(Leaf, 'K', Leaf), 'O', B(R(Leaf, 'R', Leaf), 'U', R(Leaf, 'W', Leaf))))
  {
    RedBlackTest3From4();
    RedBlackTest3Insert4(B(R(Leaf, 'G', Leaf), 'O', R(Leaf, 'U', Leaf)), 'C' as int);
  }

  lemma RedBlackTest3From4()
    ensures RedBlackTree.InsertAll(B(B(R(Leaf, 'C', Leaf), 'G', Leaf), 'O', B(Leaf, 'U', Leaf)), ['K' as int, 'R' as int, 'W' as int, 'B' as int, 'E' as int, 'A' as int]) ==
            B(R(B(R(Leaf, 'A', Leaf), 'B', Leaf), 'C', B(Leaf, 'E', Leaf)), 'G', R(B(Leaf, 'K', Leaf), 'O', B(R(Leaf, 'R', Leaf), 'U', R(Leaf, 'W', Leaf))))
  {
    RedBlackTest3From5();
    RedBlackTest3Insert5(B(B(R(Leaf, 'C', Leaf), 'G', Leaf), 'O', B(Leaf, 'U', Leaf)), 'K' as int);
  }

  lemma RedBlackTest3From5()
    ensures RedBlackTree.InsertAll(B(B(R(Leaf, 'C', Leaf), 'G', R(Leaf, 'K', Leaf)), 'O', B(Leaf, 'U', Leaf)), ['R' as int, 'W' as int, 'B' as int, 'E' as int, 'A' as int]) ==
            B(R(B(R(Leaf, 'A', Leaf), 'B', Leaf), 'C', B(Leaf, 'E', Leaf)), 'G', R(B(Leaf, 'K', Leaf), 'O', B(R(Leaf, 'R', Leaf), 'U', R(Leaf, 'W', Leaf))))
  {
    RedBlackTest3From6();
    RedBlackTest3Insert6(B(B(R(Leaf, 'C', Leaf), 'G', R(Leaf, 'K', Leaf)), 'O', B(Leaf, 'U', Leaf)), 'R' as int);
  }

  lemma RedBlackTest3From6()
    ensures RedBlackTree.InsertAll(B(B(R(Leaf, 'C', Leaf), 'G', R(Leaf, 'K', Leaf)), 'O', B(R(Leaf, 'R', Leaf), 'U', Leaf)), ['W' as int, 'B' as int, 'E' as int, 'A' as int]) ==
            B(R(B(R(Leaf, 'A', Leaf), 'B', Leaf), 'C', B(Leaf, 'E', Leaf)), 'G', R(B(Leaf, 'K', Leaf), 'O', B(R(Leaf, 'R', Leaf), 'U', R(Leaf, 'W', Leaf))))
  {
    RedBlackTest3From7();
    RedBlackTest3Insert7(B(B(R(Leaf, 'C', Leaf), 'G', R(Leaf, 'K', Leaf)), 'O', B(R(Leaf, 'R', Leaf), 'U', Leaf)), 'W' as int);
  }

  lemma RedBlackTest3From7()
    ensures RedBlackTree.InsertAll(B(B(R(Leaf, 'C', Leaf), 'G', R(Leaf, 'K', Leaf)), 'O', B(R(Leaf, 'R', Leaf), 'U', R(Leaf, 'W', Leaf))), ['B' as int, 'E' as int, 'A' as int]) ==
            B(R(B(R(Leaf, 'A', Leaf), 'B', Leaf), 'C', B(Leaf, 'E', Leaf)), 'G', R(B(Leaf, 'K', Leaf), 'O', B(R(Leaf, 'R', Leaf), 'U', R(Leaf, 'W', Leaf))))
  {
    RedBlackTest3From8();
    RedBlackTest3Insert8(B(B(R(Leaf, 'C', Leaf), 'G', R(Leaf, 'K', Leaf)), 'O', B(R(Leaf, 'R', Leaf), 'U', R(Leaf, 'W', Leaf))), 'B' as int);
  }

  lemma RedBlackTest3From8()
    ensures RedBlackTree.InsertAll(B(R(B(R(Leaf, 'B', Leaf), 'C', Leaf), 'G', B(Leaf, 'K', Leaf)), 'O', B(R(Leaf, 'R', Leaf), 'U', R(Leaf, 'W', Leaf))), ['E' as int, 'A' as int]) ==
            B(R(B(R(Leaf, 'A', Leaf), 'B', Leaf), 'C', B(Leaf, 'E', Leaf)), 'G', R(B(Leaf, 'K', Leaf), 'O', B(R(Leaf, 'R', Leaf), 'U', R(Leaf, 'W', Leaf))))
  {
    RedBlackTest3From9();
    RedBlackTest3Insert9(B(R(B(R(Leaf, 'B', Leaf), 'C', Leaf), 'G', B(Leaf, 'K', Leaf)), 'O', B(R(Leaf, 'R', Leaf), 'U', R(Leaf, 'W', Leaf))), 'E' as int);
  }

  lemma RedBlackTest3From9()
    ensures RedBlackTree.InsertAll(B(R(B(R(Leaf, 'B', Leaf), 'C', R(Leaf, 'E', Leaf)), 'G', B(Leaf, 'K', Leaf)), 'O', B(R(Leaf, 'R', Leaf), 'U', R(Leaf, 'W', Leaf))), ['A' as int]) ==
            B(R(B(R(Leaf, 'A', Leaf), 'B', Leaf), 'C', B(Leaf, 'E', Leaf)), 'G', R(B(Leaf, 'K', Leaf), 'O', B(R(Leaf, 'R', Leaf), 'U', R(Leaf, 'W', Leaf))))
  {
    RedBlackTest3Insert10(B(R(B(R(Leaf, 'B', Leaf), 'C', R(Leaf, 'E', Leaf)), 'G', B(Leaf, 'K', Leaf)), 'O', B(R(Leaf, 'R', Leaf), 'U', R(Leaf, 'W', Leaf))), 'A' as int);
  }

  lemma RedBlackDuplicatesInsert2Slot()
    ensures BinarySearchTree.InsertionSlot(B(Leaf, 'E', Leaf), 'E' as int).path ==
            Zipper(Leaf, [Frame(Left, Black, 'E' as int, Leaf)]).path
  {
  }

  lemma RedBlackDuplicatesInsert2Start()
    ensures RedBlackTree.BlackenRoot(Zipper(NewNode('E' as int), Zipper(Leaf, [Frame(Left, Black, 'E' as int, Leaf)]).path)) ==
            Zipper(R(Leaf, 'E', Leaf), [Frame(Left, Black, 'E' as int, Leaf)])
  {
  }

  lemma RedBlackDuplicatesInsert2Fix0()
    ensures RedBlackTree.EnsureRedProperty(Zipper(R(Leaf, 'E', Leaf), [Frame(Left, Black, 'E' as int, Leaf)])) ==
            Zipper(R(Leaf, 'E', Leaf), [Frame(Left, Black, 'E' as int, Leaf)])
  {
  }

  lemma RedBlackDuplicatesInsert2End()
    ensures Plug(Zipper(R(Leaf, 'E', Leaf), [Frame(Left, Black, 'E' as int, Leaf)])) ==
            B(R(Leaf, 'E', Leaf), 'E', Leaf)
  {
  }

  lemma RedBlackDuplicatesInsert2(t: Tree, v: int)
    requires t == B(Leaf, 'E', Leaf) && v == 'E' as int
    ensures RedBlackTree.Insert(t, Some(v)).value ==
            B(R(Leaf, 'E', Leaf), 'E', Leaf)
  {
    RedBlackDuplicatesInsert2Slot();
    RedBlackDuplicatesInsert2Start();
    RedBlackDuplicatesInsert2Fix0();
    RedBlackDuplicatesInsert2End();
    InsertVia(t, v, Zipper(Leaf, [Frame(Left, Black, 'E' as int, Leaf)]).path, Zipper(R(Leaf, 'E', Leaf), [Frame(Left, Black, 'E' as int, Leaf)]), Zipper(R(Leaf, 'E', Leaf), [Frame(Left, Black, 'E' as int, Leaf)]), B(R(Leaf, 'E', Leaf), 'E', Leaf));
  }

  lemma RedBlackDuplicatesInsert3Slot()
    ensures BinarySearchTree.InsertionSlot(B(R(Leaf, 'E', Leaf), 'E', Leaf), 'E' as int).path ==
            Zipper(Leaf, [Frame(Left, Red, 'E' as int, Leaf), Frame(Left, Black, 'E' as int, Leaf)]).path
  {
  }

  lemma RedBlackDuplicatesInsert3Start()
    ensures RedBlackTree.BlackenRoot(Zipper(NewNode('E' as int), Zipper(Leaf, [Frame(Left, Red, 'E' as int, Leaf), Frame(Left, Black, 'E' as int, Leaf)]).path)) ==
            Zipper(R(Leaf, 'E', Leaf), [Frame(Left, Red, 'E' as int, Leaf), Frame(Left, Black, 'E' as int, Leaf)])
  {
  }

  lemma RedBlackDuplicatesInsert3Fix0()
    ensures RedBlackTree.EnsureRedProperty(Zipper(R(Leaf, 'E', Leaf), [Frame(Left, Red, 'E' as int, Leaf), Frame(Left, Black, 'E' as int, Leaf)])) ==
            RedBlackTree.EnsureRedProperty(Zipper(R(Leaf, 'E', Leaf), [Frame(Right, Black, 'E' as int, R(Leaf, 'E', Leaf))]))
  {
  }

  lemma RedBlackDuplicatesInsert3Fix1()
    ensures RedBlackTree.EnsureRedProperty(Zipper(R(Leaf, 'E', Leaf), [Frame(Right, Black, 'E' as int, R(Leaf, 'E', Leaf))])) ==
            Zipper(R(Leaf, 'E', Leaf), [Frame(Right, Black, 'E' as int, R(Leaf, 'E', Leaf))])
  {
  }

  lemma RedBlackDuplicatesInsert3Fix()
    ensures RedBlackTree.EnsureRedProperty(Zipper(R(Leaf, 'E', Leaf), [Frame(Left, Red, 'E' as int, Leaf), Frame(Left, Black, 'E' as int, Leaf)])) ==
            Zipper(R(Leaf, 'E', Leaf), [Frame(Right, Black, 'E' as int, R(Leaf, 'E', Leaf))])
  {
    RedBlackDuplicatesInsert3Fix0();
    RedBlackDuplicatesInsert3Fix1();
  }

  lemma RedBlackDuplicatesInsert3End()
    ensures Plug(Zipper(R(Leaf, 'E', Leaf), [Frame(Right, Black, 'E' as int, R(Leaf, 'E', Leaf))])) ==
            B(R(Leaf, 'E', Leaf), 'E', R(Leaf, 'E', Leaf))
  {
  }

  lemma RedBlackDuplicatesInsert3(t: Tree, v: int)
    requires t == B(R(Leaf, 'E', Leaf), 'E', Leaf) && v == 'E' as int
    ensures RedBlackTree.Insert(t, Some(v)).value ==
            B(R(Leaf, 'E', Leaf), 'E', R(Leaf, 'E', Leaf))
  {
    RedBlackDuplicatesInsert3Slot();
    RedBlackDuplicatesInsert3Start();
    RedBlackDuplicatesInsert3Fix();
    RedBlackDuplicatesInsert3End();
    InsertVia(t, v, Zipper(Leaf, [Frame(Left, Red, 'E' as int, Leaf), Frame(Left, Black, 'E' as int, Leaf)]).path, Zipper(R(Leaf, 'E', Leaf), [Frame(Left, Red, 'E' as int, Leaf), Frame(Left, Black, 'E' as int, Leaf)]), Zipper(R(Leaf, 'E', Leaf), [Frame(Right, Black, 'E' as int, R(Leaf, 'E', Leaf))]), B(R(Leaf, 'E', Leaf), 'E', R(Leaf, 'E', Leaf)));
  }

  /** Three insertions of the same value. */
  lemma RedBlackDuplicates()
    ensures RedBlackTree.InsertAll(Leaf, ['E' as int, 'E' as int, 'E' as int]) ==
            B(R(Leaf, 'E', Leaf), 'E', R(Leaf, 'E', Leaf))
  {
    RedBlackDuplicatesFrom1();
  }

  lemma RedBlackDuplicatesFrom1()
    ensures RedBlackTree.InsertAll(B(Leaf, 'E', Leaf), ['E' as int, 'E' as int]) ==
            B(R(Leaf, 'E', Leaf), 'E', R(Leaf, 'E', Leaf))
  {
    RedBlackDuplicatesFrom2();
    RedBlackDuplicatesInsert2(B(Leaf, 'E', Leaf), 'E' as int);
  }

  lemma RedBlackDuplicatesFrom2()
    ensures RedBlackTree.InsertAll(B(R(Leaf, 'E', Leaf), 'E', Leaf), ['E' as int]) ==
            B(R(Leaf, 'E', Leaf), 'E', R(Leaf, 'E', Leaf))
  {
    RedBlackDuplicatesInsert3(B(R(Leaf, 'E', Leaf), 'E', Leaf), 'E' as int);
  }

  /** The strict order (left at most, right strictly greater) is not kept by
      red-black insertion with equal values: the rotation leaves one copy to
      the right of an equal root. The weak order is kept, as always. */
  lemma RedBlackLeavesStrictOrder(t: Tree)
    requires t == B(R(Leaf, 'E', Leaf), 'E', R(Leaf, 'E', Leaf))
    ensures !StrictOrdered(t) && Ordered(t)
  {
    assert 'E' as int in Elements(t.right);
  }
}
