/** The red-black tree: the colour invariants, the insertion fixup
    `ensureRedProperty` as a walk up a zipper from the newly inserted node,
    and the overriding insert. */
module RedBlackTree {
  import opened Outcomes
  import opened Trees
  import opened Zippers
  import BinarySearchTree
  import opened BSTRotation

  function BlackCount(c: Color): nat
  {
    if c == Black then 1 else 0
  }

  /** Black nodes on the leftmost path below and including `t`. */
  function BlackHeight(t: Tree): nat
  {
    match t
    case Leaf => 0
    case Node(c, l, _, _) => BlackHeight(l) + BlackCount(c)
  }

  /** Every path from a node down to an empty slot meets as many black nodes
      as every other. */
  predicate Balanced(t: Tree)
  {
    match t
    case Leaf => true
    case Node(_, l, _, r) => Balanced(l) && Balanced(r) && BlackHeight(l) == BlackHeight(r)
  }

  /** No red node has a red child. */
  predicate NoRedRed(t: Tree)
  {
    match t
    case Leaf => true
    case Node(c, l, _, r) =>
      && (c == Red ==> !IsRed(l) && !IsRed(r))
      && NoRedRed(l) && NoRedRed(r)
  }

  /** The three colour invariants: black root, no red-red edge, uniform
      black height. */
  predicate IsRedBlack(t: Tree)
  {
    !IsRed(t) && NoRedRed(t) && Balanced(t)
  }

  /** The number of black nodes on each path from `t` down to an empty slot,
      collected as a set: an independent reading of black-height uniformity. */
  function PathBlackCounts(t: Tree): set<nat>
  {
    match t
    case Leaf => {0}
    case Node(c, l, _, r) =>
      var below := PathBlackCounts(l) + PathBlackCounts(r);
      set n | n in below :: n + BlackCount(c)
  }

  lemma {:induction false} LeftmostCount(t: Tree)
    ensures BlackHeight(t) in PathBlackCounts(t)
  {
    match t
    case Leaf =>
    case Node(c, l, _, r) =>
      LeftmostCount(l);
  }

  /** `Balanced` says exactly that all paths agree on their black count. */
  lemma {:induction false} BalancedIffOneCount(t: Tree)
    ensures Balanced(t) <==> PathBlackCounts(t) == {BlackHeight(t)}
  {
    match t
    case Leaf =>
    case Node(c, l, _, r) =>
      BalancedIffOneCount(l);
      BalancedIffOneCount(r);
      LeftmostCount(l);
      LeftmostCount(r);
      var b := BlackCount(c);
      var below := PathBlackCounts(l) + PathBlackCounts(r);
      assert PathBlackCounts(t) == set n | n in below :: n + b;
      if Balanced(t) {
        assert below == {BlackHeight(l)};
      }
      if PathBlackCounts(t) == {BlackHeight(t)} {
        forall n | n in below ensures n == BlackHeight(l) {
          assert n + b in PathBlackCounts(t);
        }
        assert PathBlackCounts(l) == {BlackHeight(l)};
        assert PathBlackCounts(r) == {BlackHeight(r)};
      }
  }

  /** The root of `t` coloured black (Java: `if (root.isRed()) root.flipColor()`). */
  function Blacken(t: Tree): (r: Tree)
    ensures !IsRed(r)
    ensures t.Leaf? ==> r == Leaf
    ensures t.Node? ==> r.Node? && r.left == t.left && r.value == t.value && r.right == t.right
  {
    if IsRed(t) then FlipColor(t) else t
  }

  /** Blackens the root of the zipper's tree, wherever the focus is. */
  function BlackenRoot(z: Zipper): (r: Zipper)
    ensures Plug(r) == Blacken(Plug(z))
    ensures r.focus == z.focus || z.path == []
    ensures |r.path| == |z.path|
    ensures |z.path| > 0 ==> r.path[..|z.path| - 1] == z.path[..|z.path| - 1]
  {
    if z.path == [] then Zipper(Blacken(z.focus), [])
    else
      var k := |z.path| - 1;
      var top := z.path[k];
      var top' := if top.color == Red then top.(color := Flip(top.color)) else top;
      PlugRecolorRoot(z.focus, z.path, top'.color);
      Zipper(z.focus, z.path[..k] + [top'])
  }

  /** The root of a plugged zipper is its last frame; recolouring that frame
      recolours the root and nothing else. */
  lemma {:induction false} PlugRecolorRoot(s: Tree, path: seq<Frame>, c: Color)
    requires path != []
    ensures Plug(Zipper(s, path)).Node?
    ensures Plug(Zipper(s, path)).color == path[|path| - 1].color
    ensures Plug(Zipper(s, path[..|path| - 1] + [path[|path| - 1].(color := c)])) ==
            Plug(Zipper(s, path)).(color := c)
    decreases |path|
  {
    var k := |path| - 1;
    var path' := path[..k] + [path[k].(color := c)];
    if k == 0 {
      assert path' == [path[0].(color := c)];
    } else {
      assert path'[0] == path[0];
      assert path'[1..] == path[1..][..k - 1] + [path[1..][k - 1].(color := c)];
      PlugRecolorRoot(Attach(path[0], s), path[1..], c);
    }
  }

  /** Case 1 of the fixup (aunt absent or black, parent the grandparent's left
      child, new node the parent's left child): rotate(parent, grandparent),
      flip both colours, and continue at the grandparent, now the parent's
      right child. */
  function StraightLeft(z: Zipper): (r: Zipper)
    requires |z.path| >= 2 && z.path[0].side == Left && z.path[1].side == Left
    ensures |r.path| == |z.path| - 1 && r.path[1..] == z.path[2..]
    ensures r.focus == Node(Flip(z.path[1].color), z.path[0].sibling, z.path[1].value, z.path[1].sibling)
    ensures r.path[0] == Frame(Right, Flip(z.path[0].color), z.path[0].value, z.focus)
  {
    var g := Up(Up(z));
    var rotated := RotateRight(g.focus);
    var recolored := FlipColor(rotated.(right := FlipColor(rotated.right)));
    Down(Zipper(recolored, g.path), Right)
  }

  /** Case 4, the mirror of case 1. */
  function StraightRight(z: Zipper): (r: Zipper)
    requires |z.path| >= 2 && z.path[0].side == Right && z.path[1].side == Right
    ensures |r.path| == |z.path| - 1 && r.path[1..] == z.path[2..]
    ensures r.focus == Node(Flip(z.path[1].color), z.path[1].sibling, z.path[1].value, z.path[0].sibling)
    ensures r.path[0] == Frame(Left, Flip(z.path[0].color), z.path[0].value, z.focus)
  {
    var g := Up(Up(z));
    var rotated := RotateLeft(g.focus);
    var recolored := FlipColor(rotated.(left := FlipColor(rotated.left)));
    Down(Zipper(recolored, g.path), Left)
  }

  /** Case 2 (parent a left child, new node a right child): rotate(node,
      parent), then rotate(node, grandparent), flip the node and the
      grandparent, and continue at the grandparent, now the node's right
      child. */
  function ZigZagLeft(z: Zipper): (r: Zipper)
    requires |z.path| >= 2 && z.path[0].side == Right && z.path[1].side == Left
    requires z.focus.Node?
    ensures |r.path| == |z.path| - 1 && r.path[1..] == z.path[2..]
    ensures r.focus == Node(Flip(z.path[1].color), z.focus.right, z.path[1].value, z.path[1].sibling)
    ensures r.path[0] == Frame(Right, Flip(z.focus.color), z.focus.value,
                               Node(z.path[0].color, z.path[0].sibling, z.path[0].value, z.focus.left))
  {
    var p := Up(z);
    var p' := Zipper(RotateLeft(p.focus), p.path);
    var g := Up(p');
    var rotated := RotateRight(g.focus);
    var recolored := FlipColor(rotated.(right := FlipColor(rotated.right)));
    Down(Zipper(recolored, g.path), Right)
  }

  /** Case 3, the mirror of case 2. */
  function ZigZagRight(z: Zipper): (r: Zipper)
    requires |z.path| >= 2 && z.path[0].side == Left && z.path[1].side == Right
    requires z.focus.Node?
    ensures |r.path| == |z.path| - 1 && r.path[1..] == z.path[2..]
    ensures r.focus == Node(Flip(z.path[1].color), z.path[1].sibling, z.path[1].value, z.focus.left)
    ensures r.path[0] == Frame(Left, Flip(z.focus.color), z.focus.value,
                               Node(z.path[0].color, z.focus.right, z.path[0].value, z.path[0].sibling))
  {
    var p := Up(z);
    var p' := Zipper(RotateRight(p.focus), p.path);
    var g := Up(p');
    var rotated := RotateLeft(g.focus);
    var recolored := FlipColor(rotated.(left := FlipColor(rotated.left)));
    Down(Zipper(recolored, g.path), Left)
  }

  /** The aunt-red case: the aunt turns black, the parent turns black if red,
      the grandparent turns red if it is black and not the root, and the
      walk continues at the grandparent, which stays where it was. */
  function AuntRed(z: Zipper): (r: Zipper)
    requires |z.path| >= 2 && z.path[1].sibling.Node?
    ensures r.path == z.path[2..]
    ensures r.focus.Node? && r.focus.value == z.path[1].value
    ensures var parent := Attach(z.path[0], z.focus);
              parent.Node? && Child(r.focus, z.path[1].side) == parent.(color := Black)
    ensures Child(r.focus, Other(z.path[1].side)) == FlipColor(z.path[1].sibling)
    ensures r.focus.color ==
              if z.path[2..] != [] && z.path[1].color == Black then Red else z.path[1].color
  {
    var g := Up(Up(z));
    var gp := g.focus;
    var side := z.path[1].side;
    var parent := Child(gp, side);
    var aunt := Child(gp, Other(side));
    var aunt' := FlipColor(aunt);
    var parent' := if IsRed(parent) then FlipColor(parent) else parent;
    var color := if g.path != [] && !IsRed(gp) then Flip(gp.color) else gp.color;
    var gp' := if side == Left then Node(color, parent', gp.value, aunt') else Node(color, aunt', gp.value, parent');
    Zipper(gp', g.path)
  }

  /** Recolouring and rotating the focus keeps the whole in-order sequence. */
  lemma RecolorKeepsInOrder(g: Zipper, s: Tree)
    requires InOrder(s) == InOrder(g.focus)
    ensures InOrder(Plug(Zipper(s, g.path))) == InOrder(Plug(g))
  {
    PlugInOrder(g, s);
  }

  /** Each fixup case rebuilds the same in-order sequence: rotations and
      recolourings move nodes around but never reorder their values. */
  lemma StraightLeftKeepsInOrder(z: Zipper)
    requires |z.path| >= 2 && z.path[0].side == Left && z.path[1].side == Left
    ensures InOrder(Plug(StraightLeft(z))) == InOrder(Plug(z))
  {
    var g := Up(Up(z));
    var rotated := RotateRight(g.focus);
    ColoredDeterminesInOrder(rotated, g.focus);
    var recolored := FlipColor(rotated.(right := FlipColor(rotated.right)));
    assert InOrder(recolored) == InOrder(rotated);
    RecolorKeepsInOrder(g, recolored);
    assert Plug(StraightLeft(z)) == Plug(Zipper(recolored, g.path));
  }

  lemma StraightRightKeepsInOrder(z: Zipper)
    requires |z.path| >= 2 && z.path[0].side == Right && z.path[1].side == Right
    ensures InOrder(Plug(StraightRight(z))) == InOrder(Plug(z))
  {
    var g := Up(Up(z));
    var rotated := RotateLeft(g.focus);
    ColoredDeterminesInOrder(rotated, g.focus);
    var recolored := FlipColor(rotated.(left := FlipColor(rotated.left)));
    assert InOrder(recolored) == InOrder(rotated);
    RecolorKeepsInOrder(g, recolored);
    assert Plug(StraightRight(z)) == Plug(Zipper(recolored, g.path));
  }

  lemma ZigZagLeftKeepsInOrder(z: Zipper)
    requires |z.path| >= 2 && z.path[0].side == Right && z.path[1].side == Left && z.focus.Node?
    ensures InOrder(Plug(ZigZagLeft(z))) == InOrder(Plug(z))
  {
    var p := Up(z);
    var p' := Zipper(RotateLeft(p.focus), p.path);
    PlugColoredInOrder(p, p'.focus);
    ColoredDeterminesInOrder(Plug(p'), Plug(p));
    var g := Up(p');
    var rotated := RotateRight(g.focus);
    ColoredDeterminesInOrder(rotated, g.focus);
    var recolored := FlipColor(rotated.(right := FlipColor(rotated.right)));
    assert InOrder(recolored) == InOrder(rotated);
    RecolorKeepsInOrder(g, recolored);
    assert Plug(ZigZagLeft(z)) == Plug(Zipper(recolored, g.path));
  }

  lemma ZigZagRightKeepsInOrder(z: Zipper)
    requires |z.path| >= 2 && z.path[0].side == Left && z.path[1].side == Right && z.focus.Node?
    ensures InOrder(Plug(ZigZagRight(z))) == InOrder(Plug(z))
  {
    var p := Up(z);
    var p' := Zipper(RotateRight(p.focus), p.path);
    PlugColoredInOrder(p, p'.focus);
    ColoredDeterminesInOrder(Plug(p'), Plug(p));
    var g := Up(p');
    var rotated := RotateLeft(g.focus);
    ColoredDeterminesInOrder(rotated, g.focus);
    var recolored := FlipColor(rotated.(left := FlipColor(rotated.left)));
    assert InOrder(recolored) == InOrder(rotated);
    RecolorKeepsInOrder(g, recolored);
    assert Plug(ZigZagRight(z)) == Plug(Zipper(recolored, g.path));
  }

  lemma AuntRedKeepsInOrder(z: Zipper)
    requires |z.path| >= 2 && z.path[1].sibling.Node?
    ensures InOrder(Plug(AuntRed(z))) == InOrder(Plug(z))
  {
    var g := Up(Up(z));
    var r := AuntRed(z);
    assert InOrder(r.focus) == InOrder(g.focus);
    PlugInOrder(g, r.focus);
  }

  /** The whole fixup keeps the in-order sequence of the tree. */
  lemma {:induction false} FixupKeepsInOrder(z0: Zipper)
    ensures InOrder(Plug(EnsureRedProperty(z0))) == InOrder(Plug(z0))
    decreases |z0.path|
  {
    var z := BlackenRoot(z0);
    assert InOrder(Plug(z)) == InOrder(Plug(z0));
    if z.path == [] || z.focus.Leaf? || z.path[0].color == Black || |z.path| == 1 {
    } else {
      var parentSide, auntNode := z.path[1].side, z.path[1].sibling;
      var next :=
        if !IsRed(auntNode) then
          if parentSide == Left then
            if z.path[0].side == Left then StraightLeft(z) else ZigZagLeft(z)
          else
            if z.path[0].side == Left then ZigZagRight(z) else StraightRight(z)
        else AuntRed(z);
      if IsRed(auntNode) {
        AuntRedKeepsInOrder(z);
      } else if parentSide == Left {
        if z.path[0].side == Left { StraightLeftKeepsInOrder(z); } else { ZigZagLeftKeepsInOrder(z); }
      } else {
        if z.path[0].side == Left { ZigZagRightKeepsInOrder(z); } else { StraightRightKeepsInOrder(z); }
      }
      FixupKeepsInOrder(next);
    }
  }

  /** `ensureRedProperty(newRedNode)`, the node being the zipper's focus. The
      root is blackened first; the walk stops when the node is the root, is
      absent, has a black parent, or has no grandparent. Otherwise the aunt's
      colour and the shape select a case, and the fixup continues at the
      grandparent. The walk climbs: every step shortens the path to the root.
      (The source re-tests "parent is the grandparent's right child" after the
      left-hand cases have rotated; the grandparent's right child is then
      still the aunt, so the test fails and an if/else models it.) */
  function EnsureRedProperty(z0: Zipper): (r: Zipper)
    ensures !IsRed(Plug(r))
    ensures (z0.path == [] || z0.focus.Leaf? || BlackenRoot(z0).path[0].color == Black)
              ==> r == BlackenRoot(z0)
    decreases |z0.path|
  {
    var z := BlackenRoot(z0);
    if z.path == [] || z.focus.Leaf? || z.path[0].color == Black || |z.path| == 1 then z
    else
      var parentSide, auntNode := z.path[1].side, z.path[1].sibling;
      var next :=
        if !IsRed(auntNode) then
          if parentSide == Left then
            if z.path[0].side == Left then StraightLeft(z) else ZigZagLeft(z)
          else
            if z.path[0].side == Left then ZigZagRight(z) else StraightRight(z)
        else AuntRed(z);
      EnsureRedProperty(next)
  }

  /** Red-black insertion: a null value is refused; into an empty tree the
      new node becomes the root and is blackened; otherwise it is placed as
      in the plain tree, the root is blackened, and the fixup runs from the
      new node. */
  function Insert(t: Tree, data: Option<int>): (r: Result<Tree>)
    ensures data.None? ==> r == Failure(NullArgument)
    ensures data.Some? ==> r.Success? && !IsRed(r.value)
    ensures data.Some? && t.Leaf? ==> r.value == Node(Black, Leaf, data.value, Leaf)
  {
    match data
    case None => Failure(NullArgument)
    case Some(v) =>
      if t.Leaf? then Success(Blacken(NewNode(v)))
      else
        var z := BlackenRoot(Zipper(NewNode(v), BinarySearchTree.InsertionSlot(t, v).path));
        Success(Plug(EnsureRedProperty(z)))
  }

  /** Red-black insertion lays the values out exactly as the plain
      insertion does; only the shape and the colours differ. Hence it adds
      the one value and keeps the order. */
  lemma InsertLikePlainInsert(t: Tree, v: int)
    ensures InOrder(Insert(t, Some(v)).value) == InOrder(BinarySearchTree.Insert(t, Some(v)).value)
    ensures Elements(Insert(t, Some(v)).value) == Elements(t) + multiset{v}
    ensures Ordered(t) ==> Ordered(Insert(t, Some(v)).value)
  {
    var u := Insert(t, Some(v)).value;
    var plain := BinarySearchTree.Insert(t, Some(v)).value;
    if t.Node? {
      BinarySearchTree.InsertHelperKeepsOrdered(t, v);
      var z := BlackenRoot(Zipper(NewNode(v), BinarySearchTree.InsertionSlot(t, v).path));
      FixupKeepsInOrder(z);
      BinarySearchTree.InsertIsSlotFill(t, v);
    }
    SameInOrder(u, plain);
  }

  /** Inserting the values of `vs` one after the other. */
  function InsertAll(t: Tree, vs: seq<int>): (r: Tree)
    ensures vs != [] ==> !IsRed(r)
    decreases |vs|
  {
    if vs == [] then t
    else InsertAll(Insert(t, Some(vs[0])).value, vs[1..])
  }

  /** A run of insertions adds exactly the inserted values and keeps the
      order. */
  lemma {:induction false} InsertAllKeepsOrder(t: Tree, vs: seq<int>)
    ensures Elements(InsertAll(t, vs)) == Elements(t) + multiset(vs)
    ensures Ordered(t) ==> Ordered(InsertAll(t, vs))
    decreases |vs|
  {
    if vs != [] {
      assert vs == [vs[0]] + vs[1..];
      InsertLikePlainInsert(t, vs[0]);
      InsertAllKeepsOrder(Insert(t, Some(vs[0])).value, vs[1..]);
    }
  }
}
