/** The rotation engine: one generic single rotation of a parent and its
    direct child, the direction read off which side the child hangs on. It
    only relinks nodes; colours are never read or written. */
module BSTRotation {
  import opened Outcomes
  import opened Trees
  import opened Zippers

  /** Right rotation of the subtree rooted at a parent whose left child is
      the rotated child: the parent adopts the child's right subtree as its
      left, and the child, taking the parent's place, adopts the parent as
      its right child. */
  function RotateRight(t: Tree): (r: Tree)
    requires t.Node? && t.left.Node?
    ensures r.Node? && r.right.Node?
    ensures r.value == t.left.value && r.color == t.left.color && r.left == t.left.left
    ensures r.right.value == t.value && r.right.color == t.color
    ensures r.right.left == t.left.right && r.right.right == t.right
    ensures ColoredInOrder(r) == ColoredInOrder(t)
  {
    var child := t.left;
    Node(child.color, child.left, child.value, t.(left := child.right))
  }

  /** The mirror image: the child is the parent's right child. */
  function RotateLeft(t: Tree): (r: Tree)
    requires t.Node? && t.right.Node?
    ensures r.Node? && r.left.Node?
    ensures r.value == t.right.value && r.color == t.right.color && r.right == t.right.right
    ensures r.left.value == t.value && r.left.color == t.color
    ensures r.left.left == t.left && r.left.right == t.right.left
    ensures ColoredInOrder(r) == ColoredInOrder(t)
  {
    var child := t.right;
    Node(child.color, t.(right := child.left), child.value, child.right)
  }

  /** Each direction undoes the other. */
  lemma RotationsInverse(t: Tree)
    ensures t.Node? && t.left.Node? ==> RotateLeft(RotateRight(t)) == t
    ensures t.Node? && t.right.Node? ==> RotateRight(RotateLeft(t)) == t
  {
  }

  /** `rotate(child, parent)` on the tree `t`, the two nodes given by their
      references. A null reference is refused first; then the child must be
      the parent's left child (right rotation) or right child (left
      rotation), anything else being an invalid argument. On success the
      subtree at the parent's reference is replaced, which is the
      grandparent's slot, or the root when the parent was the root. */
  function Rotate(t: Tree, child: Path, parent: Path): (r: Result<Tree>)
    ensures At(t, child).Leaf? || At(t, parent).Leaf? ==> r == Failure(NullArgument)
    ensures (At(t, child).Node? && At(t, parent).Node? && (child == parent + [Left] || child == parent + [Right]))
              ==> r.Success?
    ensures (At(t, child).Node? && At(t, parent).Node? && child != parent + [Left] && child != parent + [Right])
              ==> r == Failure(IllegalArgument)
    ensures r.Success? ==> ColoredInOrder(r.value) == ColoredInOrder(t)
    ensures r.Success? ==> forall q | Disjoint(q, parent) :: At(r.value, q) == At(t, q)
    ensures r.Success? && child == parent + [Left] ==>
              var c, p := At(t, child), At(t, parent);
              && At(r.value, parent).Node?
              && At(r.value, parent).value == c.value && At(r.value, parent).color == c.color
              && At(r.value, parent + [Left]) == c.left
              && At(r.value, parent + [Right]) == Node(p.color, c.right, p.value, p.right)
    ensures r.Success? && child == parent + [Right] ==>
              var c, p := At(t, child), At(t, parent);
              && At(r.value, parent).Node?
              && At(r.value, parent).value == c.value && At(r.value, parent).color == c.color
              && At(r.value, parent + [Right]) == c.right
              && At(r.value, parent + [Left]) == Node(p.color, p.left, p.value, c.left)
  {
    if At(t, child).Leaf? || At(t, parent).Leaf? then
      Failure(NullArgument)
    else if child == parent + [Left] then
      RotateAt(t, parent, Left)
    else if child == parent + [Right] then
      RotateAt(t, parent, Right)
    else
      Failure(IllegalArgument)
  }

  /** The successful rotation, the child being on side `s` of the parent
      found at the reference `parent`. */
  function RotateAt(t: Tree, parent: Path, s: Side): (r: Result<Tree>)
    requires At(t, parent).Node? && At(t, parent + [s]).Node?
    ensures r.Success?
    ensures ColoredInOrder(r.value) == ColoredInOrder(t)
    ensures forall q | Disjoint(q, parent) :: At(r.value, q) == At(t, q)
    ensures At(t, parent + [s]) == Child(At(t, parent), s)
    ensures s == Left ==> At(t, parent).left.Node? && At(r.value, parent) == RotateRight(At(t, parent))
    ensures s == Right ==> At(t, parent).right.Node? && At(r.value, parent) == RotateLeft(At(t, parent))
    ensures At(r.value, parent).Node?
    ensures At(r.value, parent + [Left]) == At(r.value, parent).left
    ensures At(r.value, parent + [Right]) == At(r.value, parent).right
  {
    var p := At(t, parent);
    AtSnoc(t, parent, s);
    var rotated := if s == Left then RotateRight(p) else RotateLeft(p);
    var u := ReplaceAt(t, parent, rotated);
    AtReplaceAt(t, parent, rotated);
    ReplaceKeepsColoredInOrder(t, parent, rotated);
    forall q | Disjoint(q, parent) ensures At(u, q) == At(t, q) {
      AtReplaceElsewhere(t, parent, rotated, q);
    }
    AtSnoc(u, parent, Left);
    AtSnoc(u, parent, Right);
    Success(u)
  }

  /** Replacing a subtree by one with the same coloured in-order sequence
      keeps the whole tree's coloured in-order sequence. */
  lemma {:induction false} ReplaceKeepsColoredInOrder(t: Tree, p: Path, s: Tree)
    requires At(t, p).Node?
    requires ColoredInOrder(s) == ColoredInOrder(At(t, p))
    ensures ColoredInOrder(ReplaceAt(t, p, s)) == ColoredInOrder(t)
    decreases |p|
  {
    if p != [] {
      ReplaceKeepsColoredInOrder(Child(t, p[0]), p[1..], s);
    }
  }

  /** A successful rotation keeps the values, hence the size, and the order. */
  lemma RotateKeepsOrder(t: Tree, child: Path, parent: Path)
    requires Rotate(t, child, parent).Success?
    ensures Elements(Rotate(t, child, parent).value) == Elements(t)
    ensures Ordered(t) ==> Ordered(Rotate(t, child, parent).value)
  {
    var u := Rotate(t, child, parent).value;
    ColoredDeterminesInOrder(u, t);
    SameInOrder(u, t);
  }

  /** Rotating back, with the roles exchanged, restores the original tree:
      after a right rotation the old parent is the right child of the node
      at its old reference, so rotating it with that node is a left
      rotation, and conversely. */
  lemma RotateUndo(t: Tree, parent: Path, s: Side)
    requires Rotate(t, parent + [s], parent).Success?
    ensures Rotate(Rotate(t, parent + [s], parent).value, parent + [Other(s)], parent) == Success(t)
  {
    var p := At(t, parent);
    AtSnoc(t, parent, s);
    assert parent + [s] != parent + [Other(s)] by {
      assert (parent + [s])[|parent|] == s;
    }
    var u := Rotate(t, parent + [s], parent).value;
    var rotated := if s == Left then RotateRight(p) else RotateLeft(p);
    assert At(u, parent) == rotated;
    AtSnoc(u, parent, Other(s));
    var back := if s == Left then RotateLeft(rotated) else RotateRight(rotated);
    assert back == p;
    assert Rotate(u, parent + [Other(s)], parent) == RotateAt(u, parent, Other(s));
    ReplaceTwice(t, parent, rotated, p);
    ReplaceAtSame(t, parent);
  }

  lemma {:induction false} ReplaceTwice(t: Tree, p: Path, s: Tree, s': Tree)
    requires At(t, p).Node?
    ensures ReplaceAt(ReplaceAt(t, p, s), p, s') == ReplaceAt(t, p, s')
    decreases |p|
  {
    if p != [] {
      ReplaceTwice(Child(t, p[0]), p[1..], s, s');
    }
  }

  lemma {:induction false} ReplaceAtSame(t: Tree, p: Path)
    ensures ReplaceAt(t, p, At(t, p)) == t
    decreases |p|
  {
    if p != [] && t.Node? {
      ReplaceAtSame(Child(t, p[0]), p[1..]);
    }
  }

  /** Rotating the focus of a zipper with its child on side `s` is the
      reference-level `rotate(child, parent)` applied to the whole tree. */
  lemma RotateAtFocus(z: Zipper, s: Side)
    requires z.focus.Node? && Child(z.focus, s).Node?
    ensures Rotate(Plug(z), PathOf(z) + [s], PathOf(z)) ==
            Success(Plug(Zipper(if s == Left then RotateRight(z.focus) else RotateLeft(z.focus), z.path)))
  {
    var t := Plug(z);
    var p := PathOf(z);
    AtPathOf(z);
    AtSnoc(t, p, s);
    assert p + [s] != p + [Other(s)] by {
      assert (p + [s])[|p|] == s;
    }
    var rotated := if s == Left then RotateRight(z.focus) else RotateLeft(z.focus);
    ReplaceAtPathOf(z, rotated);
  }
}
