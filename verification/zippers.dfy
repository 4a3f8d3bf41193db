/** Upward access without parent pointers. A zipper holds the subtree at a
    node (the focus) and the chain of frames from that node's parent up to the
    root; each frame is an ancestor with its other child. A path names a node
    the way a Java reference does: by the sides taken from the root. */
module Zippers {
  import opened Trees

  /** An ancestor of the focus: the focus lies on its `side`, `sibling` is
      its child on the other side. */
  datatype Frame = Frame(side: Side, color: Color, value: int, sibling: Tree)

  /** `path[0]` is the focus's parent, `path[1]` its grandparent, and so on;
      the last frame is the root. */
  datatype Zipper = Zipper(focus: Tree, path: seq<Frame>)

  /** The ancestor node rebuilt with `t` hanging on its `side`. */
  function Attach(f: Frame, t: Tree): (r: Tree)
    ensures r.Node? && r.color == f.color && r.value == f.value
    ensures Child(r, f.side) == t && Child(r, Other(f.side)) == f.sibling
  {
    if f.side == Left then Node(f.color, t, f.value, f.sibling)
    else Node(f.color, f.sibling, f.value, t)
  }

  /** The whole tree the zipper describes. */
  function Plug(z: Zipper): Tree
    decreases |z.path|
  {
    if z.path == [] then z.focus
    else Plug(Zipper(Attach(z.path[0], z.focus), z.path[1..]))
  }

  /** Moves the focus to the parent (Java `getUp`). */
  function Up(z: Zipper): (r: Zipper)
    requires z.path != []
    ensures |r.path| == |z.path| - 1 && r.path == z.path[1..]
    ensures r.focus.Node? && Child(r.focus, z.path[0].side) == z.focus
  {
    Zipper(Attach(z.path[0], z.focus), z.path[1..])
  }

  /** Moves the focus to the child on side `s` (Java `getLeft`/`getRight`). */
  function Down(z: Zipper, s: Side): (r: Zipper)
    requires z.focus.Node?
    ensures r.focus == Child(z.focus, s) && |r.path| == |z.path| + 1
    ensures r.path[1..] == z.path && r.path[0].side == s
  {
    var t := z.focus;
    var f := Frame(s, t.color, t.value, Child(t, Other(s)));
    assert Attach(f, Child(t, s)) == t;
    Zipper(Child(t, s), [f] + z.path)
  }

  /** A node reference: the sides taken from the root to reach the node. */
  type Path = seq<Side>

  /** The subtree a reference reaches; `Leaf` (null) when it runs into an
      empty slot. */
  function At(t: Tree, p: Path): Tree
    decreases |p|
  {
    if p == [] then t
    else if t.Leaf? then Leaf
    else At(Child(t, p[0]), p[1..])
  }

  /** The tree with the subtree a reference reaches replaced by `s`; a
      reference that runs off the tree changes nothing. */
  function ReplaceAt(t: Tree, p: Path, s: Tree): Tree
    decreases |p|
  {
    if p == [] then s
    else if t.Leaf? then t
    else if p[0] == Left then t.(left := ReplaceAt(t.left, p[1..], s))
    else t.(right := ReplaceAt(t.right, p[1..], s))
  }

  /** The reference of the zipper's focus: its frames' sides, root first. */
  function PathOf(z: Zipper): (p: Path)
    ensures |p| == |z.path|
    decreases |z.path|
  {
    if z.path == [] then [] else PathOf(Up(z)) + [z.path[0].side]
  }

  /** Two references neither of which lies below the other. */
  predicate Disjoint(p: Path, q: Path)
  {
    !(|p| <= |q| && q[..|p|] == p) && !(|q| <= |p| && p[..|q|] == q)
  }

  lemma {:induction false} AtSnoc(t: Tree, p: Path, s: Side)
    requires At(t, p).Node?
    ensures At(t, p + [s]) == Child(At(t, p), s)
    decreases |p|
  {
    if p == [] {
      assert (p + [s])[1..] == [];
    } else {
      assert (p + [s])[1..] == p[1..] + [s];
      AtSnoc(Child(t, p[0]), p[1..], s);
    }
  }

  lemma {:induction false} ReplaceAtSnoc(t: Tree, p: Path, s: Side, x: Tree)
    requires At(t, p).Node?
    ensures ReplaceAt(t, p + [s], x) ==
            ReplaceAt(t, p, if s == Left then At(t, p).(left := x) else At(t, p).(right := x))
    decreases |p|
  {
    if p == [] {
      assert (p + [s])[1..] == [];
    } else {
      assert (p + [s])[1..] == p[1..] + [s];
      ReplaceAtSnoc(Child(t, p[0]), p[1..], s, x);
    }
  }

  /** Following the focus's reference from the root reaches the focus. */
  lemma {:induction false} AtPathOf(z: Zipper)
    ensures At(Plug(z), PathOf(z)) == z.focus
    decreases |z.path|
  {
    if z.path != [] {
      AtPathOf(Up(z));
      AtSnoc(Plug(z), PathOf(Up(z)), z.path[0].side);
    }
  }

  /** Replacing the subtree at the focus's reference is plugging a new focus. */
  lemma {:induction false} ReplaceAtPathOf(z: Zipper, s: Tree)
    ensures ReplaceAt(Plug(z), PathOf(z), s) == Plug(Zipper(s, z.path))
    decreases |z.path|
  {
    if z.path != [] {
      var f := z.path[0];
      var u := Up(z);
      AtPathOf(u);
      ReplaceAtSnoc(Plug(z), PathOf(u), f.side, s);
      var x := if f.side == Left then u.focus.(left := s) else u.focus.(right := s);
      assert x == Attach(f, s);
      ReplaceAtPathOf(u, x);
    }
  }

  /** Reading the reference just replaced gives the replacement. */
  lemma {:induction false} AtReplaceAt(t: Tree, p: Path, s: Tree)
    requires At(t, p).Node?
    ensures At(ReplaceAt(t, p, s), p) == s
    decreases |p|
  {
    if p != [] {
      AtReplaceAt(Child(t, p[0]), p[1..], s);
    }
  }

  /** A replacement leaves every reference disjoint from it untouched. */
  lemma {:induction false} AtReplaceElsewhere(t: Tree, p: Path, s: Tree, q: Path)
    requires Disjoint(p, q)
    ensures At(ReplaceAt(t, p, s), q) == At(t, q)
    decreases |p|
  {
    if t.Node? && p[0] == q[0] {
      assert p == [p[0]] + p[1..] && q == [q[0]] + q[1..];
      AtReplaceElsewhere(Child(t, p[0]), p[1..], s, q[1..]);
    }
  }

  /** Colour-blind in-order view of a zipper: what lies left of the focus
      and what lies right of it. */
  lemma {:induction false} PlugColoredInOrder(z: Zipper, s: Tree)
    requires ColoredInOrder(s) == ColoredInOrder(z.focus)
    ensures ColoredInOrder(Plug(Zipper(s, z.path))) == ColoredInOrder(Plug(z))
    decreases |z.path|
  {
    if z.path != [] {
      var f := z.path[0];
      PlugColoredInOrder(Zipper(Attach(f, z.focus), z.path[1..]), Attach(f, s));
    }
  }

  lemma {:induction false} PlugInOrder(z: Zipper, s: Tree)
    requires InOrder(s) == InOrder(z.focus)
    ensures InOrder(Plug(Zipper(s, z.path))) == InOrder(Plug(z))
    decreases |z.path|
  {
    if z.path != [] {
      var f := z.path[0];
      PlugInOrder(Zipper(Attach(f, z.focus), z.path[1..]), Attach(f, s));
    }
  }
}
