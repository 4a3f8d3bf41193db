/** The node shared by the plain and the red-black tree, and the two views of
    a tree that every operation is judged against: its in-order sequence of
    values (with and without colours) and its multiset of values. */
module Trees {

  datatype Color = Red | Black

  /** Toggles a colour; the only colour change a node supports. */
  function Flip(c: Color): (r: Color)
    ensures r != c
  {
    if c == Red then Black else Red
  }

  /** A tree is the empty slot `Leaf` or a node owning its two subtrees. */
  datatype Tree = Leaf | Node(color: Color, left: Tree, value: int, right: Tree)

  datatype Side = Left | Right

  function Other(s: Side): (r: Side)
    ensures r != s
  {
    if s == Left then Right else Left
  }

  function Child(t: Tree, s: Side): Tree
    requires t.Node?
  {
    if s == Left then t.left else t.right
  }

  /** A freshly created node: no children and coloured red. The plain tree
      never reads the colour; the red-black tree relies on it. */
  function NewNode(v: int): Tree
  {
    Node(Red, Leaf, v, Leaf)
  }

  /** An absent node counts as black. */
  predicate IsRed(t: Tree)
  {
    t.Node? && t.color == Red
  }

  /** The node's own colour flipped; its links are untouched. */
  function FlipColor(t: Tree): (r: Tree)
    requires t.Node?
    ensures r.Node? && r.color != t.color
    ensures r.left == t.left && r.value == t.value && r.right == t.right
  {
    t.(color := Flip(t.color))
  }

  function InOrder(t: Tree): seq<int>
  {
    match t
    case Leaf => []
    case Node(_, l, v, r) => InOrder(l) + [v] + InOrder(r)
  }

  /** The in-order sequence of nodes, each with its colour. */
  function ColoredInOrder(t: Tree): seq<(int, Color)>
  {
    match t
    case Leaf => []
    case Node(c, l, v, r) => ColoredInOrder(l) + [(v, c)] + ColoredInOrder(r)
  }

  function Elements(t: Tree): multiset<int>
  {
    match t
    case Leaf => multiset{}
    case Node(_, l, v, r) => Elements(l) + multiset{v} + Elements(r)
  }

  /** The weak search-tree order: every value of the left subtree is at most
      the node's value and every value of the right subtree at least it. */
  predicate Ordered(t: Tree)
  {
    match t
    case Leaf => true
    case Node(_, l, v, r) =>
      && Ordered(l) && Ordered(r)
      && (forall x | x in Elements(l) :: x <= v)
      && (forall x | x in Elements(r) :: v <= x)
  }

  /** The order the plain insert produces, ties always on the left: left
      values at most the node's value, right values strictly greater. */
  predicate StrictOrdered(t: Tree)
  {
    match t
    case Leaf => true
    case Node(_, l, v, r) =>
      && StrictOrdered(l) && StrictOrdered(r)
      && (forall x | x in Elements(l) :: x <= v)
      && (forall x | x in Elements(r) :: v < x)
  }

  predicate Sorted(s: seq<int>)
  {
    forall i, j | 0 <= i < j < |s| :: s[i] <= s[j]
  }

  lemma {:induction false} ElementsAreInOrder(t: Tree)
    ensures multiset(InOrder(t)) == Elements(t)
    ensures |InOrder(t)| == |Elements(t)|
  {
    match t
    case Leaf =>
    case Node(_, l, v, r) =>
      ElementsAreInOrder(l);
      ElementsAreInOrder(r);
      assert InOrder(t) == InOrder(l) + [v] + InOrder(r);
  }

  /** The values of the coloured in-order sequence are the in-order values. */
  lemma {:induction false} ColoredProjects(t: Tree)
    ensures |ColoredInOrder(t)| == |InOrder(t)|
    ensures forall i | 0 <= i < |InOrder(t)| :: ColoredInOrder(t)[i].0 == InOrder(t)[i]
  {
    match t
    case Leaf =>
    case Node(c, l, v, r) =>
      ColoredProjects(l);
      ColoredProjects(r);
  }

  lemma ColoredDeterminesInOrder(t: Tree, u: Tree)
    requires ColoredInOrder(t) == ColoredInOrder(u)
    ensures InOrder(t) == InOrder(u)
  {
    ColoredProjects(t);
    ColoredProjects(u);
  }

  lemma StrictImpliesOrdered(t: Tree)
    requires StrictOrdered(t)
    ensures Ordered(t)
  {
  }

  lemma SortedAroundSplit(a: seq<int>, v: int, b: seq<int>)
    requires Sorted(a + [v] + b)
    ensures Sorted(a) && Sorted(b)
    ensures forall x | x in a :: x <= v
    ensures forall x | x in b :: v <= x
  {
    var s := a + [v] + b;
    forall x | x in a ensures x <= v {
      var i :| 0 <= i < |a| && a[i] == x;
      assert s[i] == x && s[|a|] == v;
    }
    forall x | x in b ensures v <= x {
      var i :| 0 <= i < |b| && b[i] == x;
      assert s[|a| + 1 + i] == x && s[|a|] == v;
    }
    forall i, j | 0 <= i < j < |a| ensures a[i] <= a[j] {
      assert s[i] == a[i] && s[j] == a[j];
    }
    forall i, j | 0 <= i < j < |b| ensures b[i] <= b[j] {
      assert s[|a| + 1 + i] == b[i] && s[|a| + 1 + j] == b[j];
    }
  }

  lemma SortedAroundJoin(a: seq<int>, v: int, b: seq<int>)
    requires Sorted(a) && Sorted(b)
    requires forall x | x in a :: x <= v
    requires forall x | x in b :: v <= x
    ensures Sorted(a + [v] + b)
  {
    var s := a + [v] + b;
    forall i, j | 0 <= i < j < |s| ensures s[i] <= s[j] {
      if j < |a| {
        assert s[i] == a[i] && s[j] == a[j];
      } else if j == |a| {
        assert s[i] == a[i] && a[i] in a;
      } else if i < |a| {
        assert s[i] == a[i] && a[i] in a;
        assert s[j] == b[j - |a| - 1] && b[j - |a| - 1] in b;
      } else if i == |a| {
        assert s[j] == b[j - |a| - 1] && b[j - |a| - 1] in b;
      } else {
        assert s[i] == b[i - |a| - 1] && s[j] == b[j - |a| - 1];
      }
    }
  }

  lemma SortedAround(a: seq<int>, v: int, b: seq<int>)
    ensures Sorted(a + [v] + b) <==>
      && Sorted(a) && Sorted(b)
      && (forall x | x in a :: x <= v)
      && (forall x | x in b :: v <= x)
  {
    if Sorted(a + [v] + b) {
      SortedAroundSplit(a, v, b);
    }
    if && Sorted(a) && Sorted(b)
       && (forall x | x in a :: x <= v)
       && (forall x | x in b :: v <= x)
    {
      SortedAroundJoin(a, v, b);
    }
  }

  /** The weak order is exactly "the in-order sequence is sorted", so any
      operation that keeps the in-order sequence keeps the order. */
  lemma {:induction false} OrderedIffSorted(t: Tree)
    ensures Ordered(t) <==> Sorted(InOrder(t))
  {
    match t
    case Leaf =>
    case Node(_, l, v, r) =>
      OrderedIffSorted(l);
      OrderedIffSorted(r);
      ElementsAreInOrder(l);
      ElementsAreInOrder(r);
      SortedAround(InOrder(l), v, InOrder(r));
      assert forall x :: x in Elements(l) <==> x in InOrder(l);
      assert forall x :: x in Elements(r) <==> x in InOrder(r);
  }

  /** Two trees with the same in-order sequence hold the same values, and
      one is ordered exactly when the other is. */
  lemma SameInOrder(t: Tree, u: Tree)
    requires InOrder(t) == InOrder(u)
    ensures Elements(t) == Elements(u)
    ensures Ordered(t) <==> Ordered(u)
  {
    ElementsAreInOrder(t);
    ElementsAreInOrder(u);
    OrderedIffSorted(t);
    OrderedIffSorted(u);
  }
}
