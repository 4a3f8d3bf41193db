/** The plain (unbalanced) ordered tree: insertion by recursive descent with
    ties sent left, the descending search, the recursive count, the emptiness
    test and clearing. The tree object is its root; every operation takes the
    current root and the mutating ones return the new one. */
module BinarySearchTree {
  import opened Outcomes
  import opened Trees
  import opened Zippers

  /** Hangs a fresh node holding `v` below the non-empty subtree `t`: at each
      node a value at most the node's goes left, a greater one right, and the
      node is attached at the first empty slot on that side. Callers only
      ever pass an existing subtree (the root or a child known to exist). */
  function InsertHelper(t: Tree, v: int): (r: Tree)
    requires t.Node?
    ensures r.Node? && r.color == t.color && r.value == t.value
    ensures Elements(r) == Elements(t) + multiset{v}
  {
    if v <= t.value then
      if t.left.Leaf? then t.(left := NewNode(v))
      else t.(left := InsertHelper(t.left, v))
    else
      if t.right.Leaf? then t.(right := NewNode(v))
      else t.(right := InsertHelper(t.right, v))
  }

  /** Adding `v` to a collection keeps a bound that `v` itself meets. */
  lemma AddKeepsUpperBound(before: Tree, after: Tree, v: int, x: int)
    requires Elements(after) == Elements(before) + multiset{v}
    requires v <= x && forall y | y in Elements(before) :: y <= x
    ensures forall y | y in Elements(after) :: y <= x
  {
    forall y | y in Elements(after) ensures y <= x {
      if y != v { assert y in Elements(before); }
    }
  }

  lemma AddKeepsLowerBound(before: Tree, after: Tree, v: int, x: int)
    requires Elements(after) == Elements(before) + multiset{v}
    requires x <= v && forall y | y in Elements(before) :: x <= y
    ensures forall y | y in Elements(after) :: x <= y
  {
    forall y | y in Elements(after) ensures x <= y {
      if y != v { assert y in Elements(before); }
    }
  }

  lemma AddKeepsStrictLowerBound(before: Tree, after: Tree, v: int, x: int)
    requires Elements(after) == Elements(before) + multiset{v}
    requires x < v && forall y | y in Elements(before) :: x < y
    ensures forall y | y in Elements(after) :: x < y
  {
    forall y | y in Elements(after) ensures x < y {
      if y != v { assert y in Elements(before); }
    }
  }

  /** A node is ordered when its subtrees are and its value separates them. */
  lemma OrderedNode(c: Color, l: Tree, x: int, r: Tree)
    requires Ordered(l) && Ordered(r)
    requires forall y | y in Elements(l) :: y <= x
    requires forall y | y in Elements(r) :: x <= y
    ensures Ordered(Node(c, l, x, r))
  {
  }

  /** Descending left on ties keeps the weak order: a value at most the
      node's joins the left side, a greater one the right side. */
  lemma {:induction false} InsertHelperKeepsOrdered(t: Tree, v: int)
    requires t.Node?
    ensures Ordered(t) ==> Ordered(InsertHelper(t, v))
  {
    if Ordered(t) {
      if v <= t.value {
        if t.left.Node? { InsertHelperKeepsOrdered(t.left, v); }
        InsertLeftKeepsOrdered(t, v);
      } else {
        if t.right.Node? { InsertHelperKeepsOrdered(t.right, v); }
        InsertRightKeepsOrdered(t, v);
      }
    }
  }

  lemma InsertLeftKeepsOrdered(t: Tree, v: int)
    requires t.Node? && Ordered(t) && v <= t.value
    requires t.left.Node? ==> Ordered(InsertHelper(t.left, v))
    ensures Ordered(InsertHelper(t, v))
  {
    var Node(c, l, x, r) := t;
    var l' := if l.Leaf? then NewNode(v) else InsertHelper(l, v);
    assert InsertHelper(t, v) == Node(c, l', x, r);
    assert Elements(l') == Elements(l) + multiset{v};
    AddKeepsUpperBound(l, l', v, x);
    OrderedNode(c, l', x, r);
  }

  lemma InsertRightKeepsOrdered(t: Tree, v: int)
    requires t.Node? && Ordered(t) && t.value < v
    requires t.right.Node? ==> Ordered(InsertHelper(t.right, v))
    ensures Ordered(InsertHelper(t, v))
  {
    var Node(c, l, x, r) := t;
    var r' := if r.Leaf? then NewNode(v) else InsertHelper(r, v);
    assert InsertHelper(t, v) == Node(c, l, x, r');
    assert Elements(r') == Elements(r) + multiset{v};
    AddKeepsLowerBound(r, r', v, x);
    OrderedNode(c, l, x, r');
  }

  lemma StrictOrderedNode(c: Color, l: Tree, x: int, r: Tree)
    requires StrictOrdered(l) && StrictOrdered(r)
    requires forall y | y in Elements(l) :: y <= x
    requires forall y | y in Elements(r) :: x < y
    ensures StrictOrdered(Node(c, l, x, r))
  {
  }

  /** The same for the strict order: equal values always go left, so the
      right side keeps only strictly greater values. */
  lemma {:induction false} InsertHelperKeepsStrictOrdered(t: Tree, v: int)
    requires t.Node?
    ensures StrictOrdered(t) ==> StrictOrdered(InsertHelper(t, v))
  {
    if StrictOrdered(t) {
      if v <= t.value {
        if t.left.Node? { InsertHelperKeepsStrictOrdered(t.left, v); }
        InsertLeftKeepsStrictOrdered(t, v);
      } else {
        if t.right.Node? { InsertHelperKeepsStrictOrdered(t.right, v); }
        InsertRightKeepsStrictOrdered(t, v);
      }
    }
  }

  lemma InsertLeftKeepsStrictOrdered(t: Tree, v: int)
    requires t.Node? && StrictOrdered(t) && v <= t.value
    requires t.left.Node? ==> StrictOrdered(InsertHelper(t.left, v))
    ensures StrictOrdered(InsertHelper(t, v))
  {
    var Node(c, l, x, r) := t;
    var l' := if l.Leaf? then NewNode(v) else InsertHelper(l, v);
    assert InsertHelper(t, v) == Node(c, l', x, r);
    assert Elements(l') == Elements(l) + multiset{v};
    AddKeepsUpperBound(l, l', v, x);
    StrictOrderedNode(c, l', x, r);
  }

  lemma InsertRightKeepsStrictOrdered(t: Tree, v: int)
    requires t.Node? && StrictOrdered(t) && t.value < v
    requires t.right.Node? ==> StrictOrdered(InsertHelper(t.right, v))
    ensures StrictOrdered(InsertHelper(t, v))
  {
    var Node(c, l, x, r) := t;
    var r' := if r.Leaf? then NewNode(v) else InsertHelper(r, v);
    assert InsertHelper(t, v) == Node(c, l, x, r');
    assert Elements(r') == Elements(r) + multiset{v};
    AddKeepsStrictLowerBound(r, r', v, x);
    StrictOrderedNode(c, l, x, r');
  }

  /** Insertion: a null value is refused; into an empty tree the new node
      becomes the root; otherwise it is placed by `InsertHelper`. */
  function Insert(t: Tree, data: Option<int>): (r: Result<Tree>)
    ensures data.None? ==> r == Failure(NullArgument)
    ensures data.Some? ==> r.Success? && Elements(r.value) == Elements(t) + multiset{data.value}
    ensures data.Some? && t.Leaf? ==> r.value == NewNode(data.value)
    ensures data.Some? && StrictOrdered(t) ==> StrictOrdered(r.value)
  {
    match data
    case None => Failure(NullArgument)
    case Some(v) =>
      if t.Leaf? then Success(NewNode(v))
      else
        InsertHelperKeepsStrictOrdered(t, v);
        Success(InsertHelper(t, v))
  }

  /** The search: stops at the first node whose value equals `v`, otherwise
      continues left when `v` is smaller and right when it is greater, and
      fails on reaching an empty slot. (The source's loop is tail recursive.) */
  function Contains(t: Tree, v: int): (found: bool)
    ensures found ==> v in Elements(t)
    ensures Ordered(t) ==> (found <==> v in Elements(t))
  {
    match t
    case Leaf => false
    case Node(_, l, x, r) =>
      if v == x then true
      else if v < x then Contains(l, v)
      else Contains(r, v)
  }

  /** The public `contains`: an empty tree answers false before the query is
      looked at, so even a null query gets `false` there; on a non-empty tree
      a null query fails at its first comparison, and any other query is
      answered by the search. */
  function ContainsData(t: Tree, data: Option<int>): (r: Result<bool>)
    ensures t.Leaf? ==> r == Success(false)
    ensures t.Node? && data.None? ==> r == Failure(NullArgument)
    ensures data.Some? ==> r.Success? && (r.value ==> data.value in Elements(t))
    ensures data.Some? && Ordered(t) ==> r.Success? && (r.value <==> data.value in Elements(t))
  {
    if t.Leaf? then Success(false)
    else if data.None? then Failure(NullArgument)
    else Success(Contains(t, data.value))
  }

  /** The recursive count of nodes below and including `t`. */
  function SizeHelper(t: Tree): (n: nat)
    ensures n == |Elements(t)| == |InOrder(t)|
  {
    match t
    case Leaf => 0
    case Node(_, l, _, r) => 1 + SizeHelper(l) + SizeHelper(r)
  }

  /** Number of stored values, duplicates counted separately. */
  function Size(t: Tree): (n: nat)
    ensures n == |Elements(t)|
    ensures n == 0 <==> t.Leaf?
  {
    if t.Leaf? then 0 else SizeHelper(t)
  }

  function IsEmpty(t: Tree): (empty: bool)
    ensures empty <==> Elements(t) == multiset{}
  {
    t.Leaf?
  }

  /** Drops the whole structure; the argument is the tree being cleared. */
  function Clear(t: Tree): (r: Tree)
    ensures IsEmpty(r) && Size(r) == 0
    ensures forall v :: !Contains(r, v)
  {
    Leaf
  }

  /** The empty slot where `InsertHelper` would hang `v`, found by the same
      descent from the zipper's focus. Each frame passed records the turn
      taken: left exactly when `v` is at most that node's value. */
  function Slot(z: Zipper, v: int): (r: Zipper)
    ensures r.focus.Leaf? && Plug(r) == Plug(z)
    ensures |z.path| <= |r.path| && r.path[|r.path| - |z.path|..] == z.path
    ensures forall i | 0 <= i < |r.path| - |z.path| ::
              r.path[i].side == Left <==> v <= r.path[i].value
    decreases z.focus
  {
    if z.focus.Leaf? then z
    else if v <= z.focus.value then Slot(Down(z, Left), v)
    else Slot(Down(z, Right), v)
  }

  /** The slot the insertion of `v` into the tree `t` fills. */
  function InsertionSlot(t: Tree, v: int): Zipper
  {
    Slot(Zipper(t, []), v)
  }

  /** Insertion attaches exactly one fresh node, at the slot the descent
      finds, and changes nothing else. */
  lemma {:induction false} InsertHelperFillsSlot(z: Zipper, v: int)
    requires z.focus.Node?
    ensures Plug(Zipper(NewNode(v), Slot(z, v).path)) == Plug(Zipper(InsertHelper(z.focus, v), z.path))
    decreases z.focus
  {
    var t := z.focus;
    var s := if v <= t.value then Left else Right;
    var d := Down(z, s);
    if Child(t, s).Leaf? {
      assert Slot(z, v) == d;
      assert Attach(d.path[0], NewNode(v)) == InsertHelper(t, v);
    } else {
      InsertHelperFillsSlot(d, v);
      assert Attach(d.path[0], InsertHelper(Child(t, s), v)) == InsertHelper(t, v);
    }
  }

  lemma InsertIsSlotFill(t: Tree, v: int)
    requires t.Node?
    ensures Plug(Zipper(NewNode(v), InsertionSlot(t, v).path)) == InsertHelper(t, v)
    ensures Plug(InsertionSlot(t, v)) == t && InsertionSlot(t, v).focus == Leaf
  {
    InsertHelperFillsSlot(Zipper(t, []), v);
  }

  /** Inserting the values of `vs` one after the other. */
  function InsertAll(t: Tree, vs: seq<int>): (r: Tree)
    ensures Elements(r) == Elements(t) + multiset(vs)
    ensures StrictOrdered(t) ==> StrictOrdered(r)
    decreases |vs|
  {
    if vs == [] then t
    else
      assert vs == [vs[0]] + vs[1..];
      InsertAll(Insert(t, Some(vs[0])).value, vs[1..])
  }

  /** Starting from an empty tree, every sequence of insertions yields an
      ordered tree whose size is the number of insertions and which contains
      every inserted value. */
  lemma InsertionsFromEmpty(vs: seq<int>)
    ensures StrictOrdered(InsertAll(Leaf, vs))
    ensures Size(InsertAll(Leaf, vs)) == |vs|
    ensures forall v | v in vs :: Contains(InsertAll(Leaf, vs), v)
  {
    var t := InsertAll(Leaf, vs);
    StrictImpliesOrdered(t);
    assert Elements(t) == multiset(vs);
    forall v | v in vs ensures Contains(t, v) {
      assert v in multiset(vs);
    }
  }
}
