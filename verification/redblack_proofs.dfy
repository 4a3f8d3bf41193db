/** Why the insertion fixup restores the colour invariants. While the fixup
    walks up, the tree is a red-black tree except that the node it is looking
    at may be red under a red parent; `FixupInv` states that on the zipper,
    every case keeps it while climbing, and the walk ends with no exception
    left. */
module RedBlackProofs {
  import opened Trees
  import opened Zippers
  import opened RedBlackTree
  import opened Outcomes
  import BinarySearchTree

  /** No red-red edge and uniform black height, the root's colour aside. */
  predicate Sound(t: Tree)
  {
    NoRedRed(t) && Balanced(t)
  }

  /** Plugging a sound subtree of black height `h`, red when `red`, into
      `path` gives a sound tree, except that when `exempt` holds the subtree
      may be red under a red parent. */
  ghost predicate ContextValid(path: seq<Frame>, h: nat, red: bool, exempt: bool)
    decreases |path|
  {
    path == [] ||
    (var f := path[0];
     && Sound(f.sibling) && BlackHeight(f.sibling) == h
     && (f.color == Red ==> !IsRed(f.sibling) && (exempt || !red))
     && ContextValid(path[1..], h + BlackCount(f.color), f.color == Red, false))
  }

  /** The state of the fixup: the node looked at is present and sound, it is
      red unless it is the root, the rest of the tree fits around it apart
      from a possible red-red edge to its parent, and the root is black. */
  ghost predicate FixupInv(z: Zipper)
  {
    && z.focus.Node?
    && Sound(z.focus)
    && (IsRed(z.focus) || z.path == [])
    && ContextValid(z.path, BlackHeight(z.focus), IsRed(z.focus), true)
    && !IsRed(Plug(z))
  }

  lemma AttachSound(f: Frame, s: Tree)
    requires Sound(s)
    ensures Sound(Attach(f, s)) <==>
      && Sound(f.sibling) && BlackHeight(f.sibling) == BlackHeight(s)
      && (f.color == Red ==> !IsRed(f.sibling) && !IsRed(s))
    ensures Sound(Attach(f, s)) ==> BlackHeight(Attach(f, s)) == BlackHeight(s) + BlackCount(f.color)
  {
  }

  lemma {:induction false} SoundBelow(s: Tree, path: seq<Frame>)
    requires Sound(Plug(Zipper(s, path)))
    ensures Sound(s)
    decreases |path|
  {
    if path != [] {
      SoundBelow(Attach(path[0], s), path[1..]);
    }
  }

  /** A sound subtree plugs into a sound tree exactly when its context is
      valid without exception. */
  lemma {:induction false} PlugSound(s: Tree, path: seq<Frame>)
    requires Sound(s)
    ensures Sound(Plug(Zipper(s, path))) <==> ContextValid(path, BlackHeight(s), IsRed(s), false)
    decreases |path|
  {
    if path != [] {
      var f := path[0];
      var a := Attach(f, s);
      AttachSound(f, s);
      if Sound(a) {
        PlugSound(a, path[1..]);
      } else if Sound(Plug(Zipper(s, path))) {
        SoundBelow(a, path[1..]);
      }
    }
  }

  lemma RelaxExempt(path: seq<Frame>, h: nat, red: bool, red': bool)
    requires ContextValid(path, h, red, false)
    ensures ContextValid(path, h, red', true)
  {
  }

  lemma BlackParentNoException(path: seq<Frame>, h: nat, red: bool)
    requires ContextValid(path, h, red, true)
    requires path == [] || path[0].color == Black
    ensures ContextValid(path, h, red, false)
  {
  }

  lemma BlackenRootIdle(z: Zipper)
    requires !IsRed(Plug(z))
    ensures BlackenRoot(z) == z
  {
    if z.path != [] {
      var k := |z.path| - 1;
      PlugRecolorRoot(z.focus, z.path, Black);
      assert z.path[..k] + [z.path[k]] == z.path;
    }
  }

  /** When the frames above the grandparent are kept, so is the root's
      colour, provided there are any. */
  lemma RootKept(z: Zipper, next: Zipper, k: nat)
    requires k < |z.path| && |z.path| - k <= |next.path|
    requires next.path[|next.path| - (|z.path| - k)..] == z.path[k..]
    requires !IsRed(Plug(z))
    ensures !IsRed(Plug(next))
  {
    var last := |z.path| - 1;
    PlugRecolorRoot(z.focus, z.path, Black);
    PlugRecolorRoot(next.focus, next.path, Black);
    if k <= last {
      assert next.path[|next.path| - 1] == z.path[k..][last - k];
    }
  }

  /** What a red parent tells about the surroundings of the node. */
  lemma ParentRedFacts(z: Zipper)
    requires FixupInv(z) && |z.path| >= 2 && z.path[0].color == Red
    ensures IsRed(z.focus)
    ensures Sound(z.path[0].sibling) && BlackHeight(z.path[0].sibling) == BlackHeight(z.focus)
    ensures !IsRed(z.path[0].sibling)
    ensures Sound(z.path[1].sibling) && BlackHeight(z.path[1].sibling) == BlackHeight(z.focus)
    ensures z.path[1].color == Black
    ensures ContextValid(z.path[2..], BlackHeight(z.focus) + 1, false, false)
  {
    var h := BlackHeight(z.focus);
    var up := z.path[1..];
    assert ContextValid(up, h, true, false);
    assert up[0] == z.path[1] && up[1..] == z.path[2..];
  }

  /** Cases 1 and 4 keep the invariant. */
  lemma StraightKeeps(z: Zipper)
    requires FixupInv(z) && |z.path| >= 2 && z.path[0].color == Red && !IsRed(z.path[1].sibling)
    requires z.path[0].side == z.path[1].side
    ensures z.path[0].side == Left ==> FixupInv(StraightLeft(z))
    ensures z.path[0].side == Right ==> FixupInv(StraightRight(z))
  {
    ParentRedFacts(z);
    var next := if z.path[0].side == Left then StraightLeft(z) else StraightRight(z);
    var h := BlackHeight(z.focus);
    assert Sound(next.focus) && BlackHeight(next.focus) == h;
    assert next.path[1..] == z.path[2..];
    assert ContextValid(next.path, h, true, true);
    if |z.path| > 2 {
      RootKept(z, next, 2);
    } else {
      PlugRecolorRoot(next.focus, next.path, Black);
    }
  }

  /** Cases 2 and 3 keep the invariant. */
  lemma ZigZagKeeps(z: Zipper)
    requires FixupInv(z) && |z.path| >= 2 && z.path[0].color == Red && !IsRed(z.path[1].sibling)
    requires z.path[0].side != z.path[1].side
    ensures z.path[0].side == Right ==> FixupInv(ZigZagLeft(z))
    ensures z.path[0].side == Left ==> FixupInv(ZigZagRight(z))
  {
    ParentRedFacts(z);
    var next := if z.path[0].side == Right then ZigZagLeft(z) else ZigZagRight(z);
    var h := BlackHeight(z.focus);
    var n := z.focus;
    assert BlackHeight(n.left) == h && BlackHeight(n.right) == h;
    assert Sound(next.focus) && BlackHeight(next.focus) == h;
    assert Sound(next.path[0].sibling) && BlackHeight(next.path[0].sibling) == h;
    assert next.path[1..] == z.path[2..];
    assert ContextValid(next.path, h, true, true);
    if |z.path| > 2 {
      RootKept(z, next, 2);
    } else {
      PlugRecolorRoot(next.focus, next.path, Black);
    }
  }

  /** The aunt-red recolouring keeps the invariant. */
  lemma AuntRedKeeps(z: Zipper)
    requires FixupInv(z) && |z.path| >= 2 && z.path[0].color == Red && IsRed(z.path[1].sibling)
    ensures FixupInv(AuntRed(z))
  {
    ParentRedFacts(z);
    var next := AuntRed(z);
    var h := BlackHeight(z.focus);
    var rest := z.path[2..];
    var side := z.path[1].side;
    var parent' := Child(next.focus, side);
    var aunt' := Child(next.focus, Other(side));
    var a := z.path[1].sibling;
    assert Sound(parent') && BlackHeight(parent') == h + 1 && !IsRed(parent');
    assert BlackHeight(a.left) == h;
    assert Sound(aunt') && BlackHeight(aunt') == h + 1 && !IsRed(aunt');
    assert Sound(next.focus);
    if rest == [] {
      assert Plug(next) == next.focus;
    } else {
      assert BlackHeight(next.focus) == h + 1 && IsRed(next.focus);
      RelaxExempt(rest, h + 1, false, true);
      RootKept(z, next, 2);
    }
  }

  /** The fixup, started in its invariant, ends with a red-black tree. */
  lemma {:induction false} FixupRestores(z: Zipper)
    requires FixupInv(z)
    ensures IsRedBlack(Plug(EnsureRedProperty(z)))
    decreases |z.path|
  {
    BlackenRootIdle(z);
    if z.path == [] {
    } else if z.path[0].color == Black {
      BlackParentNoException(z.path, BlackHeight(z.focus), IsRed(z.focus));
      PlugSound(z.focus, z.path);
    } else if |z.path| == 1 {
      PlugRecolorRoot(z.focus, z.path, Black);
      assert false;
    } else {
      var next :=
        if !IsRed(z.path[1].sibling) then
          if z.path[1].side == Left then
            if z.path[0].side == Left then StraightLeft(z) else ZigZagLeft(z)
          else
            if z.path[0].side == Left then ZigZagRight(z) else StraightRight(z)
        else AuntRed(z);
      if !IsRed(z.path[1].sibling) {
        if z.path[0].side == z.path[1].side {
          StraightKeeps(z);
        } else {
          ZigZagKeeps(z);
        }
      } else {
        AuntRedKeeps(z);
      }
      assert EnsureRedProperty(z) == EnsureRedProperty(next);
      FixupRestores(next);
    }
  }

  /** Red-black insertion keeps all three colour invariants. */
  lemma InsertKeepsRedBlack(t: Tree, v: int)
    requires IsRedBlack(t)
    ensures IsRedBlack(RedBlackTree.Insert(t, Some(v)).value)
  {
    if t.Node? {
      var z := Zipper(NewNode(v), BinarySearchTree.InsertionSlot(t, v).path);
      InsertStartsFixup(t, v);
      BlackenRootIdle(z);
      assert RedBlackTree.Insert(t, Some(v)).value == Plug(EnsureRedProperty(z));
      FixupRestores(z);
    }
  }

  /** The new red node, hung at the slot the descent finds in a red-black
      tree, starts the fixup in its invariant. */
  lemma InsertStartsFixup(t: Tree, v: int)
    requires IsRedBlack(t) && t.Node?
    ensures FixupInv(Zipper(NewNode(v), BinarySearchTree.InsertionSlot(t, v).path))
  {
    var slot := BinarySearchTree.InsertionSlot(t, v);
    BinarySearchTree.InsertIsSlotFill(t, v);
    assert slot == Zipper(Leaf, slot.path);
    SoundBelow(Leaf, slot.path);
    PlugSound(Leaf, slot.path);
    RelaxExempt(slot.path, 0, false, true);
    var z := Zipper(NewNode(v), slot.path);
    RootKept(slot, z, 0);
  }

  /** Every insertion, one after the other, keeps a red-black tree one. */
  lemma {:induction false} InsertAllKeepsRedBlack(t: Tree, vs: seq<int>)
    requires IsRedBlack(t)
    ensures IsRedBlack(RedBlackTree.InsertAll(t, vs))
    decreases |vs|
  {
    if vs != [] {
      assert vs == [vs[0]] + vs[1..];
      InsertKeepsRedBlack(t, vs[0]);
      InsertAllKeepsRedBlack(RedBlackTree.Insert(t, Some(vs[0])).value, vs[1..]);
    }
  }

  /** Starting from an empty tree, after any sequence of insertions the tree
      is ordered and red-black, holds exactly the inserted values with
      duplicates counted separately, and the search finds each of them. */
  lemma InsertionsFromEmpty(vs: seq<int>)
    ensures IsRedBlack(RedBlackTree.InsertAll(Leaf, vs))
    ensures Ordered(RedBlackTree.InsertAll(Leaf, vs))
    ensures Elements(RedBlackTree.InsertAll(Leaf, vs)) == multiset(vs)
    ensures BinarySearchTree.Size(RedBlackTree.InsertAll(Leaf, vs)) == |vs|
    ensures forall v :: BinarySearchTree.Contains(RedBlackTree.InsertAll(Leaf, vs), v) <==> v in vs
  {
    var t := RedBlackTree.InsertAll(Leaf, vs);
    InsertAllKeepsRedBlack(Leaf, vs);
    RedBlackTree.InsertAllKeepsOrder(Leaf, vs);
    assert Elements(t) == multiset(vs);
    forall v ensures BinarySearchTree.Contains(t, v) <==> v in vs {
      assert v in vs <==> v in multiset(vs);
    }
  }

  /** Longest descent from `t` to an empty slot. */
  function Height(t: Tree): (n: nat)
    ensures t.Node? <==> n > 0
  {
    match t
    case Leaf => 0
    case Node(_, l, _, r) => 1 + if Height(l) < Height(r) then Height(r) else Height(l)
  }

  function Pow2(n: nat): (r: nat)
    ensures r >= 1
  {
    if n == 0 then 1 else 2 * Pow2(n - 1)
  }

  lemma {:induction false} Pow2Monotone(m: nat, n: nat)
    requires m <= n
    ensures Pow2(m) <= Pow2(n)
    decreases n
  {
    if m < n {
      Pow2Monotone(m, n - 1);
    }
  }

  /** A sound subtree of black height `h` holds at least `2^h - 1` nodes. */
  lemma {:induction false} SizeAboveBlackHeight(t: Tree)
    requires Sound(t)
    ensures Pow2(BlackHeight(t)) <= |InOrder(t)| + 1
  {
    if t.Node? {
      var Node(c, l, _, r) := t;
      SizeAboveBlackHeight(l);
      SizeAboveBlackHeight(r);
      Pow2Step(BlackHeight(l), BlackCount(c), |InOrder(l)|, |InOrder(r)|);
    }
  }

  lemma Pow2Step(h: nat, b: nat, m: nat, n: nat)
    requires b <= 1 && Pow2(h) <= m + 1 && Pow2(h) <= n + 1
    ensures Pow2(h + b) <= m + n + 2
  {
    if b == 1 {
      assert Pow2(h + 1) == 2 * Pow2(h);
    }
  }

  /** Red nodes never follow one another, so a descent meets at most one red
      node per black one, plus possibly a red node on top. */
  lemma {:induction false} HeightBelowBlackHeight(t: Tree)
    requires Sound(t)
    ensures Height(t) <= 2 * BlackHeight(t) + (if IsRed(t) then 1 else 0)
  {
    if t.Node? {
      HeightBelowBlackHeight(t.left);
      HeightBelowBlackHeight(t.right);
    }
  }

  /** The balance a red-black tree buys: its height is at most twice the
      base-2 logarithm of its size plus one. */
  lemma HeightLogarithmic(t: Tree)
    requires IsRedBlack(t)
    ensures Pow2(Height(t) / 2) <= BinarySearchTree.Size(t) + 1
  {
    HeightBelowBlackHeight(t);
    SizeAboveBlackHeight(t);
    Pow2Monotone(Height(t) / 2, BlackHeight(t));
  }
}
