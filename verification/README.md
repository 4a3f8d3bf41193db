# Red-black tree insertion, modelled in Dafny

This project models the insertion side of a small Java ordered container with three layers:

- **The plain binary search tree** (`BinarySearchTree`).
  - `insertHelper` descends recursively and sends ties to the left.
  - `insert` refuses null data and makes the first node the root.
  - `contains` is a search that descends. `size`/`sizeHelper` count nodes recursively.
  - `isEmpty` and `clear` test or reset the root.
- **The rotation engine** (`BSTRotation.rotate(child, parent)`). One generic single rotation whose direction comes from which side of the parent the child hangs on.
  - It rewires the grandparent's link, or the root.
  - It refuses null references and pairs that are not parent and direct child.
- **The red-black tree** (`RedBlackTree`).
  - `ensureRedProperty` first blackens the root and stops when there is nothing to repair.
  - Otherwise it applies one of the four aunt-black rotate-and-recolour cases or the aunt-red recolouring, then continues at the grandparent.
  - The overriding `insert` places the red node as the plain tree does, blackens the root and runs the fixup.

The model is functional.

- **Nodes.** One datatype `Tree = Leaf | Node(color, left, value, right)` serves both trees. A fresh node is red. The plain layer never reads colours.
- **Parent pointers.** These become a zipper. The focus is a subtree, and a path of frames records the parent, the grandparent and so on, each frame with its other child. A Java node reference passed to `rotate` becomes the sequence of sides from the root. A reference that runs into an empty slot stands for `null`.
- **Methods that mutate the tree** take the current root and return the new one.
- **Errors.** A null data value is `Option.None`. The two exceptions are `Result.Failure(NullArgument)` and `Result.Failure(IllegalArgument)`.
- **Values.** The Java values are `Comparable`. They are modelled as `int`. The tests' one-letter strings become their character codes, which order them exactly as `String.compareTo` does.

Module by file:

- `outcomes.dfy`: `Option`, `Result` and the two error kinds.
- `trees.dfy`: the node datatype and the views every contract uses: `InOrder`, `ColoredInOrder` and `Elements` (a multiset). It also has two orders:
  - `StrictOrdered`: left ≤ node < right, the order the plain insert produces;
  - `Ordered`: left ≤ node ≤ right, proved equivalent to a sorted in-order sequence.
- `zippers.dfy`: parent/child navigation (`Up`, `Down`, `Plug`) and node references (`At`, `ReplaceAt`, `PathOf`).
- `bst.dfy`: the plain tree.
- `rotation.dfy`: `rotate`.
- `redblack.dfy`: the colour invariants, the fixup cases, `ensureRedProperty` and `insert`, with the order proofs.
- `redblack_proofs.dfy`: the proof that insertion keeps the three colour invariants. It also proves that the height is logarithmic in the size.
- `scenarios.dfy` and `redblack_scenarios.dfy`: the repository's test runs as concrete lemmas, plus two examples with equal values.

About the order: the plain insert keeps the strict order (ties left, greater values right). A rotation does not keep it when equal values meet. A right rotation of a parent with an equal left child puts the parent, equal to the child, on the child's right. Red-black insertion of equal values does the same (`Scenarios.RotationLeavesStrictOrder`, `RedBlackScenarios.RedBlackLeavesStrictOrder`). What rotations and red-black insertion keep is the weak order, together with the exact in-order sequence. The search never notices the difference: it tests equality before choosing a side. The red-black statements are therefore made about the weak order, and the plain-tree statements about the strict one.

## Model

| member | source | states |
|---|---|---|
| BinarySearchTree.InsertHelper | src/BinarySearchTree.java:12-28 | the subtree keeps its root node, and its multiset of values grows by exactly the inserted value (one new node, duplicates counted separately) |
| BinarySearchTree.InsertHelperKeepsOrdered | src/BinarySearchTree.java:13-27 | sending a value at most the node's to the left and a greater one to the right keeps the weak search-tree order |
| BinarySearchTree.InsertHelperKeepsStrictOrdered | src/BinarySearchTree.java:13-27 | the same descent keeps the order left ≤ node < right, ties staying on the left |
| BinarySearchTree.Insert | src/BinarySearchTree.java:37-53 | null data fails with the null-argument error and yields no tree; into an empty tree the new node becomes the root and only node; otherwise the values grow by exactly the new one and the strict order is kept |
| BinarySearchTree.InsertIsSlotFill | src/BinarySearchTree.java:12-28 | insertion hangs the fresh node in the empty slot the descent reaches and leaves everything else where it was |
| BinarySearchTree.InsertAll | src/BinarySearchTree.java:37-53 | a run of insertions adds exactly the inserted values and keeps the strict order |
| BinarySearchTree.InsertionsFromEmpty | src/BinarySearchTree.java:37-117 | after any run of insertions into an empty tree, the tree is ordered, its size is the number of insertions, and it contains every inserted value |
| BinarySearchTree.Contains | src/BinarySearchTree.java:68-86 | the search (with a present query) answers true only for stored values; on an ordered tree it answers true exactly for the stored values; on an empty tree it answers false |
| BinarySearchTree.ContainsData | src/BinarySearchTree.java:62-87 | the public search: an empty tree answers false for any query, null included; on a non-empty tree a null query fails with the null-argument error; a present query succeeds and is answered true only for stored values, and on an ordered tree exactly for them |
| BinarySearchTree.SizeHelper | src/BinarySearchTree.java:109-117 | the recursive count equals the number of stored values, duplicates included, and the length of the in-order sequence |
| BinarySearchTree.Size | src/BinarySearchTree.java:95-102 | the size is the number of stored values, and it is 0 exactly when the tree is empty |
| BinarySearchTree.IsEmpty | src/BinarySearchTree.java:124-126 | the tree is empty exactly when it stores no value |
| BinarySearchTree.Clear | src/BinarySearchTree.java:132-134 | after clearing, the tree is empty, its size is 0, and the search finds no value |
| Scenarios.IntegerTree | src/BinarySearchTree.java:140-240 | the first test: after inserting 6,3,8,1,4,5,9 the size is 7 and each value is found; after clearing the tree is empty and 6 is not found; after inserting 2,1,3 the size is 3 and each is found |
| Scenarios.StringTree | src/BinarySearchTree.java:247-350 | the second test, on the strings H,F,K,C,G,I,N, then clearing, then B,A,C |
| Scenarios.SkewedTrees | src/BinarySearchTree.java:354-480 | the third test: an ascending run and, after clearing, a descending run, each of size 7 with every value found |
| BSTRotation.RotateRight | src/BSTRotation.java:39-50 | the former left child takes the parent's place with its colour and its left subtree; the former parent becomes its right child, keeping its own colour and right subtree and adopting the child's former right subtree as its left; values and colours keep their in-order sequence |
| BSTRotation.RotateLeft | src/BSTRotation.java:70-80 | the mirror image: the former right child takes the parent's place with its right subtree; the former parent becomes its left child, keeping its left subtree and adopting the child's former left subtree as its right; the coloured in-order sequence is unchanged |
| BSTRotation.RotationsInverse | src/BSTRotation.java:39-94 | a left rotation undoes a right rotation and vice versa |
| BSTRotation.Rotate | src/BSTRotation.java:31-99 | a null child or parent gives the null-argument error; nodes that are not parent and direct child give the invalid-argument error; two present nodes that are parent and left or right child always succeed; on success the node at the parent's reference is the former child, its subtrees are as each direction prescribes, every node outside the parent's subtree is where it was, and values and colours keep their in-order sequence |
| BSTRotation.RotateAt | src/BSTRotation.java:39-94 | a rotation with a child present succeeds, replaces exactly the parent's subtree (the grandparent's link, or the root) with its rotation, and keeps the coloured in-order sequence |
| BSTRotation.RotateAtFocus | src/BSTRotation.java:55-66 | rotating a subtree in place inside the whole tree is the reference-level rotate: the grandparent (or root) link now reaches the child |
| BSTRotation.RotateKeepsOrder | src/BSTRotation.java:39-95 | a successful rotation keeps the multiset of values, hence the size, and keeps the order |
| BSTRotation.RotateUndo | src/BSTRotation.java:31-99 | rotating back with the roles exchanged restores the original tree |
| Scenarios.RotationTest1Tree1 | src/BSTRotation.java:111-115 | inserting 30,20,10 builds the left chain the first test rotates |
| Scenarios.RotationTest1Tree2 | src/BSTRotation.java:128-133 | inserting 30,20,25,10 builds the first test's second tree |
| Scenarios.RotationTest2Tree1 | src/BSTRotation.java:161-164 | inserting 10,20,30 builds the right chain |
| Scenarios.RotationTest2Tree2 | src/BSTRotation.java:177-184 | inserting 5,7,3,8,4,6 builds the second test's six-node tree |
| Scenarios.RotationTest3Tree1 | src/BSTRotation.java:214-219 | inserting 40,30,50,20,35 builds the third test's five-node tree |
| Scenarios.RotationTest3Tree2 | src/BSTRotation.java:236-239 | inserting 10,20 builds the two-node tree |
| Scenarios.RotationTest1 | src/BSTRotation.java:105-149 | the right rotation at the root makes 20 the root with 30 on its right; the one below the root puts 10 under 30 with 20 on its right and 25 kept under 20 |
| Scenarios.RotationTest2 | src/BSTRotation.java:155-202 | the left rotation at the root makes 20 the root with 10 on its left; the one below the root puts 8 under 5 with 7 on its left, and 6 stays under 7 |
| Scenarios.RotationTest3 | src/BSTRotation.java:208-251 | rotating 30 up keeps 35 under 40 and 20 under 30; rotating 20 above 10 leaves 10 a leaf |
| Scenarios.RotationErrors | src/BSTRotation.java:31-99 | a reference to an empty slot is refused as null; a grandchild given as the child, or the roles exchanged, is refused as an invalid argument |
| Scenarios.RotationLeavesStrictOrder | src/BSTRotation.java:39-50 | a strictly ordered tree whose root has an equal left child is no longer strictly ordered after the right rotation, though it is still weakly ordered |
| RedBlackTree.Blacken | src/RedBlackTree.java:21-23 | the root ends black, the rest of the node is kept, and an empty tree stays empty |
| RedBlackTree.BlackenRoot | src/RedBlackTree.java:21-23 | blackening the root of the whole tree from any node leaves that node and its path in place and changes only the top frame |
| RedBlackTree.StraightLeft | src/RedBlackTree.java:47-52 | case 1: the parent moves up into the grandparent's place with the new node still on its left; the grandparent becomes its right child, holding the parent's old right subtree and the aunt; parent and grandparent both flip colour; the walk resumes at the grandparent, one frame shorter |
| RedBlackTree.ZigZagLeft | src/RedBlackTree.java:55-61 | case 2: the new node moves up into the grandparent's place; the parent, on its left, keeps its own left subtree and takes the node's left subtree; the grandparent, on its right, takes the node's right subtree and keeps the aunt; the new node and the grandparent both flip colour |
| RedBlackTree.ZigZagRight | src/RedBlackTree.java:68-73 | case 3, the mirror of case 2 |
| RedBlackTree.StraightRight | src/RedBlackTree.java:77-81 | case 4, the mirror of case 1 |
| RedBlackTree.AuntRed | src/RedBlackTree.java:85-99 | the aunt turns black, the parent turns black, the grandparent turns red unless it is the root, the shape is unchanged, and the walk continues at the grandparent |
| RedBlackTree.StraightLeftKeepsInOrder | src/RedBlackTree.java:47-52 | case 1 keeps the in-order sequence of the whole tree |
| RedBlackTree.ZigZagLeftKeepsInOrder | src/RedBlackTree.java:55-61 | case 2 keeps the in-order sequence |
| RedBlackTree.ZigZagRightKeepsInOrder | src/RedBlackTree.java:68-73 | case 3 keeps the in-order sequence |
| RedBlackTree.StraightRightKeepsInOrder | src/RedBlackTree.java:77-81 | case 4 keeps the in-order sequence |
| RedBlackTree.AuntRedKeepsInOrder | src/RedBlackTree.java:85-99 | the recolouring keeps the in-order sequence |
| RedBlackTree.EnsureRedProperty | src/RedBlackTree.java:18-102 | the fixup always leaves the root black; when the node is the root, is absent, or has a black parent, it only blackens the root |
| RedBlackTree.FixupKeepsInOrder | src/RedBlackTree.java:18-102 | the whole fixup, recursion included, keeps the tree's in-order sequence |
| RedBlackTree.Insert | src/RedBlackTree.java:110-138 | null data fails with the null-argument error; otherwise the result has a black root, and into an empty tree it is the single black node |
| RedBlackTree.InsertLikePlainInsert | src/RedBlackTree.java:110-138 | red-black insertion gives the same in-order sequence as the plain insertion, so it adds exactly the new value and keeps the order |
| RedBlackTree.InsertAll | src/RedBlackTree.java:110-138 | after at least one insertion the root is black |
| RedBlackTree.InsertAllKeepsOrder | src/RedBlackTree.java:110-138 | a run of insertions adds exactly the inserted values and keeps the order |
| RedBlackProofs.StraightKeeps | src/RedBlackTree.java:47-81 | cases 1 and 4, applied where the fixup applies them, keep the fixup's invariant: one red-red edge at most, at the focus, and uniform black height everywhere |
| RedBlackProofs.ZigZagKeeps | src/RedBlackTree.java:55-73 | cases 2 and 3 keep the fixup's invariant |
| RedBlackProofs.AuntRedKeeps | src/RedBlackTree.java:85-101 | the aunt-red recolouring keeps the invariant at the grandparent, where the walk continues |
| RedBlackProofs.FixupRestores | src/RedBlackTree.java:18-102 | started in that invariant, the fixup ends with a black root, no red node with a red child, and uniform black height |
| RedBlackProofs.InsertStartsFixup | src/RedBlackTree.java:128-137 | a red node hung in the slot of a red-black tree starts the fixup in its invariant |
| RedBlackProofs.InsertKeepsRedBlack | src/RedBlackTree.java:110-138 | insertion into a red-black tree yields a red-black tree |
| RedBlackProofs.InsertAllKeepsRedBlack | src/RedBlackTree.java:110-138 | so does any run of insertions |
| RedBlackProofs.InsertionsFromEmpty | src/RedBlackTree.java:110-138 | after any run of insertions into an empty tree: red-black, ordered, holding exactly the inserted values with multiplicity, of size the number of insertions, and the search finds exactly the inserted values |
| RedBlackProofs.HeightLogarithmic | src/RedBlackTree.java:10-18 | a consequence of the invariants the repair restores rather than anything these lines state: a tree that keeps them has height h with 2^(h div 2) at most its size plus one, so the height is at most about twice the base-2 logarithm of the size |
| RedBlackScenarios.RedBlackTest1 | src/RedBlackTree.java:146-167 | inserting N,H,S,E,K,Q,Y,W,Z,M gives level order N(b) H(r) S(r) E(b) K(b) Q(b) Y(b) M(r) W(r) Z(r) |
| RedBlackScenarios.RedBlackTest2 | src/RedBlackTree.java:173-228 | inserting M,H,T,E,J,Q,V,I,K,L gives J(b) H(r) M(r) E(b) I(b) K(b) T(b) L(r) Q(r) V(r), with L under K |
| RedBlackScenarios.RedBlackTest3 | src/RedBlackTree.java:233-287 | inserting O,G,U,C,K,R,W,B,E,A gives G(b) C(r) O(r) B(b) E(b) K(b) U(b) A(r) R(r) W(r), with A under B |
| RedBlackScenarios.RedBlackDuplicates | src/RedBlackTree.java:110-138 | three insertions of one value give a black root with a red copy on each side |
| RedBlackScenarios.RedBlackLeavesStrictOrder | src/RedBlackTree.java:47-52 | that tree is weakly but not strictly ordered |

## Left out

- Printing, `toLevelOrderString`, the `test1`–`test3`/`main` harnesses and the JUnit plumbing. The tests' expected shapes and colours are kept as the scenario lemmas.
- Generics over `Comparable<T>`. Values are integers. A `compareTo` that is not a total order is not modelled.
- Object identity. `rotate` compares nodes by identity (`parent.getLeft() == child`). The model names nodes by their position in the one tree being rotated, so nodes of another tree cannot be passed. The `else if (root == parent)` branch for a parentless parent that is not the root cannot arise.
- The `RBTNode` downcasts and the class hierarchy. One node datatype carries the colour.
- Java's 32-bit `int` for `size`. Counts are unbounded naturals, since a wrap-around needs more than 2^31 nodes.
- Two tests that the source repeats as separate `if`s rather than `else if`s, at src/RedBlackTree.java:65 and :77. The `parent == grandparent.getRight()` test follows the left-hand cases; once their rotations have run, the grandparent's right child is still the aunt, so the test fails. The case-4 test `newRedNode == parent.getRight()` follows case 3; after case 3's two rotations the new node sits above the parent, and the parent's right subtree is its original one, which never holds the new node, so that test fails too. The model therefore uses plain if/else chains for both.
- InsertHelper: requires a non-empty subtree. The source's comment says a null subtree is ignored, but its code dereferences the subtree first, and no caller passes null.
- Contains: states completeness (found exactly when stored) only for ordered trees. On an unordered tree the descent can miss a value, and there the contract states soundness only.
