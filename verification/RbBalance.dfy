/** The conditions that make a binary tree a red-black tree (include/uv/tree.h, the comment at the top), its order,
    and the height bound claimed there. */
module RbBalance {
  import opened Arithmetic
  import opened RbLinks

  // ---------- Order ----------

  ghost function InOrder(t: Tree): seq<Node> {
    match t
    case Leaf => []
    case Branch(l, n, _, r) => InOrder(l) + [n] + InOrder(r)
  }

  /** The nodes in front of a position, and those behind it. */
  ghost function Before(c: Ctx): seq<Node> {
    match c
    case Top => []
    case InLeft(up, _, _, _) => Before(up)
    case InRight(up, l, n, _) => Before(up) + InOrder(l) + [n]
  }

  ghost function Behind(c: Ctx): seq<Node> {
    match c
    case Top => []
    case InLeft(up, n, _, r) => [n] + InOrder(r) + Behind(up)
    case InRight(up, _, _, _) => Behind(up)
  }

  ghost function Whole(c: Ctx, t: Tree): seq<Node> {
    Before(c) + InOrder(t) + Behind(c)
  }

  ghost predicate Sorted(s: seq<Node>) {
    forall i, j :: 0 <= i < j < |s| ==> s[i].key < s[j].key
  }

  lemma WholeLeft(c: Ctx, l: Tree, n: Node, red: bool, r: Tree)
    ensures Whole(InLeft(c, n, red, r), l) == Whole(c, Branch(l, n, red, r))
  {
    assert Whole(InLeft(c, n, red, r), l) == Before(c) + InOrder(l) + ([n] + InOrder(r) + Behind(c));
  }

  lemma WholeRight(c: Ctx, l: Tree, n: Node, red: bool, r: Tree)
    ensures Whole(InRight(c, l, n, red), r) == Whole(c, Branch(l, n, red, r))
  {
    assert Whole(InRight(c, l, n, red), r) == (Before(c) + InOrder(l) + [n]) + InOrder(r) + Behind(c);
  }

  lemma RotationOrder(a: Tree, x: Node, xr: bool, xr': bool, b: Tree, y: Node, yr: bool, yr': bool, d: Tree)
    ensures InOrder(Branch(a, x, xr, Branch(b, y, yr, d))) == InOrder(Branch(Branch(a, x, xr', b), y, yr', d))
  {
    var low, high := Branch(b, y, yr, d), Branch(a, x, xr', b);
    assert InOrder(low) == InOrder(b) + [y] + InOrder(d) && InOrder(high) == InOrder(a) + [x] + InOrder(b);
    assert InOrder(a) + [x] + (InOrder(b) + [y] + InOrder(d)) == (InOrder(a) + [x] + InOrder(b)) + [y] + InOrder(d);
  }

  // ---------- Balance ----------

  predicate Red(t: Tree) {
    t.Branch? && t.red
  }

  /** The black nodes on every path down from the root of t, when t is balanced. */
  function BlackHeight(t: Tree): nat {
    if t.Leaf? then 0 else BlackHeight(t.left) + if t.red then 0 else 1
  }

  /** No red node has a red child, and all paths down have as many black nodes. */
  predicate Balanced(t: Tree) {
    t.Branch? ==>
      && Balanced(t.left) && Balanced(t.right) && BlackHeight(t.left) == BlackHeight(t.right)
      && (t.red ==> !Red(t.left) && !Red(t.right))
  }

  /** Any balanced tree of black height bh whose root is red, or black, may be put at the position; at the top
      it must be black. */
  predicate Fits(c: Ctx, bh: nat, red: bool) {
    match c
    case Top => !red
    case InLeft(up, _, nr, r) =>
      Balanced(r) && BlackHeight(r) == bh && (nr ==> !red && !Red(r)) && Fits(up, bh + (if nr then 0 else 1), nr)
    case InRight(up, l, _, nr) =>
      Balanced(l) && BlackHeight(l) == bh && (nr ==> !red && !Red(l)) && Fits(up, bh + (if nr then 0 else 1), nr)
  }

  ghost predicate RedBlack(t: Tree) {
    Balanced(t) && !Red(t)
  }

  /** A head with a red-black tree on it, its nodes in key order. */
  ghost predicate Valid(head: Head)
    reads head, head.nodes
  {
    head.At(Top, head.tree) && RedBlack(head.tree) && Sorted(InOrder(head.tree))
  }

  ghost function Elements(head: Head): seq<Node>
    reads head`tree
  {
    InOrder(head.tree)
  }

  /** The tree on the head is `whole` from here on. */
  ghost method Keep(head: Head, whole: Tree, order: seq<Node>)
    requires head.At(Top, whole) && RedBlack(whole) && InOrder(whole) == order && Sorted(order)
    modifies head`tree
    ensures Valid(head) && Elements(head) == order
  {
    head.tree := whole;
  }

  /** Leaving the position for the whole tree. */
  lemma {:induction false} ZipOut(c: Ctx, t: Tree)
    requires Balanced(t) && Fits(c, BlackHeight(t), Red(t))
    ensures RedBlack(Zip(c, t))
    decreases c
  {
    match c
    case Top =>
    case InLeft(up, n, red, r) => ZipOut(up, Branch(t, n, red, r));
    case InRight(up, l, n, red) => ZipOut(up, Branch(l, n, red, t));
  }

  lemma {:induction false} ZipWhole(c: Ctx, t: Tree)
    ensures InOrder(Zip(c, t)) == Whole(c, t)
    decreases c
  {
    match c
    case Top => assert Whole(c, t) == InOrder(t);
    case InLeft(up, n, red, r) =>
      ZipWhole(up, Branch(t, n, red, r));
      WholeLeft(up, t, n, red, r);
    case InRight(up, l, n, red) =>
      ZipWhole(up, Branch(l, n, red, t));
      WholeRight(up, l, n, red, t);
  }

  lemma {:induction false} ZipHolds(m: Memory, root: Node?, c: Ctx, t: Tree)
    requires Holds(m, root, c, t)
    ensures Holds(m, root, Top, Zip(c, t))
    decreases c
  {
    match c
    case Top =>
    case InLeft(up, n, red, r) =>
      LeftOf(m, root, up, t, n, red, r);
      ZipHolds(m, root, up, Branch(t, n, red, r));
    case InRight(up, l, n, red) =>
      RightOf(m, root, up, l, n, red, t);
      ZipHolds(m, root, up, Branch(l, n, red, t));
  }

  // ---------- Searching ----------

  /** The key belongs at this position: nodes in front are smaller, nodes behind are greater. */
  ghost predicate Between(c: Ctx, key: int) {
    (forall n :: n in Before(c) ==> n.key < key) && (forall n :: n in Behind(c) ==> key < n.key)
  }

  /** A position inside a valid tree. */
  ghost predicate Within(c: Ctx, t: Tree, order: seq<Node>) {
    Balanced(t) && Fits(c, BlackHeight(t), Red(t)) && Whole(c, t) == order && Sorted(order)
  }

  lemma Absent(c: Ctx, key: int, order: seq<Node>)
    requires Within(c, Leaf, order) && Between(c, key)
    ensures order == Before(c) + Behind(c) && forall n :: n in order ==> n.key != key
  {
    assert order == Before(c) + Behind(c);
  }

  /** A step down to the left, and one to the right. */
  lemma StepLeft(c: Ctx, t: Tree, order: seq<Node>)
    requires t.Branch? && Within(c, t, order)
    ensures Within(InLeft(c, t.node, t.red, t.right), t.left, order)
    ensures forall key :: Between(c, key) && key < t.node.key ==> Between(InLeft(c, t.node, t.red, t.right), key)
  {
    WholeLeft(c, t.left, t.node, t.red, t.right);
    SortedAround(Before(c) + InOrder(t.left), t.node, InOrder(t.right) + Behind(c), order);
  }

  lemma StepRight(c: Ctx, t: Tree, order: seq<Node>)
    requires t.Branch? && Within(c, t, order)
    ensures Within(InRight(c, t.left, t.node, t.red), t.right, order)
    ensures forall key :: Between(c, key) && t.node.key < key ==> Between(InRight(c, t.left, t.node, t.red), key)
  {
    WholeRight(c, t.left, t.node, t.red, t.right);
    SortedAround(Before(c) + InOrder(t.left), t.node, InOrder(t.right) + Behind(c), order);
  }

  lemma SortedAround(a: seq<Node>, n: Node, b: seq<Node>, order: seq<Node>)
    requires Sorted(order) && order == a + [n] + b
    ensures (forall x :: x in a ==> x.key < n.key) && (forall x :: x in b ==> n.key < x.key)
  {
    forall x | x in a ensures x.key < n.key {
      var i :| 0 <= i < |a| && a[i] == x;
      assert order[i] == x && order[|a|] == n;
    }
    forall x | x in b ensures n.key < x.key {
      var i :| 0 <= i < |b| && b[i] == x;
      assert order[|a| + 1 + i] == x && order[|a|] == n;
    }
  }

  lemma SortedWith(a: seq<Node>, n: Node, b: seq<Node>)
    requires Sorted(a + b) && (forall x :: x in a ==> x.key < n.key) && (forall x :: x in b ==> n.key < x.key)
    ensures Sorted(a + [n] + b)
  {
    var s, s' := a + b, a + [n] + b;
    assert forall i :: 0 <= i < |a| ==> s'[i] == s[i] && s'[i] in a;
    assert forall i :: |a| < i < |s'| ==> s'[i] == s[i - 1] && s'[i] in b;
  }

  // ---------- Height ----------

  function Height(t: Tree): nat {
    if t.Leaf? then 0
    else 1 + if Height(t.left) > Height(t.right) then Height(t.left) else Height(t.right)
  }

  function Size(t: Tree): nat {
    if t.Leaf? then 0 else Size(t.left) + 1 + Size(t.right)
  }

  lemma {:induction false} FullBelow(t: Tree)
    requires Balanced(t)
    ensures Size(t) + 1 >= Pow2(BlackHeight(t))
    ensures Height(t) <= 2 * BlackHeight(t) + if Red(t) then 1 else 0
  {
    if t.Branch? {
      FullBelow(t.left);
      FullBelow(t.right);
    }
  }

  /** The height of a red-black tree of n nodes is at most 2 lg (n + 1). */
  lemma HeightBound(t: Tree)
    requires RedBlack(t)
    ensures Pow2(Height(t)) <= (Size(t) + 1) * (Size(t) + 1)
  {
    FullBelow(t);
    var b, n := Pow2(BlackHeight(t)), Size(t) + 1;
    PowMono(Height(t), 2 * BlackHeight(t));
    PowSum(BlackHeight(t), BlackHeight(t));
    MulMono(b, n, b);
    MulMono(b, n, n);
  }

  lemma {:induction false} SizeCounts(t: Tree)
    ensures Size(t) == |InOrder(t)|
  {
    if t.Branch? {
      SizeCounts(t.left);
      SizeCounts(t.right);
    }
  }
}
