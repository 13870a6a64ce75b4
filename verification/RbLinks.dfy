/** Nodes and the trees they form (include/uv/tree.h).  A ghost tree says which nodes hang where; a ghost
    context is the path from a position up to the root, so that a step of an algorithm rewrites the subtree at
    its position and leaves the context alone. */
module RbLinks {
  /** The fields of RB_ENTRY; the comparison function of RB_GENERATE orders nodes by `key`. */
  class Node {
    const key: int
    var left: Node?
    var right: Node?
    var parent: Node?
    var red: bool

    constructor (key: int)
      ensures this.key == key
    {
      this.key := key;
    }
  }

  datatype Tree = Leaf | Branch(left: Tree, node: Node, red: bool, right: Tree)

  /** What is above a position: the position is the left or the right child of `node`. */
  datatype Ctx =
    | Top
    | InLeft(up: Ctx, node: Node, red: bool, right: Tree)
    | InRight(up: Ctx, left: Tree, node: Node, red: bool)

  function Ptr(t: Tree): Node? {
    if t.Leaf? then null else t.node
  }

  function Above(c: Ctx): Node? {
    if c.Top? then null else c.node
  }

  function Zip(c: Ctx, t: Tree): Tree
    decreases c
  {
    match c
    case Top => t
    case InLeft(up, n, red, r) => Zip(up, Branch(t, n, red, r))
    case InRight(up, l, n, red) => Zip(up, Branch(l, n, red, t))
  }

  ghost function Nodes(t: Tree): set<Node> {
    match t
    case Leaf => {}
    case Branch(l, n, _, r) => Nodes(l) + {n} + Nodes(r)
  }

  ghost function CtxNodes(c: Ctx): set<Node> {
    match c
    case Top => {}
    case InLeft(up, n, _, r) => CtxNodes(up) + {n} + Nodes(r)
    case InRight(up, l, n, _) => CtxNodes(up) + {n} + Nodes(l)
  }

  ghost predicate Apart(t: Tree) {
    match t
    case Leaf => true
    case Branch(l, n, _, r) => n !in Nodes(l) && n !in Nodes(r) && Nodes(l) !! Nodes(r) && Apart(l) && Apart(r)
  }

  ghost predicate CtxApart(c: Ctx) {
    match c
    case Top => true
    case InLeft(up, n, _, r) =>
      n !in CtxNodes(up) && n !in Nodes(r) && CtxNodes(up) !! Nodes(r) && CtxApart(up) && Apart(r)
    case InRight(up, l, n, _) =>
      n !in CtxNodes(up) && n !in Nodes(l) && CtxNodes(up) !! Nodes(l) && CtxApart(up) && Apart(l)
  }

  /** What the fields of a node hold at some moment, and what those of a set of nodes hold. */
  datatype Cell = Cell(left: Node?, right: Node?, parent: Node?, red: bool)

  type Memory = map<Node, Cell>

  ghost function Snapshot(nodes: set<Node>): (m: Memory)
    reads nodes
    ensures m.Keys == nodes
  {
    map n | n in nodes :: Cell(n.left, n.right, n.parent, n.red)
  }

  /** The nodes are linked and coloured as the tree says, the root's parent being `above`. */
  ghost predicate Linked(m: Memory, t: Tree, above: Node?) {
    match t
    case Leaf => true
    case Branch(l, n, red, r) =>
      n in m && m[n] == Cell(Ptr(l), Ptr(r), above, red) && Linked(m, l, n) && Linked(m, r, n)
  }

  ghost predicate CtxLinked(m: Memory, c: Ctx, hole: Node?) {
    match c
    case Top => true
    case InLeft(up, n, red, r) =>
      n in m && m[n] == Cell(hole, Ptr(r), Above(up), red) && Linked(m, r, n) && CtxLinked(m, up, n)
    case InRight(up, l, n, red) =>
      n in m && m[n] == Cell(Ptr(l), hole, Above(up), red) && Linked(m, l, n) && CtxLinked(m, up, n)
  }

  ghost predicate Same(m: Memory, m': Memory, ns: set<Node>) {
    forall n :: n in ns && n in m ==> n in m' && m'[n] == m[n]
  }

  lemma SameApart(m: Memory, m': Memory, x: Node, y: Node, z: Node?, p: Node?, ns: set<Node>)
    requires Same(m, m', m.Keys - {x, y, z, p})
    requires x !in ns && y !in ns && (z != null ==> z !in ns) && (p != null ==> p !in ns)
    ensures Same(m, m', ns)
  {
  }

  lemma {:induction false} StaysLinked(m: Memory, m': Memory, t: Tree, above: Node?)
    requires Linked(m, t, above) && Same(m, m', Nodes(t))
    ensures Linked(m', t, above)
  {
    if t.Branch? {
      StaysLinked(m, m', t.left, t.node);
      StaysLinked(m, m', t.right, t.node);
    }
  }

  lemma {:induction false} CtxStaysLinked(m: Memory, m': Memory, c: Ctx, hole: Node?)
    requires CtxLinked(m, c, hole) && Same(m, m', CtxNodes(c))
    ensures CtxLinked(m', c, hole)
  {
    match c
    case Top =>
    case InLeft(up, n, _, r) =>
      StaysLinked(m, m', r, n);
      CtxStaysLinked(m, m', up, n);
    case InRight(up, l, n, _) =>
      StaysLinked(m, m', l, n);
      CtxStaysLinked(m, m', up, n);
  }

  /** A tree whose root now hangs from another node. */
  lemma Rehung(m: Memory, m': Memory, t: Tree, from: Node?, to: Node?)
    requires Apart(t) && Linked(m, t, from) && Same(m, m', Nodes(t) - {Ptr(t)})
    requires t.Branch? ==> t.node in m' && m'[t.node] == m[t.node].(parent := to)
    ensures Linked(m', t, to)
  {
    if t.Branch? {
      StaysLinked(m, m', t.left, t.node);
      StaysLinked(m, m', t.right, t.node);
    }
  }

  /** A context at whose position another node now hangs. */
  lemma Refilled(m: Memory, m': Memory, c: Ctx, from: Node?, to: Node?)
    requires CtxApart(c) && CtxLinked(m, c, from) && Same(m, m', CtxNodes(c) - {Above(c)})
    requires c.InLeft? ==> c.node in m' && m'[c.node] == m[c.node].(left := to)
    requires c.InRight? ==> c.node in m' && m'[c.node] == m[c.node].(right := to)
    ensures CtxLinked(m', c, to)
  {
    match c
    case Top =>
    case InLeft(up, n, _, r) =>
      StaysLinked(m, m', r, n);
      CtxStaysLinked(m, m', up, n);
    case InRight(up, l, n, _) =>
      StaysLinked(m, m', l, n);
      CtxStaysLinked(m, m', up, n);
  }

  function Root(c: Ctx, hole: Node?): Node? {
    if c.Top? then hole else Root(c.up, c.node)
  }

  /** The nodes of t and c are all different, and they are `nodes`. */
  ghost predicate Covers(nodes: set<Node>, c: Ctx, t: Tree) {
    Nodes(t) + CtxNodes(c) == nodes && Apart(t) && CtxApart(c) && Nodes(t) !! CtxNodes(c)
  }

  ghost predicate Wired(m: Memory, root: Node?, c: Ctx, t: Tree) {
    Linked(m, t, Above(c)) && CtxLinked(m, c, Ptr(t)) && root == Root(c, Ptr(t))
  }

  /** Memory m, entered at `root`, holds t in the context c and nothing else. */
  ghost predicate Holds(m: Memory, root: Node?, c: Ctx, t: Tree) {
    Covers(m.Keys, c, t) && Wired(m, root, c, t)
  }

  /** The pointer from above to a position, changed. */
  ghost predicate Redirected(m: Memory, root: Node?, m': Memory, root': Node?, c: Ctx, to: Node?) {
    match c
    case Top => root' == to
    case InLeft(_, n, _, _) => n in m && n in m' && m'[n] == m[n].(left := to) && root' == root
    case InRight(_, _, n, _) => n in m && n in m' && m'[n] == m[n].(right := to) && root' == root
  }

  lemma PtrIn(t: Tree)
    ensures t.Branch? ==> t.node in Nodes(t)
  {
  }

  lemma AboveIn(c: Ctx)
    ensures !c.Top? ==> c.node in CtxNodes(c)
  {
  }

  lemma Inside(nodes: set<Node>, c: Ctx, t: Tree)
    requires Covers(nodes, c, t)
    ensures Nodes(t) <= nodes && CtxNodes(c) <= nodes && Nodes(t) !! CtxNodes(c)
    ensures t.Branch? ==> t.node in Nodes(t) && Nodes(t.left) <= Nodes(t) && Nodes(t.right) <= Nodes(t)
    ensures t.Branch? ==> Apart(t.left) && Apart(t.right)
  {
  }

  /** The parent of a position knows on which side it is. */
  lemma WhichSide(m: Memory, root: Node?, c: Ctx, t: Tree)
    requires Holds(m, root, c, t) && t.Branch?
    ensures t.node in m && m[t.node] == Cell(Ptr(t.left), Ptr(t.right), Above(c), t.red)
    ensures !c.Top? ==> c.node in m && c.node !in Nodes(t) && (m[c.node].left == t.node <==> c.InLeft?)
    ensures !c.Top? ==> (m[c.node].right == t.node <==> c.InRight?)
    ensures c.Top? <==> Above(c) == null
    ensures c.Top? ==> root == t.node
  {
    PtrIn(t);
    AboveIn(c);
    assert c.InRight? && c.left.Branch? ==> c.left.node in Nodes(c.left) && c.left.node in CtxNodes(c);
    assert c.InLeft? && c.right.Branch? ==> c.right.node in Nodes(c.right) && c.right.node in CtxNodes(c);
  }

  lemma ParentCell(m: Memory, root: Node?, c: Ctx, t: Tree)
    requires Holds(m, root, c, t) && !c.Top?
    ensures c.node in m && m[c.node].red == c.red && m[c.node].parent == Above(c.up)
    ensures c.InLeft? ==> m[c.node].right == Ptr(c.right) && m[c.node].left == Ptr(t)
    ensures c.InRight? ==> m[c.node].left == Ptr(c.left) && m[c.node].right == Ptr(t)
  {
  }

  // ---------- Moving the position ----------

  lemma LeftOf(m: Memory, root: Node?, c: Ctx, l: Tree, n: Node, red: bool, r: Tree)
    ensures Holds(m, root, c, Branch(l, n, red, r)) <==> Holds(m, root, InLeft(c, n, red, r), l)
  {
    assert Nodes(Branch(l, n, red, r)) + CtxNodes(c) == Nodes(l) + CtxNodes(InLeft(c, n, red, r));
  }

  lemma RightOf(m: Memory, root: Node?, c: Ctx, l: Tree, n: Node, red: bool, r: Tree)
    ensures Holds(m, root, c, Branch(l, n, red, r)) <==> Holds(m, root, InRight(c, l, n, red), r)
  {
    assert Nodes(Branch(l, n, red, r)) + CtxNodes(c) == Nodes(r) + CtxNodes(InRight(c, l, n, red));
  }

  function Repainted(t: Tree, red: bool): Tree {
    if t.Branch? then t.(red := red) else t
  }

  /** The subtree one level up from a position, the other child there being painted. */
  function Joined(c: Ctx, t: Tree, red: bool, sibling: Tree): Tree
    requires !c.Top?
  {
    if c.InLeft? then Branch(t, c.node, red, sibling) else Branch(sibling, c.node, red, t)
  }

  function Sibling(c: Ctx): Tree
    requires !c.Top?
  {
    if c.InLeft? then c.right else c.left
  }

  /** The position of the sibling, seen from the other side. */
  function Across(c: Ctx, t: Tree): Ctx
    requires !c.Top?
  {
    if c.InLeft? then InRight(c.up, t, c.node, c.red) else InLeft(c.up, c.node, c.red, t)
  }

  lemma GoAcross(m: Memory, root: Node?, c: Ctx, t: Tree)
    requires !c.Top?
    ensures Holds(m, root, c, t) <==> Holds(m, root, Across(c, t), Sibling(c))
    ensures Holds(m, root, c, t) <==> Holds(m, root, c.up, Joined(c, t, c.red, Sibling(c)))
  {
    if c.InLeft? {
      LeftOf(m, root, c.up, t, c.node, c.red, c.right);
      RightOf(m, root, c.up, t, c.node, c.red, c.right);
    } else {
      RightOf(m, root, c.up, c.left, c.node, c.red, t);
      LeftOf(m, root, c.up, c.left, c.node, c.red, t);
    }
  }

  /** The position after its sibling has been replaced. */
  function Beside(c: Ctx, s: Tree): Ctx
    requires !c.Top?
  {
    if c.InLeft? then c.(right := s) else c.(left := s)
  }

  // ---------- Rotations ----------

  /** The assignment to the child pointer of `above` that points to `from`. */
  ghost function Repointed(m: Memory, above: Node?, from: Node, to: Node?): Memory
    requires above != null ==> above in m
  {
    if above == null then m
    else if m[above].left == from then m[above := m[above].(left := to)]
    else m[above := m[above].(right := to)]
  }

  /** The assignment to the parent pointer of n, unless n is NULL. */
  ghost function Adopted(m: Memory, n: Node?, p: Node?): Memory
    requires n != null ==> n in m
  {
    if n == null then m else m[n := m[n].(parent := p)]
  }

  /** The assignments of RB_ROTATE_LEFT on memory, y being the child of x and p its parent; the head's root pointer is assigned when x has no parent. */
  ghost function PivotLeft(m: Memory, x: Node, y: Node, p: Node?): Memory
    requires x in m && y in m && (m[y].left != null ==> m[y].left in m) && (p != null ==> p in m)
  {
    RaisedLeft(Adopted(m[x := m[x].(right := m[y].left)], m[y].left, x), x, y, p)
  }

  ghost function RaisedLeft(m: Memory, x: Node, y: Node, p: Node?): Memory
    requires x in m && y in m && (p != null ==> p in m)
  {
    var m1 := Repointed(m[y := m[y].(parent := p)], p, x, y);
    var m2 := m1[y := m1[y].(left := x)];
    m2[x := m2[x].(parent := y)]
  }

  /** The assignments of RB_ROTATE_RIGHT on memory, y being the child of x and p its parent. */
  ghost function PivotRight(m: Memory, x: Node, y: Node, p: Node?): Memory
    requires x in m && y in m && (m[y].right != null ==> m[y].right in m) && (p != null ==> p in m)
  {
    RaisedRight(Adopted(m[x := m[x].(left := m[y].right)], m[y].right, x), x, y, p)
  }

  ghost function RaisedRight(m: Memory, x: Node, y: Node, p: Node?): Memory
    requires x in m && y in m && (p != null ==> p in m)
  {
    var m1 := Repointed(m[y := m[y].(parent := p)], p, x, y);
    var m2 := m1[y := m1[y].(right := x)];
    m2[x := m2[x].(parent := y)]
  }

  /** Rotating either way keeps the nodes and keeps them apart. */
  lemma RotationApart(a: Tree, x: Node, xr: bool, b: Tree, y: Node, yr: bool, d: Tree)
    ensures var low, high := Branch(a, x, xr, Branch(b, y, yr, d)), Branch(Branch(a, x, xr, b), y, yr, d);
            (Apart(low) <==> Apart(high)) && Nodes(low) == Nodes(high)
  {
    assert Nodes(Branch(b, y, yr, d)) == Nodes(b) + {y} + Nodes(d);
    assert Nodes(Branch(a, x, xr, b)) == Nodes(a) + {x} + Nodes(b);
  }

  lemma RotationParts(a: Tree, x: Node, xr: bool, b: Tree, y: Node, yr: bool, d: Tree)
    requires Apart(Branch(a, x, xr, Branch(b, y, yr, d)))
    ensures Apart(b) && Nodes(a) !! {x, y} + Nodes(b) && Nodes(b) !! {x, y} && Nodes(d) !! {x, y} + Nodes(b) && x != y
    ensures Nodes(a) + Nodes(b) + Nodes(d) + {x, y} == Nodes(Branch(a, x, xr, Branch(b, y, yr, d)))
  {
    assert Nodes(Branch(b, y, yr, d)) == Nodes(b) + {y} + Nodes(d);
    assert Apart(Branch(b, y, yr, d));
  }

  /** The nodes around a rotation: x above y in the direction of the rotation, z between them, p above. */
  ghost predicate Pivot(m: Memory, x: Node, y: Node, z: Node?, p: Node?) {
    && x in m && y in m && x != y && z != x && z != y && (z != null ==> z in m)
    && p != x && p != y && (p != null ==> p in m && p != z) && m[x].parent == p
  }

  lemma PivotLeftCells(m: Memory, x: Node, y: Node, z: Node?, p: Node?, onLeft: bool)
    requires Pivot(m, x, y, z, p) && m[x].right == y && m[y].left == z && (p != null ==> (m[p].left == x <==> onLeft))
    ensures var m' := PivotLeft(m, x, y, p);
            && m'.Keys == m.Keys
            && m'[x] == m[x].(right := z, parent := y) && m'[y] == m[y].(left := x, parent := p)
            && (z != null ==> m'[z] == m[z].(parent := x))
            && (p != null ==> m'[p] == if onLeft then m[p].(left := y) else m[p].(right := y))
            && Same(m, m', m.Keys - {x, y, z, p})
  {
  }

  lemma PivotRightCells(m: Memory, x: Node, y: Node, z: Node?, p: Node?, onLeft: bool)
    requires Pivot(m, x, y, z, p) && m[x].left == y && m[y].right == z && (p != null ==> (m[p].left == x <==> onLeft))
    ensures var m' := PivotRight(m, x, y, p);
            && m'.Keys == m.Keys
            && m'[x] == m[x].(left := z, parent := y) && m'[y] == m[y].(right := x, parent := p)
            && (z != null ==> m'[z] == m[z].(parent := x))
            && (p != null ==> m'[p] == if onLeft then m[p].(left := y) else m[p].(right := y))
            && Same(m, m', m.Keys - {x, y, z, p})
  {
  }

  lemma PivotLeftAt(m: Memory, root: Node?, c: Ctx, a: Tree, x: Node, xr: bool, b: Tree, y: Node, yr: bool, d: Tree)
    requires Holds(m, root, c, Branch(a, x, xr, Branch(b, y, yr, d)))
    ensures Pivot(m, x, y, Ptr(b), Above(c)) && m[x] == Cell(Ptr(a), y, Above(c), xr) && m[y] == Cell(Ptr(b), Ptr(d), x, yr)
    ensures !c.Top? ==> (m[c.node].left == x <==> c.InLeft?)
  {
    var t := Branch(b, y, yr, d);
    WhichSide(m, root, c, Branch(a, x, xr, t));
    assert Linked(m, t, x);
    RotationParts(a, x, xr, b, y, yr, d);
    PtrIn(b);
  }

  lemma PivotRightAt(m: Memory, root: Node?, c: Ctx, a: Tree, x: Node, xr: bool, b: Tree, y: Node, yr: bool, d: Tree)
    requires Holds(m, root, c, Branch(Branch(a, x, xr, b), y, yr, d))
    ensures Pivot(m, y, x, Ptr(b), Above(c)) && m[y] == Cell(x, Ptr(d), Above(c), yr) && m[x] == Cell(Ptr(a), Ptr(b), y, xr)
    ensures !c.Top? ==> (m[c.node].left == y <==> c.InLeft?)
  {
    var t := Branch(a, x, xr, b);
    WhichSide(m, root, c, Branch(t, y, yr, d));
    assert Linked(m, t, y);
    RotationApart(a, x, xr, b, y, yr, d);
    RotationParts(a, x, xr, b, y, yr, d);
    PtrIn(b);
  }

  lemma RotationSame(m: Memory, m': Memory, c: Ctx, a: Tree, x: Node, b: Tree, y: Node, d: Tree)
    requires Nodes(a) + Nodes(b) + Nodes(d) !! {x, y} && Nodes(a) + Nodes(d) !! Nodes(b)
    requires CtxNodes(c) !! Nodes(a) + Nodes(b) + Nodes(d) + {x, y}
    requires Same(m, m', m.Keys - {x, y, Ptr(b), Above(c)})
    ensures Same(m, m', Nodes(a)) && Same(m, m', Nodes(d))
    ensures Same(m, m', Nodes(b) - {Ptr(b)}) && Same(m, m', CtxNodes(c) - {Above(c)})
  {
    AboveIn(c);
    PtrIn(b);
    var z, p := Ptr(b), Above(c);
    assert p != null ==> p in CtxNodes(c) && p !in Nodes(a) && p !in Nodes(b) && p !in Nodes(d);
    assert z != null ==> z in Nodes(b) && z !in Nodes(a) && z !in Nodes(d) && z !in CtxNodes(c);
    SameApart(m, m', x, y, z, p, Nodes(a));
    SameApart(m, m', x, y, z, p, Nodes(d));
    SameApart(m, m', x, y, z, p, Nodes(b) - {z});
    SameApart(m, m', x, y, z, p, CtxNodes(c) - {p});
  }

  /** The parts of a rotated tree that keep their links do so. */
  lemma RotationKeeps(m: Memory, root: Node?, m': Memory, root': Node?, c: Ctx, from: Node, to: Node,
                      a: Tree, x: Node, b: Tree, y: Node, d: Tree, bFrom: Node, bTo: Node)
    requires Linked(m, a, x) && Linked(m, b, bFrom) && Linked(m, d, y) && CtxLinked(m, c, from)
    requires Apart(b) && CtxApart(c)
    requires Nodes(a) + Nodes(b) + Nodes(d) + CtxNodes(c) <= m.Keys
    requires Nodes(a) + Nodes(b) + Nodes(d) !! {x, y} && Nodes(a) + Nodes(d) !! Nodes(b)
    requires CtxNodes(c) !! Nodes(a) + Nodes(b) + Nodes(d) + {x, y}
    requires b.Branch? ==> b.node in m && b.node in m' && m'[b.node] == m[b.node].(parent := bTo)
    requires Redirected(m, root, m', root', c, to)
    requires Same(m, m', m.Keys - {x, y, Ptr(b), Above(c)})
    ensures Linked(m', a, x) && Linked(m', b, bTo) && Linked(m', d, y) && CtxLinked(m', c, to)
  {
    RotationSame(m, m', c, a, x, b, y, d);
    StaysLinked(m, m', a, x);
    StaysLinked(m, m', d, y);
    Rehung(m, m', b, bFrom, bTo);
    Refilled(m, m', c, from, to);
  }

  /** The parts of a tree of the shape a rotation makes, or takes. */
  lemma HighHolds(m: Memory, root: Node?, c: Ctx, a: Tree, x: Node, xr: bool, b: Tree, y: Node, yr: bool, d: Tree)
    requires Covers(m.Keys, c, Branch(a, x, xr, Branch(b, y, yr, d)))
    requires x in m && y in m && m[x] == Cell(Ptr(a), Ptr(b), y, xr) && m[y] == Cell(x, Ptr(d), Above(c), yr)
    requires Linked(m, a, x) && Linked(m, b, x) && Linked(m, d, y) && CtxLinked(m, c, y) && root == Root(c, y)
    ensures Holds(m, root, c, Branch(Branch(a, x, xr, b), y, yr, d))
  {
    RotationApart(a, x, xr, b, y, yr, d);
  }

  lemma LowHolds(m: Memory, root: Node?, c: Ctx, a: Tree, x: Node, xr: bool, b: Tree, y: Node, yr: bool, d: Tree)
    requires Covers(m.Keys, c, Branch(Branch(a, x, xr, b), y, yr, d))
    requires x in m && y in m && m[x] == Cell(Ptr(a), y, Above(c), xr) && m[y] == Cell(Ptr(b), Ptr(d), x, yr)
    requires Linked(m, a, x) && Linked(m, b, y) && Linked(m, d, y) && CtxLinked(m, c, x) && root == Root(c, x)
    ensures Holds(m, root, c, Branch(a, x, xr, Branch(b, y, yr, d)))
  {
    RotationApart(a, x, xr, b, y, yr, d);
  }

  lemma LeftRotated(m: Memory, root: Node?, m': Memory, root': Node?,
                    c: Ctx, a: Tree, x: Node, xr: bool, b: Tree, y: Node, yr: bool, d: Tree)
    requires Holds(m, root, c, Branch(a, x, xr, Branch(b, y, yr, d)))
    requires Pivot(m, x, y, Ptr(b), Above(c)) && m[x].right == y && m[y].left == Ptr(b) && m' == PivotLeft(m, x, y, Above(c))
    requires root' == if c.Top? then y else root
    ensures Holds(m', root', c, Branch(Branch(a, x, xr, b), y, yr, d))
  {
    PivotLeftAt(m, root, c, a, x, xr, b, y, yr, d);
    PivotLeftCells(m, x, y, Ptr(b), Above(c), c.InLeft?);
    RotationParts(a, x, xr, b, y, yr, d);
    assert Linked(m, Branch(b, y, yr, d), x);
    RotationKeeps(m, root, m', root', c, x, y, a, x, b, y, d, y, x);
    HighHolds(m', root', c, a, x, xr, b, y, yr, d);
  }

  lemma RightRotated(m: Memory, root: Node?, m': Memory, root': Node?,
                     c: Ctx, a: Tree, x: Node, xr: bool, b: Tree, y: Node, yr: bool, d: Tree)
    requires Holds(m, root, c, Branch(Branch(a, x, xr, b), y, yr, d))
    requires Pivot(m, y, x, Ptr(b), Above(c)) && m[y].left == x && m[x].right == Ptr(b) && m' == PivotRight(m, y, x, Above(c))
    requires root' == if c.Top? then x else root
    ensures Holds(m', root', c, Branch(a, x, xr, Branch(b, y, yr, d)))
  {
    PivotRightAt(m, root, c, a, x, xr, b, y, yr, d);
    PivotRightCells(m, y, x, Ptr(b), Above(c), c.InLeft?);
    RotationApart(a, x, xr, b, y, yr, d);
    RotationParts(a, x, xr, b, y, yr, d);
    assert Linked(m, Branch(a, x, xr, b), y);
    RotationKeeps(m, root, m', root', c, y, x, a, x, b, y, d, x, y);
    LowHolds(m', root', c, a, x, xr, b, y, yr, d);
  }

  /** Painting the node at a position. */
  lemma Painted(m: Memory, root: Node?, c: Ctx, l: Tree, n: Node, red: bool, r: Tree, paint: bool)
    requires Holds(m, root, c, Branch(l, n, red, r))
    ensures n in m && Holds(m[n := m[n].(red := paint)], root, c, Branch(l, n, paint, r))
  {
    Inside(m.Keys, c, Branch(l, n, red, r));
    var m' := m[n := m[n].(red := paint)];
    StaysLinked(m, m', l, n);
    StaysLinked(m, m', r, n);
    CtxStaysLinked(m, m', c, n);
    assert m'.Keys == m.Keys;
  }

  // ---------- The head of a tree ----------

  class Head {
    var root: Node?
    ghost var nodes: set<Node>
    ghost var tree: Tree

    ghost function Mem(): Memory
      reads this`nodes, nodes
    {
      Snapshot(nodes)
    }

    /** The tree hanging from this head is t in the context c. */
    ghost predicate At(c: Ctx, t: Tree)
      reads this`root, this`nodes, nodes
    {
      Holds(Mem(), root, c, t)
    }

    constructor ()
      ensures At(Top, Leaf) && nodes == {} && tree == Leaf
    {
      root := null;
      nodes := {};
      tree := Leaf;
    }

    // Assignments through RB_LEFT, RB_RIGHT, RB_PARENT and RB_COLOR.

    method SetLeft(n: Node, v: Node?)
      requires n in nodes
      modifies n`left
      ensures Mem() == old(Mem())[n := old(Mem())[n].(left := v)]
    {
      n.left := v;
    }

    method SetRight(n: Node, v: Node?)
      requires n in nodes
      modifies n`right
      ensures Mem() == old(Mem())[n := old(Mem())[n].(right := v)]
    {
      n.right := v;
    }

    method SetParent(n: Node, v: Node?)
      requires n in nodes
      modifies n`parent
      ensures Mem() == old(Mem())[n := old(Mem())[n].(parent := v)]
    {
      n.parent := v;
    }

    method SetRed(n: Node, v: bool)
      requires n in nodes
      modifies n`red
      ensures Mem() == old(Mem())[n := old(Mem())[n].(red := v)]
    {
      n.red := v;
    }

    method Adopt(n: Node?, p: Node?)
      requires n != null ==> n in nodes
      modifies (if n == null then {} else {n})`parent
      ensures Mem() == Adopted(old(Mem()), n, p)
    {
      if n != null {
        n.parent := p;
      }
    }

    /** The pointer to `from`, in its parent or in the head, now points to `to`. */
    method Redirect(above: Node?, from: Node, to: Node?)
      requires above != null ==> above in nodes
      modifies this`root, (if above == null then {} else {above})`left, (if above == null then {} else {above})`right
      ensures Mem() == Repointed(old(Mem()), above, from, to)
      ensures root == if above == null then to else old(root)
    {
      if above != null {
        if above.left == from {
          SetLeft(above, to);
        } else {
          SetRight(above, to);
        }
      } else {
        root := to;
      }
    }

    /** RB_ROTATE_LEFT. */
    method TurnLeft(elm: Node)
      requires elm in nodes && elm.right in nodes && elm != elm.right
      requires elm.right.left != null ==> elm.right.left in nodes && elm.right.left != elm && elm.right.left != elm.right
      requires elm.parent != null ==> elm.parent in nodes
      modifies this`root, nodes
      ensures Mem() == PivotLeft(old(Mem()), elm, old(elm.right), old(elm.parent))
      ensures root == if old(elm.parent) == null then old(elm.right) else old(root)
    {
      var tmp := elm.right;
      SetRight(elm, tmp.left);
      Adopt(elm.right, elm);
      RaiseLeft(elm, tmp);
    }

    /** The rest of it, from the assignment to the parent pointer of tmp on. */
    method RaiseLeft(elm: Node, tmp: Node)
      requires elm in nodes && tmp in nodes && elm != tmp && (elm.parent != null ==> elm.parent in nodes)
      modifies this`root, nodes
      ensures Mem() == RaisedLeft(old(Mem()), elm, tmp, old(elm.parent))
      ensures root == if old(elm.parent) == null then tmp else old(root)
    {
      SetParent(tmp, elm.parent);
      Redirect(tmp.parent, elm, tmp);
      SetLeft(tmp, elm);
      SetParent(elm, tmp);
    }

    /** RB_ROTATE_RIGHT. */
    method TurnRight(elm: Node)
      requires elm in nodes && elm.left in nodes && elm != elm.left
      requires elm.left.right != null ==> elm.left.right in nodes && elm.left.right != elm && elm.left.right != elm.left
      requires elm.parent != null ==> elm.parent in nodes
      modifies this`root, nodes
      ensures Mem() == PivotRight(old(Mem()), elm, old(elm.left), old(elm.parent))
      ensures root == if old(elm.parent) == null then old(elm.left) else old(root)
    {
      var tmp := elm.left;
      SetLeft(elm, tmp.right);
      Adopt(elm.left, elm);
      RaiseRight(elm, tmp);
    }

    /** The rest of it, from the assignment to the parent pointer of tmp on. */
    method RaiseRight(elm: Node, tmp: Node)
      requires elm in nodes && tmp in nodes && elm != tmp && (elm.parent != null ==> elm.parent in nodes)
      modifies this`root, nodes
      ensures Mem() == RaisedRight(old(Mem()), elm, tmp, old(elm.parent))
      ensures root == if old(elm.parent) == null then tmp else old(root)
    {
      SetParent(tmp, elm.parent);
      Redirect(tmp.parent, elm, tmp);
      SetRight(tmp, elm);
      SetParent(elm, tmp);
    }

    method RotateLeft(elm: Node, ghost c: Ctx, ghost a: Tree, ghost xr: bool, ghost b: Tree, ghost y: Node, ghost yr: bool, ghost d: Tree)
      requires At(c, Branch(a, elm, xr, Branch(b, y, yr, d)))
      modifies this`root, nodes
      ensures At(c, Branch(Branch(a, elm, xr, b), y, yr, d))
    {
      ghost var m, r := Mem(), root;
      PivotLeftAt(m, r, c, a, elm, xr, b, y, yr, d);
      TurnLeft(elm);
      LeftRotated(m, r, Mem(), root, c, a, elm, xr, b, y, yr, d);
    }

    method RotateRight(elm: Node, ghost c: Ctx, ghost a: Tree, ghost x: Node, ghost xr: bool, ghost b: Tree, ghost yr: bool, ghost d: Tree)
      requires At(c, Branch(Branch(a, x, xr, b), elm, yr, d))
      modifies this`root, nodes
      ensures At(c, Branch(a, x, xr, Branch(b, elm, yr, d)))
    {
      ghost var m, r := Mem(), root;
      PivotRightAt(m, r, c, a, x, xr, b, elm, yr, d);
      TurnRight(elm);
      RightRotated(m, r, Mem(), root, c, a, x, xr, b, elm, yr, d);
    }

    method Paint(n: Node, paint: bool, ghost c: Ctx, ghost l: Tree, ghost red: bool, ghost r: Tree)
      requires At(c, Branch(l, n, red, r))
      modifies nodes
      ensures At(c, Branch(l, n, paint, r))
    {
      Painted(Mem(), root, c, l, n, red, r, paint);
      SetRed(n, paint);
    }
  }
}
