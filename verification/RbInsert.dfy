/** RB_INSERT and RB_INSERT_COLOR (include/uv/tree.h:407-449 and 597-626). */
module RbInsert {
  import opened RbLinks
  import opened RbBalance

  /** Lines 417 to 419, and 433 to 435: a red uncle takes over, and the fix-up goes on two levels up. */
  method Recolor(head: Head, parent: Node, gparent: Node, uncle: Node, ghost c: Ctx, ghost t: Tree)
    requires !c.Top? && !c.up.Top? && c.node == parent && c.up.node == gparent
    requires Sibling(c.up).Branch? && Sibling(c.up).node == uncle
    requires head.At(c, t)
    modifies head`root, head.nodes
    ensures head.At(c.up.up, Recolored(c, t))
  {
    ghost var p, p' := Joined(c, t, c.red, Sibling(c)), Joined(c, t, false, Sibling(c));
    ghost var c' := Beside(c.up, Repainted(Sibling(c.up), false));
    GoAcross(head.Mem(), head.root, c, t);
    PaintSibling(head, uncle, false, c.up, p);
    head.Paint(parent, false, c', p.left, p.red, p.right);
    GoAcross(head.Mem(), head.root, c', p');
    ghost var g := Joined(c', p', c'.red, Sibling(c'));
    head.Paint(gparent, true, c.up.up, g.left, g.red, g.right);
  }

  method PaintSibling(head: Head, s: Node, paint: bool, ghost c: Ctx, ghost t: Tree)
    requires !c.Top? && Sibling(c).Branch? && Sibling(c).node == s && head.At(c, t)
    modifies head`root, head.nodes
    ensures head.At(Beside(c, Repainted(Sibling(c), paint)), t)
  {
    ghost var u := Sibling(c);
    GoAcross(head.Mem(), head.root, c, t);
    head.Paint(s, paint, Across(c, t), u.left, u.red, u.right);
    GoAcross(head.Mem(), head.root, Beside(c, Repainted(u, paint)), t);
  }

  /** Lines 428 and 429: parent, the red left child of gparent, takes its place. */
  method LiftLeft(head: Head, parent: Node, gparent: Node, ghost up: Ctx, ghost a: Tree, ghost b: Tree, ghost u: Tree)
    requires head.At(InLeft(up, gparent, false, u), Branch(a, parent, true, b))
    modifies head`root, head.nodes
    ensures head.At(InLeft(up, parent, false, Branch(b, gparent, true, u)), a)
  {
    head.Paint(parent, false, InLeft(up, gparent, false, u), a, true, b);
    LeftOf(head.Mem(), head.root, up, Branch(a, parent, false, b), gparent, false, u);
    head.Paint(gparent, true, up, Branch(a, parent, false, b), false, u);
    head.RotateRight(gparent, up, a, parent, false, b, true, u);
    LeftOf(head.Mem(), head.root, up, a, parent, false, Branch(b, gparent, true, u));
  }

  /** Lines 444 and 445, the mirror image. */
  method LiftRight(head: Head, parent: Node, gparent: Node, ghost up: Ctx, ghost a: Tree, ghost b: Tree, ghost u: Tree)
    requires head.At(InRight(up, u, gparent, false), Branch(b, parent, true, a))
    modifies head`root, head.nodes
    ensures head.At(InRight(up, Branch(u, gparent, true, b), parent, false), a)
  {
    head.Paint(parent, false, InRight(up, u, gparent, false), b, true, a);
    RightOf(head.Mem(), head.root, up, u, gparent, false, Branch(b, parent, false, a));
    head.Paint(gparent, true, up, u, false, Branch(b, parent, false, a));
    head.RotateLeft(gparent, up, u, true, b, parent, false, a);
    RightOf(head.Mem(), head.root, up, Branch(u, gparent, true, b), parent, false, a);
  }

  /** The position of the fix-up: a red node elm, with everything in order except that its parent may be red. */
  ghost predicate Fixing(c: Ctx, t: Tree, elm: Node, order: seq<Node>) {
    && t.Branch? && t.node == elm && t.red
    && Balanced(t) && Fits(c, BlackHeight(t), false) && Whole(c, t) == order
  }

  lemma RepaintedOrder(t: Tree, red: bool)
    ensures InOrder(Repainted(t, red)) == InOrder(t)
  {
  }

  lemma JoinedOrder(c: Ctx, t: Tree, t': Tree, red: bool, sibling: Tree)
    requires !c.Top? && InOrder(t') == InOrder(t) && InOrder(sibling) == InOrder(Sibling(c))
    ensures Whole(c.up, Joined(c, t', red, sibling)) == Whole(c, t)
  {
    if c.InLeft? {
      WholeLeft(c.up, t, c.node, red, c.right);
      assert InOrder(Joined(c, t', red, sibling)) == InOrder(Branch(t, c.node, red, c.right));
    } else {
      WholeRight(c.up, c.left, c.node, red, t);
      assert InOrder(Joined(c, t', red, sibling)) == InOrder(Branch(c.left, c.node, red, t));
    }
  }

  /** The subtree under the grandparent once the uncle has taken over. */
  function Recolored(c: Ctx, t: Tree): Tree
    requires !c.Top? && !c.up.Top?
  {
    Joined(c.up, Joined(c, t, false, Sibling(c)), true, Repainted(Sibling(c.up), false))
  }

  lemma RedParent(c: Ctx, t: Tree, elm: Node, order: seq<Node>)
    requires Fixing(c, t, elm, order) && !c.Top? && c.red
    ensures !c.up.Top? && !c.up.red
  {
    assert Fits(c.up, BlackHeight(t), true);
  }

  lemma RecoloredFits(c: Ctx, t: Tree, elm: Node, order: seq<Node>)
    requires Fixing(c, t, elm, order) && !c.Top? && c.red && !c.up.Top? && !c.up.red && Red(Sibling(c.up))
    ensures Fixing(c.up.up, Recolored(c, t), c.up.node, order)
  {
    assert Fits(c.up, BlackHeight(t), true);
    var p := Joined(c, t, true, Sibling(c));
    JoinedOrder(c, t, t, true, Sibling(c));
    RepaintedOrder(p, false);
    RepaintedOrder(Sibling(c.up), false);
    JoinedOrder(c.up, p, Repainted(p, false), true, Repainted(Sibling(c.up), false));
  }

  /** What a lift by one level needs: a red pair a, p under g on the same side, u not red. */
  lemma LiftedLeft(up: Ctx, a: Tree, p: Node, b: Tree, g: Node, u: Tree, order: seq<Node>)
    requires Red(a) && Balanced(a) && Balanced(b) && BlackHeight(a) == BlackHeight(b) && !Red(b) && !Red(u)
    requires Fits(InLeft(up, g, false, u), BlackHeight(a), true)
    requires Whole(InLeft(up, g, false, u), Branch(a, p, true, b)) == order
    ensures Fixing(InLeft(up, p, false, Branch(b, g, true, u)), a, a.node, order)
  {
    WholeLeft(up, Branch(a, p, true, b), g, false, u);
    RotationOrder(a, p, false, true, b, g, true, false, u);
    WholeLeft(up, a, p, false, Branch(b, g, true, u));
  }

  lemma LiftedRight(up: Ctx, a: Tree, p: Node, b: Tree, g: Node, u: Tree, order: seq<Node>)
    requires Red(a) && Balanced(a) && Balanced(b) && BlackHeight(a) == BlackHeight(b) && !Red(b) && !Red(u)
    requires Fits(InRight(up, u, g, false), BlackHeight(a), true)
    requires Whole(InRight(up, u, g, false), Branch(b, p, true, a)) == order
    ensures Fixing(InRight(up, Branch(u, g, true, b), p, false), a, a.node, order)
  {
    WholeRight(up, u, g, false, Branch(b, p, true, a));
    RotationOrder(u, g, false, true, b, p, true, false, a);
    WholeRight(up, Branch(u, g, true, b), p, false, a);
  }

  /** A red inner child turned outwards. */
  lemma TurnedOut(c: Ctx, t: Tree, elm: Node, order: seq<Node>)
    requires Fixing(c, t, elm, order) && !c.Top? && c.red && !c.up.Top?
    ensures Balanced(Sibling(c)) && BlackHeight(Sibling(c)) == BlackHeight(t) && !Red(Sibling(c))
    ensures Fits(c.up, BlackHeight(t), true) && !Red(t.left) && !Red(t.right)
    ensures Balanced(t.left) && Balanced(t.right) && BlackHeight(t.left) == BlackHeight(t.right) == BlackHeight(t)
    ensures c.InRight? ==> Whole(c.up, Branch(Branch(c.left, c.node, true, t.left), elm, true, t.right)) == order
    ensures c.InLeft? ==> Whole(c.up, Branch(t.left, elm, true, Branch(t.right, c.node, true, c.right))) == order
    ensures Whole(c.up, Joined(c, t, true, Sibling(c))) == order
  {
    assert Fits(c.up, BlackHeight(t), true);
    JoinedOrder(c, t, t, true, Sibling(c));
    if c.InRight? {
      RotationOrder(c.left, c.node, true, true, t.left, elm, true, true, t.right);
    } else {
      RotationOrder(t.left, elm, true, true, t.right, c.node, true, true, c.right);
    }
  }

  /** Lines 422 to 429. */
  method FixLeft(head: Head, elm: Node, parent: Node, gparent: Node, ghost c: Ctx, ghost t: Tree, ghost order: seq<Node>)
    returns (elm': Node, ghost c': Ctx, ghost t': Tree)
    requires head.At(c, t) && Fixing(c, t, elm, order)
    requires !c.Top? && c.red && c.up.InLeft? && !c.up.red && !Red(c.up.right)
    requires parent == c.node && gparent == c.up.node
    modifies head`root, head.nodes
    ensures head.At(c', t') && Fixing(c', t', elm', order)
    ensures c'.InLeft? && c'.up == c.up.up && !c'.red
  {
    ghost var up, u := c.up.up, c.up.right;
    TurnedOut(c, t, elm, order);
    WhichSide(head.Mem(), head.root, c, t);
    if parent.right == elm {
      RightOf(head.Mem(), head.root, c.up, c.left, parent, true, t);
      head.RotateLeft(parent, c.up, c.left, true, t.left, elm, true, t.right);
      LiftLeft(head, elm, gparent, up, Branch(c.left, parent, true, t.left), t.right, u);
      LiftedLeft(up, Branch(c.left, parent, true, t.left), elm, t.right, gparent, u, order);
      elm', c', t' := parent, InLeft(up, elm, false, Branch(t.right, gparent, true, u)), Branch(c.left, parent, true, t.left);
    } else {
      LeftOf(head.Mem(), head.root, c.up, t, parent, true, c.right);
      LiftLeft(head, parent, gparent, up, t, c.right, u);
      LiftedLeft(up, t, parent, c.right, gparent, u, order);
      elm', c', t' := elm, InLeft(up, parent, false, Branch(c.right, gparent, true, u)), t;
    }
  }

  /** Lines 438 to 445. */
  method FixRight(head: Head, elm: Node, parent: Node, gparent: Node, ghost c: Ctx, ghost t: Tree, ghost order: seq<Node>)
    returns (elm': Node, ghost c': Ctx, ghost t': Tree)
    requires head.At(c, t) && Fixing(c, t, elm, order)
    requires !c.Top? && c.red && c.up.InRight? && !c.up.red && !Red(c.up.left)
    requires parent == c.node && gparent == c.up.node
    modifies head`root, head.nodes
    ensures head.At(c', t') && Fixing(c', t', elm', order)
    ensures c'.InRight? && c'.up == c.up.up && !c'.red
  {
    ghost var up, u := c.up.up, c.up.left;
    TurnedOut(c, t, elm, order);
    WhichSide(head.Mem(), head.root, c, t);
    if parent.left == elm {
      LeftOf(head.Mem(), head.root, c.up, t, parent, true, c.right);
      head.RotateRight(parent, c.up, t.left, elm, true, t.right, true, c.right);
      LiftRight(head, elm, gparent, up, Branch(t.right, parent, true, c.right), t.left, u);
      LiftedRight(up, Branch(t.right, parent, true, c.right), elm, t.left, gparent, u, order);
      elm', c', t' := parent, InRight(up, Branch(u, gparent, true, t.left), elm, false), Branch(t.right, parent, true, c.right);
    } else {
      RightOf(head.Mem(), head.root, c.up, c.left, parent, true, t);
      LiftRight(head, parent, gparent, up, t, c.left, u);
      LiftedRight(up, t, parent, c.left, gparent, u, order);
      elm', c', t' := elm, InRight(up, Branch(u, gparent, true, c.left), parent, false), t;
    }
  }

  function Depth(c: Ctx): nat {
    if c.Top? then 0 else 1 + Depth(c.up)
  }

  /** One turn of the loop, lines 413 to 446. */
  method FixStep(head: Head, elm: Node, ghost c: Ctx, ghost t: Tree, ghost order: seq<Node>)
    returns (elm': Node, ghost c': Ctx, ghost t': Tree)
    requires head.At(c, t) && Fixing(c, t, elm, order) && !c.Top? && c.red && elm.parent == c.node
    modifies head`root, head.nodes
    ensures head.At(c', t') && Fixing(c', t', elm', order) && Depth(c') < Depth(c)
  {
    RedParent(c, t, elm, order);
    GrandparentCell(head.Mem(), head.root, c, t);
    var parent := elm.parent;
    var gparent := parent.parent;
    if parent == gparent.left {
      var tmp := gparent.right;
      if tmp != null && tmp.red {
        RecoloredFits(c, t, elm, order);
        Recolor(head, parent, gparent, tmp, c, t);
        return gparent, c.up.up, Recolored(c, t);
      }
      elm', c', t' := FixLeft(head, elm, parent, gparent, c, t, order);
    } else {
      var tmp := gparent.left;
      if tmp != null && tmp.red {
        RecoloredFits(c, t, elm, order);
        Recolor(head, parent, gparent, tmp, c, t);
        return gparent, c.up.up, Recolored(c, t);
      }
      elm', c', t' := FixRight(head, elm, parent, gparent, c, t, order);
    }
  }

  /** What the loop reads around a position whose parent is not the root. */
  lemma GrandparentCell(m: Memory, root: Node?, c: Ctx, t: Tree)
    requires Holds(m, root, c, t) && !c.Top? && !c.up.Top?
    ensures c.node in m && m[c.node].parent == c.up.node && c.up.node in m
    ensures m[c.up.node].left == c.node <==> c.up.InLeft?
    ensures var u, su := Sibling(c.up), if c.up.InLeft? then m[c.up.node].right else m[c.up.node].left;
            su == Ptr(u) && (u.Branch? ==> u.node in m && m[u.node].red == u.red)
  {
    GoAcross(m, root, c, t);
    ParentCell(m, root, c, t);
    var p := Joined(c, t, c.red, Sibling(c));
    WhichSide(m, root, c.up, p);
    ParentCell(m, root, c.up, p);
    SiblingCell(m, root, c.up, p);
  }

  lemma SiblingCell(m: Memory, root: Node?, c: Ctx, t: Tree)
    requires Holds(m, root, c, t) && !c.Top?
    ensures var u := Sibling(c); u.Branch? ==> u.node in m && m[u.node].red == u.red
  {
  }

  /** Line 448. */
  method Blacken(head: Head, ghost c: Ctx, ghost t: Tree, ghost order: seq<Node>) returns (ghost whole: Tree)
    requires head.At(c, t) && t.Branch? && Fixing(c, t, t.node, order) && (!c.Top? ==> !c.red)
    modifies head`root, head.nodes
    ensures head.At(Top, whole) && RedBlack(whole) && InOrder(whole) == order
  {
    ghost var z := Zip(c, t);
    ZipHolds(head.Mem(), head.root, c, t);
    ZipWhole(c, t);
    ZipBranch(c, t);
    if !c.Top? {
      ZipOut(c, t);
    }
    WhichSide(head.Mem(), head.root, Top, z);
    head.Paint(head.root, false, Top, z.left, z.red, z.right);
    whole := Repainted(z, false);
    RepaintedOrder(z, false);
  }

  lemma {:induction false} ZipBranch(c: Ctx, t: Tree)
    requires t.Branch?
    ensures Zip(c, t).Branch?
    decreases c
  {
    if !c.Top? {
      ZipBranch(c.up, Joined(c, t, c.red, Sibling(c)));
    }
  }

  lemma ParentSeen(m: Memory, root: Node?, c: Ctx, t: Tree)
    requires Holds(m, root, c, t) && t.Branch?
    ensures t.node in m && m[t.node].parent == Above(c)
    ensures !c.Top? ==> c.node in m && m[c.node].red == c.red
  {
    WhichSide(m, root, c, t);
    if !c.Top? {
      ParentCell(m, root, c, t);
    }
  }

  /** RB_INSERT_COLOR. */
  method InsertColor(head: Head, elm0: Node, ghost c0: Ctx, ghost t0: Tree, ghost order: seq<Node>)
    returns (ghost whole: Tree)
    requires head.At(c0, t0) && Fixing(c0, t0, elm0, order)
    modifies head`root, head.nodes
    ensures head.At(Top, whole) && RedBlack(whole) && InOrder(whole) == order
  {
    var elm := elm0;
    ghost var c, t := c0, t0;
    ParentSeen(head.Mem(), head.root, c, t);
    while elm.parent != null && elm.parent.red
      invariant head.At(c, t) && Fixing(c, t, elm, order)
      invariant elm.parent == Above(c) && (!c.Top? ==> c.node.red == c.red)
      decreases Depth(c)
    {
      elm, c, t := FixStep(head, elm, c, t, order);
      ParentSeen(head.Mem(), head.root, c, t);
    }
    whole := Blacken(head, c, t, order);
  }

  // ---------- RB_INSERT ----------

  /** The child pointer of the parent, if there is one, set to elm. */
  ghost function Hooked(m: Memory, parent: Node?, left: bool, elm: Node): Memory
    requires parent != null ==> parent in m
  {
    if parent == null then m
    else if left then m[parent := m[parent].(left := elm)]
    else m[parent := m[parent].(right := elm)]
  }

  /** A new node hung where the search for it fell off the tree. */
  lemma Grafted(m: Memory, root: Node?, m': Memory, root': Node?, c: Ctx, elm: Node)
    requires Holds(m, root, c, Leaf) && elm !in m
    requires (AboveIn(c); m' == Hooked(m[elm := Cell(null, null, Above(c), true)], Above(c), c.InLeft?, elm))
    requires root' == if c.Top? then elm else root
    ensures Holds(m', root', c, Branch(Leaf, elm, true, Leaf))
  {
    AboveIn(c);
    Refilled(m, m', c, null, elm);
    assert Nodes(Branch(Leaf, elm, true, Leaf)) == {elm};
  }

  /** RB_SET, which makes elm a node of the tree. */
  method SetElm(head: Head, elm: Node, parent: Node?)
    requires elm !in head.nodes
    modifies head`nodes, elm
    ensures head.nodes == old(head.nodes) + {elm} && head.Mem() == old(head.Mem())[elm := Cell(null, null, parent, true)]
  {
    elm.parent := parent;
    elm.left, elm.right := null, null;
    elm.red := true;
    head.nodes := head.nodes + {elm};
  }

  /** Lines 617 to 623. */
  method Hook(head: Head, elm: Node, parent: Node?, comp: int)
    requires parent != null ==> parent in head.nodes
    modifies head`root, (if parent == null then {} else {parent})`left, (if parent == null then {} else {parent})`right
    ensures head.Mem() == Hooked(old(head.Mem()), parent, comp < 0, elm)
    ensures head.root == if parent == null then elm else old(head.root)
  {
    if parent != null {
      if comp < 0 {
        head.SetLeft(parent, elm);
      } else {
        head.SetRight(parent, elm);
      }
    } else {
      head.root := elm;
    }
  }

  /** Lines 615 to 623: RB_SET, then the pointer from the parent, or from the head. */
  method Graft(head: Head, elm: Node, parent: Node?, comp: int, ghost c: Ctx)
    requires head.At(c, Leaf) && elm !in head.nodes && parent == Above(c)
    requires !c.Top? ==> comp != 0 && (comp < 0 <==> c.InLeft?)
    modifies head`root, head`nodes, head.nodes, elm
    ensures head.nodes == old(head.nodes) + {elm} && head.At(c, Branch(Leaf, elm, true, Leaf))
  {
    ghost var m, r := head.Mem(), head.root;
    AboveIn(c);
    SetElm(head, elm, parent);
    Hook(head, elm, parent, comp);
    Grafted(m, r, head.Mem(), head.root, c, elm);
  }

  /** s' is s with e added somewhere. */
  ghost predicate Inserted(s: seq<Node>, s': seq<Node>, e: Node) {
    exists i :: 0 <= i <= |s| && s' == s[..i] + [e] + s[i..]
  }

  /** The search of lines 604 to 614: a node of equal key, or the place where one would be. */
  method Descend(head: Head, key: int) returns (tmp: Node?, parent: Node?, comp: int, ghost c: Ctx)
    requires Valid(head)
    ensures tmp != null ==> tmp in Elements(head) && tmp.key == key
    ensures tmp == null ==>
              && head.At(c, Leaf) && Within(c, Leaf, Elements(head)) && Between(c, key) && parent == Above(c)
              && (!c.Top? ==> comp != 0 && (comp < 0 <==> c.InLeft?))
  {
    parent, comp, tmp := null, 0, head.root;
    ghost var t, order := head.tree, Elements(head);
    c := Top;
    while tmp != null
      invariant head.At(c, t) && Within(c, t, order) && Between(c, key)
      invariant tmp == Ptr(t) && parent == Above(c) && (!c.Top? ==> comp != 0 && (comp < 0 <==> c.InLeft?))
      decreases t
    {
      WhichSide(head.Mem(), head.root, c, t);
      parent := tmp;
      comp := key - parent.key;
      if comp < 0 {
        StepLeft(c, t, order);
        LeftOf(head.Mem(), head.root, c, t.left, t.node, t.red, t.right);
        tmp := tmp.left;
        c, t := InLeft(c, t.node, t.red, t.right), t.left;
      } else if comp > 0 {
        StepRight(c, t, order);
        RightOf(head.Mem(), head.root, c, t.left, t.node, t.red, t.right);
        tmp := tmp.right;
        c, t := InRight(c, t.left, t.node, t.red), t.right;
      } else {
        assert tmp in InOrder(t) && tmp in order;
        return;
      }
    }
  }

  lemma InsertedBetween(a: seq<Node>, b: seq<Node>, e: Node)
    ensures Inserted(a + b, a + [e] + b, e)
  {
    assert (a + b)[..|a|] == a && (a + b)[|a|..] == b;
  }

  lemma FallenOff(c: Ctx, elm: Node, order: seq<Node>)
    requires Within(c, Leaf, order) && Between(c, elm.key)
    ensures forall n :: n in order ==> n.key != elm.key
    ensures var order' := Before(c) + [elm] + Behind(c);
            && Sorted(order') && Inserted(order, order', elm)
            && Fixing(c, Branch(Leaf, elm, true, Leaf), elm, order')
  {
    Absent(c, elm.key, order);
    InsertedBetween(Before(c), Behind(c), elm);
    SortedWith(Before(c), elm, Behind(c));
    assert InOrder(Branch(Leaf, elm, true, Leaf)) == [elm];
  }

  /** RB_INSERT: a node of equal key is returned and nothing changes, or elm is added. */
  method Insert(head: Head, elm: Node) returns (res: Node?)
    requires Valid(head) && elm !in head.nodes
    modifies head, head.nodes, elm
    ensures Valid(head)
    ensures res != null ==>
              && res in Elements(head) && res.key == elm.key
              && head.root == old(head.root) && head.tree == old(head.tree) && head.nodes == old(head.nodes)
              && head.Mem() == old(head.Mem())
    ensures res == null ==>
              && (forall n :: n in old(Elements(head)) ==> n.key != elm.key)
              && Inserted(old(Elements(head)), Elements(head), elm) && head.nodes == old(head.nodes) + {elm}
  {
    var tmp, parent, comp, c := Descend(head, elm.key);
    if tmp != null {
      return tmp;
    }
    Add(head, elm, parent, comp, c);
    res := null;
  }

  /** Lines 616 to 625. */
  method Add(head: Head, elm: Node, parent: Node?, comp: int, ghost c: Ctx)
    requires Valid(head) && elm !in head.nodes
    requires head.At(c, Leaf) && Within(c, Leaf, Elements(head)) && Between(c, elm.key) && parent == Above(c)
    requires !c.Top? ==> comp != 0 && (comp < 0 <==> c.InLeft?)
    modifies head, head.nodes, elm
    ensures Valid(head) && head.nodes == old(head.nodes) + {elm}
    ensures forall n :: n in old(Elements(head)) ==> n.key != elm.key
    ensures Inserted(old(Elements(head)), Elements(head), elm)
  {
    ghost var order, order', t := Elements(head), Before(c) + [elm] + Behind(c), Branch(Leaf, elm, true, Leaf);
    FallenOff(c, elm, order);
    Graft(head, elm, parent, comp, c);
    ghost var whole := InsertColor(head, elm, c, t, order');
    Keep(head, whole, order');
  }
}
