/** RB_REMOVE_COLOR (include/uv/tree.h:451-528): the fix-up after a black node has been taken out. */
module RbRemoveColor {
  import opened RbLinks
  import opened RbBalance
  import opened RbInsert

  /** Balanced but for a possible red child of a red root. */
  predicate BalancedBelow(t: Tree) {
    t.Branch? ==> Balanced(t.left) && Balanced(t.right) && BlackHeight(t.left) == BlackHeight(t.right)
  }

  /** The position of the fix-up: paths through t have one black node too few. */
  ghost predicate Short(c: Ctx, t: Tree, order: seq<Node>) {
    && BalancedBelow(t) && Whole(c, t) == order
    && (!c.Top? ==> Fits(c, BlackHeight(t) + 1, false))
  }

  lemma FitsBlack(c: Ctx, bh: nat, red: bool)
    requires Fits(c, bh, red)
    ensures Fits(c, bh, false)
  {
  }

  // ---------- Lines 459 to 464, and 492 to 497: a red sibling ----------

  method RedSiblingLeft(head: Head, parent: Node, tmp: Node, ghost up: Ctx, ghost t: Tree, ghost sl: Tree, ghost sr: Tree)
    requires head.At(InLeft(up, parent, false, Branch(sl, tmp, true, sr)), t)
    modifies head`root, head.nodes
    ensures head.At(InLeft(InLeft(up, tmp, false, sr), parent, true, sl), t)
  {
    ghost var s, s' := Branch(sl, tmp, true, sr), Branch(sl, tmp, false, sr);
    LeftOf(head.Mem(), head.root, up, t, parent, false, s);
    RightOf(head.Mem(), head.root, up, t, parent, false, s);
    head.Paint(tmp, false, InRight(up, t, parent, false), sl, true, sr);
    RightOf(head.Mem(), head.root, up, t, parent, false, s');
    head.Paint(parent, true, up, t, false, s');
    head.RotateLeft(parent, up, t, true, sl, tmp, false, sr);
    LeftOf(head.Mem(), head.root, up, Branch(t, parent, true, sl), tmp, false, sr);
    LeftOf(head.Mem(), head.root, InLeft(up, tmp, false, sr), t, parent, true, sl);
  }

  method RedSiblingRight(head: Head, parent: Node, tmp: Node, ghost up: Ctx, ghost t: Tree, ghost sl: Tree, ghost sr: Tree)
    requires head.At(InRight(up, Branch(sl, tmp, true, sr), parent, false), t)
    modifies head`root, head.nodes
    ensures head.At(InRight(InRight(up, sl, tmp, false), sr, parent, true), t)
  {
    ghost var s, s' := Branch(sl, tmp, true, sr), Branch(sl, tmp, false, sr);
    RightOf(head.Mem(), head.root, up, s, parent, false, t);
    LeftOf(head.Mem(), head.root, up, s, parent, false, t);
    head.Paint(tmp, false, InLeft(up, parent, false, t), sl, true, sr);
    LeftOf(head.Mem(), head.root, up, s', parent, false, t);
    head.Paint(parent, true, up, s', false, t);
    head.RotateRight(parent, up, sl, tmp, false, sr, true, t);
    RightOf(head.Mem(), head.root, up, sl, tmp, false, Branch(sr, parent, true, t));
    RightOf(head.Mem(), head.root, InRight(up, sl, tmp, false), sr, parent, true, t);
  }

  lemma RedSiblingShort(up: Ctx, p: Node, t: Tree, sl: Tree, s: Node, sr: Tree, order: seq<Node>)
    ensures Short(InLeft(up, p, false, Branch(sl, s, true, sr)), t, order) ==>
              Short(InLeft(InLeft(up, s, false, sr), p, true, sl), t, order) && !Red(sl)
    ensures Short(InRight(up, Branch(sl, s, true, sr), p, false), t, order) ==>
              Short(InRight(InRight(up, sl, s, false), sr, p, true), t, order) && !Red(sr)
  {
    WholeLeft(up, t, p, false, Branch(sl, s, true, sr));
    RotationOrder(t, p, false, true, sl, s, true, false, sr);
    WholeLeft(up, Branch(t, p, true, sl), s, false, sr);
    WholeLeft(InLeft(up, s, false, sr), t, p, true, sl);
    WholeRight(up, Branch(sl, s, true, sr), p, false, t);
    RotationOrder(sl, s, false, true, sr, p, true, false, t);
    WholeRight(up, sl, s, false, Branch(sr, p, true, t));
    WholeRight(InRight(up, sl, s, false), sr, p, true, t);
  }

  // ---------- Lines 465 to 471, and 498 to 504: a black sibling with black children ----------

  method BlackNephews(head: Head, tmp: Node, ghost c: Ctx, ghost t: Tree)
    requires !c.Top? && Sibling(c).Branch? && Sibling(c).node == tmp && head.At(c, t)
    modifies head`root, head.nodes
    ensures head.At(c.up, Joined(c, t, c.red, Repainted(Sibling(c), true)))
  {
    PaintSibling(head, tmp, true, c, t);
    GoAcross(head.Mem(), head.root, Beside(c, Repainted(Sibling(c), true)), t);
  }

  lemma BlackNephewsShort(c: Ctx, t: Tree, order: seq<Node>)
    requires !c.Top? && Short(c, t, order) && !Red(t)
    requires var s := Sibling(c); s.Branch? && !s.red && !Red(s.left) && !Red(s.right)
    ensures Short(c.up, Joined(c, t, c.red, Repainted(Sibling(c), true)), order)
  {
    RepaintedOrder(Sibling(c), true);
    JoinedOrder(c, t, t, c.red, Repainted(Sibling(c), true));
    FitsBlack(c.up, BlackHeight(t) + 1 + (if c.red then 0 else 1), c.red);
  }

  // ---------- Lines 472 to 490, and 505 to 523: a black sibling with a red child ----------

  /** Lines 475 to 480: the inner nephew, which is red, is turned into the sibling's place. */
  method TurnNephewLeft(head: Head, tmp: Node, oleft: Node, ghost d: Ctx, ghost na: Tree, ghost nb: Tree, ghost sr: Tree)
    requires head.At(d, Branch(Branch(na, oleft, true, nb), tmp, false, sr))
    modifies head`root, head.nodes
    ensures head.At(d, Branch(na, oleft, false, Branch(nb, tmp, true, sr)))
  {
    LeftOf(head.Mem(), head.root, d, Branch(na, oleft, true, nb), tmp, false, sr);
    head.Paint(oleft, false, InLeft(d, tmp, false, sr), na, true, nb);
    LeftOf(head.Mem(), head.root, d, Branch(na, oleft, false, nb), tmp, false, sr);
    head.Paint(tmp, true, d, Branch(na, oleft, false, nb), false, sr);
    head.RotateRight(tmp, d, na, oleft, false, nb, true, sr);
  }

  method TurnNephewRight(head: Head, tmp: Node, oright: Node, ghost d: Ctx, ghost sl: Tree, ghost na: Tree, ghost nb: Tree)
    requires head.At(d, Branch(sl, tmp, false, Branch(na, oright, true, nb)))
    modifies head`root, head.nodes
    ensures head.At(d, Branch(Branch(sl, tmp, true, na), oright, false, nb))
  {
    RightOf(head.Mem(), head.root, d, sl, tmp, false, Branch(na, oright, true, nb));
    head.Paint(oright, false, InRight(d, sl, tmp, false), na, true, nb);
    RightOf(head.Mem(), head.root, d, sl, tmp, false, Branch(na, oright, false, nb));
    head.Paint(tmp, true, d, sl, false, Branch(na, oright, false, nb));
    head.RotateLeft(tmp, d, sl, true, na, oright, false, nb);
  }

  /** Lines 483 to 487: the sibling takes the parent's place and colour. */
  method LiftSiblingLeft(head: Head, parent: Node, tmp: Node, x: Node, ghost up: Ctx, ghost pr: bool,
                         ghost t: Tree, ghost sl: Tree, ghost xa: Tree, ghost xb: Tree)
    requires head.At(InRight(up, t, parent, pr), Branch(sl, tmp, false, Branch(xa, x, true, xb)))
    requires parent.red == pr
    modifies head`root, head.nodes
    ensures head.At(up, Branch(Branch(t, parent, false, sl), tmp, pr, Branch(xa, x, false, xb)))
  {
    ghost var xt, xt' := Branch(xa, x, true, xb), Branch(xa, x, false, xb);
    head.Paint(tmp, parent.red, InRight(up, t, parent, pr), sl, false, xt);
    RightOf(head.Mem(), head.root, up, t, parent, pr, Branch(sl, tmp, pr, xt));
    head.Paint(parent, false, up, t, pr, Branch(sl, tmp, pr, xt));
    RightOf(head.Mem(), head.root, up, t, parent, false, Branch(sl, tmp, pr, xt));
    RightOf(head.Mem(), head.root, InRight(up, t, parent, false), sl, tmp, pr, xt);
    head.Paint(x, false, InRight(InRight(up, t, parent, false), sl, tmp, pr), xa, true, xb);
    RightOf(head.Mem(), head.root, InRight(up, t, parent, false), sl, tmp, pr, xt');
    RightOf(head.Mem(), head.root, up, t, parent, false, Branch(sl, tmp, pr, xt'));
    head.RotateLeft(parent, up, t, false, sl, tmp, pr, xt');
  }

  method LiftSiblingRight(head: Head, parent: Node, tmp: Node, x: Node, ghost up: Ctx, ghost pr: bool,
                          ghost t: Tree, ghost sr: Tree, ghost xa: Tree, ghost xb: Tree)
    requires head.At(InLeft(up, parent, pr, t), Branch(Branch(xa, x, true, xb), tmp, false, sr))
    requires parent.red == pr
    modifies head`root, head.nodes
    ensures head.At(up, Branch(Branch(xa, x, false, xb), tmp, pr, Branch(sr, parent, false, t)))
  {
    ghost var xt, xt' := Branch(xa, x, true, xb), Branch(xa, x, false, xb);
    head.Paint(tmp, parent.red, InLeft(up, parent, pr, t), xt, false, sr);
    LeftOf(head.Mem(), head.root, up, Branch(xt, tmp, pr, sr), parent, pr, t);
    head.Paint(parent, false, up, Branch(xt, tmp, pr, sr), pr, t);
    LeftOf(head.Mem(), head.root, up, Branch(xt, tmp, pr, sr), parent, false, t);
    LeftOf(head.Mem(), head.root, InLeft(up, parent, false, t), xt, tmp, pr, sr);
    head.Paint(x, false, InLeft(InLeft(up, parent, false, t), tmp, pr, sr), xa, true, xb);
    LeftOf(head.Mem(), head.root, InLeft(up, parent, false, t), xt', tmp, pr, sr);
    LeftOf(head.Mem(), head.root, up, Branch(xt', tmp, pr, sr), parent, false, t);
    head.RotateRight(parent, up, xt', tmp, pr, sr, false, t);
  }

  /** What the loop reads around a position: the parent, the sibling, and the sibling's children. */
  lemma NephewCells(m: Memory, root: Node?, c: Ctx, t: Tree)
    requires Holds(m, root, c, t) && !c.Top? && Sibling(c).Branch?
    ensures c.node in m && m[c.node].red == c.red
    ensures m[c.node].left == (if c.InLeft? then Ptr(t) else Sibling(c).node)
    ensures m[c.node].right == (if c.InLeft? then Sibling(c).node else Ptr(t))
    ensures var s := Sibling(c);
            && s.node in m && m[s.node].left == Ptr(s.left) && m[s.node].right == Ptr(s.right) && m[s.node].red == s.red
            && (s.left.Branch? ==> s.left.node in m && m[s.left.node].red == s.left.red)
            && (s.right.Branch? ==> s.right.node in m && m[s.right.node].red == s.right.red)
    ensures t.Branch? ==> t.node != Sibling(c).node
  {
    var s := Sibling(c);
    GoAcross(m, root, c, t);
    ParentCell(m, root, c, t);
    WhichSide(m, root, Across(c, t), s);
    assert Linked(m, s, c.node) && Linked(m, s.left, s.node) && Linked(m, s.right, s.node);
    PtrIn(t);
    PtrIn(s);
  }

  /** Fixed: the whole is in order again. */
  ghost predicate Settled(c: Ctx, t: Tree, order: seq<Node>) {
    Balanced(t) && Fits(c, BlackHeight(t), Red(t)) && Whole(c, t) == order
  }

  lemma LiftedLeftSettles(up: Ctx, p: Node, pr: bool, t: Tree, sl: Tree, s: Node, sr: Tree, order: seq<Node>)
    requires Short(InLeft(up, p, pr, Branch(sl, s, false, sr)), t, order) && !Red(t) && Red(sr)
    ensures Settled(up, Branch(Branch(t, p, false, sl), s, pr, Repainted(sr, false)), order)
  {
    WholeLeft(up, t, p, pr, Branch(sl, s, false, sr));
    RotationOrder(t, p, pr, false, sl, s, false, pr, sr);
    RepaintedOrder(sr, false);
    assert InOrder(Branch(Branch(t, p, false, sl), s, pr, Repainted(sr, false))) == InOrder(Branch(t, p, pr, Branch(sl, s, false, sr)));
    assert Balanced(t) && Balanced(Branch(sl, s, false, sr)) && Balanced(sl) && Balanced(sr);
  }

  lemma LiftedRightSettles(up: Ctx, p: Node, pr: bool, t: Tree, sl: Tree, s: Node, sr: Tree, order: seq<Node>)
    requires Short(InRight(up, Branch(sl, s, false, sr), p, pr), t, order) && !Red(t) && Red(sl)
    ensures Settled(up, Branch(Repainted(sl, false), s, pr, Branch(sr, p, false, t)), order)
  {
    WholeRight(up, Branch(sl, s, false, sr), p, pr, t);
    RotationOrder(sl, s, pr, false, sr, p, false, pr, t);
    RepaintedOrder(sl, false);
    assert InOrder(Branch(Repainted(sl, false), s, pr, Branch(sr, p, false, t))) == InOrder(Branch(Branch(sl, s, false, sr), p, pr, t));
    assert Balanced(t) && Balanced(Branch(sl, s, false, sr)) && Balanced(sl) && Balanced(sr);
  }

  /** A sibling of the same shape to the outside does as well. */
  lemma BesideShort(c: Ctx, t: Tree, s: Tree, order: seq<Node>)
    requires Short(c, t, order) && !c.Top? && InOrder(s) == InOrder(Sibling(c)) && !Red(s)
    requires Balanced(s) && BlackHeight(s) == BlackHeight(Sibling(c))
    ensures Short(Beside(c, s), t, order)
  {
    JoinedOrder(c, t, t, c.red, s);
    JoinedOrder(Beside(c, s), t, t, c.red, s);
    assert Joined(Beside(c, s), t, c.red, s) == Joined(c, t, c.red, s) && Beside(c, s).up == c.up;
    BesideFits(c, s, BlackHeight(t) + 1);
  }

  lemma BesideFits(c: Ctx, s: Tree, bh: nat)
    requires !c.Top? && Fits(c, bh, false) && !Red(s) && Balanced(s) && BlackHeight(s) == BlackHeight(Sibling(c))
    ensures Fits(Beside(c, s), bh, false)
  {
  }

  /** Turning the inner nephew keeps the position short. */
  lemma TurnedLeftShort(up: Ctx, p: Node, pr: bool, t: Tree, na: Tree, n: Node, nb: Tree, s: Node, sr: Tree, order: seq<Node>)
    requires Short(InLeft(up, p, pr, Branch(Branch(na, n, true, nb), s, false, sr)), t, order) && !Red(sr)
    ensures Short(InLeft(up, p, pr, Branch(na, n, false, Branch(nb, s, true, sr))), t, order)
  {
    RotationOrder(na, n, false, true, nb, s, true, false, sr);
    assert Balanced(Branch(Branch(na, n, true, nb), s, false, sr)) && Balanced(Branch(na, n, true, nb)) && Balanced(sr);
    assert Balanced(Branch(nb, s, true, sr));
    BesideShort(InLeft(up, p, pr, Branch(Branch(na, n, true, nb), s, false, sr)), t, Branch(na, n, false, Branch(nb, s, true, sr)), order);
  }

  lemma TurnedRightShort(up: Ctx, p: Node, pr: bool, t: Tree, sl: Tree, s: Node, na: Tree, n: Node, nb: Tree, order: seq<Node>)
    requires Short(InRight(up, Branch(sl, s, false, Branch(na, n, true, nb)), p, pr), t, order) && !Red(sl)
    ensures Short(InRight(up, Branch(Branch(sl, s, true, na), n, false, nb), p, pr), t, order)
  {
    RotationOrder(sl, s, false, true, na, n, true, false, nb);
    assert Balanced(Branch(sl, s, false, Branch(na, n, true, nb))) && Balanced(Branch(na, n, true, nb)) && Balanced(sl);
    assert Balanced(Branch(sl, s, true, na));
    BesideShort(InRight(up, Branch(sl, s, false, Branch(na, n, true, nb)), p, pr), t, Branch(Branch(sl, s, true, na), n, false, nb), order);
  }

  method SettleLeft(head: Head, parent: Node, tmp0: Node, ghost c: Ctx, ghost t: Tree, ghost order: seq<Node>) returns (ghost whole: Tree)
    requires head.At(c, t) && Short(c, t, order) && c.InLeft? && c.node == parent && !Red(t)
    requires c.right.Branch? && c.right.node == tmp0 && !c.right.red && (Red(c.right.left) || Red(c.right.right))
    modifies head`root, head.nodes
    ensures head.At(c.up, whole) && Settled(c.up, whole, order)
  {
    var tmp := tmp0;
    ghost var up, pr, s := c.up, c.red, c.right;
    NephewCells(head.Mem(), head.root, c, t);
    if tmp.right == null || !tmp.right.red {
      var oleft := tmp.left;
      GoAcross(head.Mem(), head.root, c, t);
      ghost var na, nb := s.left.left, s.left.right;
      TurnNephewLeft(head, tmp, oleft, Across(c, t), na, nb, s.right);
      TurnedLeftShort(up, parent, pr, t, na, oleft, nb, tmp, s.right, order);
      s := Branch(na, oleft, false, Branch(nb, tmp, true, s.right));
      GoAcross(head.Mem(), head.root, InLeft(up, parent, pr, s), t);
      NephewCells(head.Mem(), head.root, InLeft(up, parent, pr, s), t);
      tmp := parent.right;
    }
    GoAcross(head.Mem(), head.root, InLeft(up, parent, pr, s), t);
    LiftSiblingLeft(head, parent, tmp, tmp.right, up, pr, t, s.left, s.right.left, s.right.right);
    LiftedLeftSettles(up, parent, pr, t, s.left, tmp, s.right, order);
    whole := Branch(Branch(t, parent, false, s.left), tmp, pr, Repainted(s.right, false));
  }

  method SettleRight(head: Head, parent: Node, tmp0: Node, ghost c: Ctx, ghost t: Tree, ghost order: seq<Node>) returns (ghost whole: Tree)
    requires head.At(c, t) && Short(c, t, order) && c.InRight? && c.node == parent && !Red(t)
    requires c.left.Branch? && c.left.node == tmp0 && !c.left.red && (Red(c.left.left) || Red(c.left.right))
    modifies head`root, head.nodes
    ensures head.At(c.up, whole) && Settled(c.up, whole, order)
  {
    var tmp := tmp0;
    ghost var up, pr, s := c.up, c.red, c.left;
    NephewCells(head.Mem(), head.root, c, t);
    if tmp.left == null || !tmp.left.red {
      var oright := tmp.right;
      GoAcross(head.Mem(), head.root, c, t);
      ghost var na, nb := s.right.left, s.right.right;
      TurnNephewRight(head, tmp, oright, Across(c, t), s.left, na, nb);
      TurnedRightShort(up, parent, pr, t, s.left, tmp, na, oright, nb, order);
      s := Branch(Branch(s.left, tmp, true, na), oright, false, nb);
      GoAcross(head.Mem(), head.root, InRight(up, s, parent, pr), t);
      NephewCells(head.Mem(), head.root, InRight(up, s, parent, pr), t);
      tmp := parent.left;
    }
    GoAcross(head.Mem(), head.root, InRight(up, s, parent, pr), t);
    LiftSiblingRight(head, parent, tmp, tmp.left, up, pr, t, s.right, s.left.left, s.left.right);
    LiftedRightSettles(up, parent, pr, t, s.left, tmp, s.right, order);
    whole := Branch(Repainted(s.left, false), tmp, pr, Branch(s.right, parent, false, t));
  }

  // ---------- The loop ----------

  /** The sibling of a position that is one black node short is never NULL. */
  lemma SiblingThere(c: Ctx, t: Tree, order: seq<Node>)
    requires !c.Top? && Short(c, t, order)
    ensures Sibling(c).Branch?
    ensures Red(Sibling(c)) ==> !c.red && Sibling(c).left.Branch? && Sibling(c).right.Branch?
  {
  }

  method RepairLeft(head: Head, parent: Node, ghost c0: Ctx, ghost t: Tree, ghost order: seq<Node>)
    returns (settled: bool, ghost c': Ctx, ghost t': Tree)
    requires head.At(c0, t) && Short(c0, t, order) && c0.InLeft? && c0.node == parent && !Red(t)
    modifies head`root, head.nodes
    ensures head.At(c', t') && if settled then Settled(c', t', order) else Short(c', t', order) && Progress(c0, c', t') && Ptr(t') == parent
  {
    ghost var c := c0;
    SiblingThere(c, t, order);
    NephewCells(head.Mem(), head.root, c, t);
    var tmp := parent.right;
    if tmp.red {
      ghost var sl, sr := c.right.left, c.right.right;
      RedSiblingLeft(head, parent, tmp, c.up, t, sl, sr);
      RedSiblingShort(c.up, parent, t, sl, tmp, sr, order);
      c := InLeft(InLeft(c.up, tmp, false, sr), parent, true, sl);
      NephewCells(head.Mem(), head.root, c, t);
      tmp := parent.right;
    }
    if (tmp.left == null || !tmp.left.red) && (tmp.right == null || !tmp.right.red) {
      BlackNephews(head, tmp, c, t);
      BlackNephewsShort(c, t, order);
      settled, c', t' := false, c.up, Joined(c, t, c.red, Repainted(Sibling(c), true));
    } else {
      ghost var whole := SettleLeft(head, parent, tmp, c, t, order);
      settled, c', t' := true, c.up, whole;
    }
  }

  method RepairRight(head: Head, parent: Node, ghost c0: Ctx, ghost t: Tree, ghost order: seq<Node>)
    returns (settled: bool, ghost c': Ctx, ghost t': Tree)
    requires head.At(c0, t) && Short(c0, t, order) && c0.InRight? && c0.node == parent && !Red(t)
    modifies head`root, head.nodes
    ensures head.At(c', t') && if settled then Settled(c', t', order) else Short(c', t', order) && Progress(c0, c', t') && Ptr(t') == parent
  {
    ghost var c := c0;
    SiblingThere(c, t, order);
    NephewCells(head.Mem(), head.root, c, t);
    var tmp := parent.left;
    if tmp.red {
      ghost var sl, sr := c.left.left, c.left.right;
      RedSiblingRight(head, parent, tmp, c.up, t, sl, sr);
      RedSiblingShort(c.up, parent, t, sl, tmp, sr, order);
      c := InRight(InRight(c.up, sl, tmp, false), sr, parent, true);
      NephewCells(head.Mem(), head.root, c, t);
      tmp := parent.left;
    }
    if (tmp.left == null || !tmp.left.red) && (tmp.right == null || !tmp.right.red) {
      BlackNephews(head, tmp, c, t);
      BlackNephewsShort(c, t, order);
      settled, c', t' := false, c.up, Joined(c, t, c.red, Repainted(Sibling(c), true));
    } else {
      ghost var whole := SettleRight(head, parent, tmp, c, t, order);
      settled, c', t' := true, c.up, whole;
    }
  }

  /** One level up, or at the same depth with a red node that ends the loop. */
  ghost predicate Progress(c: Ctx, c': Ctx, t': Tree) {
    Depth(c') < Depth(c) || (Depth(c') == Depth(c) && Red(t'))
  }

  /** What the loop's tests read: whether the position is the root, its colour, and its side. */
  lemma LoopReads(m: Memory, root: Node?, c: Ctx, t: Tree)
    requires Holds(m, root, c, t)
    ensures t.Branch? ==> t.node in m && m[t.node].red == t.red && m[t.node].parent == Above(c)
    ensures Ptr(t) == root <==> c.Top?
    ensures !c.Top? ==> c.node in m
    ensures !c.Top? && (t.Branch? || Sibling(c).Branch?) ==> (m[c.node].left == Ptr(t) <==> c.InLeft?)
  {
    if t.Branch? {
      WhichSide(m, root, c, t);
    } else if !c.Top? {
      ParentCell(m, root, c, t);
    }
    if !c.Top? {
      RootAbove(c, Ptr(t));
      PtrIn(t);
    }
  }

  lemma {:induction false} RootAbove(c: Ctx, hole: Node?)
    requires !c.Top?
    ensures Root(c, hole) != null && Root(c, hole) in CtxNodes(c)
  {
    if !c.up.Top? {
      RootAbove(c.up, c.node);
    }
  }

  /** One turn of the loop, up to the assignments to elm and parent. */
  method Repair(head: Head, parent: Node, elm: Node?, ghost c: Ctx, ghost t: Tree, ghost order: seq<Node>)
    returns (settled: bool, ghost c': Ctx, ghost t': Tree)
    requires head.At(c, t) && Short(c, t, order) && !c.Top? && c.node == parent && elm == Ptr(t) && !Red(t)
    modifies head`root, head.nodes
    ensures head.nodes == old(head.nodes)
    ensures head.At(c', t') && if settled then Settled(c', t', order) else Short(c', t', order) && Progress(c, c', t') && Ptr(t') == parent
  {
    SiblingThere(c, t, order);
    LoopReads(head.Mem(), head.root, c, t);
    if parent.left == elm {
      settled, c', t' := RepairLeft(head, parent, c, t, order);
    } else {
      settled, c', t' := RepairRight(head, parent, c, t, order);
    }
  }

  /** RB_REMOVE_COLOR. */
  method RemoveColor(head: Head, parent0: Node?, elm0: Node?, ghost c0: Ctx, ghost t0: Tree, ghost order: seq<Node>)
    returns (ghost whole: Tree)
    requires head.At(c0, t0) && Short(c0, t0, order) && parent0 == Above(c0) && elm0 == Ptr(t0)
    modifies head`root, head.nodes
    ensures head.At(Top, whole) && RedBlack(whole) && InOrder(whole) == order
  {
    var parent, elm := parent0, elm0;
    ghost var c, t := c0, t0;
    LoopReads(head.Mem(), head.root, c, t);
    while (elm == null || !elm.red) && elm != head.root
      invariant head.At(c, t) && Short(c, t, order) && parent == Above(c) && elm == Ptr(t)
      invariant (t.Branch? ==> elm.red == t.red) && (elm == head.root <==> c.Top?)
      decreases Depth(c), if Red(t) then 0 else 1
    {
      var settled;
      settled, c, t := Repair(head, parent, elm, c, t, order);
      if settled {
        whole := Finish(head, head.root, c, t, order);
        return;
      }
      LoopReads(head.Mem(), head.root, c, t);
      elm := parent;
      parent := elm.parent;
    }
    whole := Blacken(head, elm, c, t, order);
  }

  /** Lines 526 and 527 after the loop's own exit: elm is red, or the root. */
  method Blacken(head: Head, elm: Node?, ghost c: Ctx, ghost t: Tree, ghost order: seq<Node>) returns (ghost whole: Tree)
    requires head.At(c, t) && Short(c, t, order) && (Red(t) || c.Top?) && elm == Ptr(t)
    modifies head`root, head.nodes
    ensures head.At(Top, whole) && RedBlack(whole) && InOrder(whole) == order
  {
    if elm != null {
      head.Paint(elm, false, c, t.left, t.red, t.right);
    }
    whole := Zip(c, Repainted(t, false));
    ZipHolds(head.Mem(), head.root, c, Repainted(t, false));
    Blackened(c, t, order);
  }

  lemma Blackened(c: Ctx, t: Tree, order: seq<Node>)
    requires Short(c, t, order) && (Red(t) || c.Top?)
    ensures var whole := Zip(c, Repainted(t, false)); RedBlack(whole) && InOrder(whole) == order
  {
    RepaintedOrder(t, false);
    ZipOut(c, Repainted(t, false));
    ZipWhole(c, Repainted(t, false));
  }

  /** After the break at lines 488 and 489, or 521 and 522: elm is the root, which is painted black. */
  method Finish(head: Head, elm: Node?, ghost c: Ctx, ghost t: Tree, ghost order: seq<Node>) returns (ghost whole: Tree)
    requires head.At(c, t) && Settled(c, t, order) && elm == head.root
    modifies head`root, head.nodes
    ensures head.At(Top, whole) && RedBlack(whole) && InOrder(whole) == order
  {
    whole := Zip(c, t);
    ZipHolds(head.Mem(), head.root, c, t);
    ZipOut(c, t);
    ZipWhole(c, t);
    if elm != null {
      head.Paint(elm, false, Top, whole.left, whole.red, whole.right);
    }
  }
}
