/** The pointer steps of a top-down splay, each as a change of memory that keeps the two spines and the tree between
    them (include/uv/tree.h:88-117). */
module SplaySteps {
  import opened Sequences
  import opened SplayLinks

  /** In the middle of a splay: the spines l and r, and between them the tree t under the root. */
  ghost predicate Mid(m: Memory, dummy: Node, l: Spine, t: Tree, r: Spine) {
    && dummy in m && dummy !in All(l, t, r) && Sorted(All(l, t, r))
    && Holds(m, t) && HoldsLeft(m, dummy, l) && HoldsRight(m, dummy, r)
  }

  /** The three parts have no node in common. */
  lemma Parts(l: Spine, t: Tree, r: Spine)
    requires Sorted(All(l, t, r))
    ensures Sorted(InLeft(l)) && Sorted(InOrder(t)) && Sorted(InRight(r))
    ensures Below(InLeft(l), InOrder(t)) && Below(InLeft(l), InRight(r)) && Below(InOrder(t), InRight(r))
    ensures forall n :: n in All(l, t, r) <==> n in InLeft(l) || n in InOrder(t) || n in InRight(r)
  {
    SortedParts(InLeft(l), InOrder(t) + InRight(r));
    SortedParts(InOrder(t), InRight(r));
    assert forall n :: n in InOrder(t) + InRight(r) <==> n in InOrder(t) || n in InRight(r);
  }

  lemma LatestPlace(l: Spine, r: Spine, dummy: Node)
    ensures l.Linked? ==> Latest(l, dummy) in InLeft(l)
    ensures r.Linked? ==> Latest(r, dummy) in InRight(r)
  {
    if l.Linked? {
      assert l.node in InOrder(l.tree) + [l.node];
    }
  }

  /** A node and its subtrees have no node in common. */
  lemma NodeParts(t: Tree)
    requires t.Branch? && Sorted(InOrder(t))
    ensures Sorted(InOrder(t.left)) && Sorted(InOrder(t.right))
    ensures Below(InOrder(t.left), [t.node]) && Below([t.node], InOrder(t.right)) && Below(InOrder(t.left), InOrder(t.right))
    ensures t.node !in InOrder(t.left) && t.node !in InOrder(t.right) && t.node in InOrder(t)
    ensures forall n :: n in InOrder(t) <==> n in InOrder(t.left) || n == t.node || n in InOrder(t.right)
  {
    SortedParts(InOrder(t.left), [t.node] + InOrder(t.right));
    SortedParts([t.node], InOrder(t.right));
    assert t.node in [t.node];
    assert forall n :: n in [t.node] + InOrder(t.right) <==> n == t.node || n in InOrder(t.right);
  }

  // ---------- SPLAY_LINKLEFT and SPLAY_LINKRIGHT ----------

  lemma LinkLeftAll(l: Spine, t: Tree, r: Spine)
    requires t.Branch?
    ensures All(l, t.left, Linked(r, t.node, t.right)) == All(l, t, r)
  {
    Assoc(InOrder(t.left), [t.node] + InOrder(t.right), InRight(r));
    Assoc([t.node], InOrder(t.right), InRight(r));
  }

  lemma LinkRightAll(l: Spine, t: Tree, r: Spine)
    requires t.Branch?
    ensures All(Linked(l, t.node, t.left), t.right, r) == All(l, t, r)
  {
    Assoc(InOrder(t.left), [t.node], InOrder(t.right));
    Assoc(InLeft(l), InOrder(t.left) + [t.node], InOrder(t.right) + InRight(r));
    Assoc(InOrder(t.left) + [t.node], InOrder(t.right), InRight(r));
  }

  /** The nodes at the two open ends are none of t, nor of the other spine. */
  lemma EndsApart(l: Spine, t: Tree, r: Spine, dummy: Node)
    requires t.Branch? && Sorted(All(l, t, r)) && dummy !in All(l, t, r)
    ensures Latest(l, dummy) !in InOrder(t) && Latest(r, dummy) !in InOrder(t)
    ensures Latest(l, dummy) !in InRight(r) && Latest(r, dummy) !in InLeft(l)
    ensures dummy !in InLeft(l) && dummy !in InRight(r) && Sorted(InLeft(l)) && Sorted(InRight(r))
    ensures Latest(l, dummy) != t.node && Latest(r, dummy) != t.node
    ensures forall n :: n in InOrder(t.left) || n in InOrder(t.right) ==> n in InOrder(t)
  {
    Parts(l, t, r);
    LatestPlace(l, r, dummy);
    NodeParts(t);
  }

  lemma LinkLeftMid(m: Memory, dummy: Node, l: Spine, t: Tree, r: Spine)
    requires Mid(m, dummy, l, t, r) && t.Branch? && Latest(r, dummy) in m
    ensures var x := Latest(r, dummy);
            Mid(m[x := m[x].(left := t.node)], dummy, l, t.left, Linked(r, t.node, t.right))
  {
    var x := Latest(r, dummy);
    var c := m[x].(left := t.node);
    EndsApart(l, t, r, dummy);
    LinkLeftAll(l, t, r);
    TreeFrame(m, t.left, x, c);
    TreeFrame(m, t.right, x, c);
    LeftFrame(m, dummy, l, x, c);
    RightOpen(m, dummy, r, c);
  }

  lemma LinkRightMid(m: Memory, dummy: Node, l: Spine, t: Tree, r: Spine)
    requires Mid(m, dummy, l, t, r) && t.Branch? && Latest(l, dummy) in m
    ensures var x := Latest(l, dummy);
            Mid(m[x := m[x].(right := t.node)], dummy, Linked(l, t.node, t.left), t.right, r)
  {
    var x := Latest(l, dummy);
    var c := m[x].(right := t.node);
    EndsApart(l, t, r, dummy);
    LinkRightAll(l, t, r);
    TreeFrame(m, t.left, x, c);
    TreeFrame(m, t.right, x, c);
    RightFrame(m, dummy, r, x, c);
    LeftOpen(m, dummy, l, c);
  }

  // ---------- SPLAY_ROTATE_RIGHT and SPLAY_ROTATE_LEFT ----------

  function RotatedRight(t: Tree): Tree
    requires t.Branch? && t.left.Branch?
  {
    Branch(t.left.left, t.left.node, Branch(t.left.right, t.node, t.right))
  }

  function RotatedLeft(t: Tree): Tree
    requires t.Branch? && t.right.Branch?
  {
    Branch(Branch(t.left, t.node, t.right.left), t.right.node, t.right.right)
  }

  lemma RotatedOrder(t: Tree)
    requires t.Branch?
    ensures t.left.Branch? ==> InOrder(RotatedRight(t)) == InOrder(t)
    ensures t.right.Branch? ==> InOrder(RotatedLeft(t)) == InOrder(t)
  {
    if t.left.Branch? {
      var a, p := InOrder(t.left.left), [t.left.node];
      var b, c := InOrder(t.left.right), [t.node] + InOrder(t.right);
      Assoc(a, p + b, c);
      Assoc(p, b, c);
    }
    if t.right.Branch? {
      var a, p := InOrder(t.left), [t.node];
      var b, c := InOrder(t.right.left), [t.right.node] + InOrder(t.right.right);
      Assoc(a, p + b, c);
      Assoc(p, b, c);
    }
  }

  /** Changing cells of t only. */
  lemma SpinesFrame(m: Memory, dummy: Node, l: Spine, t: Tree, r: Spine, x: Node, c: Cell)
    requires x in InOrder(t) && x in m && dummy !in All(l, t, r) && Sorted(All(l, t, r))
    requires HoldsLeft(m, dummy, l) && HoldsRight(m, dummy, r)
    ensures HoldsLeft(m[x := c], dummy, l) && HoldsRight(m[x := c], dummy, r)
  {
    Parts(l, t, r);
    LeftFrame(m, dummy, l, x, c);
    RightFrame(m, dummy, r, x, c);
  }

  lemma RotateRightHolds(m: Memory, t: Tree)
    requires Holds(m, t) && Sorted(InOrder(t)) && t.Branch? && t.left.Branch? && t.left.node in m
    ensures var n, p := t.node, t.left.node;
            n != p && Holds(m[n := m[n].(left := m[p].right)][p := m[p].(right := n)], RotatedRight(t))
  {
    var n, p := t.node, t.left.node;
    var c, d := m[n].(left := m[p].right), m[p].(right := n);
    NodeParts(t);
    NodeParts(t.left);
    TreeFrame(m, t.left.left, n, c);
    TreeFrame(m, t.left.right, n, c);
    TreeFrame(m, t.right, n, c);
    assert p !in InOrder(t.right);
    TreeFrame(m[n := c], t.left.left, p, d);
    TreeFrame(m[n := c], t.left.right, p, d);
    TreeFrame(m[n := c], t.right, p, d);
  }

  lemma RotateLeftHolds(m: Memory, t: Tree)
    requires Holds(m, t) && Sorted(InOrder(t)) && t.Branch? && t.right.Branch? && t.right.node in m
    ensures var n, p := t.node, t.right.node;
            n != p && Holds(m[n := m[n].(right := m[p].left)][p := m[p].(left := n)], RotatedLeft(t))
  {
    var n, p := t.node, t.right.node;
    var c, d := m[n].(right := m[p].left), m[p].(left := n);
    NodeParts(t);
    NodeParts(t.right);
    TreeFrame(m, t.right.left, n, c);
    TreeFrame(m, t.right.right, n, c);
    TreeFrame(m, t.left, n, c);
    assert p !in InOrder(t.left);
    TreeFrame(m[n := c], t.right.left, p, d);
    TreeFrame(m[n := c], t.right.right, p, d);
    TreeFrame(m[n := c], t.left, p, d);
  }

  /** The two assignments of a rotation of n with its child p. */
  function TurnedRight(m: Memory, n: Node, p: Node): Memory
    requires n in m && p in m
  {
    var m1 := m[n := m[n].(left := m[p].right)];
    m1[p := m1[p].(right := n)]
  }

  lemma RotateRightMid(m: Memory, dummy: Node, l: Spine, t: Tree, t': Tree, r: Spine)
    requires Mid(m, dummy, l, t, r) && t.Branch? && t.left.Branch? && t.node in m && t.left.node in m && t' == RotatedRight(t)
    ensures Mid(TurnedRight(m, t.node, t.left.node), dummy, l, t', r)
  {
    var n, p := t.node, t.left.node;
    var c, d := m[n].(left := m[p].right), m[p].(right := n);
    Parts(l, t, r);
    NodeParts(t);
    NodeParts(t.left);
    RotateRightHolds(m, t);
    RotatedOrder(t);
    SpinesFrame(m, dummy, l, t, r, n, c);
    SpinesFrame(m[n := c], dummy, l, t, r, p, d);
  }

  /** The two assignments of a rotation of n with its child p. */
  function TurnedLeft(m: Memory, n: Node, p: Node): Memory
    requires n in m && p in m
  {
    var m1 := m[n := m[n].(right := m[p].left)];
    m1[p := m1[p].(left := n)]
  }

  lemma RotateLeftMid(m: Memory, dummy: Node, l: Spine, t: Tree, t': Tree, r: Spine)
    requires Mid(m, dummy, l, t, r) && t.Branch? && t.right.Branch? && t.node in m && t.right.node in m && t' == RotatedLeft(t)
    ensures Mid(TurnedLeft(m, t.node, t.right.node), dummy, l, t', r)
  {
    var n, p := t.node, t.right.node;
    var c, d := m[n].(right := m[p].left), m[p].(left := n);
    Parts(l, t, r);
    NodeParts(t);
    NodeParts(t.right);
    RotateLeftHolds(m, t);
    RotatedOrder(t);
    SpinesFrame(m, dummy, l, t, r, n, c);
    SpinesFrame(m[n := c], dummy, l, t, r, p, d);
  }

  // ---------- SPLAY_ASSEMBLE ----------

  /** The tree after a splay. */
  function Assembled(l: Spine, t: Tree, r: Spine): Tree
    requires t.Branch?
  {
    Branch(CloseLeft(l, t.left), t.node, CloseRight(r, t.right))
  }

  /** Lines 113 to 116. */
  function AssembleMemory(m: Memory, dummy: Node, l: Spine, t: Tree, r: Spine): Memory
    requires t.Branch? && t.node in m && dummy in m && Latest(l, dummy) in m && Latest(r, dummy) in m
  {
    var m1 := m[Latest(l, dummy) := m[Latest(l, dummy)].(right := m[t.node].left)];
    var m2 := m1[Latest(r, dummy) := m1[Latest(r, dummy)].(left := m1[t.node].right)];
    var m3 := m2[t.node := m2[t.node].(left := m2[dummy].right)];
    m3[t.node := m3[t.node].(right := m3[dummy].left)]
  }

  /** The first line: the left spine is closed. */
  lemma CloseLeftMid(m: Memory, dummy: Node, l: Spine, t: Tree, r: Spine)
    requires Mid(m, dummy, l, t, r) && t.Branch? && Latest(l, dummy) in m
    ensures var x := Latest(l, dummy);
            var m1 := m[x := m[x].(right := m[t.node].left)];
            && Mid(m1, dummy, l, t, r) && x != t.node
            && m1[x].right == Ptr(t.left)
  {
    var x := Latest(l, dummy);
    var c := m[x].(right := m[t.node].left);
    Parts(l, t, r);
    LatestPlace(l, r, dummy);
    NodeParts(t);
    TreeFrame(m, t, x, c);
    RightFrame(m, dummy, r, x, c);
    LeftOpen(m, dummy, l, c);
  }

  /** The second line: so is the right spine. */
  lemma CloseRightMid(m: Memory, dummy: Node, l: Spine, t: Tree, r: Spine)
    requires Mid(m, dummy, l, t, r) && t.Branch? && Latest(r, dummy) in m && Latest(l, dummy) in m
    requires m[Latest(l, dummy)].right == Ptr(t.left)
    ensures var x := Latest(r, dummy);
            var m1 := m[x := m[x].(left := m[t.node].right)];
            && Mid(m1, dummy, l, t, r) && x != t.node
            && m1[x].left == Ptr(t.right) && m1[Latest(l, dummy)].right == Ptr(t.left)
  {
    var x := Latest(r, dummy);
    var c := m[x].(left := m[t.node].right);
    Parts(l, t, r);
    LatestPlace(l, r, dummy);
    NodeParts(t);
    TreeFrame(m, t, x, c);
    LeftFrame(m, dummy, l, x, c);
    RightOpen(m, dummy, r, c);
  }

  lemma AssembledOrder(l: Spine, t: Tree, r: Spine)
    requires t.Branch? && InOrder(CloseLeft(l, t.left)) == InLeft(l) + InOrder(t.left)
    requires InOrder(CloseRight(r, t.right)) == InOrder(t.right) + InRight(r)
    ensures InOrder(Assembled(l, t, r)) == All(l, t, r)
  {
    var a, b, n, c, d := InLeft(l), InOrder(t.left), [t.node], InOrder(t.right), InRight(r);
    Assoc(a, b, n + (c + d));
    Assoc(n, c, d);
    Assoc(b, n + c, d);
  }

  /** The last two lines: the root takes over what hangs from the dummy. */
  lemma RootTakes(m: Memory, dummy: Node, t: Tree)
    requires t.Branch? && Sorted(InOrder(t)) && dummy in m && t.node in m && dummy != t.node
    requires Holds(m, t.left) && Holds(m, t.right) && m[dummy] == Cell(Ptr(t.right), Ptr(t.left))
    ensures var m3 := m[t.node := m[t.node].(left := m[dummy].right)];
            Holds(m3[t.node := m3[t.node].(right := m3[dummy].left)], t)
  {
    var c := m[t.node].(left := m[dummy].right);
    var m3 := m[t.node := c];
    NodeParts(t);
    TreeFrame(m, t.left, t.node, c);
    TreeFrame(m, t.right, t.node, c);
    TreeFrame(m3, t.left, t.node, c.(right := m3[dummy].left));
    TreeFrame(m3, t.right, t.node, c.(right := m3[dummy].left));
  }

  lemma AssembleHolds(m: Memory, dummy: Node, l: Spine, t: Tree, r: Spine)
    requires Mid(m, dummy, l, t, r) && t.Branch? && Latest(l, dummy) in m && Latest(r, dummy) in m
    ensures Holds(AssembleMemory(m, dummy, l, t, r), Assembled(l, t, r))
    ensures InOrder(Assembled(l, t, r)) == All(l, t, r)
  {
    var m1 := m[Latest(l, dummy) := m[Latest(l, dummy)].(right := m[t.node].left)];
    var m2 := m1[Latest(r, dummy) := m1[Latest(r, dummy)].(left := m1[t.node].right)];
    CloseLeftMid(m, dummy, l, t, r);
    CloseRightMid(m1, dummy, l, t, r);
    CloseLeftHolds(m2, dummy, l, t.left);
    CloseRightHolds(m2, dummy, r, t.right);
    AssembledOrder(l, t, r);
    DummyApart(l, t, r, dummy);
    RootTakes(m2, dummy, Assembled(l, t, r));
  }

  lemma DummyApart(l: Spine, t: Tree, r: Spine, dummy: Node)
    requires t.Branch? && Sorted(All(l, t, r)) && dummy !in All(l, t, r)
    ensures dummy != t.node
  {
    Parts(l, t, r);
    NodeParts(t);
  }
}
