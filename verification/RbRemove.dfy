/** RB_REMOVE (include/uv/tree.h:530-595). */
module RbRemove {
  import opened RbLinks
  import opened RbBalance
  import opened RbInsert
  import opened RbRemoveColor

  // ---------- Contexts one below the other ----------

  /** The context c continued by `base` where it ends. */
  function Plug(c: Ctx, base: Ctx): Ctx {
    match c
    case Top => base
    case InLeft(up, n, red, r) => InLeft(Plug(up, base), n, red, r)
    case InRight(up, l, n, red) => InRight(Plug(up, base), l, n, red)
  }

  lemma {:induction false} PlugHolds(m: Memory, root: Node?, c: Ctx, base: Ctx, t: Tree)
    ensures Holds(m, root, Plug(c, base), t) <==> Holds(m, root, base, Zip(c, t))
    decreases c
  {
    if !c.Top? {
      GoAcross(m, root, Plug(c, base), t);
      PlugHolds(m, root, c.up, base, Joined(c, t, c.red, Sibling(c)));
    }
  }

  lemma {:induction false} PlugFits(c: Ctx, l: Tree, n: Node, n': Node, red: bool, base: Ctx, bh: nat, r: bool)
    requires Fits(Plug(c, InRight(base, l, n, red)), bh, r)
    ensures Fits(Plug(c, InRight(base, l, n', red)), bh, r)
    decreases c
  {
    if !c.Top? {
      PlugFits(c.up, l, n, n', red, base, bh + (if c.red then 0 else 1), c.red);
    }
  }

  lemma {:induction false} PlugWhole(c: Ctx, base: Ctx, t: Tree)
    ensures Whole(Plug(c, base), t) == Whole(base, Zip(c, t))
    decreases c
  {
    if !c.Top? {
      JoinedOrder(Plug(c, base), t, t, c.red, Sibling(c));
      PlugWhole(c.up, base, Joined(c, t, c.red, Sibling(c)));
    }
  }

  /** Left all the way: nothing is in front of the position. */
  predicate Leftmost(c: Ctx) {
    c.Top? || (c.InLeft? && Leftmost(c.up))
  }

  // ---------- Taking out a node with at most one child ----------

  /** The only child of a node that has at most one. */
  function OnlyChild(t: Tree): Tree
    requires t.Branch?
  {
    if t.left.Leaf? then t.right else t.left
  }

  lemma Spliced(m: Memory, root: Node?, m': Memory, root': Node?, c: Ctx, t: Tree)
    requires Holds(m, root, c, t) && t.Branch? && (t.left.Leaf? || t.right.Leaf?)
    requires (SpliceAt(m, root, c, t); m' == Unlinked(m, t.node, Ptr(OnlyChild(t)), Above(c)))
    requires root' == if c.Top? then Ptr(OnlyChild(t)) else root
    ensures Holds(m', root', c, OnlyChild(t))
  {
    var ct := OnlyChild(t);
    SpliceAt(m, root, c, t);
    UnlinkedCells(m, t.node, Ptr(ct), Above(c), c.InLeft?);
    SpliceSame(m, m', c, ct, t.node);
    Rehung(m, m', ct, t.node, Above(c));
    Refilled(m, m', c, t.node, Ptr(ct));
  }

  /** The assignments of a splice: elm goes, and its child takes its place under p. */
  ghost function Unlinked(m: Memory, elm: Node, child: Node?, p: Node?): Memory
    requires (child != null ==> child in m) && (p != null ==> p in m)
  {
    Repointed(Adopted(m, child, p), p, elm, child) - {elm}
  }

  lemma UnlinkedCells(m: Memory, elm: Node, child: Node?, p: Node?, onLeft: bool)
    requires elm in m && (child != null ==> child in m && child != elm && child != p)
    requires p != null ==> p in m && p != elm && (m[p].left == elm <==> onLeft)
    ensures var m' := Unlinked(m, elm, child, p);
            && m'.Keys == m.Keys - {elm}
            && (child != null ==> m'[child] == m[child].(parent := p))
            && (p != null ==> m'[p] == if onLeft then m[p].(left := child) else m[p].(right := child))
            && forall n :: n in m && n != elm && n != child && n != p ==> n in m' && m'[n] == m[n]
  {
  }

  /** The nodes around a splice are all different. */
  lemma SpliceAt(m: Memory, root: Node?, c: Ctx, t: Tree)
    requires Holds(m, root, c, t) && t.Branch? && (t.left.Leaf? || t.right.Leaf?)
    ensures var ct := OnlyChild(t);
            && t.node in m && m[t.node].parent == Above(c) && Linked(m, ct, t.node) && Apart(ct)
            && Nodes(ct) !! CtxNodes(c) && Nodes(ct) + CtxNodes(c) == m.Keys - {t.node}
            && (ct.Branch? ==> ct.node in m && ct.node != t.node && ct.node != Above(c))
    ensures !c.Top? ==> c.node in m && c.node != t.node && (m[c.node].left == t.node <==> c.InLeft?)
  {
    var ct := OnlyChild(t);
    assert Nodes(t) == {t.node} + Nodes(ct);
    WhichSide(m, root, c, t);
    AboveIn(c);
    PtrIn(ct);
  }

  lemma SpliceSame(m: Memory, m': Memory, c: Ctx, ct: Tree, o: Node)
    requires Nodes(ct) !! CtxNodes(c) && o !in Nodes(ct) && o !in CtxNodes(c)
    requires forall n :: n in m && n != o && n != Ptr(ct) && n != Above(c) ==> n in m' && m'[n] == m[n]
    ensures Same(m, m', Nodes(ct) - {Ptr(ct)}) && Same(m, m', CtxNodes(c) - {Above(c)})
  {
    AboveIn(c);
    PtrIn(ct);
  }

  /** Lines 545 to 556, and 579 to 590. */
  method Splice(head: Head, elm: Node, child: Node?, ghost c: Ctx, ghost t: Tree) returns (parent: Node?)
    requires head.At(c, t) && t.Branch? && t.node == elm && (t.left.Leaf? || t.right.Leaf?)
    requires child == Ptr(OnlyChild(t))
    modifies head`root, head`nodes, head.nodes
    ensures head.nodes == old(head.nodes) - {elm} && parent == Above(c) && head.At(c, OnlyChild(t))
    ensures elm.left == old(elm.left) && elm.right == old(elm.right)
  {
    ghost var m, r := head.Mem(), head.root;
    SpliceAt(m, r, c, t);
    parent := elm.parent;
    Unlink(head, elm, child, parent);
    Spliced(m, r, head.Mem(), head.root, c, t);
  }

  /** Lines 547 to 556. */
  method Unlink(head: Head, elm: Node, child: Node?, parent: Node?)
    requires elm in head.nodes && (child != null ==> child in head.nodes) && (parent != null ==> parent in head.nodes)
    modifies head`root, head`nodes
    modifies (if child == null then {} else {child})`parent
    modifies (if parent == null then {} else {parent})`left, (if parent == null then {} else {parent})`right
    ensures head.nodes == old(head.nodes) - {elm} && head.Mem() == Unlinked(old(head.Mem()), elm, child, parent)
    ensures head.root == if parent == null then child else old(head.root)
  {
    head.Adopt(child, parent);
    head.Redirect(parent, elm, child);
    Forget(head, elm);
  }

  /** What is missing once a node with at most one child is out. */
  lemma AfterSplice(c: Ctx, t: Tree, order: seq<Node>)
    requires Within(c, t, order) && t.Branch? && (t.left.Leaf? || t.right.Leaf?)
    ensures var ct, order' := OnlyChild(t), Whole(c, OnlyChild(t));
            if t.red then Settled(c, ct, order') else Short(c, ct, order')
  {
    assert Balanced(OnlyChild(t));
    if t.red {
      FitsBlack(c, BlackHeight(t), true);
    }
  }

  // ---------- Putting one node in the place of another ----------

  lemma SubstitutedCovers(nodes: set<Node>, c: Ctx, l: Tree, old': Node, red: bool, r: Tree, elm: Node)
    requires Covers(nodes, c, Branch(l, old', red, r)) && elm !in nodes
    ensures Covers(nodes - {old'} + {elm}, c, Branch(l, elm, red, r))
    ensures Apart(l) && Apart(r) && CtxApart(c)
  {
    assert Nodes(Branch(l, old', red, r)) == Nodes(l) + {old'} + Nodes(r);
    assert Nodes(Branch(l, elm, red, r)) == Nodes(l) + {elm} + Nodes(r);
  }

  lemma Substituted(m: Memory, root: Node?, m': Memory, root': Node?, c: Ctx, l: Tree, old': Node, red: bool, r: Tree, elm: Node)
    requires Holds(m, root, c, Branch(l, old', red, r)) && elm !in m
    requires m'.Keys == m.Keys - {old'} + {elm} && old' in m && m'[elm] == m[old']
    requires l.Branch? ==> l.node in m && l.node in m' && m'[l.node] == m[l.node].(parent := elm)
    requires r.Branch? ==> r.node in m && r.node in m' && m'[r.node] == m[r.node].(parent := elm)
    requires Redirected(m, root, m', root', c, elm)
    requires Same(m, m', Nodes(l) - {Ptr(l)}) && Same(m, m', Nodes(r) - {Ptr(r)}) && Same(m, m', CtxNodes(c) - {Above(c)})
    ensures Holds(m', root', c, Branch(l, elm, red, r))
  {
    SubstitutedCovers(m.Keys, c, l, old', red, r, elm);
    Rehung(m, m', l, old', elm);
    Rehung(m, m', r, old', elm);
    Refilled(m, m', c, old', elm);
  }

  lemma Parts(nodes: set<Node>, c: Ctx, l: Tree, n: Node, red: bool, r: Tree)
    requires Covers(nodes, c, Branch(l, n, red, r))
    ensures Nodes(l) !! Nodes(r) && CtxNodes(c) !! Nodes(l) + Nodes(r) && n !in Nodes(l) + Nodes(r) + CtxNodes(c)
    ensures Nodes(l) <= nodes && Nodes(r) <= nodes && CtxNodes(c) <= nodes
  {
    assert Nodes(Branch(l, n, red, r)) == Nodes(l) + {n} + Nodes(r);
  }

  /** The assignments of the exchange, o being the old node, with children l and r and parent p. */
  ghost function Exchanged(m: Memory, o: Node, elm: Node, l: Node, r: Node?, p: Node?): Memory
    requires o in m && l in m && (r != null ==> r in m) && (p != null ==> p in m)
  {
    Adopted(Adopted(Repointed(m[elm := m[o]], p, o, elm), l, elm), r, elm) - {o}
  }

  /** The nodes around an exchange are all different. */
  ghost predicate Exchange(m: Memory, o: Node, elm: Node, l: Node, r: Node?, p: Node?) {
    && o in m && elm !in m && l in m && l != o && (r != null ==> r in m && r != o && r != l)
    && (p != null ==> p in m && p != o && p != l && p != r)
    && m[o].left == l && m[o].right == r && m[o].parent == p
  }

  lemma ExchangedCells(m: Memory, o: Node, elm: Node, l: Node, r: Node?, p: Node?, onLeft: bool)
    requires Exchange(m, o, elm, l, r, p) && (p != null ==> (m[p].left == o <==> onLeft))
    ensures var m' := Exchanged(m, o, elm, l, r, p);
            && m'.Keys == m.Keys - {o} + {elm}
            && m'[elm] == m[o] && m'[l] == m[l].(parent := elm)
            && (r != null ==> m'[r] == m[r].(parent := elm))
            && (p != null ==> m'[p] == if onLeft then m[p].(left := elm) else m[p].(right := elm))
            && forall n :: n in m && n != o && n != l && n != r && n != p ==> n in m' && m'[n] == m[n]
  {
  }

  lemma ExchangeAt(m: Memory, root: Node?, c: Ctx, l: Tree, o: Node, red: bool, r: Tree, elm: Node)
    requires Holds(m, root, c, Branch(l, o, red, r)) && elm !in m && l.Branch?
    ensures Exchange(m, o, elm, l.node, Ptr(r), Above(c)) && (!c.Top? ==> (m[c.node].left == o <==> c.InLeft?))
  {
    Parts(m.Keys, c, l, o, red, r);
    WhichSide(m, root, c, Branch(l, o, red, r));
    PtrIn(l);
    PtrIn(r);
    AboveIn(c);
  }

  lemma ExchangeSame(m: Memory, m': Memory, c: Ctx, l: Tree, o: Node, red: bool, r: Tree)
    requires Covers(m.Keys, c, Branch(l, o, red, r))
    requires forall n :: n in m && n != o && n != Ptr(l) && n != Ptr(r) && n != Above(c) ==> n in m' && m'[n] == m[n]
    ensures Same(m, m', Nodes(l) - {Ptr(l)}) && Same(m, m', Nodes(r) - {Ptr(r)}) && Same(m, m', CtxNodes(c) - {Above(c)})
  {
    Parts(m.Keys, c, l, o, red, r);
    PtrIn(l);
    PtrIn(r);
    AboveIn(c);
    SameBut(m, m', o, Ptr(l), Ptr(r), Above(c), Nodes(l) - {Ptr(l)});
    SameBut(m, m', o, Ptr(l), Ptr(r), Above(c), Nodes(r) - {Ptr(r)});
    SameBut(m, m', o, Ptr(l), Ptr(r), Above(c), CtxNodes(c) - {Above(c)});
  }

  lemma SameBut(m: Memory, m': Memory, o: Node, l: Node?, r: Node?, p: Node?, ns: set<Node>)
    requires forall n :: n in m && n != o && n != l && n != r && n != p ==> n in m' && m'[n] == m[n]
    requires o !in ns && (l != null ==> l !in ns) && (r != null ==> r !in ns) && (p != null ==> p !in ns)
    ensures Same(m, m', ns)
  {
  }

  /** Line 559: elm takes over the fields of o. */
  method CopyFields(head: Head, o: Node, elm: Node)
    requires o in head.nodes && elm !in head.nodes
    modifies head`nodes, elm
    ensures head.nodes == old(head.nodes) + {elm} && head.Mem() == old(head.Mem())[elm := old(head.Mem())[o]]
  {
    elm.left, elm.right, elm.parent := o.left, o.right, o.parent;
    elm.red := o.red;
    head.nodes := head.nodes + {elm};
  }

  ghost method Forget(head: Head, o: Node)
    requires o in head.nodes
    modifies head`nodes
    ensures head.nodes == old(head.nodes) - {o} && head.Mem() == old(head.Mem()) - {o}
  {
    head.nodes := head.nodes - {o};
  }

  /** Lines 559 to 567. */
  method TakePlace(head: Head, o: Node, elm: Node)
    requires o in head.nodes && elm !in head.nodes && (o.parent != null ==> o.parent in head.nodes && o.parent != o)
    modifies head`root, head`nodes, elm
    modifies (if o.parent == null then {} else {o.parent})`left, (if o.parent == null then {} else {o.parent})`right
    ensures head.nodes == old(head.nodes) + {elm}
    ensures var m := old(head.Mem()); head.Mem() == Repointed(m[elm := m[o]], m[o].parent, o, elm)
    ensures head.root == if old(o.parent) == null then elm else old(head.root)
    ensures o.left == old(o.left) && o.right == old(o.right)
  {
    CopyFields(head, o, elm);
    head.Redirect(o.parent, o, elm);
  }

  lemma OneForOther(s: set<Node>, o: Node, e: Node)
    requires o in s
    ensures e !in s ==> s + {e} - {o} == s - {o} + {e}
    ensures e in s && e != o ==> s - {e} - {o} + {e} == s - {o}
  {
  }

  /** Lines 568 to 570. */
  method AdoptBoth(head: Head, o: Node, elm: Node)
    requires (o.left != null ==> o.left in head.nodes) && (o.right != null ==> o.right in head.nodes)
    modifies (if o.left == null then {} else {o.left})`parent, (if o.right == null then {} else {o.right})`parent
    ensures head.Mem() == Adopted(Adopted(old(head.Mem()), o.left, elm), o.right, elm)
  {
    head.Adopt(o.left, elm);
    head.Adopt(o.right, elm);
  }

  /** The assignments of lines 559 to 570. */
  method Swap(head: Head, o: Node, elm: Node)
    requires o in head.nodes && elm !in head.nodes && o.left in head.nodes && o.left != o
    requires o.right != null ==> o.right in head.nodes && o.right != o
    requires o.parent != null ==> o.parent in head.nodes && o.parent != o
    modifies head`root, head`nodes, head.nodes, elm
    ensures head.nodes == old(head.nodes) - {o} + {elm}
    ensures head.Mem() == Exchanged(old(head.Mem()), o, elm, old(o.left), old(o.right), old(o.parent))
    ensures head.root == if old(o.parent) == null then elm else old(head.root)
  {
    OneForOther(head.nodes, o, elm);
    TakePlace(head, o, elm);
    AdoptBoth(head, o, elm);
    Forget(head, o);
  }

  method Substitute(head: Head, o: Node, elm: Node, ghost c: Ctx, ghost l: Tree, ghost red: bool, ghost r: Tree)
    requires head.At(c, Branch(l, o, red, r)) && elm !in head.nodes && l.Branch?
    modifies head`root, head`nodes, head.nodes, elm
    ensures head.nodes == old(head.nodes) - {o} + {elm} && head.At(c, Branch(l, elm, red, r))
  {
    ghost var m, rt := head.Mem(), head.root;
    ExchangeAt(m, rt, c, l, o, red, r, elm);
    WhichSide(m, rt, c, Branch(l, o, red, r));
    Swap(head, o, elm);
    ExchangedCells(m, o, elm, l.node, Ptr(r), Above(c), c.InLeft?);
    ExchangeSame(m, head.Mem(), c, l, o, red, r);
    Substituted(m, rt, head.Mem(), head.root, c, l, o, red, r, elm);
  }

  // ---------- RB_REMOVE ----------

  /** Every node of the tree is at some position of it. */
  lemma {:induction false} Locate(m: Memory, root: Node?, c0: Ctx, t0: Tree, order: seq<Node>, elm: Node) returns (c: Ctx, t: Tree)
    requires Holds(m, root, c0, t0) && Within(c0, t0, order) && elm in Nodes(t0)
    ensures Holds(m, root, c, t) && Within(c, t, order) && t.Branch? && t.node == elm
    decreases t0
  {
    c, t := c0, t0;
    if elm in Nodes(t0.left) {
      StepLeft(c0, t0, order);
      LeftOf(m, root, c0, t0.left, t0.node, t0.red, t0.right);
      c, t := Locate(m, root, InLeft(c0, t0.node, t0.red, t0.right), t0.left, order, elm);
    } else if elm in Nodes(t0.right) {
      StepRight(c0, t0, order);
      RightOf(m, root, c0, t0.left, t0.node, t0.red, t0.right);
      c, t := Locate(m, root, InRight(c0, t0.left, t0.node, t0.red), t0.right, order, elm);
    }
  }

  /** Lines 541 to 543: the leftmost node below the right child. */
  method Successor(head: Head, o: Node, ghost c: Ctx, ghost t: Tree, ghost order: seq<Node>)
    returns (elm: Node, ghost rel: Ctx, ghost st: Tree)
    requires head.At(c, t) && Within(c, t, order) && t.Branch? && t.node == o && t.right.Branch?
    ensures var cs := Plug(rel, InRight(c, t.left, o, t.red));
            head.At(cs, st) && Within(cs, st, order) && Leftmost(rel) && Zip(rel, st) == t.right
    ensures st.Branch? && st.node == elm && st.left.Leaf? && elm != o
  {
    ghost var base := InRight(c, t.left, o, t.red);
    WhichSide(head.Mem(), head.root, c, t);
    StepRight(c, t, order);
    RightOf(head.Mem(), head.root, c, t.left, o, t.red, t.right);
    elm, rel, st := LeftmostOf(head, o.right, base, t.right, order);
    PlugNodes(rel, base);
    PtrIn(st);
  }

  /** Line 542. */
  method LeftmostOf(head: Head, elm0: Node, ghost base: Ctx, ghost t: Tree, ghost order: seq<Node>)
    returns (elm: Node, ghost rel: Ctx, ghost st: Tree)
    requires head.At(base, t) && Within(base, t, order) && t.Branch? && t.node == elm0
    ensures head.At(Plug(rel, base), st) && Within(Plug(rel, base), st, order) && Leftmost(rel) && Zip(rel, st) == t
    ensures st.Branch? && st.node == elm && st.left.Leaf?
  {
    elm := elm0;
    rel, st := Top, t;
    WhichSide(head.Mem(), head.root, base, st);
    while elm.left != null
      invariant head.At(Plug(rel, base), st) && Within(Plug(rel, base), st, order) && Leftmost(rel) && Zip(rel, st) == t
      invariant st.Branch? && st.node == elm && elm in head.nodes && elm.left == Ptr(st.left)
      decreases st
    {
      DownLeft(head.Mem(), head.root, rel, base, st, order);
      elm := elm.left;
      rel, st := InLeft(rel, st.node, st.red, st.right), st.left;
    }
  }

  lemma DownLeft(m: Memory, root: Node?, rel: Ctx, base: Ctx, st: Tree, order: seq<Node>)
    requires Holds(m, root, Plug(rel, base), st) && Within(Plug(rel, base), st, order) && st.Branch? && st.left.Branch?
    ensures var rel' := InLeft(rel, st.node, st.red, st.right);
            Holds(m, root, Plug(rel', base), st.left) && Within(Plug(rel', base), st.left, order) && Zip(rel', st.left) == Zip(rel, st)
    ensures st.left.node in m && m[st.left.node].left == Ptr(st.left.left)
  {
    StepLeft(Plug(rel, base), st, order);
    LeftOf(m, root, Plug(rel, base), st.left, st.node, st.red, st.right);
    WhichSide(m, root, InLeft(Plug(rel, base), st.node, st.red, st.right), st.left);
  }

  /** s' is s without e. */
  ghost predicate Removed(s: seq<Node>, s': seq<Node>, e: Node) {
    exists i :: 0 <= i < |s| && s[i] == e && s' == s[..i] + s[i + 1..]
  }

  lemma RemovedBetween(a: seq<Node>, e: Node, b: seq<Node>)
    ensures Removed(a + [e] + b, a + b, e)
    ensures Sorted(a + [e] + b) ==> Sorted(a + b)
  {
    var s := a + [e] + b;
    assert s[|a|] == e && s[..|a|] == a && s[|a| + 1..] == b;
    assert forall i :: 0 <= i < |a + b| ==> (a + b)[i] == s[if i < |a| then i else i + 1];
  }

  lemma {:induction false} LeftmostFirst(c: Ctx, n: Node, red: bool, r: Tree)
    requires Leftmost(c)
    ensures InOrder(Zip(c, Branch(Leaf, n, red, r))) == [n] + InOrder(Zip(c, r))
  {
    ZipWhole(c, Branch(Leaf, n, red, r));
    ZipWhole(c, r);
    assert InOrder(Branch(Leaf, n, red, r)) == [n] + InOrder(r);
    LeftmostBefore(c);
  }

  lemma {:induction false} LeftmostBefore(c: Ctx)
    requires Leftmost(c)
    ensures Before(c) == []
  {
    if !c.Top? {
      LeftmostBefore(c.up);
    }
  }

  /** Lines 591 to 593, the label `color`. */
  method Recolor(head: Head, red: bool, parent: Node?, child: Node?, ghost c: Ctx, ghost ct: Tree, ghost order: seq<Node>)
    returns (ghost whole: Tree)
    requires head.At(c, ct) && parent == Above(c) && child == Ptr(ct)
    requires if red then Settled(c, ct, order) else Short(c, ct, order)
    modifies head`root, head.nodes
    ensures head.At(Top, whole) && RedBlack(whole) && InOrder(whole) == order
  {
    if !red {
      whole := RemoveColor(head, parent, child, c, ct, order);
    } else {
      whole := Zip(c, ct);
      ZipHolds(head.Mem(), head.root, c, ct);
      ZipOut(c, ct);
      ZipWhole(c, ct);
    }
  }

  /** Lines 535 to 538 with 579 to 593: at most one child. */
  method RemoveOne(head: Head, elm: Node, child: Node?, ghost c: Ctx, ghost t: Tree, ghost order: seq<Node>) returns (ghost whole: Tree)
    requires head.At(c, t) && Within(c, t, order) && t.Branch? && t.node == elm && (t.left.Leaf? || t.right.Leaf?)
    requires child == Ptr(OnlyChild(t)) && elm.red == t.red
    modifies head`root, head`nodes, head.nodes
    ensures head.nodes == old(head.nodes) - {elm}
    ensures head.At(Top, whole) && RedBlack(whole) && InOrder(whole) == Whole(c, OnlyChild(t))
  {
    AfterSplice(c, t, order);
    var color := elm.red;
    var parent := Splice(head, elm, child, c, t);
    whole := Recolor(head, color, parent, child, c, OnlyChild(t), Whole(c, OnlyChild(t)));
  }

  lemma Regroup(a: seq<Node>, n: Node, b: seq<Node>, d: seq<Node>)
    ensures (a + [n]) + b + d == a + ([n] + b) + d
  {
  }

  lemma ReplacedOrder(c: Ctx, l: Tree, red: bool, rel: Ctx, st: Tree)
    requires st.Branch? && st.left.Leaf? && Leftmost(rel)
    ensures Whole(Plug(rel, InRight(c, l, st.node, red)), st.right) == Before(c) + InOrder(l) + InOrder(Zip(rel, st)) + Behind(c)
  {
    var c1, rest := InRight(c, l, st.node, red), Zip(rel, st.right);
    PlugWhole(rel, c1, st.right);
    LeftmostFirst(rel, st.node, st.red, st.right);
    assert Whole(c1, rest) == (Before(c) + InOrder(l) + [st.node]) + InOrder(rest) + Behind(c);
    Regroup(Before(c) + InOrder(l), st.node, InOrder(rest), Behind(c));
  }

  /** The position of the fix-up once the successor has taken the place of the node removed. */
  lemma Replaced(c: Ctx, l: Tree, o: Node, red: bool, rel: Ctx, st: Tree, order: seq<Node>, order': seq<Node>)
    requires st.Branch? && st.left.Leaf? && Within(Plug(rel, InRight(c, l, o, red)), st, order)
    requires Whole(Plug(rel, InRight(c, l, st.node, red)), st.right) == order'
    ensures var c' := Plug(rel, InRight(c, l, st.node, red));
            if st.red then Settled(c', st.right, order') else Short(c', st.right, order')
  {
    AfterSplice(Plug(rel, InRight(c, l, o, red)), st, order);
    PlugNotTop(rel, InRight(c, l, o, red));
    if st.red {
      PlugFits(rel, l, o, st.node, red, c, BlackHeight(st.right), Red(st.right));
    } else {
      PlugFits(rel, l, o, st.node, red, c, BlackHeight(st.right) + 1, false);
    }
  }

  lemma PlugNotTop(c: Ctx, base: Ctx)
    requires !base.Top?
    ensures !Plug(c, base).Top?
  {
  }

  /** The parent of the spliced position is the node removed exactly when the successor was its child. */
  lemma PlugAbove(nodes: set<Node>, rel: Ctx, base: Ctx, t: Tree)
    requires Covers(nodes, Plug(rel, base), t) && !base.Top?
    ensures Above(Plug(rel, base)) == base.node <==> rel.Top?
  {
    if !rel.Top? {
      PlugNodes(rel.up, base);
    }
  }

  lemma InCtx(nodes: set<Node>, rel: Ctx, base: Ctx, t: Tree)
    requires Covers(nodes, Plug(rel, base), t) && !base.Top?
    ensures base.node in nodes
  {
    PlugNodes(rel, base);
  }

  lemma {:induction false} PlugNodes(rel: Ctx, base: Ctx)
    requires !base.Top?
    ensures base.node in CtxNodes(Plug(rel, base))
  {
    if !rel.Top? {
      PlugNodes(rel.up, base);
    }
  }

  /** Lines 544 to 570: the successor elm is spliced out and takes the place of o. */
  method MoveUp(head: Head, o: Node, elm: Node, ghost c: Ctx, ghost l: Tree, ghost red: bool, ghost rel: Ctx, ghost st: Tree)
    returns (parent: Node?)
    requires head.At(Plug(rel, InRight(c, l, o, red)), st) && o != elm
    requires st.Branch? && st.node == elm && st.left.Leaf? && l.Branch?
    modifies head`root, head`nodes, head.nodes
    ensures head.nodes == old(head.nodes) - {o}
    ensures var c' := Plug(rel, InRight(c, l, elm, red)); head.At(c', st.right) && parent == Above(c')
  {
    ghost var base, base' := InRight(c, l, o, red), InRight(c, l, elm, red);
    PlugAbove(head.nodes, rel, base, st);
    PlugAbove'(rel, base, base');
    WhichSide(head.Mem(), head.root, Plug(rel, base), st);
    InCtx(head.nodes, rel, base, st);
    OneForOther(head.nodes, o, elm);
    parent := Splice(head, elm, elm.right, Plug(rel, base), st);
    if parent == o {
      parent := elm;
    }
    Exchanging(head, o, elm, c, l, red, rel, st.right);
  }

  /** Lines 540 to 577, and the label `color`: two children. */
  method RemoveTwo(head: Head, o: Node, ghost c: Ctx, ghost t: Tree, ghost order: seq<Node>) returns (ghost whole: Tree)
    requires head.At(c, t) && Within(c, t, order) && t.Branch? && t.node == o && t.left.Branch? && t.right.Branch?
    modifies head`root, head`nodes, head.nodes
    ensures head.nodes == old(head.nodes) - {o}
    ensures head.At(Top, whole) && RedBlack(whole)
    ensures InOrder(whole) == Before(c) + InOrder(t.left) + InOrder(t.right) + Behind(c)
  {
    var elm, rel, st := Successor(head, o, c, t, order);
    ReplacedOrder(c, t.left, t.red, rel, st);
    Replaced(c, t.left, o, t.red, rel, st, order, Before(c) + InOrder(t.left) + InOrder(t.right) + Behind(c));
    WhichSide(head.Mem(), head.root, Plug(rel, InRight(c, t.left, o, t.red)), st);
    var color, child := elm.red, elm.right;
    var parent := MoveUp(head, o, elm, c, t.left, t.red, rel, st);
    whole := Recolor(head, color, parent, child, Plug(rel, InRight(c, t.left, elm, t.red)), st.right,
                     Before(c) + InOrder(t.left) + InOrder(t.right) + Behind(c));
  }

  lemma PlugAbove'(rel: Ctx, base: Ctx, base': Ctx)
    requires !base.Top? && !base'.Top?
    ensures Above(Plug(rel, base')) == if rel.Top? then base'.node else Above(Plug(rel, base))
  {
  }

  /** Lines 559 to 570, seen from the position of the fix-up. */
  method Exchanging(head: Head, o: Node, elm: Node, ghost c: Ctx, ghost l: Tree, ghost red: bool, ghost rel: Ctx, ghost ct: Tree)
    requires head.At(Plug(rel, InRight(c, l, o, red)), ct) && elm !in head.nodes && l.Branch?
    modifies head`root, head`nodes, head.nodes, elm
    ensures head.nodes == old(head.nodes) - {o} + {elm}
    ensures head.At(Plug(rel, InRight(c, l, elm, red)), ct)
  {
    ghost var r := Zip(rel, ct);
    PlugHolds(head.Mem(), head.root, rel, InRight(c, l, o, red), ct);
    RightOf(head.Mem(), head.root, c, l, o, red, r);
    Substitute(head, o, elm, c, l, red, r);
    RightOf(head.Mem(), head.root, c, l, elm, red, r);
    PlugHolds(head.Mem(), head.root, rel, InRight(c, l, elm, red), ct);
  }

  /** The cases of lines 535 to 539. */
  method RemoveAt(head: Head, elm: Node, ghost c: Ctx, ghost t: Tree, ghost order: seq<Node>) returns (ghost whole: Tree)
    requires head.At(c, t) && Within(c, t, order) && t.Branch? && t.node == elm
    modifies head`root, head`nodes, head.nodes
    ensures head.nodes == old(head.nodes) - {elm}
    ensures head.At(Top, whole) && RedBlack(whole)
    ensures InOrder(whole) == Before(c) + InOrder(t.left) + InOrder(t.right) + Behind(c)
  {
    WhichSide(head.Mem(), head.root, c, t);
    RemovedOrder(c, t, order);
    if elm.left == null {
      whole := RemoveOne(head, elm, elm.right, c, t, order);
    } else if elm.right == null {
      whole := RemoveOne(head, elm, elm.left, c, t, order);
    } else {
      whole := RemoveTwo(head, elm, c, t, order);
    }
  }

  /** RB_REMOVE: elm leaves the tree, everything else stays, in order, and the tree is red-black again. */
  method Remove(head: Head, elm: Node) returns (res: Node)
    requires Valid(head) && elm in head.nodes
    modifies head, head.nodes
    ensures Valid(head) && res == elm
    ensures head.nodes == old(head.nodes) - {elm} && Removed(old(Elements(head)), Elements(head), elm)
  {
    ghost var order := Elements(head);
    ghost var c, t := Locate(head.Mem(), head.root, Top, head.tree, order, elm);
    RemovedOrder(c, t, order);
    ghost var whole := RemoveAt(head, elm, c, t, order);
    Keep(head, whole, Before(c) + InOrder(t.left) + InOrder(t.right) + Behind(c));
    res := elm;
  }

  lemma RemovedOrder(c: Ctx, t: Tree, order: seq<Node>)
    requires Within(c, t, order) && t.Branch?
    ensures var order' := Before(c) + InOrder(t.left) + InOrder(t.right) + Behind(c);
            && Removed(order, order', t.node) && Sorted(order')
            && (t.left.Leaf? || t.right.Leaf? ==> Whole(c, OnlyChild(t)) == order')
  {
    Regroup'(Before(c), InOrder(t.left), t.node, InOrder(t.right), Behind(c));
    RemovedBetween(Before(c) + InOrder(t.left), t.node, InOrder(t.right) + Behind(c));
  }

  lemma Regroup'(a: seq<Node>, b: seq<Node>, n: Node, d: seq<Node>, e: seq<Node>)
    ensures a + (b + [n] + d) + e == (a + b) + [n] + (d + e)
    ensures a + b + d + e == (a + b) + (d + e)
    ensures a + b + [] + e == a + b + e && a + [] + d + e == a + d + e
  {
  }
}
