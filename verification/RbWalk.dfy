/** RB_FIND, RB_NFIND, RB_NEXT, RB_PREV, RB_MINMAX, RB_FOREACH and RB_FOREACH_REVERSE (include/uv/tree.h:628-756). */
module RbWalk {
  import opened Arithmetic
  import opened RbLinks
  import opened RbBalance
  import opened RbRemove

  function First(s: seq<Node>): Node? {
    if s == [] then null else s[0]
  }

  function Last(s: seq<Node>): Node? {
    if s == [] then null else s[|s| - 1]
  }

  /** res comes right behind elm in the order, or is NULL if nothing does. */
  ghost predicate IsNext(order: seq<Node>, elm: Node, res: Node?) {
    forall i :: 0 <= i < |order| && order[i] == elm ==> res == First(order[i + 1..])
  }

  ghost predicate IsPrev(order: seq<Node>, elm: Node, res: Node?) {
    forall i :: 0 <= i < |order| && order[i] == elm ==> res == Last(order[..i])
  }

  lemma Neighbours(a: seq<Node>, n: Node, b: seq<Node>, order: seq<Node>)
    requires Sorted(order) && order == a + [n] + b
    ensures IsNext(order, n, First(b)) && IsPrev(order, n, Last(a)) && n in order
  {
    assert order[|a|] == n && order[|a| + 1..] == b && order[..|a|] == a;
    forall i | 0 <= i < |order| && order[i] == n ensures i == |a| {
    }
  }

  /** A position, cut out of the order. */
  lemma AtPosition(c: Ctx, t: Tree, order: seq<Node>)
    requires Within(c, t, order) && t.Branch?
    ensures IsNext(order, t.node, First(InOrder(t.right) + Behind(c))) && IsPrev(order, t.node, Last(Before(c) + InOrder(t.left)))
    ensures t.node in order
  {
    Regroup'(Before(c), InOrder(t.left), t.node, InOrder(t.right), Behind(c));
    Neighbours(Before(c) + InOrder(t.left), t.node, InOrder(t.right) + Behind(c), order);
  }

  lemma FirstOf(t: Tree, rest: seq<Node>)
    requires t.Branch?
    ensures t.left.Leaf? ==> First(InOrder(t) + rest) == t.node
    ensures t.left.Branch? ==> First(InOrder(t) + rest) == First(InOrder(t.left) + ([t.node] + InOrder(t.right) + rest))
  {
    Split(InOrder(t.left), t.node, InOrder(t.right), rest);
  }

  lemma LastOf(t: Tree, front: seq<Node>)
    requires t.Branch?
    ensures t.right.Leaf? ==> Last(front + InOrder(t)) == t.node
    ensures t.right.Branch? ==> Last(front + InOrder(t)) == Last((front + InOrder(t.left) + [t.node]) + InOrder(t.right))
  {
    SplitBack(front, InOrder(t.left), t.node, InOrder(t.right));
  }

  lemma Split(a: seq<Node>, n: Node, b: seq<Node>, rest: seq<Node>)
    ensures (a + [n] + b) + rest == a + ([n] + b + rest) && (a == [] ==> First((a + [n] + b) + rest) == n)
  {
  }

  lemma SplitBack(front: seq<Node>, a: seq<Node>, n: Node, b: seq<Node>)
    ensures front + (a + [n] + b) == (front + a + [n]) + b && (b == [] ==> Last(front + (a + [n] + b)) == n)
  {
  }

  /** RB_NEXT. */
  method Next(head: Head, elm0: Node) returns (elm: Node?)
    requires Valid(head) && elm0 in head.nodes
    ensures IsNext(Elements(head), elm0, elm) && (elm != null ==> elm in head.nodes)
  {
    ghost var c, t := Locate(head.Mem(), head.root, Top, head.tree, Elements(head), elm0);
    AtPosition(c, t, Elements(head));
    WhichSide(head.Mem(), head.root, c, t);
    elm := elm0;
    if elm.right != null {
      ghost var rest := Behind(c);
      RightOf(head.Mem(), head.root, c, t.left, t.node, t.red, t.right);
      elm := elm.right;
      c, t := InRight(c, t.left, t.node, t.red), t.right;
      WhichSide(head.Mem(), head.root, c, t);
      while elm.left != null
        invariant head.At(c, t) && t.Branch? && t.node == elm && elm in head.nodes && elm.left == Ptr(t.left)
        invariant IsNext(Elements(head), elm0, First(InOrder(t) + rest))
        decreases t
      {
        FirstOf(t, rest);
        LeftOf(head.Mem(), head.root, c, t.left, t.node, t.red, t.right);
        rest := [t.node] + InOrder(t.right) + rest;
        elm := elm.left;
        c, t := InLeft(c, t.node, t.red, t.right), t.left;
        WhichSide(head.Mem(), head.root, c, t);
      }
      FirstOf(t, rest);
    } else {
      elm := Climb(head, elm0, c, t);
    }
  }

  /** Lines 676 to 684. */
  method Climb(head: Head, elm0: Node, ghost c0: Ctx, ghost t0: Tree) returns (elm: Node?)
    requires head.At(c0, t0) && t0.Branch? && t0.node == elm0
    ensures elm == First(Behind(c0)) && (elm != null ==> elm in head.nodes)
  {
    ghost var c, t := c0, t0;
    elm := elm0;
    WhichSide(head.Mem(), head.root, c, t);
    if elm.parent != null && elm == elm.parent.left {
      elm := elm.parent;
    } else {
      while elm.parent != null && elm == elm.parent.right
        invariant head.At(c, t) && t.Branch? && t.node == elm && Behind(c) == Behind(c0)
        invariant elm.parent == Above(c) && (!c.Top? ==> c.node in head.nodes && (c.node.right == elm <==> c.InRight?))
        decreases c
      {
        GoAcross(head.Mem(), head.root, c, t);
        elm := elm.parent;
        c, t := c.up, Joined(c, t, c.red, Sibling(c));
        WhichSide(head.Mem(), head.root, c, t);
      }
      elm := elm.parent;
    }
  }

  /** RB_PREV. */
  method Prev(head: Head, elm0: Node) returns (elm: Node?)
    requires Valid(head) && elm0 in head.nodes
    ensures IsPrev(Elements(head), elm0, elm) && (elm != null ==> elm in head.nodes)
  {
    ghost var c, t := Locate(head.Mem(), head.root, Top, head.tree, Elements(head), elm0);
    AtPosition(c, t, Elements(head));
    WhichSide(head.Mem(), head.root, c, t);
    elm := elm0;
    if elm.left != null {
      ghost var front := Before(c);
      LeftOf(head.Mem(), head.root, c, t.left, t.node, t.red, t.right);
      elm := elm.left;
      c, t := InLeft(c, t.node, t.red, t.right), t.left;
      WhichSide(head.Mem(), head.root, c, t);
      while elm.right != null
        invariant head.At(c, t) && t.Branch? && t.node == elm && elm in head.nodes && elm.right == Ptr(t.right)
        invariant IsPrev(Elements(head), elm0, Last(front + InOrder(t)))
        decreases t
      {
        LastOf(t, front);
        RightOf(head.Mem(), head.root, c, t.left, t.node, t.red, t.right);
        front := front + InOrder(t.left) + [t.node];
        elm := elm.right;
        c, t := InRight(c, t.left, t.node, t.red), t.right;
        WhichSide(head.Mem(), head.root, c, t);
      }
      LastOf(t, front);
    } else {
      elm := ClimbBack(head, elm0, c, t);
    }
  }

  /** Lines 698 to 706. */
  method ClimbBack(head: Head, elm0: Node, ghost c0: Ctx, ghost t0: Tree) returns (elm: Node?)
    requires head.At(c0, t0) && t0.Branch? && t0.node == elm0
    ensures elm == Last(Before(c0)) && (elm != null ==> elm in head.nodes)
  {
    ghost var c, t := c0, t0;
    elm := elm0;
    WhichSide(head.Mem(), head.root, c, t);
    if elm.parent != null && elm == elm.parent.right {
      elm := elm.parent;
    } else {
      while elm.parent != null && elm == elm.parent.left
        invariant head.At(c, t) && t.Branch? && t.node == elm && Before(c) == Before(c0)
        invariant elm.parent == Above(c) && (!c.Top? ==> c.node in head.nodes && (c.node.left == elm <==> c.InLeft?))
        decreases c
      {
        GoAcross(head.Mem(), head.root, c, t);
        elm := elm.parent;
        c, t := c.up, Joined(c, t, c.red, Sibling(c));
        WhichSide(head.Mem(), head.root, c, t);
      }
      elm := elm.parent;
    }
  }

  /** RB_MINMAX. */
  method MinMax(head: Head, val: int) returns (parent: Node?)
    requires Valid(head)
    ensures parent == (if val < 0 then First(Elements(head)) else Last(Elements(head)))
    ensures parent != null ==> parent in head.nodes
  {
    var tmp := head.root;
    ghost var c, t, order := Top, head.tree, Elements(head);
    parent := null;
    while tmp != null
      invariant head.At(c, t) && tmp == Ptr(t) && (parent != null ==> parent in head.nodes)
      invariant t.Branch? ==> if val < 0 then First(InOrder(t)) == First(order) else Last(InOrder(t)) == Last(order)
      invariant t.Leaf? ==> parent == if val < 0 then First(order) else Last(order)
      decreases t
    {
      WhichSide(head.Mem(), head.root, c, t);
      EndsOf(t);
      parent := tmp;
      if val < 0 {
        LeftOf(head.Mem(), head.root, c, t.left, t.node, t.red, t.right);
        tmp := tmp.left;
        c, t := InLeft(c, t.node, t.red, t.right), t.left;
      } else {
        RightOf(head.Mem(), head.root, c, t.left, t.node, t.red, t.right);
        tmp := tmp.right;
        c, t := InRight(c, t.left, t.node, t.red), t.right;
      }
    }
  }

  lemma EndsOf(t: Tree)
    requires t.Branch?
    ensures First(InOrder(t)) == if t.left.Leaf? then t.node else First(InOrder(t.left))
    ensures Last(InOrder(t)) == if t.right.Leaf? then t.node else Last(InOrder(t.right))
  {
    assert t.left.Branch? ==> InOrder(t.left) != [];
    assert t.right.Branch? ==> InOrder(t.right) != [];
  }

  /** RB_FIND. */
  method Find(head: Head, key: int) returns (tmp: Node?)
    requires Valid(head)
    ensures tmp != null ==> tmp in Elements(head) && tmp.key == key
    ensures tmp == null ==> forall n :: n in Elements(head) ==> n.key != key
  {
    tmp := head.root;
    ghost var c, t, order := Top, head.tree, Elements(head);
    while tmp != null
      invariant head.At(c, t) && Within(c, t, order) && Between(c, key) && tmp == Ptr(t)
      decreases t
    {
      WhichSide(head.Mem(), head.root, c, t);
      if key < tmp.key {
        StepLeft(c, t, order);
        LeftOf(head.Mem(), head.root, c, t.left, t.node, t.red, t.right);
        tmp := tmp.left;
        c, t := InLeft(c, t.node, t.red, t.right), t.left;
      } else if key > tmp.key {
        StepRight(c, t, order);
        RightOf(head.Mem(), head.root, c, t.left, t.node, t.red, t.right);
        tmp := tmp.right;
        c, t := InRight(c, t.left, t.node, t.red), t.right;
      } else {
        AtPosition(c, t, order);
        return;
      }
    }
    Absent(c, key, order);
  }

  /** RB_NFIND: the least node not below the key. */
  method NFind(head: Head, key: int) returns (res: Node?)
    requires Valid(head)
    ensures res == null ==> forall n :: n in Elements(head) ==> n.key < key
    ensures res != null ==> res in Elements(head) && key <= res.key
    ensures res != null ==> forall n :: n in Elements(head) && key <= n.key ==> res.key <= n.key
  {
    var tmp := head.root;
    ghost var c, t, order := Top, head.tree, Elements(head);
    res := null;
    while tmp != null
      invariant head.At(c, t) && Within(c, t, order) && Between(c, key) && tmp == Ptr(t) && res == First(Behind(c))
      decreases t
    {
      WhichSide(head.Mem(), head.root, c, t);
      var comp := key - tmp.key;
      if comp < 0 {
        StepLeft(c, t, order);
        LeftOf(head.Mem(), head.root, c, t.left, t.node, t.red, t.right);
        res := tmp;
        tmp := tmp.left;
        c, t := InLeft(c, t.node, t.red, t.right), t.left;
      } else if comp > 0 {
        StepRight(c, t, order);
        RightOf(head.Mem(), head.root, c, t.left, t.node, t.red, t.right);
        tmp := tmp.right;
        c, t := InRight(c, t.left, t.node, t.red), t.right;
      } else {
        AtPosition(c, t, order);
        return tmp;
      }
    }
    NotBelow(Before(c), Behind(c), key, order);
  }

  lemma NotBelow(a: seq<Node>, b: seq<Node>, key: int, order: seq<Node>)
    requires Sorted(order) && order == a + [] + b
    requires (forall n :: n in a ==> n.key < key) && (forall n :: n in b ==> key < n.key)
    ensures b == [] ==> forall n :: n in order ==> n.key < key
    ensures b != [] ==> b[0] in order && key <= b[0].key
    ensures b != [] ==> forall n :: n in order && key <= n.key ==> b[0].key <= n.key
  {
    forall n | n in order ensures n in a || n in b {
    }
    if b != [] {
      assert order[|a|] == b[0];
      forall n | n in b ensures b[0].key <= n.key {
        var i :| 0 <= i < |b| && b[i] == n;
        assert order[|a| + i] == n;
      }
    }
  }

  /** RB_FOREACH: every node is visited once, in order. */
  method ForEach(head: Head) returns (visited: seq<Node>)
    requires Valid(head)
    ensures visited == Elements(head)
  {
    ghost var order := Elements(head);
    var x := MinMax(head, -1);
    visited := [];
    while x != null
      invariant |visited| <= |order| && visited == order[..|visited|] && x == First(order[|visited|..])
      invariant x != null ==> x in head.nodes
      decreases |order| - |visited|
    {
      assert order[|visited|] == x && order[|visited| + 1..] == order[|visited|..][1..];
      visited := visited + [x];
      x := Next(head, x);
    }
  }

  /** RB_FOREACH_REVERSE: RB_MAX and repeated RB_PREV. */
  method ForEachReverse(head: Head) returns (visited: seq<Node>)
    requires Valid(head)
    ensures |visited| == |Elements(head)| && forall i :: 0 <= i < |visited| ==> visited[i] == Elements(head)[|visited| - 1 - i]
  {
    ghost var order := Elements(head);
    var x := MinMax(head, 1);
    visited := [];
    while x != null
      invariant Mirrored(order, visited) && x == Last(order[..|order| - |visited|])
      invariant x != null ==> x in head.nodes
      decreases |order| - |visited|
    {
      MirrorOne(order, visited, x);
      visited := visited + [x];
      x := Prev(head, x);
    }
  }

  /** The end of the order, backwards. */
  ghost predicate Mirrored(order: seq<Node>, visited: seq<Node>) {
    |visited| <= |order| && forall i :: 0 <= i < |visited| ==> visited[i] == order[|order| - 1 - i]
  }

  lemma MirrorOne(order: seq<Node>, visited: seq<Node>, x: Node)
    requires Mirrored(order, visited) && Last(order[..|order| - |visited|]) == x
    ensures |visited| < |order| && order[|order| - |visited| - 1] == x && Mirrored(order, visited + [x])
  {
  }

  /** The height of the tree on a head, in terms of the number of its elements. */
  lemma HeadHeight(head: Head)
    requires Valid(head)
    ensures Pow2(Height(head.tree)) <= (|Elements(head)| + 1) * (|Elements(head)| + 1)
  {
    HeightBound(head.tree);
    SizeCounts(head.tree);
  }
}
