/** Splay trees (include/uv/tree.h:66-287): ghost trees, the two spines that a top-down splay builds on either side, and
    how they lie in memory. */
module SplayLinks {
  import opened Sequences

  /** The fields of SPLAY_ENTRY; the comparison function orders nodes by `key`. */
  class Node {
    const key: int
    var left: Node?
    var right: Node?

    constructor (key: int)
      ensures this.key == key && left == null && right == null
    {
      this.key := key;
      left, right := null, null;
    }
  }

  datatype Cell = Cell(left: Node?, right: Node?)

  type Memory = map<Node, Cell>

  ghost function Snapshot(nodes: set<Node>): (m: Memory)
    reads nodes`left, nodes`right
    ensures m.Keys == nodes
  {
    map n | n in nodes :: Cell(n.left, n.right)
  }

  datatype Tree = Leaf | Branch(left: Tree, node: Node, right: Tree)

  /** What was linked off to one side, the latest first: each node with its outer subtree. */
  datatype Spine = Nil | Linked(up: Spine, node: Node, tree: Tree)

  function Ptr(t: Tree): Node? {
    if t.Leaf? then null else t.node
  }

  /** __left or __right: the latest node linked, or &__node. */
  function Latest(s: Spine, dummy: Node): Node {
    if s.Nil? then dummy else s.node
  }

  function InOrder(t: Tree): seq<Node> {
    if t.Leaf? then [] else InOrder(t.left) + ([t.node] + InOrder(t.right))
  }

  /** The nodes to the left of the current subtree, in order, and those to its right. */
  function InLeft(s: Spine): seq<Node> {
    if s.Nil? then [] else InLeft(s.up) + (InOrder(s.tree) + [s.node])
  }

  function InRight(s: Spine): seq<Node> {
    if s.Nil? then [] else [s.node] + (InOrder(s.tree) + InRight(s.up))
  }

  function All(l: Spine, t: Tree, r: Spine): seq<Node> {
    InLeft(l) + (InOrder(t) + InRight(r))
  }

  /** What SPLAY_ASSEMBLE makes of the spines. */
  function CloseLeft(s: Spine, t: Tree): Tree {
    if s.Nil? then t else CloseLeft(s.up, Branch(s.tree, s.node, t))
  }

  function CloseRight(s: Spine, t: Tree): Tree {
    if s.Nil? then t else CloseRight(s.up, Branch(t, s.node, s.tree))
  }

  // ---------- Memory ----------

  ghost predicate Holds(m: Memory, t: Tree) {
    t.Branch? ==>
      && t.node in m && m[t.node] == Cell(Ptr(t.left), Ptr(t.right))
      && Holds(m, t.left) && Holds(m, t.right)
  }

  /** The left spine hangs from dummy.right; the right link of the latest node is about to be set. */
  ghost predicate HoldsLeft(m: Memory, dummy: Node, s: Spine) {
    s.Linked? ==>
      && Latest(s.up, dummy) in m && m[Latest(s.up, dummy)].right == s.node
      && s.node in m && m[s.node].left == Ptr(s.tree)
      && Holds(m, s.tree) && HoldsLeft(m, dummy, s.up)
  }

  ghost predicate HoldsRight(m: Memory, dummy: Node, s: Spine) {
    s.Linked? ==>
      && Latest(s.up, dummy) in m && m[Latest(s.up, dummy)].left == s.node
      && s.node in m && m[s.node].right == Ptr(s.tree)
      && Holds(m, s.tree) && HoldsRight(m, dummy, s.up)
  }

  lemma {:induction false} TreeFrame(m: Memory, t: Tree, x: Node, c: Cell)
    requires Holds(m, t) && x !in InOrder(t)
    ensures Holds(m[x := c], t)
  {
    if t.Branch? {
      assert t.node in InOrder(t);
      TreeFrame(m, t.left, x, c);
      TreeFrame(m, t.right, x, c);
    }
  }

  lemma {:induction false} LeftFrame(m: Memory, dummy: Node, s: Spine, x: Node, c: Cell)
    requires HoldsLeft(m, dummy, s) && x !in InLeft(s) && x in m && (x == dummy ==> c.right == m[x].right)
    ensures HoldsLeft(m[x := c], dummy, s)
  {
    if s.Linked? {
      assert s.node in InLeft(s);
      if s.up.Linked? {
        assert s.up.node in InLeft(s.up);
      }
      TreeFrame(m, s.tree, x, c);
      LeftFrame(m, dummy, s.up, x, c);
    }
  }

  lemma {:induction false} RightFrame(m: Memory, dummy: Node, s: Spine, x: Node, c: Cell)
    requires HoldsRight(m, dummy, s) && x !in InRight(s) && x in m && (x == dummy ==> c.left == m[x].left)
    ensures HoldsRight(m[x := c], dummy, s)
  {
    if s.Linked? {
      assert s.node in InRight(s);
      if s.up.Linked? {
        assert s.up.node in InRight(s.up);
      }
      TreeFrame(m, s.tree, x, c);
      RightFrame(m, dummy, s.up, x, c);
    }
  }

  /** The link that the spine leaves open can be set. */
  lemma LeftOpen(m: Memory, dummy: Node, s: Spine, c: Cell)
    requires HoldsLeft(m, dummy, s) && Sorted(InLeft(s)) && dummy !in InLeft(s)
    requires Latest(s, dummy) in m && c.left == m[Latest(s, dummy)].left
    ensures HoldsLeft(m[Latest(s, dummy) := c], dummy, s)
  {
    if s.Linked? {
      var x := s.node;
      SortedParts(InLeft(s.up), InOrder(s.tree) + [x]);
      SortedParts(InOrder(s.tree), [x]);
      assert x in InOrder(s.tree) + [x];
      assert x in [x];
      if s.up.Linked? {
        assert s.up.node in InLeft(s.up);
      }
      assert x in InLeft(s);
      TreeFrame(m, s.tree, x, c);
      LeftFrame(m, dummy, s.up, x, c);
    }
  }

  lemma RightOpen(m: Memory, dummy: Node, s: Spine, c: Cell)
    requires HoldsRight(m, dummy, s) && Sorted(InRight(s)) && dummy !in InRight(s)
    requires Latest(s, dummy) in m && c.right == m[Latest(s, dummy)].right
    ensures HoldsRight(m[Latest(s, dummy) := c], dummy, s)
  {
    if s.Linked? {
      var x := s.node;
      SortedParts([x], InOrder(s.tree) + InRight(s.up));
      assert x in [x];
      if s.up.Linked? {
        assert s.up.node in InRight(s.up);
      }
      assert x in InRight(s);
      TreeFrame(m, s.tree, x, c);
      RightFrame(m, dummy, s.up, x, c);
    }
  }

  lemma {:induction false} CloseLeftHolds(m: Memory, dummy: Node, s: Spine, t: Tree)
    requires HoldsLeft(m, dummy, s) && Holds(m, t) && Latest(s, dummy) in m && m[Latest(s, dummy)].right == Ptr(t)
    ensures dummy in m && Holds(m, CloseLeft(s, t)) && m[dummy].right == Ptr(CloseLeft(s, t))
    ensures InOrder(CloseLeft(s, t)) == InLeft(s) + InOrder(t)
    decreases s
  {
    if s.Linked? {
      CloseLeftHolds(m, dummy, s.up, Branch(s.tree, s.node, t));
      Assoc(InLeft(s.up), InOrder(s.tree) + [s.node], InOrder(t));
      Assoc(InOrder(s.tree), [s.node], InOrder(t));
    } else {
      Empty(InOrder(t));
    }
  }

  lemma {:induction false} CloseRightHolds(m: Memory, dummy: Node, s: Spine, t: Tree)
    requires HoldsRight(m, dummy, s) && Holds(m, t) && Latest(s, dummy) in m && m[Latest(s, dummy)].left == Ptr(t)
    ensures dummy in m && Holds(m, CloseRight(s, t)) && m[dummy].left == Ptr(CloseRight(s, t))
    ensures InOrder(CloseRight(s, t)) == InOrder(t) + InRight(s)
    decreases s
  {
    if s.Linked? {
      CloseRightHolds(m, dummy, s.up, Branch(t, s.node, s.tree));
      Assoc(InOrder(t), [s.node] + InOrder(s.tree), InRight(s.up));
      Assoc([s.node], InOrder(s.tree), InRight(s.up));
    } else {
      Empty(InOrder(t));
    }
  }

  // ---------- Order ----------

  ghost predicate Sorted(s: seq<Node>) {
    forall i, j :: 0 <= i < j < |s| ==> s[i].key < s[j].key
  }

  ghost predicate Below(a: seq<Node>, b: seq<Node>) {
    forall x, y :: x in a && y in b ==> x.key < y.key
  }

  lemma SortedParts(a: seq<Node>, b: seq<Node>)
    ensures Sorted(a + b) <==> Sorted(a) && Sorted(b) && Below(a, b)
  {
    var c := a + b;
    if Sorted(c) {
      assert forall i :: 0 <= i < |a| ==> a[i] == c[i];
      assert forall i :: 0 <= i < |b| ==> b[i] == c[|a| + i];
    }
    if Sorted(a) && Sorted(b) && Below(a, b) {
      forall i, j | 0 <= i < j < |c| ensures c[i].key < c[j].key {
        assert if i < |a| then c[i] == a[i] && c[i] in a else c[i] == b[i - |a|];
        assert if j < |a| then c[j] == a[j] else c[j] == b[j - |a|] && c[j] in b;
      }
    }
  }

  lemma Empty<T>(a: seq<T>)
    ensures a + [] == a && [] + a == a
  {
  }
}
