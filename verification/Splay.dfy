/** Splay trees, updated in place: SPLAY, SPLAY_INSERT, SPLAY_REMOVE, SPLAY_FIND, SPLAY_NEXT and SPLAY_MINMAX
    (include/uv/tree.h:128-287). */
module Splay {
  import opened Sequences
  import opened SplayLinks
  import opened SplaySteps
  import opened SplayShape

  /** k is at the root, or the root is next to where k would be. */
  ghost predicate AtTop(t: Tree, k: Goal) {
    && t.Branch?
    && (Lt(k, t.node.key) ==> forall n :: n in InOrder(t.left) ==> Gt(k, n.key))
    && (Gt(k, t.node.key) ==> forall n :: n in InOrder(t.right) ==> Lt(k, n.key))
  }

  ghost predicate Keyed(l: Spine, r: Spine, k: Goal) {
    (forall n :: n in InLeft(l) ==> Gt(k, n.key)) && (forall n :: n in InRight(r) ==> Lt(k, n.key))
  }

  /** After a turn, or with `done` the last one: the splay of t goes on with t', or has come to t'. */
  ghost predicate Went(l: Spine, t: Tree, r: Spine, k: Goal, done: bool, l': Spine, t': Tree, r': Spine) {
    && t.Branch? && t'.Branch?
    && if done then Assembled(l', t', r') == Assembled(l, Splay(t, k).tree, r) && Splay(t, k).turns == 1
       else Assembled(l', Splay(t', k).tree, r') == Assembled(l, Splay(t, k).tree, r) && Splay(t, k).turns == Splay(t', k).turns + 1
  }

  ghost predicate Inside(s: set<Node>, q: seq<Node>) {
    forall n :: n in q ==> n in s
  }

  ghost function Members(t: Tree): set<Node> {
    set n | n in InOrder(t)
  }

  class SplayTree {
    var root: Node?
    ghost var tree: Tree
    ghost var nodes: set<Node>

    /** The nodes form `tree`, whose keys increase in order. */
    ghost predicate Valid()
      reads this, nodes`left, nodes`right
    {
      nodes == Members(tree) && root == Ptr(tree) && Holds(Snapshot(nodes), tree) && Sorted(InOrder(tree))
    }

    /** SPLAY_INIT. */
    constructor ()
      ensures Valid() && tree == Leaf
    {
      root, tree, nodes := null, Leaf, {};
    }

    /** In the middle of a splay for k, over the nodes s. */
    ghost predicate Ready(s: set<Node>, dummy: Node, l: Spine, t: Tree, r: Spine, k: Goal)
      reads this`root, s`left, s`right
    {
      && t.Branch? && root == t.node && Mid(Snapshot(s), dummy, l, t, r)
      && Inside(s, All(l, t, r)) && Keyed(l, r, k)
    }

    lemma InsideToo(s: set<Node>, l: Spine, t: Tree, t': Tree, r: Spine)
      requires Inside(s, All(l, t, r)) && InOrder(t') == InOrder(t)
      ensures Inside(s, All(l, t', r))
    {
    }

    lemma NowReady(s: set<Node>, m: Memory, dummy: Node, l: Spine, t: Tree, r: Spine, k: Goal)
      requires Snapshot(s) == m && Mid(m, dummy, l, t, r) && t.Branch? && root == t.node && Inside(s, All(l, t, r)) && Keyed(l, r, k)
      ensures Ready(s, dummy, l, t, r, k)
    {
    }

    method SetLeft(n: Node, v: Node?, ghost s: set<Node>)
      requires n in s
      modifies n`left
      ensures Snapshot(s) == old(Snapshot(s))[n := old(Snapshot(s))[n].(left := v)]
    {
      n.left := v;
    }

    method SetRight(n: Node, v: Node?, ghost s: set<Node>)
      requires n in s
      modifies n`right
      ensures Snapshot(s) == old(Snapshot(s))[n := old(Snapshot(s))[n].(right := v)]
    {
      n.right := v;
    }

    /** SPLAY_LINKLEFT. */
    method LinkLeft(right: Node, ghost s: set<Node>, ghost dummy: Node, ghost l: Spine, ghost t: Tree, ghost r: Spine, ghost k: Goal)
      returns (right': Node)
      requires Ready(s, dummy, l, t, r, k) && right == Latest(r, dummy) && right in s && t.left.Branch? && Lt(k, t.node.key)
      modifies this`root, s`left
      ensures Ready(s, dummy, l, t.left, Linked(r, t.node, t.right), k) && right' == t.node && right' in s
      ensures All(l, t.left, Linked(r, t.node, t.right)) == All(l, t, r)
    {
      LinkLeftMid(Snapshot(s), dummy, l, t, r);
      LinkLeftAll(l, t, r);
      LinkLeftKeys(l, t, r, k);
      InTree(l, t, r);
      NotLatest(l, t, r, dummy);
      var n := root;
      SetLeft(right, n, s);
      right' := n;
      root := n.left;
    }

    /** SPLAY_LINKRIGHT. */
    method LinkRight(left: Node, ghost s: set<Node>, ghost dummy: Node, ghost l: Spine, ghost t: Tree, ghost r: Spine, ghost k: Goal)
      returns (left': Node)
      requires Ready(s, dummy, l, t, r, k) && left == Latest(l, dummy) && left in s && t.right.Branch? && Gt(k, t.node.key)
      modifies this`root, s`right
      ensures Ready(s, dummy, Linked(l, t.node, t.left), t.right, r, k) && left' == t.node && left' in s
      ensures All(Linked(l, t.node, t.left), t.right, r) == All(l, t, r)
    {
      LinkRightMid(Snapshot(s), dummy, l, t, r);
      LinkRightAll(l, t, r);
      LinkRightKeys(l, t, r, k);
      InTree(l, t, r);
      NotLatest(l, t, r, dummy);
      var n := root;
      SetRight(left, n, s);
      left' := n;
      root := n.right;
    }

    /** SPLAY_ROTATE_RIGHT. */
    method RotateRight(tmp: Node, ghost s: set<Node>, ghost dummy: Node, ghost l: Spine, ghost t: Tree, ghost t': Tree, ghost r: Spine, ghost k: Goal)
      requires Ready(s, dummy, l, t, r, k) && t.left.Branch? && tmp == t.left.node && tmp in s && t' == RotatedRight(t)
      modifies this`root, s`left, s`right
      ensures Ready(s, dummy, l, t', r, k) && InOrder(t') == InOrder(t) && Size(t') == Size(t)
    {
      Kids(s, dummy, l, t, r, k);
      RotatedOrder(t);
      RotatedSize(t);
      ghost var m, n := Snapshot(s), t.node;
      RotateRightMid(m, dummy, l, t, t', r);
      InsideToo(s, l, t, t', r);
      TurnRight(tmp, s);
      NowReady(s, TurnedRight(m, n, tmp), dummy, l, t', r, k);
    }

    method TurnRight(tmp: Node, ghost s: set<Node>)
      requires root != null && root in s && tmp in s
      modifies this`root, s`left, s`right
      ensures root == tmp && Snapshot(s) == TurnedRight(old(Snapshot(s)), old(root), tmp)
    {
      SetLeft(root, tmp.right, s);
      SetRight(tmp, root, s);
      root := tmp;
    }

    /** SPLAY_ROTATE_LEFT. */
    method RotateLeft(tmp: Node, ghost s: set<Node>, ghost dummy: Node, ghost l: Spine, ghost t: Tree, ghost t': Tree, ghost r: Spine, ghost k: Goal)
      requires Ready(s, dummy, l, t, r, k) && t.right.Branch? && tmp == t.right.node && tmp in s && t' == RotatedLeft(t)
      modifies this`root, s`left, s`right
      ensures Ready(s, dummy, l, t', r, k) && InOrder(t') == InOrder(t) && Size(t') == Size(t)
    {
      Kids(s, dummy, l, t, r, k);
      RotatedOrder(t);
      RotatedSize(t);
      ghost var m, n := Snapshot(s), t.node;
      RotateLeftMid(m, dummy, l, t, t', r);
      InsideToo(s, l, t, t', r);
      TurnLeft(tmp, s);
      NowReady(s, TurnedLeft(m, n, tmp), dummy, l, t', r, k);
    }

    method TurnLeft(tmp: Node, ghost s: set<Node>)
      requires root != null && root in s && tmp in s
      modifies this`root, s`left, s`right
      ensures root == tmp && Snapshot(s) == TurnedLeft(old(Snapshot(s)), old(root), tmp)
    {
      SetRight(root, tmp.left, s);
      SetLeft(tmp, root, s);
      root := tmp;
    }

    /** The root is the node of t, and its children are members. */
    lemma Kids(s: set<Node>, dummy: Node, l: Spine, t: Tree, r: Spine, k: Goal)
      requires Ready(s, dummy, l, t, r, k)
      ensures root in s && root.left == Ptr(t.left) && root.right == Ptr(t.right)
      ensures (root.left != null ==> root.left in s) && (root.right != null ==> root.right in s)
      ensures root.left != root && root.right != root
    {
      InTree(l, t, r);
      ChildrenIn(l, t, r);
    }

    /** Lines 221 to 226: done when nothing is left on that side. */
    method ZigLeft(ghost s: set<Node>, ghost dummy: Node, ghost l: Spine, ghost t: Tree, ghost r: Spine, k: Goal)
      returns (done: bool, ghost t': Tree)
      requires Ready(s, dummy, l, t, r, k) && Lt(k, t.node.key)
      modifies this`root, s`left, s`right
      ensures Ready(s, dummy, l, t', r, k) && Lt(k, t'.node.key) && (done <==> t'.left.Leaf?)
      ensures if done then Splay(t, k).tree == t' && Splay(t, k).turns == 1
              else Splay(t, k).tree == PassedRight(Splay(t'.left, k).tree, t') && Splay(t, k).turns == Splay(t'.left, k).turns + 1
      ensures InOrder(t') == InOrder(t) && Size(t') == Size(t)
    {
      t' := t;
      LeftTurn(t, k);
      Kids(s, dummy, l, t, r, k);
      var tmp := root.left;
      if tmp == null {
        return true, t;
      }
      if Lt(k, tmp.key) {
        t' := RotatedRight(t);
        RotateRight(tmp, s, dummy, l, t, t', r, k);
        Kids(s, dummy, l, t', r, k);
        if root.left == null {
          return true, t';
        }
      }
      return false, t';
    }

    /** Lines 220 to 228. */
    method GoLeft(right: Node, ghost s: set<Node>, ghost dummy: Node, ghost l: Spine, ghost t: Tree, ghost r: Spine, k: Goal)
      returns (right': Node, done: bool, ghost t': Tree, ghost r': Spine)
      requires Ready(s, dummy, l, t, r, k) && right == Latest(r, dummy) && right in s && Lt(k, t.node.key)
      modifies this`root, s`left, s`right
      ensures Ready(s, dummy, l, t', r', k) && right' == Latest(r', dummy) && right' in s && All(l, t', r') == All(l, t, r)
      ensures if done then Lt(k, t'.node.key) && t'.left.Leaf? else Size(t') < Size(t)
      ensures Went(l, t, r, k, done, l, t', r')
    {
      r', right' := r, right;
      done, t' := ZigLeft(s, dummy, l, t, r, k);
      if !done {
        right' := LinkLeft(right, s, dummy, l, t', r, k);
        AssembledPast(l, Splay(t'.left, k).tree, t', r);
        r' := Linked(r, t'.node, t'.right);
        t' := t'.left;
      }
    }

    /** Lines 231 to 236: done when nothing is left on that side. */
    method ZigRight(ghost s: set<Node>, ghost dummy: Node, ghost l: Spine, ghost t: Tree, ghost r: Spine, k: Goal)
      returns (done: bool, ghost t': Tree)
      requires Ready(s, dummy, l, t, r, k) && Gt(k, t.node.key)
      modifies this`root, s`left, s`right
      ensures Ready(s, dummy, l, t', r, k) && Gt(k, t'.node.key) && (done <==> t'.right.Leaf?)
      ensures if done then Splay(t, k).tree == t' && Splay(t, k).turns == 1
              else Splay(t, k).tree == PassedLeft(Splay(t'.right, k).tree, t') && Splay(t, k).turns == Splay(t'.right, k).turns + 1
      ensures InOrder(t') == InOrder(t) && Size(t') == Size(t)
    {
      t' := t;
      RightTurn(t, k);
      Kids(s, dummy, l, t, r, k);
      var tmp := root.right;
      if tmp == null {
        return true, t;
      }
      if Gt(k, tmp.key) {
        t' := RotatedLeft(t);
        RotateLeft(tmp, s, dummy, l, t, t', r, k);
        Kids(s, dummy, l, t', r, k);
        if root.right == null {
          return true, t';
        }
      }
      return false, t';
    }

    /** Lines 230 to 238. */
    method GoRight(left: Node, ghost s: set<Node>, ghost dummy: Node, ghost l: Spine, ghost t: Tree, ghost r: Spine, k: Goal)
      returns (left': Node, done: bool, ghost t': Tree, ghost l': Spine)
      requires Ready(s, dummy, l, t, r, k) && left == Latest(l, dummy) && left in s && Gt(k, t.node.key)
      modifies this`root, s`left, s`right
      ensures Ready(s, dummy, l', t', r, k) && left' == Latest(l', dummy) && left' in s && All(l', t', r) == All(l, t, r)
      ensures if done then Gt(k, t'.node.key) && t'.right.Leaf? else Size(t') < Size(t)
      ensures Went(l, t, r, k, done, l', t', r)
    {
      l', left' := l, left;
      done, t' := ZigRight(s, dummy, l, t, r, k);
      if !done {
        left' := LinkRight(left, s, dummy, l, t', r, k);
        AssembledPast(l, Splay(t'.right, k).tree, t', r);
        l' := Linked(l, t'.node, t'.left);
        t' := t'.right;
      }
    }

    /** SPLAY_ASSEMBLE. */
    method Assemble(dummy: Node, left: Node, right: Node, ghost s: set<Node>, ghost l: Spine, ghost t: Tree, ghost r: Spine, ghost k: Goal)
      requires Ready(s, dummy, l, t, r, k) && left == Latest(l, dummy) && right == Latest(r, dummy)
      requires left in s && right in s && dummy in s && t.node in s
      modifies s`left, s`right
      ensures Holds(Snapshot(s), Assembled(l, t, r)) && InOrder(Assembled(l, t, r)) == All(l, t, r)
    {
      AssembleHolds(Snapshot(s), dummy, l, t, r);
      SetRight(left, root.left, s);
      SetLeft(right, root.right, s);
      SetLeft(root, dummy.right, s);
      SetRight(root, dummy.left, s);
    }

    /** One turn of the loop. */
    method Turn(left: Node, right: Node, ghost s: set<Node>, ghost dummy: Node, ghost l: Spine, ghost t: Tree, ghost r: Spine, k: Goal)
      returns (left': Node, right': Node, done: bool, ghost l': Spine, ghost t': Tree, ghost r': Spine)
      requires Ready(s, dummy, l, t, r, k) && left == Latest(l, dummy) && right == Latest(r, dummy) && left in s && right in s
      requires Lt(k, t.node.key) || Gt(k, t.node.key)
      modifies this`root, s`left, s`right
      ensures Ready(s, dummy, l', t', r', k) && left' == Latest(l', dummy) && right' == Latest(r', dummy) && left' in s && right' in s
      ensures All(l', t', r') == All(l, t, r) && Went(l, t, r, k, done, l', t', r')
      ensures if done then (Lt(k, t'.node.key) && t'.left.Leaf?) || (Gt(k, t'.node.key) && t'.right.Leaf?) else Size(t') < Size(t)
    {
      left', right', l', r' := left, right, l, r;
      if Lt(k, root.key) {
        right', done, t', r' := GoLeft(right, s, dummy, l, t, r, k);
      } else {
        left', done, t', l' := GoRight(left, s, dummy, l, t, r, k);
      }
    }

    /** The loop at lines 218 to 240. */
    method Descend(k: Goal, dummy: Node, ghost s: set<Node>, ghost o: Outcome)
      returns (left: Node, right: Node, ghost l: Spine, ghost t: Tree, ghost r: Spine, ghost turns: nat)
      requires dummy in s && Ready(s, dummy, Nil, tree, Nil, k) && o == Splay(tree, k)
      modifies this`root, s`left, s`right
      ensures Ready(s, dummy, l, t, r, k) && All(l, t, r) == InOrder(tree) && left == Latest(l, dummy) && right == Latest(r, dummy)
      ensures left in s && right in s && Assembled(l, t, r) == o.tree && turns == o.turns
      ensures !(Lt(k, t.node.key) || Gt(k, t.node.key)) || (Lt(k, t.node.key) && t.left.Leaf?) || (Gt(k, t.node.key) && t.right.Leaf?)
    {
      left, right := dummy, dummy;
      l, t, r, turns := Nil, tree, Nil, 0;
      Empty(InOrder(tree));
      while Lt(k, root.key) || Gt(k, root.key)
        invariant Ready(s, dummy, l, t, r, k) && All(l, t, r) == InOrder(tree)
        invariant left == Latest(l, dummy) && right == Latest(r, dummy) && left in s && right in s
        invariant Assembled(l, Splay(t, k).tree, r) == o.tree && turns + Splay(t, k).turns == o.turns
        decreases Size(t)
      {
        var done;
        turns := turns + 1;
        left, right, done, l, t, r := Turn(left, right, s, dummy, l, t, r, k);
        if done {
          break;
        }
      }
    }

    /** Lines 215 and 216. */
    method Begin(ghost k: Goal) returns (dummy: Node, ghost s: set<Node>)
      requires Valid() && root != null
      ensures fresh(dummy) && s == nodes + {dummy} && Ready(s, dummy, Nil, tree, Nil, k)
    {
      ghost var m := Snapshot(nodes);
      dummy := new Node(0);
      s := nodes + {dummy};
      Begun(m, Snapshot(s), dummy, tree, k);
    }

    /** Lines 218 to 241. */
    method DescendAndAssemble(k: Goal, dummy: Node, ghost s: set<Node>) returns (ghost t': Tree, ghost turns: nat)
      requires dummy in s && Ready(s, dummy, Nil, tree, Nil, k)
      modifies this`root, s`left, s`right
      ensures t'.Branch? && root == t'.node && Holds(Snapshot(s), t') && InOrder(t') == InOrder(tree) && AtTop(t', k)
      ensures t' == Splay(tree, k).tree && turns == Splay(tree, k).turns
    {
      var left, right;
      ghost var l, t, r;
      left, right, l, t, r, turns := Descend(k, dummy, s, Splay(tree, k));
      InTree(l, t, r);
      Top(l, t, r, k);
      t' := Assembled(l, t, r);
      Assemble(dummy, left, right, s, l, t, r, k);
    }

    /** SPLAY: the order stays, and the key or a neighbour of it comes to the root; `turns` counts the turns of the loop. */
    method DoSplay(k: Goal) returns (ghost turns: nat)
      requires Valid() && root != null
      modifies this, nodes`left, nodes`right
      ensures Valid() && tree.Branch? && InOrder(tree) == old(InOrder(tree)) && nodes == old(nodes) && AtTop(tree, k)
      ensures tree == Splay(old(tree), k).tree && turns == Splay(old(tree), k).turns
    {
      var dummy;
      ghost var s;
      dummy, s := Begin(k);
      ghost var t;
      t, turns := DescendAndAssemble(k, dummy, s);
      Become(s, t, nodes);
    }

    /** The tree under the root is t, over the nodes n. */
    ghost method Become(s: set<Node>, t: Tree, n: set<Node>)
      requires root == Ptr(t) && Holds(Snapshot(s), t) && Sorted(InOrder(t)) && n == Members(t) <= s
      modifies this`tree, this`nodes
      ensures tree == t && nodes == n && Valid()
    {
      tree, nodes := t, n;
      Shrink(Snapshot(s), Snapshot(nodes), tree);
    }

    /** Lines 174 to 176. */
    method PutOverLeft(elm: Node, ghost s: set<Node>)
      requires root != null && root != elm && root in s && elm in s
      modifies this`root, s`left, s`right
      ensures root == elm && Snapshot(s) == AboveLeft(old(Snapshot(s)), old(root), elm)
    {
      SetLeft(elm, root.left, s);
      SetRight(elm, root, s);
      SetLeft(root, null, s);
      root := elm;
    }

    method PutOnTopLeft(elm: Node)
      requires Valid() && tree.Branch? && elm !in nodes && AtTop(tree, At(elm.key)) && elm.key < tree.node.key
      modifies this, nodes`left, nodes`right, elm`left, elm`right
      ensures Valid() && nodes == old(nodes) + {elm} && tree == PutOnTop(old(tree), elm)
    {
      ghost var t, s := tree, nodes + {elm};
      HasNode(t);
      Shrink(Snapshot(nodes), Snapshot(s), t);
      OnTopLeft(Snapshot(s), t, elm);
      PutOverLeft(elm, s);
      InsertLeft(t, elm);
      Become(s, Branch(t.left, elm, Branch(Leaf, t.node, t.right)), s);
    }

    /** Lines 178 to 180. */
    method PutOverRight(elm: Node, ghost s: set<Node>)
      requires root != null && root != elm && root in s && elm in s
      modifies this`root, s`left, s`right
      ensures root == elm && Snapshot(s) == AboveRight(old(Snapshot(s)), old(root), elm)
    {
      SetRight(elm, root.right, s);
      SetLeft(elm, root, s);
      SetRight(root, null, s);
      root := elm;
    }

    method PutOnTopRight(elm: Node)
      requires Valid() && tree.Branch? && elm !in nodes && AtTop(tree, At(elm.key)) && tree.node.key < elm.key
      modifies this, nodes`left, nodes`right, elm`left, elm`right
      ensures Valid() && nodes == old(nodes) + {elm} && tree == PutOnTop(old(tree), elm)
    {
      ghost var t, s := tree, nodes + {elm};
      HasNode(t);
      Shrink(Snapshot(nodes), Snapshot(s), t);
      OnTopRight(Snapshot(s), t, elm);
      PutOverRight(elm, s);
      InsertRight(t, elm);
      Become(s, Branch(Branch(t.left, t.node, Leaf), elm, t.right), s);
    }

    /** SPLAY_INSERT: adds elm at its place, or returns the node that has its key already. */
    method Insert(elm: Node) returns (r: Node?, ghost turns: nat)
      requires Valid() && elm !in nodes
      modifies this, nodes`left, nodes`right, elm`left, elm`right
      ensures Valid()
      ensures r == null ==> nodes == old(nodes) + {elm}
      ensures r == null <==> forall n :: n in old(nodes) ==> n.key != elm.key
      ensures r != null ==> r in nodes && r.key == elm.key && nodes == old(nodes) && InOrder(tree) == old(InOrder(tree))
      ensures var p := Perform(old(tree), Op.Insert(elm)); tree == p.tree && turns == p.turns
    {
      if root == null {
        elm.left, elm.right := null, null;
        tree, nodes, root := Branch(Leaf, elm, Leaf), {elm}, elm;
        Empty([elm]);
        assert InOrder(tree) == [elm];
        return null, 0;
      }
      turns := DoSplay(At(elm.key));
      TopMatches(tree, elm.key);
      NodeParts(tree);
      if elm.key < root.key {
        PutOnTopLeft(elm);
      } else if elm.key > root.key {
        PutOnTopRight(elm);
      } else {
        return root, turns;
      }
      return null, turns;
    }

    /** SPLAY_FIND. */
    method Find(k: int) returns (r: Node?, ghost turns: nat)
      requires Valid()
      modifies this, nodes`left, nodes`right
      ensures Valid() && nodes == old(nodes) && InOrder(tree) == old(InOrder(tree))
      ensures r != null ==> r in nodes && r.key == k
      ensures r == null ==> forall n :: n in nodes ==> n.key != k
      ensures var p := Perform(old(tree), Op.Find(k)); tree == p.tree && turns == p.turns
    {
      if root == null {
        return null, 0;
      }
      turns := DoSplay(At(k));
      TopMatches(tree, k);
      NodeParts(tree);
      if k == root.key {
        return root, turns;
      }
      return null, turns;
    }

    /** SPLAY_MINMAX: the least node (comp < 0) or the greatest (comp > 0) comes to the root. */
    method MinMax(comp: int) returns (ghost turns: nat)
      requires Valid() && root != null && comp != 0
      modifies this, nodes`left, nodes`right
      ensures Valid() && InOrder(tree) == old(InOrder(tree)) && nodes == old(nodes) && root in nodes
      ensures forall n :: n in nodes ==> if comp < 0 then root.key <= n.key else n.key <= root.key
      ensures var p := Perform(old(tree), if comp < 0 then Least else Greatest); tree == p.tree && turns == p.turns
    {
      var k := if comp < 0 then NegInf else Inf;
      turns := DoSplay(k);
      EndAtTop(tree, k, nodes);
    }

    /** SPLAY_NEXT of a member: the least node above it, or NULL. */
    method Next(elm0: Node) returns (elm: Node?, ghost turns: nat, ghost steps: nat)
      requires Valid() && elm0 in nodes
      modifies this, nodes`left, nodes`right
      ensures Valid() && InOrder(tree) == old(InOrder(tree)) && nodes == old(nodes)
      ensures elm == null ==> forall n :: n in nodes ==> n.key <= elm0.key
      ensures elm != null ==> elm in nodes && elm0.key < elm.key && forall n :: n in nodes && elm0.key < n.key ==> elm.key <= n.key
      ensures Performed(tree, turns, steps) == Perform(old(tree), Op.Next(elm0.key))
    {
      ghost var t := tree;
      turns := ToTop(elm0);
      PerformNext(t, elm0.key, tree, turns);
      if elm0.right == null {
        return null, turns, 0;
      }
      elm, steps := Leftmost(elm0.right, tree.right);
    }

    /** Line 142: elm0 is at the root then, and the nodes above it are to its right. */
    method ToTop(elm0: Node) returns (ghost turns: nat)
      requires Valid() && elm0 in nodes
      modifies this, nodes`left, nodes`right
      ensures Valid() && InOrder(tree) == old(InOrder(tree)) && nodes == old(nodes) && tree.Branch? && tree.node == elm0
      ensures Sorted(InOrder(tree.right)) && Holds(Snapshot(nodes), tree.right) && elm0.right == Ptr(tree.right)
      ensures forall n :: n in InOrder(tree.right) <==> n in nodes && elm0.key < n.key
      ensures Performed(tree, turns, 0) == Brought(old(tree), At(elm0.key))
    {
      assert elm0 in InOrder(tree);
      turns := DoSplay(At(elm0.key));
      TopMatches(tree, elm0.key);
      SuccessorIs(tree, elm0);
    }

    /** Lines 145 to 147. */
    method Leftmost(n0: Node, ghost t0: Tree) returns (n: Node, ghost steps: nat)
      requires Valid() && t0.Branch? && n0 == t0.node && Holds(Snapshot(nodes), t0) && Sorted(InOrder(t0))
      ensures Valid() && n in InOrder(t0) && (forall x :: x in InOrder(t0) ==> n.key <= x.key) && steps == Walk(t0)
    {
      n, steps := n0, 0;
      ghost var t := t0;
      FrontStart(t0);
      while n.left != null
        invariant t.Branch? && n == t.node && Holds(Snapshot(nodes), t) && n in nodes && Front(t, t0) && steps + Walk(t) == Walk(t0)
        decreases t
      {
        FrontStep(t, t0);
        t := t.left;
        n, steps := n.left, steps + 1;
      }
      FrontEnd(t, t0);
    }

    /** Line 197. */
    method DropRoot()
      requires Valid() && tree.Branch? && tree.left.Leaf?
      modifies this
      ensures Valid() && nodes == old(nodes) - {old(root)} && tree == old(tree).right
    {
      ghost var t := tree;
      DropOrder(t);
      root := root.right;
      Become(nodes, t.right, nodes - {t.node});
    }

    /** Lines 199 and 200: the left subtree alone. */
    method TakeLeft(ghost s: set<Node>, ghost t: Tree) returns (tmp: Node?)
      requires Valid() && s == nodes && t == tree && t.Branch? && t.left.Branch?
      modifies this
      ensures Valid() && tree == t.left && tmp == Ptr(t.right) && nodes <= s && Snapshot(s) == old(Snapshot(s))
    {
      LeftPart(Snapshot(nodes), t);
      tmp := root.right;
      root := root.left;
      Become(nodes, t.left, Members(t.left));
    }

    /** Lines 196 to 203: the root goes, and the greatest node below it takes its place. */
    method RemoveRoot(k: int) returns (ghost turns: nat)
      requires Valid() && tree.Branch? && k == tree.node.key
      modifies this, nodes`left, nodes`right
      ensures Valid() && nodes == old(nodes) - {old(root)} && Performed(tree, turns, 0) == TakenOut(old(tree), k)
    {
      if root.left == null {
        DropRoot();
        return 0;
      }
      ghost var t, s := tree, nodes;
      var tmp;
      tmp, turns := SplayLeft(k);
      HangRight(tmp, s, t, k);
    }

    /** Lines 199 to 201. */
    method SplayLeft(k: int) returns (tmp: Node?, ghost turns: nat)
      requires Valid() && tree.Branch? && tree.left.Branch?
      modifies this, nodes`left, nodes`right
      ensures Valid() && tree.Branch? && InOrder(tree) == InOrder(old(tree).left) && AtTop(tree, At(k)) && nodes <= old(nodes)
      ensures tmp == Ptr(old(tree).right) && Holds(Snapshot(old(nodes)), old(tree).right)
      ensures var o := Splay(old(tree).left, At(k)); tree == o.tree && turns == o.turns
    {
      ghost var t, s := tree, nodes;
      tmp := TakeLeft(s, t);
      turns := SplayBeside(k, s, t);
    }

    /** Splaying the left subtree of t leaves the right one alone. */
    method SplayBeside(k: int, ghost s: set<Node>, ghost t: Tree) returns (ghost turns: nat)
      requires Valid() && root != null && t.Branch? && Sorted(InOrder(t)) && Holds(Snapshot(s), t) && nodes == Members(t.left)
      modifies this, nodes`left, nodes`right
      ensures Valid() && tree.Branch? && InOrder(tree) == old(InOrder(tree)) && nodes == old(nodes) && AtTop(tree, At(k))
      ensures Holds(Snapshot(s), t.right) && tree == Splay(old(tree), At(k)).tree && turns == Splay(old(tree), At(k)).turns
    {
      ghost var m, left := Snapshot(s), nodes;
      turns := DoSplay(At(k));
      RightStays(m, Snapshot(s), t, left);
    }

    /** Line 202. */
    method HangRight(tmp: Node?, ghost s: set<Node>, ghost t: Tree, ghost k: int)
      requires Valid() && tree.Branch? && AtTop(tree, At(k)) && t.Branch? && k == t.node.key && Sorted(InOrder(t))
      requires InOrder(tree) == InOrder(t.left) && tmp == Ptr(t.right) && s == Members(t) && Holds(Snapshot(s), t.right)
      modifies this, nodes`left, nodes`right
      ensures Valid() && nodes == s - {t.node} && tree == Branch(old(tree).left, old(tree).node, t.right)
    {
      ghost var l, m := tree, Snapshot(s);
      MembersOf(t, l);
      Hangs(Snapshot(nodes), m, l, t, k);
      SetRight(root, tmp, s);
      Become(s, Branch(l.left, l.node, t.right), s - {t.node});
    }

    /** SPLAY_REMOVE: takes out the node with elm's key, if there is one. */
    method Remove(elm: Node) returns (r: Node?, ghost turns: nat)
      requires Valid()
      modifies this, nodes`left, nodes`right
      ensures Valid()
      ensures r == null ==> nodes == old(nodes) && InOrder(tree) == old(InOrder(tree)) && forall n :: n in nodes ==> n.key != elm.key
      ensures r != null ==> r == elm && exists n :: n in old(nodes) && n.key == elm.key && nodes == old(nodes) - {n}
      ensures var p := Perform(old(tree), Op.Remove(elm.key)); tree == p.tree && turns == p.turns
    {
      if root == null {
        return null, 0;
      }
      turns := DoSplay(At(elm.key));
      TopMatches(tree, elm.key);
      NodeParts(tree);
      if elm.key == root.key {
        ghost var n := root;
        ghost var more := RemoveRoot(elm.key);
        assert n in old(nodes) && n.key == elm.key;
        return elm, turns + more;
      }
      return null, turns;
    }
  }

  lemma PerformNext(t: Tree, key: int, t': Tree, turns: nat)
    requires Brought(t, At(key)) == Performed(t', turns, 0) && t'.Branch?
    ensures Perform(t, Op.Next(key)) == Performed(t', turns, Walk(t'.right))
  {
  }

  /** Linking t's root off to one side is what its being passed means once the spines are joined. */
  lemma AssembledPast(l: Spine, s: Tree, t: Tree, r: Spine)
    requires s.Branch? && t.Branch?
    ensures Assembled(l, s, Linked(r, t.node, t.right)) == Assembled(l, PassedRight(s, t), r)
    ensures Assembled(Linked(l, t.node, t.left), s, r) == Assembled(l, PassedLeft(s, t), r)
  {
  }

  lemma RotatedSize(t: Tree)
    requires t.Branch?
    ensures t.left.Branch? ==> Size(RotatedRight(t)) == Size(t)
    ensures t.right.Branch? ==> Size(RotatedLeft(t)) == Size(t)
  {
  }

  /** The nodes of t come before all others of t0. */
  ghost predicate Front(t: Tree, t0: Tree) {
    && Sorted(InOrder(t)) && (forall x :: x in InOrder(t) ==> x in InOrder(t0))
    && forall x, y :: x in InOrder(t) && y in InOrder(t0) && y !in InOrder(t) ==> x.key < y.key
  }

  lemma FrontStart(t0: Tree)
    requires Sorted(InOrder(t0))
    ensures Front(t0, t0)
  {
  }

  lemma FrontStep(t: Tree, t0: Tree)
    requires t.Branch? && Front(t, t0)
    ensures Front(t.left, t0)
  {
    NodeParts(t);
    assert t.node in [t.node];
  }

  lemma FrontEnd(t: Tree, t0: Tree)
    requires t.Branch? && t.left.Leaf? && Front(t, t0)
    ensures t.node in InOrder(t0) && forall x :: x in InOrder(t0) ==> t.node.key <= x.key
  {
    NodeParts(t);
    assert t.node in [t.node];
  }

  lemma LinkLeftKeys(l: Spine, t: Tree, r: Spine, k: Goal)
    requires t.Branch? && Keyed(l, r, k) && Lt(k, t.node.key) && Sorted(All(l, t, r))
    ensures Keyed(l, Linked(r, t.node, t.right), k)
  {
    Parts(l, t, r);
    NodeParts(t);
    assert t.node in [t.node];
  }

  lemma LinkRightKeys(l: Spine, t: Tree, r: Spine, k: Goal)
    requires t.Branch? && Keyed(l, r, k) && Gt(k, t.node.key) && Sorted(All(l, t, r))
    ensures Keyed(Linked(l, t.node, t.left), r, k)
  {
    Parts(l, t, r);
    NodeParts(t);
    assert t.node in [t.node];
  }

  lemma InTree(l: Spine, t: Tree, r: Spine)
    requires t.Branch? && Sorted(All(l, t, r))
    ensures t.node in All(l, t, r)
  {
    Parts(l, t, r);
    NodeParts(t);
  }

  lemma ChildrenIn(l: Spine, t: Tree, r: Spine)
    requires t.Branch? && Sorted(All(l, t, r))
    ensures t.left.Branch? ==> t.left.node in All(l, t, r) && t.left.node != t.node
    ensures t.right.Branch? ==> t.right.node in All(l, t, r) && t.right.node != t.node
  {
    Parts(l, t, r);
    NodeParts(t);
    if t.left.Branch? {
      NodeParts(t.left);
    }
    if t.right.Branch? {
      NodeParts(t.right);
    }
  }

  lemma NotLatest(l: Spine, t: Tree, r: Spine, dummy: Node)
    requires t.Branch? && Sorted(All(l, t, r)) && dummy !in All(l, t, r)
    ensures t.node != Latest(l, dummy) && t.node != Latest(r, dummy)
  {
    Parts(l, t, r);
    NodeParts(t);
    LatestPlace(l, r, dummy);
  }

  // ---------- Insertion and removal, on the nodes in order ----------

  /** Whoever has the key is at the root after a splay. */
  lemma TopMatches(t: Tree, k: int)
    requires AtTop(t, At(k)) && Sorted(InOrder(t))
    ensures forall n :: n in InOrder(t) && n.key == k ==> n == t.node
  {
    NodeParts(t);
    assert t.node in [t.node];
  }

  /** Nothing is beyond the end that was brought to the root. */
  lemma EndAtTop(t: Tree, k: Goal, s: set<Node>)
    requires AtTop(t, k) && Sorted(InOrder(t)) && !k.At? && s == Members(t)
    ensures t.node in s && forall n :: n in s ==> if k.NegInf? then t.node.key <= n.key else n.key <= t.node.key
  {
    NodeParts(t);
    assert t.node in [t.node];
  }

  /** The nodes in order are determined by which nodes there are. */
  lemma {:induction false} OrderUnique(q: seq<Node>, q': seq<Node>)
    requires Sorted(q) && Sorted(q') && forall n :: n in q <==> n in q'
    ensures q == q'
  {
    assert (q != [] ==> q[0] in q') && (q' != [] ==> q'[0] in q);
    if q != [] && q' != [] {
      FirstIsLeast(q);
      FirstIsLeast(q');
      OrderUnique(q[1..], q'[1..]);
      assert q == [q[0]] + q[1..] && q' == [q'[0]] + q'[1..];
    }
  }

  lemma FirstIsLeast(q: seq<Node>)
    requires Sorted(q) && q != []
    ensures (forall n :: n in q ==> n == q[0] || q[0].key < n.key) && Sorted(q[1..])
    ensures forall n :: n in q[1..] <==> n in q && n != q[0]
  {
    assert q == [q[0]] + q[1..];
    SortedParts([q[0]], q[1..]);
    assert q[0] in [q[0]];
  }

  lemma MembersAre(t: Tree)
    requires t.Branch?
    ensures Members(t) == Members(t.left) + {t.node} + Members(t.right)
  {
    assert forall n :: n in InOrder(t) <==> n in InOrder(t.left) || n in [t.node] + InOrder(t.right);
  }

  /** Whether a node over two sorted subtrees is a sorted tree. */
  lemma SortedTree(t: Tree)
    requires t.Branch? && Sorted(InOrder(t.left)) && Sorted(InOrder(t.right))
    requires forall n :: n in Members(t.left) ==> n.key < t.node.key
    requires forall n :: n in Members(t.right) ==> t.node.key < n.key
    ensures Sorted(InOrder(t))
  {
    var a, b := InOrder(t.left), InOrder(t.right);
    assert forall n :: n in a ==> n in Members(t.left);
    assert forall n :: n in b ==> n in Members(t.right);
    SortedParts([t.node], b);
    assert Below(a, [t.node] + b);
    SortedParts(a, [t.node] + b);
  }

  lemma TreeParts(t: Tree)
    requires t.Branch? && Sorted(InOrder(t))
    ensures Sorted(InOrder(t.left)) && Sorted(InOrder(t.right)) && Members(t) == Members(t.left) + {t.node} + Members(t.right)
    ensures forall n :: n in Members(t.left) ==> n.key < t.node.key
    ensures forall n :: n in Members(t.right) ==> t.node.key < n.key
  {
    NodeParts(t);
    MembersAre(t);
    assert t.node in [t.node];
  }

  lemma Over(t: Tree)
    requires t.Branch? && Sorted(InOrder(t.left)) && Sorted(InOrder(t.right))
    requires forall n :: n in Members(t.left) ==> n.key < t.node.key
    requires forall n :: n in Members(t.right) ==> t.node.key < n.key
    ensures Sorted(InOrder(t)) && Members(t) == Members(t.left) + {t.node} + Members(t.right)
  {
    MembersAre(t);
    SortedTree(t);
  }

  lemma InsertLeft(t: Tree, x: Node)
    requires AtTop(t, At(x.key)) && Sorted(InOrder(t)) && x.key < t.node.key
    ensures var t' := Branch(t.left, x, Branch(Leaf, t.node, t.right)); Sorted(InOrder(t')) && Members(t') == Members(t) + {x}
  {
    TreeParts(t);
    Over(Branch(Leaf, t.node, t.right));
    assert forall n :: n in Members(t.left) ==> n in InOrder(t.left);
    Over(Branch(t.left, x, Branch(Leaf, t.node, t.right)));
  }

  lemma InsertRight(t: Tree, x: Node)
    requires AtTop(t, At(x.key)) && Sorted(InOrder(t)) && t.node.key < x.key
    ensures var t' := Branch(Branch(t.left, t.node, Leaf), x, t.right); Sorted(InOrder(t')) && Members(t') == Members(t) + {x}
  {
    TreeParts(t);
    Over(Branch(t.left, t.node, Leaf));
    assert forall n :: n in Members(t.right) ==> n in InOrder(t.right);
    Over(Branch(Branch(t.left, t.node, Leaf), x, t.right));
  }

  // ---------- The ends of a splay ----------

  lemma {:induction false} Shrink(m: Memory, m': Memory, t: Tree)
    requires Holds(m, t) && forall n :: n in InOrder(t) && n in m ==> n in m' && m'[n] == m[n]
    ensures Holds(m', t)
  {
    if t.Branch? {
      assert forall n :: n in InOrder(t) <==> n in InOrder(t.left) || n in [t.node] + InOrder(t.right);
      assert t.node in [t.node] + InOrder(t.right);
      Shrink(m, m', t.left);
      Shrink(m, m', t.right);
    }
  }

  lemma {:induction false} CloseOrder(s: Spine, t: Tree)
    ensures InOrder(CloseLeft(s, t)) == InLeft(s) + InOrder(t)
    ensures InOrder(CloseRight(s, t)) == InOrder(t) + InRight(s)
    decreases s
  {
    if s.Linked? {
      CloseOrder(s.up, Branch(s.tree, s.node, t));
      CloseOrder(s.up, Branch(t, s.node, s.tree));
      Assoc(InLeft(s.up), InOrder(s.tree) + [s.node], InOrder(t));
      Assoc(InOrder(s.tree), [s.node], InOrder(t));
      Assoc(InOrder(t), [s.node] + InOrder(s.tree), InRight(s.up));
      Assoc([s.node], InOrder(s.tree), InRight(s.up));
    } else {
      Empty(InOrder(t));
    }
  }

  /** After the last turn. */
  lemma Top(l: Spine, t: Tree, r: Spine, k: Goal)
    requires t.Branch? && Keyed(l, r, k)
    requires !(Lt(k, t.node.key) || Gt(k, t.node.key)) || (Lt(k, t.node.key) && t.left.Leaf?) || (Gt(k, t.node.key) && t.right.Leaf?)
    ensures AtTop(Assembled(l, t, r), k)
  {
    CloseOrder(l, t.left);
    CloseOrder(r, t.right);
  }

  /** Before the first turn. */
  lemma Begun(m: Memory, m': Memory, dummy: Node, t: Tree, k: Goal)
    requires Holds(m, t) && Sorted(InOrder(t)) && m.Keys == Members(t) && dummy !in m && dummy in m' && m'.Keys == m.Keys + {dummy}
    requires forall n :: n in m ==> m'[n] == m[n]
    ensures Mid(m', dummy, Nil, t, Nil) && Inside(m'.Keys, All(Nil, t, Nil)) && Keyed(Nil, Nil, k)
  {
    Empty(InOrder(t));
    Shrink(m, m', t);
  }

  lemma HasNode(t: Tree)
    ensures t.Branch? ==> t.node in InOrder(t)
  {
    if t.Branch? {
      assert t.node in [t.node] + InOrder(t.right);
    }
  }

  /** What a splay for a greater key brings up has nothing to its right. */
  lemma RightEmpty(l: Tree, t: Tree, k: int)
    requires AtTop(l, At(k)) && Sorted(InOrder(l)) && t.Branch? && k == t.node.key && Sorted(InOrder(t)) && InOrder(l) == InOrder(t.left)
    ensures l.right.Leaf?
  {
    NodeParts(l);
    NodeParts(t);
    assert t.node in [t.node];
    assert forall n :: n in InOrder(l) ==> n.key < k;
    assert forall n :: n in InOrder(l.right) ==> n in InOrder(l);
    HasNode(l.right);
  }

  lemma LeftPart(m: Memory, t: Tree)
    requires Holds(m, t) && t.Branch? && Sorted(InOrder(t))
    ensures t.node in m && m[t.node] == Cell(Ptr(t.left), Ptr(t.right)) && Holds(m, t.left)
    ensures Sorted(InOrder(t.left)) && Members(t.left) <= Members(t)
  {
    NodeParts(t);
  }

  lemma HangOrder(l: Tree, t: Tree)
    requires l.Branch? && l.right.Leaf? && t.Branch? && Sorted(InOrder(t)) && InOrder(l) == InOrder(t.left)
    ensures var t' := Branch(l.left, l.node, t.right); Sorted(InOrder(t')) && Members(t') == Members(t) - {t.node}
  {
    TreeParts(t);
    assert Members(l) == Members(t.left);
    TreeParts(l);
    Over(Branch(l.left, l.node, t.right));
  }

  lemma DropOrder(t: Tree)
    requires t.Branch? && t.left.Leaf? && Sorted(InOrder(t))
    ensures Sorted(InOrder(t.right)) && Members(t.right) == Members(t) - {t.node}
  {
    TreeParts(t);
  }

  lemma MembersOf(t: Tree, l: Tree)
    requires t.Branch? && Sorted(InOrder(t)) && InOrder(l) == InOrder(t.left)
    ensures Members(l) <= Members(t) && Members(t.right) <= Members(t)
  {
    NodeParts(t);
  }

  lemma HangHolds(m: Memory, l: Tree, t: Tree)
    requires l.Branch? && Sorted(InOrder(l)) && t.Branch? && Sorted(InOrder(t)) && InOrder(l) == InOrder(t.left)
    requires Holds(m, l) && Holds(m, t.right) && l.node in m
    ensures Holds(m[l.node := m[l.node].(right := Ptr(t.right))], Branch(l.left, l.node, t.right))
  {
    var c := m[l.node].(right := Ptr(t.right));
    NodeParts(l);
    NodeParts(t);
    TreeFrame(m, l.left, l.node, c);
    TreeFrame(m, t.right, l.node, c);
  }

  /** With t.right hung from its root, l holds all the nodes of t but one. */
  lemma Hangs(m0: Memory, m: Memory, l: Tree, t: Tree, k: int)
    requires Holds(m0, l) && Sorted(InOrder(l)) && m0.Keys == Members(l) <= m.Keys && forall n :: n in m0 ==> m[n] == m0[n]
    requires AtTop(l, At(k)) && t.Branch? && k == t.node.key && Sorted(InOrder(t)) && InOrder(l) == InOrder(t.left)
    requires m.Keys == Members(t) && Holds(m, t.right)
    ensures l.node in m && Holds(m[l.node := m[l.node].(right := Ptr(t.right))], Branch(l.left, l.node, t.right))
    ensures Sorted(InOrder(Branch(l.left, l.node, t.right)))
    ensures m.Keys - {t.node} == Members(Branch(l.left, l.node, t.right)) <= m.Keys
  {
    Shrink(m0, m, l);
    RightEmpty(l, t, k);
    HasNode(l);
    HangHolds(m, l, t);
    HangOrder(l, t);
  }

  /** Splaying the left subtree leaves the right one as it was. */
  lemma RightStays(m: Memory, m': Memory, t: Tree, left: set<Node>)
    requires Holds(m, t) && t.Branch? && Sorted(InOrder(t)) && left == Members(t.left)
    requires forall n :: n in m && n !in left ==> n in m' && m'[n] == m[n]
    ensures Holds(m', t.right)
  {
    NodeParts(t);
    Shrink(m, m', t.right);
  }

  function AboveLeft(m: Memory, n: Node, x: Node): Memory
    requires n in m && x in m && n != x
  {
    var m1 := m[x := m[x].(left := m[n].left)];
    var m2 := m1[x := m1[x].(right := n)];
    m2[n := m2[n].(left := null)]
  }

  lemma OnTopLeft(m: Memory, t: Tree, x: Node)
    requires Holds(m, t) && t.Branch? && Sorted(InOrder(t)) && x !in InOrder(t) && x in m && t.node in m && t.node != x
    ensures Holds(AboveLeft(m, t.node, x), Branch(t.left, x, Branch(Leaf, t.node, t.right)))
  {
    var n, c := t.node, Cell(m[t.node].left, t.node);
    NodeParts(t);
    TreeFrame(m, t.left, x, c);
    TreeFrame(m, t.right, x, c);
    var m2 := m[x := c];
    TreeFrame(m2, t.left, n, m2[n].(left := null));
    TreeFrame(m2, t.right, n, m2[n].(left := null));
    assert m[x := m[x].(left := m[n].left)][x := m[x].(left := m[n].left).(right := n)] == m2;
  }

  function AboveRight(m: Memory, n: Node, x: Node): Memory
    requires n in m && x in m && n != x
  {
    var m1 := m[x := m[x].(right := m[n].right)];
    var m2 := m1[x := m1[x].(left := n)];
    m2[n := m2[n].(right := null)]
  }

  lemma OverRightIs(m: Memory, n: Node, x: Node, c: Cell)
    requires n in m && x in m && n != x && c == Cell(n, m[n].right)
    ensures AboveRight(m, n, x) == m[x := c][n := m[n].(right := null)]
  {
  }

  lemma OnTopRight(m: Memory, t: Tree, x: Node)
    requires Holds(m, t) && t.Branch? && Sorted(InOrder(t)) && x !in InOrder(t) && x in m && t.node in m && t.node != x
    ensures Holds(AboveRight(m, t.node, x), Branch(Branch(t.left, t.node, Leaf), x, t.right))
  {
    var n, c := t.node, Cell(t.node, m[t.node].right);
    NodeParts(t);
    TreeFrame(m, t.left, x, c);
    TreeFrame(m, t.right, x, c);
    var m2 := m[x := c];
    TreeFrame(m2, t.left, n, m2[n].(right := null));
    TreeFrame(m2, t.right, n, m2[n].(right := null));
    OverRightIs(m, n, x, c);
  }

  /** With e at the root, the nodes above e are those to its right. */
  lemma SuccessorIs(t: Tree, e: Node)
    requires t.Branch? && t.node == e && Sorted(InOrder(t))
    ensures Sorted(InOrder(t.right)) && (forall n :: n in InOrder(t.right) <==> n in InOrder(t) && e.key < n.key)
  {
    NodeParts(t);
    assert e in [e];
  }
}
