/** What a top-down splay makes of a tree, and how many turns its loop takes (include/uv/tree.h:209-241). */
module SplayShape {
  import opened SplayLinks
  import opened SplaySteps

  function Size(t: Tree): nat {
    if t.Leaf? then 0 else Size(t.left) + 1 + Size(t.right)
  }

  /** What is brought to the root: a key, or with MINMAX the least or the greatest of all. */
  datatype Goal = NegInf | At(key: int) | Inf

  /** The comparison of elm, or of MINMAX's constant, with a node's key. */
  predicate Lt(k: Goal, key: int) {
    k.NegInf? || (k.At? && k.key < key)
  }

  predicate Gt(k: Goal, key: int) {
    k.Inf? || (k.At? && key < k.key)
  }

  /** What is brought up from below, as s, goes past t: t's root and its right side are linked to the right of it. */
  function PassedRight(s: Tree, t: Tree): Tree
    requires s.Branch? && t.Branch?
  {
    Branch(s.left, s.node, Branch(s.right, t.node, t.right))
  }

  function PassedLeft(s: Tree, t: Tree): Tree
    requires s.Branch? && t.Branch?
  {
    Branch(Branch(t.left, t.node, s.left), s.node, s.right)
  }

  /** The tree after a splay, the turns of the loop, and the subtree that the node brought up was the root of. */
  datatype Outcome = Outcome(tree: Tree, turns: nat, foot: Tree)

  predicate Real(o: Outcome) {
    o.tree.Branch? && o.foot.Branch?
  }

  /** A turn more, past t. */
  function PastRight(o: Outcome, t: Tree): (o': Outcome)
    requires Real(o) && t.Branch?
    ensures Real(o')
  {
    Outcome(PassedRight(o.tree, t), o.turns + 1, o.foot)
  }

  function PastLeft(o: Outcome, t: Tree): (o': Outcome)
    requires Real(o) && t.Branch?
    ensures Real(o')
  {
    Outcome(PassedLeft(o.tree, t), o.turns + 1, o.foot)
  }

  /** Two steps in one direction are a rotation and a link, one turn; a step that turns back is a link alone. */
  function Splay(t: Tree, k: Goal): (o: Outcome)
    requires t.Branch?
    ensures Real(o)
    decreases t, 1
  {
    if Lt(k, t.node.key) then LeftWay(t, k) else if Gt(k, t.node.key) then RightWay(t, k) else Outcome(t, 0, t)
  }

  function LeftWay(t: Tree, k: Goal): (o: Outcome)
    requires t.Branch?
    ensures Real(o)
    decreases t, 0
  {
    if t.left.Leaf? then Outcome(t, 1, t)
    else if !Lt(k, t.left.node.key) then PastRight(Splay(t.left, k), t)
    else if t.left.left.Leaf? then Outcome(RotatedRight(t), 1, t.left)
    else PastRight(Splay(t.left.left, k), RotatedRight(t))
  }

  function RightWay(t: Tree, k: Goal): (o: Outcome)
    requires t.Branch?
    ensures Real(o)
    decreases t, 0
  {
    if t.right.Leaf? then Outcome(t, 1, t)
    else if !Gt(k, t.right.node.key) then PastLeft(Splay(t.right, k), t)
    else if t.right.right.Leaf? then Outcome(RotatedLeft(t), 1, t.right)
    else PastLeft(Splay(t.right.right, k), RotatedLeft(t))
  }

  /** One turn of a splay that goes to the left. */
  lemma LeftTurn(t: Tree, k: Goal)
    requires t.Branch? && Lt(k, t.node.key)
    ensures t.left.Leaf? ==> Splay(t, k) == Outcome(t, 1, t)
    ensures t.left.Branch? && !Lt(k, t.left.node.key) ==> Splay(t, k) == PastRight(Splay(t.left, k), t)
    ensures t.left.Branch? && Lt(k, t.left.node.key) && t.left.left.Leaf? ==> Splay(t, k) == Outcome(RotatedRight(t), 1, t.left)
    ensures t.left.Branch? && Lt(k, t.left.node.key) && t.left.left.Branch? ==> Splay(t, k) == PastRight(Splay(t.left.left, k), RotatedRight(t))
  {
  }

  lemma RightTurn(t: Tree, k: Goal)
    requires t.Branch? && Gt(k, t.node.key)
    ensures t.right.Leaf? ==> Splay(t, k) == Outcome(t, 1, t)
    ensures t.right.Branch? && !Gt(k, t.right.node.key) ==> Splay(t, k) == PastLeft(Splay(t.right, k), t)
    ensures t.right.Branch? && Gt(k, t.right.node.key) && t.right.right.Leaf? ==> Splay(t, k) == Outcome(RotatedLeft(t), 1, t.right)
    ensures t.right.Branch? && Gt(k, t.right.node.key) && t.right.right.Branch? ==> Splay(t, k) == PastLeft(Splay(t.right.right, k), RotatedLeft(t))
  {
  }

  // ---------- The operations ----------

  datatype Op = Insert(elm: Node) | Remove(key: int) | Find(key: int) | Least | Greatest | Next(key: int)

  /** The tree after an operation, the turns of its splays, and the steps of SPLAY_NEXT's own loop at lines 145 to 147. */
  datatype Performed = Performed(tree: Tree, turns: nat, steps: nat)

  /** Nothing is splayed in an empty tree. */
  function Brought(t: Tree, k: Goal): Performed {
    if t.Leaf? then Performed(t, 0, 0) else Performed(Splay(t, k).tree, Splay(t, k).turns, 0)
  }

  /** Lines 168 to 185. */
  function PutOnTop(s: Tree, elm: Node): Tree {
    if s.Leaf? then Branch(Leaf, elm, Leaf)
    else if elm.key < s.node.key then Branch(s.left, elm, Branch(Leaf, s.node, s.right))
    else if s.node.key < elm.key then Branch(Branch(s.left, s.node, Leaf), elm, s.right)
    else s
  }

  /** Lines 195 to 203: a second splay brings the greatest node of the left side up. */
  function TakenOut(s: Tree, key: int): Performed {
    if s.Leaf? || key != s.node.key then Performed(s, 0, 0)
    else if s.left.Leaf? then Performed(s.right, 0, 0)
    else
      var o := Splay(s.left, At(key));
      Performed(Branch(o.tree.left, o.tree.node, s.right), o.turns, 0)
  }

  /** The left links that are followed from the root of t. */
  function Walk(t: Tree): nat {
    if t.Leaf? || t.left.Leaf? then 0 else 1 + Walk(t.left)
  }

  function Perform(t: Tree, op: Op): Performed {
    match op
    case Insert(elm) => var p := Brought(t, At(elm.key)); p.(tree := PutOnTop(p.tree, elm))
    case Remove(key) => var p := Brought(t, At(key)); var q := TakenOut(p.tree, key); q.(turns := p.turns + q.turns)
    case Find(key) => Brought(t, At(key))
    case Least => Brought(t, NegInf)
    case Greatest => Brought(t, Inf)
    case Next(key) => var p := Brought(t, At(key)); if p.tree.Leaf? then p else p.(steps := Walk(p.tree.right))
  }
}
