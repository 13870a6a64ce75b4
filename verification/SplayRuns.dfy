/** The Balance Theorem that include/uv/tree.h:50-52 promises: the turns of all splays together are bounded by the
    operations times the logarithm of the size.  SPLAY_NEXT's own loop is not covered by it. */
module SplayRuns {
  import opened Arithmetic
  import opened SplayLinks
  import opened SplaySteps
  import opened SplayShape
  import opened SplayBalance

  function Power(x: nat, e: nat): nat {
    if e == 0 then 1 else Times(Power(x, e - 1), x)
  }

  lemma {:induction false} PowerSum(x: nat, a: nat, b: nat)
    ensures Power(x, a + b) == Times(Power(x, a), Power(x, b))
  {
    if b > 0 {
      PowerSum(x, a, b - 1);
      Assoc3(Power(x, a), Power(x, b - 1), x);
    } else {
      One(Power(x, a));
    }
  }

  lemma {:induction false} PowerMono(x: nat, y: nat, a: nat, b: nat)
    requires 1 <= x <= y && a <= b
    ensures 1 <= Power(x, a) <= Power(y, b)
    decreases b
  {
    if a > 0 {
      PowerMono(x, y, a - 1, b - 1);
      Mono(Power(x, a - 1), Power(y, b - 1), x, y);
      Positive(Power(x, a - 1), x);
    } else if b > 0 {
      PowerMono(x, y, a, b - 1);
      Positive(Power(y, b - 1), y);
    }
  }

  lemma CubePower(x: nat)
    ensures Power(x, 3) == Cube(x)
  {
    One(x);
    assert Power(x, 1) == x;
    assert Power(x, 2) == Times(x, x);
    Commute(Times(x, x), x);
  }

  lemma PowTimes(a: nat, b: nat)
    ensures Pow2(a + b) == Times(Pow2(a), Pow2(b))
  {
    PowSum(a, b);
    TimesIs(Pow2(a), Pow2(b));
  }

  lemma {:induction false} PotentialPositive(t: Tree)
    ensures Potential(t) >= 1
  {
    if t.Branch? {
      PotentialPositive(t.left);
      PotentialPositive(t.right);
      Positive(Potential(t.left), Potential(t.right));
      Positive(Weight(t), Times(Potential(t.left), Potential(t.right)));
    }
  }

  // ---------- One operation ----------

  function Adds(op: Op): nat {
    if op.Insert? then 1 else 0
  }

  /** What an operation may take, as an exponent: three for each splay, and one for the node that comes in. */
  function Allowance(op: Op): nat {
    if op.Insert? then 4 else if op.Remove? then 6 else 3
  }

  /** n turns that make b of a are paid for, where e times lg x are allowed for them. */
  predicate Pays(n: nat, e: nat, x: nat, a: Tree, b: Tree) {
    Times(Pow2(n), Potential(b)) <= Times(Power(x, e), Potential(a))
  }

  lemma CubeMono(x: nat, y: nat, p: nat)
    requires x <= y
    ensures Times(Cube(x), p) <= Times(Power(y, 3), p)
  {
    CubePower(y);
    Mono(x, y, x, y);
    Mono(x, y, Times(x, x), Times(y, y));
    Mono(Cube(x), Cube(y), p, p);
  }

  /** After each other: y1 from a to b, y2 from b to c. */
  lemma Chained(y1: nat, y2: nat, a: nat, b: nat, c: nat, m1: nat, m2: nat)
    requires Times(y1, b) <= Times(m1, a) && Times(y2, c) <= Times(m2, b)
    ensures Times(Times(y1, y2), c) <= Times(Times(m1, m2), a)
  {
    Assoc3(y1, y2, c);
    Mono(y1, y1, Times(y2, c), Times(m2, b));
    Swap(y1, m2, b);
    Mono(m2, m2, Times(y1, b), Times(m1, a));
    Assoc3(m2, m1, a);
    Commute(m2, m1);
  }

  lemma Follows(n1: nat, n2: nat, e1: nat, e2: nat, x: nat, a: Tree, b: Tree, c: Tree)
    requires Pays(n1, e1, x, a, b) && Pays(n2, e2, x, b, c)
    ensures Pays(n1 + n2, e1 + e2, x, a, c)
  {
    Chained(Pow2(n1), Pow2(n2), Potential(a), Potential(b), Potential(c), Power(x, e1), Power(x, e2));
    PowTimes(n1, n2);
    PowerSum(x, e1, e2);
  }

  lemma Nothing(e: nat, x: nat, t: Tree)
    requires x >= 1
    ensures Pays(0, e, x, t, t)
  {
    PowerMono(x, x, 0, e);
    Mono(1, Power(x, e), Potential(t), Potential(t));
  }

  lemma SplayIsPaid(t: Tree, k: Goal, o: Outcome, x: nat)
    requires t.Branch? && o == Splay(t, k) && Weight(t) <= x
    ensures Weight(o.tree) == Weight(t) && Pays(o.turns, 3, x, t, o.tree)
  {
    SplayPays(t, k);
    CubeMono(Weight(t), x, Potential(t));
  }

  lemma BroughtPays(t: Tree, k: Goal, b: Performed, x: nat)
    requires b == Brought(t, k) && Weight(t) <= x
    ensures Weight(b.tree) == Weight(t) && Pays(b.turns, 3, x, t, b.tree)
  {
    if t.Branch? {
      SplayIsPaid(t, k, Splay(t, k), x);
    } else {
      Nothing(3, x, t);
    }
  }

  /** A node put on top multiplies the potential by no more than the new weight. */
  lemma PutPays(s: Tree, elm: Node)
    ensures var u := PutOnTop(s, elm);
      Weight(u) <= Weight(s) + 1 && Potential(u) <= Times(Weight(s) + 1, Potential(s))
  {
    PotentialPositive(s);
    if s.Leaf? {
      One(1);
      PotentialIs(Branch(Leaf, elm, Leaf));
      TimesIs(2, 1);
    } else if elm.key < s.node.key {
      PutLeftPays(s, elm);
    } else if s.node.key < elm.key {
      PutRightPays(s, elm);
    } else {
      Mono(1, Weight(s) + 1, Potential(s), Potential(s));
      One(Potential(s));
    }
  }

  lemma PutOrder(w': nat, v: nat, w: nat, p: nat, q: nat)
    requires v <= w
    ensures Times(w', Times(p, Times(v, q))) <= Times(w', Times(w, Times(p, q)))
    ensures Times(w', Times(Times(v, p), q)) <= Times(w', Times(w, Times(p, q)))
  {
    Swap(p, v, q);
    Assoc3(v, p, q);
    Mono(v, w, Times(p, q), Times(p, q));
    Mono(w', w', Times(v, Times(p, q)), Times(w, Times(p, q)));
  }

  lemma PutLeftPays(s: Tree, elm: Node)
    requires s.Branch?
    ensures var u := Branch(s.left, elm, Branch(Leaf, s.node, s.right));
      Weight(u) == Weight(s) + 1 && Potential(u) <= Times(Weight(u), Potential(s))
  {
    var v := Branch(Leaf, s.node, s.right);
    var u := Branch(s.left, elm, v);
    PotentialIs(s);
    PotentialIs(v);
    PotentialIs(u);
    One(Potential(s.right));
    PutOrder(Weight(u), Weight(v), Weight(s), Potential(s.left), Potential(s.right));
  }

  lemma PutRightPays(s: Tree, elm: Node)
    requires s.Branch?
    ensures var u := Branch(Branch(s.left, s.node, Leaf), elm, s.right);
      Weight(u) == Weight(s) + 1 && Potential(u) <= Times(Weight(u), Potential(s))
  {
    var v := Branch(s.left, s.node, Leaf);
    var u := Branch(v, elm, s.right);
    PotentialIs(s);
    PotentialIs(v);
    PotentialIs(u);
    One(Potential(s.left));
    PutOrder(Weight(u), Weight(v), Weight(s), Potential(s.left), Potential(s.right));
  }

  lemma PutFits(s: Tree, elm: Node, u: Tree, x: nat)
    requires u == PutOnTop(s, elm) && Weight(s) + 1 <= x
    ensures Weight(u) <= Weight(s) + 1 && Pays(0, 1, x, s, u)
  {
    PutPays(s, elm);
    Mono(Weight(s) + 1, x, Potential(s), Potential(s));
    One(Potential(u));
    One(x);
    assert Power(x, 1) == Times(Power(x, 0), x) == x;
  }

  lemma TakenPays(s: Tree, key: int, q: Performed, x: nat)
    requires q == TakenOut(s, key) && Weight(s) <= x
    ensures Weight(q.tree) <= Weight(s) && Pays(q.turns, 3, x, s, q.tree)
  {
    if s.Leaf? || key != s.node.key {
      Nothing(3, x, s);
    } else if s.left.Leaf? {
      DropPays(s, x);
    } else {
      var o := Splay(s.left, At(key));
      SplayPays(s.left, At(key));
      HungPays(s, o, Branch(o.tree.left, o.tree.node, s.right), x);
    }
  }

  lemma DropPays(s: Tree, x: nat)
    requires s.Branch? && s.left.Leaf? && Weight(s) <= x
    ensures Weight(s.right) <= Weight(s) && Pays(0, 3, x, s, s.right)
  {
    PotentialIs(s);
    One(Potential(s.right));
    Mono(1, Weight(s), Potential(s.right), Potential(s.right));
    PowerMono(x, x, 0, 3);
    Mono(1, Power(x, 3), Potential(s.right), Potential(s));
  }

  /** The right side hung from what the second splay brings up. */
  lemma HungPays(s: Tree, o: Outcome, u: Tree, x: nat)
    requires s.Branch? && s.left.Branch? && Real(o) && u == Branch(o.tree.left, o.tree.node, s.right) && Weight(s) <= x
    requires Weight(o.tree) == Weight(s.left)
    requires 4 * Times(Pow2(o.turns), Potential(o.tree)) <= Times(Cube(Weight(s.left)), Potential(s.left))
    ensures Weight(u) <= Weight(s) && Pays(o.turns, 3, x, s, u)
  {
    CubeMono(Weight(s.left), x, Potential(s.left));
    HungPotential(s, o.tree, u);
    PotentialIs(s);
    HungOrder(Pow2(o.turns), Weight(s), Potential(o.tree), Potential(s.right), Power(x, 3), Potential(s.left), Potential(u));
  }

  lemma HungOrder(y: nat, w: nat, p: nat, r: nat, c: nat, a: nat, z: nat)
    requires 4 * Times(y, p) <= Times(c, a) && z <= Times(w, Times(p, r))
    ensures Times(y, z) <= Times(c, Times(w, Times(a, r)))
  {
    Mono(y, y, z, Times(w, Times(p, r)));
    Swap(y, w, Times(p, r));
    Assoc3(y, p, r);
    Mono(Times(y, p), Times(c, a), r, r);
    Assoc3(c, a, r);
    Mono(w, w, Times(Times(y, p), r), Times(c, Times(a, r)));
    Swap(c, w, Times(a, r));
  }

  lemma HungPotential(s: Tree, l: Tree, u: Tree)
    requires s.Branch? && l.Branch? && Weight(l) == Weight(s.left) && u == Branch(l.left, l.node, s.right)
    ensures Weight(u) <= Weight(s) && Potential(u) <= Times(Weight(s), Times(Potential(l), Potential(s.right)))
  {
    PotentialIs(s);
    PotentialIs(l);
    PotentialIs(u);
    PotentialPositive(l.right);
    Mono(1, Potential(l.right), Potential(l.left), Potential(l.left));
    One(Potential(l.left));
    Commute(Potential(l.right), Potential(l.left));
    Mono(1, Weight(l), Potential(l.left), Times(Potential(l.left), Potential(l.right)));
    Mono(Potential(l.left), Potential(l), Potential(s.right), Potential(s.right));
    Mono(Weight(u), Weight(s), Times(Potential(l.left), Potential(s.right)), Times(Potential(l), Potential(s.right)));
  }

  lemma PutAfter(n: nat, t: Tree, s: Tree, elm: Node, u: Tree, x: nat)
    requires Pays(n, 3, x, t, s) && u == PutOnTop(s, elm) && Weight(s) + 1 <= x
    ensures Weight(u) <= Weight(s) + 1 && Pays(n, 4, x, t, u)
  {
    PutFits(s, elm, u, x);
    Follows(n, 0, 3, 1, x, t, s, u);
  }

  lemma InsertPays(t: Tree, elm: Node, p: Performed, x: nat)
    requires p == Perform(t, Insert(elm)) && Weight(t) + 1 <= x
    ensures Weight(p.tree) <= Weight(t) + 1 && Pays(p.turns, 4, x, t, p.tree)
  {
    var b := Brought(t, At(elm.key));
    assert p.tree == PutOnTop(b.tree, elm) && p.turns == b.turns;
    BroughtPays(t, At(elm.key), b, x);
    PutAfter(b.turns, t, b.tree, elm, p.tree, x);
  }

  lemma TakenAfter(n: nat, t: Tree, s: Tree, q: Performed, x: nat)
    requires Pays(n, 3, x, t, s) && Pays(q.turns, 3, x, s, q.tree)
    ensures Pays(n + q.turns, 6, x, t, q.tree)
  {
    Follows(n, q.turns, 3, 3, x, t, s, q.tree);
  }

  lemma PerformsRemove(t: Tree, key: int)
    ensures var b := Brought(t, At(key));
      var q := TakenOut(b.tree, key);
      Perform(t, Remove(key)).tree == q.tree && Perform(t, Remove(key)).turns == b.turns + q.turns
  {
  }

  lemma BothPay(t: Tree, key: int, b: Performed, q: Performed, x: nat)
    requires b == Brought(t, At(key)) && q == TakenOut(b.tree, key) && Weight(t) <= x
    ensures Weight(q.tree) <= Weight(t) && Pays(b.turns + q.turns, 6, x, t, q.tree)
  {
    BroughtPays(t, At(key), b, x);
    TakenPays(b.tree, key, q, x);
    TakenAfter(b.turns, t, b.tree, q, x);
  }

  lemma RemovePays(t: Tree, key: int, p: Performed, x: nat)
    requires p == Perform(t, Remove(key)) && Weight(t) <= x
    ensures Weight(p.tree) <= Weight(t) && Pays(p.turns, 6, x, t, p.tree)
  {
    PerformsRemove(t, key);
    BothPay(t, key, Brought(t, At(key)), TakenOut(Brought(t, At(key)).tree, key), x);
  }

  /** An operation on a tree that stays within n nodes, n + 1 being x. */
  lemma OpPays(t: Tree, op: Op, p: Performed, x: nat)
    requires p == Perform(t, op) && Weight(t) + Adds(op) <= x
    ensures Weight(p.tree) <= Weight(t) + Adds(op) && Pays(p.turns, Allowance(op), x, t, p.tree)
  {
    match op
    case Insert(elm) => InsertPays(t, elm, p, x);
    case Remove(key) => RemovePays(t, key, p, x);
    case Find(key) => BroughtPays(t, At(key), Brought(t, At(key)), x);
    case Least => BroughtPays(t, NegInf, Brought(t, NegInf), x);
    case Greatest => BroughtPays(t, Inf, Brought(t, Inf), x);
    case Next(key) => BroughtPays(t, At(key), Brought(t, At(key)), x);
  }

  // ---------- Runs ----------

  /** The tree after a run, the turns of all its splays, the steps of SPLAY_NEXT's own loop, the nodes put in, and what
      the operations may take. */
  datatype Totals = Totals(tree: Tree, turns: nat, steps: nat, inserts: nat, allowance: nat)

  function Then(r: Totals, op: Op): Totals {
    var p := Perform(r.tree, op);
    Totals(p.tree, r.turns + p.turns, r.steps + p.steps, r.inserts + Adds(op), r.allowance + Allowance(op))
  }

  function Run(t: Tree, ops: seq<Op>): Totals {
    if ops == [] then Totals(t, 0, 0, 0, 0) else Then(Run(t, ops[..|ops| - 1]), ops[|ops| - 1])
  }

  lemma TogetherPay(r: Totals, p: Performed, a: nat, e: nat, r': Totals, t: Tree, x: nat)
    requires Weight(r.tree) <= Weight(t) + r.inserts && Pays(r.turns, r.allowance, x, t, r.tree)
    requires Weight(p.tree) <= Weight(r.tree) + a && Pays(p.turns, e, x, r.tree, p.tree)
    requires r' == Totals(p.tree, r.turns + p.turns, r.steps + p.steps, r.inserts + a, r.allowance + e)
    ensures Weight(r'.tree) <= Weight(t) + r'.inserts && Pays(r'.turns, r'.allowance, x, t, r'.tree)
  {
    Follows(r.turns, p.turns, r.allowance, e, x, t, r.tree, p.tree);
  }

  lemma RunLast(t: Tree, ops: seq<Op>, r: Totals, op: Op)
    requires ops != [] && r == Run(t, ops[..|ops| - 1]) && op == ops[|ops| - 1]
    ensures var p := Perform(r.tree, op);
      Run(t, ops) == Totals(p.tree, r.turns + p.turns, r.steps + p.steps, r.inserts + Adds(op), r.allowance + Allowance(op))
  {
  }

  /** The turns of a run are paid for by its operations and by what the potential falls by. */
  lemma {:induction false} RunPays(t: Tree, ops: seq<Op>, r: Totals, x: nat)
    requires r == Run(t, ops) && Weight(t) + r.inserts <= x
    ensures Weight(r.tree) <= Weight(t) + r.inserts && Pays(r.turns, r.allowance, x, t, r.tree)
    decreases ops
  {
    if ops == [] {
      Nothing(0, x, t);
    } else {
      var r0, op := Run(t, ops[..|ops| - 1]), ops[|ops| - 1];
      var p := Perform(r0.tree, op);
      RunLast(t, ops, r0, op);
      RunPays(t, ops[..|ops| - 1], r0, x);
      OpPays(r0.tree, op, p, x);
      TogetherPay(r0, p, Adds(op), Allowance(op), r, t, x);
    }
  }

  lemma TurnsPaid(n: nat, e: nat, x: nat, a: Tree, b: Tree)
    requires Pays(n, e, x, a, b)
    ensures Pow2(n) <= Times(Power(x, e), Potential(a))
  {
    PotentialPositive(b);
    Mono(Pow2(n), Pow2(n), 1, Potential(b));
    One(Pow2(n));
  }

  lemma {:induction false} AllowanceIs(t: Tree, ops: seq<Op>)
    ensures Run(t, ops).allowance <= 6 * |ops|
    ensures (forall op :: op in ops ==> !op.Insert? && !op.Remove?) ==> Run(t, ops).inserts == 0 && Run(t, ops).allowance == 3 * |ops|
  {
    if ops != [] {
      AllowanceIs(t, ops[..|ops| - 1]);
    }
  }

  /** The Balance Theorem: from an empty tree, with n nodes put in, the turns are at most lg(n + 1) times what the
      operations allow: three for a splay and one for a node that comes in. */
  lemma Balance(ops: seq<Op>, r: Totals)
    requires r == Run(Leaf, ops)
    ensures Pow2(r.turns) <= Power(r.inserts + 1, r.allowance) <= Power(r.inserts + 1, 6 * |ops|)
  {
    RunPays(Leaf, ops, r, r.inserts + 1);
    TurnsPaid(r.turns, r.allowance, r.inserts + 1, Leaf, r.tree);
    One(Power(r.inserts + 1, r.allowance));
    AllowanceIs(Leaf, ops);
    PowerMono(r.inserts + 1, r.inserts + 1, r.allowance, 6 * |ops|);
  }

  lemma {:induction false} PotentialBound(t: Tree, x: nat)
    requires Weight(t) <= x
    ensures Potential(t) <= Power(x, Size(t))
  {
    if t.Branch? {
      PotentialBound(t.left, x);
      PotentialBound(t.right, x);
      ProductBound(Weight(t), Potential(t.left), Potential(t.right), x, Size(t.left), Size(t.right));
    }
  }

  lemma ProductBound(w: nat, p: nat, q: nat, x: nat, a: nat, b: nat)
    requires w <= x && p <= Power(x, a) && q <= Power(x, b)
    ensures Times(w, Times(p, q)) <= Power(x, a + 1 + b)
  {
    Mono(p, Power(x, a), q, Power(x, b));
    PowerSum(x, a, b);
    Mono(w, x, Times(p, q), Power(x, a + b));
    Commute(x, Power(x, a + b));
  }

  lemma TurnsBounded(n: nat, e: nat, x: nat, a: Tree, b: Tree)
    requires Pays(n, e, x, a, b) && Weight(a) <= x
    ensures Pow2(n) <= Power(x, e + Size(a))
  {
    TurnsPaid(n, e, x, a, b);
    PotentialBound(a, x);
    Mono(Power(x, e), Power(x, e), Potential(a), Power(x, Size(a)));
    PowerSum(x, e, Size(a));
  }

  lemma TurnsWithin(t: Tree, ops: seq<Op>, r: Totals, x: nat, e: nat)
    requires r == Run(t, ops) && Weight(t) + r.inserts <= x && e == r.allowance
    ensures Pow2(r.turns) <= Power(x, e + Size(t))
  {
    RunPays(t, ops, r, x);
    TurnsBounded(r.turns, e, x, t, r.tree);
  }

  /** m accesses to any tree of n nodes take at most 3 * m + n times lg(n + 1) turns. */
  lemma Accesses(t: Tree, ops: seq<Op>, r: Totals)
    requires r == Run(t, ops) && forall op :: op in ops ==> !op.Insert? && !op.Remove?
    ensures Pow2(r.turns) <= Power(Size(t) + 1, 3 * |ops| + Size(t))
  {
    WeightIs(t);
    AllowanceIs(t, ops);
    TurnsWithin(t, ops, r, Size(t) + 1, 3 * |ops|);
  }
}
