/** SPLAY_NEXT walks down without splaying (include/uv/tree.h:143-147), so the bound that the comment at lines 50-52
    gives for all operations is not met by runs that contain it; it is met by all others. */
module SplayNext {
  import opened Arithmetic
  import opened SplayLinks
  import opened SplaySteps
  import opened SplayShape
  import opened SplayBalance
  import opened SplayRuns

  /** A run of m operations with n nodes put in takes no more than c * m * lg(n + 1) turns and steps. */
  predicate Within(c: nat, ops: seq<Op>) {
    var r := Run(Leaf, ops);
    Pow2(r.turns + r.steps) <= Power(r.inserts + 1, c * |ops|)
  }

  predicate NoNext(ops: seq<Op>) {
    forall op :: op in ops ==> !op.Next?
  }

  lemma {:induction false} NoSteps(t: Tree, ops: seq<Op>)
    requires NoNext(ops)
    ensures Run(t, ops).steps == 0
  {
    if ops != [] {
      NoSteps(t, ops[..|ops| - 1]);
    }
  }

  lemma WithoutNext(c: nat, ops: seq<Op>)
    requires c >= 6 && NoNext(ops)
    ensures Within(c, ops)
  {
    var r := Run(Leaf, ops);
    NoSteps(Leaf, ops);
    Balance(ops, r);
    MulMono(6, c, |ops|);
    PowerMono(r.inserts + 1, r.inserts + 1, 6 * |ops|, c * |ops|);
  }

  // ---------- A run with SPLAY_NEXT ----------

  /** What nodes put in upwards make: each has all before it to its left. */
  function Chain(xs: seq<Node>): Tree {
    if xs == [] then Leaf else Branch(Chain(xs[..|xs| - 1]), xs[|xs| - 1], Leaf)
  }

  function Puts(xs: seq<Node>): seq<Op> {
    seq(|xs|, i requires 0 <= i < |xs| => Insert(xs[i]))
  }

  function Nexts(key: int, m: nat): seq<Op> {
    seq(m, i => Next(key))
  }

  lemma RunOn(t: Tree, ops: seq<Op>, op: Op)
    ensures Run(t, ops + [op]) == Then(Run(t, ops), op)
  {
    assert (ops + [op])[..|ops|] == ops;
  }

  lemma PutAbove(t: Tree, xs: seq<Node>, n: nat)
    requires Sorted(xs) && n < |xs| && t == Chain(xs[..n])
    ensures Perform(t, Insert(xs[n])).tree == Branch(t, xs[n], Leaf)
  {
    if n > 0 {
      assert t.node == xs[n - 1] && t.right.Leaf? && t.node.key < xs[n].key;
      RightTurn(t, At(xs[n].key));
    }
  }

  lemma {:induction false} PutUpwards(xs: seq<Node>)
    requires Sorted(xs)
    ensures var r := Run(Leaf, Puts(xs)); r.tree == Chain(xs) && r.inserts == |xs|
  {
    if xs != [] {
      var n := |xs| - 1;
      var before := xs[..n];
      PutUpwards(before);
      assert Puts(xs) == Puts(before) + [Insert(xs[n])];
      RunOn(Leaf, Puts(before), Insert(xs[n]));
      PutAbove(Chain(before), xs, n);
    }
  }

  /** The left links from t on. */
  function Spine(t: Tree): nat {
    if t.Leaf? then 0 else 1 + Spine(t.left)
  }

  lemma {:induction false} WalkIs(t: Tree)
    requires t.Branch?
    ensures Spine(t) == Walk(t) + 1
  {
    if t.left.Branch? {
      WalkIs(t.left);
    }
  }

  /** A splay for the least node of a chain leaves half of it on a chain still. */
  lemma {:induction false} HalfStays(xs: seq<Node>, o: Tree)
    requires Sorted(xs) && xs != [] && o == Splay(Chain(xs), At(xs[0].key)).tree
    ensures o.node == xs[0] && o.left.Leaf? && Spine(o.right) == |xs| / 2
    decreases |xs|
  {
    var n, k := |xs|, At(xs[0].key);
    if n >= 2 {
      var below := xs[..n - 1];
      assert Chain(xs) == Branch(Chain(below), xs[n - 1], Leaf) && xs[0].key < xs[n - 1].key;
      assert Chain(below) == Branch(Chain(below[..n - 2]), xs[n - 2], Leaf);
      LeftTurn(Chain(xs), k);
      if n == 2 {
        assert Splay(Chain(below), k) == Outcome(Chain(below), 0, Chain(below));
      } else {
        HalfStays(xs[..n - 2], Splay(Chain(xs[..n - 2]), k).tree);
        assert below[..n - 2] == xs[..n - 2] && xs[0].key < xs[n - 2].key && Chain(xs[..n - 2]).Branch?;
      }
    }
  }

  /** With key at the root, SPLAY_NEXT changes nothing and walks the same way each time. */
  lemma {:induction false} Again(ops: seq<Op>, key: int, m: nat)
    requires var t := Run(Leaf, ops).tree; t.Branch? && t.node.key == key
    ensures var r, r' := Run(Leaf, ops), Run(Leaf, ops + Nexts(key, m));
      r'.tree == r.tree && r'.inserts == r.inserts && r'.steps == r.steps + m * Walk(r.tree.right)
  {
    if m == 0 {
      assert ops + Nexts(key, m) == ops;
    } else {
      Again(ops, key, m - 1);
      assert ops + Nexts(key, m) == (ops + Nexts(key, m - 1)) + [Next(key)];
      RunOn(Leaf, ops + Nexts(key, m - 1), Next(key));
      assert m * Walk(Run(Leaf, ops).tree.right) == (m - 1) * Walk(Run(Leaf, ops).tree.right) + Walk(Run(Leaf, ops).tree.right);
    }
  }

  /** Nodes put in upwards, the least one looked up, and then SPLAY_NEXT of it m times. */
  function Costly(xs: seq<Node>, m: nat): seq<Op>
    requires xs != []
  {
    Puts(xs) + [Find(xs[0].key)] + Nexts(xs[0].key, m)
  }

  lemma CostlyRun(xs: seq<Node>, m: nat)
    requires Sorted(xs) && |xs| >= 2
    ensures var r := Run(Leaf, Costly(xs, m));
      r.inserts == |xs| && r.steps >= m * (|xs| / 2 - 1) && |Costly(xs, m)| == |xs| + 1 + m
  {
    var ops, key := Puts(xs), xs[0].key;
    PutUpwards(xs);
    RunOn(Leaf, ops, Find(key));
    var t := Run(Leaf, ops + [Find(key)]).tree;
    HalfStays(xs, t);
    WalkIs(t.right);
    Again(ops + [Find(key)], key, m);
  }

  lemma {:induction false} PowerOfPow(q: nat, e: nat)
    ensures Power(Pow2(q), e) == Pow2(q * e)
  {
    if e > 0 {
      PowerOfPow(q, e - 1);
      PowTimes(q * (e - 1), q);
      assert q * (e - 1) + q == q * e;
    }
  }

  lemma SquareStep(q: nat)
    requires q > 4
    ensures q * q <= 2 * ((q - 1) * (q - 1))
  {
    assert 2 * ((q - 1) * (q - 1)) == q * q + q * (q - 4) + 2;
    MulMono(0, q - 4, q);
  }

  /** 2^q is at least q^2, from 4 on. */
  lemma {:induction false} PowAtLeast(q: nat, x: nat)
    requires q >= 4 && x == q * q
    ensures Pow2(q) >= x
  {
    if q > 4 {
      SquareStep(q);
      PowAtLeast(q - 1, (q - 1) * (q - 1));
    } else {
      assert Pow2(4) == 16;
    }
  }

  lemma Outgrown(q: nat, c: nat, n: nat)
    requires n >= 6 * (q * c) + 5
    ensures n * (n / 2 - 1) > q * (c * (n + 1 + n))
  {
    MulMono(3 * (q * c) + 1, n / 2 - 1, n);
    assert (n / 2 - 1) * n == n * (n / 2 - 1);
    assert (3 * (q * c) + 1) * n == 3 * (q * c * n) + n;
    assert q * (c * (n + 1 + n)) == 2 * (q * c * n) + q * c;
    MulMono(1, n, q * c);
    assert n * (q * c) == q * c * n;
  }

  lemma {:induction false} PowStrict(a: nat, b: nat)
    requires a < b
    ensures Pow2(a) < Pow2(b)
  {
    PowMono(a + 1, b);
  }

  lemma Exceeds(c: nat, n: nat, q: nat, steps: nat, e: nat)
    requires q == 6 * c + 6 && n + 1 == Pow2(q) && steps >= n * (n / 2 - 1) && e == c * (n + 1 + n)
    ensures steps > q * e
  {
    PowAtLeast(q, q * q);
    SquareIs(q, c);
    Outgrown(q, c, n);
  }

  lemma PowExceeds(n: nat, q: nat, steps: nat, e: nat)
    requires n + 1 == Pow2(q) && steps > q * e
    ensures Pow2(steps) > Power(n + 1, e)
  {
    PowerOfPow(q, e);
    PowStrict(q * e, steps);
  }

  lemma SquareIs(q: nat, c: nat)
    requires q == 6 * c + 6
    ensures q * q == 6 * (q * c) + 6 * q
  {
  }

  /** Whatever the factor c: SPLAY_NEXT alone takes longer. */
  lemma NextBreaks(c: nat, xs: seq<Node>)
    requires Sorted(xs) && |xs| + 1 == Pow2(6 * c + 6)
    ensures !Within(c, Costly(xs, |xs|))
  {
    var n := |xs|;
    PowAtLeast(6, 36);
    PowMono(6, 6 * c + 6);
    CostlyRun(xs, n);
    var r := Run(Leaf, Costly(xs, n));
    Exceeds(c, n, 6 * c + 6, r.steps, c * (n + 1 + n));
    PowExceeds(n, 6 * c + 6, r.steps, c * (n + 1 + n));
    PowMono(r.steps, r.turns + r.steps);
  }

  /** The bound holds for all runs, or for all runs without SPLAY_NEXT: only the latter is true. */
  lemma BoundedExactly(c: nat, xs: seq<Node>, nexts: bool)
    requires c >= 6 && Sorted(xs) && |xs| + 1 == Pow2(6 * c + 6)
    ensures (forall ops :: nexts || NoNext(ops) ==> Within(c, ops)) <==> !nexts
  {
    NextBreaks(c, xs);
    forall ops | NoNext(ops) ensures Within(c, ops) {
      WithoutNext(c, ops);
    }
  }
}
