/** The work of one splay: its turns, as a power of two, are paid for by what the splay takes off the tree's potential.
    Logarithms are avoided: potentials are products, and bounds on them powers of two. */
module SplayBalance {
  import opened Arithmetic
  import opened SplayLinks
  import opened SplaySteps
  import opened SplayShape

  // ---------- Weight and potential ----------

  /** One more than the number of nodes. */
  function Weight(t: Tree): (w: nat)
    ensures w >= 1 && (t.Branch? ==> w >= 2)
  {
    if t.Leaf? then 1 else Weight(t.left) + Weight(t.right)
  }

  lemma {:induction false} WeightIs(t: Tree)
    ensures Weight(t) == Size(t) + 1
  {
    if t.Branch? {
      WeightIs(t.left);
      WeightIs(t.right);
    }
  }

  /** The product of the weights of all subtrees. */
  function Potential(t: Tree): nat {
    if t.Leaf? then 1 else Times(Weight(t), Times(Potential(t.left), Potential(t.right)))
  }

  function Square(x: nat): nat {
    Times(x, x)
  }

  function Cube(x: nat): nat {
    Times(x, Times(x, x))
  }

  // ---------- Products ----------

  lemma Assoc3(a: nat, b: nat, c: nat)
    ensures Times(Times(a, b), c) == Times(a, Times(b, c))
  {
    TimesAssoc(a, c, b);
    Commute(b, c);
  }

  lemma Swap(a: nat, b: nat, c: nat)
    ensures Times(a, Times(b, c)) == Times(b, Times(a, c))
  {
    Assoc3(a, b, c);
    Assoc3(b, a, c);
    Commute(a, b);
  }

  lemma Commute(a: nat, b: nat)
    ensures Times(a, b) == Times(b, a)
  {
    TimesIs(a, b);
    TimesIs(b, a);
  }

  lemma One(a: nat)
    ensures Times(1, a) == a && Times(a, 1) == a
  {
    TimesIs(1, a);
    TimesIs(a, 1);
  }

  lemma Mono(a: nat, b: nat, c: nat, d: nat)
    requires a <= b && c <= d
    ensures Times(a, c) <= Times(b, d)
  {
    TimesIs(a, c);
    TimesIs(b, d);
    MulMono(a, b, c);
    MulMono(c, d, b);
    assert c * b == b * c && d * b == b * d;
  }

  lemma Cancel(a: nat, x: nat, y: nat)
    requires a >= 1 && Times(a, x) <= Times(a, y)
    ensures x <= y
  {
    if x > y {
      Mono(a, a, y + 1, x);
      Commute(a, y + 1);
      Commute(a, y);
    }
  }

  lemma Twice(a: nat, b: nat)
    ensures Times(a, 2 * b) == 2 * Times(a, b) && Times(2 * a, b) == 2 * Times(a, b)
  {
    TimesIs(a, b);
    TimesIs(a, 2 * b);
    TimesIs(2 * a, b);
  }

  lemma Positive(a: nat, b: nat)
    requires a >= 1 && b >= 1
    ensures Times(a, b) >= 1
  {
    Mono(1, a, 1, b);
  }

  lemma PowersAre(x: nat)
    ensures Square(x) == x * x && Cube(x) == x * (x * x)
  {
    TimesIs(x, x);
    TimesIs(x, x * x);
  }

  // ---------- Weights around a step ----------

  lemma MeanBound(x: nat, y: nat)
    ensures 4 * (x * y) <= (x + y) * (x + y)
  {
    assert (x + y) * (x + y) - 4 * (x * y) == (x - y) * (x - y);
    SquarePositive(x - y);
  }

  lemma SquarePositive(x: int)
    ensures x * x >= 0
  {
  }

  /** x and y share t. */
  lemma Shares(x: nat, y: nat, t: nat)
    requires x + y <= t
    ensures 4 * Times(x, y) <= Square(t)
  {
    MeanBound(x, y);
    TimesIs(x, y);
    PowersAre(x + y);
    Mono(x + y, t, x + y, t);
  }

  lemma CubeIs(t: nat, b: nat)
    ensures Times(Square(t), Times(b, t)) == Times(Cube(t), b) == Times(Square(t), Times(t, b))
  {
    Commute(b, t);
    Assoc3(Square(t), t, b);
    Commute(Square(t), t);
  }

  /** g * a^2 * 4 <= t^2 * h. */
  lemma Fourfold(x: nat, y: nat, t: nat, u: nat, v: nat)
    requires 4 * Times(x, y) <= Square(t) && u <= v
    ensures 4 * Times(Times(x, y), u) <= Times(Square(t), v)
  {
    Mono(4 * Times(x, y), Square(t), u, v);
    Twice(Times(x, y), u);
    Twice(2 * Times(x, y), u);
  }

  /** Two steps in one direction. */
  lemma ZigZigWeights(a: nat, b: nat, b': nat, c: nat, t: nat)
    requires a + c <= t && b' <= t && a <= b
    ensures 2 * Times(Times(b', c), Square(a)) <= Times(Cube(t), b)
  {
    Shares(a, c, t);
    Mono(a, b, b', t);
    Fourfold(a, c, t, Times(a, b'), Times(b, t));
    CubeIs(t, b);
    assert Times(Times(a, c), Times(a, b')) == Times(Times(b', c), Square(a)) by {
      Assoc3(a, c, Times(a, b'));
      Swap(c, a, b');
      Assoc3(a, a, Times(c, b'));
      Commute(c, b');
      Commute(Square(a), Times(b', c));
    }
  }

  /** A step to one side and one back. */
  lemma ZigZagWeights(d: nat, b: nat, b': nat, c: nat, t: nat)
    requires b' + c <= t && d <= b && d <= t
    ensures 4 * Times(Times(b', c), Square(d)) <= Times(Cube(t), b)
  {
    Shares(b', c, t);
    Mono(d, b, d, t);
    Fourfold(b', c, t, Square(d), Times(b, t));
    CubeIs(t, b);
  }

  /** A step to one side and two back. */
  lemma ZigZagZagWeights(e: nat, b: nat, d: nat, b': nat, c: nat, d': nat, t: nat)
    requires d' + c <= t && b' <= b && e <= d && e <= t
    ensures 4 * Times(Times(d', Times(b', c)), Square(e)) <= Times(Cube(t), Times(b, d))
  {
    Shares(d', c, t);
    Mono(e, d, e, t);
    Mono(b', b, Square(e), Times(d, t));
    Fourfold(d', c, t, Times(b', Square(e)), Times(b, Times(d, t)));
    Assoc3(b, d, t);
    CubeIs(t, Times(b, d));
    assert Times(Times(d', c), Times(b', Square(e))) == Times(Times(d', Times(b', c)), Square(e)) by {
      Assoc3(Times(d', c), b', Square(e));
      Assoc3(d', c, b');
      Commute(c, b');
    }
  }

  /** c * b^2 <= t^3. */
  lemma ZigEndWeights(b: nat, c: nat, t: nat)
    requires b <= t && c <= t
    ensures 2 * Times(c, Square(b)) <= 2 * Times(Cube(t), 1)
  {
    Mono(b, t, b, t);
    Mono(c, t, Square(b), Square(t));
    One(Cube(t));
  }

  /** A step to one side, and nothing behind it on the other. */
  lemma ZagEndWeights(b: nat, c: nat, t: nat)
    requires b + c == t + 1 && c >= 2
    ensures 4 * Times(c, Square(b)) <= 2 * Times(Cube(t), 1)
  {
    Shares(b, c, t + 1);
    Fourfold(b, c, t + 1, b, t - 1);
    assert Times(Times(b, c), b) == Times(c, Square(b)) by {
      Assoc3(b, c, b);
      Swap(b, c, b);
    }
    ZagEndPlain(t);
    One(Cube(t));
  }

  lemma ZagEndPlain(t: nat)
    requires t >= 1
    ensures Times(Square(t + 1), t - 1) <= 2 * Cube(t)
  {
    PowersAre(t + 1);
    PowersAre(t);
    TimesIs((t + 1) * (t + 1), t - 1);
    assert (t + 1) * (t + 1) * (t - 1) == t * (t * t) + t * t - t - 1;
    MulMono(1, t, t * t);
  }

  /** A step to one side, and two to the end on the other. */
  lemma ZagZagEndWeights(b: nat, b': nat, c: nat, d: nat, t: nat)
    requires b' <= b && d + c <= t && d <= t
    ensures 4 * Times(Times(b', c), Square(d)) <= 2 * Times(Cube(t), b)
  {
    Shares(d, c, t);
    Mono(b', b, d, t);
    Fourfold(d, c, t, Times(b', d), Times(b, t));
    CubeIs(t, b);
    assert Times(Times(d, c), Times(b', d)) == Times(Times(b', c), Square(d)) by {
      Assoc3(d, c, Times(b', d));
      Swap(c, b', d);
      Swap(d, b', Times(c, d));
      Swap(d, c, d);
      Assoc3(b', c, Square(d));
    }
  }

  // ---------- Steps and ends ----------

  /** y steps, as a power of two and times a cube, are paid for by what t and s differ in. */
  predicate Paid(y: nat, t: Tree, s: Tree) {
    Times(y, Potential(s)) <= 2 * Times(Cube(Weight(t)), Potential(t))
  }

  /** A splay of a subtree of weight a pays for itself. */
  lemma Cancelled(y: nat, a: nat, q: nat, pa: nat)
    requires a >= 1 && Times(y, Times(a, q)) <= 2 * Times(Cube(a), pa)
    ensures Times(y, q) <= 2 * Times(Square(a), pa)
  {
    Swap(y, a, q);
    Assoc3(a, Square(a), pa);
    Twice(a, Times(Square(a), pa));
    Cancel(a, Times(y, q), 2 * Times(Square(a), pa));
  }

  /** So does one of the tree above it, of weight t, which takes f times as many steps (as a power of two) and gives the
      nodes around it the weights g instead of h. */
  lemma StepPays(y: nat, f: nat, g: nat, h: nat, t: nat, a: nat, q: nat, pa: nat, rest: nat)
    requires Times(y, q) <= 2 * Times(Square(a), pa) && Times(f, Times(g, Square(a))) <= Times(Cube(t), h)
    ensures Times(Times(f, y), Times(t, Times(g, Times(q, rest)))) <= 2 * Times(Cube(t), Times(t, Times(h, Times(pa, rest))))
  {
    var fg, z := Times(f, g), Times(t, rest);
    StepScaled(y, fg, g, h, t, a, q, pa, f);
    Mono(Times(fg, Times(y, q)), 2 * Times(Times(Cube(t), h), pa), z, z);
    Twice(Times(Times(Cube(t), h), pa), z);
    StepLeft(f, y, t, g, q, rest);
    StepRight(Cube(t), t, h, pa, rest);
  }

  lemma StepScaled(y: nat, fg: nat, g: nat, h: nat, t: nat, a: nat, q: nat, pa: nat, f: nat)
    requires Times(y, q) <= 2 * Times(Square(a), pa) && Times(f, Times(g, Square(a))) <= Times(Cube(t), h) && fg == Times(f, g)
    ensures Times(fg, Times(y, q)) <= 2 * Times(Times(Cube(t), h), pa)
  {
    Mono(fg, fg, Times(y, q), 2 * Times(Square(a), pa));
    Twice(fg, Times(Square(a), pa));
    Assoc3(fg, Square(a), pa);
    Assoc3(f, g, Square(a));
    Mono(Times(f, Times(g, Square(a))), Times(Cube(t), h), pa, pa);
  }

  lemma StepLeft(f: nat, y: nat, t: nat, g: nat, q: nat, rest: nat)
    ensures Times(Times(f, y), Times(t, Times(g, Times(q, rest)))) == Times(Times(Times(f, g), Times(y, q)), Times(t, rest))
  {
    var z := Times(t, rest);
    Swap(t, g, Times(q, rest));
    Swap(t, q, rest);
    Assoc3(f, y, Times(g, Times(q, z)));
    Swap(y, g, Times(q, z));
    Assoc3(y, q, z);
    Assoc3(f, g, Times(Times(y, q), z));
    Assoc3(Times(f, g), Times(y, q), z);
  }

  lemma StepRight(cube: nat, t: nat, h: nat, pa: nat, rest: nat)
    ensures Times(cube, Times(t, Times(h, Times(pa, rest)))) == Times(Times(Times(cube, h), pa), Times(t, rest))
  {
    Swap(t, h, Times(pa, rest));
    Swap(t, pa, rest);
    Assoc3(cube, h, Times(pa, Times(t, rest)));
    Assoc3(Times(cube, h), pa, Times(t, rest));
  }

  lemma StepPaid(y: nat, f: nat, g: nat, h: nat, d: Tree, s: Tree, t: Tree, u: Tree, rest: nat)
    requires s.Branch? && Weight(s) == Weight(d) && Paid(y, d, s)
    requires Times(f, Times(g, Square(Weight(d)))) <= Times(Cube(Weight(t)), h)
    requires Potential(t) == Times(Weight(t), Times(h, Times(Potential(d), rest)))
    requires Potential(u) == Times(Weight(t), Times(g, Times(Times(Potential(s.left), Potential(s.right)), rest)))
    ensures Paid(Times(f, y), t, u)
  {
    var q := Times(Potential(s.left), Potential(s.right));
    Cancelled(y, Weight(d), q, Potential(d));
    StepPays(y, f, g, h, Weight(t), Weight(d), q, Potential(d), rest);
  }

  /** The last turns, for the node of weight x that comes to the root. */
  lemma EndPays(f: nat, g: nat, h: nat, x: nat, t: nat, rest: nat)
    requires Times(f, Times(g, Square(x))) <= 2 * Times(Cube(t), h)
    ensures Times(Times(f, Cube(x)), Times(t, Times(g, rest))) <= 2 * Times(Cube(t), Times(t, Times(h, Times(x, rest))))
  {
    var z := Times(t, rest);
    Mono(Times(f, Times(g, Square(x))), 2 * Times(Cube(t), h), Times(x, z), Times(x, z));
    Twice(Times(Cube(t), h), Times(x, z));
    StepRight(Cube(t), t, h, x, rest);
    Assoc3(Times(Cube(t), h), x, z);
    EndLeft(f, g, x, t, rest);
  }

  lemma EndLeft(f: nat, g: nat, x: nat, t: nat, rest: nat)
    ensures Times(Times(f, Cube(x)), Times(t, Times(g, rest))) == Times(Times(f, Times(g, Square(x))), Times(x, Times(t, rest)))
  {
    var z := Times(t, rest);
    Swap(t, g, rest);
    Assoc3(f, Cube(x), Times(g, z));
    Swap(Cube(x), g, z);
    Commute(x, Square(x));
    Assoc3(Square(x), x, z);
    Assoc3(g, Square(x), Times(x, z));
    Assoc3(f, Times(g, Square(x)), Times(x, z));
  }

  lemma EndPaid(f: nat, g: nat, h: nat, d: Tree, t: Tree, u: Tree, rest: nat)
    requires Times(f, Times(g, Square(Weight(d)))) <= 2 * Times(Cube(Weight(t)), h)
    requires Potential(t) == Times(Weight(t), Times(h, Times(Weight(d), rest)))
    requires Potential(u) == Times(Weight(t), Times(g, rest))
    ensures Paid(Times(f, Cube(Weight(d))), t, u)
  {
    EndPays(f, g, h, Weight(d), Weight(t), rest);
  }

  lemma Literals(x: nat)
    ensures Times(2, x) == 2 * x && Times(4, x) == 4 * x
  {
    TimesIs(2, x);
    TimesIs(4, x);
  }

  lemma PotentialIs(t: Tree)
    requires t.Branch?
    ensures Weight(t) == Weight(t.left) + Weight(t.right)
    ensures Potential(t) == Times(Weight(t), Times(Potential(t.left), Potential(t.right)))
  {
  }

  // ---------- To the left and on ----------

  lemma NestedTwice(w: nat, b: nat, p: nat, q: nat, r: nat)
    ensures Times(w, Times(Times(b, Times(p, q)), r)) == Times(w, Times(b, Times(p, Times(q, r))))
  {
    Assoc3(b, Times(p, q), r);
    Assoc3(p, q, r);
  }

  lemma ZigZigOrder(w: nat, b: nat, c: nat, p: nat, q: nat, rest: nat)
    ensures Times(w, Times(p, Times(b, Times(q, Times(c, rest))))) == Times(w, Times(Times(b, c), Times(Times(p, q), rest)))
  {
    Swap(q, c, rest);
    Swap(p, b, Times(c, Times(q, rest)));
    Swap(p, c, Times(q, rest));
    Assoc3(p, q, rest);
    Assoc3(b, c, Times(Times(p, q), rest));
  }

  lemma ZigZigBefore(t: Tree)
    requires t.Branch? && t.left.Branch?
    ensures Potential(t) == Times(Weight(t), Times(Weight(t.left), Times(Potential(t.left.left), Times(Potential(t.left.right), Potential(t.right)))))
  {
    PotentialIs(t);
    PotentialIs(t.left);
    NestedTwice(Weight(t), Weight(t.left), Potential(t.left.left), Potential(t.left.right), Potential(t.right));
  }

  lemma ZigZigAfter(u: Tree)
    requires u.Branch? && u.right.Branch? && u.right.right.Branch?
    ensures Potential(u) == Times(Weight(u), Times(Times(Weight(u.right), Weight(u.right.right)),
      Times(Times(Potential(u.left), Potential(u.right.left)), Times(Potential(u.right.right.left), Potential(u.right.right.right)))))
  {
    PotentialIs(u);
    PotentialIs(u.right);
    PotentialIs(u.right.right);
    ZigZigOrder(Weight(u), Weight(u.right), Weight(u.right.right), Potential(u.left), Potential(u.right.left),
      Times(Potential(u.right.right.left), Potential(u.right.right.right)));
  }

  lemma ZigZigFits(t: Tree, s: Tree, u: Tree)
    requires t.Branch? && t.left.Branch? && t.left.left.Branch? && s.Branch? && Weight(s) == Weight(t.left.left)
    requires u == PassedRight(s, RotatedRight(t))
    ensures Weight(u) == Weight(t)
    ensures Times(2, Times(Times(Weight(u.right), Weight(u.right.right)), Square(Weight(t.left.left)))) <= Times(Cube(Weight(t)), Weight(t.left))
  {
    PotentialIs(t);
    PotentialIs(t.left);
    PotentialIs(s);
    PotentialIs(u);
    PotentialIs(u.right);
    PotentialIs(u.right.right);
    ZigZigWeights(Weight(t.left.left), Weight(t.left), Weight(u.right), Weight(u.right.right), Weight(t));
    Literals(Times(Times(Weight(u.right), Weight(u.right.right)), Square(Weight(t.left.left))));
  }

  /** Two steps to the left. */
  lemma ZigZig(y: nat, t: Tree, s: Tree)
    requires t.Branch? && t.left.Branch? && t.left.left.Branch? && s.Branch? && Weight(s) == Weight(t.left.left)
    requires Paid(y, t.left.left, s)
    ensures Paid(Times(2, y), t, PassedRight(s, RotatedRight(t)))
  {
    var u := PassedRight(s, RotatedRight(t));
    ZigZigFits(t, s, u);
    ZigZigBefore(t);
    ZigZigAfter(u);
    StepPaid(y, 2, Times(Weight(u.right), Weight(u.right.right)), Weight(t.left), t.left.left, s, t, u,
      Times(Potential(t.left.right), Potential(t.right)));
  }

  lemma ZigBefore(t: Tree)
    requires t.Branch? && t.left.Branch?
    ensures Potential(t) == Times(Weight(t), Times(1, Times(Weight(t.left), Times(Times(Potential(t.left.left), Potential(t.left.right)), Potential(t.right)))))
  {
    PotentialIs(t);
    PotentialIs(t.left);
    Assoc3(Weight(t.left), Times(Potential(t.left.left), Potential(t.left.right)), Potential(t.right));
    One(Times(Weight(t.left), Times(Times(Potential(t.left.left), Potential(t.left.right)), Potential(t.right))));
  }

  lemma ZigAfter(u: Tree)
    requires u.Branch? && u.right.Branch?
    ensures Potential(u) == Times(Weight(u), Times(Weight(u.right), Times(Times(Potential(u.left), Potential(u.right.left)), Potential(u.right.right))))
  {
    PotentialIs(u);
    PotentialIs(u.right);
    Swap(Potential(u.left), Weight(u.right), Times(Potential(u.right.left), Potential(u.right.right)));
    Assoc3(Potential(u.left), Potential(u.right.left), Potential(u.right.right));
  }

  lemma ZigEndFits(f: nat, t: Tree, u: Tree)
    requires t.Branch? && t.left.Branch? && (f == 2 || (f == 4 && t.left.right.Leaf?)) && u == PassedRight(t.left, t)
    ensures Weight(u) == Weight(t)
    ensures Times(f, Times(Weight(u.right), Square(Weight(t.left)))) <= 2 * Times(Cube(Weight(t)), 1)
  {
    PotentialIs(t);
    PotentialIs(t.left);
    PotentialIs(u);
    PotentialIs(u.right);
    if f == 2 {
      ZigEndWeights(Weight(t.left), Weight(u.right), Weight(t));
    } else {
      ZagEndWeights(Weight(t.left), Weight(u.right), Weight(t));
    }
    Literals(Times(Weight(u.right), Square(Weight(t.left))));
  }

  /** A step to the left, where the loop ends, one turn later if nothing is to the right. */
  lemma ZigEnd(f: nat, t: Tree)
    requires t.Branch? && t.left.Branch? && (f == 2 || (f == 4 && t.left.right.Leaf?))
    ensures Paid(Times(f, Cube(Weight(t.left))), t, PassedRight(t.left, t))
  {
    var u := PassedRight(t.left, t);
    ZigEndFits(f, t, u);
    ZigBefore(t);
    ZigAfter(u);
    EndPaid(f, Weight(u.right), 1, t.left, t, u, Times(Times(Potential(t.left.left), Potential(t.left.right)), Potential(t.right)));
  }

  lemma ZigZagEndBefore(t: Tree)
    requires t.Branch? && t.left.Branch? && t.left.right.Branch? && t.left.right.right.Leaf?
    ensures Potential(t) == Times(Weight(t), Times(Weight(t.left), Times(Weight(t.left.right),
      Times(Times(Potential(t.left.left), Potential(t.left.right.left)), Potential(t.right)))))
  {
    var b, d, p, q, r := Weight(t.left), Weight(t.left.right), Potential(t.left.left), Potential(t.left.right.left), Potential(t.right);
    PotentialIs(t);
    PotentialIs(t.left);
    PotentialIs(t.left.right);
    One(q);
    EndOrder(Weight(t), b, d, p, q, r);
  }

  lemma EndOrder(w: nat, b: nat, d: nat, p: nat, q: nat, r: nat)
    ensures Times(w, Times(Times(b, Times(p, Times(d, q))), r)) == Times(w, Times(b, Times(d, Times(Times(p, q), r))))
  {
    Assoc3(b, Times(p, Times(d, q)), r);
    Swap(p, d, q);
    Assoc3(d, Times(p, q), r);
  }

  lemma ZigZagEndAfter(u: Tree)
    requires u.Branch? && u.left.Branch? && u.right.Branch? && u.right.left.Leaf?
    ensures Potential(u) == Times(Weight(u), Times(Times(Weight(u.left), Weight(u.right)),
      Times(Times(Potential(u.left.left), Potential(u.left.right)), Potential(u.right.right))))
  {
    PotentialIs(u);
    PotentialIs(u.left);
    PotentialIs(u.right);
    One(Potential(u.right.right));
    BothOrder(Weight(u), Weight(u.left), Weight(u.right), Times(Potential(u.left.left), Potential(u.left.right)), Potential(u.right.right));
  }

  lemma BothOrder(w: nat, b: nat, c: nat, k: nat, r: nat)
    ensures Times(w, Times(Times(b, k), Times(c, r))) == Times(w, Times(Times(b, c), Times(k, r)))
  {
    Assoc3(b, k, Times(c, r));
    Swap(k, c, r);
    Assoc3(b, c, Times(k, r));
  }

  lemma ZigZagEndFits(t: Tree, u: Tree)
    requires t.Branch? && t.left.Branch? && t.left.right.Branch? && t.left.right.right.Leaf? && u == PassedRight(RotatedLeft(t.left), t)
    ensures Weight(u) == Weight(t)
    ensures Times(4, Times(Times(Weight(u.left), Weight(u.right)), Square(Weight(t.left.right)))) <= 2 * Times(Cube(Weight(t)), Weight(t.left))
  {
    PotentialIs(t);
    PotentialIs(t.left);
    PotentialIs(t.left.right);
    PotentialIs(u);
    PotentialIs(u.left);
    PotentialIs(u.right);
    ZagZagEndWeights(Weight(t.left), Weight(u.left), Weight(u.right), Weight(t.left.right), Weight(t));
    Literals(Times(Times(Weight(u.left), Weight(u.right)), Square(Weight(t.left.right))));
  }

  /** A step to the left and two to the right, where nothing is left. */
  lemma ZigZagEnd(t: Tree)
    requires t.Branch? && t.left.Branch? && t.left.right.Branch? && t.left.right.right.Leaf?
    ensures Paid(Times(4, Cube(Weight(t.left.right))), t, PassedRight(RotatedLeft(t.left), t))
  {
    var u := PassedRight(RotatedLeft(t.left), t);
    ZigZagEndFits(t, u);
    ZigZagEndBefore(t);
    ZigZagEndAfter(u);
    EndPaid(4, Times(Weight(u.left), Weight(u.right)), Weight(t.left), t.left.right, t, u,
      Times(Times(Potential(t.left.left), Potential(t.left.right.left)), Potential(t.right)));
  }

  /** What two subtrees of s are put beside can be taken out of the product. */
  lemma Across(p: nat, x: nat, y: nat, r: nat)
    ensures Times(Times(p, x), Times(y, r)) == Times(Times(x, y), Times(p, r))
  {
    Assoc3(p, x, Times(y, r));
    Swap(p, x, Times(y, r));
    Swap(p, y, r);
    Assoc3(x, y, Times(p, r));
  }

  lemma ZigZagOrder(w: nat, b: nat, c: nat, p: nat, x: nat, y: nat, r: nat)
    ensures Times(w, Times(Times(b, Times(p, x)), Times(c, Times(y, r)))) == Times(w, Times(Times(b, c), Times(Times(x, y), Times(p, r))))
  {
    Assoc3(b, Times(p, x), Times(c, Times(y, r)));
    Swap(Times(p, x), c, Times(y, r));
    Across(p, x, y, r);
    Assoc3(b, c, Times(Times(x, y), Times(p, r)));
  }

  lemma ZigZagBefore(t: Tree)
    requires t.Branch? && t.left.Branch?
    ensures Potential(t) == Times(Weight(t), Times(Weight(t.left), Times(Potential(t.left.right), Times(Potential(t.left.left), Potential(t.right)))))
  {
    ZigZigBefore(t);
    Swap(Potential(t.left.left), Potential(t.left.right), Potential(t.right));
  }

  lemma ZigZagAfter(u: Tree)
    requires u.Branch? && u.left.Branch? && u.right.Branch?
    ensures Potential(u) == Times(Weight(u), Times(Times(Weight(u.left), Weight(u.right)),
      Times(Times(Potential(u.left.right), Potential(u.right.left)), Times(Potential(u.left.left), Potential(u.right.right)))))
  {
    PotentialIs(u);
    PotentialIs(u.left);
    PotentialIs(u.right);
    ZigZagOrder(Weight(u), Weight(u.left), Weight(u.right), Potential(u.left.left), Potential(u.left.right), Potential(u.right.left), Potential(u.right.right));
  }

  lemma ZigZagFits(t: Tree, s: Tree, u: Tree)
    requires t.Branch? && t.left.Branch? && t.left.right.Branch? && s.Branch? && Weight(s) == Weight(t.left.right)
    requires u == PassedRight(PassedLeft(s, t.left), t)
    ensures Weight(u) == Weight(t)
    ensures Times(4, Times(Times(Weight(u.left), Weight(u.right)), Square(Weight(t.left.right)))) <= Times(Cube(Weight(t)), Weight(t.left))
  {
    PotentialIs(t);
    PotentialIs(t.left);
    PotentialIs(s);
    PotentialIs(u);
    PotentialIs(u.left);
    PotentialIs(u.right);
    ZigZagWeights(Weight(t.left.right), Weight(t.left), Weight(u.left), Weight(u.right), Weight(t));
    Literals(Times(Times(Weight(u.left), Weight(u.right)), Square(Weight(t.left.right))));
  }

  /** A step to the left and one to the right. */
  lemma ZigZag(y: nat, t: Tree, s: Tree)
    requires t.Branch? && t.left.Branch? && t.left.right.Branch? && s.Branch? && Weight(s) == Weight(t.left.right)
    requires Paid(y, t.left.right, s)
    ensures Paid(Times(4, y), t, PassedRight(PassedLeft(s, t.left), t))
  {
    var u := PassedRight(PassedLeft(s, t.left), t);
    ZigZagFits(t, s, u);
    ZigZagBefore(t);
    ZigZagAfter(u);
    StepPaid(y, 4, Times(Weight(u.left), Weight(u.right)), Weight(t.left), t.left.right, s, t, u,
      Times(Potential(t.left.left), Potential(t.right)));
  }

  lemma BeforeOrder(w: nat, b: nat, d: nat, p: nat, q: nat, e: nat, r: nat)
    ensures Times(w, Times(Times(b, Times(p, Times(d, Times(q, e)))), r)) == Times(w, Times(Times(b, d), Times(e, Times(Times(p, q), r))))
  {
    Assoc3(b, Times(p, Times(d, Times(q, e))), r);
    Swap(p, d, Times(q, e));
    Assoc3(p, q, e);
    Assoc3(d, Times(Times(p, q), e), r);
    Assoc3(Times(p, q), e, r);
    Swap(Times(p, q), e, r);
    Assoc3(b, d, Times(e, Times(Times(p, q), r)));
  }

  lemma AfterOrder(w: nat, d: nat, b: nat, c: nat, k: nat, x: nat, y: nat, r: nat)
    ensures Times(w, Times(Times(d, Times(Times(b, k), x)), Times(c, Times(y, r))))
         == Times(w, Times(Times(d, Times(b, c)), Times(Times(x, y), Times(k, r))))
  {
    Assoc3(d, Times(Times(b, k), x), Times(c, Times(y, r)));
    Assoc3(b, k, x);
    Assoc3(b, Times(k, x), Times(c, Times(y, r)));
    Swap(Times(k, x), c, Times(y, r));
    Across(k, x, y, r);
    Assoc3(b, c, Times(Times(x, y), Times(k, r)));
    Assoc3(d, Times(b, c), Times(Times(x, y), Times(k, r)));
  }

  lemma ZigZagZagBefore(t: Tree)
    requires t.Branch? && t.left.Branch? && t.left.right.Branch?
    ensures Potential(t) == Times(Weight(t), Times(Times(Weight(t.left), Weight(t.left.right)), Times(Potential(t.left.right.right),
      Times(Times(Potential(t.left.left), Potential(t.left.right.left)), Potential(t.right)))))
  {
    PotentialIs(t);
    PotentialIs(t.left);
    PotentialIs(t.left.right);
    BeforeOrder(Weight(t), Weight(t.left), Weight(t.left.right), Potential(t.left.left), Potential(t.left.right.left),
      Potential(t.left.right.right), Potential(t.right));
  }

  lemma ZigZagZagAfter(u: Tree)
    requires u.Branch? && u.left.Branch? && u.left.left.Branch? && u.right.Branch?
    ensures Potential(u) == Times(Weight(u), Times(Times(Weight(u.left), Times(Weight(u.left.left), Weight(u.right))),
      Times(Times(Potential(u.left.right), Potential(u.right.left)),
        Times(Times(Potential(u.left.left.left), Potential(u.left.left.right)), Potential(u.right.right)))))
  {
    PotentialIs(u);
    PotentialIs(u.left);
    PotentialIs(u.left.left);
    PotentialIs(u.right);
    AfterOrder(Weight(u), Weight(u.left), Weight(u.left.left), Weight(u.right), Times(Potential(u.left.left.left), Potential(u.left.left.right)),
      Potential(u.left.right), Potential(u.right.left), Potential(u.right.right));
  }

  lemma ZigZagZagFits(t: Tree, s: Tree, u: Tree)
    requires t.Branch? && t.left.Branch? && t.left.right.Branch? && t.left.right.right.Branch?
    requires s.Branch? && Weight(s) == Weight(t.left.right.right) && u == PassedRight(PassedLeft(s, RotatedLeft(t.left)), t)
    ensures Weight(u) == Weight(t)
    ensures Times(4, Times(Times(Weight(u.left), Times(Weight(u.left.left), Weight(u.right))), Square(Weight(t.left.right.right))))
      <= Times(Cube(Weight(t)), Times(Weight(t.left), Weight(t.left.right)))
  {
    PotentialIs(t);
    PotentialIs(t.left);
    PotentialIs(t.left.right);
    PotentialIs(s);
    PotentialIs(u);
    PotentialIs(u.left);
    PotentialIs(u.left.left);
    PotentialIs(u.right);
    ZigZagZagWeights(Weight(t.left.right.right), Weight(t.left), Weight(t.left.right), Weight(u.left.left), Weight(u.right), Weight(u.left), Weight(t));
    Literals(Times(Times(Weight(u.left), Times(Weight(u.left.left), Weight(u.right))), Square(Weight(t.left.right.right))));
  }

  /** A step to the left and two to the right. */
  lemma ZigZagZag(y: nat, t: Tree, s: Tree)
    requires t.Branch? && t.left.Branch? && t.left.right.Branch? && t.left.right.right.Branch?
    requires s.Branch? && Weight(s) == Weight(t.left.right.right) && Paid(y, t.left.right.right, s)
    ensures Paid(Times(4, y), t, PassedRight(PassedLeft(s, RotatedLeft(t.left)), t))
  {
    var u := PassedRight(PassedLeft(s, RotatedLeft(t.left)), t);
    ZigZagZagFits(t, s, u);
    ZigZagZagBefore(t);
    ZigZagZagAfter(u);
    StepPaid(y, 4, Times(Weight(u.left), Times(Weight(u.left.left), Weight(u.right))), Times(Weight(t.left), Weight(t.left.right)),
      t.left.right.right, s, t, u, Times(Times(Potential(t.left.left), Potential(t.left.right.left)), Potential(t.right)));
  }

  // ---------- To the right and on ----------

  function Mirror(t: Tree): Tree {
    if t.Leaf? then t else Branch(Mirror(t.right), t.node, Mirror(t.left))
  }

  lemma {:induction false} MirrorKeeps(t: Tree)
    ensures Weight(Mirror(t)) == Weight(t) && Potential(Mirror(t)) == Potential(t) && Mirror(Mirror(t)) == t
  {
    if t.Branch? {
      MirrorKeeps(t.left);
      MirrorKeeps(t.right);
      Commute(Potential(t.left), Potential(t.right));
    }
  }

  lemma MirrorPaid(y: nat, t: Tree, s: Tree)
    ensures Paid(y, Mirror(t), Mirror(s)) <==> Paid(y, t, s)
  {
    MirrorKeeps(t);
    MirrorKeeps(s);
  }

  lemma Mirrored(t: Tree)
    requires t.Branch?
    ensures Mirror(t) == Branch(Mirror(t.right), t.node, Mirror(t.left))
  {
  }

  lemma MirrorPassed(s: Tree, t: Tree)
    requires s.Branch? && t.Branch?
    ensures Mirror(PassedLeft(s, t)) == PassedRight(Mirror(s), Mirror(t)) && Mirror(PassedRight(s, t)) == PassedLeft(Mirror(s), Mirror(t))
  {
    Mirrored(s);
    Mirrored(t);
    Mirrored(PassedLeft(s, t));
    Mirrored(PassedLeft(s, t).left);
    Mirrored(PassedRight(s, t));
    Mirrored(PassedRight(s, t).right);
  }

  lemma MirrorRotatedLeft(t: Tree)
    requires t.Branch? && t.right.Branch?
    ensures Mirror(t).Branch? && Mirror(t).left.Branch? && Mirror(RotatedLeft(t)) == RotatedRight(Mirror(t))
  {
    Mirrored(t);
    Mirrored(t.right);
    Mirrored(RotatedLeft(t));
    Mirrored(RotatedLeft(t).left);
  }

  lemma MirrorRotatedRight(t: Tree)
    requires t.Branch? && t.left.Branch?
    ensures Mirror(t).Branch? && Mirror(t).right.Branch? && Mirror(RotatedRight(t)) == RotatedLeft(Mirror(t))
  {
    Mirrored(t);
    Mirrored(t.left);
    Mirrored(RotatedRight(t));
    Mirrored(RotatedRight(t).right);
  }

  lemma ZagZag(y: nat, t: Tree, s: Tree)
    requires t.Branch? && t.right.Branch? && t.right.right.Branch? && s.Branch? && Weight(s) == Weight(t.right.right)
    requires Paid(y, t.right.right, s)
    ensures Paid(Times(2, y), t, PassedLeft(s, RotatedLeft(t)))
  {
    Mirrored(t);
    Mirrored(t.right);
    MirrorPaid(y, t.right.right, s);
    MirrorKeeps(t.right.right);
    MirrorKeeps(s);
    ZigZig(y, Mirror(t), Mirror(s));
    MirrorRotatedLeft(t);
    MirrorPassed(s, RotatedLeft(t));
    MirrorPaid(Times(2, y), t, PassedLeft(s, RotatedLeft(t)));
  }

  lemma ZagEnd(f: nat, t: Tree)
    requires t.Branch? && t.right.Branch? && (f == 2 || (f == 4 && t.right.left.Leaf?))
    ensures Paid(Times(f, Cube(Weight(t.right))), t, PassedLeft(t.right, t))
  {
    Mirrored(t);
    Mirrored(t.right);
    ZigEnd(f, Mirror(t));
    MirrorKeeps(t.right);
    MirrorPassed(t.right, t);
    MirrorPaid(Times(f, Cube(Weight(t.right))), t, PassedLeft(t.right, t));
  }

  lemma ZagZigEnd(t: Tree)
    requires t.Branch? && t.right.Branch? && t.right.left.Branch? && t.right.left.left.Leaf?
    ensures Paid(Times(4, Cube(Weight(t.right.left))), t, PassedLeft(RotatedRight(t.right), t))
  {
    Mirrored(t);
    Mirrored(t.right);
    Mirrored(t.right.left);
    ZigZagEnd(Mirror(t));
    MirrorKeeps(t.right.left);
    MirrorRotatedRight(t.right);
    MirrorPassed(RotatedRight(t.right), t);
    MirrorPaid(Times(4, Cube(Weight(t.right.left))), t, PassedLeft(RotatedRight(t.right), t));
  }

  lemma ZagZig(y: nat, t: Tree, s: Tree)
    requires t.Branch? && t.right.Branch? && t.right.left.Branch? && s.Branch? && Weight(s) == Weight(t.right.left)
    requires Paid(y, t.right.left, s)
    ensures Paid(Times(4, y), t, PassedLeft(PassedRight(s, t.right), t))
  {
    Mirrored(t);
    Mirrored(t.right);
    MirrorPaid(y, t.right.left, s);
    MirrorKeeps(t.right.left);
    MirrorKeeps(s);
    ZigZag(y, Mirror(t), Mirror(s));
    MirrorPassed(s, t.right);
    MirrorPassed(PassedRight(s, t.right), t);
    MirrorPaid(Times(4, y), t, PassedLeft(PassedRight(s, t.right), t));
  }

  lemma ZagZigZig(y: nat, t: Tree, s: Tree)
    requires t.Branch? && t.right.Branch? && t.right.left.Branch? && t.right.left.left.Branch?
    requires s.Branch? && Weight(s) == Weight(t.right.left.left) && Paid(y, t.right.left.left, s)
    ensures Paid(Times(4, y), t, PassedLeft(PassedRight(s, RotatedRight(t.right)), t))
  {
    Mirrored(t);
    Mirrored(t.right);
    Mirrored(t.right.left);
    MirrorPaid(y, t.right.left.left, s);
    MirrorKeeps(t.right.left.left);
    MirrorKeeps(s);
    ZigZagZag(y, Mirror(t), Mirror(s));
    MirrorRotatedRight(t.right);
    MirrorPassed(s, RotatedRight(t.right));
    MirrorPassed(PassedRight(s, RotatedRight(t.right)), t);
    MirrorPaid(Times(4, y), t, PassedLeft(PassedRight(s, RotatedRight(t.right)), t));
  }

  // ---------- A whole splay ----------

  /** The turns of a splay, as a power of two, times the cube of the weight that the node brought up had before. */
  function Work(o: Outcome): nat {
    Times(Pow2(o.turns), Cube(Weight(o.foot)))
  }

  /** The turns are paid for. */
  predicate Settled(o: Outcome, t: Tree) {
    Real(o) && Weight(o.tree) == Weight(t) && Paid(Work(o), t, o.tree)
  }

  lemma WorkIs(n: nat, x: nat)
    ensures Times(Pow2(n + 1), x) == Times(2, Times(Pow2(n), x)) && Times(Pow2(n + 2), x) == Times(4, Times(Pow2(n), x))
    ensures Times(Pow2(0), x) == x && Times(Pow2(1), x) == Times(2, x) && Times(Pow2(2), x) == Times(4, x)
  {
    Assoc3(2, Pow2(n), x);
    Assoc3(4, Pow2(n), x);
    Literals(Pow2(n));
    One(x);
    assert Pow2(n + 2) == 2 * Pow2(n + 1);
    assert Pow2(2) == 4;
  }

  lemma PastRightWeight(o: Outcome, t: Tree)
    requires Real(o) && t.Branch?
    ensures Weight(PastRight(o, t).tree) == Weight(o.tree) + Weight(t.right)
  {
    PotentialIs(o.tree);
    PotentialIs(PastRight(o, t).tree);
    PotentialIs(PastRight(o, t).tree.right);
  }

  lemma PastLeftWeight(o: Outcome, t: Tree)
    requires Real(o) && t.Branch?
    ensures Weight(PastLeft(o, t).tree) == Weight(t.left) + Weight(o.tree)
  {
    PotentialIs(o.tree);
    PotentialIs(PastLeft(o, t).tree);
    PotentialIs(PastLeft(o, t).tree.left);
  }

  /** Where the loop ends at once. */
  lemma AtOnce(n: nat, t: Tree)
    requires t.Branch? && n <= 1
    ensures Settled(Outcome(t, n, t), t)
  {
    WorkIs(n, Cube(Weight(t)));
    Literals(Cube(Weight(t)));
    Twice(Cube(Weight(t)), Potential(t));
  }

  // ---------- The cases of a turn to the left ----------

  lemma ZigZigSettles(o: Outcome, t: Tree)
    requires t.Branch? && t.left.Branch? && t.left.left.Branch? && Settled(o, t.left.left)
    ensures Settled(PastRight(o, RotatedRight(t)), t)
  {
    ZigZig(Work(o), t, o.tree);
    WorkIs(o.turns, Cube(Weight(o.foot)));
    PastRightWeight(o, RotatedRight(t));
    PotentialIs(t);
    PotentialIs(t.left);
    PotentialIs(RotatedRight(t).right);
  }

  lemma ZigEndSettles(n: nat, t: Tree)
    requires t.Branch? && t.left.Branch? && (n == 0 || (n == 1 && t.left.right.Leaf?))
    ensures Settled(PastRight(Outcome(t.left, n, t.left), t), t)
  {
    ZigEnd(if n == 0 then 2 else 4, t);
    WorkIs(n, Cube(Weight(t.left)));
    PastRightWeight(Outcome(t.left, n, t.left), t);
    PotentialIs(t);
  }

  lemma ZigZagEndSettles(t: Tree)
    requires t.Branch? && t.left.Branch? && t.left.right.Branch? && t.left.right.right.Leaf?
    ensures Settled(PastRight(Outcome(RotatedLeft(t.left), 1, t.left.right), t), t)
  {
    ZigZagEnd(t);
    WorkIs(1, Cube(Weight(t.left.right)));
    PastRightWeight(Outcome(RotatedLeft(t.left), 1, t.left.right), t);
    PotentialIs(t);
    PotentialIs(t.left);
    PotentialIs(t.left.right);
    PotentialIs(RotatedLeft(t.left));
    PotentialIs(RotatedLeft(t.left).left);
  }

  lemma ZigZagStays(o: Outcome, t: Tree)
    requires t.Branch? && t.left.Branch? && t.left.right.Branch? && Real(o) && Weight(o.tree) == Weight(t.left.right)
    ensures Weight(PastRight(PastLeft(o, t.left), t).tree) == Weight(t)
  {
    PastLeftWeight(o, t.left);
    PastRightWeight(PastLeft(o, t.left), t);
    PotentialIs(t);
    PotentialIs(t.left);
  }

  lemma ZigZagSettles(o: Outcome, t: Tree)
    requires t.Branch? && t.left.Branch? && t.left.right.Branch? && Settled(o, t.left.right)
    ensures Settled(PastRight(PastLeft(o, t.left), t), t)
  {
    ZigZag(Work(o), t, o.tree);
    WorkIs(o.turns, Cube(Weight(o.foot)));
    ZigZagStays(o, t);
  }

  lemma ZigZagZagStays(o: Outcome, t: Tree)
    requires t.Branch? && t.left.Branch? && t.left.right.Branch? && t.left.right.right.Branch? && Real(o) && Weight(o.tree) == Weight(t.left.right.right)
    ensures Weight(PastRight(PastLeft(o, RotatedLeft(t.left)), t).tree) == Weight(t)
  {
    PastLeftWeight(o, RotatedLeft(t.left));
    PastRightWeight(PastLeft(o, RotatedLeft(t.left)), t);
    PotentialIs(t);
    PotentialIs(t.left);
    PotentialIs(t.left.right);
    PotentialIs(RotatedLeft(t.left).left);
  }

  lemma ZigZagZagSettles(o: Outcome, t: Tree)
    requires t.Branch? && t.left.Branch? && t.left.right.Branch? && t.left.right.right.Branch? && Settled(o, t.left.right.right)
    ensures Settled(PastRight(PastLeft(o, RotatedLeft(t.left)), t), t)
  {
    ZigZagZag(Work(o), t, o.tree);
    WorkIs(o.turns, Cube(Weight(o.foot)));
    ZigZagZagStays(o, t);
  }

  lemma {:induction false} AccessLeft(t: Tree, k: Goal)
    requires t.Branch? && t.left.Branch? && Lt(k, t.node.key)
    ensures Settled(Splay(t, k), t)
    decreases t, 1
  {
    LeftTurn(t, k);
    if Gt(k, t.left.node.key) {
      AccessLeftRight(t, t.left, k);
    } else if !Lt(k, t.left.node.key) {
      assert Splay(t.left, k) == Outcome(t.left, 0, t.left);
      ZigEndSettles(0, t);
    } else if t.left.left.Leaf? {
      ZigEndSettles(0, t);
    } else {
      Access(t.left.left, k);
      ZigZigSettles(Splay(t.left.left, k), t);
    }
  }

  lemma {:induction false} AccessLeftRight(t: Tree, a: Tree, k: Goal)
    requires t.Branch? && a.Branch? && a == t.left && Gt(k, a.node.key)
    ensures Settled(PastRight(Splay(a, k), t), t)
    decreases t, 0
  {
    RightTurn(a, k);
    if a.right.Leaf? {
      ZigEndSettles(1, t);
    } else if !Gt(k, a.right.node.key) {
      Access(a.right, k);
      ZigZagSettles(Splay(a.right, k), t);
    } else if a.right.right.Leaf? {
      ZigZagEndSettles(t);
    } else {
      Access(a.right.right, k);
      ZigZagZagSettles(Splay(a.right.right, k), t);
    }
  }

  // ---------- The cases of a turn to the right ----------

  lemma ZagZagSettles(o: Outcome, t: Tree)
    requires t.Branch? && t.right.Branch? && t.right.right.Branch? && Settled(o, t.right.right)
    ensures Settled(PastLeft(o, RotatedLeft(t)), t)
  {
    ZagZag(Work(o), t, o.tree);
    WorkIs(o.turns, Cube(Weight(o.foot)));
    PastLeftWeight(o, RotatedLeft(t));
    PotentialIs(t);
    PotentialIs(t.right);
    PotentialIs(RotatedLeft(t).left);
  }

  lemma ZagEndSettles(n: nat, t: Tree)
    requires t.Branch? && t.right.Branch? && (n == 0 || (n == 1 && t.right.left.Leaf?))
    ensures Settled(PastLeft(Outcome(t.right, n, t.right), t), t)
  {
    ZagEnd(if n == 0 then 2 else 4, t);
    WorkIs(n, Cube(Weight(t.right)));
    PastLeftWeight(Outcome(t.right, n, t.right), t);
    PotentialIs(t);
  }

  lemma ZagZigEndSettles(t: Tree)
    requires t.Branch? && t.right.Branch? && t.right.left.Branch? && t.right.left.left.Leaf?
    ensures Settled(PastLeft(Outcome(RotatedRight(t.right), 1, t.right.left), t), t)
  {
    ZagZigEnd(t);
    WorkIs(1, Cube(Weight(t.right.left)));
    PastLeftWeight(Outcome(RotatedRight(t.right), 1, t.right.left), t);
    PotentialIs(t);
    PotentialIs(t.right);
    PotentialIs(t.right.left);
    PotentialIs(RotatedRight(t.right));
    PotentialIs(RotatedRight(t.right).right);
  }

  lemma ZagZigStays(o: Outcome, t: Tree)
    requires t.Branch? && t.right.Branch? && t.right.left.Branch? && Real(o) && Weight(o.tree) == Weight(t.right.left)
    ensures Weight(PastLeft(PastRight(o, t.right), t).tree) == Weight(t)
  {
    PastRightWeight(o, t.right);
    PastLeftWeight(PastRight(o, t.right), t);
    PotentialIs(t);
    PotentialIs(t.right);
  }

  lemma ZagZigSettles(o: Outcome, t: Tree)
    requires t.Branch? && t.right.Branch? && t.right.left.Branch? && Settled(o, t.right.left)
    ensures Settled(PastLeft(PastRight(o, t.right), t), t)
  {
    ZagZig(Work(o), t, o.tree);
    WorkIs(o.turns, Cube(Weight(o.foot)));
    ZagZigStays(o, t);
  }

  lemma ZagZigZigStays(o: Outcome, t: Tree)
    requires t.Branch? && t.right.Branch? && t.right.left.Branch? && t.right.left.left.Branch? && Real(o) && Weight(o.tree) == Weight(t.right.left.left)
    ensures Weight(PastLeft(PastRight(o, RotatedRight(t.right)), t).tree) == Weight(t)
  {
    PastRightWeight(o, RotatedRight(t.right));
    PastLeftWeight(PastRight(o, RotatedRight(t.right)), t);
    PotentialIs(t);
    PotentialIs(t.right);
    PotentialIs(t.right.left);
    PotentialIs(RotatedRight(t.right).right);
  }

  lemma ZagZigZigSettles(o: Outcome, t: Tree)
    requires t.Branch? && t.right.Branch? && t.right.left.Branch? && t.right.left.left.Branch? && Settled(o, t.right.left.left)
    ensures Settled(PastLeft(PastRight(o, RotatedRight(t.right)), t), t)
  {
    ZagZigZig(Work(o), t, o.tree);
    WorkIs(o.turns, Cube(Weight(o.foot)));
    ZagZigZigStays(o, t);
  }

  lemma {:induction false} AccessRight(t: Tree, k: Goal)
    requires t.Branch? && t.right.Branch? && Gt(k, t.node.key)
    ensures Settled(Splay(t, k), t)
    decreases t, 1
  {
    RightTurn(t, k);
    if Lt(k, t.right.node.key) {
      AccessRightLeft(t, t.right, k);
    } else if !Gt(k, t.right.node.key) {
      assert Splay(t.right, k) == Outcome(t.right, 0, t.right);
      ZagEndSettles(0, t);
    } else if t.right.right.Leaf? {
      ZagEndSettles(0, t);
    } else {
      Access(t.right.right, k);
      ZagZagSettles(Splay(t.right.right, k), t);
    }
  }

  lemma {:induction false} AccessRightLeft(t: Tree, a: Tree, k: Goal)
    requires t.Branch? && a.Branch? && a == t.right && Lt(k, a.node.key)
    ensures Settled(PastLeft(Splay(a, k), t), t)
    decreases t, 0
  {
    LeftTurn(a, k);
    if a.left.Leaf? {
      ZagEndSettles(1, t);
    } else if !Lt(k, a.left.node.key) {
      Access(a.left, k);
      ZagZigSettles(Splay(a.left, k), t);
    } else if a.left.left.Leaf? {
      ZagZigEndSettles(t);
    } else {
      Access(a.left.left, k);
      ZagZigZigSettles(Splay(a.left.left, k), t);
    }
  }

  lemma {:induction false} Access(t: Tree, k: Goal)
    requires t.Branch?
    ensures Settled(Splay(t, k), t)
    decreases t, 2
  {
    AtOnce(0, t);
    AtOnce(1, t);
    if Lt(k, t.node.key) && t.left.Branch? {
      AccessLeft(t, k);
    } else if Gt(k, t.node.key) && t.right.Branch? {
      AccessRight(t, k);
    }
  }

  /** The turns of a splay of a tree of weight w are at most 3 * lg w, and what the potential falls by. */
  lemma SplayPays(t: Tree, k: Goal)
    requires t.Branch?
    ensures var o := Splay(t, k);
      Weight(o.tree) == Weight(t) && 4 * Times(Pow2(o.turns), Potential(o.tree)) <= Times(Cube(Weight(t)), Potential(t))
  {
    Access(t, k);
    var o := Splay(t, k);
    CubeAtLeast(Weight(o.foot));
    AtLeastEight(Pow2(o.turns), Cube(Weight(o.foot)), Potential(o.tree));
  }

  lemma AtLeastEight(y: nat, z: nat, p: nat)
    requires z >= 8
    ensures 8 * Times(y, p) <= Times(Times(y, z), p)
  {
    Mono(y, y, 8, z);
    TimesIs(y, 8);
    Mono(8 * y, Times(y, z), p, p);
    TimesIs(8 * y, p);
    TimesIs(y, p);
  }

  lemma CubeAtLeast(x: nat)
    requires x >= 2
    ensures Cube(x) >= 8
  {
    Mono(2, x, 2, x);
    Mono(2, x, 4, Times(x, x));
    TimesIs(2, 2);
    TimesIs(2, 4);
  }
}
