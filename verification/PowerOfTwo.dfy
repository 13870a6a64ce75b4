/** next_power_of_two (src/unix/core.c:807-816), in unsigned 32-bit arithmetic. */
module PowerOfTwo {
  import opened Arithmetic

  const TWO_32: nat := 0x1_0000_0000

  /** Bitwise or. */
  function Or(a: nat, b: nat): nat
    decreases a + b
  {
    if a == 0 && b == 0 then 0 else 2 * Or(a / 2, b / 2) + if a % 2 == 1 || b % 2 == 1 then 1 else 0
  }

  lemma {:induction false} OrAtLeast(a: nat, b: nat)
    ensures Or(a, b) >= b
    decreases a + b
  {
    if a != 0 || b != 0 {
      OrAtLeast(a / 2, b / 2);
    }
  }

  lemma {:induction false} OrBelow(a: nat, b: nat, p: nat)
    requires a < Pow2(p) && b < Pow2(p)
    ensures Or(a, b) < Pow2(p)
    decreases p
  {
    if p > 0 {
      OrBelow(a / 2, b / 2, p - 1);
    }
  }

  /** Bits that are above b stay out of it. */
  lemma {:induction false} OrHigh(h: nat, l: nat, b: nat, p: nat)
    requires l < Pow2(p) && b < Pow2(p)
    ensures Or(h * Pow2(p) + l, b) == h * Pow2(p) + Or(l, b)
    decreases p
  {
    if p == 0 {
      OrZero(h);
    } else {
      var q := h * Pow2(p - 1);
      assert h * Pow2(p) == 2 * q;
      assert (2 * q + l) / 2 == q + l / 2 && (2 * q + l) % 2 == l % 2;
      OrHigh(h, l / 2, b / 2, p - 1);
    }
  }

  lemma {:induction false} OrZero(a: nat)
    ensures Or(a, 0) == a
  {
    if a > 0 {
      OrZero(a / 2);
    }
  }

  /** The j highest of the n bits of x are ones. */
  predicate TopOnes(x: nat, n: nat, j: nat) {
    j <= n && Pow2(n) - Pow2(n - j) <= x < Pow2(n)
  }

  /** x | x >> j doubles the ones at the top. */
  lemma Doubles(x: nat, n: nat, j: nat)
    requires TopOnes(x, n, j) && j >= 1
    ensures TopOnes(Or(x, x / Pow2(j)), n, if 2 * j <= n then 2 * j else n)
  {
    var y := x / Pow2(j);
    Shifted(x, n, j, y);
    DoublesWith(x, y, n, j);
  }

  lemma DoublesWith(x: nat, y: nat, n: nat, j: nat)
    requires TopOnes(x, n, j)
    requires y < Pow2(n - j) && y >= Pow2(n - j) - if 2 * j <= n then Pow2(n - 2 * j) else 1
    ensures TopOnes(Or(x, y), n, if 2 * j <= n then 2 * j else n)
  {
    PowSum(j, n - j);
    Filled(x, y, Pow2(j), n - j, Pow2(n));
    assert Pow2(0) == 1;
  }

  lemma Less(d: nat, q: nat)
    ensures (d - 1) * q == d * q - q
  {
  }

  /** The ones stay, and below them come those of y. */
  lemma Filled(x: nat, y: nat, d: nat, p: nat, top: nat)
    requires top == d * Pow2(p) && top - Pow2(p) <= x < top && y < Pow2(p) && d > 0
    ensures top - Pow2(p) + y <= Or(x, y) < top
  {
    var q, h := Pow2(p), d - 1;
    Less(d, q);
    FilledBelow(x, y, h, p, h * q, x - (top - q));
  }

  lemma FilledBelow(x: nat, y: nat, h: nat, p: nat, high: nat, l: nat)
    requires high == h * Pow2(p) && x == high + l && l < Pow2(p) && y < Pow2(p)
    ensures high + y <= Or(x, y) < high + Pow2(p)
  {
    OrHigh(h, l, y, p);
    OrAtLeast(l, y);
    OrBelow(l, y, p);
  }

  lemma Shifted(x: nat, n: nat, j: nat, y: nat)
    requires TopOnes(x, n, j) && j >= 1 && y == x / Pow2(j)
    ensures y < Pow2(n - j)
    ensures y >= Pow2(n - j) - if 2 * j <= n then Pow2(n - 2 * j) else 1
  {
    var p, d, q := n - j, Pow2(j), Pow2(n - j);
    PowSum(j, p);
    Below(x, d, q);
    if 2 * j <= n {
      PowSum(j, n - 2 * j);
      FarShift(x, d, q, Pow2(n - 2 * j));
    } else {
      PowMono(p, j);
      FarShift(x, d, q, 1);
    }
  }

  lemma FarShift(x: nat, d: nat, q: nat, e: nat)
    requires d > 0 && x >= d * q - q && q <= d * e
    ensures x / d >= q - e
  {
    assert d * (q - e) == d * q - d * e;
    Multiple(x, d, q - e);
  }

  lemma Below(x: nat, d: nat, q: nat)
    requires d > 0 && x < d * q
    ensures x / d < q
  {
    assert x == d * (x / d) + x % d;
    if x / d >= q {
      MulMono(q, x / d, d);
    }
  }

  lemma Multiple(x: nat, d: nat, q: int)
    requires d > 0 && x >= d * q
    ensures x / d >= q
  {
    assert x == d * (x / d) + x % d;
    if x / d < q {
      MulMono(x / d + 1, q, d);
    }
  }

  /** Every positive number has a highest bit. */
  lemma {:induction false} Bits(x: nat) returns (n: nat)
    requires x > 0
    ensures n > 0 && TopOnes(x, n, 1)
  {
    if x == 1 {
      n := 1;
      assert Pow2(1) == 2;
    } else {
      n := Bits(x / 2);
      n := n + 1;
      assert Pow2(n) == 2 * Pow2(n - 1);
    }
  }

  predicate IsPowerOfTwo(r: nat) {
    r > 0 && (r == 1 || (r % 2 == 0 && IsPowerOfTwo(r / 2)))
  }

  lemma {:induction false} PowIs(k: nat)
    ensures IsPowerOfTwo(Pow2(k))
  {
    if k > 0 {
      PowIs(k - 1);
    }
  }

  lemma {:induction false} IsPow(p: nat) returns (k: nat)
    requires IsPowerOfTwo(p)
    ensures p == Pow2(k)
  {
    if p == 1 {
      k := 0;
    } else {
      k := IsPow(p / 2);
      k := k + 1;
    }
  }

  /** r is the least power of two not below v. */
  ghost predicate IsLeastPower(v: nat, r: nat) {
    IsPowerOfTwo(r) && v <= r && forall p :: IsPowerOfTwo(p) && v <= p ==> r <= p
  }

  /** From 2^(n-1) to 2^n - 1, the least power of two above is 2^n. */
  lemma LeastAbove(x: nat, n: nat)
    requires n > 0 && TopOnes(x, n, 1)
    ensures IsLeastPower(x + 1, Pow2(n))
  {
    PowIs(n);
    forall p | IsPowerOfTwo(p) && x + 1 <= p ensures Pow2(n) <= p {
      NextAbove(x, n, p);
    }
  }

  lemma NextAbove(x: nat, n: nat, p: nat)
    requires n > 0 && TopOnes(x, n, 1) && IsPowerOfTwo(p) && x < p
    ensures Pow2(n) <= p
  {
    var k := IsPow(p);
    PowOver(k, n);
  }

  lemma PowOver(k: nat, n: nat)
    requires n > 0
    ensures Pow2(n) - Pow2(n - 1) < Pow2(k) ==> Pow2(n) <= Pow2(k)
  {
    if k < n {
      PowMono(k, n - 1);
    } else {
      PowMono(n, k);
    }
  }

  /** How many of the n bits are ones after a shift by j. */
  function Twice(j: nat, n: nat): nat {
    if 2 * j <= n then 2 * j else n
  }

  /** val |= val >> s. */
  method OrShift(val: nat, s: nat, ghost n: nat, ghost j: nat) returns (r: nat)
    requires TopOnes(val, n, j) && s >= 1 && ((j == s) || (j == n && s >= n))
    ensures TopOnes(r, n, Twice(j, n))
  {
    r := Or(val, val / Pow2(s));
    if j == s {
      Doubles(val, n, j);
    } else {
      PowMono(n, s);
      Below(val, Pow2(s), 1);
      OrZero(val);
    }
  }

  lemma {:induction false} AtMost32(x: nat, n: nat)
    requires x < TWO_32 && TopOnes(x, n, 1)
    ensures n <= 32
  {
    Powers();
    if n > 32 {
      PowMono(32, n - 1);
    }
  }

  lemma AllOnes(x: nat, n: nat)
    requires TopOnes(x, n, n)
    ensures x == Pow2(n) - 1
  {
    assert Pow2(0) == 1;
  }

  /** Lines 809 to 813: every bit below the highest one is set. */
  method Smear(x: nat, ghost n: nat) returns (val: nat)
    requires n <= 32 && if n == 0 then x == 0 else TopOnes(x, n, 1)
    ensures val == Pow2(n) - 1
  {
    ghost var j := if n == 0 then 0 else 1;
    assert Pow2(0) == 1;
    val := OrShift(x, 1, n, j);
    val := OrShift(val, 2, n, Twice(j, n));
    val := OrShift(val, 4, n, Twice(Twice(j, n), n));
    val := OrShift(val, 8, n, Twice(Twice(Twice(j, n), n), n));
    val := OrShift(val, 16, n, Twice(Twice(Twice(Twice(j, n), n), n), n));
    AllOnes(val, n);
  }

  /** The least power of two not below v, for 1 to 2^31; beyond, and for 0, it does not fit, and r is 0. */
  ghost predicate IsNextPower(v: nat, r: nat) {
    && (r == 0 <==> v == 0 || v > 0x8000_0000)
    && (r != 0 ==> IsLeastPower(v, r) && r <= 0x8000_0000)
  }

  /** next_power_of_two. */
  method NextPowerOfTwo(val0: nat) returns (val: nat)
    requires val0 < TWO_32
    ensures IsNextPower(val0, val)
  {
    val := Minus1(val0);
    ghost var x, n := val, 0;
    if x > 0 {
      n := Bits(x);
      AtMost32(x, n);
    }
    Result(val0, x, n);
    val := Smear(val, n);
    val := Plus1(val);
  }

  /** val -= 1. */
  function Minus1(v: nat): (r: nat)
    requires v < TWO_32
    ensures r == if v == 0 then TWO_32 - 1 else v - 1
  {
    (v + TWO_32 - 1) % TWO_32
  }

  /** val += 1. */
  function Plus1(v: nat): (r: nat)
    requires v < TWO_32
    ensures r == if v == TWO_32 - 1 then 0 else v + 1
  {
    (v + 1) % TWO_32
  }

  /** The last step: the sum fits unless there are 32 bits. */
  lemma Result(val0: nat, x: nat, n: nat)
    requires val0 < TWO_32 && x == (if val0 == 0 then TWO_32 - 1 else val0 - 1) && n <= 32
    requires if x == 0 then n == 0 else n > 0 && TopOnes(x, n, 1)
    ensures if n == 32 then Pow2(n) == TWO_32 && (val0 == 0 || val0 > 0x8000_0000)
            else 0 < Pow2(n) <= 0x8000_0000 && 0 < val0 <= 0x8000_0000 && IsLeastPower(val0, Pow2(n))
  {
    Powers();
    if n < 32 {
      PowMono(n, 31);
      if x > 0 {
        LeastAbove(x, n);
      } else {
        LeastOne();
      }
    }
  }

  lemma LeastOne()
    ensures IsLeastPower(1, Pow2(0))
  {
    assert Pow2(0) == 1;
  }

  lemma Powers()
    ensures Pow2(31) == 0x8000_0000 && Pow2(32) == TWO_32
  {
    assert Pow2(4) == 16;
    PowSum(4, 4);
    PowSum(8, 8);
    PowSum(16, 16);
    assert Pow2(32) == 2 * Pow2(31);
  }
}
