/** Products and powers of two. */
module Arithmetic {
  lemma MulMono(x: int, y: int, z: nat)
    requires x <= y
    ensures x * z <= y * z
  {
  }

  /** A product, as a sum. */
  function Times(a: nat, b: nat): nat {
    if a == 0 then 0 else b + Times(a - 1, b)
  }

  lemma {:induction false} TimesIs(a: nat, b: nat)
    ensures Times(a, b) == a * b
  {
    if a > 0 {
      TimesIs(a - 1, b);
      assert (a - 1) * b == a * b - b;
    }
  }

  lemma {:induction false} TimesSum(a: nat, c: nat, b: nat)
    ensures Times(a + c, b) == Times(a, b) + Times(c, b)
  {
    if a > 0 {
      TimesSum(a - 1, c, b);
    }
  }

  lemma TimesAssoc(a: nat, w: nat, y: nat)
    ensures Times(a, Times(w, y)) == Times(Times(a, y), w)
  {
    TimesIs(w, y);
    TimesIs(a, y);
    TimesIs(a, w * y);
    TimesIs(a * y, w);
    Rearrange(a, w, y);
  }

  lemma Rearrange(a: nat, w: nat, y: nat)
    ensures a * (w * y) == (a * y) * w
  {
  }

  lemma DivMod(x: nat, y: nat)
    requires y > 0
    ensures x / y >= 0 && x == Times(x / y, y) + x % y
  {
    TimesIs(x / y, y);
  }

  /** x / len, by subtractions. */
  function Quot(x: nat, len: nat): nat
    requires len > 0
  {
    if x < len then 0 else 1 + Quot(x - len, len)
  }

  function Rem(x: nat, len: nat): (j: nat)
    requires len > 0
    ensures j < len
  {
    if x < len then x else Rem(x - len, len)
  }

  /** Quotient and remainder of a sum that is put together from them. */
  lemma {:induction false} Remainder(a: nat, b: nat, len: nat)
    requires b < len
    ensures Quot(Times(a, len) + b, len) == a && Rem(Times(a, len) + b, len) == b
  {
    if a > 0 {
      Remainder(a - 1, b, len);
    }
  }

  lemma QuotIs(x: nat, len: nat)
    requires len > 0
    ensures x / len >= 0 && Quot(x, len) == x / len
  {
    DivMod(x, len);
    Remainder(x / len, x % len, len);
  }

  function Pow2(k: nat): (p: nat)
    ensures p > 0
  {
    if k == 0 then 1 else 2 * Pow2(k - 1)
  }

  lemma {:induction false} PowMono(a: nat, b: nat)
    requires a <= b
    ensures Pow2(a) <= Pow2(b)
    decreases b
  {
    if a < b {
      PowMono(a, b - 1);
    }
  }

  lemma {:induction false} PowSum(a: nat, b: nat)
    ensures Pow2(a + b) == Pow2(a) * Pow2(b)
  {
    if a > 0 {
      PowSum(a - 1, b);
      assert Pow2(a + b) == 2 * Pow2(a - 1 + b);
    }
  }
}
