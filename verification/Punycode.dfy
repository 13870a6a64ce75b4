/** Punycode on unbounded integers: the decoder of section 6.2 of RFC 3492, the encoder that src/idna.c:161-245
    computes, and the proof that one undoes the other. */
module Punycode {
  import opened Arithmetic
  import opened Wrappers

  // ---------- The decoder of RFC 3492 ----------

  /** Section 6.1, with damp 700, tmin 1, tmax 26, base 36 and skew 38. */
  function Adapt(delta: nat, numpoints: nat, first: bool): nat
    requires numpoints > 0
  {
    var d := if first then delta / 700 else delta / 2;
    Settle(d + Quot(d, numpoints), 0)
  }

  function Settle(delta: nat, k: nat): nat {
    if delta > 35 * 26 / 2 then Settle(delta / 35, k + 36) else k + Quot(36 * delta, delta + 38)
  }

  function Pow35(k: nat): (p: nat)
    ensures p > 0
  {
    if k == 0 then 1 else 35 * Pow35(k - 1)
  }

  /** e is d div 35^k, and k is the least number for which this is at most 455. */
  predicate SettlesAt(d: nat, k: nat, e: nat) {
    && Pow35(k) * e <= d < Pow35(k) * (e + 1)
    && e <= 455 && (k > 0 ==> Pow35(k - 1) * 456 <= d)
  }

  /** The delta is divided by 700 the first time and by 2 later on, and its share for each code point is added. */
  function Damped(delta: nat, numpoints: nat, first: bool): nat
    requires numpoints > 0
  {
    var d := if first then delta / 700 else delta / 2;
    DivMod(d, numpoints);
    d + d / numpoints
  }

  function Skewed(k: nat, e: nat): nat {
    DivMod(36 * e, e + 38);
    36 * k + 36 * e / (e + 38)
  }

  /** The bias for what is damped to d. */
  ghost predicate IsBias(d: nat, bias: nat) {
    exists k: nat, e: nat :: SettlesAt(d, k, e) && bias == Skewed(k, e)
  }

  /** Section 6.1 of RFC 3492 in closed form: what is damped is divided by 35 until it is at most 455. */
  ghost predicate IsAdapted(delta: nat, numpoints: nat, first: bool, bias: nat)
    requires numpoints > 0
  {
    IsBias(Damped(delta, numpoints, first), bias)
  }

  lemma AdaptIs(delta: nat, numpoints: nat, first: bool)
    requires numpoints > 0
    ensures IsAdapted(delta, numpoints, first, Adapt(delta, numpoints, first))
  {
    QuotIs(if first then delta / 700 else delta / 2, numpoints);
    var k, e := SettleIs(Damped(delta, numpoints, first), 0);
  }

  lemma {:induction false} SettleIs(d: nat, k0: nat) returns (k: nat, e: nat)
    ensures SettlesAt(d, k, e) && Settle(d, k0) == k0 + Skewed(k, e)
  {
    if d > 455 {
      k, e := SettleIs(d / 35, k0 + 36);
      ScaleUp(Pow35(k), e, d);
      if k > 0 {
        ScaleBound(Pow35(k - 1), d);
      }
      k := k + 1;
    } else {
      k, e := 0, d;
      QuotIs(36 * d, d + 38);
    }
  }

  lemma ScaleUp(p: nat, e: nat, d: nat)
    requires p * e <= d / 35 < p * (e + 1)
    ensures 35 * p * e <= d < 35 * p * (e + 1)
  {
    assert 35 * (p * e) == 35 * p * e && 35 * (p * (e + 1)) == 35 * p * (e + 1);
  }

  lemma ScaleBound(p: nat, d: nat)
    requires p * 456 <= d / 35
    ensures 35 * p * 456 <= d
  {
  }

  /** The closed form leaves no choice. */
  lemma AdaptedOnce(delta: nat, numpoints: nat, first: bool, a: nat, b: nat)
    requires numpoints > 0 && IsAdapted(delta, numpoints, first, a) && IsAdapted(delta, numpoints, first, b)
    ensures a == b
  {
    BiasOnce(Damped(delta, numpoints, first), a, b);
  }

  lemma BiasOnce(d: nat, a: nat, b: nat)
    requires IsBias(d, a) && IsBias(d, b)
    ensures a == b
  {
    var k: nat, e: nat :| SettlesAt(d, k, e) && a == Skewed(k, e);
    BiasIs(d, k, e, b);
  }

  lemma BiasIs(d: nat, k: nat, e: nat, bias: nat)
    requires SettlesAt(d, k, e) && IsBias(d, bias)
    ensures bias == Skewed(k, e)
  {
    var l: nat, f: nat :| SettlesAt(d, l, f) && bias == Skewed(l, f);
    SettledOnce(d, k, e, l, f);
  }

  lemma SettledOnce(d: nat, k: nat, e: nat, l: nat, f: nat)
    requires SettlesAt(d, k, e) && SettlesAt(d, l, f)
    ensures k == l && e == f
  {
    if k < l {
      BoundsMeet(k, e, l);
    } else if l < k {
      BoundsMeet(l, f, k);
    }
    SameShare(Pow35(k), d, e, f);
  }

  lemma BoundsMeet(k: nat, e: nat, l: nat)
    requires k < l && e <= 455
    ensures Pow35(k) * (e + 1) <= Pow35(l - 1) * 456
  {
    PowersRise(k, l - 1);
    MulMono(e + 1, 456, Pow35(k));
    MulMono(Pow35(k), Pow35(l - 1), 456);
    assert Pow35(k) * (e + 1) == (e + 1) * Pow35(k) && 456 * Pow35(k) == Pow35(k) * 456;
  }

  lemma {:induction false} PowersRise(k: nat, l: nat)
    requires k <= l
    ensures Pow35(k) <= Pow35(l)
    decreases l
  {
    if k < l {
      PowersRise(k, l - 1);
    }
  }

  lemma SameShare(p: nat, d: nat, e: nat, f: nat)
    requires p * e <= d < p * (e + 1) && p * f <= d < p * (f + 1)
    ensures e == f
  {
    if e < f {
      MulMono(e + 1, f, p);
    } else if f < e {
      MulMono(f + 1, e, p);
    }
  }

  function Threshold(k: nat, bias: nat): (t: nat)
    ensures 1 <= t <= 26
  {
    if k <= bias + 1 then 1 else if k >= bias + 26 then 26 else k - bias
  }

  function DigitValue(c: char): Option<nat> {
    if 'a' <= c <= 'z' then Some((c - 'a') as nat)
    else if 'A' <= c <= 'Z' then Some((c - 'A') as nat)
    else if '0' <= c <= '9' then Some((c - '0') as nat + 26)
    else None
  }

  /** A generalized variable-length integer at the head of s, and what follows it. */
  function ReadInt(s: string, k: nat, w: nat, bias: nat): (r: Option<(nat, string)>)
    ensures r.Some? ==> |r.value.1| < |s|
  {
    if s == [] then None
    else
      match DigitValue(s[0])
      case None => None
      case Some(digit) =>
        var t := Threshold(k, bias);
        if digit < t then Some((Times(digit, w), s[1..]))
        else
          match ReadInt(s[1..], k + 36, Times(w, 36 - t), bias)
          case None => None
          case Some(r) => Some((Times(digit, w) + r.0, r.1))
  }

  function InsertAt(output: seq<nat>, j: nat, c: nat): seq<nat>
    requires j <= |output|
  {
    output[..j] + [c] + output[j..]
  }

  /** The main loop of section 6.2.  Whether oldi is zero is how it tests for the first time. */
  function DecodeTail(s: string, n: nat, i: nat, bias: nat, output: seq<nat>): Option<seq<nat>>
    decreases |s|
  {
    if s == [] then Some(output)
    else
      match ReadInt(s, 36, 1, bias)
      case None => None
      case Some((v, rest)) =>
        var len := |output| + 1;
        var m, j := n + Quot(i + v, len), Rem(i + v, len);
        DecodeTail(rest, m, j + 1, Adapt(v, len, i == 0), InsertAt(output, j, m))
  }

  /** The index of the last '-', or -1. */
  function LastDelimiter(s: string): (r: int)
    ensures -1 <= r < |s|
    ensures r >= 0 ==> s[r] == '-'
    ensures forall j :: r < j < |s| ==> s[j] != '-'
  {
    if s == [] then -1
    else if s[|s| - 1] == '-' then |s| - 1
    else LastDelimiter(s[..|s| - 1])
  }

  function CodesOf(s: string): seq<nat> {
    seq(|s|, i requires 0 <= i < |s| => s[i] as nat)
  }

  predicate AllBasic(s: string) {
    forall c :: c in s ==> c < 128 as char
  }

  /** Section 6.2.  The delimiter is consumed only when something stands before it. */
  function Decode(s: string): Option<seq<nat>> {
    var b := LastDelimiter(s);
    var basic, tail := if b > 0 then s[..b] else [], if b > 0 then s[b + 1..] else s;
    if !AllBasic(basic) then None else DecodeTail(tail, 128, 0, 72, CodesOf(basic))
  }

  // ---------- The encoder ----------

  /** "abcdefghijklmnopqrstuvwxyz0123456789"[v]. */
  function Digit(v: nat): char
    requires v < 36
  {
    if v < 26 then 'a' + v as char else '0' + (v - 26) as char
  }

  /** The alphabet of line 104. */
  lemma Alphabet(v: nat)
    requires v < 36
    ensures Digit(v) == "abcdefghijklmnopqrstuvwxyz0123456789"[v]
  {
  }

  /** The decoder reads it, in both cases. */
  lemma AlphabetIsRead(v: nat)
    requires v < 36
    ensures DigitValue(Digit(v)) == Some(v) && (v < 26 ==> DigitValue('A' + v as char) == Some(v))
  {
  }

  lemma QuotientDrops(q: nat, t: nat)
    requires 1 <= t <= 26
    ensures q >= t ==> 0 <= (q - t) / (36 - t) < q && 0 <= (q - t) % (36 - t) < 36 - t
  {
    if q >= t {
      var x, y := q - t, 36 - t;
      assert x == y * (x / y) + x % y;
      MulMono(1, y, x / y);
    }
  }

  /** Line 211: the digit for q, one of the base - tmin values at or above the threshold. */
  function LowDigit(q: nat, t: nat): (r: nat)
    requires 1 <= t <= 26 && q >= t
    ensures t <= r < 36
  {
    QuotientDrops(q, t);
    t + (q - t) % (36 - t)
  }

  /** Line 210. */
  function HighPart(q: nat, t: nat): (r: nat)
    requires 1 <= t <= 26 && q >= t
    ensures r < q
  {
    QuotientDrops(q, t);
    (q - t) / (36 - t)
  }

  /** Lines 192 to 218. */
  function Digits(q: nat, k: nat, bias: nat): string
    decreases q
  {
    var t := Threshold(k, bias);
    if q < t then [Digit(q)] else [Digit(LowDigit(q, t))] + Digits(HighPart(q, t), k + 36, bias)
  }

  /** What the encoder holds besides n and the cursor: how many code points are handled, the bias, what is written
      since the delimiter, and every delta that was written, in order. */
  datatype Enc = Enc(delta: nat, h: nat, bias: nat, digits: string, deltas: seq<nat>)

  /** Lines 192 to 239. */
  function Emit(e: Enc): Enc {
    Enc(0, e.h + 1, Adapt(e.delta, e.h + 1, e.deltas == []), e.digits + Digits(e.delta, 36, e.bias), e.deltas + [e.delta])
  }

  function Visit(c: nat, n: nat, e: Enc): Enc {
    if c < n then Bump(e) else if c == n then Emit(e) else e
  }

  /** Lines 183 to 239, from the p-th code point on. */
  function Scan(cs: seq<nat>, n: nat, p: nat, e: Enc): Enc
    requires p <= |cs|
    decreases |cs| - p
  {
    if p == |cs| then e else Scan(cs, n, p + 1, Visit(cs[p], n, e))
  }

  /** How many code points are n or more. */
  function Left(cs: seq<nat>, n: nat): (k: nat)
    ensures k <= |cs|
  {
    if cs == [] then 0 else Left(cs[..|cs| - 1], n) + if cs[|cs| - 1] >= n then 1 else 0
  }

  /** Lines 167 to 172: the least code point not below n. */
  function Least(cs: seq<nat>, n: nat): (m: nat)
    requires Left(cs, n) > 0
    ensures m >= n
  {
    var front, last := cs[..|cs| - 1], cs[|cs| - 1];
    if Left(front, n) == 0 then last
    else
      var m := Least(front, n);
      if n <= last < m then last else m
  }

  lemma {:induction false} LeastIs(cs: seq<nat>, n: nat)
    requires Left(cs, n) > 0
    ensures Least(cs, n) in cs && forall c :: c in cs && c >= n ==> Least(cs, n) <= c
  {
    var front, last := cs[..|cs| - 1], cs[|cs| - 1];
    Split(cs);
    if Left(front, n) == 0 {
      LeftNone(front, n);
    } else {
      LeastIs(front, n);
    }
  }

  lemma Split(cs: seq<nat>)
    requires cs != []
    ensures forall c :: c in cs <==> c in cs[..|cs| - 1] || c == cs[|cs| - 1]
  {
    assert cs == cs[..|cs| - 1] + [cs[|cs| - 1]];
  }

  lemma {:induction false} LeftNone(cs: seq<nat>, n: nat)
    ensures Left(cs, n) == 0 <==> forall i :: 0 <= i < |cs| ==> cs[i] < n
  {
    if cs != [] {
      var front := cs[..|cs| - 1];
      LeftNone(front, n);
      assert forall i :: 0 <= i < |front| ==> front[i] == cs[i];
      if Left(cs, n) == 0 {
        forall i | 0 <= i < |cs| ensures cs[i] < n {
          assert i < |front| ==> front[i] == cs[i];
        }
      }
    }
  }

  lemma {:induction false} LeftDrops(cs: seq<nat>, n: nat, m: nat)
    requires n <= m
    ensures Left(cs, m) <= Left(cs, n) && (forall i :: 0 <= i < |cs| && n <= cs[i] < m ==> Left(cs, m) < Left(cs, n))
  {
    if cs != [] {
      LeftDrops(cs[..|cs| - 1], n, m);
    }
  }

  /** Lines 174 to 181. */
  function Jump(n: nat, m: nat, e: Enc): Enc
    requires n <= m
  {
    e.(delta := e.delta + (m - n) * (e.h + 1))
  }

  /** Line 241. */
  function Bump(e: Enc): Enc {
    e.(delta := e.delta + 1)
  }

  /** Lines 167 to 242: one round, for the least code point value left. */
  function Round(cs: seq<nat>, n: nat, e: Enc): Enc
    requires Left(cs, n) > 0
  {
    var m := Least(cs, n);
    Bump(Scan(cs, m, 0, Jump(n, m, e)))
  }

  lemma FewerLeft(cs: seq<nat>, n: nat)
    requires Left(cs, n) > 0
    ensures Left(cs, Least(cs, n) + 1) < Left(cs, n)
  {
    LeastIs(cs, n);
    LeftDrops(cs, n, Least(cs, n) + 1);
  }

  /** Lines 166 to 243. */
  function Rounds(cs: seq<nat>, n: nat, e: Enc): Enc
    decreases Left(cs, n)
  {
    if Left(cs, n) == 0 then e
    else
      FewerLeft(cs, n);
      Rounds(cs, Least(cs, n) + 1, Round(cs, n, e))
  }

  /** The basic code points, in order. */
  function Basic(cs: seq<nat>): (s: string)
    ensures |s| <= |cs| && AllBasic(s)
  {
    if cs == [] then []
    else Basic(cs[..|cs| - 1]) + if cs[|cs| - 1] < 128 then [cs[|cs| - 1] as char] else []
  }

  lemma {:induction false} BasicSplits(a: seq<nat>, b: seq<nat>)
    ensures Basic(a + b) == Basic(a) + Basic(b)
  {
    if b == [] {
      assert a + b == a;
    } else {
      assert (a + b)[..|a + b| - 1] == a + b[..|b| - 1];
      BasicSplits(a, b[..|b| - 1]);
    }
  }

  /** The state at the end of line 164. */
  function Start(cs: seq<nat>): Enc {
    Enc(0, |Basic(cs)|, 72, "", [])
  }

  /** What lines 140 to 245 would write for a label with a code point above 127, given room and wide integers. */
  function Encode(cs: seq<nat>): string {
    var basic := Basic(cs);
    basic + (if basic == [] then "" else "-") + Rounds(cs, 128, Start(cs)).digits
  }

  /** The deltas, one for each code point above 127. */
  function Deltas(cs: seq<nat>): seq<nat> {
    Rounds(cs, 128, Start(cs)).deltas
  }
}
