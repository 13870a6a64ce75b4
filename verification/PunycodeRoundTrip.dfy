/** Decoding what the encoder of src/idna.c writes gives back the label. */
module PunycodeRoundTrip {
  import opened Arithmetic
  import opened Wrappers
  import opened Punycode

  lemma DigitOf(v: nat)
    requires v < 36
    ensures DigitValue(Digit(v)) == Some(v) && Digit(v) != '-' && Digit(v) < 128 as char
  {
  }

  lemma Recombine(q: nat, t: nat, w: nat, w': nat)
    requires 1 <= t <= 26 && q >= t && w' == Times(w, 36 - t)
    ensures Times(LowDigit(q, t), w) + Times(HighPart(q, t), w') == Times(q, w)
  {
    var x, y := q - t, 36 - t;
    var a, b := x / y, x % y;
    DivMod(x, y);
    TimesAssoc(a, w, y);
    TimesSum(t + b, Times(a, y), w);
  }

  /** The last digit, and one before it. */
  lemma ReadsLast(s: string, k: nat, w: nat, bias: nat, q: nat)
    requires s != "" && DigitValue(s[0]) == Some(q) && q < Threshold(k, bias)
    ensures ReadInt(s, k, w, bias) == Some((Times(q, w), s[1..]))
  {
  }

  lemma ReadsFirst(s: string, k: nat, w: nat, bias: nat, d: nat, w': nat, r: (nat, string))
    requires s != "" && DigitValue(s[0]) == Some(d) && d >= Threshold(k, bias) && w' == Times(w, 36 - Threshold(k, bias))
    requires ReadInt(s[1..], k + 36, w', bias) == Some(r)
    ensures ReadInt(s, k, w, bias) == Some((Times(d, w) + r.0, r.1))
  {
  }

  lemma DigitsTail(q: nat, k: nat, bias: nat, rest: string)
    ensures var s, t := Digits(q, k, bias) + rest, Threshold(k, bias);
            && s != ""
            && if q < t then s[0] == Digit(q) && s[1..] == rest
               else s[0] == Digit(LowDigit(q, t)) && s[1..] == Digits(HighPart(q, t), k + 36, bias) + rest
  {
  }

  /** Reading a variable-length integer undoes lines 192 to 218. */
  lemma {:induction false} ReadsDigits(q: nat, k: nat, w: nat, bias: nat, rest: string)
    ensures ReadInt(Digits(q, k, bias) + rest, k, w, bias) == Some((Times(q, w), rest))
    decreases q
  {
    var t, s := Threshold(k, bias), Digits(q, k, bias) + rest;
    DigitsTail(q, k, bias, rest);
    if q < t {
      DigitOf(q);
      ReadsLast(s, k, w, bias, q);
    } else {
      var d, q', w' := LowDigit(q, t), HighPart(q, t), Times(w, 36 - t);
      DigitOf(d);
      ReadsDigits(q', k + 36, w', bias, rest);
      ReadsOn(s, k, w, bias, t, q, d, q', w', rest);
    }
  }

  lemma ReadsOn(s: string, k: nat, w: nat, bias: nat, t: nat, q: nat, d: nat, q': nat, w': nat, rest: string)
    requires t == Threshold(k, bias) <= q && d == LowDigit(q, t) && q' == HighPart(q, t) && w' == Times(w, 36 - t)
    requires s != "" && DigitValue(s[0]) == Some(d) && ReadInt(s[1..], k + 36, w', bias) == Some((Times(q', w'), rest))
    ensures ReadInt(s, k, w, bias) == Some((Times(q, w), rest))
  {
    ReadsFirst(s, k, w, bias, d, w', (Times(q', w'), rest));
    Recombine(q, t, w, w');
  }

  /** The code points up to n. */
  function Kept(cs: seq<nat>, n: nat): (r: seq<nat>)
    ensures |r| <= |cs|
  {
    if cs == [] then [] else Kept(cs[..|cs| - 1], n) + if cs[|cs| - 1] <= n then [cs[|cs| - 1]] else []
  }

  lemma {:induction false} KeptSplits(a: seq<nat>, b: seq<nat>, n: nat)
    ensures Kept(a + b, n) == Kept(a, n) + Kept(b, n)
  {
    if b == [] {
      assert a + b == a;
    } else {
      var front := b[..|b| - 1];
      assert (a + b)[..|a + b| - 1] == a + front;
      KeptSplits(a, front, n);
    }
  }

  /** What the encoder has handled when the value is n and the cursor at p. */
  function Done(cs: seq<nat>, n: nat, p: nat): seq<nat>
    requires n > 0 && p <= |cs|
  {
    Kept(cs[..p], n) + Kept(cs[p..], n - 1)
  }

  lemma DoneStep(cs: seq<nat>, n: nat, p: nat)
    requires n > 0 && p < |cs|
    ensures Kept(cs[..p + 1], n) == Kept(cs[..p], n) + if cs[p] <= n then [cs[p]] else []
    ensures Kept(cs[p..], n - 1) == (if cs[p] < n then [cs[p]] else []) + Kept(cs[p + 1..], n - 1)
  {
    assert cs[..p + 1][..p] == cs[..p];
    assert cs[p..] == [cs[p]] + cs[p + 1..];
    KeptSplits([cs[p]], cs[p + 1..], n - 1);
    assert Kept([cs[p]], n - 1) == if cs[p] < n then [cs[p]] else [];
  }

  /** Where the decoder stands: after n and i as its state, and before the next insertion. */
  datatype Dec = Dec(n: nat, i: nat)

  /** e.h code points are handled, and e.delta is the number of decoder states the encoder has passed since d. */
  ghost predicate Aligned(cs: seq<nat>, n: nat, p: nat, e: Enc, d: Dec) {
    && 0 < n && 128 <= d.n <= n && p <= |cs| && e.h == |Done(cs, n, p)|
    && e.delta == Times(n - d.n, e.h + 1) + |Kept(cs[..p], n)| - d.i
    && (e.deltas == [] <==> d.i == 0)
  }

  /** Besides, a decoder that has read e.digits stands at d with everything handled so far. */
  ghost predicate InStep(cs: seq<nat>, n: nat, p: nat, e: Enc, d: Dec) {
    Aligned(cs, n, p, e, d) && Reaches(cs, e.digits, d, e.bias, Done(cs, n, p))
  }

  ghost predicate Reaches(cs: seq<nat>, digits: string, d: Dec, bias: nat, output: seq<nat>) {
    forall rest: string :: ReachesWith(cs, digits, rest, d, bias, output)
  }

  predicate ReachesWith(cs: seq<nat>, digits: string, rest: string, d: Dec, bias: nat, output: seq<nat>) {
    DecodeTail(digits + rest, 128, 0, 72, CodesOf(Basic(cs))) == DecodeTail(rest, d.n, d.i, bias, output)
  }

  /** The delta written leads the decoder to the value n, and to the place where it belongs. */
  lemma Placement(cs: seq<nat>, n: nat, p: nat, e: Enc, d: Dec)
    requires Aligned(cs, n, p, e, d) && p < |cs| && cs[p] == n
    ensures Quot(d.i + e.delta, e.h + 1) == n - d.n && Rem(d.i + e.delta, e.h + 1) == |Kept(cs[..p], n)|
    ensures InsertAt(Done(cs, n, p), |Kept(cs[..p], n)|, n) == Done(cs, n, p + 1)
    ensures |Kept(cs[..p + 1], n)| == |Kept(cs[..p], n)| + 1
  {
    DoneStep(cs, n, p);
    Remainder(n - d.n, |Kept(cs[..p], n)|, e.h + 1);
  }

  /** The decoder reads v and inserts n at j. */
  lemma OneInserted(s: string, d: Dec, bias: nat, out: seq<nat>, v: nat, rest: string, n: nat, j: nat, bias': nat, out': seq<nat>)
    requires s != "" && ReadInt(s, 36, 1, bias) == Some((v, rest))
    requires d.n <= n && Quot(d.i + v, |out| + 1) == n - d.n && Rem(d.i + v, |out| + 1) == j
    requires InsertAt(out, j, n) == out' && bias' == Adapt(v, |out| + 1, d.i == 0)
    ensures DecodeTail(s, d.n, d.i, bias, out) == DecodeTail(rest, n, j + 1, bias', out')
  {
  }

  lemma ReadsDelta(q: nat, bias: nat, rest: string)
    ensures var s := Digits(q, 36, bias) + rest; s != "" && ReadInt(s, 36, 1, bias) == Some((q, rest))
  {
    ReadsDigits(q, 36, 1, bias, rest);
    DigitsTail(q, 36, bias, rest);
    TimesIs(q, 1);
  }

  /** One delta written is one insertion made. */
  lemma EmitInserts(cs: seq<nat>, n: nat, p: nat, e: Enc, d: Dec, s: string, rest: string)
    requires Aligned(cs, n, p, e, d) && p < |cs| && cs[p] == n && s == Digits(e.delta, 36, e.bias) + rest
    ensures DecodeTail(s, d.n, d.i, e.bias, Done(cs, n, p))
         == DecodeTail(rest, n, |Kept(cs[..p + 1], n)|, Emit(e).bias, Done(cs, n, p + 1))
  {
    var j, out, out', bias' := |Kept(cs[..p], n)|, Done(cs, n, p), Done(cs, n, p + 1), Emit(e).bias;
    Placement(cs, n, p, e, d);
    ReadsDelta(e.delta, e.bias, rest);
    OneInserted(s, d, e.bias, out, e.delta, rest, n, j, bias', out');
  }

  lemma EmitReaches(cs: seq<nat>, n: nat, p: nat, e: Enc, d: Dec)
    requires InStep(cs, n, p, e, d) && p < |cs| && cs[p] == n
    ensures Reaches(cs, Emit(e).digits, Dec(n, |Kept(cs[..p + 1], n)|), Emit(e).bias, Done(cs, n, p + 1))
  {
    var d', e', out' := Dec(n, |Kept(cs[..p + 1], n)|), Emit(e), Done(cs, n, p + 1);
    var ds := Digits(e.delta, 36, e.bias);
    forall rest: string ensures ReachesWith(cs, e'.digits, rest, d', e'.bias, out') {
      EmitInserts(cs, n, p, e, d, ds + rest, rest);
      Chained(cs, e.digits, ds, rest, d, e.bias, Done(cs, n, p), d', e'.bias, out');
    }
  }

  lemma Chained(cs: seq<nat>, digits: string, ds: string, rest: string, d: Dec, bias: nat, out: seq<nat>, d': Dec, bias': nat, out': seq<nat>)
    requires Reaches(cs, digits, d, bias, out)
    requires DecodeTail(ds + rest, d.n, d.i, bias, out) == DecodeTail(rest, d'.n, d'.i, bias', out')
    ensures ReachesWith(cs, digits + ds, rest, d', bias', out')
  {
    assert ReachesWith(cs, digits, ds + rest, d, bias, out);
    assert digits + (ds + rest) == (digits + ds) + rest;
  }

  /** After an insertion the decoder stands right behind it. */
  lemma EmitAligned(cs: seq<nat>, n: nat, p: nat, e: Enc, d: Dec)
    requires Aligned(cs, n, p, e, d) && p < |cs| && cs[p] == n
    ensures Aligned(cs, n, p + 1, Emit(e), Dec(n, |Kept(cs[..p + 1], n)|))
  {
    DoneStep(cs, n, p);
    assert |Done(cs, n, p + 1)| == |Done(cs, n, p)| + 1;
  }

  lemma SkipAligned(cs: seq<nat>, n: nat, p: nat, e: Enc, d: Dec)
    requires Aligned(cs, n, p, e, d) && p < |cs| && cs[p] != n
    ensures Aligned(cs, n, p + 1, Visit(cs[p], n, e), d) && Done(cs, n, p + 1) == Done(cs, n, p)
  {
    DoneStep(cs, n, p);
    assert Done(cs, n, p + 1) == Done(cs, n, p);
  }

  lemma VisitKeeps(cs: seq<nat>, n: nat, p: nat, e: Enc, d: Dec)
    requires InStep(cs, n, p, e, d) && p < |cs|
    ensures InStep(cs, n, p + 1, Visit(cs[p], n, e), if cs[p] == n then Dec(n, |Kept(cs[..p + 1], n)|) else d)
  {
    if cs[p] == n {
      EmitAligned(cs, n, p, e, d);
      EmitReaches(cs, n, p, e, d);
    } else {
      SkipAligned(cs, n, p, e, d);
    }
  }

  lemma {:induction false} ScanKeeps(cs: seq<nat>, n: nat, p: nat, e: Enc, d: Dec) returns (d': Dec)
    requires InStep(cs, n, p, e, d)
    ensures InStep(cs, n, |cs|, Scan(cs, n, p, e), d')
    decreases |cs| - p
  {
    if p == |cs| {
      d' := d;
    } else {
      VisitKeeps(cs, n, p, e, d);
      d' := ScanKeeps(cs, n, p + 1, Visit(cs[p], n, e), if cs[p] == n then Dec(n, |Kept(cs[..p + 1], n)|) else d);
    }
  }

  lemma {:induction false} KeptSame(cs: seq<nat>, n: nat, m: nat)
    requires n <= m && forall i :: 0 <= i < |cs| ==> cs[i] <= n || m < cs[i]
    ensures Kept(cs, n) == Kept(cs, m)
  {
    if cs != [] {
      KeptSame(cs[..|cs| - 1], n, m);
    }
  }

  lemma {:induction false} KeptAll(cs: seq<nat>, n: nat)
    requires forall i :: 0 <= i < |cs| ==> cs[i] <= n
    ensures Kept(cs, n) == cs
  {
    if cs != [] {
      KeptAll(cs[..|cs| - 1], n);
    }
  }

  lemma DoneJump(cs: seq<nat>, n: nat)
    requires n > 0 && Left(cs, n) > 0
    ensures Done(cs, Least(cs, n), 0) == Done(cs, n, 0)
  {
    var m := Least(cs, n);
    LeastIs(cs, n);
    assert cs[..0] == [] && cs[0..] == cs;
    forall i | 0 <= i < |cs| ensures cs[i] <= n - 1 || m - 1 < cs[i] {
      assert cs[i] in cs;
    }
    KeptSame(cs, n - 1, m - 1);
  }

  /** From one value to the next that is present (lines 174 to 181). */
  lemma JumpKeeps(cs: seq<nat>, n: nat, e: Enc, d: Dec)
    requires InStep(cs, n, 0, e, d) && Left(cs, n) > 0
    ensures var m := Least(cs, n); InStep(cs, m, 0, Jump(n, m, e), d)
  {
    var m := Least(cs, n);
    DoneJump(cs, n);
    TimesSum(m - n, n - d.n, e.h + 1);
    TimesIs(m - n, e.h + 1);
    assert cs[..0] == [];
  }

  /** Lines 241 and 242. */
  lemma NextValue(cs: seq<nat>, n: nat, e: Enc, d: Dec)
    requires InStep(cs, n, |cs|, e, d)
    ensures InStep(cs, n + 1, 0, Bump(e), d)
  {
    assert cs[..|cs|] == cs && cs[|cs|..] == [] && cs[..0] == [] && cs[0..] == cs;
    assert Done(cs, n + 1, 0) == Done(cs, n, |cs|);
    assert Times(n + 1 - d.n, e.h + 1) == e.h + 1 + Times(n - d.n, e.h + 1);
  }

  lemma {:induction false} RoundsDecode(cs: seq<nat>, n: nat, e: Enc, d: Dec)
    requires InStep(cs, n, 0, e, d)
    ensures DecodeTail(Rounds(cs, n, e).digits, 128, 0, 72, CodesOf(Basic(cs))) == Some(cs)
    decreases Left(cs, n)
  {
    if Left(cs, n) == 0 {
      NoneLeft(cs, n, e, d);
    } else {
      FewerLeft(cs, n);
      var d' := RoundKeeps(cs, n, e, d);
      RoundsDecode(cs, Least(cs, n) + 1, Round(cs, n, e), d');
    }
  }

  lemma DoneAll(cs: seq<nat>, n: nat)
    requires n > 0 && Left(cs, n) == 0
    ensures Done(cs, n, 0) == cs
  {
    LeftNone(cs, n);
    KeptAll(cs, n - 1);
    assert cs[..0] == [] && cs[0..] == cs;
  }

  lemma NoneLeft(cs: seq<nat>, n: nat, e: Enc, d: Dec)
    requires InStep(cs, n, 0, e, d) && Left(cs, n) == 0
    ensures DecodeTail(e.digits, 128, 0, 72, CodesOf(Basic(cs))) == Some(cs)
  {
    DoneAll(cs, n);
    assert ReachesWith(cs, e.digits, "", d, e.bias, Done(cs, n, 0));
    assert e.digits + "" == e.digits;
  }

  lemma RoundKeeps(cs: seq<nat>, n: nat, e: Enc, d: Dec) returns (d': Dec)
    requires InStep(cs, n, 0, e, d) && Left(cs, n) > 0
    ensures InStep(cs, Least(cs, n) + 1, 0, Round(cs, n, e), d')
  {
    var m := Least(cs, n);
    var e1 := Jump(n, m, e);
    JumpKeeps(cs, n, e, d);
    d' := ScanKeeps(cs, m, 0, e1, d);
    NextValue(cs, m, Scan(cs, m, 0, e1), d');
  }

  lemma {:induction false} BasicKept(cs: seq<nat>)
    ensures CodesOf(Basic(cs)) == Kept(cs, 127)
  {
    if cs != [] {
      BasicKept(cs[..|cs| - 1]);
    }
  }

  lemma StartInStep(cs: seq<nat>)
    ensures InStep(cs, 128, 0, Start(cs), Dec(128, 0))
  {
    BasicKept(cs);
    assert cs[..0] == [] && cs[0..] == cs;
    assert Done(cs, 128, 0) == CodesOf(Basic(cs));
    forall rest: string ensures ReachesWith(cs, "", rest, Dec(128, 0), 72, Done(cs, 128, 0)) {
      assert "" + rest == rest;
    }
  }

  // ---------- The delimiter ----------

  lemma {:induction false} DigitsPlain(q: nat, k: nat, bias: nat)
    ensures '-' !in Digits(q, k, bias)
    decreases q
  {
    var t := Threshold(k, bias);
    if q < t {
      DigitOf(q);
    } else {
      DigitOf(LowDigit(q, t));
      DigitsPlain(HighPart(q, t), k + 36, bias);
    }
  }

  lemma {:induction false} ScanPlain(cs: seq<nat>, n: nat, p: nat, e: Enc)
    requires p <= |cs| && '-' !in e.digits
    ensures '-' !in Scan(cs, n, p, e).digits
    decreases |cs| - p
  {
    if p < |cs| {
      DigitsPlain(e.delta, 36, e.bias);
      ScanPlain(cs, n, p + 1, Visit(cs[p], n, e));
    }
  }

  lemma {:induction false} RoundsPlain(cs: seq<nat>, n: nat, e: Enc)
    requires '-' !in e.digits
    ensures '-' !in Rounds(cs, n, e).digits
    decreases Left(cs, n)
  {
    if Left(cs, n) > 0 {
      var m := Least(cs, n);
      FewerLeft(cs, n);
      ScanPlain(cs, m, 0, Jump(n, m, e));
      RoundsPlain(cs, m + 1, Round(cs, n, e));
    }
  }

  lemma {:induction false} DelimiterAt(a: string, b: string)
    requires '-' !in b
    ensures LastDelimiter(a + ['-'] + b) == |a|
  {
    if b == [] {
      assert a + ['-'] + b == a + ['-'];
    } else {
      assert (a + ['-'] + b)[..|a| + |b|] == a + ['-'] + b[..|b| - 1];
      DelimiterAt(a, b[..|b| - 1]);
    }
  }

  /** The decoder of RFC 3492 maps the encoder's output back to the label, for every sequence of code points. */
  lemma RoundTrip(cs: seq<nat>)
    ensures Decode(Encode(cs)) == Some(cs)
  {
    var basic, digits := Basic(cs), Rounds(cs, 128, Start(cs)).digits;
    StartInStep(cs);
    RoundsDecode(cs, 128, Start(cs), Dec(128, 0));
    RoundsPlain(cs, 128, Start(cs));
    if basic == [] {
      assert Encode(cs) == digits;
      assert LastDelimiter(digits) == -1;
    } else {
      DelimiterAt(basic, digits);
      assert Encode(cs) == basic + ['-'] + digits;
      assert Encode(cs)[..|basic|] == basic && Encode(cs)[|basic| + 1..] == digits;
    }
  }
}
