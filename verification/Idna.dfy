/** uv__idna_toascii_label and uv__idna_toascii (src/idna.c:102-291): 32-bit arithmetic, a moving read pointer, and a
    buffer that may be too small. */
module Idna {
  import opened Arithmetic
  import opened Punycode
  import opened PunycodeLimits
  import opened PunycodeRoundTrip
  import opened Utf8
  import opened Wrappers

  /** unsigned.  Every operation on it is proved not to wrap. */
  newtype u32 = x: int | 0 <= x <= 0xFFFF_FFFF

  const UV_EINVAL: int := -22
  const UV_E2BIG: int := -7

  // ---------- The buffer ----------

  /** before and then out, as far as they fit into `size` places. */
  function Fit(before: string, out: string, size: nat): (r: string)
    ensures |r| <= size
  {
    var all := before + out;
    if |all| <= size then all else all[..size]
  }

  /** What fits is a beginning, and as long as it can be. */
  lemma FitIs(before: string, out: string, size: nat)
    ensures Fit(before, out, size) <= before + out
    ensures |Fit(before, out, size)| == if |before| + |out| <= size then |before| + |out| else size
  {
    assert Fit(before, out, size) <= before + out;
  }

  lemma FitNothing(before: string, size: nat)
    requires |before| <= size
    ensures Fit(before, "", size) == before
  {
    assert before + "" == before;
  }

  /** The buffer holds the first part of what would be written. */
  predicate Partly(buf: array<char>, d: nat, before: string, out: string)
    reads buf
  {
    d <= buf.Length && buf[..d] <= Fit(before, out, buf.Length)
  }

  lemma FitPart(before: string, a: string, b: string, size: nat)
    requires a <= b
    ensures Fit(before, a, size) <= Fit(before, b, size)
  {
    assert before + a <= before + b;
  }

  /** if (*d < de) *(*d)++ = c, behind what is written of `out`. */
  method Put(buf: array<char>, d0: nat, c: char, ghost before: string, ghost out: string) returns (d: nat)
    requires d0 <= buf.Length && buf[..d0] == Fit(before, out, buf.Length)
    modifies buf
    ensures d <= buf.Length && buf[..d] == Fit(before, out + [c], buf.Length)
  {
    assert before + (out + [c]) == before + out + [c];
    d := d0;
    if d < buf.Length {
      buf[d] := c;
      d := d + 1;
    }
  }

  // ---------- The two first passes ----------

  lemma BasicGrows(cs: seq<nat>, i: nat)
    requires i < |cs|
    ensures Basic(cs[..i + 1]) == Basic(cs[..i]) + if cs[i] < 128 then [cs[i] as char] else []
  {
    assert cs[..i + 1][..i] == cs[..i];
  }

  /** Lines 120 to 131. */
  method CountPass(mem: seq<Byte>, s: nat, se: nat, ghost cs: seq<nat>, ghost ps: seq<nat>) returns (bad: bool, h: u32, todo: u32)
    requires Decodes(mem, s, se, cs, ps) && |cs| < 0x8000_0000
    ensures bad <==> ERROR in cs
    ensures !bad ==> h as nat == |Basic(cs)| && h as nat + todo as nat == |cs|
  {
    ghost var i := 0;
    var p := s;
    bad, h, todo := false, 0, 0;
    while true
      invariant i <= |cs| && p == ps[i] && ERROR !in cs[..i]
      invariant h as nat == |Basic(cs[..i])| && h as nat + todo as nat == i
      decreases |cs| - i
    {
      var c, p', more := NextCodePoint(mem, p, se, s, cs, ps, i);
      p := p';
      if !more {
        break;
      }
      BasicGrows(cs, i);
      if c < 128 {
        h := h + 1;
      } else if c == ERROR {
        bad := true;
        return;
      } else {
        todo := todo + 1;
      }
      i := i + 1;
    }
    assert cs[..i] == cs;
  }

  /** Lines 140 to 151. */
  method CopyPass(mem: seq<Byte>, s: nat, se: nat, h: u32, buf: array<char>, d0: nat,
                  ghost cs: seq<nat>, ghost ps: seq<nat>, ghost before: string, ghost pre: string)
    returns (d: nat)
    requires Decodes(mem, s, se, cs, ps) && h as nat == |Basic(cs)|
    requires d0 <= buf.Length && buf[..d0] == Fit(before, pre, buf.Length)
    modifies buf
    ensures d <= buf.Length && buf[..d] == Fit(before, pre + Basic(cs), buf.Length)
  {
    ghost var i := 0;
    var p := s;
    var x: u32 := 0;
    d := d0;
    assert pre + "" == pre;
    while true
      invariant i <= |cs| && p == ps[i]
      invariant x as nat == |Basic(cs[..i])| && d <= buf.Length && buf[..d] == Fit(before, pre + Basic(cs[..i]), buf.Length)
      decreases |cs| - i
    {
      var c, p', more := NextCodePoint(mem, p, se, s, cs, ps, i);
      p := p';
      if !more {
        break;
      }
      ghost var out := pre + Basic(cs[..i]);
      CopyStep(cs, i, pre);
      i := i + 1;
      if c > 127 {
        continue;
      }
      d := Put(buf, d, c as char, before, out);
      x := x + 1;
      if x == h {
        return;
      }
    }
    assert cs[..i] == cs;
  }

  lemma CopyStep(cs: seq<nat>, i: nat, pre: string)
    requires i < |cs|
    ensures pre + Basic(cs[..i + 1]) == pre + Basic(cs[..i]) + if cs[i] < 128 then [cs[i] as char] else []
    ensures |Basic(cs[..i + 1])| == |Basic(cs[..i])| + if cs[i] < 128 then 1 else 0
    ensures |Basic(cs[..i + 1])| <= |Basic(cs)|
    ensures |Basic(cs[..i + 1])| == |Basic(cs)| ==> Basic(cs[..i + 1]) == Basic(cs)
  {
    BasicGrows(cs, i);
    BasicSplits(cs[..i + 1], cs[i + 1..]);
    assert cs == cs[..i + 1] + cs[i + 1..];
  }

  // ---------- One delta ----------

  /** How often q can be divided by ten. */
  function Tens(q: nat): nat {
    if q == 0 then 0 else 1 + Tens(q / 10)
  }

  lemma {:induction false} TensMono(a: nat, b: nat)
    requires a <= b
    ensures Tens(a) <= Tens(b)
  {
    if a > 0 {
      TensMono(a / 10, b / 10);
    }
  }

  lemma TensBound(q: nat)
    requires q <= 0xFFFF_FFFF
    ensures Tens(q) <= 10
  {
    TensMono(q, 4294967295);
    assert Tens(4294967) == 7;
    assert Tens(4294967295) == 1 + (1 + (1 + Tens(4294967)));
  }

  lemma TensDrop(q: nat, t: nat)
    requires 1 <= t <= 26 && q >= t
    ensures Tens(HighPart(q, t)) < Tens(q)
  {
    var x, y := q - t, 36 - t;
    assert x == y * (x / y) + x % y;
    MulMono(10, y, x / y);
    assert HighPart(q, t) <= q / 10;
    TensMono(HighPart(q, t), q / 10);
  }

  /** Lines 193 to 199. */
  method ClampThreshold(k: u32, bias: u32) returns (t: u32)
    ensures t as nat == Threshold(k as nat, bias as nat)
    ensures t as int == if k as int - bias as int < 1 then 1 else if k as int - bias as int > 26 then 26 else k as int - bias as int
  {
    t := 1;
    if k > bias {
      t := k - bias;
    }
    if t > 26 {
      t := 26;
    }
  }

  /** Lines 208 to 211. */
  method SplitDigit(q0: u32, t0: u32) returns (q: u32, t: u32)
    requires 1 <= t0 <= 26 && q0 >= t0
    ensures q as nat == HighPart(q0 as nat, t0 as nat) && t as nat == LowDigit(q0 as nat, t0 as nat)
  {
    var x := q0 - t0;
    var y := 36 - t0;
    QuotientDrops(q0 as nat, t0 as nat);
    q := x / y;
    t := t0 + x % y;
  }

  /** Lines 192 to 218. */
  method WriteDelta(delta: u32, bias: u32, buf: array<char>, d0: nat, ghost before: string, ghost pre: string) returns (d: nat)
    requires d0 <= buf.Length && buf[..d0] == Fit(before, pre, buf.Length)
    modifies buf
    ensures d <= buf.Length && buf[..d] == Fit(before, pre + Digits(delta as nat, 36, bias as nat), buf.Length)
  {
    var k: u32, q := 36, delta;
    ghost var out := pre;
    d := d0;
    TensBound(delta as nat);
    while true
      invariant k as nat + 36 * Tens(q as nat) <= 36 * 11
      invariant pre + Digits(delta as nat, 36, bias as nat) == out + Digits(q as nat, k as nat, bias as nat)
      invariant d <= buf.Length && buf[..d] == Fit(before, out, buf.Length)
      decreases q
    {
      var t := ClampThreshold(k, bias);
      if q < t {
        break;
      }
      DigitsStep(q as nat, k as nat, bias as nat, t as nat, out);
      q, t := SplitDigit(q, t);
      d := Put(buf, d, Digit(t as nat), before, out);
      out := out + [Digit(t as nat)];
      k := k + 36;
    }
    d := Put(buf, d, Digit(q as nat), before, out);
  }

  lemma DigitsStep(q: nat, k: nat, bias: nat, t: nat, out: string)
    requires t == Threshold(k, bias) && q >= t
    ensures HighPart(q, t) < q && Tens(HighPart(q, t)) < Tens(q)
    ensures out + Digits(q, k, bias) == out + [Digit(LowDigit(q, t))] + Digits(HighPart(q, t), k + 36, bias)
  {
    TensDrop(q, t);
  }

  /** Lines 233 to 236. */
  method SettleBias(delta0: u32) returns (bias: u32)
    ensures bias as nat == Settle(delta0 as nat, 0)
  {
    var delta := delta0;
    bias := 0;
    TensBound(delta as nat);
    while delta > 35 * 26 / 2
      invariant Settle(delta as nat, bias as nat) == Settle(delta0 as nat, 0)
      invariant bias as nat + 36 * Tens(delta as nat) <= 360
      decreases delta
    {
      TensMono(delta as nat / 35, delta as nat / 10);
      delta := delta / 35;
      bias := bias + 36;
    }
    bias := bias + ShareOf(delta);
  }

  function ShareOf(delta: u32): (r: u32)
    requires delta <= 455
    ensures r as nat == Quot(36 * delta as nat, delta as nat + 38) <= 36 * 455
  {
    HalfFits(36 * delta as nat, delta as nat + 38);
    QuotIs(36 * delta as nat, delta as nat + 38);
    36 * delta / (delta + 38)
  }

  /** Lines 220 to 225. */
  method Halve(delta0: u32, first: bool) returns (delta: u32)
    ensures delta as nat == (if first then delta0 as nat / 700 else delta0 as nat / 2) <= 0x7FFF_FFFF
  {
    delta := delta0 / 2;
    if first {
      delta := delta / 350;
    }
  }

  /** Line 231.  It needs no overflow check, because delta was halved. */
  method Spread(delta0: u32, h: u32) returns (delta: u32)
    requires 0 < h && delta0 <= 0x7FFF_FFFF
    ensures delta as nat == delta0 as nat + Quot(delta0 as nat, h as nat)
  {
    HalfFits(delta0 as nat, h as nat);
    QuotIs(delta0 as nat, h as nat);
    var more := delta0 / h;
    delta := delta0 + more;
  }

  /** Lines 220 to 236, h being the number of code points handled so far. */
  method AdaptBias(delta: u32, h: u32, first: bool) returns (bias: u32)
    requires 0 < h
    ensures IsAdapted(delta as nat, h as nat, first, bias as nat) && bias as nat == Adapt(delta as nat, h as nat, first)
  {
    AdaptIs(delta as nat, h as nat, first);
    var damped := Halve(delta, first);
    damped := Spread(damped, h);
    bias := SettleBias(damped);
  }

  lemma HalfFits(delta: nat, h: nat)
    requires h > 0
    ensures delta / h <= delta
  {
    assert delta == h * (delta / h) + delta % h;
    MulMono(1, h, delta / h);
  }

  // ---------- The rounds ----------

  /** What m holds after going over `seen`. */
  function MinFrom(seen: seq<nat>, n: nat): nat {
    if seen == [] then 0xFFFF_FFFF
    else
      var m, c := MinFrom(seen[..|seen| - 1], n), seen[|seen| - 1];
      if n <= c < m then c else m
  }

  lemma MinGrows(cs: seq<nat>, n: nat, i: nat)
    requires i < |cs|
    ensures MinFrom(cs[..i + 1], n) == if n <= cs[i] < MinFrom(cs[..i], n) then cs[i] else MinFrom(cs[..i], n)
  {
    assert cs[..i + 1][..i] == cs[..i];
  }

  lemma {:induction false} MinIsLeast(cs: seq<nat>, n: nat)
    requires forall i :: 0 <= i < |cs| ==> Scalar(cs[i])
    ensures MinFrom(cs, n) == (if Left(cs, n) == 0 then 0xFFFF_FFFF else Least(cs, n))
    ensures Left(cs, n) > 0 ==> Least(cs, n) <= 0x10FFFF
  {
    if cs != [] {
      MinIsLeast(cs[..|cs| - 1], n);
    }
  }

  /** Lines 167 to 172. */
  method LeastLeft(mem: seq<Byte>, s: nat, se: nat, n: u32, ghost cs: seq<nat>, ghost ps: seq<nat>) returns (m: u32)
    requires Decodes(mem, s, se, cs, ps) && ERROR !in cs && Left(cs, n as nat) > 0
    ensures m as nat == Least(cs, n as nat) <= 0x10FFFF
  {
    ghost var i := 0;
    var p := s;
    m := 0xFFFF_FFFF;
    while true
      invariant i <= |cs| && p == ps[i] && m as nat == MinFrom(cs[..i], n as nat)
      decreases |cs| - i
    {
      var c, p', more := NextCodePoint(mem, p, se, s, cs, ps, i);
      p := p';
      if !more {
        break;
      }
      MinGrows(cs, n as nat, i);
      if c >= n as nat {
        if c < m as nat {
          m := c as u32;
        }
      }
      i := i + 1;
    }
    assert cs[..i] == cs;
    MinIsLeast(cs, n as nat);
  }

  /** delta, h, bias, first and todo. */
  datatype Regs = Regs(delta: u32, h: u32, bias: u32, first: bool, todo: u32)

  /** The 32-bit variables hold the ideal values. */
  ghost predicate Tracks(r: Regs, e: Enc, cs: seq<nat>) {
    && r.delta as nat == e.delta && r.h as nat == e.h && r.bias as nat == e.bias && r.first == (e.deltas == [])
    && r.todo as nat == |cs| - e.h && |cs| < 0x8000_0000 && !Big(e.deltas)
  }

  method NextBias(r: Regs) returns (bias: u32)
    requires r.h < 0xFFFF_FFFF
    ensures bias as nat == Adapt(r.delta as nat, r.h as nat + 1, r.first)
  {
    bias := AdaptBias(r.delta, r.h + 1, r.first);
  }

  /** Lines 192 to 239. */
  method EmitDelta(r: Regs, buf: array<char>, d0: nat, ghost e: Enc, ghost cs: seq<nat>, ghost before: string, ghost pre: string)
    returns (r': Regs, d: nat)
    requires Tracks(r, e, cs) && e.h < |cs|
    requires d0 <= buf.Length && buf[..d0] == Fit(before, pre + e.digits, buf.Length)
    modifies buf
    ensures Tracks(r', Emit(e), cs) && r'.delta == 0
    ensures d <= buf.Length && buf[..d] == Fit(before, pre + Emit(e).digits, buf.Length)
  {
    d := WriteDelta(r.delta, r.bias, buf, d0, before, pre + e.digits);
    var bias := NextBias(r);
    r' := Regs(0, r.h + 1, bias, false, r.todo - 1);
    assert pre + e.digits + Digits(e.delta, 36, e.bias) == pre + Emit(e).digits;
    EmitSmall(e);
  }

  lemma EmitSmall(e: Enc)
    requires !Big(e.deltas) && e.delta <= MAX_U32
    ensures !Big(Emit(e).deltas)
  {
  }

  /** A delta of a round is small unless the round's code point is still ahead. */
  ghost predicate Small(cs: seq<nat>, n: nat, i: nat, e: Enc) {
    Ahead(cs, n, i) || e.delta <= i
  }

  lemma SmallStep(cs: seq<nat>, n: nat, i: nat, e: Enc)
    requires i < |cs| && Small(cs, n, i, e)
    ensures Small(cs, n, i + 1, Visit(cs[i], n, e))
  {
    if cs[i] != n && Ahead(cs, n, i) {
      var j :| i <= j < |cs| && cs[j] == n;
      assert i + 1 <= j;
    }
  }

  /** Lines 185 to 238, for the code point c: a smaller one is counted, and at n itself the delta is written. */
  method ScanStep(c: nat, n: u32, r0: Regs, buf: array<char>, d0: nat, ghost e: Enc, ghost cs: seq<nat>, ghost before: string, ghost pre: string)
    returns (over: bool, r: Regs, d: nat)
    requires Tracks(r0, e, cs) && (c == n as nat ==> e.h < |cs|)
    requires d0 <= buf.Length && buf[..d0] == Fit(before, pre + e.digits, buf.Length)
    modifies buf
    ensures over ==> c < n as nat && e.delta == MAX_U32 && d == d0 && buf[..] == old(buf[..])
    ensures !over ==> Tracks(r, Visit(c, n as nat, e), cs) && d <= buf.Length
                      && buf[..d] == Fit(before, pre + Visit(c, n as nat, e).digits, buf.Length)
  {
    over, r, d := false, r0, d0;
    if c < n as nat {
      if r.delta == 0xFFFF_FFFF {
        over := true;
        return;
      }
      r := r.(delta := r.delta + 1);
    }
    if c == n as nat {
      r, d := EmitDelta(r, buf, d, e, cs, before, pre);
    }
  }

  /** Lines 183 to 239: the round of n.  It stops early only if the delta has just wrapped around. */
  method ScanRound(mem: seq<Byte>, s: nat, se: nat, n: u32, r0: Regs, buf: array<char>, d0: nat,
                   ghost cs: seq<nat>, ghost ps: seq<nat>, ghost e0: Enc, ghost before: string, ghost pre: string)
    returns (over: bool, r: Regs, d: nat)
    requires Decodes(mem, s, se, cs, ps) && ERROR !in cs && Ahead(cs, n as nat, 0)
    requires Tracks(r0, e0, cs) && Counted(cs, n as nat, 0, e0)
    requires d0 <= buf.Length && buf[..d0] == Fit(before, pre + e0.digits, buf.Length)
    modifies buf
    ensures over ==>
              var whole := Rounds(cs, n as nat + 1, Bump(Scan(cs, n as nat, 0, e0)));
              Big(whole.deltas) && Partly(buf, d, before, pre + whole.digits)
    ensures !over ==>
              var e := Scan(cs, n as nat, 0, e0);
              && Tracks(r, e, cs) && Counted(cs, n as nat, |cs|, e) && e.delta <= |cs|
              && d <= buf.Length && buf[..d] == Fit(before, pre + e.digits, buf.Length)
  {
    ghost var i, e := 0, e0;
    var p := s;
    over, r, d := false, r0, d0;
    while true
      invariant i <= |cs| && p == ps[i] && Tracks(r, e, cs) && Counted(cs, n as nat, i, e) && Small(cs, n as nat, i, e)
      invariant Scan(cs, n as nat, 0, e0) == Scan(cs, n as nat, i, e)
      invariant d <= buf.Length && buf[..d] == Fit(before, pre + e.digits, buf.Length)
      decreases |cs| - i
    {
      var c, p', more := NextCodePoint(mem, p, se, s, cs, ps, i);
      p := p';
      if !more {
        break;
      }
      VisitCounts(cs, n as nat, i, e);
      SmallStep(cs, n as nat, i, e);
      over, r, d := ScanStep(c, n, r, buf, d, e, cs, before, pre);
      if over {
        ScanStops(cs, n as nat, i + 1, Bump(e), Scan(cs, n as nat, 0, e0), before, pre, buf.Length);
        return;
      }
      e := Visit(c, n as nat, e);
      i := i + 1;
    }
  }

  /** What is written is a part of what would be. */
  lemma ScanStops(cs: seq<nat>, n: nat, i: nat, e: Enc, e': Enc, before: string, pre: string, size: nat)
    requires i <= |cs| && e.delta > MAX_U32 && Ahead(cs, n, i) && e' == Scan(cs, n, i, e)
    ensures var whole := Rounds(cs, n + 1, Bump(e'));
            Big(whole.deltas) && Fit(before, pre + e.digits, size) <= Fit(before, pre + whole.digits, size)
  {
    var whole := Rounds(cs, n + 1, Bump(e'));
    ScanOverflows(cs, n, i, e, whole);
    ScanGrows(cs, n, i, e);
    RoundsGrow(cs, n + 1, Bump(e'));
    FitPart(before, pre + e.digits, pre + whole.digits, size);
  }

  lemma OverflowTest(x: nat, y: nat, z: nat)
    requires y > 0
    ensures x > z / y <==> x * y > z
  {
    assert z == y * (z / y) + z % y;
    if x > z / y {
      MulMono(z / y + 1, x, y);
    } else {
      MulMono(x, z / y, y);
    }
  }

  lemma JumpTest(n: nat, m: nat, e: Enc)
    requires n <= m && e.delta <= MAX_U32
    ensures m - n > (MAX_U32 - e.delta) / (e.h + 1) <==> Jump(n, m, e).delta > MAX_U32
    ensures Jump(n, m, e).delta == e.delta + (m - n) * (e.h + 1)
  {
    OverflowTest(m - n, e.h + 1, MAX_U32 - e.delta);
  }

  function Quotient(x: u32, y: u32): (q: u32)
    requires y > 0
    ensures q as nat == x as nat / y as nat
  {
    HalfFits(x as nat, y as nat);
    x / y
  }

  /** Lines 174 to 181: whether delta + (m - n) * (h + 1) overflows, and if not, the new delta. */
  method JumpDelta(n: u32, m: u32, r: Regs, ghost e: Enc, ghost cs: seq<nat>) returns (over: bool, r': Regs)
    requires n <= m && Tracks(r, e, cs)
    ensures over <==> Jump(n as nat, m as nat, e).delta > MAX_U32
    ensures !over ==> Tracks(r', Jump(n as nat, m as nat, e), cs)
  {
    var x := m - n;
    var y := r.h + 1;
    JumpTest(n as nat, m as nat, e);
    r' := r;
    over := x > Quotient(0xFFFF_FFFF - r.delta, y);
    if !over {
      r' := r.(delta := AddProduct(r.delta, x, y));
    }
  }

  function AddProduct(delta: u32, x: u32, y: u32): (r: u32)
    requires delta as nat + x as nat * y as nat <= MAX_U32
    ensures r as nat == delta as nat + x as nat * y as nat
  {
    assert 0 <= x as nat * y as nat <= MAX_U32;
    delta + x * y
  }

  /** Lines 167 to 242: one turn of the outer loop. */
  method RoundOnce(mem: seq<Byte>, s: nat, se: nat, n0: u32, r0: Regs, buf: array<char>, d0: nat,
                   ghost cs: seq<nat>, ghost ps: seq<nat>, ghost e: Enc, ghost before: string, ghost pre: string)
    returns (over: bool, n: u32, r: Regs, d: nat)
    requires Decodes(mem, s, se, cs, ps) && ERROR !in cs && n0 <= 0x110000
    requires Tracks(r0, e, cs) && Counted(cs, n0 as nat, 0, e) && Left(cs, n0 as nat) > 0
    requires d0 <= buf.Length && buf[..d0] == Fit(before, pre + e.digits, buf.Length)
    modifies buf
    ensures over ==> Big(Rounds(cs, n0 as nat, e).deltas) && Partly(buf, d, before, pre + Rounds(cs, n0 as nat, e).digits)
    ensures !over ==>
              var e' := Round(cs, n0 as nat, e);
              && n as nat == Least(cs, n0 as nat) + 1 <= 0x110000
              && Tracks(r, e', cs) && Counted(cs, n as nat, 0, e')
              && d <= buf.Length && buf[..d] == Fit(before, pre + e'.digits, buf.Length)
  {
    var m := LeastLeft(mem, s, se, n0, cs, ps);
    n, d := m, d0;
    over, r := JumpDelta(n0, m, r0, e, cs);
    if over {
      RoundsOver(cs, n0 as nat, e);
      RoundsGrow(cs, n0 as nat, e);
      FitPart(before, pre + e.digits, pre + Rounds(cs, n0 as nat, e).digits, buf.Length);
      return;
    }
    LeastAhead(cs, n0 as nat);
    JumpCounts(cs, n0 as nat, e);
    FewerLeft(cs, n0 as nat);
    over, r, d := ScanRound(mem, s, se, m, r, buf, d0, cs, ps, Jump(n0 as nat, m as nat, e), before, pre);
    if over {
      return;
    }
    NextCounts(cs, m as nat, Scan(cs, m as nat, 0, Jump(n0 as nat, m as nat, e)));
    r := r.(delta := r.delta + 1);
    n := m + 1;
  }

  lemma LeastAhead(cs: seq<nat>, n: nat)
    requires Left(cs, n) > 0
    ensures Ahead(cs, Least(cs, n), 0)
  {
    LeastIs(cs, n);
    var i :| 0 <= i < |cs| && cs[i] == Least(cs, n);
  }

  /** Lines 161 to 243. */
  method WriteDeltas(mem: seq<Byte>, s: nat, se: nat, h: u32, todo: u32, buf: array<char>, d0: nat,
                     ghost cs: seq<nat>, ghost ps: seq<nat>, ghost before: string, ghost pre: string)
    returns (over: bool, d: nat)
    requires Decodes(mem, s, se, cs, ps) && ERROR !in cs && |cs| < 0x8000_0000
    requires h as nat == |Basic(cs)| && h as nat + todo as nat == |cs|
    requires d0 <= buf.Length && buf[..d0] == Fit(before, pre, buf.Length)
    modifies buf
    ensures over <==> Big(Deltas(cs))
    ensures over ==> Partly(buf, d, before, pre + Rounds(cs, 128, Start(cs)).digits)
    ensures !over ==> d <= buf.Length && buf[..d] == Fit(before, pre + Rounds(cs, 128, Start(cs)).digits, buf.Length)
  {
    var n: u32, r := 128, Regs(0, h, 72, true, todo);
    ghost var e := Start(cs);
    StartCounts(cs);
    assert pre + "" == pre;
    over, d := false, d0;
    while r.todo > 0
      invariant n <= 0x110000 && Tracks(r, e, cs) && Counted(cs, n as nat, 0, e)
      invariant Rounds(cs, 128, Start(cs)) == Rounds(cs, n as nat, e)
      invariant d <= buf.Length && buf[..d] == Fit(before, pre + e.digits, buf.Length)
      decreases Left(cs, n as nat)
    {
      RoundCounts(cs, n as nat, e);
      FewerLeft(cs, n as nat);
      ghost var e' := Round(cs, n as nat, e);
      over, n, r, d := RoundOnce(mem, s, se, n, r, buf, d, cs, ps, e, before, pre);
      if over {
        return;
      }
      e := e';
    }
    RoundCounts(cs, n as nat, e);
  }

  /** Lines 133 to 138. */
  method WritePrefix(buf: array<char>, d0: nat) returns (d: nat)
    requires d0 <= buf.Length
    modifies buf
    ensures d <= buf.Length && buf[..d] == Fit(old(buf[..d0]), "xn--", buf.Length)
  {
    ghost var before := buf[..d0];
    FitNothing(before, buf.Length);
    d := Put(buf, d0, 'x', before, "");
    d := Put(buf, d, 'n', before, "x");
    d := Put(buf, d, '-', before, "xn");
    d := Put(buf, d, '-', before, "xn-");
  }

  /** What a label becomes. */
  datatype Label = Invalid | TooBig | Plain(text: string) | Coded(text: string)

  ghost function LabelOf(cs: seq<nat>): Label {
    if ERROR in cs then Invalid
    else if |Basic(cs)| == |cs| then Plain(Basic(cs))
    else if Big(Deltas(cs)) then TooBig
    else Coded("xn--" + Encode(cs))
  }

  /** uv__idna_toascii_label. */
  method ToAsciiLabel(mem: seq<Byte>, s: nat, se: nat, buf: array<char>, d0: nat) returns (rc: int, d: nat)
    requires s <= se < s + 0x8000_0000 && Readable(mem, s, se) && d0 <= buf.Length
    modifies buf
    ensures match LabelOf(CodePoints(mem, s, se))
            case Invalid => rc == UV_EINVAL && d == d0 && buf[..] == old(buf[..])
            case TooBig => rc == UV_E2BIG && Partly(buf, d, old(buf[..d0]), "xn--" + Encode(CodePoints(mem, s, se)))
            case Plain(text) => rc == |text| && d <= buf.Length && buf[..d] == Fit(old(buf[..d0]), text, buf.Length)
            case Coded(text) => rc == 0 && d <= buf.Length && buf[..d] == Fit(old(buf[..d0]), text, buf.Length)
  {
    ghost var cs, ps, before := CodePoints(mem, s, se), Starts(mem, s, se), buf[..d0];
    StepsDecode(mem, s, se);
    FitNothing(before, buf.Length);
    d := d0;
    var bad, h, todo := CountPass(mem, s, se, cs, ps);
    if bad {
      return UV_EINVAL, d;
    }
    if todo == 0 {
      assert "" + Basic(cs) == Basic(cs);
      d := CopyPass(mem, s, se, h, buf, d, cs, ps, before, "");
      return h as int, d;
    }
    var over;
    over, d := WriteCoded(mem, s, se, h, todo, buf, d, cs, ps, before);
    return if over then UV_E2BIG else 0, d;
  }

  /** Lines 133 to 245, for a label with a code point above 127. */
  method WriteCoded(mem: seq<Byte>, s: nat, se: nat, h: u32, todo: u32, buf: array<char>, d0: nat,
                    ghost cs: seq<nat>, ghost ps: seq<nat>, ghost before: string)
    returns (over: bool, d: nat)
    requires Decodes(mem, s, se, cs, ps) && ERROR !in cs && |cs| < 0x8000_0000
    requires h as nat == |Basic(cs)| && h as nat + todo as nat == |cs| && todo > 0
    requires d0 <= buf.Length && buf[..d0] == before
    modifies buf
    ensures over <==> Big(Deltas(cs))
    ensures over ==> Partly(buf, d, before, "xn--" + Encode(cs))
    ensures !over ==> d <= buf.Length && buf[..d] == Fit(before, "xn--" + Encode(cs), buf.Length)
  {
    ghost var out := "xn--" + Basic(cs);
    d := WritePrefix(buf, d0);
    d := CopyPass(mem, s, se, h, buf, d, cs, ps, before, "xn--");
    if h > 0 {
      d := Put(buf, d, '-', before, out);
      out := out + ['-'];
    }
    over, d := WriteDeltas(mem, s, se, h, todo, buf, d, cs, ps, before, out);
    CodedParts(cs, out, Rounds(cs, 128, Start(cs)).digits);
  }

  lemma CodedParts(cs: seq<nat>, out: string, digits: string)
    requires out == "xn--" + Basic(cs) + (if |Basic(cs)| > 0 then "-" else "") && digits == Rounds(cs, 128, Start(cs)).digits
    ensures out + digits == "xn--" + Encode(cs)
  {
  }

  /** A label of basic code points stays what it is. */
  lemma {:induction false} BasicIsAll(cs: seq<nat>)
    requires |Basic(cs)| == |cs|
    ensures CodesOf(Basic(cs)) == cs
  {
    if cs != [] {
      BasicIsAll(cs[..|cs| - 1]);
      assert cs == cs[..|cs| - 1] + [cs[|cs| - 1]];
    }
  }

  /** Which labels have no text, and which are their own. */
  lemma LabelKinds(cs: seq<nat>)
    ensures LabelOf(cs).Invalid? <==> ERROR in cs
    ensures LabelOf(cs).Plain? <==> forall i :: 0 <= i < |cs| ==> cs[i] < 128
    ensures LabelOf(cs).Plain? ==> CodesOf(LabelOf(cs).text) == cs
  {
    BasicCount(cs);
    if |Basic(cs)| == |cs| {
      BasicIsAll(cs);
    }
  }

  lemma {:induction false} BasicCount(cs: seq<nat>)
    ensures |Basic(cs)| == |cs| <==> forall i :: 0 <= i < |cs| ==> cs[i] < 128
  {
    if cs != [] {
      var front := cs[..|cs| - 1];
      BasicCount(front);
      assert forall i :: 0 <= i < |front| ==> front[i] == cs[i];
    }
  }

  /** Within the 32-bit range, the A-label of a label with a code point above 127 is "xn--" and a string that the
      decoder of RFC 3492 maps back to exactly that label. */
  lemma CodedDecodes(cs: seq<nat>)
    requires LabelOf(cs).Coded?
    ensures LabelOf(cs).text[..4] == "xn--" && Decode(LabelOf(cs).text[4..]) == Some(cs)
    ensures ERROR !in cs && |Basic(cs)| < |cs| && forall i :: 0 <= i < |Deltas(cs)| ==> Deltas(cs)[i] <= MAX_U32
  {
    RoundTrip(cs);
    var text := LabelOf(cs).text;
    assert text[4..] == Encode(cs);
    forall i | 0 <= i < |Deltas(cs)| ensures Deltas(cs)[i] <= MAX_U32 {
    }
  }

  /** Different labels get different A-labels. */
  lemma CodedDiffer(a: seq<nat>, b: seq<nat>)
    requires LabelOf(a).Coded? && LabelOf(b).Coded? && LabelOf(a).text == LabelOf(b).text
    ensures a == b
  {
    CodedDecodes(a);
    CodedDecodes(b);
  }
}
