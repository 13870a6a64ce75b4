/** The UTF-8 decoder of src/idna.c:24-100, reading memory at a moving pointer, against section 3 of RFC 3629. */
module Utf8 {
  type Byte = x: nat | x < 256

  /** (unsigned) -1. */
  const ERROR: nat := 0xFFFF_FFFF

  // ---------- RFC 3629 ----------

  predicate Scalar(v: nat) {
    v <= 0x10FFFF && !(0xD800 <= v <= 0xDFFF)
  }

  function Encoded(v: nat): (r: seq<Byte>)
    requires Scalar(v)
    ensures 1 <= |r| <= 4
  {
    if v < 0x80 then [v]
    else if v < 0x800 then [0xC0 + v / 0x40, 0x80 + v % 0x40]
    else if v < 0x10000 then [0xE0 + v / 0x1000, 0x80 + v / 0x40 % 0x40, 0x80 + v % 0x40]
    else [0xF0 + v / 0x40000, 0x80 + v / 0x1000 % 0x40, 0x80 + v / 0x40 % 0x40, 0x80 + v % 0x40]
  }

  predicate AllScalar(cs: seq<nat>) {
    forall c :: c in cs ==> Scalar(c)
  }

  function EncodedAll(cs: seq<nat>): seq<Byte>
    requires AllScalar(cs)
  {
    if cs == [] then [] else Encoded(cs[0]) + EncodedAll(cs[1..])
  }

  // ---------- The decoder ----------

  /** 0x80 == (0xC0 & (b ^ c ^ d)): an odd number of them have bit 7 set, and an even number bit 6. */
  predicate Continues(b: Byte, c: Byte, d: Byte) {
    && (b / 128 + c / 128 + d / 128) % 2 == 1
    && (b / 64 % 2 + c / 64 % 2 + d / 64 % 2) % 2 == 0
  }

  /** Lines 68 to 85. */
  function Checked(min: nat, a: nat, b: Byte, c: Byte, d: Byte): (r: nat)
    ensures r == ERROR || Scalar(r)
  {
    var v := a * 0x40000 + b % 64 * 0x1000 + c % 64 * 0x40 + d % 64;
    if !Continues(b, c, d) || v < min || v > 0x10FFFF || 0xD800 <= v <= 0xDFFF then ERROR else v
  }

  /** How many bytes behind the first one, a, are read; left is *p - pe at line 35. */
  function Behind(a: Byte, left: int): nat {
    if a < 128 || a > 0xF7 then 0
    else if left != 1 && left != 2 && a > 0xEF then 3
    else if left != 1 && a > 0xDF then 2
    else if a > 0xBF then 1
    else 0
  }

  /** The bytes that decoding at p reads are there. */
  predicate Fits(mem: seq<Byte>, p: nat, pe: nat) {
    p < |mem| && p + Behind(mem[p], p + 1 - pe) < |mem|
  }

  /** The code point or ERROR, and the pointer afterwards. */
  function Step(mem: seq<Byte>, p: nat, pe: nat): (r: (nat, nat))
    requires Fits(mem, p, pe)
    ensures p < r.1 <= |mem| && (r.0 == ERROR || Scalar(r.0))
  {
    var a, n := mem[p], Behind(mem[p], p + 1 - pe);
    var v :=
      if a < 128 then a
      else if n == 3 then Checked(0x10000, a % 8, mem[p + 1], mem[p + 2], mem[p + 3])
      else if n == 2 then Checked(0x800, 0, 0x80 + a % 16, mem[p + 1], mem[p + 2])
      else if n == 1 then Checked(0x80, 0, 0x80, 0x80 + a % 32, mem[p + 1])
      else ERROR;
    (v, p + 1 + n)
  }

  /** uv__utf8_decode1_slow. */
  method Decode1Slow(mem: seq<Byte>, p0: nat, pe: nat, a0: Byte) returns (r: nat, p: nat)
    requires 0 < p0 <= |mem| && mem[p0 - 1] == a0 && a0 >= 128 && Fits(mem, p0 - 1, pe)
    ensures (r, p) == Step(mem, p0 - 1, pe)
  {
    p := p0;
    var a, b, c, d, min := a0, 0, 0, 0, 0;
    if a > 0xF7 {
      return ERROR, p;
    }
    var left := p - pe;
    if left != 1 && left != 2 && a > 0xEF {
      min := 0x10000;
      a := a % 8;
      b, p := mem[p], p + 1;
      c, p := mem[p], p + 1;
      d, p := mem[p], p + 1;
    } else if left != 1 && a > 0xDF {
      min := 0x800;
      b := 0x80 + a % 16;
      c, p := mem[p], p + 1;
      d, p := mem[p], p + 1;
      a := 0;
    } else if a > 0xBF {
      min := 0x80;
      b := 0x80;
      c := 0x80 + a % 32;
      d, p := mem[p], p + 1;
      a := 0;
    } else {
      return ERROR, p;
    }
    r := Checked(min, a, b, c, d);
  }

  /** uv__utf8_decode1. */
  method Decode1(mem: seq<Byte>, p0: nat, pe: nat) returns (r: nat, p: nat)
    requires Fits(mem, p0, pe)
    ensures (r, p) == Step(mem, p0, pe)
  {
    var a := mem[p0];
    p := p0 + 1;
    if a < 128 {
      return a, p;
    }
    r, p := Decode1Slow(mem, p, pe, a);
  }

  /** A continuation byte. */
  lemma Trail(b: nat)
    requires b < 0x40
    ensures (0x80 + b) / 128 == 1 && (0x80 + b) / 64 % 2 == 0 && (0x80 + b) % 64 == b
  {
  }

  lemma Checks(min: nat, a: nat, b: nat, c: nat, d: nat, v: nat)
    requires b < 0x40 && c < 0x40 && d < 0x40 && Scalar(v) && v >= min && v == a * 0x40000 + b * 0x1000 + c * 0x40 + d
    ensures Checked(min, a, 0x80 + b, 0x80 + c, 0x80 + d) == v
  {
    Trail(b);
    Trail(c);
    Trail(d);
  }

  /** The six-bit groups of a number. */
  lemma Groups(v: nat)
    ensures v == v / 0x40 * 0x40 + v % 0x40
    ensures v / 0x40 == v / 0x1000 * 0x40 + v / 0x40 % 0x40
    ensures v / 0x1000 == v / 0x40000 * 0x40 + v / 0x1000 % 0x40
  {
    assert v / 0x40 / 0x40 == v / 0x1000;
    assert v / 0x1000 / 0x40 == v / 0x40000;
  }

  /** What is left of a lead byte without its mark. */
  lemma Unmarked(mark: nat, a: nat, size: nat)
    requires (mark == 0xC0 && size == 32) || (mark == 0xE0 && size == 16) || (mark == 0xF0 && size == 8)
    requires a < size
    ensures (mark + a) % size == a
  {
  }

  lemma TwoBytes(v: nat)
    requires 0x80 <= v < 0x800
    ensures Checked(0x80, 0, 0x80, 0x80 + Encoded(v)[0] % 32, Encoded(v)[1]) == v
  {
    Groups(v);
    Unmarked(0xC0, v / 0x40, 32);
    Checks(0x80, 0, 0, v / 0x40, v % 0x40, v);
  }

  lemma ThreeBytes(v: nat)
    requires 0x800 <= v < 0x10000 && Scalar(v)
    ensures Checked(0x800, 0, 0x80 + Encoded(v)[0] % 16, Encoded(v)[1], Encoded(v)[2]) == v
  {
    Groups(v);
    Unmarked(0xE0, v / 0x1000, 16);
    Checks(0x800, 0, v / 0x1000, v / 0x40 % 0x40, v % 0x40, v);
  }

  lemma FourBytes(v: nat)
    requires 0x10000 <= v && Scalar(v)
    ensures Checked(0x10000, Encoded(v)[0] % 8, Encoded(v)[1], Encoded(v)[2], Encoded(v)[3]) == v
  {
    Groups(v);
    Unmarked(0xF0, v / 0x40000, 8);
    Checks(0x10000, v / 0x40000, v / 0x1000 % 0x40, v / 0x40 % 0x40, v % 0x40, v);
  }

  lemma LeadByte(v: nat, left: int)
    requires Scalar(v) && left <= 0
    ensures Behind(Encoded(v)[0], left) == |Encoded(v)| - 1 && (Encoded(v)[0] < 128 <==> v < 128)
  {
  }

  /** The bytes e stand at p. */
  ghost predicate StandAt(mem: seq<Byte>, p: nat, e: seq<Byte>) {
    p + |e| <= |mem| && forall i :: 0 <= i < |e| ==> mem[p + i] == e[i]
  }

  lemma StepShort(mem: seq<Byte>, p: nat, pe: nat, v: nat)
    requires v < 0x800 && p < pe && StandAt(mem, p, Encoded(v))
    ensures Fits(mem, p, pe) && Step(mem, p, pe) == (v, p + |Encoded(v)|)
  {
    var e := Encoded(v);
    LeadByte(v, p + 1 - pe);
    assert mem[p + 0] == e[0];
    if v >= 0x80 {
      assert mem[p + 1] == e[1];
      TwoBytes(v);
    }
  }

  lemma StepThree(mem: seq<Byte>, p: nat, pe: nat, v: nat)
    requires 0x800 <= v < 0x10000 && Scalar(v) && p < pe && StandAt(mem, p, Encoded(v))
    ensures Fits(mem, p, pe) && Step(mem, p, pe) == (v, p + 3)
  {
    var e := Encoded(v);
    LeadByte(v, p + 1 - pe);
    assert mem[p + 0] == e[0] && mem[p + 1] == e[1] && mem[p + 2] == e[2];
    ThreeBytes(v);
  }

  lemma StepFour(mem: seq<Byte>, p: nat, pe: nat, v: nat)
    requires 0x10000 <= v && Scalar(v) && p < pe && StandAt(mem, p, Encoded(v))
    ensures Fits(mem, p, pe) && Step(mem, p, pe) == (v, p + 4)
  {
    var e := Encoded(v);
    LeadByte(v, p + 1 - pe);
    assert mem[p + 0] == e[0] && mem[p + 1] == e[1] && mem[p + 2] == e[2] && mem[p + 3] == e[3];
    FourBytes(v);
  }

  /** Decoding takes a step over exactly what RFC 3629 writes for a scalar value. */
  lemma StepDecodes(mem: seq<Byte>, p: nat, pe: nat, v: nat)
    requires Scalar(v) && p < pe && StandAt(mem, p, Encoded(v))
    ensures Fits(mem, p, pe) && Step(mem, p, pe) == (v, p + |Encoded(v)|)
  {
    if v < 0x800 {
      StepShort(mem, p, pe, v);
    } else if v < 0x10000 {
      StepThree(mem, p, pe, v);
    } else {
      StepFour(mem, p, pe, v);
    }
  }

  lemma StandsAt(mem: seq<Byte>, p: nat, e: seq<Byte>, all: seq<Byte>)
    requires p + |all| <= |mem| && mem[p..p + |all|] == all && e <= all
    ensures StandAt(mem, p, e)
  {
    forall i | 0 <= i < |e| ensures mem[p + i] == e[i] {
      assert all[i] == e[i];
    }
  }

  // ---------- foreach_codepoint ----------

  /** Every step from s that starts at or before se reads memory that is there. */
  predicate Readable(mem: seq<Byte>, s: nat, se: nat)
    decreases |mem| - s
  {
    s <= se ==> Fits(mem, s, se) && Readable(mem, Step(mem, s, se).1, se)
  }

  /** The code points that lines 99 and 100 go over. */
  function CodePoints(mem: seq<Byte>, s: nat, se: nat): (cs: seq<nat>)
    requires Readable(mem, s, se)
    ensures forall c :: c in cs ==> c == ERROR || Scalar(c)
    ensures s <= se ==> |cs| <= se - s
    decreases |mem| - s
  {
    if s > se then []
    else
      var (c, s') := Step(mem, s, se);
      if s' > se then [] else [c] + CodePoints(mem, s', se)
  }

  /** Where the steps from s to se start. */
  function Starts(mem: seq<Byte>, s: nat, se: nat): (ps: seq<nat>)
    requires Readable(mem, s, se) && s <= se
    ensures |ps| == |CodePoints(mem, s, se)| + 1 && ps[0] == s
    decreases |mem| - s
  {
    var s' := Step(mem, s, se).1;
    if s' > se then [s] else [s] + Starts(mem, s', se)
  }

  /** The step at ps[i] yields cs[i] and leads to ps[i + 1], or beyond se. */
  ghost predicate DecodesAt(mem: seq<Byte>, se: nat, cs: seq<nat>, ps: seq<nat>, i: nat)
    requires |ps| == |cs| + 1 && i <= |cs|
  {
    && ps[i] <= se && Fits(mem, ps[i], se)
    && (if i < |cs| then Step(mem, ps[i], se) == (cs[i], ps[i + 1]) else Step(mem, ps[i], se).1 > se)
  }

  ghost predicate Decodes(mem: seq<Byte>, s: nat, se: nat, cs: seq<nat>, ps: seq<nat>) {
    && |ps| == |cs| + 1 && ps[0] == s && s + |cs| <= se && (forall i :: 0 <= i < |cs| ==> cs[i] == ERROR || Scalar(cs[i]))
    && forall i :: 0 <= i <= |cs| ==> DecodesAt(mem, se, cs, ps, i)
  }

  lemma {:induction false} StepsDecode(mem: seq<Byte>, s: nat, se: nat)
    requires Readable(mem, s, se) && s <= se
    ensures Decodes(mem, s, se, CodePoints(mem, s, se), Starts(mem, s, se))
    decreases |mem| - s
  {
    var s' := Step(mem, s, se).1;
    var cs, ps := CodePoints(mem, s, se), Starts(mem, s, se);
    if s' <= se {
      StepsDecode(mem, s', se);
      var cs', ps' := CodePoints(mem, s', se), Starts(mem, s', se);
      forall i | 0 <= i <= |cs| ensures DecodesAt(mem, se, cs, ps, i) {
        assert i > 0 ==> DecodesAt(mem, se, cs', ps', i - 1);
      }
      forall i | 0 <= i < |cs| ensures cs[i] == ERROR || Scalar(cs[i]) {
        assert cs[i] in cs;
      }
    }
  }

  /** The loop condition of foreach_codepoint, before the i-th step. */
  method NextCodePoint(mem: seq<Byte>, p0: nat, pe: nat, ghost s: nat, ghost cs: seq<nat>, ghost ps: seq<nat>, ghost i: nat)
    returns (c: nat, p: nat, more: bool)
    requires Decodes(mem, s, pe, cs, ps) && i <= |cs| && p0 == ps[i]
    ensures more <==> i < |cs|
    ensures more ==> c == cs[i] && p == ps[i + 1] && (c == ERROR || Scalar(c))
  {
    assert DecodesAt(mem, pe, cs, ps, i);
    c, p := Decode1(mem, p0, pe);
    assert i < |cs| ==> DecodesAt(mem, pe, cs, ps, i + 1);
    more := p <= pe;
  }

  /** Well-formed UTF-8 between s and se, with a readable byte at se (and one more if that byte leads a sequence), is
      read without error, and as the code points it stands for. */
  lemma {:induction false} WellFormed(mem: seq<Byte>, s: nat, se: nat, cs: seq<nat>)
    requires AllScalar(cs) && s <= se && Fits(mem, se, se) && mem[s..se] == EncodedAll(cs)
    ensures Readable(mem, s, se) && CodePoints(mem, s, se) == cs
    decreases |cs|
  {
    if cs == [] {
      assert s == se;
      NothingRead(mem, se);
    } else {
      var s' := ReadFirst(mem, s, se, cs);
      WellFormed(mem, s', se, cs[1..]);
    }
  }

  lemma ReadFirst(mem: seq<Byte>, s: nat, se: nat, cs: seq<nat>) returns (s': nat)
    requires AllScalar(cs) && cs != [] && s <= se <= |mem| && mem[s..se] == EncodedAll(cs)
    ensures s < s' <= se && mem[s'..se] == EncodedAll(cs[1..])
    ensures Readable(mem, s', se) ==> Readable(mem, s, se) && CodePoints(mem, s, se) == [cs[0]] + CodePoints(mem, s', se)
  {
    s' := s + |Encoded(cs[0])|;
    FirstOfAll(mem, s, se, cs);
    if Readable(mem, s', se) {
      FirstRead(mem, s, se, cs[0], s');
    }
  }

  lemma NothingRead(mem: seq<Byte>, se: nat)
    requires Fits(mem, se, se)
    ensures Readable(mem, se, se) && CodePoints(mem, se, se) == []
  {
  }

  lemma FirstRead(mem: seq<Byte>, s: nat, se: nat, c: nat, s': nat)
    requires Scalar(c) && s < se && StandAt(mem, s, Encoded(c)) && s' == s + |Encoded(c)| <= se && Readable(mem, s', se)
    ensures Readable(mem, s, se) && CodePoints(mem, s, se) == [c] + CodePoints(mem, s', se)
  {
    StepDecodes(mem, s, se, c);
  }

  lemma FirstOfAll(mem: seq<Byte>, s: nat, se: nat, cs: seq<nat>)
    requires AllScalar(cs) && cs != [] && s <= se <= |mem| && mem[s..se] == EncodedAll(cs)
    ensures var e := Encoded(cs[0]);
            var s' := s + |e|;
            StandAt(mem, s, e) && s' <= se && mem[s'..se] == EncodedAll(cs[1..])
  {
    Peel(mem, s, se, mem[s..se], Encoded(cs[0]), EncodedAll(cs[1..]), s + |Encoded(cs[0])|);
  }

  lemma Peel(mem: seq<Byte>, s: nat, se: nat, all: seq<Byte>, e: seq<Byte>, rest: seq<Byte>, s': nat)
    requires s <= se <= |mem| && all == mem[s..se] == e + rest && s' == s + |e|
    ensures StandAt(mem, s, e) && s' <= se && mem[s'..se] == rest
  {
    StandsAt(mem, s, e, all);
    forall i | 0 <= i < |rest| ensures mem[s'..se][i] == rest[i] {
      assert all[|e| + i] == mem[s + (|e| + i)];
    }
  }
}
