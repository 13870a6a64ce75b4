/** Sample strings of section 7.1 of RFC 3492, encoded as there and decoded again. */
module PunycodeSamples {
  import opened Arithmetic
  import opened Punycode
  import opened PunycodeRoundTrip
  import opened Wrappers

  /** The round for m, which follows one for n - 1. */
  predicate Leads(cs: seq<nat>, n: nat, m: nat, e: Enc, next: Enc)
    requires n <= m
  {
    next == Bump(Scan(cs, m, 0, Jump(n, m, e)))
  }

  /** A round, for the least code point left, which is at index `at`. */
  lemma RoundAt(cs: seq<nat>, n: nat, e: Enc, at: nat, m: nat, next: Enc)
    requires at < |cs| && cs[at] == m >= n && forall i :: 0 <= i < |cs| && cs[i] >= n ==> cs[i] >= m
    requires Leads(cs, n, m, e, next)
    ensures Rounds(cs, n, e) == Rounds(cs, m + 1, next)
  {
    LeftNone(cs, n);
    LeastAt(cs, n, at);
    assert Rounds(cs, n, e) == Rounds(cs, Least(cs, n) + 1, Round(cs, n, e));
  }

  lemma LeastAt(cs: seq<nat>, n: nat, at: nat)
    requires at < |cs| && cs[at] >= n && forall i :: 0 <= i < |cs| && cs[i] >= n ==> cs[i] >= cs[at]
    ensures Left(cs, n) > 0 && Least(cs, n) == cs[at]
  {
    LeftNone(cs, n);
    LeastIs(cs, n);
    assert cs[at] in cs;
    var i :| 0 <= i < |cs| && cs[i] == Least(cs, n);
  }

  lemma {:induction false} NoBasic(cs: seq<nat>)
    requires forall i :: 0 <= i < |cs| ==> cs[i] >= 128
    ensures Basic(cs) == ""
  {
    if cs != [] {
      NoBasic(cs[..|cs| - 1]);
    }
  }

  lemma OneBasic(c: nat)
    requires c < 128
    ensures Basic([c]) == [c as char]
  {
    assert [c][..0] == [];
  }

  /** The first basic code point is at index a. */
  lemma FirstBasic(cs: seq<nat>, a: nat)
    requires a < |cs| && cs[a] < 128 && forall i :: 0 <= i < a ==> cs[i] >= 128
    ensures Basic(cs) == [cs[a] as char] + Basic(cs[a + 1..])
  {
    var rest := cs[a + 1..];
    assert cs == cs[..a] + ([cs[a]] + rest);
    NoBasic(cs[..a]);
    OneBasic(cs[a]);
    BasicSplits(cs[..a], [cs[a]] + rest);
    BasicSplits([cs[a]], rest);
  }

  lemma LastRound(cs: seq<nat>, n: nat, e: Enc)
    requires forall i :: 0 <= i < |cs| ==> cs[i] < n
    ensures Rounds(cs, n, e) == e
  {
    LeftNone(cs, n);
  }

  /** The bias after a delta that is damped to d. */
  lemma Adapted(delta: nat, numpoints: nat, first: bool, d: nat)
    requires numpoints > 0 && d == if first then delta / 700 else delta / 2
    ensures d / numpoints >= 0 && Adapt(delta, numpoints, first) == Settle(d + d / numpoints, 0)
  {
    QuotIs(d, numpoints);
  }

  // ---------- Sensei ----------

  /** Sample (L): two basic code points and six others. */
  function Sensei(): seq<nat> {
    [0x33, 0x5E74, 0x42, 0x7D44, 0x91D1, 0x516B, 0x5148, 0x751F]
  }

  predicate IsSensei(cs: seq<nat>) {
    |cs| == 8 && cs[0] == 0x33 && cs[1] == 0x5E74 && cs[2] == 0x42 && cs[3] == 0x7D44 && cs[4] == 0x91D1 && cs[5] == 0x516B && cs[6] == 0x5148 && cs[7] == 0x751F
  }

  lemma SenseiDelta1()
    ensures Digits(62042, 36, 72) == "ww4c" && Adapt(62042, 3, true) == 27
  {
    Adapted(62042, 3, true, 88);
    QuotIs(36 * 117, 117 + 38);
    assert Settle(117, 0) == 27;
    assert Digits(2, 144, 72) == "c";
    assert Digits(50, 108, 72) == "4c";
    assert Digits(1772, 72, 72) == "w4c";
  }

  lemma SenseiScan1(e: Enc, next: Enc)
    requires e.delta == 0 && e.h == 2 && e.bias == 72 && e.deltas == []
    requires next == Enc(1, 3, 27, e.digits + "ww4c", e.deltas + [62042])
    ensures Leads(Sensei(), 128, 0x5148, e, next)
  {
    SenseiDelta1();
  }

  lemma SenseiRound1(cs: seq<nat>, e: Enc) returns (next: Enc)
    requires IsSensei(cs) && e.delta == 0 && e.h == 2 && e.bias == 72 && e.deltas == []
    ensures next == Enc(1, 3, 27, e.digits + "ww4c", e.deltas + [62042]) && Rounds(cs, 128, e) == Rounds(cs, 20809, next)
  {
    next := Enc(1, 3, 27, e.digits + "ww4c", e.deltas + [62042]);
    assert Leads(cs, 128, 0x5148, e, next) by {
      assert cs == Sensei();
      SenseiScan1(e, next);
    }
    RoundAt(cs, 128, e, 6, 0x5148, next);
  }

  lemma SenseiDelta2()
    ensures Digits(139, 36, 27) == "5e" && Adapt(139, 4, false) == 24
  {
    Adapted(139, 4, false, 69);
    QuotIs(36 * 86, 86 + 38);
    assert Settle(86, 0) == 24;
    assert Digits(4, 72, 27) == "e";
  }

  lemma SenseiScan2(e: Enc, next: Enc)
    requires e.delta == 1 && e.h == 3 && e.bias == 27 && e.deltas != []
    requires next == Enc(2, 4, 24, e.digits + "5e", e.deltas + [139])
    ensures Leads(Sensei(), 20809, 0x516B, e, next)
  {
    SenseiDelta2();
  }

  lemma SenseiRound2(cs: seq<nat>, e: Enc) returns (next: Enc)
    requires IsSensei(cs) && e.delta == 1 && e.h == 3 && e.bias == 27 && e.deltas != []
    ensures next == Enc(2, 4, 24, e.digits + "5e", e.deltas + [139]) && Rounds(cs, 20809, e) == Rounds(cs, 20844, next)
  {
    next := Enc(2, 4, 24, e.digits + "5e", e.deltas + [139]);
    assert Leads(cs, 20809, 0x516B, e, next) by {
      assert cs == Sensei();
      SenseiScan2(e, next);
    }
    RoundAt(cs, 20809, e, 5, 0x516B, next);
  }

  lemma SenseiDelta3()
    ensures Digits(16683, 36, 24) == "180e" && Adapt(16683, 5, false) == 67
  {
    Adapted(16683, 5, false, 8341);
    QuotIs(36 * 285, 285 + 38);
    assert Settle(10009, 0) == 67;
    assert Digits(4, 144, 24) == "e";
    assert Digits(66, 108, 24) == "0e";
    assert Digits(694, 72, 24) == "80e";
  }

  lemma SenseiScan3(e: Enc, next: Enc)
    requires e.delta == 2 && e.h == 4 && e.bias == 24 && e.deltas != []
    requires next == Enc(4, 5, 67, e.digits + "180e", e.deltas + [16683])
    ensures Leads(Sensei(), 20844, 0x5E74, e, next)
  {
    SenseiDelta3();
  }

  lemma SenseiRound3(cs: seq<nat>, e: Enc) returns (next: Enc)
    requires IsSensei(cs) && e.delta == 2 && e.h == 4 && e.bias == 24 && e.deltas != []
    ensures next == Enc(4, 5, 67, e.digits + "180e", e.deltas + [16683]) && Rounds(cs, 20844, e) == Rounds(cs, 24181, next)
  {
    next := Enc(4, 5, 67, e.digits + "180e", e.deltas + [16683]);
    assert Leads(cs, 20844, 0x5E74, e, next) by {
      assert cs == Sensei();
      SenseiScan3(e, next);
    }
    RoundAt(cs, 20844, e, 1, 0x5E74, next);
  }

  lemma SenseiDelta4()
    ensures Digits(34821, 36, 67) == "575a" && Adapt(34821, 6, false) == 82
  {
    Adapted(34821, 6, false, 17410);
    QuotIs(36 * 16, 16 + 38);
    assert Settle(20311, 0) == 82;
    assert Digits(0, 144, 67) == "a";
    assert Digits(31, 108, 67) == "5a";
    assert Digits(994, 72, 67) == "75a";
  }

  lemma SenseiScan4(e: Enc, next: Enc)
    requires e.delta == 4 && e.h == 5 && e.bias == 67 && e.deltas != []
    requires next == Enc(1, 6, 82, e.digits + "575a", e.deltas + [34821])
    ensures Leads(Sensei(), 24181, 0x751F, e, next)
  {
    SenseiDelta4();
  }

  lemma SenseiRound4(cs: seq<nat>, e: Enc) returns (next: Enc)
    requires IsSensei(cs) && e.delta == 4 && e.h == 5 && e.bias == 67 && e.deltas != []
    ensures next == Enc(1, 6, 82, e.digits + "575a", e.deltas + [34821]) && Rounds(cs, 24181, e) == Rounds(cs, 29984, next)
  {
    next := Enc(1, 6, 82, e.digits + "575a", e.deltas + [34821]);
    assert Leads(cs, 24181, 0x751F, e, next) by {
      assert cs == Sensei();
      SenseiScan4(e, next);
    }
    RoundAt(cs, 24181, e, 7, 0x751F, next);
  }

  lemma SenseiDelta5()
    ensures Digits(14592, 36, 82) == "65l" && Adapt(14592, 7, false) == 67
  {
    Adapted(14592, 7, false, 7296);
    QuotIs(36 * 238, 238 + 38);
    assert Settle(8338, 0) == 67;
    assert Digits(11, 108, 82) == "l";
    assert Digits(416, 72, 82) == "5l";
  }

  lemma SenseiScan5(e: Enc, next: Enc)
    requires e.delta == 1 && e.h == 6 && e.bias == 82 && e.deltas != []
    requires next == Enc(4, 7, 67, e.digits + "65l", e.deltas + [14592])
    ensures Leads(Sensei(), 29984, 0x7D44, e, next)
  {
    SenseiDelta5();
  }

  lemma SenseiRound5(cs: seq<nat>, e: Enc) returns (next: Enc)
    requires IsSensei(cs) && e.delta == 1 && e.h == 6 && e.bias == 82 && e.deltas != []
    ensures next == Enc(4, 7, 67, e.digits + "65l", e.deltas + [14592]) && Rounds(cs, 29984, e) == Rounds(cs, 32069, next)
  {
    next := Enc(4, 7, 67, e.digits + "65l", e.deltas + [14592]);
    assert Leads(cs, 29984, 0x7D44, e, next) by {
      assert cs == Sensei();
      SenseiScan5(e, next);
    }
    RoundAt(cs, 29984, e, 3, 0x7D44, next);
  }

  lemma SenseiDelta6()
    ensures Digits(42088, 36, 67) == "sy2b" && Adapt(42088, 8, false) == 84
  {
    Adapted(42088, 8, false, 21044);
    QuotIs(36 * 19, 19 + 38);
    assert Settle(23674, 0) == 84;
    assert Digits(1, 144, 67) == "b";
    assert Digits(38, 108, 67) == "2b";
    assert Digits(1202, 72, 67) == "y2b";
  }

  lemma SenseiScan6(e: Enc, next: Enc)
    requires e.delta == 4 && e.h == 7 && e.bias == 67 && e.deltas != []
    requires next == Enc(4, 8, 84, e.digits + "sy2b", e.deltas + [42088])
    ensures Leads(Sensei(), 32069, 0x91D1, e, next)
  {
    SenseiDelta6();
  }

  lemma SenseiRound6(cs: seq<nat>, e: Enc) returns (next: Enc)
    requires IsSensei(cs) && e.delta == 4 && e.h == 7 && e.bias == 67 && e.deltas != []
    ensures next == Enc(4, 8, 84, e.digits + "sy2b", e.deltas + [42088]) && Rounds(cs, 32069, e) == Rounds(cs, 37330, next)
  {
    next := Enc(4, 8, 84, e.digits + "sy2b", e.deltas + [42088]);
    assert Leads(cs, 32069, 0x91D1, e, next) by {
      assert cs == Sensei();
      SenseiScan6(e, next);
    }
    RoundAt(cs, 32069, e, 4, 0x91D1, next);
  }

  lemma SenseiRounds(cs: seq<nat>, e0: Enc)
    requires IsSensei(cs) && e0 == Enc(0, 2, 72, "", [])
    ensures Rounds(cs, 128, e0).digits == "ww4c5e180e575a65lsy2b"
  {
    var e1 := SenseiRound1(cs, e0);
    var e2 := SenseiRound2(cs, e1);
    var e3 := SenseiRound3(cs, e2);
    SenseiRest(cs, e3);
  }

  lemma SenseiRest(cs: seq<nat>, e3: Enc)
    requires IsSensei(cs) && e3.delta == 4 && e3.h == 5 && e3.bias == 67 && e3.deltas != []
    ensures Rounds(cs, 24181, e3).digits == e3.digits + "575a65lsy2b"
  {
    var e4 := SenseiRound4(cs, e3);
    var e5 := SenseiRound5(cs, e4);
    var e6 := SenseiRound6(cs, e5);
    LastRound(cs, 37330, e6);
  }

  lemma SenseiBasic(cs: seq<nat>)
    requires IsSensei(cs)
    ensures Basic(cs) == "3B"
  {
    FirstBasic(cs, 0);
    FirstBasic(cs[1..], 1);
    assert cs[1..][2..] == cs[3..];
    NoBasic(cs[3..]);
  }

  lemma SenseiEncoded(cs: seq<nat>, text: string)
    requires IsSensei(cs) && text == "3B-ww4c5e180e575a65lsy2b"
    ensures Encode(cs) == text
  {
    SenseiBasic(cs);
    SenseiRounds(cs, Start(cs));
  }

  lemma SenseiSample(cs: seq<nat>, text: string)
    requires IsSensei(cs) && text == "3B-ww4c5e180e575a65lsy2b"
    ensures Encode(cs) == text && Decode(text) == Some(cs)
  {
    SenseiEncoded(cs, text);
    RoundTrip(cs);
  }

  // ---------- Speed ----------

  /** Sample (R): seven code points, none of them basic. */
  function Speed(): seq<nat> {
    [0x305D, 0x306E, 0x30B9, 0x30D4, 0x30FC, 0x30C9, 0x3067]
  }

  predicate IsSpeed(cs: seq<nat>) {
    |cs| == 7 && cs[0] == 0x305D && cs[1] == 0x306E && cs[2] == 0x30B9 && cs[3] == 0x30D4 && cs[4] == 0x30FC && cs[5] == 0x30C9 && cs[6] == 0x3067
  }

  lemma SpeedDelta1()
    ensures Digits(12253, 36, 72) == "d9j" && Adapt(12253, 1, true) == 17
  {
    Adapted(12253, 1, true, 17);
    QuotIs(36 * 34, 34 + 38);
    assert Settle(34, 0) == 17;
    assert Digits(9, 108, 72) == "j";
    assert Digits(350, 72, 72) == "9j";
  }

  lemma SpeedScan1(e: Enc, next: Enc)
    requires e.delta == 0 && e.h == 0 && e.bias == 72 && e.deltas == []
    requires next == Enc(1, 1, 17, e.digits + "d9j", e.deltas + [12253])
    ensures Leads(Speed(), 128, 0x305D, e, next)
  {
    SpeedDelta1();
  }

  lemma SpeedRound1(cs: seq<nat>, e: Enc) returns (next: Enc)
    requires IsSpeed(cs) && e.delta == 0 && e.h == 0 && e.bias == 72 && e.deltas == []
    ensures next == Enc(1, 1, 17, e.digits + "d9j", e.deltas + [12253]) && Rounds(cs, 128, e) == Rounds(cs, 12382, next)
  {
    next := Enc(1, 1, 17, e.digits + "d9j", e.deltas + [12253]);
    assert Leads(cs, 128, 0x305D, e, next) by {
      assert cs == Speed();
      SpeedScan1(e, next);
    }
    RoundAt(cs, 128, e, 0, 0x305D, next);
  }

  lemma SpeedDelta2()
    ensures Digits(20, 36, 17) == "ua" && Adapt(20, 2, false) == 10
  {
    Adapted(20, 2, false, 10);
    QuotIs(36 * 15, 15 + 38);
    assert Settle(15, 0) == 10;
    assert Digits(0, 72, 17) == "a";
  }

  lemma SpeedScan2(e: Enc, next: Enc)
    requires e.delta == 1 && e.h == 1 && e.bias == 17 && e.deltas != []
    requires next == Enc(1, 2, 10, e.digits + "ua", e.deltas + [20])
    ensures Leads(Speed(), 12382, 0x3067, e, next)
  {
    SpeedDelta2();
  }

  lemma SpeedRound2(cs: seq<nat>, e: Enc) returns (next: Enc)
    requires IsSpeed(cs) && e.delta == 1 && e.h == 1 && e.bias == 17 && e.deltas != []
    ensures next == Enc(1, 2, 10, e.digits + "ua", e.deltas + [20]) && Rounds(cs, 12382, e) == Rounds(cs, 12392, next)
  {
    next := Enc(1, 2, 10, e.digits + "ua", e.deltas + [20]);
    assert Leads(cs, 12382, 0x3067, e, next) by {
      assert cs == Speed();
      SpeedScan2(e, next);
    }
    RoundAt(cs, 12382, e, 6, 0x3067, next);
  }

  lemma SpeedDelta3()
    ensures Digits(20, 36, 10) == "u" && Adapt(20, 3, false) == 9
  {
    Adapted(20, 3, false, 10);
    QuotIs(36 * 13, 13 + 38);
    assert Settle(13, 0) == 9;
  }

  lemma SpeedScan3(e: Enc, next: Enc)
    requires e.delta == 1 && e.h == 2 && e.bias == 10 && e.deltas != []
    requires next == Enc(2, 3, 9, e.digits + "u", e.deltas + [20])
    ensures Leads(Speed(), 12392, 0x306E, e, next)
  {
    SpeedDelta3();
  }

  lemma SpeedRound3(cs: seq<nat>, e: Enc) returns (next: Enc)
    requires IsSpeed(cs) && e.delta == 1 && e.h == 2 && e.bias == 10 && e.deltas != []
    ensures next == Enc(2, 3, 9, e.digits + "u", e.deltas + [20]) && Rounds(cs, 12392, e) == Rounds(cs, 12399, next)
  {
    next := Enc(2, 3, 9, e.digits + "u", e.deltas + [20]);
    assert Leads(cs, 12392, 0x306E, e, next) by {
      assert cs == Speed();
      SpeedScan3(e, next);
    }
    RoundAt(cs, 12392, e, 1, 0x306E, next);
  }

  lemma SpeedDelta4()
    ensures Digits(300, 36, 9) == "41a" && Adapt(300, 4, false) == 29
  {
    Adapted(300, 4, false, 150);
    QuotIs(36 * 187, 187 + 38);
    assert Settle(187, 0) == 29;
    assert Digits(0, 108, 9) == "a";
    assert Digits(27, 72, 9) == "1a";
  }

  lemma SpeedScan4(e: Enc, next: Enc)
    requires e.delta == 2 && e.h == 3 && e.bias == 9 && e.deltas != []
    requires next == Enc(2, 4, 29, e.digits + "41a", e.deltas + [300])
    ensures Leads(Speed(), 12399, 0x30B9, e, next)
  {
    SpeedDelta4();
  }

  lemma SpeedRound4(cs: seq<nat>, e: Enc) returns (next: Enc)
    requires IsSpeed(cs) && e.delta == 2 && e.h == 3 && e.bias == 9 && e.deltas != []
    ensures next == Enc(2, 4, 29, e.digits + "41a", e.deltas + [300]) && Rounds(cs, 12399, e) == Rounds(cs, 12474, next)
  {
    next := Enc(2, 4, 29, e.digits + "41a", e.deltas + [300]);
    assert Leads(cs, 12399, 0x30B9, e, next) by {
      assert cs == Speed();
      SpeedScan4(e, next);
    }
    RoundAt(cs, 12399, e, 2, 0x30B9, next);
  }

  lemma SpeedDelta5()
    ensures Digits(80, 36, 29) == "wc" && Adapt(80, 5, false) == 20
  {
    Adapted(80, 5, false, 40);
    QuotIs(36 * 48, 48 + 38);
    assert Settle(48, 0) == 20;
    assert Digits(2, 72, 29) == "c";
  }

  lemma SpeedScan5(e: Enc, next: Enc)
    requires e.delta == 2 && e.h == 4 && e.bias == 29 && e.deltas != []
    requires next == Enc(2, 5, 20, e.digits + "wc", e.deltas + [80])
    ensures Leads(Speed(), 12474, 0x30C9, e, next)
  {
    SpeedDelta5();
  }

  lemma SpeedRound5(cs: seq<nat>, e: Enc) returns (next: Enc)
    requires IsSpeed(cs) && e.delta == 2 && e.h == 4 && e.bias == 29 && e.deltas != []
    ensures next == Enc(2, 5, 20, e.digits + "wc", e.deltas + [80]) && Rounds(cs, 12474, e) == Rounds(cs, 12490, next)
  {
    next := Enc(2, 5, 20, e.digits + "wc", e.deltas + [80]);
    assert Leads(cs, 12474, 0x30C9, e, next) by {
      assert cs == Speed();
      SpeedScan5(e, next);
    }
    RoundAt(cs, 12474, e, 5, 0x30C9, next);
  }

  lemma SpeedDelta6()
    ensures Digits(65, 36, 20) == "zc" && Adapt(65, 6, false) == 17
  {
    Adapted(65, 6, false, 32);
    QuotIs(36 * 37, 37 + 38);
    assert Settle(37, 0) == 17;
    assert Digits(2, 72, 20) == "c";
  }

  lemma SpeedScan6(e: Enc, next: Enc)
    requires e.delta == 2 && e.h == 5 && e.bias == 20 && e.deltas != []
    requires next == Enc(3, 6, 17, e.digits + "zc", e.deltas + [65])
    ensures Leads(Speed(), 12490, 0x30D4, e, next)
  {
    SpeedDelta6();
  }

  lemma SpeedRound6(cs: seq<nat>, e: Enc) returns (next: Enc)
    requires IsSpeed(cs) && e.delta == 2 && e.h == 5 && e.bias == 20 && e.deltas != []
    ensures next == Enc(3, 6, 17, e.digits + "zc", e.deltas + [65]) && Rounds(cs, 12490, e) == Rounds(cs, 12501, next)
  {
    next := Enc(3, 6, 17, e.digits + "zc", e.deltas + [65]);
    assert Leads(cs, 12490, 0x30D4, e, next) by {
      assert cs == Speed();
      SpeedScan6(e, next);
    }
    RoundAt(cs, 12490, e, 3, 0x30D4, next);
  }

  lemma SpeedDelta7()
    ensures Digits(280, 36, 17) == "zp" && Adapt(280, 7, false) == 29
  {
    Adapted(280, 7, false, 140);
    QuotIs(36 * 160, 160 + 38);
    assert Settle(160, 0) == 29;
    assert Digits(15, 72, 17) == "p";
  }

  lemma SpeedScan7(e: Enc, next: Enc)
    requires e.delta == 3 && e.h == 6 && e.bias == 17 && e.deltas != []
    requires next == Enc(3, 7, 29, e.digits + "zp", e.deltas + [280])
    ensures Leads(Speed(), 12501, 0x30FC, e, next)
  {
    SpeedDelta7();
  }

  lemma SpeedRound7(cs: seq<nat>, e: Enc) returns (next: Enc)
    requires IsSpeed(cs) && e.delta == 3 && e.h == 6 && e.bias == 17 && e.deltas != []
    ensures next == Enc(3, 7, 29, e.digits + "zp", e.deltas + [280]) && Rounds(cs, 12501, e) == Rounds(cs, 12541, next)
  {
    next := Enc(3, 7, 29, e.digits + "zp", e.deltas + [280]);
    assert Leads(cs, 12501, 0x30FC, e, next) by {
      assert cs == Speed();
      SpeedScan7(e, next);
    }
    RoundAt(cs, 12501, e, 4, 0x30FC, next);
  }

  lemma SpeedRounds(cs: seq<nat>, e0: Enc)
    requires IsSpeed(cs) && e0 == Enc(0, 0, 72, "", [])
    ensures Rounds(cs, 128, e0).digits == "d9juau41awczczp"
  {
    var e1 := SpeedRound1(cs, e0);
    var e2 := SpeedRound2(cs, e1);
    var e3 := SpeedRound3(cs, e2);
    SpeedRest(cs, e3);
  }

  lemma SpeedRest(cs: seq<nat>, e3: Enc)
    requires IsSpeed(cs) && e3.delta == 2 && e3.h == 3 && e3.bias == 9 && e3.deltas != []
    ensures Rounds(cs, 12399, e3).digits == e3.digits + "41awczczp"
  {
    var e4 := SpeedRound4(cs, e3);
    var e5 := SpeedRound5(cs, e4);
    var e6 := SpeedRound6(cs, e5);
    var e7 := SpeedRound7(cs, e6);
    LastRound(cs, 12541, e7);
  }

  lemma SpeedBasic(cs: seq<nat>)
    requires IsSpeed(cs)
    ensures Basic(cs) == ""
  {
    NoBasic(cs);
  }

  lemma SpeedEncoded(cs: seq<nat>, text: string)
    requires IsSpeed(cs) && text == "d9juau41awczczp"
    ensures Encode(cs) == text
  {
    SpeedBasic(cs);
    SpeedRounds(cs, Start(cs));
  }

  lemma SpeedSample(cs: seq<nat>, text: string)
    requires IsSpeed(cs) && text == "d9juau41awczczp"
    ensures Encode(cs) == text && Decode(text) == Some(cs)
  {
    SpeedEncoded(cs, text);
    RoundTrip(cs);
  }
}
