/** What inet_pton4 (src/inet.c:179-215) accepts: exactly the texts that inet_ntop4 prints. */
module InetQuad {
  import opened Sequences
  import opened Wrappers
  import opened InetText

  /** t stands in s at i. */
  predicate At(s: string, i: nat, t: string) {
    i + |t| <= |s| && s[i..i + |t|] == t
  }

  lemma AtParts(s: string, i: nat, a: string, b: string)
    requires At(s, i, a + b)
    ensures At(s, i, a) && At(s, i + |a|, b)
  {
    var t := s[i..i + |a| + |b|];
    assert t[..|a|] == a && t[|a|..] == b;
  }

  lemma AtFirst(s: string, i: nat, t: string)
    requires At(s, i, t) && t != []
    ensures i < |s| && s[i] == t[0] && At(s, i + 1, t[1..])
  {
    assert s[i..i + |t|][0] == t[0];
  }

  // ---------- Octets, each with a dot behind it ----------

  function Dots(octets: seq<Byte>): string {
    if octets == [] then "" else Dots(octets[..|octets| - 1]) + (Dec(octets[|octets| - 1]) + ".")
  }

  lemma {:induction false} DottedMore(b: seq<Byte>, n: Byte)
    requires b != []
    ensures Dotted(b + [n]) == Dotted(b) + ("." + Dec(n))
  {
    var c := b + [n];
    assert c[0] == b[0] && c[1..] == b[1..] + [n];
    if |b| == 1 {
      assert c[1..] == [n];
    } else {
      DottedMore(b[1..], n);
      Assoc(".", Dotted(b[1..]), "." + Dec(n));
      Assoc(Dec(b[0]), "." + Dotted(b[1..]), "." + Dec(n));
    }
  }

  lemma {:induction false} DottedIs(b: seq<Byte>)
    requires b != []
    ensures Dotted(b) == Dots(b[..|b| - 1]) + Dec(b[|b| - 1])
  {
    if |b| == 1 {
      assert "" + Dec(b[0]) == Dec(b[0]);
    } else {
      var front, n := b[..|b| - 1], b[|b| - 1];
      assert b == front + [n];
      DottedIs(front);
      DottedMore(front, n);
      Assoc(Dots(front[..|front| - 1]), Dec(front[|front| - 1]), "." + Dec(n));
      Assoc(Dec(front[|front| - 1]), ".", Dec(n));
      Assoc(Dots(front[..|front| - 1]), Dec(front[|front| - 1]) + ".", Dec(n));
    }
  }

  /** The digits of an octet. */
  lemma DecimalDigits(n: Byte)
    ensures Dec(n) == if n < 10 then [Numeral(n)] else if n < 100 then [Numeral(n / 10), Numeral(n % 10)]
                      else [Numeral(n / 100), Numeral(n / 10 % 10), Numeral(n % 10)]
  {
    if n >= 100 {
      assert Dec(n / 10) == Dec(n / 100) + [Numeral(n / 10 % 10)] == [Numeral(n / 100)] + [Numeral(n / 10 % 10)];
    } else if n >= 10 {
      assert Dec(n / 10) == [Numeral(n / 10)];
    }
  }

  function Numeral(d: nat): char
    requires d < 10
  {
    "0123456789"[d]
  }

  /** The text of four bytes. */
  lemma FourOctets(b: seq<Byte>)
    requires |b| == 4
    ensures Dotted(b) == Dec(b[0]) + ("." + (Dec(b[1]) + ("." + (Dec(b[2]) + ("." + Dec(b[3]))))))
  {
    assert b[1..][1..] == b[2..] && b[2..][1..] == b[3..];
    assert Dotted(b[3..]) == Dec(b[3]) && Dotted(b[2..]) == Dec(b[2]) + ("." + Dotted(b[3..]));
  }

  // ---------- What is printed is read back ----------

  lemma {:induction false} DecScan(s: string, i: nat, n: Byte, octets: seq<Byte>)
    requires At(s, i, Dec(n)) && octets != [] && |octets| <= 4 && octets[|octets| - 1] == 0
    ensures Scan4(s, i, octets, false) == Scan4(s, i + |Dec(n)|, octets[|octets| - 1 := n], true)
  {
    if n < 10 {
      AtFirst(s, i, Dec(n));
    } else {
      var c, j := '0' + (n % 10) as char, i + |Dec(n / 10)|;
      AtParts(s, i, Dec(n / 10), [c]);
      DecScan(s, i, n / 10, octets);
      AtFirst(s, j, [c]);
      assert Next(n / 10, c) == n;
      var last := |octets| - 1;
      assert octets[last := n / 10][last := n] == octets[last := n];
    }
  }

  lemma DotScan(s: string, i: nat, octets: seq<Byte>)
    requires i < |s| && s[i] == '.' && octets != [] && |octets| < 4
    ensures Scan4(s, i, octets, true) == Scan4(s, i + 1, octets + [0], false)
  {
  }

  /** An octet and the dot behind it. */
  lemma OctetScan(s: string, i: nat, n: Byte, o: seq<Byte>, o': seq<Byte>)
    requires At(s, i, Dec(n) + ".") && 1 <= |o| <= 3 && o[|o| - 1] == 0 && o' == o[|o| - 1 := n] + [0]
    ensures Scan4(s, i, o, false) == Scan4(s, i + |Dec(n)| + 1, o', false)
  {
    AtParts(s, i, Dec(n), ".");
    DecScan(s, i, n, o);
    AtFirst(s, i + |Dec(n)|, ".");
    DotScan(s, i + |Dec(n)|, o[|o| - 1 := n]);
  }

  lemma {:induction false} DotsScan(s: string, octets: seq<Byte>, start: seq<Byte>)
    requires At(s, 0, Dots(octets)) && |octets| <= 3 && start == [0]
    ensures Scan4(s, 0, start, false) == Scan4(s, |Dots(octets)|, octets + [0], false)
  {
    if octets == [] {
      assert octets + [0] == start;
    } else {
      var before, n := octets[..|octets| - 1], octets[|octets| - 1];
      AtParts(s, 0, Dots(before), Dec(n) + ".");
      DotsScan(s, before, start);
      assert (before + [0])[|before| := n] + [0] == octets + [0];
      OctetScan(s, |Dots(before)|, n, before + [0], octets + [0]);
    }
  }

  /** inet_pton4 undoes inet_ntop4. */
  lemma RoundTrip4(b: seq<Byte>, start: seq<Byte>)
    requires |b| == 4 && start == [0]
    ensures Scan4(Dotted(b), 0, start, false) == Some(b)
  {
    var s, front := Dotted(b), b[..3];
    DottedIs(b);
    assert At(s, 0, s);
    AtParts(s, 0, Dots(front), Dec(b[3]));
    DotsScan(s, front, start);
    DecScan(s, |Dots(front)|, b[3], front + [0]);
    assert (front + [0])[3 := b[3]] == b;
  }

  // ---------- Nothing else is read ----------

  /** The text for which the loop has these octets: those before the last are closed by a dot, and the last has digits
      if `saw`. */
  function Begun(octets: seq<Byte>, saw: bool): string
    requires octets != []
  {
    Dots(octets[..|octets| - 1]) + if saw then Dec(octets[|octets| - 1]) else ""
  }

  /** A digit may follow if it is the first of its octet, or the octet is not 0. */
  lemma DigitBegun(octets: seq<Byte>, saw: bool, c: char, octets': seq<Byte>)
    requires octets != [] && IsDec(c)
    requires var last := |octets| - 1;
             && (if saw then octets[last] != 0 else octets[last] == 0) && Next(octets[last], c) <= 255
             && octets' == octets[last := Next(octets[last], c)]
    ensures Begun(octets', true) == Begun(octets, saw) + [c]
  {
    var last, front := |octets| - 1, octets[..|octets| - 1];
    var n, nw := octets[last], Next(octets[last], c);
    assert octets'[..last] == front;
    assert Dec(nw) == (if saw then Dec(n) else "") + [c];
    Assoc(Dots(front), if saw then Dec(n) else "", [c]);
  }

  lemma DotBegun(octets: seq<Byte>, octets': seq<Byte>)
    requires octets != [] && octets' == octets + [0]
    ensures Begun(octets', false) == Begun(octets, true) + "."
  {
    var front, n := octets[..|octets| - 1], octets[|octets| - 1];
    assert octets'[..|octets|] == octets;
    Assoc(Dots(front), Dec(n), ".");
  }

  lemma {:induction false} OnlyDotted(s: string, i: nat, octets: seq<Byte>, saw: bool, b: seq<Byte>)
    requires i <= |s| && octets != [] && |octets| <= 4 && (!saw ==> octets[|octets| - 1] == 0)
    requires s[..i] == Begun(octets, saw) && Scan4(s, i, octets, saw) == Some(b)
    ensures |b| == 4 && s == Dotted(b)
    decreases |s| - i
  {
    if i == |s| {
      DottedIs(b);
      assert s[..i] == s;
    } else {
      assert s[..i + 1] == s[..i] + [s[i]];
      if IsDec(s[i]) {
        var nw: Byte := Next(octets[|octets| - 1], s[i]);
        var octets' := octets[|octets| - 1 := nw];
        DigitBegun(octets, saw, s[i], octets');
        OnlyDotted(s, i + 1, octets', true, b);
      } else {
        DotBegun(octets, octets + [0]);
        OnlyDotted(s, i + 1, octets + [0], false, b);
      }
    }
  }

  /** Four decimal octets without leading zeros, with dots between them, and nothing else. */
  lemma AcceptsQuads(s: string, start: seq<Byte>, b: seq<Byte>)
    requires start == [0]
    ensures Scan4(s, 0, start, false) == Some(b) <==> |b| == 4 && s == Dotted(b)
  {
    if Scan4(s, 0, start, false) == Some(b) {
      assert s[..0] == "" == Begun(start, false);
      OnlyDotted(s, 0, start, false, b);
    }
    if |b| == 4 && s == Dotted(b) {
      RoundTrip4(b, start);
    }
  }
}
