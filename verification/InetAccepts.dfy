/** inet_pton6 (src/inet.c:218-302) accepts all the texts of the grammar, with the value they denote. */
module InetAccepts {
  import opened Sequences
  import opened Wrappers
  import opened InetText
  import opened InetQuad
  import opened InetGrammar

  // ---------- Running the loop ----------

  /** One turn of the loop of inet_pton6 that neither fails nor ends it. */
  function Step(s: string, i: nat, p: Parse): (r: Option<Parse>)
    requires i < |s| && ParseOk(p)
    ensures r.Some? ==> ParseOk(r.value)
  {
    match XDigit(s[i])
    case Some(d) => if p.seen == 4 then None else Some(p.(val := p.val * 16 + d, seen := p.seen + 1))
    case None =>
      if s[i] != ':' then None
      else if p.seen == 0 then (if p.colon.Some? then None else Some(p.(colon := Some(|p.out|), cur := i + 1)))
      else if i + 1 == |s| || |p.out| + 2 > 16 then None
      else Some(Stored(p, i + 1))
  }

  /** From p at character i the loop comes to q at character j. */
  ghost predicate Leads(s: string, i: nat, p: Parse, j: nat, q: Parse)
    requires ParseOk(p) && i <= j <= |s|
    decreases j - i
  {
    if i == j then p == q else Step(s, i, p).Some? && Leads(s, i + 1, Step(s, i, p).value, j, q)
  }

  lemma {:induction false} LeadsOn(s: string, i: nat, p: Parse, j: nat, q: Parse, k: nat, r: Parse)
    requires ParseOk(p) && i <= j <= k <= |s| && Leads(s, i, p, j, q) && ParseOk(q) && Leads(s, j, q, k, r)
    ensures Leads(s, i, p, k, r)
    decreases j - i
  {
    if i < j {
      LeadsOn(s, i + 1, Step(s, i, p).value, j, q, k, r);
    }
  }

  lemma {:induction false} LeadsScan(s: string, i: nat, p: Parse, j: nat, q: Parse)
    requires ParseOk(p) && p.cur <= |s| && i <= j <= |s| && Leads(s, i, p, j, q)
    ensures ParseOk(q) && q.cur <= |s| && Scan6(s, i, p) == Scan6(s, j, q)
    decreases j - i
  {
    if i < j {
      LeadsScan(s, i + 1, Step(s, i, p).value, j, q);
    }
  }

  /** One turn at the end. */
  lemma LeadsStep(s: string, i: nat, p: Parse, j: nat, q: Parse)
    requires ParseOk(p) && i <= j < |s| && Leads(s, i, p, j, q) && ParseOk(q) && Step(s, j, q).Some?
    ensures Leads(s, i, p, j + 1, Step(s, j, q).value)
  {
    assert Leads(s, j + 1, Step(s, j, q).value, j + 1, Step(s, j, q).value);
    LeadsOn(s, i, p, j, q, j + 1, Step(s, j, q).value);
  }

  // ---------- Groups ----------

  /** At the start of a token. */
  predicate Fresh(p: Parse) {
    ParseOk(p) && p.seen == 0 && p.val == 0
  }

  lemma {:induction false} TokenScan(s: string, i: nat, p: Parse, t: string, j: nat, q: Parse)
    requires At(s, i, t) && AllHex(t) && |t| <= 4 && Fresh(p) && j == i + |t| && q == p.(val := Value(t), seen := |t|)
    ensures ParseOk(q) && Leads(s, i, p, j, q)
  {
    if t != "" {
      var t0, c := t[..|t| - 1], t[|t| - 1];
      var j0, q0 := i + |t0|, p.(val := Value(t0), seen := |t0|);
      assert t == t0 + [c];
      AtParts(s, i, t0, [c]);
      AtFirst(s, j0, [c]);
      TokenScan(s, i, p, t0, j0, q0);
      LeadsStep(s, i, p, j0, q0);
    }
  }

  /** A colon behind a word, and something behind the colon. */
  lemma ColonScan(s: string, i: nat, p: Parse)
    requires ParseOk(p) && p.seen > 0 && |p.out| + 2 <= 16 && i + 1 < |s| && s[i] == ':'
    ensures Leads(s, i, p, i + 1, Stored(p, i + 1))
  {
    assert XDigit(':') == None;
    LeadsStep(s, i, p, i, p);
  }

  /** The second colon of "::". */
  lemma GapScan(s: string, i: nat, p: Parse)
    requires Fresh(p) && p.colon.None? && i < |s| && s[i] == ':'
    ensures Leads(s, i, p, i + 1, p.(colon := Some(|p.out|), cur := i + 1))
  {
    assert XDigit(':') == None;
    LeadsStep(s, i, p, i, p);
  }

  /** A group and the colon behind it. */
  lemma GroupScan(s: string, i: nat, p: Parse, t: string, k: nat, q: Parse)
    requires At(s, i, t + ":") && IsGroup(t) && Fresh(p) && |p.out| + 2 <= 16 && k == i + |t| + 1 < |s|
    requires q == Parse(p.out + High(Value(t)), p.colon, 0, 0, k)
    ensures ParseOk(q) && Leads(s, i, p, k, q)
  {
    var j, p1 := i + |t|, p.(val := Value(t), seen := |t|);
    AtParts(s, i, t, ":");
    AtFirst(s, j, ":");
    TokenScan(s, i, p, t, j, p1);
    ColonScan(s, j, p1);
    LeadsOn(s, i, p, j, p1, k, q);
  }

  lemma {:induction false} ClosedScan(s: string, i: nat, p: Parse, gs: seq<string>, k: nat) returns (q: Parse)
    requires At(s, i, Closed(gs)) && AllGroups(gs) && k == i + |Closed(gs)| < |s| && Fresh(p) && |p.out| + 2 * |gs| <= 16
    ensures q == Parse(p.out + GroupBytes(gs), p.colon, 0, 0, if gs == [] then p.cur else k)
    ensures Fresh(q) && Leads(s, i, p, k, q)
  {
    if gs == [] {
      assert p.out + [] == p.out;
      q := p;
    } else {
      var before, t := gs[..|gs| - 1], gs[|gs| - 1];
      var j := i + |Closed(before)|;
      AtParts(s, i, Closed(before), t + ":");
      var q0 := ClosedScan(s, i, p, before, j);
      q := Parse(p.out + GroupBytes(gs), p.colon, 0, 0, k);
      NextGroup(s, i, p, j, q0, before, t, k, q);
    }
  }

  lemma NextGroup(s: string, i: nat, p: Parse, j: nat, q0: Parse, before: seq<string>, t: string, k: nat, q: Parse)
    requires i <= j && At(s, j, t + ":") && k == j + |t| + 1 < |s| && AllGroups(before) && IsGroup(t)
    requires Fresh(p) && Leads(s, i, p, j, q0) && Fresh(q0) && q0.out == p.out + GroupBytes(before) && |q0.out| + 2 <= 16
    requires q == Parse(p.out + (GroupBytes(before) + High(Value(t))), q0.colon, 0, 0, k)
    ensures Fresh(q) && Leads(s, i, p, k, q)
  {
    Assoc(p.out, GroupBytes(before), High(Value(t)));
    GroupScan(s, j, q0, t, k, q);
    LeadsOn(s, i, p, j, q0, k, q);
  }

  // ---------- An IPv4 address at the end ----------

  lemma {:induction false} DecHex(n: nat)
    ensures AllHex(Dec(n)) && (n < 1000 ==> |Dec(n)| <= 3)
  {
    if n >= 10 {
      DecHex(n / 10);
      assert n < 1000 && n >= 100 ==> |Dec(n / 10)| == |Dec(n / 10 / 10)| + 1 == 2;
    }
  }

  /** The loop reads the first octet as hex digits, meets the dot, and starts the token over as an IPv4 address. */
  lemma DottedScan(s: string, i: nat, p: Parse, q: seq<Byte>)
    requires |q| == 4 && At(s, i, Dotted(q)) && i + |Dotted(q)| == |s|
    requires Fresh(p) && p.cur == i && |p.out| + 4 <= 16
    ensures Scan6(s, i, p) == Finish(p.(out := p.out + q))
  {
    var d := Dec(q[0]);
    var j, p1 := i + |d|, p.(val := Value(d), seen := |d|);
    AtParts(s, i, d, "." + Dotted(q[1..]));
    AtParts(s, j, ".", Dotted(q[1..]));
    AtFirst(s, j, ".");
    DecHex(q[0]);
    TokenScan(s, i, p, d, j, p1);
    LeadsScan(s, i, p, j, p1);
    assert s[i..] == Dotted(q);
    RoundTrip4(q, [0]);
    assert XDigit('.') == None;
    assert p1.(out := p1.out + q, seen := 0, val := 0) == p.(out := p.out + q);
  }

  // ---------- A side, and the whole ----------

  lemma SideScan(s: string, i: nat, p: Parse, side: Side) returns (q: Parse)
    requires At(s, i, SideText(side)) && i + |SideText(side)| == |s| && IsSide(side)
    requires Fresh(p) && p.cur == i && |p.out| + |SideBytes(side)| <= 16
    ensures ParseOk(q) && q.colon == p.colon && Flushed(q) == p.out + SideBytes(side) && Scan6(s, i, p) == Finish(q)
  {
    if side.Nothing? {
      assert p.out + [] == p.out;
      q := p;
    } else {
      q := LastScan(s, i, p, side.closed, side.last);
      Assoc(p.out, GroupBytes(side.closed), TokenBytes(side.last));
    }
  }

  lemma LastScan(s: string, i: nat, p: Parse, closed: seq<string>, last: Token) returns (q: Parse)
    requires At(s, i, Closed(closed) + TokenText(last)) && i + |Closed(closed) + TokenText(last)| == |s|
    requires AllGroups(closed) && IsToken(last)
    requires Fresh(p) && p.cur == i && |p.out| + |GroupBytes(closed)| + |TokenBytes(last)| <= 16
    ensures ParseOk(q) && q.colon == p.colon && Scan6(s, i, p) == Finish(q)
    ensures Flushed(q) == (p.out + GroupBytes(closed)) + TokenBytes(last)
  {
    var j := i + |Closed(closed)|;
    AtParts(s, i, Closed(closed), TokenText(last));
    TokenThere(last);
    var p1 := ClosedScan(s, i, p, closed, j);
    LeadsScan(s, i, p, j, p1);
    q := LastToken(s, j, p1, last);
  }

  lemma LastToken(s: string, j: nat, p: Parse, last: Token) returns (q: Parse)
    requires At(s, j, TokenText(last)) && j + |TokenText(last)| == |s| && IsToken(last)
    requires Fresh(p) && p.cur == j && |p.out| + |TokenBytes(last)| <= 16
    ensures ParseOk(q) && q.colon == p.colon && Scan6(s, j, p) == Finish(q) && Flushed(q) == p.out + TokenBytes(last)
  {
    match last
    case Group(t) =>
      q := p.(val := Value(t), seen := |t|);
      TokenScan(s, j, p, t, |s|, q);
      LeadsScan(s, j, p, |s|, q);
    case Quad(b) =>
      q := p.(out := p.out + b);
      DottedScan(s, j, p, b);
  }

  lemma TokenThere(t: Token)
    requires IsToken(t)
    ensures TokenText(t) != "" && XDigit(TokenText(t)[0]).Some?
  {
    if t.Quad? {
      DecHex(t.q[0]);
      assert TokenText(t)[0] == Dec(t.q[0])[0];
    }
  }

  lemma {:induction false} ClosedThere(gs: seq<string>)
    requires AllGroups(gs) && gs != []
    ensures Closed(gs) != "" && XDigit(Closed(gs)[0]).Some?
  {
    if |gs| > 1 {
      ClosedThere(gs[..|gs| - 1]);
    } else {
      assert Closed(gs[..0]) == "" && Closed(gs) == "" + (gs[0] + ":");
    }
  }

  lemma WholeParses(side: Side)
    requires IsSide(side) && |SideBytes(side)| == 16
    ensures Parse6(SideText(side)) == Some(SideBytes(side))
  {
    var s := SideText(side);
    TokenThere(side.last);
    if side.closed != [] {
      ClosedThere(side.closed);
    }
    assert At(s, 0, s) && XDigit(':') == None;
    var q := SideScan(s, 0, Parse([], None, 0, 0, 0), side);
    assert [] + SideBytes(side) == SideBytes(side);
    FinishIs(q);
  }

  /** From "::" on. */
  lemma GapParses(s: string, i: nat, p: Parse, j: nat, right: Side, out: seq<Byte>)
    requires j == i + 1 <= |s| && s[i] == ':' && At(s, j, SideText(right)) && j + |SideText(right)| == |s| && IsSide(right)
    requires Fresh(p) && p.colon.None? && p.cur <= |s| && out == p.out + SideBytes(right) && |out| < 16
    ensures Scan6(s, i, p) == Some(Widened(out, |p.out|))
  {
    var p1 := p.(colon := Some(|p.out|), cur := j);
    GapScan(s, i, p);
    LeadsScan(s, i, p, j, p1);
    var q := SideScan(s, j, p1, right);
    FinishIs(q);
  }

  /** The loop comes to the second colon of "::". */
  lemma LeftScan(s: string, left: seq<string>, j: nat) returns (i: nat, p: Parse)
    requires left != [] && AllGroups(left) && At(s, 0, Front(left)) && |left| <= 7 && j == |Front(left)|
    ensures Fresh(p) && p.colon.None? && p.cur <= |s| && p.out == GroupBytes(left)
    ensures j == i + 1 <= |s| && s[i] == ':' && Parse6(s) == Scan6(s, i, p)
  {
    i := |Closed(left)|;
    var c, start := Closed(left), Parse([], None, 0, 0, 0);
    AtParts(s, 0, c, ":");
    AtFirst(s, |c|, ":");
    ClosedThere(left);
    AtFirst(s, 0, c);
    assert XDigit(':') == None;
    p := ClosedScan(s, 0, start, left, i);
    LeadsScan(s, 0, start, i, p);
    assert [] + GroupBytes(left) == GroupBytes(left);
  }

  lemma LeftGapParses(s: string, left: seq<string>, front: string, right: Side, out: seq<Byte>)
    requires left != [] && AllGroups(left) && IsSide(right) && front == Front(left) && s == front + SideText(right)
    requires out == GroupBytes(left) + SideBytes(right) && |out| < 16
    ensures Parse6(s) == Some(Widened(out, |GroupBytes(left)|))
  {
    var j := |front|;
    BothThere(s, front, SideText(right), j);
    var i, p := LeftScan(s, left, j);
    GapParses(s, i, p, j, right, out);
  }

  lemma BothThere(s: string, a: string, b: string, j: nat)
    requires s == a + b && j == |a|
    ensures At(s, 0, a) && At(s, j, b) && j + |b| == |s|
  {
    assert At(s, 0, s);
    AtParts(s, 0, a, b);
  }

  lemma FirstGapParses(s: string, front: string, right: Side, out: seq<Byte>)
    requires s == front + SideText(right) && |front| == 2 && front[0] == ':' && front[1] == ':'
    requires IsSide(right) && out == SideBytes(right) && |out| < 16
    ensures Parse6(s) == Some(Widened(out, 0))
  {
    var p := Parse([], None, 0, 0, 1);
    assert p.out + out == out;
    BothThere(s, front, SideText(right), 2);
    assert s[0] == ':' && s[1] == ':';
    GapParses(s, 1, p, 2, right, out);
  }

  lemma GappedParses(f: Form)
    requires WellFormed(f) && f.Gapped?
    ensures Parse6(Written(f)) == Some(FormBytes(f))
  {
    if f.left == [] {
      FirstGapParses(Written(f), Front(f.left), f.right, SideBytes(f.right));
      assert GroupBytes(f.left) + SideBytes(f.right) == SideBytes(f.right);
    } else {
      LeftGapParses(Written(f), f.left, Front(f.left), f.right, GroupBytes(f.left) + SideBytes(f.right));
    }
  }

  /** inet_pton6 accepts exactly the addresses of the grammar, and stores what they denote. */
  lemma AcceptsAddresses(s: string, b: seq<Byte>)
    ensures Parse6(s) == Some(b) <==> Denotes(s, b)
  {
    if Parse6(s) == Some(b) {
      OnlyAddresses(s, b);
    }
    if Denotes(s, b) {
      var f: Form :| IsForm(f, s, b);
      match f
      case Whole(side) => WholeParses(side);
      case Gapped(_, _) => GappedParses(f);
    }
  }
}
