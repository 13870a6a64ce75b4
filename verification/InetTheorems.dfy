/** What inet_ntop6 (src/inet.c:67-147) prints is an address of section 2.2 of RFC 4291 with the bytes it was given, so
    that inet_pton6 undoes it. */
module InetTheorems {
  import opened Sequences
  import opened Wrappers
  import opened InetText
  import opened InetQuad
  import opened InetGrammar
  import opened InetAccepts

  /** r is a stretch of zero words that can be printed as "::". */
  ghost predicate Zeroed(ws: seq<nat>, r: Run)
    requires |ws| == 8
  {
    RunFits(r) && (r.base != -1 ==> ZeroRun(ws, r.base, r.len))
  }

  // ---------- Words ----------

  lemma {:induction false} BytesOfWords(b: seq<Byte>)
    requires |b| % 2 == 0
    ensures BytesOf(WordsOf(b)) == b
    decreases |b|
  {
    if |b| >= 2 {
      BytesOfWords(b[2..]);
      assert b == [b[0], b[1]] + b[2..];
    }
  }

  lemma TailJoin<T>(a: seq<T>, c: seq<T>)
    requires a != []
    ensures (a + c)[1..] == a[1..] + c && (a + c)[0] == a[0]
  {
  }

  lemma {:induction false} BytesJoin(a: seq<nat>, c: seq<nat>)
    requires forall i :: 0 <= i < |a + c| ==> (a + c)[i] < 0x10000
    ensures (forall i :: 0 <= i < |a| ==> a[i] < 0x10000) && (forall i :: 0 <= i < |c| ==> c[i] < 0x10000)
    ensures BytesOf(a + c) == BytesOf(a) + BytesOf(c)
  {
    assert forall i :: 0 <= i < |a| ==> a[i] == (a + c)[i];
    assert forall i :: 0 <= i < |c| ==> c[i] == (a + c)[|a| + i];
    if a == [] {
      assert a + c == c;
    } else {
      TailJoin(a, c);
      BytesJoin(a[1..], c);
      Assoc(High(a[0]), BytesOf(a[1..]), BytesOf(c));
    }
  }

  lemma {:induction false} BytesOfZeros(a: seq<nat>)
    requires forall i :: 0 <= i < |a| ==> a[i] == 0
    ensures BytesOf(a) == Zeros(2 * |a|)
  {
    if a != [] {
      BytesOfZeros(a[1..]);
      assert Zeros(2 * |a|) == [0, 0] + Zeros(2 * |a[1..]|);
    }
  }

  predicate AllWords(ws: seq<nat>) {
    forall k :: 0 <= k < |ws| ==> ws[k] < 0x10000
  }

  lemma Cut<T>(a: seq<T>, c: seq<T>)
    ensures (a + c)[..|a|] == a && (a + c)[|a|..] == c
  {
  }

  lemma Thirds(ws: seq<nat>, pre: seq<nat>, mid: seq<nat>, post: seq<nat>)
    requires AllWords(ws) && ws == pre + (mid + post) && forall k :: 0 <= k < |mid| ==> mid[k] == 0
    ensures AllWords(pre) && AllWords(post) && BytesOf(ws) == BytesOf(pre) + (Zeros(2 * |mid|) + BytesOf(post))
  {
    BytesJoin(pre, mid + post);
    BytesJoin(mid, post);
    BytesOfZeros(mid);
  }

  lemma WidenedIs(a: seq<Byte>, c: seq<Byte>, n: nat)
    requires |a| + n + |c| == 16
    ensures Widened(a + c, |a|) == a + (Zeros(n) + c)
  {
    Cut(a, c);
  }

  /** An address with words of zeros in the middle. */
  lemma Reassembled(b: seq<Byte>, pre: seq<nat>, mid: seq<nat>, post: seq<nat>)
    requires |b| == 16 && WordsOf(b) == pre + (mid + post) && forall k :: 0 <= k < |mid| ==> mid[k] == 0
    ensures AllWords(pre) && AllWords(post) && |pre| + |post| <= 8 && Widened(BytesOf(pre) + BytesOf(post), 2 * |pre|) == b
  {
    BytesOfWords(b);
    Thirds(WordsOf(b), pre, mid, post);
    WidenedIs(BytesOf(pre), BytesOf(post), 2 * |mid|);
  }

  lemma Divided(ws: seq<nat>, r: Run) returns (pre: seq<nat>, mid: seq<nat>, post: seq<nat>)
    requires |ws| == 8 && r.base != -1 && Zeroed(ws, r)
    ensures pre == ws[..r.base] && post == ws[r.base + r.len..] && ws == pre + (mid + post)
    ensures |mid| == r.len && forall k :: 0 <= k < |mid| ==> mid[k] == 0
  {
    var e := r.base + r.len;
    pre, mid, post := ws[..r.base], ws[r.base..e], ws[e..];
  }

  lemma LastWords(b: seq<Byte>)
    requires |b| == 16
    ensures AllWords(WordsOf(b)[6..]) && BytesOf(WordsOf(b)[6..]) == b[12..]
  {
    var ws := WordsOf(b);
    BytesOfWords(b);
    assert ws == ws[..6] + ws[6..];
    BytesJoin(ws[..6], ws[6..]);
    Cut(BytesOf(ws[..6]), BytesOf(ws[6..]));
  }

  /** Groups with a colon before each. */
  function Rest(ws: seq<nat>): string {
    if ws == [] then "" else ":" + Hex(ws[0]) + Rest(ws[1..])
  }

  /** Groups with colons between them. */
  function Join(ws: seq<nat>): string {
    if ws == [] then "" else Hex(ws[0]) + Rest(ws[1..])
  }

  // ---------- The text, by parts ----------

  /** No more words are left out or embedded from i on. */
  predicate PlainFrom(b: seq<Byte>, r: Run, i: nat)
    requires |b| == 16
  {
    (r.base == -1 || i >= r.base + r.len) && !(i <= 6 && Embeds(WordsOf(b), r, 6))
  }

  lemma {:induction false} GroupsPlain(b: seq<Byte>, r: Run, i: nat)
    requires |b| == 16 && RunFits(r) && 0 < i <= 8 && PlainFrom(b, r, i)
    ensures Groups(b, r, i) == Rest(WordsOf(b)[i..])
    decreases 8 - i
  {
    if i < 8 {
      GroupsPlain(b, r, i + 1);
      GroupFirst(b, r, i);
      RestFirst(WordsOf(b), i);
    }
  }

  lemma GroupFirst(b: seq<Byte>, r: Run, i: nat)
    requires |b| == 16 && 0 < i < 8 && !InRun(r, i) && !Embeds(WordsOf(b), r, i)
    ensures Groups(b, r, i) == ":" + (Hex(WordsOf(b)[i]) + Groups(b, r, i + 1))
  {
  }

  lemma RestFirst(ws: seq<nat>, i: nat)
    requires i < |ws|
    ensures Rest(ws[i..]) == ":" + (Hex(ws[i]) + Rest(ws[i + 1..]))
  {
    var rest := ws[i..];
    assert rest[0] == ws[i] && rest[1..] == ws[i + 1..];
    Assoc(":", Hex(ws[i]), Rest(ws[i + 1..]));
  }

  lemma {:induction false} GroupsSkip(b: seq<Byte>, r: Run, i: nat, e: nat)
    requires |b| == 16 && RunFits(r) && r.base != -1 && r.base < i <= e && e == r.base + r.len
    ensures Groups(b, r, i) == Groups(b, r, e)
    decreases e - i
  {
    if i < e {
      Skipped(b, r, i);
      GroupsSkip(b, r, i + 1, e);
    }
  }

  lemma Skipped(b: seq<Byte>, r: Run, i: nat)
    requires |b| == 16 && i < 8 && InRun(r, i) && i != r.base
    ensures Groups(b, r, i) == Groups(b, r, i + 1)
  {
    assert "" + Groups(b, r, i + 1) == Groups(b, r, i + 1);
  }

  /** The whole stretch prints one colon. */
  lemma GapSkip(b: seq<Byte>, r: Run, i: nat, e: nat)
    requires |b| == 16 && RunFits(r) && r.base == i && e == r.base + r.len
    ensures Groups(b, r, i) == ":" + Groups(b, r, e)
  {
    GroupsSkip(b, r, i + 1, e);
  }

  lemma RestMore(ws: seq<nat>, i: nat, e: nat, t: string)
    requires i < e <= |ws|
    ensures Rest(ws[i..e]) + t == ":" + (Hex(ws[i]) + (Rest(ws[i + 1..e]) + t))
  {
    var rest := ws[i..e];
    assert rest[0] == ws[i] && rest[1..] == ws[i + 1..e];
    Assoc(":" + Hex(ws[i]), Rest(ws[i + 1..e]), t);
    Assoc(":", Hex(ws[i]), Rest(ws[i + 1..e]) + t);
  }

  lemma {:induction false} GroupsBefore(b: seq<Byte>, r: Run, i: nat, m: nat, t: string)
    requires |b| == 16 && RunFits(r) && 0 < i <= m && r.base == m && t == ":" + Groups(b, r, r.base + r.len)
    ensures Groups(b, r, i) == Rest(WordsOf(b)[i..m]) + t
    decreases m - i
  {
    if i == m {
      GapSkip(b, r, i, r.base + r.len);
      assert Rest(WordsOf(b)[i..m]) == "" && "" + t == t;
    } else {
      GroupsBefore(b, r, i + 1, m, t);
      GroupFirst(b, r, i);
      RestMore(WordsOf(b), i, m, t);
    }
  }

  /** The end of the text behind a stretch of zeros: the second colon, and the rest. */
  function Tail(ws: seq<nat>): string {
    ":" + Join(ws)
  }

  lemma NoMore(t: string)
    ensures t + "" == t
  {
  }

  lemma RestIsTail(ws: seq<nat>)
    ensures Rest(ws) + (if ws == [] then ":" else "") == Tail(ws)
  {
    if ws == [] {
      assert "" + ":" == ":" + "";
    } else {
      Assoc(":", Hex(ws[0]), Rest(ws[1..]));
      NoMore(Rest(ws));
    }
  }

  /** No "::". */
  lemma TextPlain(b: seq<Byte>, r: Run)
    requires |b| == 16 && r.base == -1
    ensures Text6(b, r) == Join(WordsOf(b))
  {
    GroupsPlain(b, r, 1);
    assert Groups(b, r, 0) == Hex(WordsOf(b)[0]) + Groups(b, r, 1);
  }

  /** "::" behind at least one group. */
  lemma TextInside(b: seq<Byte>, r: Run)
    requires |b| == 16 && RunFits(r) && r.base > 0
    ensures Text6(b, r) == Join(WordsOf(b)[..r.base]) + (":" + Tail(WordsOf(b)[r.base + r.len..]))
  {
    var ws, m, e := WordsOf(b), r.base, r.base + r.len;
    FirstGroup(b, r, m, ":" + Groups(b, r, e));
    GroupsPlain(b, r, e);
    InsideWords(Text6(b, r), Groups(b, r, 0), ws, ws[..m], ws[e..]);
  }

  lemma FirstGroup(b: seq<Byte>, r: Run, m: nat, t: string)
    requires |b| == 16 && RunFits(r) && r.base == m > 0 && t == ":" + Groups(b, r, r.base + r.len)
    ensures Groups(b, r, 0) == Hex(WordsOf(b)[0]) + (Rest(WordsOf(b)[1..m]) + t)
  {
    GroupsBefore(b, r, 1, m, t);
    assert "" + (Hex(WordsOf(b)[0]) + Groups(b, r, 1)) == Hex(WordsOf(b)[0]) + Groups(b, r, 1);
  }

  lemma InsideWords(s: string, g: string, ws: seq<nat>, pre: seq<nat>, post: seq<nat>)
    requires pre != [] && pre <= ws && g == Hex(ws[0]) + (Rest(ws[1..|pre|]) + (":" + Rest(post)))
    requires s == g + if post == [] then ":" else ""
    ensures s == Join(pre) + (":" + Tail(post))
  {
    assert pre[0] == ws[0] && pre[1..] == ws[1..|pre|];
    RestIsTail(post);
    InsideText(g, Hex(ws[0]), Rest(pre[1..]), Rest(post), if post == [] then ":" else "");
  }

  lemma InsideText(s: string, h: string, rest: string, post: string, end: string)
    requires s == h + (rest + (":" + post))
    ensures s + end == (h + rest) + (":" + (post + end))
  {
    Assoc(h, rest, ":" + post);
    Assoc(h + rest, ":" + post, end);
    Assoc(":", post, end);
  }

  /** A stretch at the start that does not reach the end. */
  lemma TextFromGap(b: seq<Byte>, r: Run, e: nat)
    requires |b| == 16 && RunFits(r) && r.base == 0 && e == r.len < 8
    ensures Text6(b, r) == ":" + Groups(b, r, e)
  {
    GapSkip(b, r, 0, e);
    NoMore(Groups(b, r, 0));
  }

  /** "::" at the start and no IPv4 address: unless six words are zero, or five and the next one is ffff. */
  lemma TextAtStart(b: seq<Byte>, r: Run)
    requires |b| == 16 && RunFits(r) && r.base == 0 && r.len != 6 && !(r.len == 5 && WordsOf(b)[5] == 0xffff)
    ensures Text6(b, r) == "::" + Join(WordsOf(b)[r.len..])
  {
    StartText(b, r);
    ColonsApart(WordsOf(b)[r.len..], ":", "::");
  }

  lemma ColonsApart(ws: seq<nat>, colon: string, both: string)
    requires colon == ":" && both == "::"
    ensures colon + Tail(ws) == both + Join(ws)
  {
    Assoc(colon, colon, Join(ws));
  }

  lemma StartText(b: seq<Byte>, r: Run)
    requires |b| == 16 && RunFits(r) && r.base == 0 && PlainFrom(b, r, r.len)
    ensures Text6(b, r) == ":" + Tail(WordsOf(b)[r.len..])
  {
    var ws := WordsOf(b);
    GapSkip(b, r, 0, r.len);
    GroupsPlain(b, r, r.len);
    RestIsTail(ws[r.len..]);
    Assoc(":", Rest(ws[r.len..]), if r.len == 8 then ":" else "");
  }

  /** "::" and an IPv4 address. */
  lemma TextCompatible(b: seq<Byte>, r: Run)
    requires |b| == 16 && r == Run(0, 6)
    ensures Text6(b, r) == "::" + Dotted(b[12..])
  {
    TextFromGap(b, r, r.len);
    QuadLast(b, r, r.len);
    Assoc(":", ":", Dotted(b[12..]));
  }

  /** "::ffff:" and an IPv4 address. */
  lemma TextMapped(b: seq<Byte>, r: Run)
    requires |b| == 16 && r == Run(0, 5) && WordsOf(b)[5] == 0xffff
    ensures Text6(b, r) == "::" + (Hex(WordsOf(b)[5]) + (":" + Dotted(b[12..])))
  {
    GroupAndQuad(b, r, r.len, r.len + 1);
  }

  lemma GroupAndQuad(b: seq<Byte>, r: Run, e: nat, i: nat)
    requires |b| == 16 && RunFits(r) && r.base == 0 && e == r.len && i == e + 1 && !Embeds(WordsOf(b), r, e) && Embeds(WordsOf(b), r, i)
    ensures Text6(b, r) == "::" + (Hex(WordsOf(b)[e]) + (":" + Dotted(b[12..])))
  {
    TextFromGap(b, r, e);
    GroupFirst(b, r, e);
    QuadLast(b, r, i);
    Colons(Text6(b, r), Groups(b, r, e), Groups(b, r, i), Hex(WordsOf(b)[e]), Dotted(b[12..]));
  }

  lemma Colons(s: string, g: string, g': string, t: string, d: string)
    requires s == ":" + g && g == ":" + (t + g') && g' == ":" + d
    ensures s == "::" + (t + (":" + d))
  {
  }

  lemma QuadLast(b: seq<Byte>, r: Run, i: nat)
    requires |b| == 16 && 0 < i < 8 && !InRun(r, i) && Embeds(WordsOf(b), r, i)
    ensures Groups(b, r, i) == ":" + Dotted(b[12..])
  {
  }

  // ---------- The text as a form of the grammar ----------

  lemma {:induction false} HexValue(n: nat)
    ensures AllHex(Hex(n)) && Value(Hex(n)) == n
  {
    var d := HexDigit(n % 16);
    assert XDigit(d) == Some(n % 16);
    if n < 16 {
      assert Hex(n)[..0] == "";
    } else {
      HexValue(n / 16);
      ValueMore(Hex(n / 16), d);
    }
  }

  predicate LowerHex(c: char) {
    '0' <= c <= '9' || 'a' <= c <= 'f'
  }

  /** Groups are printed in lower case and without leading zeros (sections 4.1 and 4.3 of RFC 5952). */
  lemma {:induction false} HexIsCanonical(n: nat)
    ensures Value(Hex(n)) == n && (forall i :: 0 <= i < |Hex(n)| ==> LowerHex(Hex(n)[i])) && (n > 0 ==> Hex(n)[0] != '0')
    ensures n == 0 ==> Hex(n) == "0"
  {
    HexValue(n);
    if n >= 16 {
      HexIsCanonical(n / 16);
    }
  }

  lemma HexLength(n: nat)
    requires n < 0x10000
    ensures |Hex(n)| <= 4
  {
    assert n >= 16 ==> |Hex(n)| == |Hex(n / 16)| + 1;
    assert n >= 0x100 ==> |Hex(n / 16)| == |Hex(n / 16 / 16)| + 1;
    assert n >= 0x1000 ==> |Hex(n / 16 / 16)| == |Hex(n / 16 / 16 / 16)| + 1;
  }

  function Hexes(ws: seq<nat>): (gs: seq<string>)
    ensures |gs| == |ws|
  {
    if ws == [] then [] else Hexes(ws[..|ws| - 1]) + [Hex(ws[|ws| - 1])]
  }

  lemma {:induction false} HexGroups(ws: seq<nat>)
    requires AllWords(ws)
    ensures AllGroups(Hexes(ws)) && GroupBytes(Hexes(ws)) == BytesOf(ws)
  {
    if ws != [] {
      var before, w := ws[..|ws| - 1], ws[|ws| - 1];
      HexGroups(before);
      HexValue(w);
      HexLength(w);
      GroupBytesMore(Hexes(before), Hex(w));
      assert ws == before + [w];
      BytesJoin(before, [w]);
      assert BytesOf([w]) == High(w) + [];
    }
  }

  /** The words as groups, if there are any. */
  function Words(ws: seq<nat>): Side {
    if ws == [] then Nothing else Side(Hexes(ws[..|ws| - 1]), Group(Hex(ws[|ws| - 1])))
  }

  lemma WordsBytes(ws: seq<nat>)
    requires AllWords(ws)
    ensures IsSide(Words(ws)) && SideBytes(Words(ws)) == BytesOf(ws)
  {
    HexGroups(ws);
    if ws != [] {
      HexGroups(ws[..|ws| - 1]);
      HexValue(ws[|ws| - 1]);
      HexLength(ws[|ws| - 1]);
    }
  }

  lemma JoinMore(ws: seq<nat>, w: nat)
    ensures ws != [] ==> Join(ws + [w]) == Join(ws) + (":" + Hex(w))
    ensures ws == [] ==> Join(ws + [w]) == Hex(w)
  {
    if ws != [] {
      assert (ws + [w])[0] == ws[0] && (ws + [w])[1..] == ws[1..] + [w];
      RestJoins(ws[1..], w);
      Assoc(Hex(ws[0]), Rest(ws[1..]), ":" + Hex(w));
    } else {
      assert (ws + [w])[1..] == [] && Hex(w) + "" == Hex(w);
    }
  }

  lemma {:induction false} RestJoins(ws: seq<nat>, w: nat)
    ensures Rest(ws + [w]) == Rest(ws) + (":" + Hex(w))
  {
    if ws == [] {
      assert (ws + [w])[1..] == [] && (":" + Hex(w)) + "" == ":" + Hex(w) == "" + (":" + Hex(w));
    } else {
      assert (ws + [w])[0] == ws[0] && (ws + [w])[1..] == ws[1..] + [w];
      RestJoins(ws[1..], w);
      Assoc(":" + Hex(ws[0]), Rest(ws[1..]), ":" + Hex(w));
    }
  }

  /** Closed groups are joined ones with a last colon. */
  lemma {:induction false} ClosedJoin(ws: seq<nat>)
    requires ws != []
    ensures Closed(Hexes(ws)) == Join(ws) + ":"
  {
    var before, w := ws[..|ws| - 1], ws[|ws| - 1];
    assert ws == before + [w];
    ClosedMore(Hexes(before), Hex(w));
    JoinMore(before, w);
    if before != [] {
      ClosedJoin(before);
      Assoc(Join(before), ":", Hex(w) + ":");
      Assoc(":", Hex(w), ":");
      Assoc(Join(before), ":" + Hex(w), ":");
    } else {
      assert "" + (Hex(w) + ":") == Hex(w) + ":";
    }
  }

  lemma WordsText(ws: seq<nat>)
    ensures SideText(Words(ws)) == Join(ws)
  {
    if ws != [] {
      var before, w := ws[..|ws| - 1], ws[|ws| - 1];
      assert ws == before + [w];
      JoinMore(before, w);
      LastWord(before, Hex(w), ":");
    }
  }

  lemma LastWord(before: seq<nat>, h: string, colon: string)
    requires colon == ":"
    ensures Closed(Hexes(before)) + h == if before == [] then h else Join(before) + (colon + h)
  {
    if before == [] {
      NothingBefore(Closed(Hexes(before)), h);
    } else {
      ClosedJoin(before);
      Assoc(Join(before), colon, h);
    }
  }

  lemma NothingBefore(t: string, h: string)
    requires t == []
    ensures t + h == h
  {
  }

  lemma WordsDenote(s: string, b: seq<Byte>)
    requires |b| == 16 && s == Join(WordsOf(b))
    ensures Denotes(s, b)
  {
    var f := Whole(Words(WordsOf(b)));
    WordsText(WordsOf(b));
    WordsBytes(WordsOf(b));
    BytesOfWords(b);
    assert IsForm(f, s, b);
  }

  lemma GapBytes(b: seq<Byte>, r: Run, left: seq<string>, right: Side)
    requires |b| == 16 && r.base != -1 && Zeroed(WordsOf(b), r)
    requires left == Hexes(WordsOf(b)[..r.base]) && right == Words(WordsOf(b)[r.base + r.len..])
    ensures WellFormed(Gapped(left, right)) && FormBytes(Gapped(left, right)) == b
  {
    var pre, mid, post := Divided(WordsOf(b), r);
    Reassembled(b, pre, mid, post);
    HexGroups(pre);
    WordsBytes(post);
  }

  lemma GapWritten(pre: seq<nat>, post: seq<nat>)
    requires pre != []
    ensures Front(Hexes(pre)) + SideText(Words(post)) == Join(pre) + (":" + Tail(post))
  {
    ClosedJoin(pre);
    WordsText(post);
    GapText(Join(pre), Join(post));
  }

  lemma GapText(pre: string, post: string)
    ensures ((pre + ":") + ":") + post == pre + (":" + (":" + post))
  {
    Assoc(pre + ":", ":", post);
    Assoc(pre, ":", ":" + post);
  }

  lemma FirstGapWritten(post: seq<nat>, none: seq<string>)
    requires none == []
    ensures Front(none) + SideText(Words(post)) == ":" + Tail(post)
  {
    WordsText(post);
    Assoc(":", ":", Join(post));
    assert "" + "::" == "::" == ":" + ":";
  }

  /** Words, "::" and words. */
  lemma GapDenotes(s: string, b: seq<Byte>, r: Run, pre: seq<nat>, post: seq<nat>)
    requires |b| == 16 && r.base != -1 && Zeroed(WordsOf(b), r) && pre == WordsOf(b)[..r.base] && post == WordsOf(b)[r.base + r.len..]
    requires s == (if pre == [] then ":" + Tail(post) else Join(pre) + (":" + Tail(post)))
    ensures Denotes(s, b)
  {
    var left, right := Hexes(pre), Words(post);
    GapBytes(b, r, left, right);
    if pre == [] {
      FirstGapWritten(post, left);
    } else {
      GapWritten(pre, post);
    }
    assert IsForm(Gapped(left, right), s, b);
  }

  lemma GappedDenotes(s: string, b: seq<Byte>, left: seq<string>, right: Side, out: seq<Byte>)
    requires AllGroups(left) && IsSide(right) && s == Front(left) + SideText(right)
    requires out == GroupBytes(left) + SideBytes(right) && |out| < 16 && b == Widened(out, |GroupBytes(left)|)
    ensures Denotes(s, b)
  {
    assert IsForm(Gapped(left, right), s, b);
  }

  lemma FrontIs(none: seq<string>)
    requires none == []
    ensures Front(none) == "::" && Closed(none) == "" && GroupBytes(none) == []
  {
  }

  /** "::", groups and an IPv4 address, whose text is d. */
  lemma QuadDenotes(s: string, b: seq<Byte>, none: seq<string>, gs: seq<string>, last: Token, out: seq<Byte>)
    requires none == [] && AllGroups(gs) && |gs| <= 5 && last.Quad? && IsToken(last)
    requires s == "::" + (Closed(gs) + TokenText(last)) && out == GroupBytes(gs) + TokenBytes(last) && b == Widened(out, 0)
    ensures Denotes(s, b)
  {
    FrontIs(none);
    assert GroupBytes(none) + out == out;
    GappedDenotes(s, b, none, Side(gs, last), out);
  }

  lemma CompatibleDenotes(s: string, b: seq<Byte>, r: Run, none: seq<string>, last: Token)
    requires |b| == 16 && r == Run(0, 6) && Zeroed(WordsOf(b), r) && none == [] && last == Quad(b[12..]) && s == "::" + TokenText(last)
    ensures Denotes(s, b)
  {
    FrontIs(none);
    var none', zeros, mid, post := FirstZeros(b, r.len);
    FewWords(b, none', zeros, mid, post);
    assert "" + TokenText(last) == TokenText(last);
    QuadDenotes(s, b, none, none, last, b[12..]);
  }

  /** Zeros, other words, and the last four bytes. */
  lemma FewWords(b: seq<Byte>, none: seq<nat>, zeros: seq<nat>, mid: seq<nat>, last: seq<nat>)
    requires |b| == 16 && none == [] && WordsOf(b) == none + (zeros + (mid + last)) && last == WordsOf(b)[6..]
    requires |zeros| >= 2 && forall k :: 0 <= k < |zeros| ==> zeros[k] == 0
    ensures AllWords(mid) && b == Widened(BytesOf(mid) + b[12..], 0)
  {
    LastWords(b);
    Reassembled(b, none, zeros, mid + last);
    BytesJoin(mid, last);
    assert BytesOf(none) + BytesOf(mid + last) == BytesOf(mid + last);
  }

  /** The words of an address whose first n are zero. */
  lemma FirstZeros(b: seq<Byte>, n: nat) returns (none: seq<nat>, zeros: seq<nat>, mid: seq<nat>, last: seq<nat>)
    requires |b| == 16 && n <= 6 && ZeroRun(WordsOf(b), 0, n)
    ensures none == [] && WordsOf(b) == none + (zeros + (mid + last)) && last == WordsOf(b)[6..] && mid == WordsOf(b)[n..6]
    ensures |zeros| == n && forall k :: 0 <= k < |zeros| ==> zeros[k] == 0
  {
    var ws := WordsOf(b);
    none, zeros, mid, last := [], ws[..n], ws[n..6], ws[6..];
  }

  lemma MappedDenotes(s: string, b: seq<Byte>, r: Run, none: seq<string>, t: string, last: Token)
    requires |b| == 16 && r == Run(0, 5) && Zeroed(WordsOf(b), r) && WordsOf(b)[5] == 0xffff && none == []
    requires t == Hex(WordsOf(b)[5]) && last == Quad(b[12..]) && s == "::" + (t + (":" + TokenText(last)))
    ensures Denotes(s, b)
  {
    var gs, w := none + [t], WordsOf(b)[5];
    var none', zeros, mid, post := FirstZeros(b, r.len);
    HexValue(w);
    HexLength(w);
    FrontIs(none);
    ClosedMore(none, t);
    GroupBytesMore(none, t);
    FewWords(b, none', zeros, mid, post);
    OneWord(mid);
    Assoc(t, ":", TokenText(last));
    assert "" + (t + ":") == t + ":" && GroupBytes(gs) == BytesOf(mid);
    QuadDenotes(s, b, none, gs, last, BytesOf(mid) + b[12..]);
  }

  lemma OneWord(mid: seq<nat>)
    requires |mid| == 1 && AllWords(mid)
    ensures BytesOf(mid) == High(mid[0])
  {
    assert mid[1..] == [];
  }

  /** What is printed is an address of the grammar, and denotes the bytes, whichever stretch of zeros is "::". */
  lemma PrintedDenotes(b: seq<Byte>, r: Run)
    requires |b| == 16 && Zeroed(WordsOf(b), r)
    ensures Denotes(Text6(b, r), b)
  {
    if r.base == -1 {
      TextPlain(b, r);
      WordsDenote(Text6(b, r), b);
    } else if r == Run(0, 6) {
      TextCompatible(b, r);
      CompatibleDenotes(Text6(b, r), b, r, [], Quad(b[12..]));
    } else if r == Run(0, 5) && WordsOf(b)[5] == 0xffff {
      TextMapped(b, r);
      MappedDenotes(Text6(b, r), b, r, [], Hex(WordsOf(b)[5]), Quad(b[12..]));
    } else {
      GapPrinted(b, r);
    }
  }

  lemma GapPrinted(b: seq<Byte>, r: Run)
    requires |b| == 16 && r.base != -1 && Zeroed(WordsOf(b), r) && (r.base == 0 ==> PlainFrom(b, r, r.len))
    ensures Denotes(Text6(b, r), b)
  {
    if r.base > 0 {
      TextInside(b, r);
    } else {
      StartText(b, r);
    }
    GapDenotes(Text6(b, r), b, r, WordsOf(b)[..r.base], WordsOf(b)[r.base + r.len..]);
  }

  /** Printing an address and parsing the text gives the address. */
  lemma RoundTrip6(b: seq<Byte>, r: Run)
    requires |b| == 16 && Zeroed(WordsOf(b), r)
    ensures Parse6(Text6(b, r)) == Some(b)
  {
    PrintedDenotes(b, r);
    AcceptsAddresses(Text6(b, r), b);
  }

  /** The length 7 at src/inet.c:130 is never met there: word 6 is then inside the stretch. */
  lemma SevenIsInside(r: Run)
    requires r.base == 0 && r.len == 7
    ensures InRun(r, 6)
  {
  }
}
