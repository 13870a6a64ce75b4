/** The printers and parsers of src/inet.c, on the buffers they fill. */
module Inet {
  import opened Sequences
  import opened Wrappers
  import opened InetText
  import opened InetQuad
  import opened InetGrammar
  import opened InetAccepts
  import opened InetTheorems

  const UV_EINVAL: int := -22
  const UV_ENOSPC: int := -28
  const UV_E2BIG: int := -7

  const INET6_ADDRSTRLEN: nat := 46

  /** The character at i of a C string. */
  function CharAt(s: string, i: nat): char {
    if i < |s| then s[i] else '\0'
  }

  /** uv__strscpy (src/strscpy.c) of the C string s to dst + at.  A zero size copies nothing and is no error. */
  method Strscpy(dst: array<char>, at: nat, s: string, n: nat) returns (r: int)
    requires at + n <= dst.Length && '\0' !in s
    modifies dst
    ensures dst[..at] == old(dst[..at])
    ensures n > |s| ==> r == |s| && dst[at..at + |s|] == s && dst[at + |s|] == '\0'
    ensures 0 < n <= |s| ==> r == UV_E2BIG && dst[at..at + n - 1] == s[..n - 1] && dst[at + n - 1] == '\0'
    ensures n == 0 ==> r == 0 && dst[..] == old(dst[..])
  {
    var i := 0;
    while i < n
      invariant 0 <= i <= n && i <= |s| && dst[..at] == old(dst[..at]) && dst[at..at + i] == s[..i]
      invariant i == 0 ==> dst[..] == old(dst[..])
    {
      var c := CharAt(s, i);
      assert i < |s| ==> c in s;
      dst[at + i] := c;
      if c == '\0' {
        return i;
      }
      assert dst[at..at + i + 1] == dst[at..at + i] + [c];
      i := i + 1;
    }
    if i == 0 {
      return 0;
    }
    i := i - 1;
    assert s[..n - 1] == s[..n][..n - 1] && dst[at..at + n - 1] == dst[at..at + n][..n - 1];
    dst[at + i] := '\0';
    r := UV_E2BIG;
  }

  /** Neither the terminator nor the sign before a zone. */
  predicate Clean(s: string) {
    '\0' !in s && '%' !in s
  }

  lemma {:induction false} DecPrints(n: nat)
    ensures Clean(Dec(n))
  {
    if n >= 10 {
      DecPrints(n / 10);
    }
  }

  lemma {:induction false} DottedPrints(b: seq<Byte>)
    ensures Clean(Dotted(b)) && |Dotted(b)| <= 4 * |b| && (b != [] ==> |Dotted(b)| < 4 * |b|)
  {
    if b != [] {
      DecPrints(b[0]);
      DecHex(b[0]);
      DottedPrints(b[1..]);
    }
  }

  /** inet_ntop4, to dst + at.  Sixteen characters are room enough for any address. */
  method Ntop4(src: seq<Byte>, dst: array<char>, at: nat, size: nat) returns (rc: int)
    requires |src| == 4 && at + size <= dst.Length
    modifies dst
    ensures rc == (if |Dotted(src)| < size then 0 else UV_ENOSPC) && |Dotted(src)| <= 15
    ensures dst[..at] == old(dst[..at])
    ensures rc == 0 ==> dst[at..at + |Dotted(src)|] == Dotted(src) && dst[at + |Dotted(src)|] == '\0'
    ensures rc != 0 ==> dst[..] == old(dst[..])
  {
    var tmp := Dotted(src);
    DottedPrints(src);
    var l := |tmp|;
    if l <= 0 || l >= size {
      return UV_ENOSPC;
    }
    var _ := Strscpy(dst, at, tmp, size);
    return 0;
  }

  // ---------- The longest stretch of zeros ----------

  /** Line 100: cur ends at i, and replaces best if it is longer. */
  function Better(best: Run, cur: Run): Run {
    if best.base == -1 || cur.len > best.len then cur else best
  }

  /** best is the first longest stretch among those that end before cur starts, or by i. */
  ghost predicate BestSoFar(ws: seq<nat>, best: Run, limit: int, i: int) {
    && (best.base == -1 ==> forall b: int, l: nat :: ZeroRun(ws, b, l) && b + l <= i ==> b >= limit)
    && (best.base != -1 ==> ZeroRun(ws, best.base, best.len) && best.base + best.len <= i && best.base < limit)
    && (best.base != -1 ==> forall b: int, l: nat :: ZeroRun(ws, b, l) && b + l <= i ==>
          b >= limit || l < best.len || (l == best.len && best.base <= b))
  }

  /** The stretch of zeros that ends at i, if any. */
  ghost predicate Current(ws: seq<nat>, cur: Run, i: int) {
    && 0 <= i <= |ws|
    && (cur.base == -1 ==> i == 0 || ws[i - 1] != 0)
    && (cur.base != -1 ==> ZeroRun(ws, cur.base, cur.len) && cur.base + cur.len == i && (cur.base == 0 || ws[cur.base - 1] != 0))
  }

  lemma RunEnds(ws: seq<nat>, best: Run, cur: Run, i: int)
    requires Current(ws, cur, i) && cur.base != -1 && BestSoFar(ws, best, cur.base, i)
    ensures BestSoFar(ws, Better(best, cur), i, i)
  {
    var r := Better(best, cur);
    forall b: int, l: nat | ZeroRun(ws, b, l) && b + l <= i && b < i ensures l < r.len || (l == r.len && r.base <= b) {
      if b >= cur.base {
        assert l <= cur.len;
      }
    }
  }

  lemma ZeroInside(ws: seq<nat>, b: int, l: nat, k: int)
    requires ZeroRun(ws, b, l) && b <= k < b + l
    ensures ws[k] == 0
  {
  }

  /** A stretch that ends by i + 1 and starts before cur ends before i + 1. */
  lemma RunGrows(ws: seq<nat>, best: Run, cur: Run, i: int)
    requires Current(ws, cur, i) && i < |ws| && ws[i] == 0 && BestSoFar(ws, best, if cur.base == -1 then i else cur.base, i)
    ensures BestSoFar(ws, best, if cur.base == -1 then i else cur.base, i + 1)
  {
    var limit := if cur.base == -1 then i else cur.base;
    forall b: int, l: nat | ZeroRun(ws, b, l) && b + l == i + 1 ensures b >= limit {
      if b < limit {
        ZeroInside(ws, b, l, limit - 1);
      }
    }
  }

  lemma RunStops(ws: seq<nat>, best: Run, i: int)
    requires 0 <= i < |ws| && ws[i] != 0 && BestSoFar(ws, best, i, i)
    ensures BestSoFar(ws, best, i + 1, i + 1)
  {
    forall b: int, l: nat | ZeroRun(ws, b, l) && b + l == i + 1 ensures false {
      ZeroInside(ws, b, l, i);
    }
  }

  /** Lines 88 to 111. */
  method FindRun(ws: seq<nat>) returns (best: Run)
    requires |ws| == 8
    ensures RunFits(best) && IsBest(ws, best)
  {
    best := Run(-1, 0);
    var cur := Run(-1, 0);
    var i := 0;
    while i < 8
      invariant 0 <= i <= 8 && Current(ws, cur, i)
      invariant BestSoFar(ws, best, if cur.base == -1 then i else cur.base, i)
    {
      if ws[i] == 0 {
        RunGrows(ws, best, cur, i);
        if cur.base == -1 {
          cur := Run(i, 1);
        } else {
          cur := cur.(len := cur.len + 1);
        }
      } else {
        if cur.base != -1 {
          RunEnds(ws, best, cur, i);
          best := Better(best, cur);
          cur := cur.(base := -1);
        }
        RunStops(ws, best, i);
      }
      i := i + 1;
    }
    if cur.base != -1 {
      RunEnds(ws, best, cur, 8);
      best := Better(best, cur);
    }
    BestIs(ws, best);
    if best.base != -1 && best.len < 2 {
      best := best.(base := -1);
    }
  }

  lemma BestIs(ws: seq<nat>, best: Run)
    requires BestSoFar(ws, best, |ws|, |ws|)
    ensures best.base != -1 && best.len >= 2 ==> IsBest(ws, best)
    ensures best.base == -1 || best.len < 2 ==> IsBest(ws, best.(base := -1))
  {
    forall b: int, l: nat | ZeroRun(ws, b, l) ensures best.base != -1 && (l < best.len || (l == best.len && best.base <= b)) {
      assert b + l <= |ws|;
    }
  }

  // ---------- inet_ntop6 ----------

  /** Lines 85 to 87. */
  method LoadWords(src: seq<Byte>) returns (ws: seq<nat>)
    requires |src| == 16
    ensures ws == WordsOf(src)
    ensures |ws| == 8 && forall k :: 0 <= k < 8 ==> ws[k] == 256 * (src[2 * k] as nat) + src[2 * k + 1] as nat
  {
    var words := new nat[8](_ => 0);
    for i := 0 to 16
      invariant forall k :: 0 <= k < 8 ==> words[k] == Loaded(src, k, i)
    {
      words[i / 2] := words[i / 2] + (if i % 2 == 0 then Word(src[i], 0) else Word(0, src[i]));
    }
    ws := words[..];
    forall k | 0 <= k < 8 ensures ws[k] == WordsOf(src)[k] {
      WordAt(src, k);
    }
  }

  /** Word k after i bytes. */
  function Loaded(src: seq<Byte>, k: nat, i: nat): nat
    requires 2 * k + 1 < |src|
  {
    if 2 * k + 1 < i then Word(src[2 * k], src[2 * k + 1]) else if 2 * k + 1 == i then Word(src[2 * k], 0) else 0
  }

  lemma {:induction false} WordAt(b: seq<Byte>, k: nat)
    requires 2 * k + 1 < |b|
    ensures WordsOf(b)[k] == Word(b[2 * k], b[2 * k + 1])
    decreases k
  {
    if k > 0 {
      WordAt(b[2..], k - 1);
    }
  }

  lemma {:induction false} HexPrints(n: nat)
    ensures Clean(Hex(n))
  {
    if n >= 16 {
      HexPrints(n / 16);
    }
  }

  /** What is still to be printed fits behind what is. */
  lemma {:induction false} GroupsFit(b: seq<Byte>, r: Run, i: nat)
    requires |b| == 16 && i <= 8 && RunFits(r)
    ensures |Groups(b, r, i)| <= 5 * (8 - i) + (if i <= 6 && r.base == 0 then 6 else 0) && Clean(Groups(b, r, i))
    decreases 8 - i
  {
    if i < 8 {
      GroupsFit(b, r, i + 1);
      WordFits(b, r, i);
      NextPiece(b, r, i, WordText(b, r, i));
    }
  }

  lemma WordFits(b: seq<Byte>, r: Run, i: nat)
    requires |b| == 16 && i < 8
    ensures Clean(WordText(b, r, i)) && |WordText(b, r, i)| <= if Embeds(WordsOf(b), r, i) then 15 else 4
  {
    HexLength(WordsOf(b)[i]);
    HexPrints(WordsOf(b)[i]);
    DottedPrints(b[12..]);
  }

  /** The text has at most 45 characters, so that it fits `tmp` with its terminator. */
  lemma TextFits(b: seq<Byte>, r: Run)
    requires |b| == 16 && RunFits(r)
    ensures |Text6(b, r)| < INET6_ADDRSTRLEN && Clean(Text6(b, r))
  {
    GroupsFit(b, r, 0);
    if r.base == 0 {
      FromGapFits(b, r, r.len);
    }
  }

  lemma FromGapFits(b: seq<Byte>, r: Run, e: nat)
    requires |b| == 16 && RunFits(r) && r.base == 0 && e == r.len
    ensures |Groups(b, r, 0)| <= 1 + 5 * (8 - e) + 6
  {
    GapSkip(b, r, 0, e);
    GroupsFit(b, r, e);
  }

  /** *tp++ = c, or sprintf of a word. */
  method Emit(tmp: array<char>, tp: nat, t: string) returns (tp': nat)
    requires tp + |t| <= tmp.Length
    modifies tmp
    ensures tp' == tp + |t| && tmp[..tp'] == old(tmp[..tp]) + t
  {
    var i := 0;
    while i < |t|
      invariant i <= |t| && tmp[..tp + i] == old(tmp[..tp]) + t[..i]
    {
      tmp[tp + i] := t[i];
      i := i + 1;
    }
    tp' := tp + |t|;
  }

  /** Lines 128 to 138: the IPv4 address, or the word. */
  function WordText(b: seq<Byte>, r: Run, i: nat): string
    requires |b| == 16 && i < 8
  {
    if Embeds(WordsOf(b), r, i) then Dotted(b[12..]) else Hex(WordsOf(b)[i])
  }

  /** What turn i of the loop at line 117 prints, if `word` is the text of its word. */
  function Piece(r: Run, i: nat, word: string): string {
    if InRun(r, i) then (if i == r.base then ":" else "") else (if i != 0 then ":" else "") + word
  }

  predicate Last(b: seq<Byte>, r: Run, i: nat)
    requires |b| == 16 && i < 8
  {
    !InRun(r, i) && Embeds(WordsOf(b), r, i)
  }

  lemma NextPiece(b: seq<Byte>, r: Run, i: nat, word: string)
    requires |b| == 16 && i < 8 && word == WordText(b, r, i)
    ensures Groups(b, r, i) == if Last(b, r, i) then Piece(r, i, word) else Piece(r, i, word) + Groups(b, r, i + 1)
  {
    if !InRun(r, i) && !Last(b, r, i) {
      Assoc(if i != 0 then ":" else "", Hex(WordsOf(b)[i]), Groups(b, r, i + 1));
    }
  }

  /** One turn of the loop. */
  method PrintGroup(src: seq<Byte>, ws: seq<nat>, best: Run, i: nat, tmp: array<char>, tp0: nat, ghost word: string, ghost piece: string)
    returns (tp: nat, last: bool)
    requires |src| == 16 && ws == WordsOf(src) && RunFits(best) && i < 8
    requires word == WordText(src, best, i) && piece == Piece(best, i, word) && tp0 + |piece| < tmp.Length
    modifies tmp
    ensures last == Last(src, best, i) && tp == tp0 + |piece| && tmp[..tp] == old(tmp[..tp0]) + piece
  {
    tp, last := tp0, false;
    if best.base != -1 && i >= best.base && i < best.base + best.len {
      if i == best.base {
        tp := Emit(tmp, tp, ":");
      } else {
        NoMore(tmp[..tp]);
      }
      return;
    }
    if i != 0 {
      tp := Emit(tmp, tp, ":");
      Assoc(old(tmp[..tp0]), ":", word);
    }
    tp, last := PrintWord(src, ws, best, i, tmp, tp, word);
  }

  /** Lines 128 to 138. */
  method PrintWord(src: seq<Byte>, ws: seq<nat>, best: Run, i: nat, tmp: array<char>, tp0: nat, ghost word: string)
    returns (tp: nat, last: bool)
    requires |src| == 16 && ws == WordsOf(src) && i < 8 && word == WordText(src, best, i) && tp0 + |word| < tmp.Length
    modifies tmp
    ensures last == Embeds(ws, best, i) && tp == tp0 + |word| && tmp[..tp] == old(tmp[..tp0]) + word
  {
    last := Embeds(ws, best, i);
    if last {
      tp := PrintQuad(src[12..], tmp, tp0, word);
      return;
    }
    tp := Emit(tmp, tp0, Hex(ws[i]));
  }

  /** Lines 132 to 135. */
  method PrintQuad(quad: seq<Byte>, tmp: array<char>, tp0: nat, ghost word: string) returns (tp: nat)
    requires |quad| == 4 && word == Dotted(quad) && tp0 + |word| < tmp.Length
    modifies tmp
    ensures tp == tp0 + |word| && tmp[..tp] == old(tmp[..tp0]) + word
  {
    var err := Ntop4(quad, tmp, tp0, tmp.Length - tp0);
    assert err == 0;
    tp := tp0 + |Dotted(quad)|;
    assert tmp[..tp] == tmp[..tp0] + tmp[tp0..tp];
  }

  /** Lines 117 to 139. */
  method PrintGroups(src: seq<Byte>, ws: seq<nat>, best: Run, tmp: array<char>, ghost text: string) returns (tp: nat)
    requires |src| == 16 && ws == WordsOf(src) && RunFits(best) && text == Groups(src, best, 0) && |text| < tmp.Length
    modifies tmp
    ensures tp == |text| && tmp[..tp] == text
  {
    tp := 0;
    var i := 0;
    ghost var rest, done := text, "";
    while i < 8
      invariant i <= 8 && tp <= tmp.Length && done == tmp[..tp] && done + rest == text && rest == Groups(src, best, i)
    {
      ghost var word := WordText(src, best, i);
      ghost var piece := Piece(best, i, word);
      NextPiece(src, best, i, word);
      var last;
      tp, last := PrintGroup(src, ws, best, i, tmp, tp, word, piece);
      if last {
        return;
      }
      i := i + 1;
      rest := Groups(src, best, i);
      Assoc(done, piece, rest);
      done := tmp[..tp];
    }
    NoMore(done);
  }

  /** Lines 116 to 142. */
  method Print6(src: seq<Byte>, ws: seq<nat>, best: Run, tmp: array<char>, ghost text: string) returns (tp: nat)
    requires |src| == 16 && ws == WordsOf(src) && RunFits(best) && tmp.Length == INET6_ADDRSTRLEN && text == Text6(src, best)
    modifies tmp
    ensures tp == |text| < tmp.Length && tmp[..tp] == text
  {
    TextFits(src, best);
    tp := PrintGroups(src, ws, best, tmp, Groups(src, best, 0));
    if best.base != -1 && best.base + best.len == 8 {
      tp := Emit(tmp, tp, ":");
    } else {
      NoMore(tmp[..tp]);
    }
  }

  /** inet_ntop6: the text with the first longest stretch of zeros as "::".  Only a size of zero passes for success
      although nothing is printed. */
  method Ntop6(src: seq<Byte>, dst: array<char>, size: nat) returns (rc: int, ghost best: Run, ghost text: string)
    requires |src| == 16 && size <= dst.Length
    modifies dst
    ensures RunFits(best) && IsBest(WordsOf(src), best) && text == Text6(src, best)
    ensures rc == if 0 < size <= |text| then UV_ENOSPC else 0
    ensures rc == 0 && size > 0 ==> dst[..|text|] == text && dst[|text|] == '\0'
    ensures rc != 0 ==> dst[..size - 1] == text[..size - 1] && dst[size - 1] == '\0'
    ensures size == 0 ==> dst[..] == old(dst[..])
  {
    var tmp := new char[INET6_ADDRSTRLEN];
    var ws := LoadWords(src);
    var run := FindRun(ws);
    best, text := run, Text6(src, run);
    var tp := Print6(src, ws, run, tmp, text);
    TextFits(src, run);
    rc := CopyOut(dst, tmp[..tp], size);
  }

  /** Lines 144 to 146. */
  method CopyOut(dst: array<char>, text: string, size: nat) returns (rc: int)
    requires size <= dst.Length && Clean(text)
    modifies dst
    ensures rc == if 0 < size <= |text| then UV_ENOSPC else 0
    ensures rc == 0 && size > 0 ==> dst[..|text|] == text && dst[|text|] == '\0'
    ensures rc != 0 ==> dst[..size - 1] == text[..size - 1] && dst[size - 1] == '\0'
    ensures size == 0 ==> dst[..] == old(dst[..])
  {
    var r := Strscpy(dst, 0, text, size);
    if r == UV_E2BIG {
      assert dst[..size - 1] == dst[0..0 + size - 1];
      return UV_ENOSPC;
    }
    assert size > 0 ==> dst[..|text|] == dst[0..0 + |text|];
    return 0;
  }

  // ---------- inet_pton4 ----------

  /** inet_pton4 of the C string that starts at s[from]: it accepts what inet_ntop4 prints, and nothing else. */
  method Pton4(s: string, from: nat) returns (rc: int, b: seq<Byte>)
    requires from <= |s|
    ensures rc == 0 || rc == UV_EINVAL
    ensures rc == 0 ==> |b| == 4 && s[from..] == Dotted(b)
    ensures rc != 0 ==> forall v: seq<Byte> :: |v| == 4 ==> s[from..] != Dotted(v)
  {
    rc, b := ScanQuad(s, from);
    if rc == 0 {
      AcceptsQuads(s[from..], [0], b);
    } else {
      forall v: seq<Byte> | |v| == 4 ensures s[from..] != Dotted(v) {
        AcceptsQuads(s[from..], [0], v);
      }
    }
  }

  /** Lines 184 to 214; octets counts those begun with a digit. */
  method ScanQuad(s: string, from: nat) returns (rc: int, b: seq<Byte>)
    requires from <= |s|
    ensures match Scan4(s[from..], 0, [0], false)
            case None => rc == UV_EINVAL
            case Some(v) => rc == 0 && b == v
  {
    ghost var t := s[from..];
    var tmp := new Byte[4](_ => 0);
    var saw, octets, tp := false, 0, 0;
    var i := from;
    b := [];
    assert tmp[..1] == [0];
    while i < |s|
      invariant from <= i <= |s| && 0 <= tp <= 3 && octets == tp + (if saw then 1 else 0)
      invariant Scan4(t, 0, [0], false) == Scan4(t, i - from, tmp[..tp + 1], saw)
    {
      var ch := s[i];
      i := i + 1;
      if IsDec(ch) {
        var nw := Next(tmp[tp], ch);
        if saw && tmp[tp] == 0 {
          return UV_EINVAL, b;
        }
        if nw > 255 {
          return UV_EINVAL, b;
        }
        ghost var o := tmp[..tp + 1];
        var octet: Byte := nw;
        tmp[tp] := octet;
        assert tmp[..tp + 1] == o[tp := octet];
        if !saw {
          octets := octets + 1;
          saw := true;
        }
      } else if ch == '.' && saw {
        if octets == 4 {
          return UV_EINVAL, b;
        }
        ghost var o := tmp[..tp + 1];
        tp := tp + 1;
        tmp[tp] := 0;
        assert tmp[..tp + 1] == o + [0];
        saw := false;
      } else {
        return UV_EINVAL, b;
      }
    }
    if octets < 4 {
      return UV_EINVAL, b;
    }
    return 0, tmp[..];
  }

  // ---------- inet_pton6 ----------

  /** Lines 287 to 296: the bytes behind colonp move to the end, highest first, and zeros take their place. */
  method ShiftGap(tmp: array<Byte>, tp: nat, colonp: nat)
    requires tmp.Length == 16 && colonp <= tp < 16 && tmp[tp..] == Zeros(16 - tp)
    modifies tmp
    ensures tmp[..] == Widened(old(tmp[..tp]), colonp)
  {
    var n := tp - colonp;
    var i := 1;
    while i <= n
      invariant 1 <= i <= n + 1
      invariant forall k :: 0 <= k < tp + 1 - i ==> tmp[k] == old(tmp[k])
      invariant forall k :: tp + 1 - i <= k < 17 - i ==> tmp[k] == 0
      invariant forall k :: 17 - i <= k < 16 ==> tmp[k] == old(tmp[k - (16 - tp)])
    {
      tmp[16 - i] := tmp[colonp + n - i];
      tmp[colonp + n - i] := 0;
      i := i + 1;
    }
    ghost var out := old(tmp[..tp]);
    ghost var w := Widened(out, colonp);
    forall k | 0 <= k < 16 ensures tmp[k] == w[k] {
    }
  }

  /** Lines 260 and 261, and 279 and 280. */
  method StoreWord(tmp: array<Byte>, tp: nat, val: nat)
    requires tmp.Length == 16 && tp + 2 <= 16 && val < 0x10000 && tmp[tp..] == Zeros(16 - tp)
    modifies tmp
    ensures tmp[..tp + 2] == old(tmp[..tp]) + High(val) && tmp[tp + 2..] == Zeros(14 - tp)
  {
    assert tmp[tp + 2..] == tmp[tp..][2..];
    tmp[tp] := val / 256;
    tmp[tp + 1] := val % 256;
  }

  /** Lines 276 to 301. */
  method EndParse(tmp: array<Byte>, tp0: nat, colonp: int, val: nat, seen: nat, ghost p: Parse) returns (rc: int, b: seq<Byte>)
    requires tmp.Length == 16 && tp0 <= 16 && ParseOk(p) && p.out == tmp[..tp0] && tmp[tp0..] == Zeros(16 - tp0)
    requires p.val == val && p.seen == seen && (if p.colon.Some? then colonp == p.colon.value else colonp == -1)
    modifies tmp
    ensures match Finish(p)
            case None => rc == UV_EINVAL
            case Some(v) => rc == 0 && b == v
  {
    var tp := tp0;
    b := [];
    if seen > 0 {
      if tp + 2 > 16 {
        return UV_EINVAL, b;
      }
      StoreWord(tmp, tp, val);
      tp := tp + 2;
    }
    if colonp != -1 {
      if tp == 16 {
        return UV_EINVAL, b;
      }
      ghost var out := tmp[..tp];
      Assoc(out[..colonp], Zeros(16 - tp), out[colonp..]);
      ShiftGap(tmp, tp, colonp);
      tp := 16;
    }
    if tp != 16 {
      return UV_EINVAL, b;
    }
    assert tmp[..16] == tmp[..];
    return 0, tmp[..];
  }

  /** The registers of the loop hold what p says. */
  ghost predicate Tracks(tmp: array<Byte>, tp: nat, colonp: int, val: nat, seen: nat, cur: nat, p: Parse)
    reads tmp
  {
    && tmp.Length == 16 && tp <= 16 && ParseOk(p) && p.out == tmp[..tp] && tmp[tp..] == Zeros(16 - tp)
    && p.val == val && p.seen == seen && p.cur == cur && (if p.colon.Some? then colonp == p.colon.value else colonp == -1)
  }

  /** Lines 226 to 301, from character `from` on. */
  method ParseFrom(s: string, from: nat) returns (rc: int, b: seq<Byte>)
    requires from <= |s|
    ensures match Scan6(s, from, Parse([], None, 0, 0, from))
            case None => rc == UV_EINVAL
            case Some(v) => rc == 0 && b == v
  {
    var tmp := new Byte[16](_ => 0);
    var tp, colonp, val, seen, curtok, i := 0, -1, 0, 0, from, from;
    ghost var p0 := Parse([], None, 0, 0, from);
    ghost var p := p0;
    b := [];
    while i < |s|
      invariant from <= i <= |s| && 0 <= tp && 0 <= val && 0 <= seen && 0 <= curtok <= |s|
      invariant Tracks(tmp, tp, colonp, val, seen, curtok, p)
      invariant Scan6(s, from, p0) == Scan6(s, i, p)
    {
      var ch := s[i];
      i := i + 1;
      var digit := XDigit(ch);
      if digit.Some? {
        val := val * 16 + digit.value;
        seen := seen + 1;
        if seen > 4 {
          return UV_EINVAL, b;
        }
        p := p.(val := val, seen := seen);
        continue;
      }
      if ch == ':' {
        var ok;
        ok, tp, colonp, val, seen, p := OnColon(s, i, tmp, tp, colonp, val, seen, curtok, p);
        curtok := i;
        if !ok {
          return UV_EINVAL, b;
        }
        continue;
      }
      if ch == '.' && tp + 4 <= 16 {
        var err, q := ScanQuad(s, curtok);
        if err == 0 {
          rc, b := EndDotted(s, i - 1, tmp, tp, colonp, val, seen, curtok, q, p);
          return;
        }
      }
      return UV_EINVAL, b;
    }
    rc, b := EndParse(tmp, tp, colonp, val, seen, p);
  }

  /** Lines 249 to 264, for the colon before character i. */
  method OnColon(s: string, i: nat, tmp: array<Byte>, tp0: nat, colonp0: int, val0: nat, seen0: nat, ghost cur: nat, ghost p: Parse)
    returns (ok: bool, tp: nat, colonp: int, val: nat, seen: nat, ghost p': Parse)
    requires 0 < i <= |s| && s[i - 1] == ':' && cur <= |s| && Tracks(tmp, tp0, colonp0, val0, seen0, cur, p)
    modifies tmp
    ensures ok ==> Tracks(tmp, tp, colonp, val, seen, i, p') && Scan6(s, i - 1, p) == Scan6(s, i, p')
    ensures !ok ==> Scan6(s, i - 1, p) == None
  {
    assert XDigit(':') == None;
    tp, colonp, val, seen, p' := tp0, colonp0, val0, seen0, p;
    if seen == 0 {
      if colonp != -1 {
        return false, tp, colonp, val, seen, p';
      }
      colonp := tp;
      p' := p.(colon := Some(tp), cur := i);
      return true, tp, colonp, val, seen, p';
    } else if i == |s| {
      return false, tp, colonp, val, seen, p';
    }
    if tp + 2 > 16 {
      return false, tp, colonp, val, seen, p';
    }
    StoreWord(tmp, tp, val);
    p' := Stored(p, i);
    return true, tp + 2, colonp, 0, 0, p';
  }

  /** Lines 266 to 272, once inet_pton4 has succeeded, and what follows the loop. */
  method EndDotted(s: string, ghost i: nat, tmp: array<Byte>, tp0: nat, colonp: int, val: nat, seen: nat, ghost curtok: nat,
                   q: seq<Byte>, ghost p: Parse)
    returns (rc: int, b: seq<Byte>)
    requires i < |s| && s[i] == '.' && curtok <= |s| && tp0 + 4 <= 16 && Tracks(tmp, tp0, colonp, val, seen, curtok, p)
    requires Scan4(s[curtok..], 0, [0], false) == Some(q)
    modifies tmp
    ensures match Scan6(s, i, p)
            case None => rc == UV_EINVAL
            case Some(v) => rc == 0 && b == v
  {
    FourOctets(s[curtok..], 0, [0], false);
    assert XDigit('.') == None;
    assert tmp[tp0 + 4..] == tmp[tp0..][4..];
    tmp[tp0], tmp[tp0 + 1], tmp[tp0 + 2], tmp[tp0 + 3] := q[0], q[1], q[2], q[3];
    ghost var p1 := p.(out := p.out + q, seen := 0, val := 0);
    assert tmp[..tp0 + 4] == p.out + q;
    rc, b := EndParse(tmp, tp0 + 4, colonp, 0, 0, p1);
  }

  lemma {:induction false} FourOctets(s: string, i: nat, octets: seq<Byte>, saw: bool)
    requires i <= |s| && octets != [] && |octets| <= 4
    ensures Scan4(s, i, octets, saw).Some? ==> |Scan4(s, i, octets, saw).value| == 4
    decreases |s| - i
  {
    if i < |s| {
      if IsDec(s[i]) {
        var nw := Next(octets[|octets| - 1], s[i]);
        if nw <= 255 {
          var octet: Byte := nw;
          FourOctets(s, i + 1, octets[|octets| - 1 := octet], true);
        }
      } else if |octets| < 4 {
        FourOctets(s, i + 1, octets + [0], false);
      }
    }
  }

  /** inet_pton6: it accepts the addresses of section 2.2 of RFC 4291, and nothing else. */
  method Pton6(s: string) returns (rc: int, b: seq<Byte>)
    ensures rc == 0 || rc == UV_EINVAL
    ensures rc == 0 ==> Denotes(s, b)
    ensures rc != 0 ==> forall v :: !Denotes(s, v)
  {
    rc, b := ParseAll(s);
    if rc == 0 {
      AcceptsAddresses(s, b);
    } else {
      forall v ensures !Denotes(s, v) {
        AcceptsAddresses(s, v);
      }
    }
  }

  method ParseAll(s: string) returns (rc: int, b: seq<Byte>)
    ensures match Parse6(s)
            case None => rc == UV_EINVAL
            case Some(v) => rc == 0 && b == v
  {
    var src := 0;
    b := [];
    if CharAt(s, 0) == ':' {
      src := 1;
      if CharAt(s, 1) != ':' {
        return UV_EINVAL, b;
      }
    }
    rc, b := ParseFrom(s, src);
  }

  // ---------- uv_inet_ntop and uv_inet_pton ----------

  datatype Family = Inet4 | Inet6 | OtherFamily

  const UV_EAFNOSUPPORT: int := -47

  /** What stands before the first '%', if there is one. */
  function BeforeZone(s: string): (r: string)
    ensures |r| <= |s| && r == s[..|r|] && '%' !in r && (|r| < |s| ==> s[|r|] == '%')
  {
    if s == [] || s[0] == '%' then [] else [s[0]] + BeforeZone(s[1..])
  }

  /** What an address family takes for an address: for IPv6 an optional zone is dropped, before which there is room for
      45 characters. */
  ghost predicate Means(af: Family, s: string, b: seq<Byte>) {
    match af
    case Inet4 => |b| == 4 && s == Dotted(b)
    case Inet6 => ('%' in s ==> |BeforeZone(s)| < INET6_ADDRSTRLEN) && Denotes(BeforeZone(s), b)
    case OtherFamily => false
  }

  /** strchr(s, '%'). */
  method FindZone(s: string) returns (p: int)
    ensures p == if '%' in s then |BeforeZone(s)| else -1
  {
    var i := 0;
    while i < |s|
      invariant 0 <= i <= |s| && '%' !in s[..i]
    {
      if s[i] == '%' {
        FirstZone(s, i);
        return i;
      }
      i := i + 1;
    }
    return -1;
  }

  lemma {:induction false} FirstZone(s: string, i: nat)
    requires i < |s| && s[i] == '%' && '%' !in s[..i]
    ensures |BeforeZone(s)| == i
  {
    if i > 0 {
      assert s[0] == s[..i][0] && s[1..][..i - 1] == s[..i][1..];
      FirstZone(s[1..], i - 1);
    }
  }

  /** uv_inet_pton; None is NULL. */
  method InetPton(af: Family, src: Option<string>, haveDst: bool) returns (rc: int, b: seq<Byte>)
    ensures rc == 0 <==> src.Some? && haveDst && exists v :: Means(af, src.value, v)
    ensures rc == 0 ==> Means(af, src.value, b)
    ensures rc != 0 ==> rc == if src.Some? && haveDst && af.OtherFamily? then UV_EAFNOSUPPORT else UV_EINVAL
  {
    b := [];
    if src.None? || !haveDst {
      return UV_EINVAL, b;
    }
    var s := src.value;
    match af
    case Inet4 =>
      assert s[0..] == s;
      rc, b := Pton4(s, 0);
      assert rc == 0 ==> Means(Inet4, s, b);
      assert rc != 0 ==> forall v :: !Means(Inet4, s, v);
    case Inet6 =>
      rc, b := PtonZone(s);
    case OtherFamily =>
      rc := UV_EAFNOSUPPORT;
  }

  /** Lines 158 to 170. */
  method PtonZone(s: string) returns (rc: int, b: seq<Byte>)
    ensures rc == 0 || rc == UV_EINVAL
    ensures rc == 0 ==> Means(Inet6, s, b)
    ensures rc != 0 ==> forall v :: !Means(Inet6, s, v)
  {
    b := [];
    var p := FindZone(s);
    var t := s;
    if p != -1 {
      if p > INET6_ADDRSTRLEN - 1 {
        return UV_EINVAL, b;
      }
      t := s[..p];
    } else {
      NoZone(s);
    }
    rc, b := Pton6(t);
  }

  lemma {:induction false} NoZone(s: string)
    requires '%' !in s
    ensures BeforeZone(s) == s
  {
    if s != [] {
      NoZone(s[1..]);
    }
  }

  /** The text that Ntop6 prints for an address, with any zone behind it or none, means the address again. */
  lemma ZoneRoundTrip(b: seq<Byte>, r: Run, zone: string)
    requires |b| == 16 && IsBest(WordsOf(b), r)
    ensures Means(Inet6, Text6(b, r), b) && Means(Inet6, Text6(b, r) + "%" + zone, b)
  {
    BestIsZeroed(WordsOf(b), r);
    TextFits(b, r);
    PrintedDenotes(b, r);
    NoZone(Text6(b, r));
    ZoneCut(Text6(b, r), zone);
  }

  lemma BestIsZeroed(ws: seq<nat>, r: Run)
    requires |ws| == 8 && IsBest(ws, r)
    ensures Zeroed(ws, r)
  {
  }

  lemma ZoneCut(t: string, zone: string)
    requires '%' !in t
    ensures BeforeZone(t + "%" + zone) == t
  {
    var s := t + "%" + zone;
    assert s[..|t|] == t && s[|t|] == '%';
    FirstZone(s, |t|);
  }
}
