/** What the IPv4 and IPv6 printers and parsers of src/inet.c compute, on values. */
module InetText {
  import opened Wrappers

  type Byte = x: nat | x < 256

  // ---------- Printing ----------

  function HexDigit(v: nat): char
    requires v < 16
  {
    if v < 10 then '0' + v as char else 'a' + (v - 10) as char
  }

  /** %x. */
  function Hex(n: nat): (s: string)
    ensures |s| > 0
  {
    if n < 16 then [HexDigit(n)] else Hex(n / 16) + [HexDigit(n % 16)]
  }

  /** %u. */
  function Dec(n: nat): (s: string)
    ensures |s| > 0
  {
    if n < 10 then ['0' + n as char] else Dec(n / 10) + ['0' + (n % 10) as char]
  }

  /** "%u.%u.%u.%u". */
  function Dotted(b: seq<Byte>): string {
    if b == [] then "" else if |b| == 1 then Dec(b[0]) else Dec(b[0]) + ("." + Dotted(b[1..]))
  }

  function Word(high: nat, low: nat): nat {
    high * 256 + low
  }

  /** The words of an address, high byte first (lines 85 to 87). */
  function WordsOf(b: seq<Byte>): (ws: seq<nat>)
    ensures |ws| == |b| / 2 && forall i :: 0 <= i < |ws| ==> ws[i] < 0x10000
    decreases |b|
  {
    if |b| < 2 then []
    else [Word(b[0], b[1])] + WordsOf(b[2..])
  }

  /** The two bytes of a word. */
  function High(w: nat): (b: seq<Byte>)
    requires w < 0x10000
    ensures |b| == 2
  {
    [w / 256, w % 256]
  }

  function BytesOf(ws: seq<nat>): (b: seq<Byte>)
    requires forall i :: 0 <= i < |ws| ==> ws[i] < 0x10000
    ensures |b| == 2 * |ws|
  {
    if ws == [] then [] else High(ws[0]) + BytesOf(ws[1..])
  }

  /** A stretch of words printed as "::"; none if base is -1. */
  datatype Run = Run(base: int, len: nat)

  predicate ZeroRun(ws: seq<nat>, b: int, l: nat) {
    0 <= b && l >= 1 && b + l <= |ws| && forall k :: b <= k < b + l ==> ws[k] == 0
  }

  /** Sections 4.2.2 and 4.2.3 of RFC 5952: never a single group, the longest stretch of zeros, and of those the first. */
  ghost predicate IsBest(ws: seq<nat>, r: Run) {
    if r.base == -1 then forall b: int, l: nat :: ZeroRun(ws, b, l) ==> l < 2
    else
      && ZeroRun(ws, r.base, r.len) && r.len >= 2
      && forall b: int, l: nat :: ZeroRun(ws, b, l) ==> l < r.len || (l == r.len && r.base <= b)
  }

  predicate RunFits(r: Run) {
    r.base == -1 || (0 <= r.base && 2 <= r.len && r.base + r.len <= 8)
  }

  predicate InRun(r: Run, i: nat) {
    r.base != -1 && r.base <= i < r.base + r.len
  }

  /** Lines 129 to 131: words 6 and 7 are printed as an IPv4 address. */
  predicate Embeds(ws: seq<nat>, r: Run, i: nat)
    requires |ws| == 8
  {
    i == 6 && r.base == 0 && (r.len == 6 || (r.len == 7 && ws[7] != 1) || (r.len == 5 && ws[5] == 0xffff))
  }

  /** What the loop at line 117 prints from its i-th turn on. */
  function Groups(b: seq<Byte>, r: Run, i: nat): string
    requires |b| == 16 && i <= 8
    decreases 8 - i
  {
    if i == 8 then ""
    else if InRun(r, i) then (if i == r.base then ":" else "") + Groups(b, r, i + 1)
    else
      (if i != 0 then ":" else "") +
      if Embeds(WordsOf(b), r, i) then Dotted(b[12..]) else Hex(WordsOf(b)[i]) + Groups(b, r, i + 1)
  }

  function Text6(b: seq<Byte>, r: Run): string
    requires |b| == 16
  {
    Groups(b, r, 0) + if r.base != -1 && r.base + r.len == 8 then ":" else ""
  }

  // ---------- Parsing IPv4 ----------

  predicate IsDec(c: char) {
    '0' <= c <= '9'
  }

  function Next(val: nat, c: char): nat
    requires IsDec(c)
  {
    val * 10 + (c - '0') as nat
  }

  /** The loop of inet_pton4: the octets begun, and whether the last has a digit. */
  function Scan4(s: string, i: nat, octets: seq<Byte>, saw: bool): Option<seq<Byte>>
    requires i <= |s| && octets != [] && |octets| <= 4
    decreases |s| - i
  {
    var last := |octets| - 1;
    if i == |s| then (if |octets| == 4 && saw then Some(octets) else None)
    else if IsDec(s[i]) then
      var nw := Next(octets[last], s[i]);
      if (saw && octets[last] == 0) || nw > 255 then None else Scan4(s, i + 1, octets[last := nw], true)
    else if s[i] == '.' && saw then
      if |octets| == 4 then None else Scan4(s, i + 1, octets + [0], false)
    else None
  }

  // ---------- Parsing IPv6 ----------

  function XDigit(c: char): Option<nat> {
    if '0' <= c <= '9' then Some((c - '0') as nat)
    else if 'a' <= c <= 'f' then Some((c - 'a') as nat + 10)
    else if 'A' <= c <= 'F' then Some((c - 'A') as nat + 10)
    else None
  }

  /** The loop of inet_pton6: the bytes stored, where "::" stood among them, the word being read and its digits, and
      where the current token starts. */
  datatype Parse = Parse(out: seq<Byte>, colon: Option<nat>, val: nat, seen: nat, cur: nat)

  /** Numbers of k hex digits are below 16^k. */
  function Limit(k: nat): nat {
    if k == 0 then 1 else if k == 1 then 0x10 else if k == 2 then 0x100 else if k == 3 then 0x1000 else 0x10000
  }

  predicate ParseOk(p: Parse) {
    && |p.out| <= 16 && (p.colon.Some? ==> p.colon.value <= |p.out|)
    && p.seen <= 4 && p.val < 0x10000 && p.val < Limit(p.seen)
  }

  /** Lines 258 to 263, and 277 to 280. */
  function Stored(p: Parse, cur: nat): (r: Parse)
    requires ParseOk(p) && |p.out| + 2 <= 16
    ensures ParseOk(r)
  {
    Parse(p.out + High(p.val), p.colon, 0, 0, cur)
  }

  function Zeros(n: nat): (z: seq<Byte>)
    ensures |z| == n
  {
    seq(n, _ => 0)
  }

  /** Lines 276 to 299. */
  function Finish(p: Parse): Option<seq<Byte>>
    requires ParseOk(p)
  {
    if p.seen > 0 && |p.out| + 2 > 16 then None
    else
      var out := if p.seen > 0 then Stored(p, p.cur).out else p.out;
      match p.colon
      case None => if |out| == 16 then Some(out) else None
      case Some(c) => if |out| == 16 then None else Some(out[..c] + Zeros(16 - |out|) + out[c..])
  }

  /** The loop at line 236, from character i on. */
  function Scan6(s: string, i: nat, p: Parse): Option<seq<Byte>>
    requires i <= |s| && ParseOk(p) && p.cur <= |s|
    decreases |s| - i
  {
    if i == |s| then Finish(p)
    else
      match XDigit(s[i])
      case Some(d) =>
        if p.seen == 4 then None else Scan6(s, i + 1, p.(val := p.val * 16 + d, seen := p.seen + 1))
      case None =>
        if s[i] == ':' then
          if p.seen == 0 then
            if p.colon.Some? then None else Scan6(s, i + 1, p.(colon := Some(|p.out|), cur := i + 1))
          else if i + 1 == |s| || |p.out| + 2 > 16 then None
          else Scan6(s, i + 1, Stored(p, i + 1))
        else if s[i] == '.' && |p.out| + 4 <= 16 then
          match Scan4(s[p.cur..], 0, [0], false)
          case None => None
          case Some(b) => if |b| == 4 then Finish(p.(out := p.out + b, seen := 0, val := 0)) else None
        else None
  }

  /** inet_pton6. */
  function Parse6(s: string): Option<seq<Byte>> {
    var start := Parse([], None, 0, 0, 0);
    if s != [] && s[0] == ':' then
      if |s| < 2 || s[1] != ':' then None else Scan6(s, 1, start.(cur := 1))
    else Scan6(s, 0, start)
  }
}
