/** What inet_pton6 (src/inet.c:218-302) accepts: exactly the texts of section 2.2 of RFC 4291. */
module InetGrammar {
  import opened Sequences
  import opened Wrappers
  import opened InetText
  import opened InetQuad

  // ---------- The grammar ----------

  /** One to four hex digits. */
  predicate IsGroup(t: string) {
    1 <= |t| <= 4 && AllHex(t)
  }

  predicate AllHex(t: string) {
    forall i :: 0 <= i < |t| ==> XDigit(t[i]).Some?
  }

  function Value(t: string): (v: nat)
    ensures |t| <= 4 ==> v < Limit(|t|)
  {
    if t == "" then 0
    else Value(t[..|t| - 1]) * 16 + match XDigit(t[|t| - 1]) case Some(d) => d case None => 0
  }

  /** The last part of a text: a group, or the last 32 bits in decimal. */
  datatype Token = Group(t: string) | Quad(q: seq<Byte>)

  /** Groups with colons between them, or nothing at all: all but the last stand in `closed`. */
  datatype Side = Nothing | Side(closed: seq<string>, last: Token)

  /** A text without "::", or the groups before it and what stands behind it. */
  datatype Form = Whole(side: Side) | Gapped(left: seq<string>, right: Side)

  /** Groups, each with a colon behind it. */
  function Closed(gs: seq<string>): string {
    if gs == [] then "" else Closed(gs[..|gs| - 1]) + (gs[|gs| - 1] + ":")
  }

  function TokenText(t: Token): string {
    match t
    case Group(w) => w
    case Quad(q) => if |q| == 4 then Dotted(q) else ""
  }

  function SideText(side: Side): string {
    if side.Nothing? then "" else Closed(side.closed) + TokenText(side.last)
  }

  /** The groups before "::" with "::" behind them. */
  function Front(left: seq<string>): string {
    Closed(left) + if left == [] then "::" else ":"
  }

  function Written(f: Form): string {
    match f
    case Whole(side) => SideText(side)
    case Gapped(left, right) => Front(left) + SideText(right)
  }

  function GroupBytes(gs: seq<string>): (b: seq<Byte>)
    requires AllGroups(gs)
    ensures |b| == 2 * |gs|
  {
    if gs == [] then [] else GroupBytes(gs[..|gs| - 1]) + High(Value(gs[|gs| - 1]))
  }

  predicate AllGroups(gs: seq<string>) {
    forall i :: 0 <= i < |gs| ==> IsGroup(gs[i])
  }

  predicate IsToken(t: Token) {
    match t
    case Group(w) => IsGroup(w)
    case Quad(q) => |q| == 4
  }

  predicate IsSide(side: Side) {
    side.Side? ==> AllGroups(side.closed) && IsToken(side.last)
  }

  function TokenBytes(t: Token): seq<Byte>
    requires IsToken(t)
  {
    match t
    case Group(w) => High(Value(w))
    case Quad(q) => q
  }

  function SideBytes(side: Side): seq<Byte>
    requires IsSide(side)
  {
    if side.Nothing? then [] else GroupBytes(side.closed) + TokenBytes(side.last)
  }

  /** The bytes of the address, with the zeros that "::" stands for at c. */
  function Widened(out: seq<Byte>, c: nat): seq<Byte>
    requires c <= |out| <= 16
  {
    out[..c] + (Zeros(16 - |out|) + out[c..])
  }

  /** Eight words in all, of which "::" stands for one or more. */
  predicate WellFormed(f: Form) {
    match f
    case Whole(side) => IsSide(side) && |SideBytes(side)| == 16
    case Gapped(left, right) => AllGroups(left) && IsSide(right) && |GroupBytes(left) + SideBytes(right)| < 16
  }

  function FormBytes(f: Form): seq<Byte>
    requires WellFormed(f)
  {
    match f
    case Whole(side) => SideBytes(side)
    case Gapped(left, right) => Widened(GroupBytes(left) + SideBytes(right), |GroupBytes(left)|)
  }

  ghost predicate IsForm(f: Form, s: string, b: seq<Byte>) {
    WellFormed(f) && Written(f) == s && FormBytes(f) == b
  }

  /** s is an address of section 2.2 of RFC 4291, and b its bytes. */
  ghost predicate Denotes(s: string, b: seq<Byte>) {
    exists f: Form :: IsForm(f, s, b)
  }

  // ---------- Groups, one more ----------

  lemma ClosedMore(gs: seq<string>, t: string)
    ensures Closed(gs + [t]) == Closed(gs) + (t + ":")
  {
    assert (gs + [t])[..|gs|] == gs;
  }

  lemma GroupBytesMore(gs: seq<string>, t: string)
    requires AllGroups(gs) && IsGroup(t)
    ensures AllGroups(gs + [t]) && GroupBytes(gs + [t]) == GroupBytes(gs) + High(Value(t))
  {
    assert (gs + [t])[..|gs|] == gs;
  }

  lemma ValueMore(t: string, c: char)
    requires AllHex(t) && XDigit(c).Some?
    ensures AllHex(t + [c]) && Value(t + [c]) == Value(t) * 16 + XDigit(c).value
  {
    assert (t + [c])[..|t|] == t;
  }

  // ---------- Everything that is accepted is an address ----------

  /** Where the loop stands: the groups closed before "::" and behind it, and the digits of the token that is read. */
  datatype Place = Place(left: seq<string>, gap: bool, right: seq<string>, t: string)

  /** What is read before the token. */
  function PlaceFront(w: Place): string {
    if w.gap then Front(w.left) + Closed(w.right) else Closed(w.left)
  }

  function PlaceText(w: Place): string {
    PlaceFront(w) + w.t
  }

  function PlaceBytes(w: Place): seq<Byte>
    requires AllGroups(w.left) && AllGroups(w.right)
  {
    GroupBytes(w.left) + GroupBytes(w.right)
  }

  /** Something has to follow a colon that closes a group, and a single colon does not come first. */
  predicate Goes(s: string, i: nat, w: Place) {
    w.t == "" ==>
      && ((if w.gap then w.right != [] else w.left != []) ==> i < |s|)
      && (!w.gap && w.left == [] ==> s == "" || s[0] != ':')
  }

  ghost predicate Stands(s: string, i: nat, p: Parse, w: Place)
    requires i <= |s|
  {
    && ParseOk(p) && AllGroups(w.left) && AllGroups(w.right) && (!w.gap ==> w.right == [])
    && s[..i] == PlaceText(w) && AllHex(w.t) && Goes(s, i, w)
    && p == Parse(PlaceBytes(w), if w.gap then Some(2 * |w.left|) else None, Value(w.t), |w.t|, i - |w.t|)
  }

  lemma OneMore(s: string, i: nat)
    requires i < |s|
    ensures s[..i + 1] == s[..i] + [s[i]]
  {
  }

  lemma DigitStands(s: string, i: nat, p: Parse, w: Place, p': Parse, w': Place)
    requires i < |s| && Stands(s, i, p, w) && XDigit(s[i]).Some? && p.seen < 4
    requires w' == w.(t := w.t + [s[i]]) && p' == p.(val := p.val * 16 + XDigit(s[i]).value, seen := p.seen + 1)
    ensures Stands(s, i + 1, p', w')
  {
    OneMore(s, i);
    ValueMore(w.t, s[i]);
    Assoc(if w.gap then Front(w.left) + Closed(w.right) else Closed(w.left), w.t, [s[i]]);
  }

  /** A colon that is the first of all is not met. */
  lemma NotFirst(s: string, i: nat, p: Parse, w: Place)
    requires i < |s| && Stands(s, i, p, w) && s[i] == ':' && w.t == "" && !w.gap
    ensures w.left != []
  {
    assert |s[..i]| == i && (w.left == [] ==> PlaceText(w) == "" + "");
  }

  lemma GapStands(s: string, i: nat, p: Parse, w: Place, p': Parse, w': Place)
    requires i < |s| && Stands(s, i, p, w) && s[i] == ':' && w.t == "" && !w.gap
    requires w' == w.(gap := true) && p' == p.(colon := Some(|p.out|), cur := i + 1)
    ensures Stands(s, i + 1, p', w')
  {
    OneMore(s, i);
    NotFirst(s, i, p, w);
    var c := Closed(w.left);
    assert Front(w.left) == c + ":" && Closed(w.right) == "";
    assert c + "" == c && (c + ":") + "" == c + ":";
  }

  lemma CloseStands(s: string, i: nat, p: Parse, w: Place, p': Parse, w': Place)
    requires i + 1 < |s| && Stands(s, i, p, w) && s[i] == ':' && w.t != "" && |p.out| + 2 <= 16 && p' == Stored(p, i + 1)
    requires w' == (if w.gap then w.(right := w.right + [w.t], t := "") else w.(left := w.left + [w.t], t := ""))
    ensures Stands(s, i + 1, p', w')
  {
    OneMore(s, i);
    var gs := if w.gap then w.right else w.left;
    ClosedMore(gs, w.t);
    GroupBytesMore(gs, w.t);
    Assoc(Closed(gs), w.t, ":");
    CloseText(w, w');
    Assoc(GroupBytes(w.left), GroupBytes(w.right), High(p.val));
    assert !w.gap ==> GroupBytes(w.left) + [] == GroupBytes(w.left) && GroupBytes(w'.left) + [] == GroupBytes(w'.left);
  }

  lemma CloseText(w: Place, w': Place)
    requires w' == (if w.gap then w.(right := w.right + [w.t], t := "") else w.(left := w.left + [w.t], t := ""))
    ensures PlaceText(w') == PlaceText(w) + ":"
  {
    var gs := if w.gap then w.right else w.left;
    ClosedMore(gs, w.t);
    Assoc(Closed(gs), w.t, ":");
    if w.gap {
      Assoc(Front(w.left), Closed(gs), w.t);
      Assoc(Front(w.left), Closed(gs) + w.t, ":");
      assert PlaceText(w') == Front(w.left) + Closed(w'.right);
    } else {
      assert PlaceText(w') == Closed(w'.left);
    }
  }

  /** The form of a text that ends with a token, or where the loop stands. */
  function FormAt(w: Place, side: Side): Form {
    if w.gap then Gapped(w.left, side) else Whole(side)
  }

  function EndSide(w: Place, last: Token): Side {
    Side(if w.gap then w.right else w.left, last)
  }

  lemma BeforeToken(s: string, i: nat, p: Parse, w: Place, cur: nat)
    requires i <= |s| && Stands(s, i, p, w) && cur == p.cur
    ensures cur <= i && s[..cur] == PlaceFront(w)
  {
    var front := s[..i];
    assert front[..cur] == s[..cur];
  }

  lemma EndText(s: string, w: Place, last: Token, cur: nat)
    requires cur <= |s| && s[..cur] == PlaceFront(w) && s[cur..] == TokenText(last)
    ensures Written(FormAt(w, EndSide(w, last))) == s
  {
    assert s == s[..cur] + s[cur..];
    if w.gap {
      Assoc(Front(w.left), Closed(w.right), TokenText(last));
    }
  }

  lemma EndBytes(s: string, i: nat, p: Parse, w: Place, last: Token, out: seq<Byte>)
    requires i <= |s| && Stands(s, i, p, w) && IsToken(last) && out == p.out + TokenBytes(last) && |out| <= 16
    ensures var f := FormAt(w, EndSide(w, last));
            && (p.colon.None? && |out| == 16 ==> WellFormed(f) && FormBytes(f) == out)
            && (p.colon.Some? && |out| < 16 ==> WellFormed(f) && FormBytes(f) == Widened(out, p.colon.value))
  {
    Assoc(GroupBytes(w.left), GroupBytes(w.right), TokenBytes(last));
    assert !w.gap ==> GroupBytes(w.left) + [] == GroupBytes(w.left);
  }

  lemma InGap(s: string, p: Parse, w: Place)
    requires Stands(s, |s|, p, w) && w.t == "" && Finish(p).Some?
    ensures w.gap
  {
    assert !w.gap ==> w.left == [] && |p.out| == 0;
  }

  /** Behind "::" with nothing after it. */
  lemma EndsInGap(s: string, p: Parse, w: Place, b: seq<Byte>)
    requires Stands(s, |s|, p, w) && w.t == "" && Finish(p) == Some(b)
    ensures IsForm(FormAt(w, Nothing), s, b)
  {
    assert s[..|s|] == s;
    InGap(s, p, w);
    var left := GroupBytes(w.left);
    assert w.right == [] && left + [] == left && Front(w.left) + "" == Front(w.left);
    FinishIs(p);
  }

  lemma FinishIs(q: Parse)
    requires ParseOk(q) && |Flushed(q)| <= 16
    ensures q.colon.None? ==> Finish(q) == if |Flushed(q)| == 16 then Some(Flushed(q)) else None
    ensures q.colon.Some? ==> Finish(q) == if |Flushed(q)| < 16 then Some(Widened(Flushed(q), q.colon.value)) else None
  {
    if q.colon.Some? {
      var out, c := Flushed(q), q.colon.value;
      Assoc(out[..c], Zeros(16 - |out|), out[c..]);
    }
  }

  /** What is stored, and the word that is still to be. */
  function Flushed(p: Parse): seq<Byte>
    requires ParseOk(p)
  {
    if p.seen > 0 then p.out + High(p.val) else p.out
  }

  lemma EndsInWord(s: string, p: Parse, w: Place, b: seq<Byte>)
    requires Stands(s, |s|, p, w) && w.t != "" && Finish(p) == Some(b)
    ensures IsForm(FormAt(w, EndSide(w, Group(w.t))), s, b)
  {
    assert s[..|s|] == s;
    var last := Group(w.t);
    assert s[p.cur..] == w.t;
    FinishIs(p);
    BeforeToken(s, |s|, p, w, p.cur);
    EndText(s, w, last, p.cur);
    EndBytes(s, |s|, p, w, last, Flushed(p));
  }

  lemma EndsInQuad(s: string, i: nat, p: Parse, w: Place, q: seq<Byte>, b: seq<Byte>)
    requires i <= |s| && Stands(s, i, p, w) && |q| == 4 && s[p.cur..] == Dotted(q) && |p.out| + 4 <= 16
    requires Finish(p.(out := p.out + q, seen := 0, val := 0)) == Some(b)
    ensures IsForm(FormAt(w, EndSide(w, Quad(q))), s, b)
  {
    FinishIs(p.(out := p.out + q, seen := 0, val := 0));
    BeforeToken(s, i, p, w, p.cur);
    EndText(s, w, Quad(q), p.cur);
    EndBytes(s, i, p, w, Quad(q), p.out + q);
  }

  /** The loop can be at p when it has read i characters. */
  ghost predicate Reached(s: string, i: nat, p: Parse)
    requires i <= |s|
  {
    exists w: Place :: Stands(s, i, p, w)
  }

  lemma {:induction false} OnlyForms(s: string, i: nat, p: Parse, b: seq<Byte>)
    requires i <= |s| && Reached(s, i, p) && ParseOk(p) && p.cur <= |s| && Scan6(s, i, p) == Some(b)
    ensures Denotes(s, b)
    decreases |s| - i
  {
    if i == |s| || s[i] == '.' {
      Ending(s, i, p, b);
    } else {
      var p' := NextPlace(s, i, p, b);
      OnlyForms(s, i + 1, p', b);
    }
  }

  lemma Ending(s: string, i: nat, p: Parse, b: seq<Byte>)
    requires i <= |s| && Reached(s, i, p) && ParseOk(p) && p.cur <= |s| && Scan6(s, i, p) == Some(b) && (i == |s| || s[i] == '.')
    ensures Denotes(s, b)
  {
    var w: Place :| Stands(s, i, p, w);
    if i < |s| {
      OnlyQuadForms(s, i, p, w, b);
    } else if w.t == "" {
      EndsInGap(s, p, w, b);
    } else {
      EndsInWord(s, p, w, b);
    }
  }

  lemma OnlyQuadForms(s: string, i: nat, p: Parse, w: Place, b: seq<Byte>)
    requires i < |s| && Stands(s, i, p, w) && p.cur <= |s| && s[i] == '.' && Scan6(s, i, p) == Some(b)
    ensures Denotes(s, b)
  {
    assert XDigit('.') == None;
    var q := Scan4(s[p.cur..], 0, [0], false).value;
    AcceptsQuads(s[p.cur..], [0], q);
    EndsInQuad(s, i, p, w, q, b);
  }

  lemma NextPlace(s: string, i: nat, p: Parse, b: seq<Byte>) returns (p': Parse)
    requires i < |s| && Reached(s, i, p) && ParseOk(p) && p.cur <= |s| && s[i] != '.' && Scan6(s, i, p) == Some(b)
    ensures Reached(s, i + 1, p') && p'.cur <= |s| && ParseOk(p') && Scan6(s, i + 1, p') == Some(b)
  {
    var w: Place :| Stands(s, i, p, w);
    if XDigit(s[i]).Some? {
      p' := p.(val := p.val * 16 + XDigit(s[i]).value, seen := p.seen + 1);
      DigitStands(s, i, p, w, p', w.(t := w.t + [s[i]]));
    } else if w.t == "" {
      p' := p.(colon := Some(|p.out|), cur := i + 1);
      GapStands(s, i, p, w, p', w.(gap := true));
    } else {
      p' := Stored(p, i + 1);
      var w' := if w.gap then w.(right := w.right + [w.t], t := "") else w.(left := w.left + [w.t], t := "");
      CloseStands(s, i, p, w, p', w');
    }
  }

  lemma OnlyAddresses(s: string, b: seq<Byte>)
    requires Parse6(s) == Some(b)
    ensures Denotes(s, b)
  {
    if s != [] && s[0] == ':' {
      var w, p := Place([], true, [], ""), Parse([], Some(0), 0, 0, 2);
      assert s[..2] == "::" && XDigit(':') == None;
      assert "" + "::" == "::" && ("::" + "") + "" == "::";
      assert Scan6(s, 2, p) == Some(b);
      assert Stands(s, 2, p, w);
      OnlyForms(s, 2, p, b);
    } else {
      var w, p := Place([], false, [], ""), Parse([], None, 0, 0, 0);
      assert Stands(s, 0, p, w);
      OnlyForms(s, 0, p, b);
    }
  }
}
