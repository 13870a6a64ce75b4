/** uv__idna_toascii (src/idna.c:250-291): a whole host name, label by label. */
module IdnaHost {
  import opened Idna
  import opened Utf8

  predicate IsDot(c: nat) {
    c == '.' as nat || c == 0x3002 || c == 0xFF0E || c == 0xFF61
  }

  /** The text of a host name, or the error of its first label that has none. */
  datatype Host = Failed(rc: int) | Text(text: string)

  ghost function Append(out: string, l: Label): Host {
    match l
    case Invalid => Failed(UV_EINVAL)
    case TooBig => Failed(UV_E2BIG)
    case Plain(text) => Text(out + text)
    case Coded(text) => Text(out + text)
  }

  // ---------- Any bytes ----------

  /** Everything that is read is there: each step of the walk over the host name, and the labels up to where a
      separator starts. */
  ghost predicate Reads(mem: seq<Byte>, s: nat, si: nat, se: nat)
    decreases se - si
  {
    if si >= se then s < se ==> Readable(mem, s, se)
    else
      && Fits(mem, si, se)
      && var (c, si') := Step(mem, si, se);
         if IsDot(c) then Readable(mem, s, si) && Reads(mem, si', si', se) else Reads(mem, s, si', se)
  }

  /** Every label is converted and followed by a dot for the separator behind it.  A label is the bytes from s to where
      the separator starts, decoded anew. */
  ghost function HostFrom(mem: seq<Byte>, s: nat, si: nat, se: nat, out: string): Host
    requires Reads(mem, s, si, se)
    decreases se - si
  {
    if si >= se then (if s < se then Append(out, LabelOf(CodePoints(mem, s, se))) else Text(out))
    else
      var (c, si') := Step(mem, si, se);
      if !IsDot(c) then HostFrom(mem, s, si', se, out)
      else
        match Append(out, LabelOf(CodePoints(mem, s, si)))
        case Failed(rc) => Failed(rc)
        case Text(text) => HostFrom(mem, si', si', se, text + ".")
  }

  /** Four readable bytes behind the name are always enough. */
  lemma {:induction false} RoomToRead(mem: seq<Byte>, s: nat, se: nat)
    requires se + 4 <= |mem|
    ensures Readable(mem, s, se)
    decreases |mem| - s
  {
    if s <= se {
      RoomToRead(mem, Step(mem, s, se).1, se);
    }
  }

  lemma {:induction false} RoomForHost(mem: seq<Byte>, s: nat, si: nat, se: nat)
    requires se + 4 <= |mem|
    ensures Reads(mem, s, si, se)
    decreases se - si
  {
    if si >= se {
      RoomToRead(mem, s, se);
    } else {
      var si' := Step(mem, si, se).1;
      RoomToRead(mem, s, si);
      RoomForHost(mem, s, si', se);
      RoomForHost(mem, si', si', se);
    }
  }

  // ---------- Well-formed UTF-8 ----------

  /** The host name of code points: cur is the label being read. */
  ghost function HostOf(out: string, cur: seq<nat>, rest: seq<nat>): Host
    decreases |rest|
  {
    if rest == [] then (if cur == [] then Text(out) else Append(out, LabelOf(cur)))
    else if !IsDot(rest[0]) then HostOf(out, cur + [rest[0]], rest[1..])
    else
      match Append(out, LabelOf(cur))
      case Failed(rc) => Failed(rc)
      case Text(text) => HostOf(text + ".", [], rest[1..])
  }

  predicate Unseparated(part: seq<nat>) {
    forall i :: 0 <= i < |part| ==> part[i] !in {0x2E, 0x3002, 0xFF0E, 0xFF61}
  }

  /** A host name is cut at the full stop and the ideographic, fullwidth and halfwidth ones, and nowhere else: the label
      before the first one is converted, and a dot stands behind it. */
  lemma {:induction false} HostSplits(out: string, cur: seq<nat>, part: seq<nat>, sep: nat, rest: seq<nat>)
    requires sep in {0x2E, 0x3002, 0xFF0E, 0xFF61} && Unseparated(part)
    ensures HostOf(out, cur, part + ([sep] + rest)) ==
            match Append(out, LabelOf(cur + part))
            case Failed(rc) => Failed(rc)
            case Text(text) => HostOf(text + ".", [], rest)
    decreases |part|
  {
    var all := part + ([sep] + rest);
    if part == [] {
      assert all == [sep] + rest && all[1..] == rest && cur + part == cur;
    } else {
      assert all[0] == part[0] && all[1..] == part[1..] + ([sep] + rest);
      assert cur + [part[0]] + part[1..] == cur + part;
      HostSplits(out, cur + [part[0]], part[1..], sep, rest);
    }
  }

  /** The last part, if there is one, has no dot behind it. */
  lemma {:induction false} HostEnds(out: string, cur: seq<nat>, part: seq<nat>)
    requires Unseparated(part)
    ensures HostOf(out, cur, part) == if cur + part == [] then Text(out) else Append(out, LabelOf(cur + part))
    decreases |part|
  {
    if part == [] {
      assert cur + part == cur;
    } else {
      assert cur + [part[0]] + part[1..] == cur + part;
      HostEnds(out, cur + [part[0]], part[1..]);
    }
  }

  lemma {:induction false} EncodedSnoc(cs: seq<nat>, c: nat)
    requires AllScalar(cs) && Scalar(c)
    ensures AllScalar(cs + [c]) && EncodedAll(cs + [c]) == EncodedAll(cs) + Encoded(c)
  {
    if cs == [] {
      assert [c][1..] == [];
    } else {
      assert (cs + [c])[1..] == cs[1..] + [c];
      EncodedSnoc(cs[1..], c);
    }
  }

  /** Between s and se lies the well-formed UTF-8 of cs, with a readable byte behind it. */
  ghost predicate Holds(mem: seq<Byte>, s: nat, se: nat, cs: seq<nat>) {
    AllScalar(cs) && s <= se <= |mem| && mem[s..se] == EncodedAll(cs) && Fits(mem, se, se)
  }

  /** The label from s to si is cur. */
  ghost predicate InLabel(mem: seq<Byte>, s: nat, si: nat, cur: seq<nat>) {
    AllScalar(cur) && s <= si <= |mem| && mem[s..si] == EncodedAll(cur)
  }

  /** One more code point is read. */
  lemma FirstStep(mem: seq<Byte>, si: nat, se: nat, rest: seq<nat>) returns (si': nat)
    requires si < se && Holds(mem, si, se, rest) && rest != []
    ensures si < si' <= se && si' == si + |Encoded(rest[0])| && StandAt(mem, si, Encoded(rest[0])) && Holds(mem, si', se, rest[1..])
    ensures Fits(mem, si, se) && Step(mem, si, se) == (rest[0], si')
  {
    si' := si + |Encoded(rest[0])|;
    FirstOfAll(mem, si, se, rest);
    StepDecodes(mem, si, se, rest[0]);
  }

  /** The current label gets longer. */
  lemma LabelGrows(mem: seq<Byte>, s: nat, si: nat, si': nat, cur: seq<nat>, c: nat)
    requires InLabel(mem, s, si, cur) && Scalar(c) && si' == si + |Encoded(c)| && StandAt(mem, si, Encoded(c))
    ensures InLabel(mem, s, si', cur + [c])
  {
    EncodedSnoc(cur, c);
    Adjoin(mem, s, si, si', Encoded(c));
  }

  lemma Adjoin(mem: seq<Byte>, s: nat, si: nat, si': nat, e: seq<Byte>)
    requires s <= si <= si' <= |mem| && si' == si + |e| && StandAt(mem, si, e)
    ensures mem[s..si'] == mem[s..si] + e
  {
    var q := mem[s..si];
    forall i | 0 <= i < |e| ensures mem[s..si'][|q| + i] == e[i] {
      assert mem[si + i] == e[i];
    }
  }

  /** A label ends where the separator starts. */
  lemma LabelHolds(mem: seq<Byte>, s: nat, st: nat, se: nat, cur: seq<nat>)
    requires AllScalar(cur) && s <= st < se && Fits(mem, st, se) && mem[s..st] == EncodedAll(cur)
    ensures Readable(mem, s, st) && CodePoints(mem, s, st) == cur
  {
    WellFormed(mem, s, st, cur);
  }

  lemma HostStep(mem: seq<Byte>, s: nat, si: nat, se: nat, cur: seq<nat>, rest: seq<nat>) returns (si': nat)
    requires si < se && Holds(mem, si, se, rest) && InLabel(mem, s, si, cur)
    ensures rest != [] && Fits(mem, si, se) && Step(mem, si, se) == (rest[0], si')
    ensures si < si' <= se && Holds(mem, si', se, rest[1..]) && InLabel(mem, s, si', cur + [rest[0]])
    ensures Readable(mem, s, si) && CodePoints(mem, s, si) == cur
  {
    assert rest != [];
    si' := FirstStep(mem, si, se, rest);
    assert rest[0] in rest;
    LabelGrows(mem, s, si, si', cur, rest[0]);
    LabelHolds(mem, s, si, se, cur);
  }

  /** Of well-formed UTF-8 with a readable byte behind it nothing more is read, and the host name is that of its code
      points. */
  lemma {:induction false} WellFormedHost(mem: seq<Byte>, s: nat, si: nat, se: nat, cur: seq<nat>, rest: seq<nat>, out: string)
    requires Holds(mem, si, se, rest) && InLabel(mem, s, si, cur)
    ensures Reads(mem, s, si, se) && HostFrom(mem, s, si, se, out) == HostOf(out, cur, rest)
    decreases |rest|
  {
    if si == se {
      assert rest == [];
      WellFormed(mem, s, se, cur);
      assert cur == [] <==> s == se;
    } else {
      var si' := HostStep(mem, s, si, se, cur, rest);
      if IsDot(rest[0]) {
        assert InLabel(mem, si', si', []);
        WellFormedHost(mem, si', si', se, [], rest[1..], "");
        var l := Append(out, LabelOf(cur));
        if l.Text? {
          WellFormedHost(mem, si', si', se, [], rest[1..], l.text + ".");
        }
      } else {
        WellFormedHost(mem, s, si', se, cur + [rest[0]], rest[1..], out);
      }
    }
  }

  // ---------- uv__idna_toascii ----------

  lemma Composed(before: string, a: string, b: string, size: nat)
    ensures Fit(Fit(before, a, size), b, size) == Fit(before, a + b, size)
  {
    assert before + a + b == before + (a + b);
  }

  /** Lines 269 to 275 and 281 to 285: a label and, if a separator follows, a dot. */
  method LabelAndDot(mem: seq<Byte>, s: nat, se: nat, buf: array<char>, d0: nat, dot: bool, ghost out: string, ghost cur: seq<nat>)
    returns (rc: int, d: nat)
    requires s <= se < s + 0x8000_0000 && Readable(mem, s, se) && CodePoints(mem, s, se) == cur
    requires d0 <= buf.Length && buf[..d0] == Fit("", out, buf.Length)
    modifies buf
    ensures match Append(out, LabelOf(cur))
            case Failed(e) => rc == e < 0
            case Text(t) => rc >= 0 && d <= buf.Length && buf[..d] == Fit("", if dot then t + "." else t, buf.Length)
  {
    rc, d := ToAsciiLabel(mem, s, se, buf, d0);
    if rc < 0 {
      return;
    }
    ghost var l := LabelOf(cur);
    ghost var t := if l.Plain? || l.Coded? then l.text else "";
    Composed("", out, t, buf.Length);
    if dot {
      d := Put(buf, d, '.', "", out + t);
    }
  }

  /** uv__idna_toascii. */
  method ToAscii(mem: seq<Byte>, s0: nat, se: nat, buf: array<char>) returns (r: int)
    requires s0 <= se < s0 + 0x8000_0000 && Reads(mem, s0, s0, se)
    modifies buf
    ensures match HostFrom(mem, s0, s0, se, "")
            case Failed(rc) => r == rc < 0
            case Text(t) => 0 <= r <= buf.Length && buf[..r] == Fit("", t + ['\0'], buf.Length)
  {
    var s, si, d: nat := s0, s0, 0;
    ghost var out := "";
    while si < se
      invariant s0 <= s <= si && Reads(mem, s, si, se) && d <= buf.Length && buf[..d] == Fit("", out, buf.Length)
      invariant HostFrom(mem, s0, s0, se, "") == HostFrom(mem, s, si, se, out)
      decreases se - si
    {
      var st := si;
      var c;
      c, si := Decode1(mem, si, se);
      if c != '.' as nat {
        if c != 0x3002 {
          if c != 0xFF0E {
            if c != 0xFF61 {
              continue;
            }
          }
        }
      }
      var rc;
      ghost var l := Append(out, LabelOf(CodePoints(mem, s, st)));
      rc, d := LabelAndDot(mem, s, st, buf, d, true, out, CodePoints(mem, s, st));
      if rc < 0 {
        return rc;
      }
      out := l.text + ".";
      s := si;
    }
    r := LastLabel(mem, s, se, buf, d, out);
  }

  /** Lines 280 to 290. */
  method LastLabel(mem: seq<Byte>, s: nat, se: nat, buf: array<char>, d0: nat, ghost out: string) returns (r: int)
    requires s < se ==> Readable(mem, s, se) && se < s + 0x8000_0000
    requires d0 <= buf.Length && buf[..d0] == Fit("", out, buf.Length)
    modifies buf
    ensures match if s < se then Append(out, LabelOf(CodePoints(mem, s, se))) else Text(out)
            case Failed(rc) => r == rc < 0
            case Text(t) => 0 <= r <= buf.Length && buf[..r] == Fit("", t + ['\0'], buf.Length)
  {
    var d := d0;
    ghost var text := out;
    if s < se {
      ghost var l := Append(out, LabelOf(CodePoints(mem, s, se)));
      var rc;
      rc, d := LabelAndDot(mem, s, se, buf, d, false, out, CodePoints(mem, s, se));
      if rc < 0 {
        return rc;
      }
      text := l.text;
    }
    d := Put(buf, d, '\0', "", text);
    return d;
  }
}
