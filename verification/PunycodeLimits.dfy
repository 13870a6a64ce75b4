/** When the 32-bit arithmetic of src/idna.c:166-243 overflows: exactly when a delta does. */
module PunycodeLimits {
  import opened Arithmetic
  import opened Punycode
  import opened PunycodeRoundTrip

  const MAX_U32: nat := 0xFFFF_FFFF

  /** Some delta does not fit. */
  ghost predicate Big(deltas: seq<nat>) {
    exists i :: 0 <= i < |deltas| && deltas[i] > MAX_U32
  }

  lemma BigStays(a: seq<nat>, b: seq<nat>)
    requires a <= b && Big(a)
    ensures Big(b)
  {
    var i :| 0 <= i < |a| && a[i] > MAX_U32;
    assert b[i] > MAX_U32;
  }

  lemma {:induction false} ScanGrows(cs: seq<nat>, n: nat, p: nat, e: Enc)
    requires p <= |cs|
    ensures e.deltas <= Scan(cs, n, p, e).deltas && e.digits <= Scan(cs, n, p, e).digits
    decreases |cs| - p
  {
    if p < |cs| {
      ScanGrows(cs, n, p + 1, Visit(cs[p], n, e));
    }
  }

  lemma {:induction false} RoundsGrow(cs: seq<nat>, n: nat, e: Enc)
    ensures e.deltas <= Rounds(cs, n, e).deltas && e.digits <= Rounds(cs, n, e).digits
    decreases Left(cs, n)
  {
    if Left(cs, n) > 0 {
      var m := Least(cs, n);
      ScanGrows(cs, m, 0, Jump(n, m, e));
      FewerLeft(cs, n);
      RoundsGrow(cs, m + 1, Round(cs, n, e));
    }
  }

  /** n occurs at p or later. */
  ghost predicate Ahead(cs: seq<nat>, n: nat, p: nat) {
    exists i :: p <= i < |cs| && cs[i] == n
  }

  /** A delta past 2^32 - 1 never shrinks before it is written. */
  lemma {:induction false} ScanOver(cs: seq<nat>, n: nat, p: nat, e: Enc)
    requires p <= |cs| && e.delta > MAX_U32 && Ahead(cs, n, p)
    ensures Big(Scan(cs, n, p, e).deltas)
    decreases |cs| - p
  {
    var i :| p <= i < |cs| && cs[i] == n;
    if cs[p] == n {
      var e' := Emit(e);
      assert e'.deltas[|e.deltas|] > MAX_U32;
      ScanGrows(cs, n, p + 1, e');
      BigStays(e'.deltas, Scan(cs, n, p + 1, e').deltas);
    } else {
      assert p + 1 <= i;
      ScanOver(cs, n, p + 1, Visit(cs[p], n, e));
    }
  }

  lemma RoundsOver(cs: seq<nat>, n: nat, e: Enc)
    requires Left(cs, n) > 0 && Jump(n, Least(cs, n), e).delta > MAX_U32
    ensures Big(Rounds(cs, n, e).deltas)
  {
    var m := Least(cs, n);
    LeastIs(cs, n);
    var i :| 0 <= i < |cs| && cs[i] == m;
    ScanOver(cs, m, 0, Jump(n, m, e));
    FewerLeft(cs, n);
    RoundsGrow(cs, m + 1, Round(cs, n, e));
    BigStays(Round(cs, n, e).deltas, Rounds(cs, n, e).deltas);
  }

  /** Overflow in the middle of a round. */
  lemma ScanOverflows(cs: seq<nat>, n: nat, p: nat, e: Enc, whole: Enc)
    requires p <= |cs| && e.delta > MAX_U32 && Ahead(cs, n, p) && whole == Rounds(cs, n + 1, Bump(Scan(cs, n, p, e)))
    ensures Big(whole.deltas)
  {
    ScanOver(cs, n, p, e);
    RoundsGrow(cs, n + 1, Bump(Scan(cs, n, p, e)));
    BigStays(Scan(cs, n, p, e).deltas, whole.deltas);
  }

  // ---------- How many are left ----------

  lemma {:induction false} KeptLeft(cs: seq<nat>, n: nat)
    requires n > 0
    ensures |Kept(cs, n - 1)| + Left(cs, n) == |cs|
  {
    if cs != [] {
      KeptLeft(cs[..|cs| - 1], n);
    }
  }

  /** e.h counts what is handled. */
  predicate Counted(cs: seq<nat>, n: nat, p: nat, e: Enc) {
    n > 0 && p <= |cs| && e.h == |Done(cs, n, p)|
  }

  lemma VisitCounts(cs: seq<nat>, n: nat, p: nat, e: Enc)
    requires p < |cs| && Counted(cs, n, p, e)
    ensures Counted(cs, n, p + 1, Visit(cs[p], n, e))
    ensures cs[p] == n ==> e.h < |cs|
  {
    DoneStep(cs, n, p);
    assert |Done(cs, n, p + 1)| <= |cs|;
  }

  /** While a round is at n, todo is not yet zero; it is |cs| - h. */
  lemma RoundCounts(cs: seq<nat>, n: nat, e: Enc)
    requires Counted(cs, n, 0, e)
    ensures e.h + Left(cs, n) == |cs|
  {
    assert cs[..0] == [] && cs[0..] == cs;
    KeptLeft(cs, n);
  }

  lemma JumpCounts(cs: seq<nat>, n: nat, e: Enc)
    requires Counted(cs, n, 0, e) && Left(cs, n) > 0
    ensures Counted(cs, Least(cs, n), 0, Jump(n, Least(cs, n), e))
  {
    DoneJump(cs, n);
  }

  lemma NextCounts(cs: seq<nat>, n: nat, e: Enc)
    requires Counted(cs, n, |cs|, e)
    ensures Counted(cs, n + 1, 0, Bump(e))
  {
    assert cs[..|cs|] == cs && cs[|cs|..] == [] && cs[..0] == [] && cs[0..] == cs;
  }

  lemma StartCounts(cs: seq<nat>)
    ensures Counted(cs, 128, 0, Start(cs))
  {
    StartInStep(cs);
  }
}
