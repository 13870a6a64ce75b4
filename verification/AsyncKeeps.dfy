/** Every step of the wake-up protocol keeps its invariant. */
module AsyncKeeps {
  import opened Sequences
  import opened AsyncSend

  /** No sender, phase or list changes, and only one handle, whose `pending` stays the same. */
  lemma OwedKeeps(s: State, h: Handle)
    requires Inv(s) && h in s.infos && s.infos[h].pending != 0
    ensures Inv(With(s, h, s.infos[h].(owed := true)))
  {
    var s' := With(s, h, s.infos[h].(owed := true));
    forall i ensures SenderOk(s', i) {
      assert SenderOk(s, i);
    }
    forall i, j ensures Apart(s', i, j) {
      assert Apart(s, i, j);
    }
    forall g ensures HandleOk(s', g) {
      assert HandleOk(s, g);
      SameBusy(s, s', g);
    }
  }

  lemma SameBusy(s: State, s': State, h: Handle)
    requires forall i :: Busy(s, i, h) ==> Busy(s', i, h)
    ensures HasBusy(s, h) ==> HasBusy(s', h)
  {
    if HasBusy(s, h) {
      var i :| Busy(s, i, h);
      assert Busy(s', i, h);
    }
  }

  /** A sender that is not between its compare-and-swaps moves. */
  lemma SenderKeeps(s: State, i: nat, p: Sender)
    requires Inv(s) && i < |s.senders| && !s.senders[i].Claimed? && !s.senders[i].Written?
    requires p == Idle || (p.Checked? && p.h in s.infos)
    ensures Inv(SetSender(s, i, p))
  {
    var s' := SetSender(s, i, p);
    forall j ensures SenderOk(s', j) {
      assert SenderOk(s, j);
    }
    forall j, k ensures Apart(s', j, k) {
      assert Apart(s, j, k);
    }
    forall g ensures HandleOk(s', g) {
      assert HandleOk(s, g);
      SameBusy(s, s', g);
    }
  }

  lemma StartKeeps(s: State, i: nat, h: Handle)
    requires Inv(s) && Enabled(s, SendStart(i, h))
    ensures Inv(StartIn(s, i, h))
  {
    if s.infos[h].pending != 0 {
      OwedKeeps(s, h);
    } else {
      SenderKeeps(s, i, Checked(h));
    }
  }

  lemma ClaimKeeps(s: State, i: nat)
    requires Inv(s) && Enabled(s, Claim(i))
    ensures Inv(ClaimIn(s, i))
  {
    var h := s.senders[i].h;
    if s.infos[h].pending != 0 {
      OwedKeeps(s, h);
      SenderKeeps(With(s, h, s.infos[h].(owed := true)), i, Idle);
    } else {
      ClaimWins(s, i, h);
    }
  }

  lemma ClaimWins(s: State, i: nat, h: Handle)
    requires Inv(s) && Enabled(s, Claim(i)) && h == s.senders[i].h && s.infos[h].pending == 0
    ensures Inv(ClaimIn(s, i))
  {
    var s' := ClaimIn(s, i);
    forall j ensures SenderOk(s', j) {
      assert SenderOk(s, j);
    }
    forall j, k ensures Apart(s', j, k) {
      assert Apart(s, j, k);
      assert SenderOk(s, j) && SenderOk(s, k);
    }
    assert Busy(s', i, h);
    forall g ensures HandleOk(s', g) {
      assert HandleOk(s, g);
      if g != h {
        SameBusy(s, s', g);
      }
    }
  }

  lemma WriteKeeps(s: State, i: nat)
    requires Inv(s) && Enabled(s, Write(i))
    ensures Inv(WriteIn(s, i))
  {
    var s' := WriteIn(s, i);
    forall j ensures SenderOk(s', j) {
      assert SenderOk(s, j);
    }
    forall j, k ensures Apart(s', j, k) {
      assert Apart(s, j, k);
    }
    forall g ensures HandleOk(s', g) {
      assert HandleOk(s, g);
      SameBusy(s, s', g);
    }
  }

  lemma FinishKeeps(s: State, i: nat)
    requires Inv(s) && Enabled(s, Finish(i))
    ensures Inv(FinishIn(s, i))
  {
    var s', h := FinishIn(s, i), s.senders[i].h;
    assert SenderOk(s, i);
    forall j ensures SenderOk(s', j) {
      assert SenderOk(s, j) && Apart(s, i, j);
    }
    forall j, k ensures Apart(s', j, k) {
      assert Apart(s, j, k);
    }
    forall g ensures HandleOk(s', g) {
      assert HandleOk(s, g);
      if g != h {
        SameBusy(s, s', g);
      }
    }
  }

  /** The loop thread moves without touching a handle; whatever it had noticed stays noticed. */
  lemma LoopKeeps(s: State, s': State)
    requires Inv(s) && s'.infos == s.infos && s'.senders == s.senders && s'.room == s.room && !s'.aborted
    requires ListsOk(s') && !s.loop.Calling? && !s'.loop.Calling?
    requires forall h :: h in s.infos && s.infos[h].open && Noticed(s, h) ==> Noticed(s', h)
    requires forall h :: h in s.handles || h in Local(s.loop) ==> h in s'.handles || h in Local(s'.loop)
    ensures Inv(s')
  {
    forall j ensures SenderOk(s', j) {
      assert SenderOk(s, j);
    }
    forall j, k ensures Apart(s', j, k) {
      assert Apart(s, j, k);
    }
    forall g ensures HandleOk(s', g) {
      assert HandleOk(s, g);
      SameBusy(s, s', g);
    }
  }

  lemma MoveKeeps(s: State)
    requires Inv(s) && Enabled(s, Move)
    ensures Inv(Apply(s, Move))
  {
    var s' := Apply(s, Move);
    assert s'.handles + Local(s'.loop) == s.handles + Local(s.loop);
    forall h | h in s.infos && s.infos[h].open ensures h in Local(s'.loop) {
      assert HandleOk(s, h);
    }
    LoopKeeps(s, s');
  }

  lemma PlainKeeps(s: State, a: Action)
    requires Inv(s) && Enabled(s, a) && (a.Wake? || a.Read? || a.CallEnd? || a.ScanEnd?)
    ensures Inv(Apply(s, a))
  {
    assert Local(Apply(s, a).loop) == Local(s.loop);
    LoopKeeps(s, Apply(s, a));
  }

  lemma VisitLists(s: State)
    requires ListsOk(s) && Enabled(s, Visit)
    ensures ListsOk(VisitIn(s))
    ensures s.loop.local[0] !in s.loop.local[1..] && s.loop.local[0] !in s.handles
  {
    var h, rest, s' := s.loop.local[0], s.loop.local[1..], VisitIn(s);
    assert s'.handles + Local(s'.loop) == s.handles + [h] + rest == s.handles + Local(s.loop);
    assert Local(s.loop) == [h] + rest;
    Halves(s.handles, Local(s.loop));
    Halves([h], rest);
    forall g | g in s'.handles || g in Local(s'.loop) ensures g in s.handles || g in Local(s.loop) {
      assert g in s'.handles ==> g in s.handles || g == h;
    }
  }

  lemma VisitKeeps(s: State)
    requires Inv(s) && Enabled(s, Visit)
    ensures Inv(VisitIn(s))
  {
    var h, s' := s.loop.local[0], VisitIn(s);
    VisitLists(s);
    assert HandleOk(s, h);
    forall j ensures SenderOk(s', j) {
      assert SenderOk(s, j);
    }
    forall j, k ensures Apart(s', j, k) {
      assert Apart(s, j, k);
    }
    forall g ensures HandleOk(s', g) {
      assert HandleOk(s, g);
      SameBusy(s, s', g);
      assert g in Local(s.loop) ==> g == h || g in Local(s'.loop);
    }
  }

  lemma CallKeeps(s: State)
    requires Inv(s) && Enabled(s, CallStart)
    ensures Inv(CallIn(s))
  {
    var s' := CallIn(s);
    forall j ensures SenderOk(s', j) {
      assert SenderOk(s, j);
    }
    forall j, k ensures Apart(s', j, k) {
      assert Apart(s, j, k);
    }
    forall g ensures HandleOk(s', g) {
      assert HandleOk(s, g);
      SameBusy(s, s', g);
    }
  }

  lemma NewKeeps(s: State, h: Handle, hasCb: bool)
    requires Inv(s) && Enabled(s, Init(h, hasCb))
    ensures Inv(Apply(s, Init(h, hasCb)))
  {
    var s' := Apply(s, Init(h, hasCb));
    forall j ensures SenderOk(s', j) {
      assert SenderOk(s, j);
    }
    forall j, k ensures Apart(s', j, k) {
      assert Apart(s, j, k);
    }
    forall g ensures HandleOk(s', g) {
      assert HandleOk(s, g);
      SameBusy(s, s', g);
    }
    AddedOnce(s.handles, Local(s.loop), h);
  }

  lemma AddedOnce(a: seq<Handle>, b: seq<Handle>, h: Handle)
    requires Distinct(a + b) && h !in a && h !in b
    ensures Distinct(a + [h] + b)
  {
    var c, d := a + b, a + [h] + b;
    forall i, j | 0 <= i < j < |d| ensures d[i] != d[j] {
      assert d[i] == if i < |a| then c[i] else if i == |a| then h else c[i - 1];
      assert d[j] == if j < |a| then c[j] else if j == |a| then h else c[j - 1];
      assert forall k :: 0 <= k < |c| ==> c[k] in a || c[k] in b;
    }
  }

  lemma Halves(a: seq<Handle>, b: seq<Handle>)
    requires Distinct(a + b)
    ensures Distinct(a) && Distinct(b) && forall g :: g in a ==> g !in b
  {
    var c := a + b;
    assert forall i :: 0 <= i < |a| ==> a[i] == c[i];
    assert forall i :: 0 <= i < |b| ==> b[i] == c[|a| + i];
  }

  lemma Joined(a: seq<Handle>, b: seq<Handle>)
    requires Distinct(a) && Distinct(b) && forall g :: g in a ==> g !in b
    ensures Distinct(a + b)
  {
    var c := a + b;
    forall i, j | 0 <= i < j < |c| ensures c[i] != c[j] {
      assert if i < |a| then c[i] in a else c[i] == b[i - |a|];
      assert if j < |a| then c[j] == a[j] else c[j] in b;
    }
  }

  lemma CloseLists(s: State, h: Handle)
    requires ListsOk(s) && Enabled(s, Close(h))
    ensures ListsOk(CloseIn(s, h))
    ensures forall g :: g in CloseIn(s, h).handles <==> g in s.handles && g != h
    ensures forall g :: g in Local(CloseIn(s, h).loop) <==> g in Local(s.loop) && g != h
  {
    var s' := CloseIn(s, h);
    Halves(s.handles, Local(s.loop));
    WithoutIs(s.handles, h);
    WithoutDistinct(s.handles, h);
    WithoutIs(Local(s.loop), h);
    WithoutDistinct(Local(s.loop), h);
    Joined(s'.handles, Local(s'.loop));
  }

  lemma CloseKeeps(s: State, h: Handle)
    requires Inv(s) && Enabled(s, Close(h))
    ensures Inv(CloseIn(s, h))
  {
    var s' := CloseIn(s, h);
    CloseLists(s, h);
    forall j ensures SenderOk(s', j) {
      assert SenderOk(s, j);
    }
    forall j, k ensures Apart(s', j, k) {
      assert Apart(s, j, k);
    }
    forall g ensures HandleOk(s', g) {
      assert HandleOk(s, g);
      SameBusy(s, s', g);
    }
  }

  lemma StepKeeps(s: State, a: Action)
    requires Inv(s) && Enabled(s, a)
    ensures Inv(Apply(s, a))
  {
    match a
    case SendStart(i, h) => StartKeeps(s, i, h);
    case Claim(i) => ClaimKeeps(s, i);
    case Write(i) => WriteKeeps(s, i);
    case Finish(i) => FinishKeeps(s, i);
    case Move => MoveKeeps(s);
    case Visit => VisitKeeps(s);
    case CallStart => CallKeeps(s);
    case Init(h, hasCb) => NewKeeps(s, h, hasCb);
    case Close(h) => CloseKeeps(s, h);
    case _ => PlainKeeps(s, a);
  }

  /** The abort at line 76 is unreachable: whoever set `pending` to 1 finds it at 1. */
  lemma NoAbort(s: State, i: nat)
    requires Inv(s) && Enabled(s, Finish(i))
    ensures s.infos[s.senders[i].h].pending == 1
  {
    assert SenderOk(s, i);
  }

  /** At most one sender is between the two compare-and-swaps of a handle. */
  lemma OneBusy(s: State, i: nat, j: nat, h: Handle)
    requires Inv(s) && Busy(s, i, h) && Busy(s, j, h)
    ensures i == j
  {
    assert Apart(s, i, j);
  }
}
