/** No wake-up is lost, over every interleaving of senders with the loop. */
module AsyncTheorems {
  import opened Sequences
  import opened AsyncSend
  import opened AsyncKeeps

  // ---------- Runs ----------

  ghost predicate IsRun(s: State, acts: seq<Action>)
    decreases |acts|
  {
    acts != [] ==> Enabled(s, acts[0]) && IsRun(Apply(s, acts[0]), acts[1..])
  }

  ghost function After(s: State, acts: seq<Action>): State
    requires IsRun(s, acts)
    decreases |acts|
  {
    if acts == [] then s else After(Apply(s, acts[0]), acts[1..])
  }

  lemma {:induction false} RunKeeps(s: State, acts: seq<Action>)
    requires Inv(s) && IsRun(s, acts)
    ensures Inv(After(s, acts))
    decreases |acts|
  {
    if acts != [] {
      StepKeeps(s, acts[0]);
      RunKeeps(Apply(s, acts[0]), acts[1..]);
    }
  }

  /** No run from the initial state reaches the abort. */
  lemma NeverAborts(s: State, acts: seq<Action>)
    requires IsInit(s) && IsRun(s, acts)
    ensures !After(s, acts).aborted
  {
    InitHolds(s);
    RunKeeps(s, acts);
  }

  /** The steps of the library itself: not the calls that users choose to make. */
  predicate Internal(a: Action) {
    !a.SendStart? && !a.Init? && !a.Close?
  }

  ghost predicate Quiet(s: State) {
    forall a :: Internal(a) ==> !Enabled(s, a)
  }

  /** A callback is owed to h: a send returned, and no callback has started since. */
  predicate Owed(s: State, h: Handle) {
    h in s.infos && s.infos[h].owed && s.infos[h].open && s.infos[h].hasCb
  }

  lemma BusyMoves(s: State, i: nat, h: Handle)
    requires Inv(s) && Busy(s, i, h)
    ensures Enabled(s, Write(i)) || Enabled(s, Finish(i))
  {
    assert SenderOk(s, i);
  }

  lemma NoSenderQuiet(s: State, h: Handle)
    requires Inv(s) && Quiet(s) && h in s.infos
    ensures s.infos[h].pending != 1
  {
    assert HandleOk(s, h);
    if s.infos[h].pending == 1 {
      var i :| Busy(s, i, h);
      BusyMoves(s, i, h);
    }
  }

  lemma QuietIsStill(s: State, h: Handle)
    requires Inv(s) && Quiet(s) && h in s.infos && s.infos[h].open
    ensures s.infos[h].pending == 0 && !Due(s, h)
  {
    assert HandleOk(s, h);
    NoSenderQuiet(s, h);
    assert !Enabled(s, Wake) && !Enabled(s, Read) && !Enabled(s, Move) && !Enabled(s, CallStart) && !Enabled(s, CallEnd);
    assert !Enabled(s, ScanEnd) && !Enabled(s, Visit);
    if s.loop.Scanning? {
      var g := s.loop.local[0];
      assert g in Local(s.loop);
      NoSenderQuiet(s, g);
    }
  }

  /** A system that has come to rest owes nothing. */
  lemma QuietOwesNothing(s: State, h: Handle)
    requires Inv(s) && Quiet(s)
    ensures !Owed(s, h)
  {
    assert HandleOk(s, h);
    if h in s.infos && s.infos[h].open {
      QuietIsStill(s, h);
    }
  }

  /** What is owed is paid by a callback start, and by nothing else while the handle is open. */
  lemma OnlyCallPays(s: State, a: Action, h: Handle)
    requires Inv(s) && Enabled(s, a) && Owed(s, h) && !Owed(Apply(s, a), h)
    ensures a == Close(h) || (a == CallStart && s.loop.h == h)
  {
    assert HandleOk(s, h);
  }

  ghost predicate CallsBack(s: State, acts: seq<Action>, h: Handle)
    requires IsRun(s, acts)
    decreases |acts|
  {
    acts != [] && ((acts[0] == CallStart && s.loop.h == h) || CallsBack(Apply(s, acts[0]), acts[1..], h))
  }

  /** A handle that is owed a callback has one by the time everything is quiet, if nobody closes it. */
  lemma {:induction false} OwedIsAnswered(s: State, acts: seq<Action>, h: Handle)
    requires Inv(s) && IsRun(s, acts) && Owed(s, h) && Close(h) !in acts && Quiet(After(s, acts))
    ensures CallsBack(s, acts, h)
    decreases |acts|
  {
    if acts == [] {
      QuietOwesNothing(s, h);
    } else {
      StepKeeps(s, acts[0]);
      if Owed(Apply(s, acts[0]), h) {
        OwedIsAnswered(Apply(s, acts[0]), acts[1..], h);
      } else {
        OnlyCallPays(s, acts[0], h);
      }
    }
  }

  // ---------- Every send is owed an answer ----------

  /** Sender i is in a call of uv_async_send for h. */
  predicate InCall(s: State, i: nat, h: Handle) {
    i < |s.senders| && !s.senders[i].Idle? && s.senders[i].h == h
  }

  /** h is open and has a callback. */
  predicate Callable(s: State, h: Handle) {
    h in s.infos && s.infos[h].open && s.infos[h].hasCb
  }

  /** A send that has been made is under way, or has returned and is owed a callback. */
  lemma SendOwes(s: State, i: nat, h: Handle)
    requires Inv(s) && Enabled(s, SendStart(i, h)) && Callable(s, h)
    ensures InCall(Apply(s, SendStart(i, h)), i, h) || Owed(Apply(s, SendStart(i, h)), h)
    ensures Callable(Apply(s, SendStart(i, h)), h)
  {
  }

  /** A send that returns leaves its handle owed a callback. */
  lemma ReturnOwes(s: State, a: Action, i: nat, h: Handle)
    requires Inv(s) && Enabled(s, a) && InCall(s, i, h) && Callable(s, h) && a != Close(h)
    ensures Callable(Apply(s, a), h) && (InCall(Apply(s, a), i, h) || Owed(Apply(s, a), h))
  {
    assert SenderOk(s, i);
  }

  lemma CallableStays(s: State, a: Action, h: Handle)
    requires Inv(s) && Enabled(s, a) && Callable(s, h) && a != Close(h)
    ensures Callable(Apply(s, a), h)
  {
  }

  /** Following the run to where sender i has returned from its call for h, a callback of h starts behind that. */
  ghost predicate AnsweredAfterReturn(s: State, acts: seq<Action>, i: nat, h: Handle)
    requires IsRun(s, acts)
    decreases |acts|
  {
    if InCall(s, i, h) then acts != [] && AnsweredAfterReturn(Apply(s, acts[0]), acts[1..], i, h)
    else CallsBack(s, acts, h)
  }

  lemma {:induction false} CallIsAnswered(s: State, acts: seq<Action>, i: nat, h: Handle)
    requires Inv(s) && IsRun(s, acts) && Callable(s, h) && Close(h) !in acts && Quiet(After(s, acts))
    requires InCall(s, i, h) || Owed(s, h)
    ensures AnsweredAfterReturn(s, acts, i, h)
    decreases |acts|
  {
    if !InCall(s, i, h) {
      OwedIsAnswered(s, acts, h);
    } else if acts == [] {
      InCallMoves(s, i, h);
    } else {
      StepKeeps(s, acts[0]);
      ReturnOwes(s, acts[0], i, h);
      CallIsAnswered(Apply(s, acts[0]), acts[1..], i, h);
    }
  }

  lemma InCallMoves(s: State, i: nat, h: Handle)
    requires Inv(s) && InCall(s, i, h)
    ensures !Quiet(s)
  {
    assert SenderOk(s, i);
    assert Enabled(s, Claim(i)) || Enabled(s, Write(i)) || Enabled(s, Finish(i));
  }

  /** Every send is answered: in any run that begins with a send to an open handle with a callback, never closes the
      handle, and ends at rest, the send returns and a callback of the handle starts after that. */
  lemma SendIsAnswered(s: State, acts: seq<Action>, i: nat, h: Handle)
    requires Inv(s) && IsRun(s, acts) && acts != [] && acts[0] == SendStart(i, h)
    requires Callable(s, h) && Close(h) !in acts && Quiet(After(s, acts))
    ensures AnsweredAfterReturn(Apply(s, acts[0]), acts[1..], i, h) && CallsBack(s, acts, h)
  {
    SendOwes(s, i, h);
    StepKeeps(s, acts[0]);
    CallIsAnswered(Apply(s, acts[0]), acts[1..], i, h);
    AnswerIsCall(Apply(s, acts[0]), acts[1..], i, h);
  }

  lemma {:induction false} AnswerIsCall(s: State, acts: seq<Action>, i: nat, h: Handle)
    requires IsRun(s, acts) && AnsweredAfterReturn(s, acts, i, h)
    ensures CallsBack(s, acts, h)
    decreases |acts|
  {
    if InCall(s, i, h) {
      AnswerIsCall(Apply(s, acts[0]), acts[1..], i, h);
    }
  }

  /** A handle can be sent to from its initialisation on, by any thread that is not in another call, and is called back
      if it was given a callback. */
  lemma InitialisedIsOpen(s: State, h: Handle, hasCb: bool)
    requires Inv(s) && Enabled(s, Init(h, hasCb))
    ensures var s' := Apply(s, Init(h, hasCb));
            && h in s'.infos && s'.infos[h].open && (Callable(s', h) <==> hasCb)
            && forall i :: 0 <= i < |s.senders| && s.senders[i].Idle? ==> Enabled(s', SendStart(i, h))
  {
  }

  // ---------- A closed handle stays silent ----------

  predicate Shut(s: State, h: Handle) {
    h in s.infos && !s.infos[h].open
  }

  /** uv_close takes the handle off the loop's lists, with nothing pending. */
  lemma CloseShuts(s: State, h: Handle)
    requires Inv(s) && Enabled(s, Close(h))
    ensures var s' := Apply(s, Close(h));
            Shut(s', h) && s'.infos[h].pending == 0 && h !in s'.handles && h !in Local(s'.loop)
  {
    CloseLists(s, h);
  }

  lemma ShutStays(s: State, a: Action, h: Handle)
    requires Inv(s) && Enabled(s, a) && Shut(s, h)
    ensures Shut(Apply(s, a), h)
  {
  }

  /** Once closed, a handle is not called back any more, whatever senders do. */
  lemma {:induction false} ClosedIsSilent(s: State, acts: seq<Action>, h: Handle)
    requires Inv(s) && IsRun(s, acts) && Shut(s, h)
    ensures !CallsBack(s, acts, h)
    decreases |acts|
  {
    if acts != [] {
      StepKeeps(s, acts[0]);
      ShutStays(s, acts[0], h);
      ClosedIsSilent(Apply(s, acts[0]), acts[1..], h);
    }
  }

  // ---------- The loop goes round ----------

  /** The handles in the order in which the loop visits them, those visited in this scan first. */
  function Circle(s: State): seq<Handle> {
    s.handles + Local(s.loop)
  }

  /** Visiting does not change the order: a handle that has been looked at goes to the end of the list. */
  lemma OrderStays(s: State, a: Action)
    requires Inv(s) && Enabled(s, a) && !a.Init? && !a.Close?
    ensures Circle(Apply(s, a)) == Circle(s)
  {
    if a.Visit? {
      var h, rest := s.loop.local[0], s.loop.local[1..];
      Assoc(s.handles, [h], rest);
      assert [h] + rest == s.loop.local;
    }
  }

  /** A write adds one byte to a pipe that is not full. */
  lemma WriteFills(s: State, i: nat)
    requires Inv(s) && Enabled(s, Write(i)) && s.bytes <= s.room
    ensures var b := Apply(s, Write(i)).bytes; b <= s.room && (b == s.bytes + 1 || (b == s.bytes == s.room))
  {
  }

  function Reads(n: nat): seq<Action> {
    if n == 0 then [] else [Read] + Reads(n - 1)
  }

  /** The read loop empties the pipe, 1024 bytes at a time, and goes on after the first short read. */
  lemma {:induction false} ReadsDrain(s: State)
    requires Enabled(s, Read)
    ensures var acts := Reads(s.bytes / 1024 + 1); IsRun(s, acts) && After(s, acts) == s.(bytes := 0, loop := Moving)
    decreases s.bytes
  {
    var acts := Reads(s.bytes / 1024 + 1);
    assert acts[1..] == Reads(s.bytes / 1024);
    if s.bytes >= 1024 {
      ReadsDrain(Apply(s, Read));
    } else {
      assert acts[1..] == [];
    }
  }

  // ---------- The system does come to rest ----------

  function Weight(p: Sender): nat {
    match p
    case Idle => 0
    case Checked(_) => 4
    case Claimed(_) => 3
    case Written(_) => 1
  }

  function Weights(ps: seq<Sender>): nat {
    if ps == [] then 0 else Weight(ps[0]) + Weights(ps[1..])
  }

  lemma {:induction false} WeightChange(ps: seq<Sender>, i: nat, p: Sender)
    requires i < |ps|
    ensures Weights(ps[i := p]) == Weights(ps) - Weight(ps[i]) + Weight(p)
  {
    if i == 0 {
      assert ps[i := p][1..] == ps[1..];
    } else {
      assert ps[i := p][1..] == ps[1..][i - 1 := p];
      WeightChange(ps[1..], i - 1, p);
    }
  }

  function Listed(s: State): nat {
    |s.handles| + |Local(s.loop)|
  }

  function PhaseRank(s: State): int {
    match s.loop
    case Outside => 0
    case Woken => -1
    case Reading => 3 * |s.handles| + 3
    case Moving => 3 * |s.handles| + 2
    case Scanning(local) => 3 * |local| + 1
    case Calling(_, local) => 3 * |local| + 3
    case InCallback(local) => 3 * |local| + 2
  }

  /** Bytes in the pipe and the steps that senders still have to take, each worth a whole turn of the loop. */
  function Rank(s: State): int {
    (3 * Listed(s) + 5) * (s.bytes + Weights(s.senders)) + PhaseRank(s)
  }

  lemma RankBound(s: State)
    requires Inv(s)
    ensures Rank(s) >= 0
  {
    if s.loop.Woken? {
      Product(3 * Listed(s) + 5, 1, s.bytes + Weights(s.senders));
    }
  }

  lemma Product(c: nat, x: nat, y: nat)
    requires x <= y
    ensures c * x <= c * y
  {
  }

  /** Every internal step lowers the rank. */
  lemma StepLowers(s: State, a: Action)
    requires Inv(s) && Enabled(s, a) && Internal(a)
    ensures Rank(Apply(s, a)) < Rank(s)
  {
    if a.Claim? || a.Write? || a.Finish? {
      SenderLowers(s, a);
    } else if a.Read? {
      ReadLowers(s);
    } else {
      LoopLowers(s, a);
    }
  }

  lemma SenderLowers(s: State, a: Action)
    requires Inv(s) && Enabled(s, a) && (a.Claim? || a.Write? || a.Finish?)
    ensures Rank(Apply(s, a)) < Rank(s)
  {
    var s', i := Apply(s, a), a.i;
    assert SenderOk(s, i);
    SenderFalls(s, s', i, s'.senders[i]);
  }

  lemma SenderFalls(s: State, s': State, i: nat, p: Sender)
    requires i < |s.senders| && s'.senders == s.senders[i := p] && s'.bytes + Weight(p) < s.bytes + Weight(s.senders[i])
    requires Listed(s') == Listed(s) && PhaseRank(s') <= PhaseRank(s) + 3 * Listed(s) + 4
    ensures Rank(s') < Rank(s)
  {
    WeightChange(s.senders, i, p);
    LessByOne(3 * Listed(s) + 5, s'.bytes + Weights(s'.senders), s.bytes + Weights(s.senders));
  }

  lemma LessByOne(c: nat, x: nat, y: nat)
    requires x < y
    ensures c * x + c <= c * y
  {
    Product(c, x + 1, y);
    assert c * (x + 1) == c * x + c;
  }

  lemma ReadLowers(s: State)
    requires Inv(s) && Enabled(s, Read)
    ensures Rank(Apply(s, Read)) < Rank(s)
  {
    var s' := Apply(s, Read);
    if s'.bytes < s.bytes {
      var c, x, y := 3 * Listed(s) + 5, s'.bytes + Weights(s.senders), s.bytes + Weights(s.senders);
      LessByOne(c, x, y);
    }
  }

  lemma LoopLowers(s: State, a: Action)
    requires Inv(s) && Enabled(s, a) && (a.Wake? || a.Move? || a.Visit? || a.CallStart? || a.CallEnd? || a.ScanEnd?)
    ensures Rank(Apply(s, a)) < Rank(s)
  {
    var s' := Apply(s, a);
    assert Listed(s') == Listed(s) && s'.bytes == s.bytes && s'.senders == s.senders;
    assert PhaseRank(s') < PhaseRank(s);
  }

  /** A run of internal steps is no longer than the rank says, so that every run can be driven to rest. */
  lemma {:induction false} RunsEnd(s: State, acts: seq<Action>)
    requires Inv(s) && IsRun(s, acts) && forall a :: a in acts ==> Internal(a)
    ensures |acts| <= Rank(s) - Rank(After(s, acts)) && Rank(After(s, acts)) >= 0
    decreases |acts|
  {
    if acts == [] {
      RankBound(s);
    } else {
      StepLowers(s, acts[0]);
      StepKeeps(s, acts[0]);
      RunsEnd(Apply(s, acts[0]), acts[1..]);
    }
  }

  /** From every state of the invariant the library's own steps lead to rest, and on the way h is called back. */
  lemma {:induction false} CallbackComes(s: State, h: Handle) returns (acts: seq<Action>)
    requires Inv(s) && Owed(s, h)
    ensures IsRun(s, acts) && (forall a :: a in acts ==> Internal(a)) && CallsBack(s, acts, h)
    decreases Rank(s)
  {
    RankBound(s);
    if Quiet(s) {
      QuietOwesNothing(s, h);
      acts := [];
    } else {
      var a :| Internal(a) && Enabled(s, a);
      StepKeeps(s, a);
      StepLowers(s, a);
      if Owed(Apply(s, a), h) {
        RankBound(Apply(s, a));
        var rest := CallbackComes(Apply(s, a), h);
        acts := [a] + rest;
        assert acts[1..] == rest;
      } else {
        OnlyCallPays(s, a, h);
        acts := [a];
        assert acts[1..] == [];
      }
    }
  }

  // ---------- As many callbacks as claims ----------

  /** A step in which `pending` of h goes from 0 to 1. */
  predicate Claims(s: State, a: Action, h: Handle)
    requires Enabled(s, a)
  {
    h in s.infos && h in Apply(s, a).infos && s.infos[h].pending == 0 && Apply(s, a).infos[h].pending == 1
  }

  predicate Calls(s: State, a: Action, h: Handle) {
    a == CallStart && s.loop.Calling? && s.loop.h == h
  }

  ghost function ClaimsMade(s: State, acts: seq<Action>, h: Handle): nat
    requires IsRun(s, acts)
    decreases |acts|
  {
    if acts == [] then 0 else (if Claims(s, acts[0], h) then 1 else 0) + ClaimsMade(Apply(s, acts[0]), acts[1..], h)
  }

  ghost function CallsMade(s: State, acts: seq<Action>, h: Handle): nat
    requires IsRun(s, acts)
    decreases |acts|
  {
    if acts == [] then 0 else (if Calls(s, acts[0], h) then 1 else 0) + CallsMade(Apply(s, acts[0]), acts[1..], h)
  }

  function ClaimsOf(s: State, h: Handle): nat {
    if h in s.infos then s.infos[h].claims else 0
  }

  function CallsOf(s: State, h: Handle): nat {
    if h in s.infos then s.infos[h].calls else 0
  }

  lemma StepCounts(s: State, a: Action, h: Handle)
    requires Inv(s) && Enabled(s, a)
    ensures ClaimsOf(Apply(s, a), h) == ClaimsOf(s, h) + if Claims(s, a, h) then 1 else 0
    ensures CallsOf(Apply(s, a), h) == CallsOf(s, h) + if Calls(s, a, h) then 1 else 0
  {
  }

  lemma {:induction false} RunCounts(s: State, acts: seq<Action>, h: Handle)
    requires Inv(s) && IsRun(s, acts)
    ensures ClaimsOf(After(s, acts), h) == ClaimsOf(s, h) + ClaimsMade(s, acts, h)
    ensures CallsOf(After(s, acts), h) == CallsOf(s, h) + CallsMade(s, acts, h)
    decreases |acts|
  {
    if acts != [] {
      StepKeeps(s, acts[0]);
      StepCounts(s, acts[0], h);
      RunCounts(Apply(s, acts[0]), acts[1..], h);
    }
  }

  /** Sends coalesce but callbacks do not multiply: in a run from the start, every change of `pending` from 0 to 1 gets
      one callback start of its own, and there is no other. */
  lemma OneCallEach(s: State, acts: seq<Action>, h: Handle)
    requires IsInit(s) && IsRun(s, acts) && Callable(After(s, acts), h)
    ensures CallsMade(s, acts, h) <= ClaimsMade(s, acts, h) <= CallsMade(s, acts, h) + 2
    ensures Quiet(After(s, acts)) ==> CallsMade(s, acts, h) == ClaimsMade(s, acts, h)
  {
    var e := After(s, acts);
    InitHolds(s);
    RunKeeps(s, acts);
    RunCounts(s, acts, h);
    assert HandleOk(e, h);
    if Quiet(e) {
      QuietIsStill(e, h);
    }
  }
}
