/** Waking a loop from other threads (src/unix/async.c): any number of senders and one loop thread, one atomic step at
    a time.  A step is one compare-and-swap, one read or write of the pipe, or one list operation of the loop. */
module AsyncSend {
  import opened Sequences

  type Handle = nat

  /** What one read of uv__async_io takes at most. */
  const BUF_SIZE: nat := 1024

  /** A thread in uv_async_send: not in it, past the cheap read, past the first compare-and-swap, past the write. */
  datatype Sender = Idle | Checked(h: Handle) | Claimed(h: Handle) | Written(h: Handle)

  /** The loop thread: outside uv__async_io; in its read loop; before QUEUE_MOVE; at the top of the list loop, with the
      local queue; between uv__async_spin and the callback; in the callback. */
  datatype Phase =
    | Outside
    | Woken
    | Reading
    | Moving
    | Scanning(local: seq<Handle>)
    | Calling(h: Handle, local: seq<Handle>)
    | InCallback(local: seq<Handle>)

  /** owed: a send has returned since the last callback start.  claims and calls count the sends that set `pending`
      from 0 to 1, and the callback starts. */
  datatype Info = Info(pending: nat, open: bool, hasCb: bool, owed: bool, claims: nat, calls: nat)

  /** bytes are in the pipe, which holds `room`; handles is loop->async_handles. */
  datatype State = State(infos: map<Handle, Info>, senders: seq<Sender>, bytes: nat, room: nat, loop: Phase,
                         handles: seq<Handle>, aborted: bool)

  datatype Action =
    | SendStart(i: nat, h: Handle)
    | Claim(i: nat)
    | Write(i: nat)
    | Finish(i: nat)
    | Wake
    | Read
    | Move
    | Visit
    | CallStart
    | CallEnd
    | ScanEnd
    | Init(h: Handle, hasCb: bool)
    | Close(h: Handle)

  function Local(p: Phase): seq<Handle> {
    match p
    case Scanning(local) => local
    case Calling(_, local) => local
    case InCallback(local) => local
    case _ => []
  }

  /** The loop thread runs code of the user. */
  predicate UserCode(p: Phase) {
    p.Outside? || p.InCallback?
  }

  predicate SenderAt(s: State, i: nat) {
    i < |s.senders| && (s.senders[i].Idle? || s.senders[i].h in s.infos)
  }

  predicate Enabled(s: State, a: Action) {
    match a
    case SendStart(i, h) => SenderAt(s, i) && s.senders[i].Idle? && h in s.infos && s.infos[h].open
    case Claim(i) => SenderAt(s, i) && s.senders[i].Checked?
    case Write(i) => SenderAt(s, i) && s.senders[i].Claimed?
    case Finish(i) => SenderAt(s, i) && s.senders[i].Written?
    case Wake => s.loop.Outside? && s.bytes > 0
    case Read => s.loop.Woken? || s.loop.Reading?
    case Move => s.loop.Moving?
    // uv__async_spin does not return while a sender is between its two compare-and-swaps.
    case Visit => s.loop.Scanning? && s.loop.local != [] && s.loop.local[0] in s.infos && s.infos[s.loop.local[0]].pending != 1
    case CallStart => s.loop.Calling? && s.loop.h in s.infos
    case CallEnd => s.loop.InCallback?
    case ScanEnd => s.loop.Scanning? && s.loop.local == []
    case Init(h, _) => UserCode(s.loop) && h !in s.infos
    case Close(h) => UserCode(s.loop) && h in s.infos && s.infos[h].open && s.infos[h].pending != 1
  }

  function With(s: State, h: Handle, i: Info): State {
    s.(infos := s.infos[h := i])
  }

  function SetSender(s: State, i: nat, p: Sender): State
    requires i < |s.senders|
  {
    s.(senders := s.senders[i := p])
  }

  /** Lines 64 and 65: `pending` is not 0, so somebody else's wake-up serves. */
  function StartIn(s: State, i: nat, h: Handle): State
    requires Enabled(s, SendStart(i, h))
  {
    var info := s.infos[h];
    if info.pending != 0 then With(s, h, info.(owed := true)) else SetSender(s, i, Checked(h))
  }

  /** Lines 68 and 69. */
  function ClaimIn(s: State, i: nat): State
    requires Enabled(s, Claim(i))
  {
    var h := s.senders[i].h;
    var info := s.infos[h];
    if info.pending != 0 then SetSender(With(s, h, info.(owed := true)), i, Idle)
    else SetSender(With(s, h, info.(pending := 1, claims := info.claims + 1)), i, Claimed(h))
  }

  /** Lines 174 to 185: a full pipe is as good as a byte written. */
  function WriteIn(s: State, i: nat): State
    requires Enabled(s, Write(i))
  {
    SetSender(s.(bytes := if s.bytes < s.room then s.bytes + 1 else s.bytes), i, Written(s.senders[i].h))
  }

  /** Lines 75 to 78. */
  function FinishIn(s: State, i: nat): State
    requires Enabled(s, Finish(i))
  {
    var h := s.senders[i].h;
    var info := s.infos[h];
    if info.pending != 1 then s.(aborted := true)
    else SetSender(With(s, h, info.(pending := 2, owed := true)), i, Idle)
  }

  /** Lines 119 to 128. */
  function ReadIn(s: State): State
    requires Enabled(s, Read)
  {
    if s.bytes >= BUF_SIZE then s.(bytes := s.bytes - BUF_SIZE, loop := Reading) else s.(bytes := 0, loop := Moving)
  }

  /** Lines 138 to 148, once uv__async_spin returns. */
  function VisitIn(s: State): State
    requires Enabled(s, Visit)
  {
    var h, rest := s.loop.local[0], s.loop.local[1..];
    var info := s.infos[h];
    var s1 := s.(handles := s.handles + [h]);
    if info.pending == 0 then s1.(loop := Scanning(rest))
    else With(s1, h, info.(pending := 0)).(loop := if info.hasCb then Calling(h, rest) else Scanning(rest))
  }

  function CallIn(s: State): State
    requires Enabled(s, CallStart)
  {
    var h := s.loop.h;
    With(s, h, s.infos[h].(owed := false, calls := s.infos[h].calls + 1)).(loop := InCallback(s.loop.local))
  }

  /** QUEUE_REMOVE takes the handle off whichever list it is on. */
  function CloseIn(s: State, h: Handle): State
    requires Enabled(s, Close(h))
  {
    With(s, h, s.infos[h].(open := false, pending := 0))
    .(handles := Without(s.handles, h), loop := if s.loop.Outside? then Outside else InCallback(Without(s.loop.local, h)))
  }

  function Apply(s: State, a: Action): State
    requires Enabled(s, a)
  {
    match a
    case SendStart(i, h) => StartIn(s, i, h)
    case Claim(i) => ClaimIn(s, i)
    case Write(i) => WriteIn(s, i)
    case Finish(i) => FinishIn(s, i)
    case Wake => s.(loop := Woken)
    case Read => ReadIn(s)
    case Move => s.(loop := Scanning(s.handles), handles := [])
    case Visit => VisitIn(s)
    case CallStart => CallIn(s)
    case CallEnd => s.(loop := Scanning(s.loop.local))
    case ScanEnd => s.(loop := Outside)
    case Init(h, hasCb) => With(s, h, Info(0, true, hasCb, false, 0, 0)).(handles := s.handles + [h])
    case Close(h) => CloseIn(s, h)
  }

  // ---------- The invariant ----------

  /** The loop will come to look at h's `pending`: there is a byte to wake it, or its scan is yet to visit h. */
  predicate Noticed(s: State, h: Handle) {
    s.bytes > 0 || s.loop.Reading? || s.loop.Moving? || h in Local(s.loop)
  }

  predicate Busy(s: State, i: nat, h: Handle) {
    i < |s.senders| && (s.senders[i] == Claimed(h) || s.senders[i] == Written(h))
  }

  ghost predicate SenderOk(s: State, i: nat) {
    i < |s.senders| ==>
      var p := s.senders[i];
      && (!p.Idle? ==> p.h in s.infos)
      && (p.Claimed? || p.Written? ==> s.infos[p.h].pending == 1)
      && (p.Written? && s.infos[p.h].open ==> Noticed(s, p.h))
  }

  predicate Apart(s: State, i: nat, j: nat) {
    i < |s.senders| && j < |s.senders| && i != j && (s.senders[i].Claimed? || s.senders[i].Written?) ==> !Busy(s, j, s.senders[i].h)
  }

  ghost predicate HasBusy(s: State, h: Handle) {
    exists i :: Busy(s, i, h)
  }

  /** h is in the middle of being called back. */
  predicate Due(s: State, h: Handle) {
    s.loop.Calling? && s.loop.h == h
  }

  ghost predicate HandleOk(s: State, h: Handle) {
    h in s.infos ==>
      var i := s.infos[h];
      && i.pending <= 2
      && (i.pending == 1 ==> HasBusy(s, h))
      && (i.pending == 2 && i.open ==> Noticed(s, h))
      && (i.owed && i.open && i.hasCb ==> i.pending != 0 || Due(s, h))
      && (i.open && i.hasCb ==> i.claims == i.calls + (if i.pending != 0 then 1 else 0) + (if Due(s, h) then 1 else 0))
      && (i.open ==> h in s.handles || h in Local(s.loop))
  }

  /** The lists hold open handles, each once. */
  ghost predicate ListsOk(s: State) {
    && (forall h :: h in s.handles || h in Local(s.loop) ==> h in s.infos && s.infos[h].open)
    && Distinct(s.handles + Local(s.loop))
    && (s.loop.Calling? ==> s.loop.h in s.handles)
    && (s.loop.Woken? ==> s.bytes > 0)
  }

  ghost predicate Inv(s: State) {
    && !s.aborted && s.room > 0 && ListsOk(s)
    && (forall i :: SenderOk(s, i))
    && (forall i, j :: Apart(s, i, j))
    && forall h :: HandleOk(s, h)
  }

  ghost predicate IsInit(s: State) {
    && s.infos == map[] && s.bytes == 0 && s.room > 0 && s.loop == Outside && s.handles == [] && !s.aborted
    && forall i :: 0 <= i < |s.senders| ==> s.senders[i] == Idle
  }

  lemma InitHolds(s: State)
    requires IsInit(s)
    ensures Inv(s)
  {
  }
}
