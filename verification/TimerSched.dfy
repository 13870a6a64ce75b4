/** What timers do to a loop, on values: the state behind src/timer.c and the handle macros of src/uv-common.h, and
    what one uv__run_timers pass may do to it when callbacks start and stop timers as they like. */
module TimerSched {
  import opened Sequences
  import opened HeapSlots
  import opened HeapOrder

  /** (uint64_t) -1. */
  const MAX_U64: nat := 0xFFFF_FFFF_FFFF_FFFF

  const INT_MAX: nat := 0x7FFF_FFFF

  /** A uv_timer_t, but for its heap links. */
  datatype Info = Info(timeout: nat, startId: nat, repeat: nat, hasCb: bool, active: bool, ref: bool, closing: bool)

  /** loop->time, loop->timer_counter, loop->active_handles, and every timer that was initialised on the loop. */
  datatype Sched = Sched(time: nat, counter: nat, handles: int, infos: map<Timer, Info>)

  function KeyIn(i: Info): Key {
    Key(i.timeout, i.startId)
  }

  ghost function Armed(s: Sched): set<Timer> {
    set t | t in s.infos && s.infos[t].active
  }

  /** The handles that keep the loop alive. */
  ghost function Live(infos: map<Timer, Info>): set<Timer> {
    set t | t in infos && IsLive(infos[t])
  }

  predicate IsLive(i: Info) {
    i.active && i.ref
  }

  ghost function DueSet(s: Sched): set<Timer> {
    set t | t in s.infos && s.infos[t].active && s.infos[t].timeout <= s.time
  }

  predicate InfoOk(i: Info, counter: nat) {
    && i.timeout <= MAX_U64 && i.repeat <= MAX_U64
    && (i.active ==> i.hasCb && !i.closing && i.startId < counter)
  }

  /** `others` counts the active and referenced handles that are not timers. */
  ghost predicate Inv(s: Sched, others: nat) {
    && s.time <= MAX_U64 && s.handles == others + |Live(s.infos)|
    && (forall t :: t in s.infos ==> InfoOk(s.infos[t], s.counter))
    && forall t, u :: t in Armed(s) && u in Armed(s) && t != u ==> s.infos[t].startId != s.infos[u].startId
  }

  // ---------- The operations ----------

  function With(s: Sched, t: Timer, i: Info): Sched {
    s.(infos := s.infos[t := i])
  }

  /** uv__handle_stop. */
  function Stopped(s: Sched, t: Timer): Sched
    requires t in s.infos
  {
    var i := s.infos[t];
    if !i.active then s
    else With(s, t, i.(active := false)).(handles := s.handles - if i.ref then 1 else 0)
  }

  /** The deadline of a timer started now: the sum, or (uint64_t) -1 when it does not fit. */
  function Deadline(time: nat, timeout: nat): nat {
    if time + timeout <= MAX_U64 then time + timeout else MAX_U64
  }

  /** uv_timer_start. */
  function Started(s: Sched, t: Timer, cb: bool, timeout: nat, repeat: nat): Sched
    requires t in s.infos
  {
    if s.infos[t].closing || !cb then s
    else
      var s1 := Stopped(s, t);
      var i := s1.infos[t].(hasCb := true, timeout := Deadline(s.time, timeout), repeat := repeat, startId := s.counter, active := true);
      With(s1, t, i).(counter := s.counter + 1, handles := s1.handles + if i.ref then 1 else 0)
  }

  /** uv_timer_again. */
  function Rearmed(s: Sched, t: Timer): Sched
    requires t in s.infos
  {
    var i := s.infos[t];
    if !i.hasCb || i.repeat == 0 then s else Started(Stopped(s, t), t, true, i.repeat, i.repeat)
  }

  /** uv__handle_ref. */
  function Reffed(s: Sched, t: Timer): Sched
    requires t in s.infos
  {
    var i := s.infos[t];
    if i.ref then s
    else With(s, t, i.(ref := true)).(handles := s.handles + if !i.closing && i.active then 1 else 0)
  }

  /** uv__handle_unref. */
  function Unreffed(s: Sched, t: Timer): Sched
    requires t in s.infos
  {
    var i := s.infos[t];
    if !i.ref then s
    else With(s, t, i.(ref := false)).(handles := s.handles - if !i.closing && i.active then 1 else 0)
  }

  /** uv_close, as far as the timer goes. */
  function Closed(s: Sched, t: Timer): Sched
    requires t in s.infos
  {
    Stopped(With(s, t, s.infos[t].(closing := true)), t)
  }

  /** uv_timer_set_repeat. */
  function RepeatSet(s: Sched, t: Timer, repeat: nat): Sched
    requires t in s.infos
  {
    With(s, t, s.infos[t].(repeat := repeat))
  }

  /** uv_timer_init.  The C code leaves timeout and start_id as they were: nothing reads them until they are set. */
  function Added(s: Sched, t: Timer): Sched {
    With(s, t, Info(0, 0, 0, false, false, true, false))
  }

  // ---------- What every operation keeps ----------

  /** Changing one timer changes the live handles by at most that one. */
  lemma LiveChange(infos: map<Timer, Info>, t: Timer, i: Info)
    ensures |Live(infos[t := i])| == |Live(infos)| - (if t in infos && IsLive(infos[t]) then 1 else 0) + (if IsLive(i) then 1 else 0)
  {
    var a, b := Live(infos), Live(infos[t := i]);
    forall u ensures u in b <==> if u == t then IsLive(i) else u in a {
    }
    OneChanged(a, b, t);
  }

  /** Changing one timer keeps the invariant, if the change keeps its own part of it and the count. */
  lemma ChangeKeeps(s: Sched, others: nat, t: Timer, i: Info, s': Sched)
    requires Inv(s, others) && s'.infos == s.infos[t := i] && s'.time == s.time && s'.counter >= s.counter && InfoOk(i, s'.counter)
    requires i.active ==> i.startId == s.counter || (t in Armed(s) && s.infos[t].startId == i.startId)
    requires s'.handles == s.handles - (if t in s.infos && IsLive(s.infos[t]) then 1 else 0) + if IsLive(i) then 1 else 0
    ensures Inv(s', others)
    ensures Armed(s') == Armed(s) - {t} + if i.active then {t} else {}
  {
    LiveChange(s.infos, t, i);
    forall u | u in s'.infos ensures InfoOk(s'.infos[u], s'.counter) {
      assert u != t ==> InfoOk(s.infos[u], s.counter);
    }
    ChangeIds(s, others, t, i, s');
  }

  lemma ChangeIds(s: Sched, others: nat, t: Timer, i: Info, s': Sched)
    requires Inv(s, others) && s'.infos == s.infos[t := i]
    requires i.active ==> i.startId == s.counter || (t in Armed(s) && s.infos[t].startId == i.startId)
    ensures forall u, v :: u in Armed(s') && v in Armed(s') && u != v ==> s'.infos[u].startId != s'.infos[v].startId
  {
    forall u, v | u in Armed(s') && v in Armed(s') && u != v ensures s'.infos[u].startId != s'.infos[v].startId {
      if u == t || v == t {
        DistinctIds(s, others, t, i, u, v);
      } else {
        assert u in Armed(s) && v in Armed(s);
      }
    }
  }

  lemma DistinctIds(s: Sched, others: nat, t: Timer, i: Info, u: Timer, v: Timer)
    requires Inv(s, others) && u != v && (u in Armed(s) || u == t) && (v in Armed(s) || v == t) && i.active
    requires i.startId == s.counter || (t in Armed(s) && s.infos[t].startId == i.startId)
    ensures s.infos[t := i][u].startId != s.infos[t := i][v].startId
  {
    assert u in Armed(s) ==> InfoOk(s.infos[u], s.counter);
    assert v in Armed(s) ==> InfoOk(s.infos[v], s.counter);
  }

  lemma StopKeeps(s: Sched, others: nat, t: Timer)
    requires Inv(s, others) && t in s.infos
    ensures Inv(Stopped(s, t), others) && Armed(Stopped(s, t)) == Armed(s) - {t}
  {
    if s.infos[t].active {
      ChangeKeeps(s, others, t, s.infos[t].(active := false), Stopped(s, t));
    }
  }

  lemma StartKeeps(s: Sched, others: nat, t: Timer, cb: bool, timeout: nat, repeat: nat)
    requires Inv(s, others) && t in s.infos && repeat <= MAX_U64
    ensures Inv(Started(s, t, cb, timeout, repeat), others)
    ensures Armed(Started(s, t, cb, timeout, repeat)) == if s.infos[t].closing || !cb then Armed(s) else Armed(s) + {t}
  {
    if !s.infos[t].closing && cb {
      var s1, s' := Stopped(s, t), Started(s, t, cb, timeout, repeat);
      StopKeeps(s, others, t);
      ChangeKeeps(s1, others, t, s'.infos[t], s');
    }
  }

  lemma AgainKeeps(s: Sched, others: nat, t: Timer)
    requires Inv(s, others) && t in s.infos
    ensures Inv(Rearmed(s, t), others)
  {
    var i := s.infos[t];
    if i.hasCb && i.repeat != 0 {
      StopKeeps(s, others, t);
      StartKeeps(Stopped(s, t), others, t, true, i.repeat, i.repeat);
    }
  }

  lemma RefKeeps(s: Sched, others: nat, t: Timer)
    requires Inv(s, others) && t in s.infos
    ensures Inv(Reffed(s, t), others) && Armed(Reffed(s, t)) == Armed(s)
  {
    if !s.infos[t].ref {
      ChangeKeeps(s, others, t, s.infos[t].(ref := true), Reffed(s, t));
    }
  }

  lemma UnrefKeeps(s: Sched, others: nat, t: Timer)
    requires Inv(s, others) && t in s.infos
    ensures Inv(Unreffed(s, t), others) && Armed(Unreffed(s, t)) == Armed(s)
  {
    if s.infos[t].ref {
      ChangeKeeps(s, others, t, s.infos[t].(ref := false), Unreffed(s, t));
    }
  }

  lemma CloseKeeps(s: Sched, others: nat, t: Timer)
    requires Inv(s, others) && t in s.infos
    ensures Inv(Closed(s, t), others) && Armed(Closed(s, t)) == Armed(s) - {t}
  {
    ChangeKeeps(s, others, t, s.infos[t].(closing := true, active := false), Closed(s, t));
  }

  lemma RepeatKeeps(s: Sched, others: nat, t: Timer, repeat: nat)
    requires Inv(s, others) && t in s.infos && repeat <= MAX_U64
    ensures Inv(RepeatSet(s, t, repeat), others) && Armed(RepeatSet(s, t, repeat)) == Armed(s)
  {
    ChangeKeeps(s, others, t, s.infos[t].(repeat := repeat), RepeatSet(s, t, repeat));
  }

  lemma InitKeeps(s: Sched, others: nat, t: Timer)
    requires Inv(s, others) && t !in s.infos
    ensures Inv(Added(s, t), others) && Armed(Added(s, t)) == Armed(s)
  {
    ChangeKeeps(s, others, t, Info(0, 0, 0, false, false, true, false), Added(s, t));
  }
}
