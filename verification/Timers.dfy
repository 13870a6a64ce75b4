/** src/timer.c and the handle macros of src/uv-common.h:235-273, on timers and a heap updated in place.  Every method
    is proved equal to its counterpart in TimerSched. */
module Timers {
  import opened HeapSlots
  import opened HeapOrder
  import opened TimerHeap
  import opened TimerPass
  import opened TimerSched

  const UV_EINVAL: int := -22

  class TimerLoop {
    const heap: Heap
    var time: nat
    var timerCounter: nat
    var activeHandles: int
    /** The timers initialised on this loop, all from `pool`; and how many other handles are active and referenced. */
    ghost var timers: set<Timer>
    ghost const pool: set<Timer>
    ghost const others: nat

    ghost function View(): Sched
      reads this, timers`timeout, timers`startId, timers`repeat, timers`hasCb, timers`active, timers`ref, timers`closing
    {
      Sched(time, timerCounter, activeHandles, map t | t in timers :: InfoOf(t))
    }

    /** ACTIVE timers, and only they, have their node in the heap. */
    ghost predicate Valid()
      reads this, timers`timeout, timers`startId, timers`repeat, timers`hasCb, timers`active, timers`ref, timers`closing
      reads heap, heap.Nodes()`left, heap.Nodes()`right, heap.Nodes()`parent, heap.Nodes()`timeout, heap.Nodes()`startId
    {
      heap.Valid() && heap.Nodes() == Armed(View()) && timers <= pool && Inv(View(), others)
    }

    /** A loop at time `now` with no timers, and `held` other handles active and referenced. */
    constructor (now: nat, held: nat, ghost all: set<Timer>)
      requires now <= MAX_U64
      ensures Valid() && fresh(heap) && pool == all && View() == Sched(now, 0, held, map[])
    {
      heap := new Heap();
      time, timerCounter, activeHandles := now, 0, held;
      timers, pool, others := {}, all, held;
      new;
      assert Live(View().infos) == {} && Armed(View()) == {};
    }

    method SetActive(t: Timer, v: bool)
      requires t in timers
      modifies t`active
      ensures View() == With(old(View()), t, old(View()).infos[t].(active := v))
      ensures heap.Valid() == old(heap.Valid()) && heap.Nodes() == old(heap.Nodes())
    {
      t.active := v;
      assert View().infos == old(View()).infos[t := InfoOf(t)];
    }

    /** uv__handle_start. */
    method HandleStart(t: Timer)
      requires t in timers
      modifies this`activeHandles, t`active
      ensures View() == Activated(old(View()), t)
      ensures heap.Valid() == old(heap.Valid()) && heap.Nodes() == old(heap.Nodes())
    {
      if t.active {
        return;
      }
      SetActive(t, true);
      if t.ref {
        activeHandles := activeHandles + 1;
      }
    }

    /** uv__handle_stop. */
    method HandleStop(t: Timer)
      requires t in timers
      modifies this`activeHandles, t`active
      ensures View() == Stopped(old(View()), t)
      ensures heap.Valid() == old(heap.Valid()) && heap.Nodes() == old(heap.Nodes())
    {
      if !t.active {
        return;
      }
      SetActive(t, false);
      if t.ref {
        activeHandles := activeHandles - 1;
      }
    }

    method SetRef(t: Timer, v: bool)
      requires t in timers
      modifies t`ref
      ensures View() == With(old(View()), t, old(View()).infos[t].(ref := v))
      ensures heap.Valid() == old(heap.Valid()) && heap.Nodes() == old(heap.Nodes())
    {
      t.ref := v;
      assert View().infos == old(View()).infos[t := InfoOf(t)];
    }

    /** uv__handle_ref. */
    method HandleRef(t: Timer)
      requires t in timers
      modifies this`activeHandles, t`ref
      ensures View() == Reffed(old(View()), t)
      ensures heap.Valid() == old(heap.Valid()) && heap.Nodes() == old(heap.Nodes())
    {
      if t.ref {
        return;
      }
      SetRef(t, true);
      Recount(t, 1);
    }

    /** uv__handle_unref. */
    method HandleUnref(t: Timer)
      requires t in timers
      modifies this`activeHandles, t`ref
      ensures View() == Unreffed(old(View()), t)
      ensures heap.Valid() == old(heap.Valid()) && heap.Nodes() == old(heap.Nodes())
    {
      if !t.ref {
        return;
      }
      SetRef(t, false);
      Recount(t, -1);
    }

    /** The last two lines of both: uv__active_handle_add, or uv__active_handle_rm. */
    method Recount(t: Timer, change: int)
      modifies this`activeHandles
      ensures View() == old(View()).(handles := old(activeHandles) + if !t.closing && t.active then change else 0)
      ensures heap.Valid() == old(heap.Valid()) && heap.Nodes() == old(heap.Nodes())
    {
      if t.closing {
        return;
      }
      if t.active {
        activeHandles := activeHandles + change;
      }
    }

    /** uv_ref. */
    method TimerRef(t: Timer)
      requires Valid() && t in timers
      modifies this`activeHandles, t`ref
      ensures Valid() && View() == Reffed(old(View()), t) && t.ref
      ensures activeHandles == old(activeHandles) + if t.active && !old(t.ref) then 1 else 0
    {
      RefKeeps(View(), others, t);
      InfoIs(t);
      HandleRef(t);
      InfoIs(t);
    }

    /** uv_unref. */
    method TimerUnref(t: Timer)
      requires Valid() && t in timers
      modifies this`activeHandles, t`ref
      ensures Valid() && View() == Unreffed(old(View()), t) && !t.ref
      ensures activeHandles == old(activeHandles) - if t.active && old(t.ref) then 1 else 0
    {
      UnrefKeeps(View(), others, t);
      InfoIs(t);
      HandleUnref(t);
      InfoIs(t);
    }

    /** uv__handle_init, and the two fields uv_timer_init sets. */
    method HandleInit(t: Timer)
      requires t !in timers
      modifies this`timers, t`timeout, t`startId, t`repeat, t`hasCb, t`active, t`ref, t`closing
      ensures timers == old(timers) + {t} && View() == Added(old(View()), t)
    {
      t.active, t.closing, t.ref := false, false, true;
      t.timeout, t.startId := 0, 0;
      t.hasCb := false;
      t.repeat := 0;
      timers := timers + {t};
      assert View().infos == old(View()).infos[t := InfoOf(t)];
    }

    /** uv_timer_init. */
    method TimerInit(t: Timer)
      requires Valid() && t !in timers && t in pool
      modifies this`timers, t`timeout, t`startId, t`repeat, t`hasCb, t`active, t`ref, t`closing
      ensures Valid() && View() == Added(old(View()), t) && timers == old(timers) + {t}
      ensures !t.active && !t.closing && t.ref && !t.hasCb && t.repeat == 0
    {
      InitKeeps(View(), others, t);
      assert t !in heap.Nodes();
      HandleInit(t);
      InfoIs(t);
    }

    /** uv_timer_stop. */
    method TimerStop(t: Timer)
      requires Valid() && t in timers
      modifies this`activeHandles, t`active, heap, heap.Nodes()`left, heap.Nodes()`right, heap.Nodes()`parent
      ensures Valid() && View() == Stopped(old(View()), t) && !t.active
    {
      StopKeeps(View(), others, t);
      if !t.active {
        return;
      }
      Detach(t);
      InfoIs(t);
    }

    /** Lines 101 to 104. */
    method Detach(t: Timer)
      requires heap.Valid() && t in timers && t in heap.Nodes()
      modifies this`activeHandles, t`active, heap, heap.Nodes()`left, heap.Nodes()`right, heap.Nodes()`parent
      ensures heap.Valid() && heap.Nodes() == old(heap.Nodes()) - {t} && View() == Stopped(old(View()), t)
    {
      TakeOut(t);
      HandleStop(t);
    }

    /** heap_remove of an armed timer. */
    method TakeOut(t: Timer)
      requires heap.Valid() && t in heap.Nodes()
      modifies heap, heap.Nodes()`left, heap.Nodes()`right, heap.Nodes()`parent
      ensures heap.Valid() && heap.Nodes() == old(heap.Nodes()) - {t} && View() == old(View())
    {
      heap.Remove(t);
    }

    /** Lines 77 to 85: the fields of a timer that is not in the heap. */
    method SetTimer(t: Timer, timeout: nat, repeat: nat)
      requires t in timers && time <= MAX_U64 && timeout <= MAX_U64
      modifies this`timerCounter, t`hasCb, t`timeout, t`repeat, t`startId
      ensures View() == TimerSet(old(View()), t, timeout, repeat)
    {
      var clamped := Clamped(time, timeout);
      t.hasCb := true;
      t.timeout := clamped;
      t.repeat := repeat;
      t.startId := timerCounter;
      timerCounter := timerCounter + 1;
      assert View().infos == old(View()).infos[t := InfoOf(t)];
    }

    /** Lines 78 to 80: a sum that wraps around is less than its summands. */
    method Clamped(now: nat, timeout: nat) returns (clamped: nat)
      requires now <= MAX_U64 && timeout <= MAX_U64
      ensures clamped == Deadline(now, timeout)
    {
      clamped := (now + timeout) % (MAX_U64 + 1);
      if clamped < timeout {
        clamped := MAX_U64;
      }
    }

    method InsertNode(t: Timer)
      requires heap.Valid() && t !in heap.Nodes()
      modifies t`left, t`right, t`parent, heap, heap.Nodes()`left, heap.Nodes()`right, heap.Nodes()`parent
      ensures heap.Valid() && heap.Nodes() == old(heap.Nodes()) + {t} && View() == old(View())
    {
      heap.Insert(t);
    }

    /** heap_insert and uv__handle_start. */
    method PutIn(t: Timer)
      requires heap.Valid() && t in timers && t !in heap.Nodes() && !t.active
      modifies this`activeHandles, t`active, t`left, t`right, t`parent, heap, heap.Nodes()`left, heap.Nodes()`right, heap.Nodes()`parent
      ensures heap.Valid() && heap.Nodes() == old(heap.Nodes()) + {t}
      ensures View() == Activated(old(View()), t)
    {
      InsertNode(t);
      HandleStart(t);
    }

    /** Lines 77 to 91, for a timer that is not armed. */
    method Arm(t: Timer, timeout: nat, repeat: nat)
      requires heap.Valid() && t in timers && t !in heap.Nodes() && !t.active && !t.closing
      requires time <= MAX_U64 && timeout <= MAX_U64
      modifies this`timerCounter, this`activeHandles, t, heap, heap.Nodes()`left, heap.Nodes()`right, heap.Nodes()`parent
      ensures heap.Valid() && heap.Nodes() == old(heap.Nodes()) + {t} && View() == Started(old(View()), t, true, timeout, repeat)
    {
      SetInTwoSteps(View(), t, timeout, repeat);
      SetTimer(t, timeout, repeat);
      PutIn(t);
    }

    /** Lines 74 and 75. */
    method Disarm(t: Timer)
      requires Valid() && t in timers
      modifies this`activeHandles, t`active, heap, heap.Nodes()`left, heap.Nodes()`right, heap.Nodes()`parent
      ensures heap.Valid() && View() == Stopped(old(View()), t) && !t.active && heap.Nodes() == old(heap.Nodes()) - {t}
    {
      StopKeeps(View(), others, t);
      if t.active {
        TimerStop(t);
      }
      assert !View().infos[t].active;
    }

    /** uv_timer_start. */
    method TimerStart(t: Timer, cb: bool, timeout: nat, repeat: nat) returns (err: int)
      requires Valid() && t in timers && timeout <= MAX_U64 && repeat <= MAX_U64
      modifies this`timerCounter, this`activeHandles, t, heap, heap.Nodes()`left, heap.Nodes()`right, heap.Nodes()`parent
      ensures Valid() && View() == Started(old(View()), t, cb, timeout, repeat)
      ensures err == if old(t.closing) || !cb then UV_EINVAL else 0
      ensures err == 0 ==> t.active && t.hasCb && t.repeat == repeat && !t.closing && t.ref == old(t.ref)
      ensures err == 0 ==> t.timeout == Saturated(time + timeout)
      ensures err == 0 ==> t.startId == old(timerCounter) && timerCounter == old(timerCounter) + 1
      ensures err != 0 ==> View() == old(View())
    {
      InfoIs(t);
      if t.closing || !cb {
        return UV_EINVAL;
      }
      StartKeeps(View(), others, t, true, timeout, repeat);
      Restart(t, timeout, repeat);
      InfoIs(t);
      return 0;
    }

    lemma InfoIs(t: Timer)
      requires t in timers
      ensures t in View().infos && View().infos[t] == InfoOf(t)
    {
    }

    /** Lines 74 to 91. */
    method Restart(t: Timer, timeout: nat, repeat: nat)
      requires Valid() && t in timers && !t.closing && timeout <= MAX_U64 && repeat <= MAX_U64
      modifies this`timerCounter, this`activeHandles, t, heap, heap.Nodes()`left, heap.Nodes()`right, heap.Nodes()`parent
      ensures heap.Valid() && heap.Nodes() == old(heap.Nodes()) + {t} && View() == Started(old(View()), t, true, timeout, repeat)
    {
      StoppedFirst(View(), t, timeout, repeat);
      Disarm(t);
      Arm(t, timeout, repeat);
    }

    /** uv_timer_again. */
    method TimerAgain(t: Timer) returns (err: int)
      requires Valid() && t in timers
      modifies this`timerCounter, this`activeHandles, t, heap, heap.Nodes()`left, heap.Nodes()`right, heap.Nodes()`parent
      ensures Valid() && View() == Rearmed(old(View()), t)
      ensures err == if !old(t.hasCb) then UV_EINVAL else 0
      ensures t.repeat == old(t.repeat)
      ensures old(t.hasCb && t.repeat != 0 && !t.closing) ==> t.active && t.timeout == Saturated(time + t.repeat)
      ensures old(!t.hasCb || t.repeat == 0) ==> View() == old(View())
    {
      if !t.hasCb {
        return UV_EINVAL;
      }
      if t.repeat != 0 {
        RepeatFits(t);
        TimerStop(t);
        var _ := TimerStart(t, t.hasCb, t.repeat, t.repeat);
      }
      return 0;
    }

    lemma RepeatFits(t: Timer)
      requires Valid() && t in timers
      ensures t.repeat <= MAX_U64
    {
      assert t in View().infos;
    }

    method StoreRepeat(t: Timer, repeat: nat)
      requires t in timers
      modifies t`repeat
      ensures View() == RepeatSet(old(View()), t, repeat)
      ensures heap.Valid() == old(heap.Valid()) && heap.Nodes() == old(heap.Nodes())
    {
      t.repeat := repeat;
      assert View().infos == old(View()).infos[t := InfoOf(t)];
    }

    /** uv_timer_set_repeat. */
    method TimerSetRepeat(t: Timer, repeat: nat)
      requires Valid() && t in timers && repeat <= MAX_U64
      modifies t`repeat
      ensures Valid() && View() == RepeatSet(old(View()), t, repeat) && t.repeat == repeat
    {
      RepeatKeeps(View(), others, t, repeat);
      StoreRepeat(t, repeat);
    }

    method SetClosing(t: Timer)
      requires t in timers
      modifies t`closing
      ensures View() == With(old(View()), t, old(View()).infos[t].(closing := true))
      ensures heap.Valid() == old(heap.Valid()) && heap.Nodes() == old(heap.Nodes())
    {
      t.closing := true;
      assert View().infos == old(View()).infos[t := InfoOf(t)];
    }

    /** uv__timer_close. */
    method StopClosing(t: Timer)
      requires heap.Valid() && t in timers && (t.active <==> t in heap.Nodes())
      modifies this`activeHandles, t`active, heap, heap.Nodes()`left, heap.Nodes()`right, heap.Nodes()`parent
      ensures heap.Valid() && heap.Nodes() == old(heap.Nodes()) - {t} && View() == Stopped(old(View()), t)
    {
      if t.active {
        Detach(t);
      }
    }

    /** uv_close. */
    method TimerClose(t: Timer)
      requires Valid() && t in timers && !t.closing
      modifies this`activeHandles, t`active, t`closing, heap, heap.Nodes()`left, heap.Nodes()`right, heap.Nodes()`parent
      ensures Valid() && View() == Closed(old(View()), t) && t.closing && !t.active
    {
      CloseKeeps(View(), others, t);
      Shut(t);
      InfoIs(t);
    }

    method Shut(t: Timer)
      requires heap.Valid() && t in timers && (t.active <==> t in heap.Nodes())
      modifies this`activeHandles, t`active, t`closing, heap, heap.Nodes()`left, heap.Nodes()`right, heap.Nodes()`parent
      ensures heap.Valid() && heap.Nodes() == old(heap.Nodes()) - {t} && View() == Closed(old(View()), t)
    {
      SetClosing(t);
      StopClosing(t);
    }

    /** uv__next_timeout: -1 exactly when no timer is armed, and otherwise how long the loop may sleep without
        missing the earliest deadline, up to INT_MAX, which is 2^31 - 1. */
    method NextTimeout() returns (r: int)
      requires Valid()
      ensures r == -1 <==> Armed(View()) == {}
      ensures r != -1 ==> 0 <= r <= 0x7FFF_FFFF
      ensures r != -1 ==> forall t :: t in Armed(View()) ==> r == 0 || time + r <= View().infos[t].timeout
      ensures r != -1 && r < 0x7FFF_FFFF ==>
                exists t :: t in Armed(View()) && (if r == 0 then View().infos[t].timeout <= time else View().infos[t].timeout == time + r)
    {
      var node := heap.Min();
      if node == null {
        return -1;
      }
      assert node in Armed(View());
      if node.timeout <= time {
        return 0;
      }
      Earliest(node);
      var diff := node.timeout - time;
      if diff > INT_MAX {
        diff := INT_MAX;
      }
      return diff;
    }

    lemma Earliest(node: Timer)
      requires Valid() && node in heap.Nodes() && forall x :: x in heap.Nodes() ==> Le(KeyOf(node), KeyOf(x))
      ensures IsLeast(View(), node)
      ensures forall t :: t in Armed(View()) ==> node.timeout <= View().infos[t].timeout
    {
      forall u | u in Armed(View()) ensures Le(KeyIn(View().infos[node]), KeyIn(View().infos[u])) {
        assert u in heap.Nodes() && KeyIn(View().infos[u]) == KeyOf(u);
      }
    }

    /** uv_update_time. */
    method SetTime(now: nat)
      requires Valid() && time <= now <= MAX_U64
      modifies this`time
      ensures Valid() && View() == old(View()).(time := now)
    {
      time := now;
      assert View().infos == old(View()).infos;
      assert Armed(View()) == old(Armed(View()));
    }

    /** A callback does one thing. */
    method DoCommand(c: Command)
      requires Valid() && Allowed(View(), c) && TimersIn([c]) <= pool
      modifies this, heap, pool
      ensures Valid() && View() == Exec(old(View()), c)
    {
      assert [c][0] == c;
      match c
      case Start(t, cb, timeout, repeat) => var _ := TimerStart(t, cb, timeout, repeat);
      case Stop(t) => TimerStop(t);
      case Again(t) => var _ := TimerAgain(t);
      case SetRepeat(t, repeat) => TimerSetRepeat(t, repeat);
      case Ref(t) => TimerRef(t);
      case Unref(t) => TimerUnref(t);
      case Close(t) => TimerClose(t);
      case Init(t) => TimerInit(t);
      case UpdateTime(now) => SetTime(now);
    }

    /** A callback does what it likes. */
    method Callback(cs: seq<Command>)
      requires Valid() && AllAllowed(View(), cs) && TimersIn(cs) <= pool
      modifies this, heap, pool
      ensures Valid() && View() == ExecAll(old(View()), cs)
    {
      for n := 0 to |cs|
        invariant Valid() && AllAllowed(View(), cs[n..]) && ExecAll(View(), cs[n..]) == ExecAll(old(View()), cs)
      {
        assert cs[n..][1..] == cs[n + 1..];
        OneOf(cs, n);
        DoCommand(cs[n]);
      }
    }

    /** Lines 166 to 168; the k-th callback of the pass does what script[k] says. */
    method Fire(t: Timer, cs: seq<Command>)
      requires Valid() && t in timers && AllAllowed(Popped(View(), t), cs) && TimersIn(cs) <= pool
      modifies this, heap, pool
      ensures Valid() && View() == Turn(old(View()), t, cs)
    {
      TimerStop(t);
      var _ := TimerAgain(t);
      Callback(cs);
    }

    /** Lines 159 to 164: the timer to fire next, if any is due. */
    method NextDue() returns (t: Timer?)
      requires Valid()
      ensures Valid() && View() == old(View())
      ensures t == null ==> DueSet(View()) == {}
      ensures t != null ==> t in Armed(View()) && IsLeast(View(), t) && t.timeout <= time && DueSet(View()) != {}
    {
      t := heap.Min();
      if t == null {
        assert Armed(View()) == {};
        NoneDue();
        return;
      }
      Earliest(t);
      LeastDecides(View(), t);
      if t.timeout > time {
        t := null;
      }
    }

    lemma NoneDue()
      requires Armed(View()) == {}
      ensures DueSet(View()) == {}
    {
      assert forall t :: t in DueSet(View()) ==> t in Armed(View());
    }

    /** Lines 166 to 168 within a pass. */
    method FireNext(ghost s: Sched, before: seq<Timer>, script: seq<seq<Command>>, t: Timer) returns (fired: seq<Timer>)
      requires Valid() && SoFar(s, View(), before, script) && AllIn(script, pool) && |before| < |script|
      requires t in timers && IsLeast(View(), t) && t.timeout <= time
      modifies this, heap, pool
      ensures Valid() && SoFar(s, View(), fired, script) && |fired| == |before| + 1
    {
      var cs := script[|before|];
      fired := before + [t];
      SoFarGrows(s, View(), before, script, t);
      assert cs in script;
      Fire(t, cs);
    }

    /** uv__run_timers, for callbacks that do as `script` says; `done` tells whether the pass came to its end within
        the script.  It always does if callbacks are mild and the script is long enough for the timers due. */
    method RunTimers(script: seq<seq<Command>>) returns (fired: seq<Timer>, done: bool)
      requires Valid() && PassAllowed(View(), script) && AllIn(script, pool)
      modifies this, heap, pool
      ensures Valid() && IsPass(old(View()), fired, script) && View() == PassEnd(old(View()), fired, script)
      ensures if done then DueSet(View()) == {} else |fired| == |script| && DueSet(View()) != {}
      ensures old(time) < MAX_U64 && AllMild(script) && |script| >= |old(DueSet(View()))| ==> done
    {
      ghost var s := View();
      assert SoFar(s, View(), [], script);
      fired, done := FireAll(s, script);
      MildIsDone(s, fired, script, done);
    }

    /** Lines 158 to 170. */
    method FireAll(ghost s: Sched, script: seq<seq<Command>>) returns (fired: seq<Timer>, done: bool)
      requires Valid() && SoFar(s, View(), [], script) && AllIn(script, pool)
      modifies this, heap, pool
      ensures Valid() && SoFar(s, View(), fired, script)
      ensures if done then DueSet(View()) == {} else |fired| == |script| && DueSet(View()) != {}
    {
      fired := [];
      while true
        invariant Valid() && SoFar(s, View(), fired, script)
        decreases |script| - |fired|
      {
        var t := NextDue();
        if t == null {
          return fired, true;
        }
        if |fired| == |script| {
          return fired, false;
        }
        fired := FireNext(s, fired, script, t);
      }
    }
  }

  ghost predicate AllIn(script: seq<seq<Command>>, pool: set<Timer>) {
    forall cs :: cs in script ==> TimersIn(cs) <= pool
  }

  /** A sum of two 64-bit numbers, or the greatest one. */
  function Saturated(sum: nat): nat {
    if sum < 0x1_0000_0000_0000_0000 then sum else 0xFFFF_FFFF_FFFF_FFFF
  }

  function InfoOf(t: Timer): Info
    reads t`timeout, t`startId, t`repeat, t`hasCb, t`active, t`ref, t`closing
  {
    Info(t.timeout, t.startId, t.repeat, t.hasCb, t.active, t.ref, t.closing)
  }

  function TimerSet(s: Sched, t: Timer, timeout: nat, repeat: nat): Sched
    requires t in s.infos
  {
    With(s, t, s.infos[t].(hasCb := true, timeout := Deadline(s.time, timeout), repeat := repeat, startId := s.counter))
    .(counter := s.counter + 1)
  }

  function Activated(s: Sched, t: Timer): Sched
    requires t in s.infos
  {
    var i := s.infos[t];
    if i.active then s else With(s, t, i.(active := true)).(handles := s.handles + if i.ref then 1 else 0)
  }

  lemma SetInTwoSteps(s: Sched, t: Timer, timeout: nat, repeat: nat)
    requires t in s.infos && !s.infos[t].active && !s.infos[t].closing
    ensures Activated(TimerSet(s, t, timeout, repeat), t) == Started(s, t, true, timeout, repeat)
  {
    assert Activated(TimerSet(s, t, timeout, repeat), t).infos == Started(s, t, true, timeout, repeat).infos;
  }

  lemma StoppedFirst(s: Sched, t: Timer, timeout: nat, repeat: nat)
    requires t in s.infos && !s.infos[t].closing
    ensures Started(Stopped(s, t), t, true, timeout, repeat) == Started(s, t, true, timeout, repeat)
  {
  }

  /** From s, the pass has fired `fired` and come to e. */
  ghost predicate SoFar(s: Sched, e: Sched, fired: seq<Timer>, script: seq<seq<Command>>) {
    && |fired| <= |script| && IsPass(s, fired, script) && e == PassEnd(s, fired, script)
    && PassAllowed(e, script[|fired|..])
  }

  lemma SoFarGrows(s: Sched, e: Sched, fired: seq<Timer>, script: seq<seq<Command>>, t: Timer)
    requires SoFar(s, e, fired, script) && |fired| < |script| && IsLeast(e, t) && e.infos[t].timeout <= e.time
    ensures AllAllowed(Popped(e, t), script[|fired|]) && SoFar(s, Turn(e, t, script[|fired|]), fired + [t], script)
  {
    assert script[|fired|..][1..] == script[|fired| + 1..];
    PassGrows(s, fired, script, t);
  }

  lemma MildIsDone(s: Sched, fired: seq<Timer>, script: seq<seq<Command>>, done: bool)
    requires IsPass(s, fired, script)
    requires !done ==> |fired| == |script| && DueSet(PassEnd(s, fired, script)) != {}
    ensures s.time < MAX_U64 && AllMild(script) && |script| >= |DueSet(s)| ==> done
  {
    if s.time < MAX_U64 && AllMild(script) && |script| >= |DueSet(s)| {
      PassEnds(s, fired, script);
    }
  }

  lemma OneOf(cs: seq<Command>, n: nat)
    requires n < |cs|
    ensures TimersIn([cs[n]]) <= TimersIn(cs)
  {
  }

  ghost function TimersIn(cs: seq<Command>): set<Timer> {
    set c | c in cs && !c.UpdateTime? :: c.t
  }
}
