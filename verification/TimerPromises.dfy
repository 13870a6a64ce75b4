/** What a timer that was started may count on (src/timer.c): not to be fired before its time, to be fired by the first
    pass that runs to its end after that, and to be started again if it repeats. */
module TimerPromises {
  import opened HeapSlots
  import opened HeapOrder
  import opened TimerSched
  import opened TimerPass

  /** The loop's life: the program uses the API, or a pass runs, whose callbacks use it. */
  datatype Step =
    | Do(c: Command)
    | Pass(fired: seq<Timer>, script: seq<seq<Command>>)

  ghost predicate CanDo(s: Sched, st: Step) {
    match st
    case Do(c) => Allowed(s, c)
    case Pass(fired, script) => IsPass(s, fired, script)
  }

  ghost function Did(s: Sched, st: Step): Sched
    requires CanDo(s, st)
  {
    match st
    case Do(c) => Exec(s, c)
    case Pass(fired, script) => PassEnd(s, fired, script)
  }

  ghost predicate CanRun(s: Sched, steps: seq<Step>)
    decreases |steps|
  {
    steps != [] ==> CanDo(s, steps[0]) && CanRun(Did(s, steps[0]), steps[1..])
  }

  ghost function EndOf(s: Sched, steps: seq<Step>): Sched
    requires CanRun(s, steps)
    decreases |steps|
  {
    if steps == [] then s else EndOf(Did(s, steps[0]), steps[1..])
  }

  ghost predicate SparedBy(script: seq<seq<Command>>, t: Timer) {
    forall cs, c :: cs in script && c in cs ==> !Touches(c, t)
  }

  /** The program and its callbacks leave t alone. */
  ghost predicate Spares(st: Step, t: Timer) {
    match st
    case Do(c) => !Touches(c, t)
    case Pass(_, script) => SparedBy(script, t)
  }

  predicate Fires(st: Step, t: Timer) {
    st.Pass? && t in st.fired
  }

  /** t is armed for `deadline`. */
  predicate ArmedFor(s: Sched, t: Timer, deadline: nat) {
    t in s.infos && s.infos[t].active && s.infos[t].timeout == deadline
  }

  lemma SparedTail(script: seq<seq<Command>>, t: Timer)
    requires SparedBy(script, t) && script != []
    ensures SparedBy(script[1..], t) && forall c :: c in script[0] ==> !Touches(c, t)
  {
    forall cs, c | cs in script[1..] && c in cs ensures !Touches(c, t) {
      assert cs in script;
    }
    assert script[0] in script;
  }

  lemma {:induction false} PassTime(s: Sched, fired: seq<Timer>, script: seq<seq<Command>>)
    requires IsPass(s, fired, script)
    ensures PassEnd(s, fired, script).time >= s.time
    decreases |fired|
  {
    if fired != [] {
      RunTime(Popped(s, fired[0]), script[0]);
      PassTime(Turn(s, fired[0], script[0]), fired[1..], script[1..]);
    }
  }

  lemma {:induction false} RunTime(s: Sched, cs: seq<Command>)
    requires AllAllowed(s, cs)
    ensures ExecAll(s, cs).time >= s.time
    decreases |cs|
  {
    if cs != [] {
      RunTime(Exec(s, cs[0]), cs[1..]);
    }
  }

  /** A turn of the pass for another timer. */
  lemma TurnWaits(s: Sched, u: Timer, cs: seq<Command>, t: Timer, deadline: nat)
    requires u in s.infos && AllAllowed(Popped(s, u), cs) && ArmedFor(s, t, deadline) && u != t
    requires forall c :: c in cs ==> !Touches(c, t)
    ensures ArmedFor(Turn(s, u, cs), t, deadline)
  {
    RunSpares(Popped(s, u), cs, t);
  }

  /** A timer that is left alone waits through every turn of a pass until its deadline. */
  lemma {:induction false} PassWaits(s: Sched, fired: seq<Timer>, script: seq<seq<Command>>, t: Timer, deadline: nat)
    requires IsPass(s, fired, script) && ArmedFor(s, t, deadline) && SparedBy(script, t)
    requires PassEnd(s, fired, script).time < deadline
    ensures t !in fired && ArmedFor(PassEnd(s, fired, script), t, deadline)
    decreases |fired|
  {
    if fired != [] {
      PassTime(s, fired, script);
      SparedTail(script, t);
      TurnWaits(s, fired[0], script[0], t, deadline);
      PassWaits(Turn(s, fired[0], script[0]), fired[1..], script[1..], t, deadline);
    }
  }

  lemma StepWaits(s: Sched, st: Step, t: Timer, deadline: nat)
    requires CanDo(s, st) && ArmedFor(s, t, deadline) && Spares(st, t) && Did(s, st).time < deadline
    ensures !Fires(st, t) && ArmedFor(Did(s, st), t, deadline)
  {
    if st.Pass? {
      PassWaits(s, st.fired, st.script, t, deadline);
    }
  }

  lemma {:induction false} RunsTime(s: Sched, steps: seq<Step>)
    requires CanRun(s, steps)
    ensures EndOf(s, steps).time >= s.time
    decreases |steps|
  {
    if steps != [] {
      if steps[0].Pass? {
        PassTime(s, steps[0].fired, steps[0].script);
      }
      RunsTime(Did(s, steps[0]), steps[1..]);
    }
  }

  lemma {:induction false} RunWaits(s: Sched, steps: seq<Step>, t: Timer, deadline: nat)
    requires CanRun(s, steps) && ArmedFor(s, t, deadline) && EndOf(s, steps).time < deadline
    requires forall st :: st in steps ==> Spares(st, t)
    ensures ArmedFor(EndOf(s, steps), t, deadline) && forall st :: st in steps ==> !Fires(st, t)
    decreases |steps|
  {
    if steps != [] {
      RunsTime(Did(s, steps[0]), steps[1..]);
      StepWaits(s, steps[0], t, deadline);
      RunWaits(Did(s, steps[0]), steps[1..], t, deadline);
      assert forall st :: st in steps ==> st == steps[0] || st in steps[1..];
    }
  }

  /** The deadline of a timer started at `now`, in plain numbers. */
  lemma StartArms(s: Sched, t: Timer, timeout: nat, repeat: nat)
    requires t in s.infos && !s.infos[t].closing
    ensures var i := Started(s, t, true, timeout, repeat).infos[t];
            && i.active && i.hasCb && i.repeat == repeat && i.startId == s.counter
            && i.timeout == if s.time + timeout < 0x1_0000_0000_0000_0000 then s.time + timeout else 0xFFFF_FFFF_FFFF_FFFF
    ensures forall u :: u in s.infos && u != t ==> Started(s, t, true, timeout, repeat).infos[u] == s.infos[u]
  {
  }

  /** A timer started with a timeout is fired by no pass while less time than that has gone by, whatever else the program
      and its callbacks do, if they leave it alone. */
  lemma NeverEarly(s: Sched, t: Timer, timeout: nat, repeat: nat, steps: seq<Step>)
    requires t in s.infos && !s.infos[t].closing && CanRun(Started(s, t, true, timeout, repeat), steps)
    requires forall st :: st in steps ==> Spares(st, t)
    requires var now := EndOf(Started(s, t, true, timeout, repeat), steps).time; now < s.time + timeout && now < 0xFFFF_FFFF_FFFF_FFFF
    ensures forall st :: st in steps ==> !Fires(st, t)
  {
    var s1 := Started(s, t, true, timeout, repeat);
    StartArms(s, t, timeout, repeat);
    RunWaits(s1, steps, t, s1.infos[t].timeout);
  }

  /** Once its time has come, the first pass that runs until nothing is due fires it. */
  lemma FiredInTime(s: Sched, t: Timer, timeout: nat, repeat: nat, steps: seq<Step>, now: nat,
                    fired: seq<Timer>, script: seq<seq<Command>>)
    requires t in s.infos && !s.infos[t].closing && CanRun(Started(s, t, true, timeout, repeat), steps)
    requires forall st :: st in steps ==> Spares(st, t)
    requires EndOf(Started(s, t, true, timeout, repeat), steps).time < s.time + timeout <= now <= MAX_U64
    requires var e := EndOf(Started(s, t, true, timeout, repeat), steps).(time := now);
             IsPass(e, fired, script) && DueSet(PassEnd(e, fired, script)) == {}
    requires SparedBy(script, t)
    ensures t in fired
  {
    var s1 := Started(s, t, true, timeout, repeat);
    StartArms(s, t, timeout, repeat);
    RunWaits(s1, steps, t, s1.infos[t].timeout);
    DueAreFired(EndOf(s1, steps).(time := now), fired, script, t);
  }

  /** A timer that fires is armed again, with the repeat value it keeps, if that is not zero; otherwise it is not armed.
      No other timer is touched. */
  lemma PopRearms(s: Sched, others: nat, t: Timer)
    requires Inv(s, others) && t in Armed(s)
    ensures var s' := Popped(s, t);
            && t in s'.infos && s'.infos[t].repeat == s.infos[t].repeat && s'.infos[t].hasCb && !s'.infos[t].closing
            && (s'.infos[t].active <==> s.infos[t].repeat != 0)
            && (s.infos[t].repeat != 0 ==>
                  && s'.infos[t].startId == s.counter
                  && s'.infos[t].timeout == if s.time + s.infos[t].repeat < 0x1_0000_0000_0000_0000
                                            then s.time + s.infos[t].repeat else 0xFFFF_FFFF_FFFF_FFFF)
            && forall u :: u in s.infos && u != t ==> u in s'.infos && s'.infos[u] == s.infos[u]
  {
    assert InfoOk(s.infos[t], s.counter);
  }

  /** What each command that starts nothing does to its timer, and that it does nothing to any other. */
  lemma CommandMeans(s: Sched, c: Command)
    requires Allowed(s, c) && !c.Start? && !c.Again? && !c.UpdateTime?
    ensures var s' := Exec(s, c);
            && c.t in s'.infos && s'.infos.Keys == s.infos.Keys + {c.t} && s'.time == s.time
            && (forall u :: u in s.infos && u != c.t ==> s'.infos[u] == s.infos[u])
            && Meant(c, if c.t in s.infos then s.infos[c.t] else Info(0, 0, 0, false, false, true, false), s'.infos[c.t])
  {
  }

  /** The timer before and after. */
  predicate Meant(c: Command, i: Info, i': Info) {
    match c
    case Stop(_) => i' == i.(active := false)
    case SetRepeat(_, repeat) => i' == i.(repeat := repeat)
    case Ref(_) => i' == i.(ref := true)
    case Unref(_) => i' == i.(ref := false)
    case Close(_) => i' == i.(closing := true, active := false)
    case Init(_) => !i'.active && !i'.closing && !i'.hasCb && i'.ref && i'.repeat == 0
    case _ => true
  }

  /** uv_timer_again is uv_timer_start with the repeat value, if the timer has a callback and repeats. */
  lemma AgainMeans(s: Sched, t: Timer)
    requires t in s.infos
    ensures var i, s' := s.infos[t], Exec(s, Again(t));
            if i.hasCb && i.repeat != 0 && !i.closing then
              && s'.infos[t].active && s'.infos[t].repeat == i.repeat && s'.infos[t].startId == s.counter
              && s'.infos[t].timeout == if s.time + i.repeat < 0x1_0000_0000_0000_0000 then s.time + i.repeat else 0xFFFF_FFFF_FFFF_FFFF
            else if i.hasCb && i.repeat != 0 then !s'.infos[t].active
            else s' == s
  {
  }

  /** What uv_timer_set_repeat sets is what the timer repeats with. */
  lemma RepeatIsKept(s: Sched, others: nat, t: Timer, repeat: nat)
    requires Inv(s, others) && t in Armed(s) && repeat <= MAX_U64
    ensures var s1 := RepeatSet(s, t, repeat);
            && t in Armed(s1) && KeyIn(s1.infos[t]) == KeyIn(s.infos[t])
            && Popped(s1, t).infos[t].repeat == repeat && (Popped(s1, t).infos[t].active <==> repeat != 0)
  {
    RepeatKeeps(s, others, t, repeat);
    PopRearms(RepeatSet(s, t, repeat), others, t);
  }
}
