/** One uv__run_timers pass (src/timer.c:154-171) whose callbacks do what they like: which timers it fires, in what
    order, and when it ends. */
module TimerPass {
  import opened HeapSlots
  import opened HeapOrder
  import opened TimerSched

  /** What a callback may ask of the loop; UpdateTime is uv_update_time. */
  datatype Command =
    | Start(t: Timer, cb: bool, timeout: nat, repeat: nat)
    | Stop(t: Timer)
    | Again(t: Timer)
    | SetRepeat(t: Timer, repeat: nat)
    | Ref(t: Timer)
    | Unref(t: Timer)
    | Close(t: Timer)
    | Init(t: Timer)
    | UpdateTime(time: nat)

  /** What the API demands: an initialised handle, uv_close at most once, a clock that does not go back. */
  predicate Allowed(s: Sched, c: Command) {
    match c
    case Start(t, _, timeout, repeat) => t in s.infos && timeout <= MAX_U64 && repeat <= MAX_U64
    case SetRepeat(t, repeat) => t in s.infos && repeat <= MAX_U64
    case Close(t) => t in s.infos && !s.infos[t].closing
    case Init(t) => t !in s.infos
    case UpdateTime(time) => s.time <= time <= MAX_U64
    case _ => c.t in s.infos
  }

  function Exec(s: Sched, c: Command): Sched
    requires Allowed(s, c)
  {
    match c
    case Start(t, cb, timeout, repeat) => Started(s, t, cb, timeout, repeat)
    case Stop(t) => Stopped(s, t)
    case Again(t) => Rearmed(s, t)
    case SetRepeat(t, repeat) => RepeatSet(s, t, repeat)
    case Ref(t) => Reffed(s, t)
    case Unref(t) => Unreffed(s, t)
    case Close(t) => Closed(s, t)
    case Init(t) => Added(s, t)
    case UpdateTime(time) => s.(time := time)
  }

  ghost predicate AllAllowed(s: Sched, cs: seq<Command>)
    decreases |cs|
  {
    cs != [] ==> Allowed(s, cs[0]) && AllAllowed(Exec(s, cs[0]), cs[1..])
  }

  ghost function ExecAll(s: Sched, cs: seq<Command>): Sched
    requires AllAllowed(s, cs)
    decreases |cs|
  {
    if cs == [] then s else ExecAll(Exec(s, cs[0]), cs[1..])
  }

  lemma ExecKeeps(s: Sched, others: nat, c: Command)
    requires Inv(s, others) && Allowed(s, c)
    ensures Inv(Exec(s, c), others)
  {
    match c
    case Start(t, cb, timeout, repeat) => StartKeeps(s, others, t, cb, timeout, repeat);
    case Stop(t) => StopKeeps(s, others, t);
    case Again(t) => AgainKeeps(s, others, t);
    case SetRepeat(t, repeat) => RepeatKeeps(s, others, t, repeat);
    case Ref(t) => RefKeeps(s, others, t);
    case Unref(t) => UnrefKeeps(s, others, t);
    case Close(t) => CloseKeeps(s, others, t);
    case Init(t) => InitKeeps(s, others, t);
    case UpdateTime(time) =>
  }

  /** The invariant of src/timer.c over any run of operations: a timer is ACTIVE only while it is open and has a
      callback, start ids are unique among the armed, and active_handles counts exactly the ACTIVE and REF handles. */
  lemma {:induction false} RunKeeps(s: Sched, others: nat, cs: seq<Command>)
    requires Inv(s, others) && AllAllowed(s, cs)
    ensures Inv(ExecAll(s, cs), others)
    decreases |cs|
  {
    if cs != [] {
      ExecKeeps(s, others, cs[0]);
      RunKeeps(Exec(s, cs[0]), others, cs[1..]);
    }
  }

  // ---------- The pass ----------

  /** t is what heap_min gives: armed, and least. */
  ghost predicate IsLeast(s: Sched, t: Timer) {
    t in Armed(s) && forall u :: u in Armed(s) ==> Le(KeyIn(s.infos[t]), KeyIn(s.infos[u]))
  }

  /** uv_timer_stop and uv_timer_again, just before the callback. */
  function Popped(s: Sched, t: Timer): Sched
    requires t in s.infos
  {
    Rearmed(Stopped(s, t), t)
  }

  /** The pass fires fired[0], whose callback does script[0], then fired[1], and so on. */
  ghost predicate IsPass(s: Sched, fired: seq<Timer>, script: seq<seq<Command>>)
    decreases |fired|
  {
    fired != [] ==>
      && script != [] && IsLeast(s, fired[0]) && s.infos[fired[0]].timeout <= s.time
      && AllAllowed(Popped(s, fired[0]), script[0])
      && IsPass(Turn(s, fired[0], script[0]), fired[1..], script[1..])
  }

  ghost function Turn(s: Sched, t: Timer, cs: seq<Command>): Sched
    requires t in s.infos && AllAllowed(Popped(s, t), cs)
  {
    ExecAll(Popped(s, t), cs)
  }

  /** The callbacks of a pass use the API as it demands, whenever they come to run. */
  ghost predicate PassAllowed(s: Sched, script: seq<seq<Command>>)
    decreases |script|
  {
    script != [] ==>
      forall t :: t in Armed(s) && IsLeast(s, t) && s.infos[t].timeout <= s.time ==>
        AllAllowed(Popped(s, t), script[0]) && PassAllowed(Turn(s, t, script[0]), script[1..])
  }

  /** One more turn. */
  lemma {:induction false} PassGrows(s: Sched, fired: seq<Timer>, script: seq<seq<Command>>, t: Timer)
    requires IsPass(s, fired, script) && |fired| < |script|
    requires var e := PassEnd(s, fired, script);
             IsLeast(e, t) && e.infos[t].timeout <= e.time && AllAllowed(Popped(e, t), script[|fired|])
    ensures IsPass(s, fired + [t], script)
    ensures PassEnd(s, fired + [t], script) == Turn(PassEnd(s, fired, script), t, script[|fired|])
    decreases |fired|
  {
    if fired == [] {
      assert [t][1..] == [];
      assert IsPass(Turn(s, t, script[0]), [], script[1..]);
    } else {
      PassGrows(Turn(s, fired[0], script[0]), fired[1..], script[1..], t);
      assert (fired + [t])[1..] == fired[1..] + [t];
    }
  }

  ghost function PassEnd(s: Sched, fired: seq<Timer>, script: seq<seq<Command>>): Sched
    requires IsPass(s, fired, script)
    decreases |fired|
  {
    if fired == [] then s else PassEnd(Turn(s, fired[0], script[0]), fired[1..], script[1..])
  }

  /** The (timeout, start_id) pairs of the timers fired, as they were when popped. */
  ghost function FiredKeys(s: Sched, fired: seq<Timer>, script: seq<seq<Command>>): (ks: seq<Key>)
    requires IsPass(s, fired, script)
    ensures |ks| == |fired|
    decreases |fired|
  {
    if fired == [] then [] else [KeyIn(s.infos[fired[0]])] + FiredKeys(Turn(s, fired[0], script[0]), fired[1..], script[1..])
  }

  lemma PopKeeps(s: Sched, others: nat, t: Timer)
    requires Inv(s, others) && t in s.infos
    ensures Inv(Popped(s, t), others)
  {
    StopKeeps(s, others, t);
    AgainKeeps(Stopped(s, t), others, t);
  }

  lemma TurnKeeps(s: Sched, others: nat, t: Timer, cs: seq<Command>)
    requires Inv(s, others) && t in s.infos && AllAllowed(Popped(s, t), cs)
    ensures Inv(Turn(s, t, cs), others)
  {
    PopKeeps(s, others, t);
    RunKeeps(Popped(s, t), others, cs);
  }

  // ---------- Order ----------

  /** Whatever is armed, now or later, is greater than k. */
  ghost predicate Above(s: Sched, k: Key) {
    && k.timeout <= s.time <= MAX_U64 && k.startId < s.counter
    && forall u :: u in Armed(s) ==> Less(k, KeyIn(s.infos[u]))
  }

  lemma ChangeAbove(s: Sched, k: Key, t: Timer, i: Info, s': Sched)
    requires Above(s, k) && s'.infos == s.infos[t := i] && s'.time == s.time && s'.counter >= s.counter
    requires i.active ==> Less(k, KeyIn(i))
    ensures Above(s', k)
  {
    forall u | u in Armed(s') ensures Less(k, KeyIn(s'.infos[u])) {
      assert u != t ==> u in Armed(s);
    }
  }

  lemma StopAbove(s: Sched, k: Key, t: Timer)
    requires Above(s, k) && t in s.infos
    ensures Above(Stopped(s, t), k)
  {
    if s.infos[t].active {
      ChangeAbove(s, k, t, s.infos[t].(active := false), Stopped(s, t));
    }
  }

  /** A timer started now is later than every timer popped before. */
  lemma StartAbove(s: Sched, k: Key, t: Timer, cb: bool, timeout: nat, repeat: nat)
    requires Above(s, k) && t in s.infos
    ensures Above(Started(s, t, cb, timeout, repeat), k)
  {
    if !s.infos[t].closing && cb {
      StopAbove(s, k, t);
      var s' := Started(s, t, cb, timeout, repeat);
      ChangeAbove(Stopped(s, t), k, t, s'.infos[t], s');
    }
  }

  lemma AgainAbove(s: Sched, k: Key, t: Timer)
    requires Above(s, k) && t in s.infos
    ensures Above(Rearmed(s, t), k)
  {
    var i := s.infos[t];
    if i.hasCb && i.repeat != 0 {
      StopAbove(s, k, t);
      StartAbove(Stopped(s, t), k, t, true, i.repeat, i.repeat);
    }
  }

  lemma ExecAbove(s: Sched, k: Key, c: Command)
    requires Above(s, k) && Allowed(s, c)
    ensures Above(Exec(s, c), k)
  {
    match c
    case Start(t, cb, timeout, repeat) => StartAbove(s, k, t, cb, timeout, repeat);
    case Stop(t) => StopAbove(s, k, t);
    case Again(t) => AgainAbove(s, k, t);
    case UpdateTime(time) => assert Armed(Exec(s, c)) == Armed(s);
    case Init(t) => ChangeAbove(s, k, t, Exec(s, c).infos[t], Exec(s, c));
    case _ => OthersAbove(s, k, c);
  }

  /** The operations that arm nothing. */
  lemma OthersAbove(s: Sched, k: Key, c: Command)
    requires Above(s, k) && Allowed(s, c) && (c.SetRepeat? || c.Ref? || c.Unref? || c.Close?)
    ensures Above(Exec(s, c), k)
  {
    var i' := Exec(s, c).infos[c.t];
    assert i'.active ==> c.t in Armed(s) && KeyIn(i') == KeyIn(s.infos[c.t]);
    assert Exec(s, c).infos == s.infos[c.t := i'];
    ChangeAbove(s, k, c.t, i', Exec(s, c));
  }

  lemma {:induction false} RunAbove(s: Sched, k: Key, cs: seq<Command>)
    requires Above(s, k) && AllAllowed(s, cs)
    ensures Above(ExecAll(s, cs), k) && ExecAll(s, cs).time >= s.time
    decreases |cs|
  {
    if cs != [] {
      ExecAbove(s, k, cs[0]);
      RunAbove(Exec(s, cs[0]), k, cs[1..]);
    }
  }

  lemma PopAbove(s: Sched, others: nat, t: Timer)
    requires Inv(s, others) && IsLeast(s, t) && s.infos[t].timeout <= s.time
    ensures Above(Popped(s, t), KeyIn(s.infos[t]))
  {
    var k, s1 := KeyIn(s.infos[t]), Stopped(s, t);
    StopKeeps(s, others, t);
    forall u | u in Armed(s1) ensures Less(k, KeyIn(s1.infos[u])) {
      assert u in Armed(s) && u != t && t in Armed(s);
    }
    AgainAbove(s1, k, t);
  }

  lemma {:induction false} LaterKeys(s: Sched, others: nat, k: Key, fired: seq<Timer>, script: seq<seq<Command>>)
    requires Inv(s, others) && IsPass(s, fired, script) && Above(s, k)
    ensures forall i :: 0 <= i < |fired| ==> Less(k, FiredKeys(s, fired, script)[i])
    ensures k.timeout <= PassEnd(s, fired, script).time
    decreases |fired|
  {
    if fired != [] {
      var s', t := Turn(s, fired[0], script[0]), fired[0];
      TurnKeeps(s, others, t, script[0]);
      StopAbove(s, k, t);
      AgainAbove(Stopped(s, t), k, t);
      RunAbove(Popped(s, t), k, script[0]);
      LaterKeys(s', others, k, fired[1..], script[1..]);
    }
  }

  ghost predicate Increasing(ks: seq<Key>) {
    forall i, j :: 0 <= i < j < |ks| ==> Less(ks[i], ks[j])
  }

  /** The popped pairs strictly increase. */
  lemma {:induction false} PassIncreases(s: Sched, others: nat, fired: seq<Timer>, script: seq<seq<Command>>)
    requires Inv(s, others) && IsPass(s, fired, script)
    ensures Increasing(FiredKeys(s, fired, script))
    decreases |fired|
  {
    if fired != [] {
      var t, k, s' := fired[0], KeyIn(s.infos[fired[0]]), Turn(s, fired[0], script[0]);
      TurnKeeps(s, others, t, script[0]);
      PopAbove(s, others, t);
      RunAbove(Popped(s, t), k, script[0]);
      LaterKeys(s', others, k, fired[1..], script[1..]);
      PassIncreases(s', others, fired[1..], script[1..]);
      FirstIsLess(k, FiredKeys(s', fired[1..], script[1..]));
    }
  }

  lemma FirstIsLess(k: Key, ks: seq<Key>)
    requires Increasing(ks) && forall i :: 0 <= i < |ks| ==> Less(k, ks[i])
    ensures Increasing([k] + ks)
  {
  }

  /** No timer fires before its time: none of the popped is later than the loop's time. */
  lemma {:induction false} PassIsNotEarly(s: Sched, others: nat, fired: seq<Timer>, script: seq<seq<Command>>, i: nat)
    requires Inv(s, others) && IsPass(s, fired, script) && i < |fired|
    ensures IsPass(s, fired[..i], script) && FiredKeys(s, fired, script)[i].timeout <= PassEnd(s, fired[..i], script).time
    decreases |fired|
  {
    if i > 0 {
      TurnKeeps(s, others, fired[0], script[0]);
      assert fired[..i][1..] == fired[1..][..i - 1];
      PassIsNotEarly(Turn(s, fired[0], script[0]), others, fired[1..], script[1..], i - 1);
    }
  }

  // ---------- The end of the pass ----------

  /** A command that arms no timer that is already due, and leaves the clock alone. */
  predicate Mild(c: Command) {
    && (c.Start? ==> c.timeout > 0)
    && !c.UpdateTime?
  }

  ghost predicate AllMild(script: seq<seq<Command>>) {
    forall cs, c :: cs in script && c in cs ==> Mild(c)
  }

  lemma ChangeDue(s: Sched, t: Timer, i: Info, s': Sched)
    requires s'.infos == s.infos[t := i] && s'.time == s.time && (i.active && i.timeout <= s.time ==> t in DueSet(s))
    ensures DueSet(s') <= DueSet(s)
  {
  }

  lemma StartDue(s: Sched, t: Timer, cb: bool, timeout: nat, repeat: nat)
    requires t in s.infos && s.time < MAX_U64 && timeout > 0
    ensures DueSet(Started(s, t, cb, timeout, repeat)) <= DueSet(s) && Started(s, t, cb, timeout, repeat).time == s.time
    ensures !s.infos[t].closing && cb ==> t !in DueSet(Started(s, t, cb, timeout, repeat))
  {
    var s' := Started(s, t, cb, timeout, repeat);
    ChangeDue(s, t, s'.infos[t], s');
  }

  lemma ExecDue(s: Sched, c: Command)
    requires Allowed(s, c) && Mild(c) && s.time < MAX_U64
    ensures DueSet(Exec(s, c)) <= DueSet(s) && Exec(s, c).time == s.time
  {
    var s' := Exec(s, c);
    if c.Start? {
      StartDue(s, c.t, c.cb, c.timeout, c.repeat);
    } else if c.Again? {
      AgainDue(s, c.t);
    } else {
      var i' := s'.infos[c.t];
      assert s'.infos == s.infos[c.t := i'];
      ChangeDue(s, c.t, i', s');
    }
  }

  lemma AgainDue(s: Sched, t: Timer)
    requires t in s.infos && s.time < MAX_U64
    ensures DueSet(Rearmed(s, t)) <= DueSet(s) && Rearmed(s, t).time == s.time
  {
    var i, s1 := s.infos[t], Stopped(s, t);
    ChangeDue(s, t, s1.infos[t], s1);
    if i.hasCb && i.repeat != 0 {
      StartDue(s1, t, true, i.repeat, i.repeat);
    }
  }

  lemma {:induction false} RunDue(s: Sched, cs: seq<Command>)
    requires AllAllowed(s, cs) && s.time < MAX_U64 && forall c :: c in cs ==> Mild(c)
    ensures DueSet(ExecAll(s, cs)) <= DueSet(s) && ExecAll(s, cs).time == s.time
    decreases |cs|
  {
    if cs != [] {
      ExecDue(s, cs[0]);
      RunDue(Exec(s, cs[0]), cs[1..]);
    }
  }

  lemma PopDue(s: Sched, t: Timer)
    requires t in DueSet(s) && s.time < MAX_U64
    ensures DueSet(Popped(s, t)) <= DueSet(s) - {t} && Popped(s, t).time == s.time
  {
    var i, s1 := s.infos[t], Stopped(s, t);
    ChangeDue(s, t, s1.infos[t], s1);
    AgainDue(s1, t);
  }

  /** While callbacks arm no due timer and time stands still below 2^64 - 1, each turn lowers the number of due
      timers, so that a pass fires no more timers than were due when it began. */
  lemma {:induction false} PassEnds(s: Sched, fired: seq<Timer>, script: seq<seq<Command>>)
    requires IsPass(s, fired, script) && s.time < MAX_U64
    requires AllMild(script)
    ensures |fired| + |DueSet(PassEnd(s, fired, script))| <= |DueSet(s)|
    decreases |fired|
  {
    if fired != [] {
      var t := fired[0];
      PopDue(s, t);
      RunDue(Popped(s, t), script[0]);
      var s' := Turn(s, t, script[0]);
      Smaller(DueSet(s'), DueSet(s), t);
      forall cs, c | cs in script[1..] && c in cs ensures Mild(c) {
        assert cs in script;
      }
      PassEnds(s', fired[1..], script[1..]);
    }
  }

  lemma Smaller<T>(a: set<T>, b: set<T>, t: T)
    requires a <= b - {t} && t in b
    ensures |a| < |b|
  {
    assert b == a + (b - {t} - a) + {t};
  }

  /** The loop at lines 158 to 170 is left exactly when nothing is due. */
  lemma LeastDecides(s: Sched, t: Timer)
    requires IsLeast(s, t)
    ensures s.infos[t].timeout <= s.time <==> DueSet(s) != {}
  {
    if DueSet(s) != {} {
      var u :| u in DueSet(s);
      assert u in Armed(s);
    } else {
      assert t !in DueSet(s);
    }
  }

  // ---------- Nobody is forgotten ----------

  predicate Touches(c: Command, t: Timer) {
    !c.UpdateTime? && c.t == t
  }

  lemma {:induction false} RunSpares(s: Sched, cs: seq<Command>, t: Timer)
    requires AllAllowed(s, cs) && t in s.infos && forall c :: c in cs ==> !Touches(c, t)
    ensures t in ExecAll(s, cs).infos && ExecAll(s, cs).infos[t] == s.infos[t] && ExecAll(s, cs).time >= s.time
    decreases |cs|
  {
    if cs != [] {
      assert !Touches(cs[0], t);
      RunSpares(Exec(s, cs[0]), cs[1..], t);
    }
  }

  /** A pass that ran until nothing was due fired every timer that was due at its start, save those that a callback
      touched. */
  lemma {:induction false} DueAreFired(s: Sched, fired: seq<Timer>, script: seq<seq<Command>>, t: Timer)
    requires IsPass(s, fired, script) && DueSet(PassEnd(s, fired, script)) == {} && t in DueSet(s)
    requires forall cs, c :: cs in script && c in cs ==> !Touches(c, t)
    ensures t in fired
    decreases |fired|
  {
    if fired == [] {
      assert false;
    } else if fired[0] != t {
      RunSpares(Popped(s, fired[0]), script[0], t);
      forall cs, c | cs in script[1..] && c in cs ensures !Touches(c, t) {
        assert cs in script;
      }
      DueAreFired(Turn(s, fired[0], script[0]), fired[1..], script[1..], t);
    }
  }
}
