/** When a pass of uv__run_timers (src/timer.c:154-171) is sure to end, and when it need not. */
module TimerBounds {
  import opened HeapSlots
  import opened HeapOrder
  import opened TimerSched
  import opened TimerPass

  // ---------- A least timer ----------

  ghost predicate LeastOf(s: Sched, ts: set<Timer>, t: Timer) {
    t in ts && t in s.infos && forall u :: u in ts && u in s.infos ==> Le(KeyIn(s.infos[t]), KeyIn(s.infos[u]))
  }

  lemma {:induction false} SomeLeast(s: Sched, ts: set<Timer>) returns (t: Timer)
    requires ts != {} && ts <= s.infos.Keys
    ensures LeastOf(s, ts, t)
    decreases |ts|
  {
    t :| t in ts;
    var t0, rest := t, ts - {t};
    if rest != {} {
      var u := SomeLeast(s, rest);
      if Less(KeyIn(s.infos[u]), KeyIn(s.infos[t0])) {
        t := u;
      }
    }
    forall v | v in ts && v in s.infos ensures Le(KeyIn(s.infos[t]), KeyIn(s.infos[v])) {
      assert v == t0 || v in rest;
    }
  }

  lemma LeastArmed(s: Sched) returns (t: Timer)
    requires DueSet(s) != {}
    ensures IsLeast(s, t) && s.infos[t].timeout <= s.time
  {
    var u :| u in DueSet(s);
    assert u in Armed(s);
    t := SomeLeast(s, Armed(s));
  }

  // ---------- Passes without an end ----------

  /** What the callback of a timer does: it starts the timer again. */
  function Again(t: Timer, timeout: nat): seq<Command> {
    [Start(t, true, timeout, 0)]
  }

  /** Each callback of the pass starts its own timer again. */
  ghost predicate AllAgain(fired: seq<Timer>, script: seq<seq<Command>>, timeout: nat) {
    |script| == |fired| && forall i :: 0 <= i < |fired| ==> script[i] == Again(fired[i], timeout)
  }

  /** A timer that is started with a deadline that is not past the clock is due again. */
  lemma DueAgain(s: Sched, others: nat, t: Timer, timeout: nat)
    requires Inv(s, others) && t in DueSet(s) && timeout <= MAX_U64 && Deadline(s.time, timeout) <= s.time
    ensures AllAllowed(Popped(s, t), Again(t, timeout))
    ensures var e := Turn(s, t, Again(t, timeout)); Inv(e, others) && t in DueSet(e) && e.time == s.time
  {
    var p := Popped(s, t);
    var c := Start(t, true, timeout, 0);
    assert InfoOk(s.infos[t], s.counter);
    assert t in p.infos && !p.infos[t].closing && p.time == s.time;
    assert Again(t, timeout)[0] == c && Again(t, timeout)[1..] == [];
    assert AllAllowed(Exec(p, c), []);
    TurnKeeps(s, others, t, Again(t, timeout));
    assert ExecAll(Exec(p, c), []) == Exec(p, c);
  }

  /** With something due, and deadlines that are not past the clock, a pass of any length. */
  lemma {:induction false} Endless(s: Sched, others: nat, timeout: nat, n: nat) returns (fired: seq<Timer>, script: seq<seq<Command>>)
    requires Inv(s, others) && DueSet(s) != {} && timeout <= MAX_U64 && Deadline(s.time, timeout) <= s.time
    ensures |fired| == n && AllAgain(fired, script, timeout) && IsPass(s, fired, script)
    decreases n
  {
    if n == 0 {
      return [], [];
    }
    var t := LeastArmed(s);
    DueAgain(s, others, t, timeout);
    var rest, more := Endless(Turn(s, t, Again(t, timeout)), others, timeout, n - 1);
    fired, script := [t] + rest, [Again(t, timeout)] + more;
    assert fired[1..] == rest && script[1..] == more;
  }

  /** A callback that starts its timer with a timeout of 0. */
  lemma EndlessAtOnce(s: Sched, others: nat, n: nat) returns (fired: seq<Timer>, script: seq<seq<Command>>)
    requires Inv(s, others) && DueSet(s) != {}
    ensures |fired| == n && AllAgain(fired, script, 0) && IsPass(s, fired, script)
  {
    fired, script := Endless(s, others, 0, n);
  }

  /** A callback that starts its timer with a timeout of 1, when the clock is at 2^64 - 1. */
  lemma EndlessAtMax(s: Sched, others: nat, n: nat) returns (fired: seq<Timer>, script: seq<seq<Command>>)
    requires Inv(s, others) && Armed(s) != {} && s.time == MAX_U64
    ensures |fired| == n && AllAgain(fired, script, 1) && AllMild(script) && IsPass(s, fired, script)
  {
    var t :| t in Armed(s);
    assert InfoOk(s.infos[t], s.counter);
    assert t in DueSet(s);
    fired, script := Endless(s, others, 1, n);
    forall cs, c | cs in script && c in cs ensures Mild(c) {
      var i :| 0 <= i < |script| && script[i] == cs;
      assert c == Start(fired[i], true, 1, 0);
    }
  }

  // ---------- Exactly when there is a bound ----------

  /** A pass that fires more than n timers. */
  ghost predicate Longer(s: Sched, fired: seq<Timer>, script: seq<seq<Command>>, n: nat) {
    IsPass(s, fired, script) && |fired| > n
  }

  /** Some callbacks make a pass longer than n exactly if something is due.  That goes for every n: either nothing is
      fired or no number bounds the passes. */
  lemma UnboundedExactly(s: Sched, others: nat, n: nat)
    requires Inv(s, others)
    ensures (exists fired, script :: Longer(s, fired, script, n)) <==> DueSet(s) != {}
  {
    if DueSet(s) == {} {
      forall fired, script | IsPass(s, fired, script) ensures !Longer(s, fired, script, n) {
        NothingFired(s, fired, script);
      }
    } else {
      var fired, script := EndlessAtOnce(s, others, n + 1);
      assert Longer(s, fired, script, n);
    }
  }

  lemma NothingFired(s: Sched, fired: seq<Timer>, script: seq<seq<Command>>)
    requires DueSet(s) == {} && IsPass(s, fired, script)
    ensures fired == []
  {
    if fired != [] {
      LeastDecides(s, fired[0]);
    }
  }

  /** The same for callbacks that arm nothing with a timeout of 0 and leave the clock alone: they make a pass longer than
      n, when n is at least the number of timers due, exactly if the clock is at 2^64 - 1 and something is armed. */
  lemma MildUnboundedExactly(s: Sched, others: nat, n: nat)
    requires Inv(s, others) && n >= |DueSet(s)|
    ensures (exists fired, script :: Longer(s, fired, script, n) && AllMild(script)) <==> s.time == MAX_U64 && Armed(s) != {}
  {
    if s.time < MAX_U64 || Armed(s) == {} {
      forall fired, script | IsPass(s, fired, script) && AllMild(script) ensures !Longer(s, fired, script, n) {
        MildAtMost(s, fired, script);
      }
    } else {
      var fired, script := EndlessAtMax(s, others, n + 1);
      assert Longer(s, fired, script, n);
    }
  }

  lemma MildAtMost(s: Sched, fired: seq<Timer>, script: seq<seq<Command>>)
    requires IsPass(s, fired, script) && AllMild(script) && (s.time < MAX_U64 || Armed(s) == {})
    ensures |fired| <= |DueSet(s)|
  {
    if s.time < MAX_U64 {
      PassEnds(s, fired, script);
    } else {
      assert DueSet(s) <= Armed(s);
      NothingFired(s, fired, script);
    }
  }
}
