/** What the thread pool (src/threadpool.c) promises over every run, that is, over every interleaving of
    submissions, worker sections, completions, cancellations, loop callbacks and spurious wake-ups. */
module PoolTheorems {
  import opened Sequences
  import opened Wrappers
  import opened PoolQueue
  import opened PoolCrew
  import opened ThreadPool

  // ---------- No stranded work ----------

  /** A worker that is not asleep and has not left. */
  predicate Awake(c: Crew, w: nat) {
    w < |c.workers| && c.workers[w] != Waiting && c.workers[w] != Gone
  }

  lemma SomePhase(ws: seq<Phase>, p: Phase) returns (w: nat)
    requires Count(ws, p) > 0
    ensures w < |ws| && ws[w] == p
  {
    assert p in multiset(ws);
    assert p in ws;
    w :| w < |ws| && ws[w] == p;
  }

  /** If there is something a worker would not sleep on, some entry can be taken. */
  lemma TakeableIsDemand(c: Crew)
    requires CrewInv(c) && !c.shared.MustWait()
    ensures Demand(c) >= 1
  {
    var wq := c.shared.wq;
    HeadOff(wq);
    if wq[0] == SlowMessage && |wq| > 1 {
      assert Entries(wq, SlowMessage) == 1;
    }
  }

  /** Whenever the mutex is free: pending slow work has its sentinel queued; the slow slots in use are
      those of the workers holding one, and never more than half the pool, rounded up; while any worker
      sleeps, every entry that could be taken has a free worker of its own to take it; and unless the
      whole pool has left, something to take means that some worker is awake. */
  lemma NoStrandedWork(s0: State, acts: seq<Action>)
    requires IsRun(s0, acts)
    ensures var c := End(s0, acts).crew;
            && (c.shared.slow != [] ==> SlowMessage in c.shared.wq)
            && c.shared.slowRunning == Count(c.workers, Running(true)) + Count(c.workers, Ready(true))
            && c.shared.slowRunning <= (|c.workers| + 1) / 2
            && (Waiting in c.workers ==> Free(c.workers) >= Demand(c))
            && (!c.shared.MustWait() && (exists w :: 0 <= w < |c.workers| && c.workers[w] != Gone)
                ==> exists w: nat :: Awake(c, w))
  {
    var c := End(s0, acts).crew;
    HasEntry(c.shared.wq, SlowMessage);
    HasPhase(c.workers, Waiting);
    if !c.shared.MustWait() && exists w :: 0 <= w < |c.workers| && c.workers[w] != Gone {
      var v :| 0 <= v < |c.workers| && c.workers[v] != Gone;
      AwakeExists(c, v);
    }
  }

  lemma AwakeExists(c: Crew, v: nat)
    requires CrewInv(c) && !c.shared.MustWait() && v < |c.workers| && c.workers[v] != Gone
    ensures exists w: nat :: Awake(c, w)
  {
    if c.workers[v] == Waiting {
      HasPhase(c.workers, Waiting);
      TakeableIsDemand(c);
      var p := if Count(c.workers, Woken) > 0 then Woken else Ready(Count(c.workers, Ready(true)) > 0);
      var w := SomePhase(c.workers, p);
      assert Awake(c, w);
    } else {
      assert Awake(c, v);
    }
  }

  // ---------- Exactly once ----------

  /** A submitted request is in exactly one place; `done` is called at most once, after the request has
      left every queue, and with UV_ECANCELED exactly when the work never ran. */
  lemma ExactlyOnce(s0: State, acts: seq<Action>, r: Req)
    requires IsRun(s0, acts)
    requires r in End(s0, acts).reqs
    ensures var s := End(s0, acts);
            var t := TallyOf(s, r);
            && t.queued + t.executing + t.completed + t.moving + t.returned == 1
            && |s.reqs[r].calls| <= 1
            && (s.reqs[r].calls == [Canceled] <==> t.returned == 1 && !s.reqs[r].ran)
            && (s.reqs[r].calls == [Ok] <==> t.returned == 1 && s.reqs[r].ran)
  {
    var s := End(s0, acts);
    assert Consistent(TallyOf(s, r), s.reqs[r]);
  }

  /** uv__work_cancel returns 0, as opposed to UV_EBUSY, exactly for work that has not started. */
  lemma CancelTest(s: State, r: Req)
    requires Inv(s) && Enabled(s, CancelTry(r))
    ensures Cancellable(s.reqs[r]) <==> !s.reqs[r].ran
  {
    assert Consistent(TallyOf(s, r), s.reqs[r]);
  }

  /** The state of a request from the moment uv__work_cancel has returned 0, or is bound to. */
  predicate Doomed(s: State, r: Req) {
    && r in s.reqs && s.reqs[r].loop < |s.loops| && !s.reqs[r].ran
    && (s.reqs[r].fn == Cancelled || s.loops[s.reqs[r].loop].transit == Some(r))
  }

  lemma CancelDooms(s: State, r: Req)
    requires Inv(s) && Enabled(s, CancelTry(r)) && Cancellable(s.reqs[r])
    ensures Doomed(Apply(s, CancelTry(r)), r)
  {
    CancelTest(s, r);
  }

  lemma DoomedStays(s: State, s': State, r: Req)
    requires Doomed(s, r) && |s'.loops| == |s.loops| && r in s'.reqs && s'.reqs[r] == s.reqs[r]
    requires s'.loops[s.reqs[r].loop].transit == s.loops[s.reqs[r].loop].transit
    ensures Doomed(s', r)
  {
  }

  lemma DoomedInTake(s: State, w: nat, wake: Option<nat>, r: Req)
    requires Inv(s) && CanTake(s.crew, w, wake) && Doomed(s, r)
    ensures Doomed(TakeIn(s, w, wake), r)
  {
    assert Consistent(TallyOf(s, r), s.reqs[r]);
    TakenKnown(s, w);
    DoomedStays(s, TakeIn(s, w, wake), r);
  }

  lemma DoomedInFinish(s: State, w: nat, q: Req, r: Req)
    requires RequestsOk(s) && Runs(s, w, q) && Doomed(s, r)
    ensures Doomed(FinishIn(s, w), r)
  {
    assert Consistent(TallyOf(s, r), s.reqs[r]);
    DoomedStays(s, FinishIn(s, w), r);
  }

  lemma DoomedInTry(s: State, q: Req, r: Req)
    requires Doomed(s, r) && q in s.reqs && LoopFree(s, s.reqs[q].loop)
    ensures Doomed(CancelIn(s, q), r)
  {
  }

  lemma DoomedInCommit(s: State, l: Loop, q: Req, r: Req)
    requires Doomed(s, r) && l < |s.loops| && s.loops[l].transit == Some(q) && q in s.reqs
    ensures Doomed(CommitIn(s, l), r)
  {
  }

  lemma DoomedInCall(s: State, l: Loop, q: Req, r: Req)
    requires Doomed(s, r) && l < |s.loops| && s.loops[l].local != [] && s.loops[l].local[0] == q && q in s.reqs
    ensures Doomed(CallIn(s, l), r)
  {
  }

  lemma DoomedInPool(s: State, a: Action, r: Req)
    requires Inv(s) && Enabled(s, a) && Doomed(s, r) && (a.Submit? || a.Cleanup? || a.Take? || a.Finish? || a.Spurious?)
    ensures Doomed(Apply(s, a), r)
  {
    match a
    case Submit(q, l, kind, wake) => DoomedStays(s, SubmitIn(s, q, l, kind, wake), r);
    case Cleanup(wake) => DoomedStays(s, CleanupIn(s, wake), r);
    case Take(w, wake) => DoomedInTake(s, w, wake, r);
    case Finish(w) =>
      RunningKnown(s, w);
      DoomedInFinish(s, w, s.jobs[w].value, r);
    case Spurious(w) => DoomedStays(s, s.(crew := SpuriousStep(s.crew, w)), r);
  }

  lemma DoomedInLoop(s: State, a: Action, r: Req)
    requires Inv(s) && Enabled(s, a) && Doomed(s, r) && (a.CancelTry? || a.CancelCommit? || a.DoneStart? || a.DoneMove? || a.DoneCall?)
    ensures Doomed(Apply(s, a), r)
  {
    match a
    case CancelTry(q) =>
      if Cancellable(s.reqs[q]) {
        DoomedInTry(s, q, r);
      }
    case CancelCommit(l) =>
      LoopHolds(s, l);
      DoomedInCommit(s, l, s.loops[l].transit.value, r);
    case DoneStart(l) => DoomedStays(s, StartIn(s, l), r);
    case DoneMove(l) => DoomedStays(s, MoveIn(s, l), r);
    case DoneCall(l) =>
      LoopHolds(s, l);
      DoomedInCall(s, l, s.loops[l].local[0], r);
  }

  /** Once uv__work_cancel has returned 0 the work never runs, whatever happens later. */
  lemma {:induction false} CancelledNeverRuns(s: State, acts: seq<Action>, r: Req)
    requires Inv(s) && Doomed(s, r) && CanRun(s, acts)
    ensures Doomed(After(s, acts), r)
    decreases |acts|
  {
    if acts != [] {
      StepKeeps(s, acts[0]);
      if acts[0].CancelTry? || acts[0].CancelCommit? || acts[0].DoneStart? || acts[0].DoneMove? || acts[0].DoneCall? {
        DoomedInLoop(s, acts[0], r);
      } else {
        DoomedInPool(s, acts[0], r);
      }
      CancelledNeverRuns(Apply(s, acts[0]), acts[1..], r);
    }
  }

  // ---------- Everything submitted is completed ----------

  /** The steps the pool and the loops take by themselves: all but calls into the library and
      spurious wake-ups. */
  predicate Internal(a: Action) {
    a.Take? || a.Finish? || a.CancelCommit? || a.DoneStart? || a.DoneMove? || a.DoneCall?
  }

  /** Work left, weighted so that each internal step uses some up. */
  function CrewRank(c: Crew): int {
    QueueRank(c.shared) + StaffRank(c.workers)
  }

  function QueueRank(sh: Shared): int {
    6 * Proper(sh) + Entries(sh.wq, SlowMessage) + 6 * |sh.slow|
  }

  function StaffRank(ws: seq<Phase>): nat {
    2 * Free(ws) + Count(ws, Waiting) + 6 * Count(ws, Running(true)) + 6 * Count(ws, Running(false))
  }

  function LoopRank(i: LoopInfo): nat {
    |i.wq| + |i.local| + (if i.async then 2 else 0) + (if i.called then 1 else 0) + if i.transit.Some? then 4 else 0
  }

  function LoopsRank(loops: seq<LoopInfo>): nat {
    if loops == [] then 0 else LoopRank(loops[0]) + LoopsRank(loops[1..])
  }

  function Rank(s: State): int {
    CrewRank(s.crew) + LoopsRank(s.loops)
  }

  lemma {:induction false} LoopsRankUpdate(loops: seq<LoopInfo>, l: nat, i: LoopInfo)
    requires l < |loops|
    ensures LoopsRank(loops[l := i]) == LoopsRank(loops) - LoopRank(loops[l]) + LoopRank(i)
  {
    if l == 0 {
      assert loops[0 := i][1..] == loops[1..];
    } else {
      assert loops[l := i][1..] == loops[1..][l - 1 := i];
      LoopsRankUpdate(loops[1..], l - 1, i);
    }
  }

  lemma ArriveRank(c: Crew, w: nat)
    requires CrewInv(c) && AtMutex(c, w)
    ensures CrewRank(Arrived(c, w)) == CrewRank(c)
  {
    Moved(c.workers, w, Ready(false));
    assert StaffRank(c.workers[w := Ready(false)]) == StaffRank(c.workers);
  }

  lemma StaffMove(ws: seq<Phase>, w: nat, o: Outcome)
    requires w < |ws| && ws[w] == Ready(false)
    ensures StaffRank(ws[w := PhaseAfter(o)]) == StaffRank(ws) + if o.Run? then 4 else if o.Wait? then -1 else -2
  {
    Moved(ws, w, PhaseAfter(o));
  }

  lemma SectionRank(c: Crew, w: nat, r: Result)
    requires w < |c.workers| && c.workers[w] == Ready(false) && SectionEffect(c.shared, r)
    ensures CrewRank(Crew(r.shared, c.workers[w := PhaseAfter(r.outcome)])) + (if r.signal then 1 else 0) < CrewRank(c)
  {
    StaffMove(c.workers, w, r.outcome);
    EffectRank(c.shared, r);
  }

  lemma EffectRank(sh: Shared, r: Result)
    requires SectionEffect(sh, r)
    ensures QueueRank(r.shared) + (if r.outcome.Run? then 4 else if r.outcome.Wait? then -1 else -2) + (if r.signal then 1 else 0)
            < QueueRank(sh)
  {
  }

  lemma SetTwice(ws: seq<Phase>, w: nat, p: Phase, q: Phase)
    requires w < |ws|
    ensures ws[w := p][w := q] == ws[w := q]
  {
  }

  lemma WakeRank(ws: seq<Phase>, signal: bool, wake: Option<nat>)
    requires WakeOk(ws, signal, wake)
    ensures StaffRank(Wake(ws, wake)) <= StaffRank(ws) + if signal then 1 else 0
  {
    Signalled(ws, signal, wake);
  }

  lemma UnsignalledRank(c: Crew, w: nat)
    requires CrewInv(c) && AtMutex(c, w)
    ensures var r := SectionOf(c, w);
            CrewRank(Crew(r.shared, c.workers[w := PhaseAfter(r.outcome)])) + (if r.signal then 1 else 0)
            < CrewRank(Arrived(c, w))
  {
    var c1, r := Arrived(c, w), SectionOf(c, w);
    ArriveKeeps(c, w);
    SectionHasEffect(c1.shared);
    SectionRank(c1, w, r);
    SetTwice(c.workers, w, Ready(false), PhaseAfter(r.outcome));
  }

  lemma TakeRank(c: Crew, w: nat, wake: Option<nat>)
    requires CrewInv(c) && CanTake(c, w, wake)
    ensures CrewRank(TakeStep(c, w, wake)) < CrewRank(c)
  {
    var r := SectionOf(c, w);
    ArriveRank(c, w);
    UnsignalledRank(c, w);
    WakeRank(c.workers[w := PhaseAfter(r.outcome)], r.signal, wake);
  }

  lemma FinishRank(c: Crew, w: nat)
    requires IsRunning(c, w)
    ensures CrewRank(FinishStep(c, w)) == CrewRank(c) - 4
  {
    FinishStaff(c.workers, w);
  }

  lemma FinishStaff(ws: seq<Phase>, w: nat)
    requires w < |ws| && ws[w].Running?
    ensures StaffRank(ws[w := Ready(ws[w].slow)]) == StaffRank(ws) - 4
  {
    Moved(ws, w, Ready(ws[w].slow));
  }

  /** A step of loop l that leaves i of it. */
  lemma LoopFalls(s: State, s': State, l: Loop, i: LoopInfo)
    requires s'.crew == s.crew && l < |s.loops| && s'.loops == s.loops[l := i] && LoopRank(i) < LoopRank(s.loops[l])
    ensures Rank(s') < Rank(s)
  {
    LoopsRankUpdate(s.loops, l, i);
  }

  lemma CommitRank(s: State, l: Loop)
    requires l < |s.loops| && s.loops[l].transit.Some? && s.loops[l].transit.value in s.reqs
    ensures Rank(CommitIn(s, l)) < Rank(s)
  {
    LoopFalls(s, CommitIn(s, l), l, CommitIn(s, l).loops[l]);
  }

  lemma StartRank(s: State, l: Loop)
    requires LoopFree(s, l) && s.loops[l].async
    ensures Rank(StartIn(s, l)) < Rank(s)
  {
    LoopFalls(s, StartIn(s, l), l, StartIn(s, l).loops[l]);
  }

  lemma MoveRank(s: State, l: Loop)
    requires l < |s.loops| && s.loops[l].called && s.loops[l].local == []
    ensures Rank(MoveIn(s, l)) < Rank(s)
  {
    LoopFalls(s, MoveIn(s, l), l, MoveIn(s, l).loops[l]);
  }

  lemma CallRank(s: State, l: Loop)
    requires l < |s.loops| && s.loops[l].local != [] && s.loops[l].local[0] in s.reqs
    ensures Rank(CallIn(s, l)) < Rank(s)
  {
    LoopFalls(s, CallIn(s, l), l, CallIn(s, l).loops[l]);
  }

  lemma FinishedRank(s: State, w: nat, r: Req)
    requires Runs(s, w, r)
    ensures Rank(FinishIn(s, w)) < Rank(s)
  {
    var l := s.reqs[r].loop;
    FinishRank(s.crew, w);
    LoopsRankUpdate(s.loops, l, Deliver(s.loops, l, r)[l]);
  }

  lemma StepRank(s: State, a: Action)
    requires Inv(s) && Enabled(s, a) && Internal(a)
    ensures Rank(Apply(s, a)) < Rank(s)
  {
    match a
    case Take(w, wake) => TakeRank(s.crew, w, wake);
    case Finish(w) =>
      RunningKnown(s, w);
      FinishedRank(s, w, s.jobs[w].value);
    case CancelCommit(l) =>
      LoopHolds(s, l);
      CommitRank(s, l);
    case DoneStart(l) => StartRank(s, l);
    case DoneMove(l) => MoveRank(s, l);
    case DoneCall(l) =>
      LoopHolds(s, l);
      CallRank(s, l);
  }

  lemma RankNonNegative(s: State)
    ensures Rank(s) >= 0
  {
    CountAtMost(s.crew.shared.wq);
  }

  lemma {:induction false} CountAtMost(wq: seq<Item>)
    ensures Entries(wq, SlowMessage) <= |wq|
  {
    if wq != [] {
      HeadOff(wq);
      CountAtMost(wq[1..]);
    }
  }

  /** Nothing is left that the pool or a loop would do by itself. */
  ghost predicate Quiet(s: State)
    requires Inv(s)
  {
    forall a :: Internal(a) ==> !Enabled(s, a)
  }

  lemma TakePossible(s: State, w: nat) returns (wake: Option<nat>)
    requires Inv(s) && AtMutex(s.crew, w)
    ensures Enabled(s, Take(w, wake))
  {
    var r := SectionOf(s.crew, w);
    var ws := s.crew.workers[w := PhaseAfter(r.outcome)];
    wake := None;
    if r.signal && Waiting in ws {
      var v :| 0 <= v < |ws| && ws[v] == Waiting;
      wake := Some(v);
    }
  }

  lemma QuietWorkers(s: State)
    requires Inv(s) && Quiet(s)
    ensures forall w :: 0 <= w < |s.crew.workers| ==> s.crew.workers[w] == Waiting || s.crew.workers[w] == Gone
  {
    forall w: nat | w < |s.crew.workers|
      ensures s.crew.workers[w] == Waiting || s.crew.workers[w] == Gone
    {
      assert !Enabled(s, Finish(w));
      if AtMutex(s.crew, w) {
        var wake := TakePossible(s, w);
        assert false;
      }
    }
  }

  /** With the pool quiet and not shut down, no request waits for a worker or is being executed. */
  lemma QuietPool(s: State, r: Req)
    requires Inv(s) && Quiet(s) && Exit !in s.crew.shared.wq
    ensures InPool(s, r) == 0
  {
    QuietWorkers(s);
    AllAsleep(s.crew);
    assert multiset(s.jobs)[Some(r)] > 0 ==> Some(r) in s.jobs;
  }

  /** When nobody is awake and nobody has been told to leave, nothing is queued. */
  lemma AllAsleep(c: Crew)
    requires CrewInv(c) && Exit !in c.shared.wq
    requires forall w :: 0 <= w < |c.workers| ==> c.workers[w] == Waiting || c.workers[w] == Gone
    ensures c.shared.wq == [] && c.shared.slow == []
  {
    HasEntry(c.shared.wq, Exit);
    forall p | p != Waiting ensures Count(c.workers, p) == 0 {
      HasPhase(c.workers, p);
    }
    assert c.workers[0] in c.workers;
    HasPhase(c.workers, c.workers[0]);
    if !c.shared.MustWait() {
      TakeableIsDemand(c);
    }
  }

  lemma QuietLoop(s: State, l: nat)
    requires Inv(s) && Quiet(s) && l < |s.loops|
    ensures s.loops[l].wq == [] && s.loops[l].local == [] && s.loops[l].transit == None
  {
    assert !Enabled(s, CancelCommit(l));
    assert !Enabled(s, DoneMove(l));
    assert !Enabled(s, DoneCall(l));
    assert !Enabled(s, DoneStart(l));
  }

  lemma AtRest(s: State)
    requires Inv(s) && Quiet(s) && Exit !in s.crew.shared.wq
    ensures forall r :: r in s.reqs ==> |s.reqs[r].calls| == 1
  {
    forall r | r in s.reqs ensures |s.reqs[r].calls| == 1 {
      QuietPool(s, r);
      QuietLoop(s, s.reqs[r].loop);
      assert Consistent(TallyOf(s, r), s.reqs[r]);
    }
  }

  /** Unless the pool is shut down, every submitted request is completed: each internal step uses up some
      of a finite rank, so the pool and the loops come to rest after at most Rank(s) of them, and at rest
      every request has had its `done` called exactly once. */
  lemma {:induction false} EverythingCompletes(s: State, acts: seq<Action>)
    requires Inv(s) && CanRun(s, acts) && forall i :: 0 <= i < |acts| ==> Internal(acts[i])
    ensures |acts| <= Rank(s)
    ensures var s' := After(s, acts);
            Quiet(s') && Exit !in s'.crew.shared.wq ==> forall r :: r in s'.reqs ==> |s'.reqs[r].calls| == 1
    decreases |acts|
  {
    if acts == [] {
      RankNonNegative(s);
      if Quiet(s) && Exit !in s.crew.shared.wq {
        AtRest(s);
      }
    } else {
      FirstStep(s, acts);
      EverythingCompletes(Apply(s, acts[0]), acts[1..]);
    }
  }

  lemma FirstStep(s: State, acts: seq<Action>)
    requires Inv(s) && CanRun(s, acts) && acts != [] && forall i :: 0 <= i < |acts| ==> Internal(acts[i])
    ensures Inv(Apply(s, acts[0])) && Rank(Apply(s, acts[0])) < Rank(s) && CanRun(Apply(s, acts[0]), acts[1..])
    ensures After(s, acts) == After(Apply(s, acts[0]), acts[1..])
    ensures forall i :: 0 <= i < |acts[1..]| ==> Internal(acts[1..][i])
  {
    assert Internal(acts[0]);
    StepKeeps(s, acts[0]);
    StepRank(s, acts[0]);
  }
}
