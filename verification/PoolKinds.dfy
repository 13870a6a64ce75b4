/** What a request was submitted as decides how the thread pool (src/threadpool.c) runs it, over every run: slow work waits
    apart, and at most half the workers, rounded up, execute it.  And the order in which `done` callbacks come. */
module PoolKinds {
  import opened Sequences
  import opened Wrappers
  import opened PoolQueue
  import opened PoolCrew
  import opened ThreadPool

  // ---------- Kinds ----------

  /** A request waits in the queue of its kind. */
  ghost predicate QueuedByKind(sh: Shared, reqs: map<Req, ReqInfo>) {
    && (forall q :: q in reqs && Entries(sh.wq, Work(q)) > 0 ==> reqs[q].kind != SlowIo)
    && forall q :: q in reqs && q in sh.slow ==> reqs[q].kind == SlowIo
  }

  /** A worker with a request occupies a place for slow work exactly if the request is slow. */
  ghost predicate RunByKind(s: State, w: nat) {
    w < |s.jobs| && w < |s.crew.workers| && s.jobs[w].Some? ==>
      s.jobs[w].value in s.reqs && s.crew.workers[w] == Running(s.reqs[s.jobs[w].value].kind == SlowIo)
  }

  ghost predicate ByKind(s: State) {
    QueuedByKind(s.crew.shared, s.reqs) && forall w :: RunByKind(s, w)
  }

  lemma SlowKnown(s: State, q: Req)
    requires PoolKnown(s) && (q in s.crew.shared.slow || Entries(s.crew.shared.wq, Work(q)) > 0)
    ensures q in s.reqs
  {
    assert q in s.crew.shared.slow ==> q in multiset(s.crew.shared.slow);
    assert InPool(s, q) > 0;
  }

  /** Requests keep what they were submitted as, and the queues grow by nothing. */
  lemma QueuesShrink(s: State, s': State)
    requires QueuedByKind(s.crew.shared, s.reqs) && PoolKnown(s)
    requires forall q :: q in s.reqs ==> q in s'.reqs && s'.reqs[q].kind == s.reqs[q].kind
    requires forall q :: Entries(s'.crew.shared.wq, Work(q)) > 0 ==> Entries(s.crew.shared.wq, Work(q)) > 0
    requires forall q :: q in s'.crew.shared.slow ==> q in s.crew.shared.slow
    ensures QueuedByKind(s'.crew.shared, s'.reqs)
  {
    forall q | q in s'.crew.shared.slow || Entries(s'.crew.shared.wq, Work(q)) > 0 ensures q in s.reqs {
      SlowKnown(s, q);
    }
  }

  lemma SubmitByKind(s: State, r: Req, l: Loop, kind: Kind, wake: Option<nat>)
    requires ByKind(s) && PoolKnown(s) && JobsOk(s) && r !in s.reqs && CanPost(s.crew, Work(r), kind, wake)
    ensures ByKind(SubmitIn(s, r, l, kind, wake))
  {
    var s' := SubmitIn(s, r, l, kind, wake);
    SubmitQueues(s, r, l, kind, wake);
    Signalled(s.crew.workers, Post(s.crew.shared, Work(r), kind).1, wake);
    forall w ensures RunByKind(s', w) {
      assert RunByKind(s, w);
    }
  }

  lemma SubmitQueues(s: State, r: Req, l: Loop, kind: Kind, wake: Option<nat>)
    requires ByKind(s) && PoolKnown(s) && r !in s.reqs && CanPost(s.crew, Work(r), kind, wake)
    ensures QueuedByKind(SubmitIn(s, r, l, kind, wake).crew.shared, SubmitIn(s, r, l, kind, wake).reqs)
  {
    var s' := SubmitIn(s, r, l, kind, wake);
    assert InPool(s, r) == 0;
    forall q | q != r
      ensures Entries(s'.crew.shared.wq, Work(q)) == Entries(s.crew.shared.wq, Work(q))
      ensures q in s'.crew.shared.slow <==> q in s.crew.shared.slow
    {
    }
    PostedByKind(s.crew.shared, r, kind);
  }

  lemma PostedByKind(sh: Shared, r: Req, kind: Kind)
    requires Queued(sh, r) == 0
    ensures var sh' := Post(sh, Work(r), kind).0;
            (Entries(sh'.wq, Work(r)) > 0 ==> kind != SlowIo) && (r in sh'.slow ==> kind == SlowIo)
  {
    assert r in sh.slow ==> r in multiset(sh.slow);
  }

  lemma CleanupByKind(s: State, wake: Option<nat>)
    requires ByKind(s) && PoolKnown(s) && CanPost(s.crew, Exit, Cpu, wake)
    ensures ByKind(CleanupIn(s, wake))
  {
    var s' := CleanupIn(s, wake);
    QueuesShrink(s, s');
    Signalled(s.crew.workers, Post(s.crew.shared, Exit, Cpu).1, wake);
    forall w ensures RunByKind(s', w) {
      assert RunByKind(s, w);
    }
  }

  /** The queues after a worker's section, and what it runs. */
  lemma TakenQueues(s: State, w: nat)
    requires Inv(s) && AtMutex(s.crew, w)
    ensures var r := SectionOf(s.crew, w);
            && (forall q :: Entries(r.shared.wq, Work(q)) > 0 ==> Entries(s.crew.shared.wq, Work(q)) > 0)
            && (forall q :: q in r.shared.slow ==> q in s.crew.shared.slow)
            && (r.outcome.Run? && r.outcome.slow ==> r.outcome.req in s.crew.shared.slow)
            && (r.outcome.Run? && !r.outcome.slow ==> Entries(s.crew.shared.wq, Work(r.outcome.req)) > 0)
  {
    ArriveKeeps(s.crew, w);
    var sh := Arrived(s.crew, w).shared;
    SectionHasEffect(sh);
    SectionTakesWork(sh);
  }

  lemma TakeByKind(s: State, w: nat, wake: Option<nat>)
    requires Inv(s) && ByKind(s) && CanTake(s.crew, w, wake)
    ensures ByKind(TakeIn(s, w, wake))
  {
    var s', r := TakeIn(s, w, wake), SectionOf(s.crew, w);
    TakenKnown(s, w);
    TakenQueues(s, w);
    QueuesShrink(s, s');
    forall v ensures RunByKind(s', v) {
      assert RunByKind(s, v);
      TakenRun(s, s', w, r.outcome, r.signal, wake, v);
    }
  }

  lemma TakenRun(s: State, s': State, w: nat, o: Outcome, signal: bool, wake: Option<nat>, v: nat)
    requires JobsOk(s) && RunByKind(s, v) && w < |s.jobs| && s.jobs[w] == None && WakeOk(s.crew.workers[w := PhaseAfter(o)], signal, wake)
    requires s'.crew.workers == Wake(s.crew.workers[w := PhaseAfter(o)], wake)
    requires s'.jobs == if o.Run? then s.jobs[w := Some(o.req)] else s.jobs
    requires o.Run? ==> o.req in s.reqs && (o.slow <==> s.reqs[o.req].kind == SlowIo)
    requires forall q :: q in s.reqs ==> q in s'.reqs && s'.reqs[q].kind == s.reqs[q].kind
    ensures RunByKind(s', v)
  {
    if v != w && v < |s.jobs| {
      StillRuns(s.crew.workers, w, PhaseAfter(o), signal, wake, v);
    }
  }

  lemma StillRuns(ws: seq<Phase>, w: nat, p: Phase, signal: bool, wake: Option<nat>, v: nat)
    requires w < |ws| && v < |ws| && v != w && WakeOk(ws[w := p], signal, wake)
    ensures ws[v].Running? ==> Wake(ws[w := p], wake)[v] == ws[v]
  {
  }

  lemma FinishByKind(s: State, w: nat, r: Req)
    requires ByKind(s) && PoolKnown(s) && Runs(s, w, r)
    ensures ByKind(FinishIn(s, w))
  {
    var s' := FinishIn(s, w);
    QueuesShrink(s, s');
    forall v ensures RunByKind(s', v) {
      assert RunByKind(s, v);
    }
  }

  lemma DropByKind(s: State, r: Req)
    requires ByKind(s) && PoolKnown(s) && r in s.reqs && s.reqs[r].loop < |s.loops|
    ensures ByKind(CancelIn(s, r))
  {
    var s' := CancelIn(s, r);
    WithoutCounts(s.crew.shared.wq, Work(r));
    WithoutIs(s.crew.shared.slow, r);
    QueuesShrink(s, s');
    forall v ensures RunByKind(s', v) {
      assert RunByKind(s, v);
    }
  }

  /** A step that leaves queues, jobs, and what requests are. */
  lemma SameByKind(s: State, s': State)
    requires ByKind(s) && s'.crew.shared == s.crew.shared && s'.jobs == s.jobs
    requires s'.reqs.Keys == s.reqs.Keys && forall q :: q in s.reqs ==> s'.reqs[q].kind == s.reqs[q].kind
    requires |s'.crew.workers| == |s.crew.workers|
    requires forall w :: 0 <= w < |s.crew.workers| && s.crew.workers[w].Running? ==> s'.crew.workers[w] == s.crew.workers[w]
    ensures ByKind(s')
  {
    forall w ensures RunByKind(s', w) {
      assert RunByKind(s, w);
    }
  }

  lemma StepByKind(s: State, a: Action)
    requires Inv(s) && ByKind(s) && Enabled(s, a)
    ensures ByKind(Apply(s, a))
  {
    match a
    case Submit(r, l, kind, wake) => SubmitByKind(s, r, l, kind, wake);
    case Cleanup(wake) => CleanupByKind(s, wake);
    case Take(w, wake) => TakeByKind(s, w, wake);
    case Finish(w) =>
      RunningKnown(s, w);
      FinishByKind(s, w, s.jobs[w].value);
    case CancelTry(r) =>
      if Cancellable(s.reqs[r]) {
        DropByKind(s, r);
      }
    case Spurious(w) => SameByKind(s, s.(crew := SpuriousStep(s.crew, w)));
    case CancelCommit(l) => CommitByKind(s, l);
    case DoneCall(l) => CallByKind(s, l);
    case DoneStart(l) => SameCrew(s, StartIn(s, l));
    case DoneMove(l) => SameCrew(s, MoveIn(s, l));
  }

  lemma CommitByKind(s: State, l: Loop)
    requires LoopsKnown(s) && ByKind(s) && l < |s.loops| && s.loops[l].transit.Some?
    ensures s.loops[l].transit.value in s.reqs && ByKind(CommitIn(s, l))
  {
    LoopHolds(s, l);
    SameCrew(s, CommitIn(s, l));
  }

  lemma CallByKind(s: State, l: Loop)
    requires LoopsKnown(s) && ByKind(s) && l < |s.loops| && s.loops[l].local != []
    ensures s.loops[l].local[0] in s.reqs && ByKind(CallIn(s, l))
  {
    LoopHolds(s, l);
    SameCrew(s, CallIn(s, l));
  }

  lemma SameCrew(s: State, s': State)
    requires ByKind(s) && s'.crew == s.crew && s'.jobs == s.jobs
    requires s'.reqs.Keys == s.reqs.Keys && forall q :: q in s.reqs ==> s'.reqs[q].kind == s.reqs[q].kind
    ensures ByKind(s')
  {
    SameByKind(s, s');
  }

  lemma {:induction false} RunsByKind(s: State, acts: seq<Action>)
    requires Inv(s) && ByKind(s) && CanRun(s, acts)
    ensures ByKind(After(s, acts))
    decreases |acts|
  {
    if acts != [] {
      StepKeeps(s, acts[0]);
      StepByKind(s, acts[0]);
      RunsByKind(Apply(s, acts[0]), acts[1..]);
    }
  }

  /** Over every run: a slow request is never in the work queue itself and any other never in the queue of slow ones, and a
      worker executes a request as slow work exactly if it is slow. */
  lemma KindsApart(s0: State, acts: seq<Action>, r: Req)
    requires IsRun(s0, acts) && r in End(s0, acts).reqs
    ensures var s := End(s0, acts);
            && (s.reqs[r].kind == SlowIo ==> Work(r) !in s.crew.shared.wq)
            && (s.reqs[r].kind != SlowIo ==> r !in s.crew.shared.slow)
            && forall w :: 0 <= w < |s.jobs| && s.jobs[w] == Some(r) ==>
                 w < |s.crew.workers| && s.crew.workers[w] == Running(s.reqs[r].kind == SlowIo)
  {
    InitHolds(s0);
    RunsByKind(s0, acts);
    var s := End(s0, acts);
    HasEntry(s.crew.shared.wq, Work(r));
    forall w | 0 <= w < |s.jobs| && s.jobs[w] == Some(r)
      ensures w < |s.crew.workers| && s.crew.workers[w] == Running(s.reqs[r].kind == SlowIo)
    {
      assert RunByKind(s, w);
    }
  }

  /** The workers that execute slow requests. */
  ghost function SlowWorkers(s: State): set<nat> {
    set w: nat | w < |s.jobs| && s.jobs[w].Some? && s.jobs[w].value in s.reqs && s.reqs[s.jobs[w].value].kind == SlowIo
  }

  lemma {:induction false} SomeOf(ws: seq<Phase>, p: Phase, some: set<nat>)
    requires forall w :: w in some ==> w < |ws| && ws[w] == p
    ensures |some| <= Count(ws, p)
  {
    if ws != [] {
      var k := |ws| - 1;
      assert ws == ws[..k] + [ws[k]];
      var fewer := some - {k};
      forall w | w in fewer ensures w < k && ws[..k][w] == p {
      }
      SomeOf(ws[..k], p, fewer);
      assert |some| == |fewer| + if k in some then 1 else 0;
    } else {
      assert some == {};
    }
  }

  /** Over every run, at most half the workers, rounded up, execute requests submitted as slow. */
  lemma SlowCap(s0: State, acts: seq<Action>)
    requires IsRun(s0, acts)
    ensures var s := End(s0, acts); |SlowWorkers(s)| <= (|s.crew.workers| + 1) / 2
  {
    InitHolds(s0);
    RunsByKind(s0, acts);
    var s := End(s0, acts);
    forall w | w in SlowWorkers(s) ensures w < |s.crew.workers| && s.crew.workers[w] == Running(true) {
      assert RunByKind(s, w);
    }
    SomeOf(s.crew.workers, Running(true), SlowWorkers(s));
  }

  // ---------- What a request is, it stays ----------

  /** r is known, as what it was. */
  ghost predicate Keeps(s: State, s': State, r: Req) {
    r in s.reqs && r in s'.reqs && s'.reqs[r].kind == s.reqs[r].kind && s'.reqs[r].loop == s.reqs[r].loop
  }

  lemma TakeIdentity(s: State, w: nat, wake: Option<nat>, r: Req)
    requires Inv(s) && CanTake(s.crew, w, wake) && r in s.reqs
    ensures Keeps(s, TakeIn(s, w, wake), r)
  {
    TakenKnown(s, w);
  }

  lemma FinishIdentity(s: State, w: nat, q: Req, r: Req)
    requires Runs(s, w, q) && r in s.reqs
    ensures Keeps(s, FinishIn(s, w), r)
  {
  }

  lemma PostIdentity(s: State, q: Req, l: Loop, kind: Kind, wake: Option<nat>, r: Req)
    requires CanPost(s.crew, Work(q), kind, wake) && q !in s.reqs && r in s.reqs
    ensures Keeps(s, SubmitIn(s, q, l, kind, wake), r)
  {
  }

  lemma IdentityStays(s: State, a: Action, r: Req)
    requires Inv(s) && Enabled(s, a) && r in s.reqs
    ensures Keeps(s, Apply(s, a), r)
  {
    match a
    case Submit(q, l, kind, wake) => PostIdentity(s, q, l, kind, wake, r);
    case Take(w, wake) => TakeIdentity(s, w, wake, r);
    case Finish(w) =>
      RunningKnown(s, w);
      FinishIdentity(s, w, s.jobs[w].value, r);
    case Cleanup(_) =>
    case Spurious(_) =>
    case CancelTry(_) =>
    case _ => LoopIdentity(s, a, r);
  }

  lemma LoopIdentity(s: State, a: Action, r: Req)
    requires Inv(s) && Enabled(s, a) && r in s.reqs && (a.CancelCommit? || a.DoneCall? || a.DoneStart? || a.DoneMove?)
    ensures Keeps(s, Apply(s, a), r)
  {
    LoopHolds(s, a.l);
  }

  lemma {:induction false} IdentityLasts(s: State, acts: seq<Action>, r: Req)
    requires Inv(s) && CanRun(s, acts) && r in s.reqs
    ensures Keeps(s, After(s, acts), r)
    decreases |acts|
  {
    if acts != [] {
      StepKeeps(s, acts[0]);
      IdentityStays(s, acts[0], r);
      IdentityLasts(Apply(s, acts[0]), acts[1..], r);
    }
  }

  lemma FirstLasts(s: State, acts: seq<Action>, r: Req, l: Loop, kind: Kind, wake: Option<nat>)
    requires Inv(s) && CanRun(s, acts) && acts != [] && acts[0] == Submit(r, l, kind, wake)
    ensures KnownAs(After(s, acts), r, l, kind)
  {
    StepKeeps(s, acts[0]);
    SubmittedAs(s, r, l, kind, wake);
    IdentityLasts(Apply(s, acts[0]), acts[1..], r);
  }

  /** A request that was submitted is known for ever as what it was submitted as, and by the loop it was submitted to. */
  lemma {:induction false} SubmissionLasts(s: State, acts: seq<Action>, k: nat, r: Req, l: Loop, kind: Kind, wake: Option<nat>)
    requires Inv(s) && CanRun(s, acts) && k < |acts| && acts[k] == Submit(r, l, kind, wake)
    ensures KnownAs(After(s, acts), r, l, kind)
    decreases |acts|
  {
    if k == 0 {
      FirstLasts(s, acts, r, l, kind, wake);
    } else {
      StepKeeps(s, acts[0]);
      SubmissionLasts(Apply(s, acts[0]), acts[1..], k - 1, r, l, kind, wake);
    }
  }

  lemma SubmittedAs(s: State, r: Req, l: Loop, kind: Kind, wake: Option<nat>)
    requires Inv(s) && Enabled(s, Submit(r, l, kind, wake))
    ensures KnownAs(Apply(s, Submit(r, l, kind, wake)), r, l, kind)
  {
  }

  predicate KnownAs(s: State, r: Req, l: Loop, kind: Kind) {
    r in s.reqs && s.reqs[r].loop == l && s.reqs[r].kind == kind
  }

  /** Work of every kind can be submitted at any time. */
  lemma SubmitPossible(s: State, r: Req, l: Loop, kind: Kind) returns (wake: Option<nat>)
    requires Inv(s) && r !in s.reqs && l < |s.loops|
    ensures Enabled(s, Submit(r, l, kind, wake))
  {
    var ws := s.crew.workers;
    wake := None;
    if Post(s.crew.shared, Work(r), kind).1 && Waiting in ws {
      var v :| 0 <= v < |ws| && ws[v] == Waiting;
      wake := Some(v);
    }
  }

  // ---------- The order of the done callbacks ----------

  /** The requests that loop l has yet to call `done` for, the next one first. */
  function Completions(i: LoopInfo): seq<Req> {
    i.local + i.wq
  }

  /** Whose completions a step changes, and how: work that has ended goes to the end of its loop's, a callback takes the
      first one off, and a cancelled request leaves and comes back at the end. */
  ghost predicate InOrder(s: State, a: Action, l: Loop, before: seq<Req>, after: seq<Req>)
    requires Inv(s) && Enabled(s, a) && l < |s.loops|
  {
    match a
    case Finish(w) =>
      RunningKnown(s, w);
      after == if s.reqs[s.jobs[w].value].loop == l then before + [s.jobs[w].value] else before
    case CancelTry(r) => after == if s.reqs[r].loop == l && Cancellable(s.reqs[r]) then Without(before, r) else before
    case CancelCommit(l') => after == if l' == l then before + [s.loops[l].transit.value] else before
    case DoneCall(l') => if l' == l then before != [] && before[0] == s.loops[l].local[0] && after == before[1..] else after == before
    case _ => after == before
  }

  lemma {:induction false} WithoutSplits<T>(a: seq<T>, b: seq<T>, x: T)
    ensures Without(a + b, x) == Without(a, x) + Without(b, x)
  {
    if a == [] {
      assert a + b == b;
    } else {
      assert (a + b)[1..] == a[1..] + b && (a + b)[0] == a[0];
      WithoutSplits(a[1..], b, x);
    }
  }

  lemma FinishInOrder(s: State, w: nat, l: Loop)
    requires Inv(s) && IsRunning(s.crew, w) && l < |s.loops|
    ensures InOrder(s, Finish(w), l, Completions(s.loops[l]), Completions(Apply(s, Finish(w)).loops[l]))
  {
    RunningKnown(s, w);
    Assoc(s.loops[l].local, s.loops[l].wq, [s.jobs[w].value]);
  }

  lemma CancelInOrder(s: State, r: Req, l: Loop)
    requires Inv(s) && Enabled(s, CancelTry(r)) && l < |s.loops|
    ensures InOrder(s, CancelTry(r), l, Completions(s.loops[l]), Completions(Apply(s, CancelTry(r)).loops[l]))
  {
    WithoutSplits(s.loops[l].local, s.loops[l].wq, r);
  }

  lemma CommitInOrder(s: State, l': Loop, l: Loop)
    requires Inv(s) && Enabled(s, CancelCommit(l')) && l < |s.loops|
    ensures InOrder(s, CancelCommit(l'), l, Completions(s.loops[l]), Completions(Apply(s, CancelCommit(l')).loops[l]))
  {
    LoopHolds(s, l');
    if l' == l {
      Assoc(s.loops[l].local, s.loops[l].wq, [s.loops[l].transit.value]);
    }
  }

  lemma CallInOrder(s: State, l': Loop, l: Loop)
    requires Inv(s) && Enabled(s, DoneCall(l')) && l < |s.loops|
    ensures InOrder(s, DoneCall(l'), l, Completions(s.loops[l]), Completions(Apply(s, DoneCall(l')).loops[l]))
  {
    LoopHolds(s, l');
    if l' == l {
      var i := s.loops[l];
      assert (i.local + i.wq)[1..] == i.local[1..] + i.wq;
    }
  }

  lemma MoveInOrder(s: State, l: Loop)
    requires LoopsAwake(s) && l < |s.loops| && s.loops[l].called
    ensures Completions(MoveIn(s, l).loops[l]) == Completions(s.loops[l])
  {
    assert s.loops[l].local == [];
  }

  /** `done` is called in the order in which the work of a loop was completed. */
  lemma CompletionsInOrder(s: State, a: Action, l: Loop)
    requires Inv(s) && Enabled(s, a) && l < |s.loops|
    ensures InOrder(s, a, l, Completions(s.loops[l]), Completions(Apply(s, a).loops[l]))
  {
    match a
    case Finish(w) => FinishInOrder(s, w, l);
    case CancelTry(r) => CancelInOrder(s, r, l);
    case CancelCommit(l') => CommitInOrder(s, l', l);
    case DoneCall(l') => CallInOrder(s, l', l);
    case DoneMove(l') =>
      if l' == l {
        MoveInOrder(s, l);
      }
    case _ =>
  }

  /** The status a callback reports: UV_ECANCELED exactly for work that never ran. */
  lemma DoneReports(s: State, l: Loop)
    requires Inv(s) && Enabled(s, DoneCall(l))
    ensures var r := s.loops[l].local[0];
            && r in s.reqs && s.reqs[r].loop == l && s.reqs[r].calls == []
            && Apply(s, DoneCall(l)).reqs[r].calls == [if s.reqs[r].ran then Ok else Canceled]
  {
    LoopHolds(s, l);
    var r := s.loops[l].local[0];
    assert r in multiset(s.loops[l].local);
    assert Consistent(TallyOf(s, r), s.reqs[r]);
  }
}
