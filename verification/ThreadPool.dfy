/** Requests through the thread pool (src/threadpool.c): submission, execution by a worker, cancellation
    by the loop thread, and hand-over to the loop that calls `done`.  The steps of any number of
    submitters, workers and loops interleave freely.
  */
module ThreadPool {
  import opened Sequences
  import opened Wrappers
  import opened PoolQueue
  import opened PoolCrew

  type Loop = nat

  /** w->work: the caller's function, NULL once it has run, or uv__cancelled. */
  datatype Fn = Body | Null | Cancelled

  datatype Status = Ok | Canceled

  /** linked: the list node is not self-linked, which is what uv__work_cancel tests.
      ran: the work function has been entered.  calls: the statuses `done` has been called with. */
  datatype ReqInfo = ReqInfo(loop: Loop, kind: Kind, fn: Fn, linked: bool, ran: bool, calls: seq<Status>)

  /** A loop: its completion queue, its wq_async wake-up, and where its thread is in uv__work_done (callback
      entered, or draining the local queue) or in uv__work_cancel (a request off its list, not yet re-queued). */
  datatype LoopInfo = LoopInfo(wq: seq<Req>, async: bool, called: bool, local: seq<Req>, transit: Option<Req>)

  /** jobs[w] is the request worker w is executing. */
  datatype State = State(crew: Crew, jobs: seq<Option<Req>>, reqs: map<Req, ReqInfo>, loops: seq<LoopInfo>)

  datatype Action =
    | Submit(r: Req, l: Loop, kind: Kind, wake: Option<nat>)
    | Cleanup(wake: Option<nat>)
    | Take(w: nat, wake: Option<nat>)
    | Finish(w: nat)
    | Spurious(w: nat)
    | CancelTry(r: Req)
    | CancelCommit(l: Loop)
    | DoneStart(l: Loop)
    | DoneMove(l: Loop)
    | DoneCall(l: Loop)

  ghost predicate Init(s: State) {
    && s.crew.shared == Shared([], [], 0, 0, |s.crew.workers|)
    && |s.crew.workers| >= 1
    && (forall w :: 0 <= w < |s.crew.workers| ==> s.crew.workers[w] == Ready(false))
    && s.jobs == seq(|s.crew.workers|, _ => None)
    && s.reqs == map[]
    && forall l :: 0 <= l < |s.loops| ==> s.loops[l] == LoopInfo([], false, false, [], None)
  }

  /** The loop thread is running user code: not between two steps of the library's own. */
  predicate LoopFree(s: State, l: Loop) {
    l < |s.loops| && !s.loops[l].called && s.loops[l].transit.None?
  }

  /** uv__work_cancel's test, under both mutexes. */
  predicate Cancellable(i: ReqInfo) {
    i.linked && i.fn != Null
  }

  ghost predicate Enabled(s: State, a: Action)
    requires Inv(s)
  {
    match a
    case Submit(r, l, kind, wake) => r !in s.reqs && l < |s.loops| && CanPost(s.crew, Work(r), kind, wake)
    case Cleanup(wake) => Exit !in s.crew.shared.wq && CanPost(s.crew, Exit, Cpu, wake)
    case Take(w, wake) => CanTake(s.crew, w, wake)
    case Finish(w) => IsRunning(s.crew, w)
    case Spurious(w) => IsWaiting(s.crew, w)
    // A request whose `done` has been called belongs to the user again.
    case CancelTry(r) => r in s.reqs && s.reqs[r].calls == [] && LoopFree(s, s.reqs[r].loop)
    case CancelCommit(l) => l < |s.loops| && s.loops[l].transit.Some?
    case DoneStart(l) => LoopFree(s, l) && s.loops[l].local == [] && s.loops[l].async
    case DoneMove(l) => l < |s.loops| && s.loops[l].called
    case DoneCall(l) => LoopFree(s, l) && s.loops[l].local != []
  }

  ghost function Apply(s: State, a: Action): State
    requires Inv(s) && Enabled(s, a)
  {
    match a
    case Submit(r, l, kind, wake) => SubmitIn(s, r, l, kind, wake)
    case Cleanup(wake) => CleanupIn(s, wake)
    case Take(w, wake) => TakeIn(s, w, wake)
    case Finish(w) => RunningKnown(s, w); FinishIn(s, w)
    case Spurious(w) => s.(crew := SpuriousStep(s.crew, w))
    case CancelTry(r) => if Cancellable(s.reqs[r]) then CancelIn(s, r) else s
    case CancelCommit(l) => LoopHolds(s, l); CommitIn(s, l)
    case DoneStart(l) => StartIn(s, l)
    case DoneMove(l) => MoveIn(s, l)
    case DoneCall(l) => LoopHolds(s, l); CallIn(s, l)
  }

  function SubmitIn(s: State, r: Req, l: Loop, kind: Kind, wake: Option<nat>): State
    requires CanPost(s.crew, Work(r), kind, wake)
  {
    s.(crew := PostStep(s.crew, Work(r), kind, wake), reqs := s.reqs[r := ReqInfo(l, kind, Body, true, false, [])])
  }

  function CleanupIn(s: State, wake: Option<nat>): State
    requires CanPost(s.crew, Exit, Cpu, wake)
  {
    s.(crew := PostStep(s.crew, Exit, Cpu, wake))
  }

  ghost function TakeIn(s: State, w: nat, wake: Option<nat>): State
    requires Inv(s) && CanTake(s.crew, w, wake)
  {
    TakenKnown(s, w);
    var s' := s.(crew := TakeStep(s.crew, w, wake));
    match SectionOf(s.crew, w).outcome
    case Run(r, _) => s'.(jobs := s.jobs[w := Some(r)], reqs := s.reqs[r := s.reqs[r].(linked := false, ran := true)])
    case _ => s'
  }

  function FinishIn(s: State, w: nat): State
    requires IsRunning(s.crew, w) && w < |s.jobs| && s.jobs[w].Some?
    requires s.jobs[w].value in s.reqs && s.reqs[s.jobs[w].value].loop < |s.loops|
  {
    var r := s.jobs[w].value;
    s.(crew := FinishStep(s.crew, w), jobs := s.jobs[w := None],
       reqs := s.reqs[r := s.reqs[r].(fn := Null, linked := true)],
       loops := Deliver(s.loops, s.reqs[r].loop, r))
  }

  function CancelIn(s: State, r: Req): State
    requires r in s.reqs && s.reqs[r].loop < |s.loops|
  {
    var l := s.reqs[r].loop;
    var i := s.loops[l];
    s.(crew := DropStep(s.crew, r),
       loops := s.loops[l := i.(wq := Without(i.wq, r), local := Without(i.local, r), transit := Some(r))])
  }

  function CommitIn(s: State, l: Loop): State
    requires l < |s.loops| && s.loops[l].transit.Some? && s.loops[l].transit.value in s.reqs
  {
    var r := s.loops[l].transit.value;
    s.(reqs := s.reqs[r := s.reqs[r].(fn := Cancelled, linked := true)],
       loops := Deliver(s.loops[l := s.loops[l].(transit := None)], l, r))
  }

  function StartIn(s: State, l: Loop): State
    requires l < |s.loops|
  {
    s.(loops := s.loops[l := s.loops[l].(async := false, called := true)])
  }

  function MoveIn(s: State, l: Loop): State
    requires l < |s.loops|
  {
    s.(loops := s.loops[l := s.loops[l].(called := false, local := s.loops[l].wq, wq := [])])
  }

  function CallIn(s: State, l: Loop): State
    requires l < |s.loops| && s.loops[l].local != [] && s.loops[l].local[0] in s.reqs
  {
    var r := s.loops[l].local[0];
    s.(reqs := s.reqs[r := s.reqs[r].(calls := s.reqs[r].calls + [StatusOf(s.reqs[r])])],
       loops := s.loops[l := s.loops[l].(local := s.loops[l].local[1..])])
  }

  /** Appending to a loop's completion queue and sending its async wake-up, under the loop's mutex. */
  function Deliver(loops: seq<LoopInfo>, l: Loop, r: Req): seq<LoopInfo>
    requires l < |loops|
  {
    loops[l := loops[l].(wq := loops[l].wq + [r], async := true)]
  }

  function StatusOf(i: ReqInfo): Status {
    if i.fn == Cancelled then Canceled else Ok
  }

  // ---------- The invariant ----------

  /** Where a request is: queued for a worker, being executed, queued for its loop, in the hands of
      uv__work_cancel, or handed back through `done`. */
  datatype Tally = Tally(queued: nat, executing: nat, completed: nat, moving: nat, returned: nat)

  function TallyOf(s: State, r: Req): Tally
    requires r in s.reqs && s.reqs[r].loop < |s.loops|
  {
    var i := s.loops[s.reqs[r].loop];
    Tally(Queued(s.crew.shared, r),
          multiset(s.jobs)[Some(r)],
          multiset(i.wq)[r] + multiset(i.local)[r],
          if i.transit == Some(r) then 1 else 0,
          |s.reqs[r].calls|)
  }

  /** A request is in exactly one place, and its fields tell which. */
  predicate Consistent(t: Tally, i: ReqInfo) {
    && t.queued + t.executing + t.completed + t.moving + t.returned == 1
    && (t.queued == 1 ==> i.fn == Body && i.linked && !i.ran)
    && (t.executing == 1 ==> i.fn == Body && !i.linked && i.ran)
    && (t.completed == 1 ==> i.linked && (if i.ran then i.fn == Null else i.fn == Cancelled))
    && (t.moving == 1 ==> i.linked && i.fn != Null && !i.ran)
    && (t.returned == 1 ==> i.calls == [if i.ran then Ok else Canceled] && (if i.ran then i.fn == Null else i.fn == Cancelled))
  }

  ghost predicate RequestsOk(s: State) {
    forall r :: r in s.reqs ==> s.reqs[r].loop < |s.loops| && Consistent(TallyOf(s, r), s.reqs[r])
  }

  /** Queues and workers hold submitted requests only, and a loop only its own. */
  ghost predicate PoolKnown(s: State) {
    forall r :: InPool(s, r) > 0 ==> r in s.reqs
  }

  function InPool(s: State, r: Req): nat {
    Queued(s.crew.shared, r) + multiset(s.jobs)[Some(r)]
  }

  ghost predicate InLoop(i: LoopInfo, r: Req) {
    multiset(i.wq)[r] > 0 || multiset(i.local)[r] > 0 || i.transit == Some(r)
  }

  ghost predicate LoopsKnown(s: State) {
    forall l, r :: 0 <= l < |s.loops| && InLoop(s.loops[l], r) ==> r in s.reqs && s.reqs[r].loop == l
  }

  /** A loop with completions is about to look at them: its wake-up is pending or its callback entered. */
  ghost predicate LoopsAwake(s: State) {
    forall l :: 0 <= l < |s.loops| ==>
      && (s.loops[l].wq != [] ==> s.loops[l].async || s.loops[l].called)
      && (s.loops[l].called ==> s.loops[l].local == [] && s.loops[l].transit == None)
  }

  ghost predicate JobsOk(s: State) {
    && |s.jobs| == |s.crew.workers|
    && forall w :: 0 <= w < |s.jobs| ==> (s.jobs[w].Some? <==> s.crew.workers[w].Running?)
  }

  ghost predicate Inv(s: State) {
    CrewInv(s.crew) && JobsOk(s) && PoolKnown(s) && LoopsKnown(s) && LoopsAwake(s) && RequestsOk(s)
  }

  // ---------- Requests a step refers to are known ----------

  lemma TakenKnown(s: State, w: nat)
    requires Inv(s) && AtMutex(s.crew, w)
    ensures var o := SectionOf(s.crew, w).outcome; o.Run? ==> o.req in s.reqs && TallyOf(s, o.req).queued == 1
  {
    ArriveKeeps(s.crew, w);
    var o := SectionOf(s.crew, w).outcome;
    if o.Run? {
      SectionCounts(Arrived(s.crew, w).shared, o.req);
      assert InPool(s, o.req) > 0;
    }
  }

  lemma RunningKnown(s: State, w: nat)
    requires Inv(s) && IsRunning(s.crew, w)
    ensures s.jobs[w].value in s.reqs && TallyOf(s, s.jobs[w].value).executing == 1
  {
    assert s.jobs[w] in multiset(s.jobs);
  }

  lemma LoopHolds(s: State, l: Loop)
    requires LoopsKnown(s) && l < |s.loops|
    ensures s.loops[l].local != [] ==>
              InLoop(s.loops[l], s.loops[l].local[0]) && s.loops[l].local[0] in s.reqs && s.reqs[s.loops[l].local[0]].loop == l
    ensures s.loops[l].transit.Some? ==>
              InLoop(s.loops[l], s.loops[l].transit.value) && s.loops[l].transit.value in s.reqs && s.reqs[s.loops[l].transit.value].loop == l
  {
    if s.loops[l].local != [] {
      assert s.loops[l].local[0] in multiset(s.loops[l].local);
    }
  }

  // ---------- Every step keeps the invariant ----------

  /** Request q keeps its place and fields. */
  ghost predicate Kept(s: State, s': State, q: Req)
    requires |s'.loops| == |s.loops|
  {
    && q in s.reqs && q in s'.reqs && s'.reqs[q] == s.reqs[q]
    && (s.reqs[q].loop < |s.loops| ==> TallyOf(s', q) == TallyOf(s, q))
  }

  /** What is left to show once the requests other than r are kept. */
  lemma OneRequest(s: State, s': State, r: Req)
    requires RequestsOk(s) && |s'.loops| == |s.loops|
    requires r in s'.reqs && s'.reqs[r].loop < |s.loops| && Consistent(TallyOf(s', r), s'.reqs[r])
    requires forall q :: q in s'.reqs && q != r ==> Kept(s, s', q)
    ensures RequestsOk(s')
  {
  }

  lemma SameRequests(s: State, s': State)
    requires RequestsOk(s) && s'.reqs == s.reqs && |s'.loops| == |s.loops|
    requires forall q :: q in s.reqs && s.reqs[q].loop < |s.loops| ==> TallyOf(s', q) == TallyOf(s, q)
    ensures RequestsOk(s')
  {
  }

  lemma SameTallies(s: State, s': State)
    requires s'.crew.shared == s.crew.shared && s'.jobs == s.jobs && s'.reqs == s.reqs && s'.loops == s.loops
    ensures forall q :: q in s.reqs && s.reqs[q].loop < |s.loops| ==> TallyOf(s', q) == TallyOf(s, q)
  {
  }

  lemma SamePool(s: State, s': State)
    requires PoolKnown(s) && s'.crew.shared == s.crew.shared && s'.jobs == s.jobs
    requires forall q :: q in s.reqs ==> q in s'.reqs
    ensures PoolKnown(s')
  {
    forall q ensures InPool(s', q) == InPool(s, q) {
    }
  }

  lemma PostPool(s: State, s': State, item: Item, kind: Kind, wake: Option<nat>)
    requires Inv(s) && CanPost(s.crew, item, kind, wake)
    requires s'.crew == PostStep(s.crew, item, kind, wake) && s'.jobs == s.jobs
    requires forall q :: q in s.reqs || item == Work(q) ==> q in s'.reqs
    ensures CrewInv(s'.crew) && JobsOk(s') && PoolKnown(s')
  {
    PostKeeps(s.crew, item, kind, wake);
    forall q ensures InPool(s', q) > 0 ==> q in s'.reqs {
      PostCounts(s.crew.shared, item, kind, q);
    }
  }

  lemma SameLoops(s: State, s': State)
    requires LoopsKnown(s) && LoopsAwake(s) && s'.loops == s.loops
    requires forall q :: q in s.reqs ==> q in s'.reqs && s'.reqs[q].loop == s.reqs[q].loop
    ensures LoopsKnown(s') && LoopsAwake(s')
  {
  }

  /** What is left to show of the loops once only loop l changes. */
  lemma OneLoop(s: State, s': State, l: Loop, i: LoopInfo)
    requires LoopsKnown(s) && LoopsAwake(s) && l < |s.loops| && s'.loops == s.loops[l := i]
    requires forall q :: q in s.reqs ==> q in s'.reqs && s'.reqs[q].loop == s.reqs[q].loop
    requires forall q :: InLoop(i, q) ==> q in s'.reqs && s'.reqs[q].loop == l
    requires i.wq != [] ==> i.async || i.called
    requires i.called ==> i.local == [] && i.transit == None
    ensures LoopsKnown(s') && LoopsAwake(s')
  {
  }

  /** Posting leaves every other request where it is. */
  lemma PostElsewhere(s: State, s': State, item: Item, kind: Kind, q: Req)
    requires item != SlowMessage && (kind == SlowIo ==> item.Work?) && item != Work(q)
    requires s'.crew.shared == Post(s.crew.shared, item, kind).0 && s'.jobs == s.jobs && s'.loops == s.loops
    requires q in s.reqs && q in s'.reqs && s'.reqs[q] == s.reqs[q] && s.reqs[q].loop < |s.loops|
    ensures TallyOf(s', q) == TallyOf(s, q)
  {
    PostCounts(s.crew.shared, item, kind, q);
  }

  lemma SubmitRequests(s: State, r: Req, l: Loop, kind: Kind, wake: Option<nat>)
    requires RequestsOk(s) && PoolKnown(s) && LoopsKnown(s)
    requires r !in s.reqs && l < |s.loops| && CanPost(s.crew, Work(r), kind, wake)
    ensures RequestsOk(SubmitIn(s, r, l, kind, wake))
  {
    var s' := SubmitIn(s, r, l, kind, wake);
    forall q | q in s'.reqs && q != r ensures Kept(s, s', q) {
      if s.reqs[q].loop < |s.loops| {
        PostElsewhere(s, s', Work(r), kind, q);
      }
    }
    SubmitNew(s, s', r, l, kind, wake);
    OneRequest(s, s', r);
  }

  lemma SubmitNew(s: State, s': State, r: Req, l: Loop, kind: Kind, wake: Option<nat>)
    requires PoolKnown(s) && LoopsKnown(s) && r !in s.reqs && l < |s.loops| && CanPost(s.crew, Work(r), kind, wake)
    requires s' == SubmitIn(s, r, l, kind, wake)
    ensures Consistent(TallyOf(s', r), s'.reqs[r])
  {
    PostCounts(s.crew.shared, Work(r), kind, r);
    assert InPool(s, r) == 0 && !InLoop(s.loops[l], r);
  }

  lemma SubmitKeeps(s: State, r: Req, l: Loop, kind: Kind, wake: Option<nat>)
    requires Inv(s) && r !in s.reqs && l < |s.loops| && CanPost(s.crew, Work(r), kind, wake)
    ensures Inv(SubmitIn(s, r, l, kind, wake))
  {
    var s' := SubmitIn(s, r, l, kind, wake);
    PostPool(s, s', Work(r), kind, wake);
    SubmitRequests(s, r, l, kind, wake);
    SameLoops(s, s');
  }

  lemma CleanupRequests(s: State, wake: Option<nat>)
    requires RequestsOk(s) && CanPost(s.crew, Exit, Cpu, wake)
    ensures RequestsOk(CleanupIn(s, wake))
  {
    var s' := CleanupIn(s, wake);
    forall q | q in s.reqs && s.reqs[q].loop < |s.loops| ensures TallyOf(s', q) == TallyOf(s, q) {
      PostElsewhere(s, s', Exit, Cpu, q);
    }
    SameRequests(s, s');
  }

  lemma CleanupKeeps(s: State, wake: Option<nat>)
    requires Inv(s) && CanPost(s.crew, Exit, Cpu, wake)
    ensures Inv(CleanupIn(s, wake))
  {
    PostPool(s, CleanupIn(s, wake), Exit, Cpu, wake);
    CleanupRequests(s, wake);
    SameLoops(s, CleanupIn(s, wake));
  }

  lemma TakeJobs(s: State, w: nat, wake: Option<nat>, v: nat)
    requires Inv(s) && CanTake(s.crew, w, wake) && v < |s.jobs|
    ensures var s' := TakeIn(s, w, wake); s'.jobs[v].Some? <==> s'.crew.workers[v].Running?
  {
  }

  lemma TakePool(s: State, w: nat, wake: Option<nat>)
    requires Inv(s) && CanTake(s.crew, w, wake)
    ensures var s' := TakeIn(s, w, wake); CrewInv(s'.crew) && JobsOk(s')
  {
    var s' := TakeIn(s, w, wake);
    TakeKeeps(s.crew, w, wake);
    forall v | 0 <= v < |s.jobs| ensures s'.jobs[v].Some? <==> s'.crew.workers[v].Running? {
      TakeJobs(s, w, wake, v);
    }
  }

  /** A section runs a request or leaves it queued. */
  lemma TakeQueued(s: State, w: nat, wake: Option<nat>, q: Req)
    requires Inv(s) && CanTake(s.crew, w, wake)
    ensures var o := SectionOf(s.crew, w).outcome;
            Queued(TakeStep(s.crew, w, wake).shared, q)
            == Queued(s.crew.shared, q) - if o.Run? && o.req == q then 1 else 0
  {
    ArriveKeeps(s.crew, w);
    SectionCounts(Arrived(s.crew, w).shared, q);
  }

  lemma TakeCounts(s: State, w: nat, wake: Option<nat>, q: Req)
    requires Inv(s) && CanTake(s.crew, w, wake)
    ensures InPool(TakeIn(s, w, wake), q) == InPool(s, q)
  {
    TakeQueued(s, w, wake, q);
    match SectionOf(s.crew, w).outcome
    case Run(r, _) =>
      Jobless(s, w);
      JobStarts(s.jobs, w, r, q);
    case _ =>
  }

  lemma Jobless(s: State, w: nat)
    requires JobsOk(s) && AtMutex(s.crew, w)
    ensures w < |s.jobs| && s.jobs[w] == None
  {
  }

  lemma JobStarts(jobs: seq<Option<Req>>, w: nat, r: Req, q: Req)
    requires w < |jobs| && jobs[w] == None
    ensures multiset(jobs[w := Some(r)])[Some(q)] == multiset(jobs)[Some(q)] + if q == r then 1 else 0
  {
  }

  lemma TakeConsistent(s: State, w: nat, wake: Option<nat>, q: Req)
    requires Inv(s) && CanTake(s.crew, w, wake) && q in s.reqs
    ensures Consistent(TallyOf(TakeIn(s, w, wake), q), TakeIn(s, w, wake).reqs[q])
  {
    TakenKnown(s, w);
    TakeCounts(s, w, wake, q);
    TakeQueued(s, w, wake, q);
    assert Consistent(TallyOf(s, q), s.reqs[q]);
  }

  lemma TakeRequests(s: State, w: nat, wake: Option<nat>)
    requires Inv(s) && CanTake(s.crew, w, wake)
    ensures RequestsOk(TakeIn(s, w, wake)) && PoolKnown(TakeIn(s, w, wake))
  {
    var s' := TakeIn(s, w, wake);
    TakenKnown(s, w);
    forall q ensures InPool(s', q) == InPool(s, q) {
      TakeCounts(s, w, wake, q);
    }
    forall q | q in s'.reqs ensures Consistent(TallyOf(s', q), s'.reqs[q]) {
      TakeConsistent(s, w, wake, q);
    }
  }

  lemma TakeKept(s: State, w: nat, wake: Option<nat>)
    requires Inv(s) && CanTake(s.crew, w, wake)
    ensures Inv(TakeIn(s, w, wake))
  {
    TakePool(s, w, wake);
    SameLoops(s, TakeIn(s, w, wake));
    TakeRequests(s, w, wake);
  }

  /** Worker w runs a request that is known, and counted as executing. */
  ghost predicate Runs(s: State, w: nat, r: Req) {
    && IsRunning(s.crew, w) && w < |s.jobs| && s.jobs[w] == Some(r)
    && r in s.reqs && s.reqs[r].loop < |s.loops| && TallyOf(s, r).executing == 1
  }

  lemma JobEnds(jobs: seq<Option<Req>>, w: nat, q: Req)
    requires w < |jobs| && jobs[w].Some?
    ensures multiset(jobs[w := None])[Some(q)] == multiset(jobs)[Some(q)] - if jobs[w] == Some(q) then 1 else 0
  {
    assert jobs[w] in multiset(jobs);
  }

  lemma FinishPool(s: State, w: nat, r: Req)
    requires CrewInv(s.crew) && JobsOk(s) && PoolKnown(s) && Runs(s, w, r)
    ensures var s' := FinishIn(s, w); CrewInv(s'.crew) && JobsOk(s') && PoolKnown(s')
  {
    FinishKeeps(s.crew, w);
    var s' := FinishIn(s, w);
    forall q ensures InPool(s', q) <= InPool(s, q) {
      JobEnds(s.jobs, w, q);
    }
  }

  lemma FinishLoops(s: State, w: nat, r: Req)
    requires LoopsKnown(s) && LoopsAwake(s) && Runs(s, w, r)
    ensures var s' := FinishIn(s, w); LoopsKnown(s') && LoopsAwake(s')
  {
    var s', l := FinishIn(s, w), s.reqs[r].loop;
    assert forall q :: InLoop(s'.loops[l], q) ==> q == r || InLoop(s.loops[l], q);
    OneLoop(s, s', l, s'.loops[l]);
  }

  lemma FinishRequests(s: State, w: nat, r: Req)
    requires RequestsOk(s) && Runs(s, w, r)
    ensures RequestsOk(FinishIn(s, w))
  {
    var s' := FinishIn(s, w);
    forall q | q in s'.reqs && q != r ensures Kept(s, s', q) {
      FinishElsewhere(s, w, r, q);
    }
    FinishHere(s, w, r);
    OneRequest(s, s', r);
  }

  lemma FinishElsewhere(s: State, w: nat, r: Req, q: Req)
    requires Runs(s, w, r) && q in FinishIn(s, w).reqs && q != r
    ensures Kept(s, FinishIn(s, w), q)
  {
    JobEnds(s.jobs, w, q);
  }

  lemma FinishHere(s: State, w: nat, r: Req)
    requires Runs(s, w, r) && Consistent(TallyOf(s, r), s.reqs[r])
    ensures Consistent(TallyOf(FinishIn(s, w), r), FinishIn(s, w).reqs[r])
  {
    JobEnds(s.jobs, w, r);
  }

  lemma CancelPool(s: State, r: Req)
    requires CrewInv(s.crew) && JobsOk(s) && PoolKnown(s) && r in s.reqs && s.reqs[r].loop < |s.loops|
    ensures var s' := CancelIn(s, r); CrewInv(s'.crew) && PoolKnown(s') && JobsOk(s')
  {
    DropKeeps(s.crew, r);
    var s' := CancelIn(s, r);
    forall q ensures InPool(s', q) <= InPool(s, q) {
      DropCounts(s.crew, r, q);
    }
  }

  lemma DropCounts(c: Crew, r: Req, q: Req)
    ensures Queued(DropStep(c, r).shared, q) == if q == r then 0 else Queued(c.shared, q)
  {
    WithoutCounts(c.shared.wq, Work(r));
    WithoutCounts(c.shared.slow, r);
  }

  lemma CancelLoops(s: State, r: Req)
    requires LoopsKnown(s) && LoopsAwake(s) && r in s.reqs && LoopFree(s, s.reqs[r].loop)
    ensures var s' := CancelIn(s, r); LoopsKnown(s') && LoopsAwake(s')
  {
    var i, i' := s.loops[s.reqs[r].loop], CancelIn(s, r).loops[s.reqs[r].loop];
    CancelledOnly(i, i', r);
    FewerInLoop(s, CancelIn(s, r), s.reqs[r].loop, i', r);
  }

  lemma FewerInLoop(s: State, s': State, l: Loop, i': LoopInfo, r: Req)
    requires LoopsKnown(s) && LoopsAwake(s) && LoopFree(s, l) && r in s.reqs && s.reqs[r].loop == l
    requires s'.loops == s.loops[l := i'] && s'.reqs == s.reqs
    requires forall q :: InLoop(i', q) ==> q == r || InLoop(s.loops[l], q)
    requires i'.wq != [] ==> s.loops[l].wq != []
    requires i'.async == s.loops[l].async && i'.called == s.loops[l].called
    ensures LoopsKnown(s') && LoopsAwake(s')
  {
    OneLoop(s, s', l, i');
  }

  lemma CancelledOnly(i: LoopInfo, i': LoopInfo, r: Req)
    requires i'.wq == Without(i.wq, r) && i'.local == Without(i.local, r) && i'.transit == Some(r)
    ensures forall q :: InLoop(i', q) ==> q == r || InLoop(i, q)
    ensures i'.wq != [] ==> i.wq != []
  {
    WithoutCounts(i.wq, r);
    WithoutCounts(i.local, r);
  }

  lemma CancelRequests(s: State, r: Req)
    requires RequestsOk(s) && LoopsKnown(s)
    requires r in s.reqs && s.reqs[r].calls == [] && LoopFree(s, s.reqs[r].loop) && Cancellable(s.reqs[r])
    ensures RequestsOk(CancelIn(s, r))
  {
    var s' := CancelIn(s, r);
    forall q | q in s'.reqs && q != r ensures Kept(s, s', q) {
      CancelElsewhere(s, r, q);
    }
    CancelHere(s, r);
    OneRequest(s, s', r);
  }

  lemma CancelElsewhere(s: State, r: Req, q: Req)
    requires r in s.reqs && s.reqs[r].loop < |s.loops| && s.loops[s.reqs[r].loop].transit.None? && q in s.reqs && q != r
    ensures Kept(s, CancelIn(s, r), q)
  {
    var i := s.loops[s.reqs[r].loop];
    WithoutCounts(i.wq, r);
    WithoutCounts(i.local, r);
    DropCounts(s.crew, r, q);
  }

  lemma CancelHere(s: State, r: Req)
    requires r in s.reqs && s.reqs[r].calls == [] && LoopFree(s, s.reqs[r].loop) && Cancellable(s.reqs[r])
    requires Consistent(TallyOf(s, r), s.reqs[r])
    ensures Consistent(TallyOf(CancelIn(s, r), r), s.reqs[r])
  {
    var i := s.loops[s.reqs[r].loop];
    WithoutCounts(i.wq, r);
    WithoutCounts(i.local, r);
    DropCounts(s.crew, r, r);
  }

  lemma CommitLoops(s: State, l: Loop, r: Req)
    requires LoopsKnown(s) && LoopsAwake(s) && l < |s.loops| && s.loops[l].transit == Some(r)
    requires r in s.reqs && s.reqs[r].loop == l
    ensures var s' := CommitIn(s, l); LoopsKnown(s') && LoopsAwake(s')
  {
    var s' := CommitIn(s, l);
    assert forall q :: InLoop(s'.loops[l], q) ==> q == r || InLoop(s.loops[l], q);
    OneLoop(s, s', l, s'.loops[l]);
  }

  lemma CommitRequests(s: State, l: Loop, r: Req)
    requires RequestsOk(s) && l < |s.loops| && s.loops[l].transit == Some(r)
    requires r in s.reqs && s.reqs[r].loop == l
    ensures RequestsOk(CommitIn(s, l))
  {
    var s' := CommitIn(s, l);
    forall q | q in s'.reqs && q != r ensures Kept(s, s', q) {
      CommitElsewhere(s, l, r, q);
    }
    CommitHere(s, l, r);
    OneRequest(s, s', r);
  }

  lemma CommitElsewhere(s: State, l: Loop, r: Req, q: Req)
    requires l < |s.loops| && s.loops[l].transit == Some(r) && r in s.reqs && s.reqs[r].loop == l
    requires q in CommitIn(s, l).reqs && q != r
    ensures Kept(s, CommitIn(s, l), q)
  {
  }

  lemma CommitHere(s: State, l: Loop, r: Req)
    requires l < |s.loops| && s.loops[l].transit == Some(r) && r in s.reqs && s.reqs[r].loop == l
    requires Consistent(TallyOf(s, r), s.reqs[r])
    ensures Consistent(TallyOf(CommitIn(s, l), r), CommitIn(s, l).reqs[r])
  {
  }

  lemma MoveKeeps(s: State, l: Loop)
    requires Inv(s) && l < |s.loops| && s.loops[l].called
    ensures Inv(MoveIn(s, l))
  {
    var s' := MoveIn(s, l);
    SamePool(s, s');
    OneLoop(s, s', l, s'.loops[l]);
    forall q | q in s.reqs && s.reqs[q].loop < |s.loops| ensures TallyOf(s', q) == TallyOf(s, q) {
      MoveTally(s, l, q);
    }
    SameRequests(s, s');
  }

  lemma MoveTally(s: State, l: Loop, q: Req)
    requires LoopsAwake(s) && l < |s.loops| && s.loops[l].called && q in s.reqs && s.reqs[q].loop < |s.loops|
    ensures TallyOf(MoveIn(s, l), q) == TallyOf(s, q)
  {
  }

  lemma CallLoops(s: State, l: Loop)
    requires LoopsKnown(s) && LoopsAwake(s) && LoopFree(s, l) && s.loops[l].local != [] && s.loops[l].local[0] in s.reqs
    ensures var s' := CallIn(s, l); LoopsKnown(s') && LoopsAwake(s')
  {
    var s' := CallIn(s, l);
    assert s.loops[l].local == [s.loops[l].local[0]] + s.loops[l].local[1..];
    assert forall q :: InLoop(s'.loops[l], q) ==> InLoop(s.loops[l], q);
    OneLoop(s, s', l, s'.loops[l]);
  }

  lemma CallRequests(s: State, l: Loop)
    requires RequestsOk(s) && LoopFree(s, l) && s.loops[l].local != []
    requires s.loops[l].local[0] in s.reqs && s.reqs[s.loops[l].local[0]].loop == l
    ensures RequestsOk(CallIn(s, l))
  {
    var r, s' := s.loops[l].local[0], CallIn(s, l);
    forall q | q in s'.reqs && q != r ensures Kept(s, s', q) {
      CallElsewhere(s, l, r, q);
    }
    CallHere(s, l, r);
    OneRequest(s, s', r);
  }

  lemma CallElsewhere(s: State, l: Loop, r: Req, q: Req)
    requires l < |s.loops| && s.loops[l].local != [] && s.loops[l].local[0] == r && r in s.reqs
    requires q in CallIn(s, l).reqs && q != r
    ensures Kept(s, CallIn(s, l), q)
  {
    assert s.loops[l].local == [r] + s.loops[l].local[1..];
  }

  lemma CallHere(s: State, l: Loop, r: Req)
    requires l < |s.loops| && s.loops[l].local != [] && s.loops[l].local[0] == r && r in s.reqs && s.reqs[r].loop == l
    requires Consistent(TallyOf(s, r), s.reqs[r])
    ensures Consistent(TallyOf(CallIn(s, l), r), CallIn(s, l).reqs[r])
  {
    assert s.loops[l].local == [r] + s.loops[l].local[1..];
  }

  lemma StepKeeps(s: State, a: Action)
    requires Inv(s) && Enabled(s, a)
    ensures Inv(Apply(s, a))
  {
    match a
    case Submit(r, l, kind, wake) => SubmitKeeps(s, r, l, kind, wake);
    case Cleanup(wake) => CleanupKeeps(s, wake);
    case Take(w, wake) => TakeKept(s, w, wake);
    case Finish(w) =>
      RunningKnown(s, w);
      var r := s.jobs[w].value;
      FinishPool(s, w, r);
      FinishLoops(s, w, r);
      FinishRequests(s, w, r);
    case Spurious(w) => SpuriousKept(s, w);
    case CancelTry(r) =>
      if Cancellable(s.reqs[r]) {
        CancelPool(s, r);
        CancelLoops(s, r);
        CancelRequests(s, r);
      }
    case CancelCommit(l) =>
      LoopHolds(s, l);
      var r := s.loops[l].transit.value;
      CommitLoops(s, l, r);
      CommitRequests(s, l, r);
    case DoneStart(l) => StartKeeps(s, l);
    case DoneMove(l) => MoveKeeps(s, l);
    case DoneCall(l) =>
      LoopHolds(s, l);
      CallLoops(s, l);
      CallRequests(s, l);
  }

  lemma SpuriousKept(s: State, w: nat)
    requires Inv(s) && IsWaiting(s.crew, w)
    ensures Inv(s.(crew := SpuriousStep(s.crew, w)))
  {
    var s' := s.(crew := SpuriousStep(s.crew, w));
    SpuriousKeeps(s.crew, w);
    SameLoops(s, s');
    SamePool(s, s');
    SameTallies(s, s');
    SameRequests(s, s');
  }

  lemma StartKeeps(s: State, l: Loop)
    requires Inv(s) && LoopFree(s, l) && s.loops[l].local == [] && s.loops[l].async
    ensures Inv(StartIn(s, l))
  {
    var s' := StartIn(s, l);
    OneLoop(s, s', l, s'.loops[l]);
    SamePool(s, s');
    forall q | q in s.reqs && s.reqs[q].loop < |s.loops| ensures TallyOf(s', q) == TallyOf(s, q) {
    }
    SameRequests(s, s');
  }

  // ---------- Runs ----------

  lemma InitHolds(s: State)
    requires Init(s)
    ensures Inv(s)
  {
    var ws := s.crew.workers;
    forall p | p != Ready(false) ensures Count(ws, p) == 0 {
      assert p in multiset(ws) <==> p in ws;
    }
    forall r ensures multiset(s.jobs)[Some(r)] == 0 {
      assert Some(r) in multiset(s.jobs) <==> Some(r) in s.jobs;
    }
  }

  /** Every interleaving of the steps above is such a list of actions. */
  ghost predicate CanRun(s: State, acts: seq<Action>)
    requires Inv(s)
    decreases |acts|
  {
    acts != [] ==> Enabled(s, acts[0]) && (StepKeeps(s, acts[0]); CanRun(Apply(s, acts[0]), acts[1..]))
  }

  ghost function After(s: State, acts: seq<Action>): (s': State)
    requires Inv(s) && CanRun(s, acts)
    ensures Inv(s')
    decreases |acts|
  {
    if acts == [] then s else (StepKeeps(s, acts[0]); After(Apply(s, acts[0]), acts[1..]))
  }

  /** A run of the pool from its start, and the state it ends in. */
  ghost predicate IsRun(s0: State, acts: seq<Action>) {
    Init(s0) && (InitHolds(s0); CanRun(s0, acts))
  }

  ghost function End(s0: State, acts: seq<Action>): (s: State)
    requires IsRun(s0, acts)
    ensures Inv(s)
  {
    InitHolds(s0);
    After(s0, acts)
  }
}
