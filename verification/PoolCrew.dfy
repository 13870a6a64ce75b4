/** The workers of the thread pool, as interleaved steps (src/threadpool.c).  A step is one critical
    section, or the work a worker does between two of them.  This module is about scheduling only:
    which workers sleep, which are awake, and what is left in the queue.
  */
module PoolCrew {
  import opened Sequences
  import opened Wrappers
  import opened PoolQueue

  /** Ready: about to take the mutex at the top of worker()'s loop, with or without a slow slot to give
      back.  Waiting: asleep on the condition variable.  Woken: signalled, or woken spuriously, and still
      counted in idle_threads.  Running: outside the mutex, executing a request.  Gone: left the loop. */
  datatype Phase = Ready(slow: bool) | Waiting | Woken | Running(slow: bool) | Gone

  datatype Crew = Crew(shared: Shared, workers: seq<Phase>)

  function Count(ws: seq<Phase>, p: Phase): nat {
    multiset(ws)[p]
  }

  /** Workers that will look at the queue without being signalled. */
  function Free(ws: seq<Phase>): nat {
    Count(ws, Ready(true)) + Count(ws, Ready(false)) + Count(ws, Woken)
  }

  /** The entries of the work queue that a worker could take now; the sentinel is one while slow work
      runs below the threshold. */
  function Demand(c: Crew): int {
    Proper(c.shared) +
    if Entries(c.shared.wq, SlowMessage) > 0 && Count(c.workers, Running(true)) < c.shared.Threshold() then 1 else 0
  }

  // ---------- The scheduling invariant ----------

  ghost predicate CrewInv(c: Crew) {
    CountsInv(c) && WorkConserving(c, 0)
  }

  ghost predicate CountsInv(c: Crew) {
    && c.shared.Sane()
    && |c.workers| == c.shared.nthreads >= 1
    && c.shared.idle == Count(c.workers, Waiting) + Count(c.workers, Woken)
    && c.shared.slowRunning == Count(c.workers, Ready(true)) + Count(c.workers, Running(true))
    && c.shared.slowRunning <= c.shared.Threshold()
    && (Count(c.workers, Gone) > 0 ==> Entries(c.shared.wq, Exit) > 0)
  }

  /** While a worker sleeps, there are at least as many free workers as entries to take, counting
      `due` signals that are about to be sent. */
  ghost predicate WorkConserving(c: Crew, due: nat) {
    Count(c.workers, Waiting) > 0 ==> Free(c.workers) + due >= Demand(c)
  }

  // ---------- Steps ----------

  /** A signal wakes a sleeping worker if there is one; `wake` names it. */
  predicate WakeOk(ws: seq<Phase>, signal: bool, wake: Option<nat>) {
    if signal && Waiting in ws then wake.Some? && wake.value < |ws| && ws[wake.value] == Waiting
    else wake.None?
  }

  function Wake(ws: seq<Phase>, wake: Option<nat>): seq<Phase>
    requires wake.Some? ==> wake.value < |ws|
  {
    if wake.Some? then ws[wake.value := Woken] else ws
  }

  predicate CanPost(c: Crew, item: Item, kind: Kind, wake: Option<nat>) {
    && item != SlowMessage
    && (kind == SlowIo ==> item.Work?)
    && WakeOk(c.workers, Post(c.shared, item, kind).1, wake)
  }

  function PostStep(c: Crew, item: Item, kind: Kind, wake: Option<nat>): Crew
    requires CanPost(c, item, kind, wake)
  {
    Crew(Post(c.shared, item, kind).0, Wake(c.workers, wake))
  }

  /** What a worker changes first when it holds the mutex again. */
  function Arrive(sh: Shared, p: Phase): Shared
    requires p == Woken ==> sh.idle > 0
    requires p == Ready(true) ==> sh.slowRunning > 0
  {
    match p
    case Woken => sh.(idle := sh.idle - 1)
    case Ready(true) => sh.(slowRunning := sh.slowRunning - 1)
    case _ => sh
  }

  predicate AtMutex(c: Crew, w: nat) {
    w < |c.workers| && (c.workers[w].Ready? || c.workers[w].Woken?)
  }

  /** The crew once worker w holds the mutex: a free worker without a slot. */
  ghost function Arrived(c: Crew, w: nat): Crew
    requires CrewInv(c) && AtMutex(c, w)
  {
    assert c.workers[w] in multiset(c.workers);
    Crew(Arrive(c.shared, c.workers[w]), c.workers[w := Ready(false)])
  }

  ghost function SectionOf(c: Crew, w: nat): Result
    requires CrewInv(c) && AtMutex(c, w)
  {
    Section(Arrived(c, w).shared)
  }

  function PhaseAfter(o: Outcome): Phase {
    match o
    case Wait => Waiting
    case Leave => Gone
    case Run(_, slow) => Running(slow)
  }

  ghost predicate CanTake(c: Crew, w: nat, wake: Option<nat>)
    requires CrewInv(c)
  {
    && AtMutex(c, w)
    && var r := SectionOf(c, w);
       WakeOk(c.workers[w := PhaseAfter(r.outcome)], r.signal, wake)
  }

  ghost function TakeStep(c: Crew, w: nat, wake: Option<nat>): Crew
    requires CrewInv(c) && CanTake(c, w, wake)
  {
    var r := SectionOf(c, w);
    Crew(r.shared, Wake(c.workers[w := PhaseAfter(r.outcome)], wake))
  }

  predicate IsRunning(c: Crew, w: nat) {
    w < |c.workers| && c.workers[w].Running?
  }

  function FinishStep(c: Crew, w: nat): Crew
    requires IsRunning(c, w)
  {
    c.(workers := c.workers[w := Ready(c.workers[w].slow)])
  }

  predicate IsWaiting(c: Crew, w: nat) {
    w < |c.workers| && c.workers[w] == Waiting
  }

  function SpuriousStep(c: Crew, w: nat): Crew
    requires IsWaiting(c, w)
  {
    c.(workers := c.workers[w := Woken])
  }

  function DropStep(c: Crew, r: Req): Crew {
    c.(shared := c.shared.(wq := Without(c.shared.wq, Work(r)), slow := Without(c.shared.slow, r)))
  }

  // ---------- Multisets of phases ----------

  lemma Moved(ws: seq<Phase>, i: nat, p: Phase)
    requires i < |ws|
    ensures forall q :: Count(ws[i := p], q) == Count(ws, q) + (if p == q then 1 else 0) - if ws[i] == q then 1 else 0
    ensures Count(ws, ws[i]) > 0
  {
    assert ws[i] in multiset(ws);
  }

  lemma HasPhase(ws: seq<Phase>, p: Phase)
    ensures p in ws <==> Count(ws, p) > 0
  {
    assert p in ws <==> p in multiset(ws);
  }

  /** The effect of a signal on the counts. */
  lemma Signalled(ws: seq<Phase>, signal: bool, wake: Option<nat>)
    requires WakeOk(ws, signal, wake)
    ensures var ws' := Wake(ws, wake);
            && |ws'| == |ws|
            && (wake.None? ==> ws' == ws)
            && (wake.Some? ==>
                  forall q :: Count(ws', q) == Count(ws, q) + (if q == Woken then 1 else 0) - if q == Waiting then 1 else 0)
    ensures wake.Some? <==> signal && Count(ws, Waiting) > 0
  {
    HasPhase(ws, Waiting);
    if wake.Some? {
      Moved(ws, wake.value, Woken);
    }
  }

  lemma WakeKeeps(c: Crew, signal: bool, wake: Option<nat>)
    requires CountsInv(c) && WorkConserving(c, if signal then 1 else 0)
    requires WakeOk(c.workers, signal, wake)
    ensures CrewInv(c.(workers := Wake(c.workers, wake)))
  {
    Signalled(c.workers, signal, wake);
  }

  // ---------- Every step keeps it ----------

  lemma PostKeeps(c: Crew, item: Item, kind: Kind, wake: Option<nat>)
    requires CrewInv(c) && CanPost(c, item, kind, wake)
    ensures CrewInv(PostStep(c, item, kind, wake))
  {
    var (sh, signal) := Post(c.shared, item, kind);
    HasEntry(c.shared.wq, SlowMessage);
    WakeKeeps(c.(shared := sh), signal, wake);
  }

  lemma ArriveKeeps(c: Crew, w: nat)
    requires CrewInv(c) && AtMutex(c, w)
    ensures CrewInv(Arrived(c, w))
  {
    Moved(c.workers, w, Ready(false));
    ArrivedCounts(c, Arrived(c, w), w);
  }

  lemma ArrivedCounts(c: Crew, c': Crew, w: nat)
    requires CrewInv(c) && AtMutex(c, w) && c' == Arrived(c, w)
    requires forall q :: Count(c'.workers, q) ==
                         Count(c.workers, q) + (if Ready(false) == q then 1 else 0) - if c.workers[w] == q then 1 else 0
    ensures CountsInv(c') && Free(c'.workers) == Free(c.workers) && Demand(c') == Demand(c)
    ensures Count(c'.workers, Waiting) == Count(c.workers, Waiting)
  {
    var ws, ws', p := c.workers, c'.workers, c.workers[w];
    assert Count(ws', Waiting) == Count(ws, Waiting) && Count(ws', Gone) == Count(ws, Gone);
    assert Count(ws', Running(true)) == Count(ws, Running(true));
    assert Count(ws', Woken) == Count(ws, Woken) - if p == Woken then 1 else 0;
    assert Count(ws', Ready(true)) == Count(ws, Ready(true)) - if p == Ready(true) then 1 else 0;
    assert Count(ws', Ready(false)) == Count(ws, Ready(false)) + if p == Ready(false) then 0 else 1;
  }

  lemma SectionKeeps(c: Crew, w: nat, r: Result)
    requires CrewInv(c) && w < |c.workers| && c.workers[w] == Ready(false)
    requires SectionEffect(c.shared, r)
    ensures var c' := Crew(r.shared, c.workers[w := PhaseAfter(r.outcome)]);
            CountsInv(c') && WorkConserving(c', if r.signal then 1 else 0)
  {
    Moved(c.workers, w, PhaseAfter(r.outcome));
  }

  lemma TakeKeeps(c: Crew, w: nat, wake: Option<nat>)
    requires CrewInv(c) && CanTake(c, w, wake)
    ensures CrewInv(TakeStep(c, w, wake))
  {
    ArriveKeeps(c, w);
    var c1, r := Arrived(c, w), SectionOf(c, w);
    SectionHasEffect(c1.shared);
    SectionKeeps(c1, w, r);
    assert c1.workers[w := PhaseAfter(r.outcome)] == c.workers[w := PhaseAfter(r.outcome)];
    WakeKeeps(Crew(r.shared, c.workers[w := PhaseAfter(r.outcome)]), r.signal, wake);
  }

  lemma FinishKeeps(c: Crew, w: nat)
    requires CrewInv(c) && IsRunning(c, w)
    ensures CrewInv(FinishStep(c, w))
  {
    Moved(c.workers, w, Ready(c.workers[w].slow));
  }

  lemma SpuriousKeeps(c: Crew, w: nat)
    requires CrewInv(c) && IsWaiting(c, w)
    ensures CrewInv(SpuriousStep(c, w))
  {
    Moved(c.workers, w, Woken);
  }

  lemma DropKeeps(c: Crew, r: Req)
    requires CrewInv(c)
    ensures CrewInv(DropStep(c, r))
  {
    WithoutCounts(c.shared.wq, Work(r));
  }
}
