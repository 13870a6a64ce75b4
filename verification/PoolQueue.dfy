/** The part of the thread pool guarded by the global mutex (src/threadpool.c): the work queue, the
    queue of pending slow I/O work that one sentinel message in the work queue stands for, and the
    two counters.  Post and Section say what the critical sections of post() and worker() do to it,
    and class Pool runs them statement by statement.
  */
module PoolQueue {
  import opened Wrappers

  type Req = nat

  datatype Item = Exit | SlowMessage | Work(req: Req)

  datatype Kind = Cpu | FastIo | SlowIo

  /** How many times an entry is in a queue. */
  function Entries(wq: seq<Item>, x: Item): nat {
    multiset(wq)[x]
  }

  datatype Shared = Shared(wq: seq<Item>, slow: seq<Req>, idle: nat, slowRunning: nat, nthreads: nat)
  {
    function Threshold(): nat {
      (nthreads + 1) / 2
    }

    /** The condition under which a worker goes (back) to sleep. */
    predicate MustWait() {
      wq == [] || (wq == [SlowMessage] && slowRunning >= Threshold())
    }

    /** The sentinel is a single intrusive list node, and it is queued whenever slow work is pending. */
    ghost predicate Sane() {
      && Entries(wq, SlowMessage) <= 1
      && (slow != [] ==> Entries(wq, SlowMessage) > 0)
    }
  }

  /** How a critical section of a worker ends: asleep, gone, or running a request outside the mutex. */
  datatype Outcome = Wait | Leave | Run(req: Req, slow: bool)

  datatype Result = Result(shared: Shared, outcome: Outcome, signal: bool)

  /** post(): the new state, and whether the condition variable is signalled. */
  function Post(sh: Shared, item: Item, kind: Kind): (Shared, bool)
    requires kind == SlowIo ==> item.Work?
  {
    if kind != SlowIo then (sh.(wq := sh.wq + [item]), sh.idle > 0)
    else if SlowMessage in sh.wq then (sh.(slow := sh.slow + [item.req]), false)
    else (sh.(slow := sh.slow + [item.req], wq := sh.wq + [SlowMessage]), sh.idle > 0)
  }

  /** The loop of worker() from the top of an iteration to the next time the mutex is given up. */
  function Section(sh: Shared): Result
    requires sh.Sane()
    decreases |sh.wq|, if sh.wq != [] && sh.wq[0] == SlowMessage then 1 else 0
  {
    if sh.MustWait() then Result(sh.(idle := sh.idle + 1), Wait, false)
    else
      var rest := sh.wq[1..];
      assert sh.wq == [sh.wq[0]] + rest;
      match sh.wq[0]
      case Exit => Result(sh, Leave, true)
      case Work(r) => Result(sh.(wq := rest), Run(r, false), false)
      case SlowMessage =>
        if sh.slowRunning >= sh.Threshold() then
          assert rest != [] && rest[0] in multiset(rest);
          Section(sh.(wq := rest + [SlowMessage]))
        else if sh.slow == [] then Section(sh.(wq := rest))
        else
          var more := sh.slow[1..] != [];
          Result(
            sh.(wq := if more then rest + [SlowMessage] else rest, slow := sh.slow[1..],
                slowRunning := sh.slowRunning + 1),
            Run(sh.slow[0], true), more && sh.idle > 0)
  }

  /** The queue entries that are not the sentinel. */
  function Proper(sh: Shared): int {
    |sh.wq| - Entries(sh.wq, SlowMessage)
  }

  /** What a section does to the queues and the counters, whichever way it ends. */
  ghost predicate SectionEffect(sh: Shared, r: Result) {
    && r.shared.Sane()
    && r.shared.nthreads == sh.nthreads
    && Entries(r.shared.wq, Exit) == Entries(sh.wq, Exit)
    && r.shared.idle == sh.idle + (if r.outcome == Wait then 1 else 0)
    && match r.outcome
       case Run(q, true) =>
         && sh.slow != [] && q == sh.slow[0] && r.shared.slow == sh.slow[1..]
         && Entries(sh.wq, SlowMessage) > 0 && sh.slowRunning < sh.Threshold()
         && r.shared.slowRunning == sh.slowRunning + 1
         && r.signal == (Entries(r.shared.wq, SlowMessage) > 0 && sh.idle > 0)
         && Proper(r.shared) == Proper(sh)
       case Run(q, false) =>
         && SameSlow(sh, r.shared) && !r.signal
         && Proper(r.shared) == Proper(sh) - 1
       case Wait => SameSlow(sh, r.shared) && r.shared.MustWait() && !r.signal && Proper(r.shared) == Proper(sh) == 0
       case Leave => SameSlow(sh, r.shared) && r.signal && Entries(sh.wq, Exit) > 0 && Proper(r.shared) == Proper(sh)
  }

  ghost predicate SameSlow(sh: Shared, sh': Shared) {
    && sh'.slow == sh.slow && sh'.slowRunning == sh.slowRunning
    && Entries(sh'.wq, SlowMessage) <= Entries(sh.wq, SlowMessage)
  }

  /** Exactly the request that is run leaves the work queue. */
  ghost predicate WorkEffect(sh: Shared, r: Result) {
    forall q :: Entries(sh.wq, Work(q)) == Entries(r.shared.wq, Work(q)) + (if r.outcome == Run(q, false) then 1 else 0)
  }

  /** The queue once its first entry is gone, and once that entry is back at the tail. */
  lemma HeadOff(wq: seq<Item>)
    requires wq != []
    ensures multiset(wq) == multiset{wq[0]} + multiset(wq[1..])
    ensures multiset(wq[1..] + [wq[0]]) == multiset(wq)
  {
    assert wq == [wq[0]] + wq[1..];
  }

  lemma HasEntry(wq: seq<Item>, x: Item)
    ensures x in wq <==> Entries(wq, x) > 0
  {
    assert x in wq <==> x in multiset(wq);
  }

  /** The sentinel passed over: sh' is sh with the sentinel at the tail, or dropped when nothing is pending. */
  ghost predicate PassedOver(sh: Shared, sh': Shared) {
    && sh.Sane() && sh'.Sane()
    && sh' == sh.(wq := sh'.wq)
    && Entries(sh'.wq, Exit) == Entries(sh.wq, Exit)
    && Entries(sh'.wq, SlowMessage) <= Entries(sh.wq, SlowMessage)
    && Proper(sh') == Proper(sh)
  }

  lemma EffectCarries(sh: Shared, sh': Shared, r: Result)
    requires PassedOver(sh, sh') && SectionEffect(sh', r)
    ensures SectionEffect(sh, r)
  {
    HasEntry(sh.wq, Exit);
    HasEntry(sh.wq, SlowMessage);
    HasEntry(sh'.wq, Exit);
    HasEntry(sh'.wq, SlowMessage);
  }

  lemma SlowRunEffect(sh: Shared)
    requires sh.Sane() && sh.wq != [] && sh.wq[0] == SlowMessage && sh.slow != []
    requires sh.slowRunning < sh.Threshold()
    ensures SectionEffect(sh, Section(sh))
  {
    HeadOff(sh.wq);
    var r := Section(sh);
    HasEntry(sh.wq, Exit);
    HasEntry(sh.wq, SlowMessage);
    HasEntry(r.shared.wq, Exit);
    HasEntry(r.shared.wq, SlowMessage);
  }

  lemma OtherRunEffect(sh: Shared)
    requires sh.Sane() && (sh.wq == [] || sh.wq[0] != SlowMessage)
    ensures SectionEffect(sh, Section(sh))
  {
    if sh.wq != [] {
      HeadOff(sh.wq);
      var rest := sh.wq[1..];
      HasEntry(sh.wq, Exit);
      HasEntry(sh.wq, SlowMessage);
      HasEntry(rest, Exit);
      HasEntry(rest, SlowMessage);
    }
  }

  /** The state a worker goes on with when the sentinel at the head is not for it. */
  function Passed(sh: Shared): Shared
    requires sh.wq != []
  {
    sh.(wq := if sh.slowRunning >= sh.Threshold() then sh.wq[1..] + [SlowMessage] else sh.wq[1..])
  }

  lemma SentinelPassedOver(sh: Shared)
    requires sh.Sane() && !sh.MustWait() && sh.wq[0] == SlowMessage
    requires sh.slowRunning >= sh.Threshold() || sh.slow == []
    ensures PassedOver(sh, Passed(sh)) && Section(sh) == Section(Passed(sh))
    ensures Passed(sh).wq == [] || Passed(sh).wq[0] != SlowMessage
    ensures |Passed(sh).wq| <= |sh.wq|
  {
    OnlySentinel(sh);
    PassedIsSane(sh);
  }

  /** The sentinel at the head is the only one. */
  lemma OnlySentinel(sh: Shared)
    requires sh.Sane() && sh.wq != [] && sh.wq[0] == SlowMessage
    ensures SlowMessage !in sh.wq[1..] && (sh.wq[1..] != [] ==> sh.wq[1] != SlowMessage)
  {
    HeadOff(sh.wq);
    HasEntry(sh.wq[1..], SlowMessage);
    if sh.wq[1..] != [] {
      assert sh.wq[1..][0] in sh.wq[1..];
    }
  }

  lemma PassedIsSane(sh: Shared)
    requires sh.Sane() && !sh.MustWait() && sh.wq[0] == SlowMessage
    requires sh.slowRunning >= sh.Threshold() || sh.slow == []
    ensures PassedOver(sh, Passed(sh))
  {
    HeadOff(sh.wq);
  }

  lemma SectionHasEffect(sh: Shared)
    requires sh.Sane()
    ensures SectionEffect(sh, Section(sh))
  {
    if sh.wq == [] || sh.wq[0] != SlowMessage {
      OtherRunEffect(sh);
    } else if !sh.MustWait() {
      if sh.slowRunning >= sh.Threshold() || sh.slow == [] {
        SentinelPassedOver(sh);
        OtherRunEffect(Passed(sh));
        EffectCarries(sh, Passed(sh), Section(Passed(sh)));
      } else {
        SlowRunEffect(sh);
      }
    }
  }

  lemma OtherTakesWork(sh: Shared)
    requires sh.Sane() && (sh.wq == [] || sh.wq[0] != SlowMessage)
    ensures WorkEffect(sh, Section(sh))
  {
    if sh.wq != [] {
      HeadOff(sh.wq);
    }
  }

  lemma SlowTakesWork(sh: Shared)
    requires sh.Sane() && sh.wq != [] && sh.wq[0] == SlowMessage && sh.slow != [] && sh.slowRunning < sh.Threshold()
    ensures WorkEffect(sh, Section(sh))
  {
    HeadOff(sh.wq);
  }

  lemma PassedKeepsWork(sh: Shared, r: Result)
    requires sh.wq != [] && sh.wq[0] == SlowMessage && WorkEffect(Passed(sh), r)
    ensures WorkEffect(sh, r)
  {
    HeadOff(sh.wq);
    forall q ensures Entries(Passed(sh).wq, Work(q)) == Entries(sh.wq, Work(q)) {
    }
  }

  lemma SectionTakesWork(sh: Shared)
    requires sh.Sane()
    ensures WorkEffect(sh, Section(sh))
  {
    if sh.wq == [] || sh.wq[0] != SlowMessage {
      OtherTakesWork(sh);
    } else if !sh.MustWait() {
      if sh.slowRunning >= sh.Threshold() || sh.slow == [] {
        SentinelPassedOver(sh);
        OtherTakesWork(Passed(sh));
        PassedKeepsWork(sh, Section(Passed(sh)));
      } else {
        SlowTakesWork(sh);
      }
    }
  }

  /** The requests in the work queue, in order. */
  function Works(wq: seq<Item>): seq<Req> {
    if wq == [] then [] else (if wq[0].Work? then [wq[0].req] else []) + Works(wq[1..])
  }

  lemma {:induction false} WorksAppend(wq: seq<Item>, x: Item)
    ensures Works(wq + [x]) == Works(wq) + if x.Work? then [x.req] else []
  {
    var more := wq + [x];
    if wq == [] {
      assert more[1..] == [];
    } else {
      assert more[1..] == wq[1..] + [x] && more[0] == wq[0];
      WorksAppend(wq[1..], x);
    }
  }

  lemma WorksStay(wq: seq<Item>)
    ensures Works(wq + [SlowMessage]) == Works(wq)
  {
    WorksAppend(wq, SlowMessage);
  }

  /** First in, first out: what runs is the head of the queue it comes from, and all others keep their order. */
  ghost predicate Fifo(sh: Shared, r: Result) {
    && Works(sh.wq) == (if r.outcome.Run? && !r.outcome.slow then [r.outcome.req] else []) + Works(r.shared.wq)
    && sh.slow == (if r.outcome.Run? && r.outcome.slow then [r.outcome.req] else []) + r.shared.slow
  }

  lemma OtherIsFifo(sh: Shared)
    requires sh.Sane() && (sh.wq == [] || sh.wq[0] != SlowMessage)
    ensures Fifo(sh, Section(sh))
  {
    var r := Section(sh);
    assert r.shared.slow == sh.slow && (r.outcome.Run? ==> !r.outcome.slow);
    if sh.wq != [] {
      assert r.shared.wq == if sh.wq[0].Work? then sh.wq[1..] else sh.wq;
    }
  }

  lemma SlowIsFifo(sh: Shared)
    requires sh.Sane() && sh.wq != [] && sh.wq[0] == SlowMessage && sh.slow != [] && sh.slowRunning < sh.Threshold()
    ensures Fifo(sh, Section(sh))
  {
    WorksStay(sh.wq[1..]);
    assert [sh.slow[0]] + sh.slow[1..] == sh.slow;
  }

  lemma PassedKeepsOrder(sh: Shared)
    requires sh.wq != [] && sh.wq[0] == SlowMessage
    ensures Works(Passed(sh).wq) == Works(sh.wq) && Passed(sh).slow == sh.slow
  {
    WorksStay(sh.wq[1..]);
  }

  lemma SectionIsFifo(sh: Shared)
    requires sh.Sane()
    ensures Fifo(sh, Section(sh))
  {
    if sh.wq == [] || sh.wq[0] != SlowMessage {
      OtherIsFifo(sh);
    } else if !sh.MustWait() {
      if sh.slowRunning >= sh.Threshold() || sh.slow == [] {
        SentinelPassedOver(sh);
        PassedKeepsOrder(sh);
        OtherIsFifo(Passed(sh));
      } else {
        SlowIsFifo(sh);
      }
    }
  }

  /** How often a request waits for a worker, in the work queue or in the slow queue. */
  function Queued(sh: Shared, q: Req): nat {
    Entries(sh.wq, Work(q)) + multiset(sh.slow)[q]
  }

  lemma SectionCounts(sh: Shared, q: Req)
    requires sh.Sane()
    ensures var r := Section(sh);
            Queued(sh, q) == Queued(r.shared, q) + if r.outcome.Run? && r.outcome.req == q then 1 else 0
  {
    SectionHasEffect(sh);
    SectionTakesWork(sh);
    EffectCounts(sh, Section(sh), q);
  }

  lemma EffectCounts(sh: Shared, r: Result, q: Req)
    requires SectionEffect(sh, r) && WorkEffect(sh, r)
    ensures Queued(sh, q) == Queued(r.shared, q) + if r.outcome.Run? && r.outcome.req == q then 1 else 0
  {
    if r.outcome.Run? && r.outcome.slow {
      assert sh.slow == [sh.slow[0]] + sh.slow[1..];
    }
  }

  lemma PostCounts(sh: Shared, item: Item, kind: Kind, q: Req)
    requires item != SlowMessage && (kind == SlowIo ==> item.Work?)
    ensures Queued(Post(sh, item, kind).0, q) == Queued(sh, q) + if item == Work(q) then 1 else 0
  {
  }

  lemma PostSane(sh: Shared, item: Item, kind: Kind)
    requires sh.Sane() && item != SlowMessage && (kind == SlowIo ==> item.Work?)
    ensures Post(sh, item, kind).0.Sane()
  {
    HasEntry(sh.wq, SlowMessage);
  }

  /** A post keeps the kinds apart: work of one kind goes to the end of its own queue and leaves the other as it is.
      Slow work is announced by the slow-work message, at the end of the work queue unless it is in it already; a
      worker that sleeps is signalled when the work queue has grown. */
  lemma PostAppends(sh: Shared, r: Req, kind: Kind)
    ensures var (sh', signal) := Post(sh, Work(r), kind);
            && sh' == sh.(wq := sh'.wq, slow := sh'.slow)
            && Works(sh'.wq) == (if kind == SlowIo then Works(sh.wq) else Works(sh.wq) + [r])
            && sh'.slow == (if kind == SlowIo then sh.slow + [r] else sh.slow)
            && (kind == SlowIo && SlowMessage in sh.wq ==> sh'.wq == sh.wq)
            && (kind == SlowIo && SlowMessage !in sh.wq ==> sh'.wq == sh.wq + [SlowMessage])
            && (signal <==> sh.idle > 0 && |sh'.wq| > |sh.wq|)
  {
    WorksAppend(sh.wq, Work(r));
    WorksStay(sh.wq);
  }

  /** A worker that is not to run slow work: the slow-work message ends up last, or is gone when it is not needed. */
  predicate PassesOn(sh: Shared, r: Result)
    requires sh.wq != []
  {
    && r.outcome == NextOutcome(sh.wq[1..])
    && (2 * sh.slowRunning < sh.nthreads ==> SlowMessage !in r.shared.wq)
    && (2 * sh.slowRunning >= sh.nthreads ==> r.shared.wq != [] && r.shared.wq[|r.shared.wq| - 1] == SlowMessage)
  }

  lemma NextByHead(sh: Shared, sh1: Shared)
    requires sh.wq != [] && SlowMessage !in sh.wq[1..] && sh1.Sane() && sh1 == Passed(sh) && !sh1.MustWait() && sh1.wq[0] != SlowMessage
    ensures PassesOn(sh, Section(sh1))
  {
    assert sh.wq[1..] != [] ==> sh1.wq[0] == sh.wq[1..][0];
  }

  lemma PassesByHead(sh: Shared)
    requires sh.Sane() && sh.wq != [] && sh.wq[0] == SlowMessage && (2 * sh.slowRunning >= sh.nthreads || sh.slow == [])
    ensures PassesOn(sh, Section(sh))
  {
    OnlySentinel(sh);
    if sh.MustWait() {
      assert sh.wq[1..] == [];
    } else {
      SentinelPassedOver(sh);
      if Passed(sh).wq != [] {
        NextByHead(sh, Passed(sh));
      }
    }
  }

  /** What a worker finds at the head of the work queue decides, and slow work is served up to half the pool, rounded up. */
  lemma SectionByHead(sh: Shared)
    requires sh.Sane() && sh.wq != []
    ensures var r := Section(sh);
            match sh.wq[0]
            case Exit => r == Result(sh, Leave, true)
            case Work(q) => r == Result(sh.(wq := sh.wq[1..]), Run(q, false), false)
            case SlowMessage =>
              if 2 * sh.slowRunning < sh.nthreads && sh.slow != [] then
                && r.outcome == Run(sh.slow[0], true) && r.shared.slow == sh.slow[1..]
                && r.shared.slowRunning == sh.slowRunning + 1
                && r.shared.wq == sh.wq[1..] + (if |sh.slow| > 1 then [SlowMessage] else [])
              else PassesOn(sh, r)
  {
    if sh.wq[0] == SlowMessage && !(2 * sh.slowRunning < sh.nthreads && sh.slow != []) {
      PassesByHead(sh);
    }
  }

  /** What a worker does that finds no slow work to run, with these entries besides the slow-work message. */
  function NextOutcome(others: seq<Item>): Outcome {
    if others == [] then Wait
    else match others[0]
      case Exit => Leave
      case Work(q) => Run(q, false)
      case SlowMessage => Wait
  }

  /** The same critical sections, run on the fields they update in place. */
  class Pool {
    var wq: seq<Item>
    var slowIoPendingWq: seq<Req>
    var slowMessageLinked: bool
    var idleThreads: nat
    var slowIoWorkRunning: nat
    const nthreads: nat

    function View(): Shared
      reads this
    {
      Shared(wq, slowIoPendingWq, idleThreads, slowIoWorkRunning, nthreads)
    }

    /** The node of the sentinel is linked exactly when the sentinel is in the work queue. */
    ghost predicate Valid()
      reads this
    {
      View().Sane() && (slowMessageLinked <==> SlowMessage in wq)
    }

    constructor (nthreads: nat)
      ensures Valid() && View() == Shared([], [], 0, 0, nthreads)
    {
      wq, slowIoPendingWq, slowMessageLinked := [], [], false;
      idleThreads, slowIoWorkRunning, this.nthreads := 0, 0, nthreads;
    }

    method PostItem(item: Item, kind: Kind) returns (signal: bool)
      requires Valid() && item != SlowMessage && (kind == SlowIo ==> item.Work?)
      modifies this
      ensures Valid() && (View(), signal) == Post(old(View()), item, kind)
      ensures kind != SlowIo ==> wq == old(wq) + [item] && slowIoPendingWq == old(slowIoPendingWq)
      ensures kind == SlowIo ==> slowIoPendingWq == old(slowIoPendingWq) + [item.req]
      ensures kind == SlowIo ==> wq == old(wq) + if old(slowMessageLinked) then [] else [SlowMessage]
      ensures signal <==> idleThreads > 0 && (kind == SlowIo ==> !old(slowMessageLinked))
      ensures idleThreads == old(idleThreads) && slowIoWorkRunning == old(slowIoWorkRunning)
    {
      PostSane(View(), item, kind);
      var q := item;
      if kind == SlowIo {
        slowIoPendingWq := slowIoPendingWq + [item.req];
        if slowMessageLinked {
          return false;
        }
        q := SlowMessage;
        slowMessageLinked := true;
      }
      wq := wq + [q];
      signal := idleThreads > 0;
    }

    /** The slow branch of a section, once the sentinel has been taken off the work queue. */
    method StartSlow(ghost sh: Shared) returns (outcome: Outcome, signal: bool)
      requires sh.Sane() && sh.wq != [] && sh.wq[0] == SlowMessage && sh.slow != []
      requires sh.slowRunning < sh.Threshold()
      requires View() == sh.(wq := sh.wq[1..]) && !slowMessageLinked
      modifies this
      ensures Valid() && Result(View(), outcome, signal) == Section(sh)
    {
      HeadOff(sh.wq);
      HasEntry(wq, SlowMessage);
      slowIoWorkRunning := slowIoWorkRunning + 1;
      var r := slowIoPendingWq[0];
      slowIoPendingWq := slowIoPendingWq[1..];
      signal := false;
      if slowIoPendingWq != [] {
        wq := wq + [SlowMessage];
        slowMessageLinked := true;
        signal := idleThreads > 0;
      }
      outcome := Run(r, true);
    }

    /** One turn of the loop; `again` is the source's `continue`. */
    method Turn() returns (again: bool, outcome: Outcome, signal: bool)
      requires Valid() && !View().MustWait()
      modifies this
      ensures Valid()
      ensures again ==>
                && Section(View()) == Section(old(View())) && |wq| <= old(|wq|)
                && old(wq[0] == SlowMessage) && (wq == [] || wq[0] != SlowMessage)
      ensures !again ==> Result(View(), outcome, signal) == Section(old(View()))
    {
      ghost var sh := View();
      again, outcome, signal := false, Wait, false;
      HeadOff(wq);
      HasEntry(wq[1..], SlowMessage);
      var q := wq[0];
      if q == Exit {
        return false, Leave, true;
      }
      wq := wq[1..];
      if q.Work? {
        return false, Run(q.req, false), false;
      }
      slowMessageLinked := false;
      if slowIoWorkRunning < (nthreads + 1) / 2 && slowIoPendingWq != [] {
        outcome, signal := StartSlow(sh);
      } else {
        SentinelPassedOver(sh);
        again := true;
        if slowIoWorkRunning >= (nthreads + 1) / 2 {
          wq := wq + [q];
          slowMessageLinked := true;
        }
      }
    }

    method RunSection() returns (outcome: Outcome, signal: bool)
      requires Valid()
      modifies this
      ensures Valid() && Result(View(), outcome, signal) == Section(old(View()))
    {
      var again := true;
      outcome, signal := Wait, false;
      while !(wq == [] || (wq[0] == SlowMessage && wq[1..] == [] && slowIoWorkRunning >= (nthreads + 1) / 2))
        invariant Valid() && Section(View()) == Section(old(View()))
        decreases |wq|, if wq != [] && wq[0] == SlowMessage then 1 else 0
      {
        again, outcome, signal := Turn();
        if !again {
          return;
        }
      }
      idleThreads := idleThreads + 1;
      outcome, signal := Wait, false;
    }
  }
}
