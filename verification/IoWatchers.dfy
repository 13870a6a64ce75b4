/** The table from file descriptors to I/O watchers (src/unix/core.c:818-927). */
module IoWatchers {
  import opened Arithmetic
  import opened Sequences
  import opened PowerOfTwo

  datatype Event = PollIn | PollOut | PollRdHup | PollPri

  /** A set of event bits. */
  type Mask = set<Event>

  const INT_MAX: nat := 0x7FFF_FFFF

  /** The greatest length that maybe_resize can provide: two more entries must not need more than 2^31. */
  const MAX_WATCHERS: nat := 0x7FFF_FFFE

  /** A uv__io_t: its descriptor or -1, what the kernel was told, and what it is to be told. */
  class Watcher {
    const fd: int
    var events: Mask
    var pevents: Mask

    /** uv__io_init. */
    constructor (fd: int)
      requires fd >= -1
      ensures this.fd == fd && events == {} && pevents == {}
    {
      this.fd, events, pevents := fd, {}, {};
    }
  }

  class IoLoop {
    /** loop->watchers has two entries more than nwatchers, which hold no watchers but what uv__io_poll put there. */
    var watchers: array?<Watcher?>
    var nwatchers: nat
    var nfds: nat
    var queue: seq<Watcher>
    ghost const pool: set<Watcher>

    predicate Sized()
      reads this`watchers, this`nwatchers
    {
      if watchers == null then nwatchers == 0 else watchers.Length == nwatchers + 2 && nwatchers <= MAX_WATCHERS
    }

    /** The entry for a descriptor, NULL where there is none. */
    function Entry(i: int): Watcher?
      reads this`watchers, this`nwatchers, watchers
      requires Sized()
    {
      if 0 <= i < nwatchers then watchers[i] else null
    }

    ghost predicate WatcherOk(w: Watcher)
      reads this`watchers, this`nwatchers, watchers, this`queue, w`events, w`pevents
      requires Sized()
    {
      && (w.pevents != {} <==> Entry(w.fd) == w)
      && (w.events != {} ==> w.pevents != {})
      && (w.events != w.pevents ==> w in queue)
      && (w in queue ==> w.pevents != {})
    }

    ghost function Started(): set<Watcher>
      reads pool`pevents
    {
      set w | w in pool && w.pevents != {}
    }

    /** One watcher per descriptor; the started watchers, and only they, are in the table, and nfds counts them; a
        watcher about which the kernel is to be told something is queued. */
    ghost predicate Valid()
      reads this, watchers, pool`events, pool`pevents
    {
      Indexed() && (forall w :: w in pool ==> WatcherOk(w)) && nfds == |Started()|
    }

    ghost predicate Indexed()
      reads this, watchers
    {
      && Sized()
      && (forall v, w :: v in pool && w in pool && v.fd == w.fd && v.fd >= 0 ==> v == w)
      && (forall w :: w in pool ==> w.fd >= -1)
      && (forall i: nat :: i < nwatchers && Entry(i) != null ==> Entry(i) in pool && Entry(i).fd == i)
      && (forall w :: w in queue ==> w in pool) && Distinct(queue)
    }

    /** Valid(), but for one watcher and the count. */
    ghost predicate Others(w: Watcher)
      reads this, watchers, pool`events, pool`pevents
    {
      Indexed() && forall v :: v in pool && v != w ==> WatcherOk(v)
    }

    constructor (ghost all: set<Watcher>)
      requires forall v, w :: v in all && w in all && v.fd == w.fd && v.fd >= 0 ==> v == w
      requires forall w :: w in all ==> w.fd >= -1 && w.events == {} && w.pevents == {}
      ensures Valid() && pool == all && watchers == null && nwatchers == 0 && nfds == 0 && queue == []
    {
      watchers, nwatchers, nfds, queue, pool := null, 0, 0, [], all;
      new;
      assert Started() == {};
    }

    /** Lines 826 to 849, without the test at line 826: the table grows to `n` entries and the two behind them. */
    method Grow(n: nat)
      requires Sized() && nwatchers < n <= MAX_WATCHERS
      modifies this`watchers, this`nwatchers
      ensures Sized() && nwatchers == n && watchers != null && fresh(watchers)
      ensures forall i: int :: Entry(i) == old(Entry(i))
      ensures old(watchers) != null ==> watchers[n] == old(watchers[nwatchers]) && watchers[n + 1] == old(watchers[nwatchers + 1])
      ensures old(watchers) == null ==> watchers[n] == null && watchers[n + 1] == null
    {
      var fakeList, fakeCount := null, null;
      if watchers != null {
        fakeList, fakeCount := watchers[nwatchers], watchers[nwatchers + 1];
      }
      var t := new Watcher?[n + 2](_ => null);
      var i: nat := 0;
      while i < nwatchers
        invariant watchers == old(watchers) && nwatchers == old(nwatchers)
        invariant Sized() && i <= nwatchers && forall j :: 0 <= j < i ==> t[j] == Entry(j)
        invariant forall j :: i <= j < n + 2 ==> t[j] == null
      {
        t[i] := watchers[i];
        i := i + 1;
      }
      t[n] := fakeList;
      t[n + 1] := fakeCount;
      watchers, nwatchers := t, n;
    }

    /** maybe_resize: room for `len` watchers in a table whose length, with the two entries at its end, is a power of
        two; those two and all watchers stay what they were.  It aborts, which is when it returns false, exactly if
        there is no such table. */
    method MaybeResize(len: nat) returns (ok: bool)
      requires Sized() && len <= INT_MAX
      modifies this`watchers, this`nwatchers
      ensures ok <==> len <= 0x7FFF_FFFE
      ensures ok ==> Sized() && len <= nwatchers && (forall i: int :: Entry(i) == old(Entry(i)))
      ensures len <= old(nwatchers) ==> watchers == old(watchers) && nwatchers == old(nwatchers)
      ensures ok && len > old(nwatchers) ==> watchers != null && fresh(watchers) && IsLeastPower(len + 2, nwatchers + 2)
      ensures ok && len > old(nwatchers) && old(watchers) != null ==>
                watchers[nwatchers] == old(watchers[nwatchers]) && watchers[nwatchers + 1] == old(watchers[nwatchers + 1])
    {
      if len <= nwatchers {
        return true;
      }
      var p := NextPowerOfTwo(len + 2);
      RoomExactly(len, p);
      var n := TableLength(p);
      if AllocatedSlots(n) == 0 {
        return false;
      }
      Grow(n);
      return true;
    }

    /** The entry for w's descriptor is written, when it is free or w's. */
    method SetEntry(w: Watcher, v: Watcher?)
      requires Others(w) && w in pool && 0 <= w.fd < nwatchers && (Entry(w.fd) == null || Entry(w.fd) == w) && (v == null || v == w)
      modifies watchers
      ensures Others(w) && Entry(w.fd) == v && Started() == old(Started())
    {
      watchers[w.fd] := v;
      assert forall i: nat :: i < nwatchers && i != w.fd ==> Entry(i) == old(Entry(i));
      forall u | u in pool && u != w ensures WatcherOk(u) {
        assert old(WatcherOk(u)) && u.fd != w.fd && Entry(u.fd) == old(Entry(u.fd));
      }
    }

    /** The change of w.pevents, and how many watchers are started then. */
    method SetPevents(w: Watcher, pevents: Mask)
      requires Others(w) && w in pool
      modifies w`pevents
      ensures Others(w) && w.pevents == pevents
      ensures |Started()| == |old(Started())| - (if old(w.pevents) != {} then 1 else 0) + (if pevents != {} then 1 else 0)
    {
      ghost var before := Started();
      assert w in before <==> w.pevents != {};
      w.pevents := pevents;
      StartedChange(before, w);
    }

    /** Lines 885 to 886, and 925 to 926. */
    method Enlist(w: Watcher)
      requires Others(w) && w in pool
      modifies this`queue
      ensures Others(w) && queue == Queued(old(queue), w) && Started() == old(Started())
    {
      if w !in queue {
        queue := queue + [w];
      }
    }

    /** uv__io_start, for all the descriptors its assertions let through.  With the greatest one it aborts. */
    method Start(w: Watcher, events: Mask) returns (ok: bool)
      requires Valid() && w in pool && events != {} && 0 <= w.fd < INT_MAX
      modifies this`watchers, this`nwatchers, this`nfds, this`queue, watchers, w`pevents
      ensures ok <==> w.fd < 0x7FFF_FFFE
      ensures ok ==> Valid() && w.pevents == old(w.pevents) + events && Entry(w.fd) == w
      ensures ok ==> queue == old(queue) + if w.events == w.pevents || w in old(queue) then [] else [w]
    {
      ok := MaybeResize(w.fd + 1);
      if ok {
        Arm(w, events);
      }
    }

    /** Lines 874, and 881 to 893. */
    method Arm(w: Watcher, events: Mask)
      requires Valid() && w in pool && events != {} && 0 <= w.fd < nwatchers
      modifies this`nfds, this`queue, watchers, w`pevents
      ensures Valid() && w.pevents == old(w.pevents) + events && Entry(w.fd) == w
      ensures queue == if w.events == w.pevents then old(queue) else Queued(old(queue), w)
    {
      assert WatcherOk(w);
      FreeEntry(w);
      NotEmpty(w.pevents, events);
      SetPevents(w, w.pevents + events);
      if w.events == w.pevents {
        return;
      }
      Enlist(w);
      Enter(w);
    }

    /** Lines 890 to 893. */
    method Enter(w: Watcher)
      requires Others(w) && w in pool && 0 <= w.fd < nwatchers && w.pevents != {} && w in queue && (Entry(w.fd) == null || Entry(w.fd) == w)
      requires nfds == |Started()| - if Entry(w.fd) == null then 1 else 0
      modifies this`nfds, watchers
      ensures Valid() && Entry(w.fd) == w
    {
      if watchers[w.fd] == null {
        SetEntry(w, w);
        nfds := nfds + 1;
      }
    }

    /** The entry for a descriptor that is in use is that of its one watcher. */
    lemma FreeEntry(w: Watcher)
      requires Indexed() && w in pool && w.fd >= 0
      ensures Entry(w.fd) == null || Entry(w.fd) == w
    {
    }

    /** After w alone has changed. */
    lemma StartedChange(before: set<Watcher>, w: Watcher)
      requires w in pool && before <= pool
      requires forall v :: v in pool && v != w ==> (v in before <==> v.pevents != {})
      ensures |Started()| == |before| - (if w in before then 1 else 0) + (if w.pevents != {} then 1 else 0)
    {
      forall v | v in pool && v != w ensures v in before <==> v in Started() {
      }
      OneChanged(before, Started(), w);
    }

    /** QUEUE_REMOVE and QUEUE_INIT of the watcher's queue node. */
    method Delist(w: Watcher)
      requires Others(w)
      modifies this`queue
      ensures Others(w) && queue == Without(old(queue), w) && w !in queue && Started() == old(Started())
    {
      WithoutIs(queue, w);
      WithoutDistinct(queue, w);
      queue := Without(queue, w);
    }

    /** Lines 911 to 922, for a watcher that has just lost its last event or was not started. */
    method Drop(w: Watcher)
      requires Others(w) && w in pool && 0 <= w.fd < nwatchers && w.pevents == {} && (Entry(w.fd) == null || Entry(w.fd) == w)
      requires nfds == |Started()| + (if Entry(w.fd) == w then 1 else 0) && (Entry(w.fd) == null ==> w.events == {})
      modifies this`nfds, this`queue, watchers, w`events
      ensures Valid() && queue == Without(old(queue), w) && w.events == {}
    {
      Delist(w);
      if watchers[w.fd] != null {
        SetEntry(w, null);
        nfds := nfds - 1;
        w.events := {};
      }
    }

    /** uv__io_stop. */
    method Stop(w: Watcher, events: Mask)
      requires Valid() && w in pool && events != {}
      modifies this`nfds, this`queue, watchers, w`events, w`pevents
      ensures Valid() && w.pevents == old(w.pevents) - events
      ensures w.pevents != {} ==> queue == old(queue) + if w in old(queue) then [] else [w]
      ensures w.pevents == {} ==> queue == Without(old(queue), w)
      ensures w.events == if w.pevents == {} then {} else old(w.events)
    {
      assert WatcherOk(w);
      if w.fd == -1 || w.fd >= nwatchers {
        WithoutNone(queue, w);
        return;
      }
      FreeEntry(w);
      SetPevents(w, w.pevents - events);
      if w.pevents == {} {
        Drop(w);
      } else {
        Enlist(w);
      }
    }

    /** uv__io_poll takes the queue over (src/unix/kqueue.c:140-192).  The kernel is told of an event exactly if it is new
        about a queued watcher, once, in the order of the queue; there is no change for POLLRDHUP. */
    method TakeQueue() returns (told: seq<Change>)
      requires Valid()
      modifies this`queue, pool`events
      ensures Valid() && queue == [] && (forall w :: w in pool ==> w.events == w.pevents)
      ensures forall c: Change :: c in told <==> old(Wanted(queue, c))
      ensures Distinct(told) && InQueueOrder(old(queue), told)
    {
      QueueFds();
      AllNewsAre(queue);
      told := TellAll();
    }

    lemma QueueFds()
      requires Valid()
      ensures DistinctFds(queue)
    {
      forall w | w in queue ensures w in pool && w.fd >= 0 {
        QueuedIsStarted(w);
      }
    }

    method TellAll() returns (told: seq<Change>)
      requires Valid()
      modifies this`queue, pool`events
      ensures Valid() && queue == [] && (forall w :: w in pool ==> w.events == w.pevents)
      ensures told == old(AllNews(queue))
    {
      told := [];
      while queue != []
        invariant Valid() && told + AllNews(queue) == old(AllNews(queue))
        decreases |queue|
      {
        var change := TellFirst(queue[0]);
        Assoc(told, change, AllNews(queue));
        told := told + change;
      }
      assert forall w :: w in pool ==> WatcherOk(w);
    }

    /** The assertions at lines 146 to 148. */
    lemma QueuedIsStarted(w: Watcher)
      requires Valid() && w in queue
      ensures w.pevents != {} && 0 <= w.fd < nwatchers && watchers[w.fd] == w
    {
      assert WatcherOk(w);
    }

    /** Lines 141 to 191. */
    method TellFirst(w: Watcher) returns (told: seq<Change>)
      requires Valid() && queue != [] && w == queue[0]
      modifies this`queue, w`events
      ensures Valid() && queue == old(queue[1..]) && old(AllNews(queue)) == told + AllNews(queue)
    {
      QueuedIsStarted(w);
      TailDistinct(queue);
      told := News(w);
      queue := queue[1..];
      SetEvents(w);
    }

    /** Line 191, for a watcher that is off the queue. */
    method SetEvents(w: Watcher)
      requires Others(w) && w in pool && w !in queue && w.pevents != {} && Entry(w.fd) == w && nfds == |Started()|
      modifies w`events
      ensures Valid() && AllNews(queue) == old(AllNews(queue))
    {
      ghost var more := AllNews(queue);
      w.events := w.pevents;
      assert AllNews(queue) == more;
    }

    /** Without descriptors there is nothing to tell the kernel, as uv__io_poll asserts. */
    lemma IdleQueue()
      requires Valid() && nfds == 0
      ensures queue == []
    {
      assert queue == [] || (queue[0] in pool && WatcherOk(queue[0]) && queue[0] in Started());
      assert Started() == {};
    }
  }

  // ---------- What the kernel is told ----------

  /** Add an event to those the kernel reports for a descriptor. */
  datatype Change = Change(fd: int, event: Event)

  /** Lines 150 to 189: no change is made for POLLRDHUP. */
  function News(w: Watcher): seq<Change>
    reads w`events, w`pevents
  {
    New(w, PollIn) + New(w, PollOut) + New(w, PollPri)
  }

  function New(w: Watcher, e: Event): seq<Change>
    reads w`events, w`pevents
  {
    if e !in w.events && e in w.pevents then [Change(w.fd, e)] else []
  }

  ghost function AllNews(queue: seq<Watcher>): seq<Change>
    reads (set w: Watcher | w in queue)
  {
    if queue == [] then [] else News(queue[0]) + AllNews(queue[1..])
  }

  /** The order in which the events of one watcher are told. */
  function Turn(e: Event): nat {
    match e
    case PollIn => 0
    case PollOut => 1
    case PollPri => 2
    case PollRdHup => 3
  }

  /** Changes a and b, in this order, are about watchers that are queued in this order, or about one watcher. */
  ghost predicate Follows(queue: seq<Watcher>, a: Change, b: Change) {
    if a.fd == b.fd then Turn(a.event) < Turn(b.event)
    else exists m, n :: 0 <= m < n < |queue| && queue[m].fd == a.fd && queue[n].fd == b.fd
  }

  ghost predicate InQueueOrder(queue: seq<Watcher>, told: seq<Change>) {
    forall i, j :: 0 <= i < j < |told| ==> Follows(queue, told[i], told[j])
  }

  /** The kernel is to be told of c. */
  ghost predicate Wanted(queue: seq<Watcher>, c: Change)
    reads (set w: Watcher | w in queue)
  {
    c.event != PollRdHup && exists w :: w in queue && w.fd == c.fd && c.event in w.pevents && c.event !in w.events
  }

  lemma NewsAre(w: Watcher)
    ensures forall c: Change :: c in News(w) <==> c.fd == w.fd && c.event != PollRdHup && c.event in w.pevents && c.event !in w.events
    ensures forall i, j :: 0 <= i < j < |News(w)| ==> Turn(News(w)[i].event) < Turn(News(w)[j].event)
  {
    forall c: Change | c.fd == w.fd ensures c in News(w) <==> c.event != PollRdHup && c.event in w.pevents && c.event !in w.events {
      match c.event
      case PollIn => assert c in New(w, PollIn) <==> c in News(w);
      case PollOut => assert c in New(w, PollOut) <==> c in News(w);
      case PollPri => assert c in New(w, PollPri) <==> c in News(w);
      case PollRdHup =>
    }
  }

  ghost predicate DistinctFds(queue: seq<Watcher>) {
    forall i, j :: 0 <= i < j < |queue| ==> queue[i].fd != queue[j].fd
  }

  /** All that is new, nothing else, each change once, and in the order of the queue. */
  lemma {:induction false} AllNewsAre(queue: seq<Watcher>)
    requires DistinctFds(queue)
    ensures forall c: Change :: c in AllNews(queue) <==> Wanted(queue, c)
    ensures InQueueOrder(queue, AllNews(queue)) && Distinct(AllNews(queue))
  {
    if queue != [] {
      var w, rest := queue[0], queue[1..];
      NewsAre(w);
      AllNewsAre(rest);
      WantedSplits(queue, w, rest);
      NewsInOrder(queue, News(w), AllNews(rest));
    }
  }

  lemma WantedSplits(queue: seq<Watcher>, w: Watcher, rest: seq<Watcher>)
    requires queue == [w] + rest
    ensures forall c: Change :: Wanted(queue, c) <==> Wanted([w], c) || Wanted(rest, c)
  {
  }

  lemma NewsInOrder(queue: seq<Watcher>, first: seq<Change>, more: seq<Change>)
    requires DistinctFds(queue) && queue != []
    requires forall c :: c in first ==> c.fd == queue[0].fd
    requires forall i, j :: 0 <= i < j < |first| ==> Turn(first[i].event) < Turn(first[j].event)
    requires forall c :: c in more ==> exists k :: 1 <= k < |queue| && queue[k].fd == c.fd
    requires InQueueOrder(queue[1..], more)
    ensures InQueueOrder(queue, first + more) && Distinct(first + more)
  {
    var all := first + more;
    forall i, j | 0 <= i < j < |all| ensures Follows(queue, all[i], all[j]) && all[i] != all[j] {
      if i >= |first| {
        assert Follows(queue[1..], more[i - |first|], more[j - |first|]);
        FollowsLater(queue, all[i], all[j]);
      } else if j >= |first| {
        assert all[j] in more && all[i] in first;
      } else {
        assert all[i] in first && all[j] in first;
      }
    }
  }

  lemma FollowsLater(queue: seq<Watcher>, a: Change, b: Change)
    requires queue != [] && Follows(queue[1..], a, b)
    ensures Follows(queue, a, b)
  {
    if a.fd != b.fd {
      var rest := queue[1..];
      var m, n :| 0 <= m < n < |rest| && rest[m].fd == a.fd && rest[n].fd == b.fd;
      assert queue[m + 1].fd == a.fd && queue[n + 1].fd == b.fd;
    }
  }

  // ---------- The size of the table ----------

  /** Line 837, less the call: unsigned subtraction. */
  function TableLength(p: nat): nat
    requires p < TWO_32
  {
    (p + TWO_32 - 2) % TWO_32
  }

  /** The number of slots in line 838: unsigned addition.  uv__reallocf of no slots frees the table and yields NULL. */
  function AllocatedSlots(n: nat): nat {
    (n + 2) % TWO_32
  }

  /** The slots are enough for len watchers and the two behind them exactly up to 2^31 - 2 watchers. */
  lemma RoomExactly(len: nat, p: nat)
    requires 1 <= len <= INT_MAX && p < TWO_32 && IsNextPower(len + 2, p)
    ensures len + 2 <= AllocatedSlots(TableLength(p)) <==> len <= MAX_WATCHERS
    ensures if len <= MAX_WATCHERS then TableLength(p) + 2 == p && IsLeastPower(len + 2, p) else AllocatedSlots(TableLength(p)) == 0
  {
    if len > MAX_WATCHERS {
      NoTable(p);
    } else {
      assert p >= 3;
      LengthFits(p);
    }
  }

  lemma LengthFits(p: nat)
    requires 2 <= p < TWO_32
    ensures TableLength(p) == p - 2 && AllocatedSlots(p - 2) == p
  {
  }

  /** A descriptor of INT_MAX - 1: the table would have 2^32 - 2 entries, for which no slot is allocated. */
  lemma NoTable(p: nat)
    requires p < TWO_32 && IsNextPower(0x7FFF_FFFF + 2, p)
    ensures TableLength(p) == 0xFFFF_FFFE && AllocatedSlots(TableLength(p)) == 0
  {
  }

  /** The queue with the watcher in it: where it was, or at the end. */
  function Queued(queue: seq<Watcher>, w: Watcher): seq<Watcher> {
    if w in queue then queue else queue + [w]
  }

  lemma NotEmpty(a: Mask, b: Mask)
    requires b != {}
    ensures a + b != {}
  {
    assert b <= a + b;
  }
}
