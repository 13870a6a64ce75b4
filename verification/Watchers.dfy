/** Prepare, check and idle watchers (src/unix/loop-watcher.c:32-60) on the circular lists of src/queue.h.  The list
    changes under the pass while callbacks start and stop watchers. */
module Watchers {
  import opened Sequences
  import opened QueueRings
  import opened WatcherPass

  const UV_EINVAL: int := -22

  class WatcherLoop {
    /** loop-><name>_handles, and the local variable `queue` of uv__run_<name>. */
    const head: Node
    const queue: Node
    var activeHandles: int
    ghost const pool: set<Node>
    ghost var lists: Lists
    /** The active and referenced handles that are not among these watchers. */
    ghost const others: int

    ghost function Space(): set<Node> {
      pool + {head, queue}
    }

    ghost function Mem(): Memory
      reads Space()`next, Space()`prev
    {
      Snapshot(Space())
    }

    /** The two lists lie in memory as rings, and hold the active watchers. */
    ghost predicate Valid()
      reads this`lists, this`activeHandles, Space()`next, Space()`prev, pool`active, pool`ref, pool`hasCb
    {
      && head !in pool && queue !in pool && head != queue && Inv(lists)
      && Rings(Mem(), head, queue, lists)
      && Within(lists, pool)
      && Flagged()
    }

    /** ACTIVE watchers are those on a list, and they have a callback; those that are referenced too are counted. */
    ghost predicate Flagged()
      reads this`lists, this`activeHandles, pool`active, pool`ref, pool`hasCb
    {
      && (forall w :: w in pool ==> (w.active <==> Active(lists, w)) && (w.active ==> w.hasCb))
      && activeHandles == others + |Live()|
    }

    ghost function Live(): set<Node>
      reads pool`active, pool`ref
    {
      set w | w in pool && w.active && w.ref
    }

    /** uv_loop_init's QUEUE_INIT, for the watchers of `all`, none of which is active. */
    constructor (ghost all: set<Node>, held: int)
      requires forall w :: w in all ==> !w.active
      ensures Valid() && pool == all && lists == Lists([], []) && fresh(head) && fresh(queue) && activeHandles == others == held
    {
      head := new Node();
      queue := new Node();
      pool, lists, others, activeHandles := all, Lists([], []), held, held;
      new;
      assert Live() == {};
      assert [head] + [] == [head] && [queue] + [] == [queue];
    }

    method SetNext(x: Node, y: Node)
      requires x in Space()
      modifies x`next
      ensures Mem() == QueueRings.SetNext(old(Mem()), x, y)
    {
      x.next := y;
    }

    method SetPrev(x: Node, y: Node)
      requires x in Space()
      modifies x`prev
      ensures Mem() == QueueRings.SetPrev(old(Mem()), x, y)
    {
      x.prev := y;
    }

    /** QUEUE_REMOVE. */
    method QueueRemove(q: Node)
      requires q in Space() && q.prev in Space() && q.next in Space()
      modifies Space()`next, Space()`prev
      ensures Mem() == RemoveMemory(old(Mem()), q)
    {
      SetNext(q.prev, q.next);
      SetPrev(q.next, q.prev);
    }

    /** QUEUE_INSERT_TAIL. */
    method QueueInsertTail(h: Node, q: Node)
      requires h in Space() && q in Space() && h.prev in Space() && h != q
      modifies Space()`next, Space()`prev
      ensures Mem() == InsertTailMemory(old(Mem()), h, q)
    {
      SetNext(q, h);
      SetPrev(q, h.prev);
      SetNext(q.prev, q);
      SetPrev(h, q);
    }

    /** QUEUE_INSERT_HEAD. */
    method QueueInsertHead(h: Node, q: Node)
      requires h in Space() && q in Space() && h.next in Space() && h != q
      modifies Space()`next, Space()`prev
      ensures Mem() == InsertHeadMemory(old(Mem()), h, q)
    {
      SetNext(q, h.next);
      SetPrev(q, h);
      SetPrev(q.next, q);
      SetNext(h, q);
    }

    /** QUEUE_SPLIT. */
    method QueueSplit(h: Node, q: Node, n: Node)
      requires h in Space() && q in Space() && n in Space() && h.prev in Space() && q.prev in Space()
      requires h != n && q != n && h != q && q.prev != n
      modifies Space()`next, Space()`prev
      ensures Mem() == SplitMemory(old(Mem()), h, q, n)
    {
      SetPrev(n, h.prev);
      SetNext(n.prev, n);
      SetNext(n, q);
      SetPrev(h, q.prev);
      SetNext(h.prev, h);
      SetPrev(q, n);
    }

    /** QUEUE_INIT. */
    method QueueInit(q: Node)
      requires q in Space()
      modifies q`next, q`prev
      ensures Mem() == InitMemory(old(Mem()), q)
    {
      q.next := q;
      q.prev := q;
    }

    /** QUEUE_MOVE from the loop's list, over a local list that is empty. */
    method QueueMove()
      requires Valid() && lists.local == []
      modifies this`lists, Space()`next, Space()`prev
      ensures Valid() && lists == Moved(old(lists))
    {
      MoveLinks();
      Relist();
    }

    method MoveLinks()
      requires head != queue && Rings(Mem(), head, queue, lists) && lists.local == []
      modifies Space()`next, Space()`prev
      ensures Rings(Mem(), head, queue, Moved(lists))
    {
      MovedRings(Mem(), head, queue, lists);
      if head.next == head {
        QueueInit(queue);
      } else {
        QueueSplit(head, head.next, queue);
      }
    }

    ghost method Relist()
      requires Inv(lists) && lists.local == [] && Within(lists, pool) && Flagged()
      modifies this`lists
      ensures lists == Moved(old(lists)) && Inv(lists) && Within(lists, pool) && Flagged() && Mem() == old(Mem())
    {
      lists := Moved(lists);
    }

    method PutOn(w: Node)
      requires Rings(Mem(), head, queue, lists) && w in pool && w != head && w != queue && !Active(lists, w)
      modifies Space()`next, Space()`prev
      ensures Rings(Mem(), head, queue, Exec(lists, Start(w, true)))
    {
      PushedRings(Mem(), head, queue, lists, w);
      QueueInsertHead(head, w);
    }

    method TakeOff(w: Node)
      requires Rings(Mem(), head, queue, lists) && Inv(lists) && Active(lists, w)
      modifies Space()`next, Space()`prev
      ensures Rings(Mem(), head, queue, Exec(lists, Stop(w)))
    {
      RemovedRings(Mem(), head, queue, lists, w);
      QueueRemove(w);
    }

    /** Lines 36 and 37: uv__handle_start of a handle that is not active. */
    method Activate(w: Node)
      requires Flagged() && Inv(lists) && w in pool && !Active(lists, w)
      modifies this`lists, this`activeHandles, w`active, w`hasCb
      ensures Flagged() && lists == Exec(old(lists), Start(w, true)) && Mem() == old(Mem())
      ensures activeHandles == old(activeHandles) + if w.ref then 1 else 0
    {
      ghost var m := Mem();
      w.hasCb := true;
      assert Mem() == m;
      HandleStart(w);
      Apply(Start(w, true));
    }

    /** Line 44: uv__handle_stop of an active handle. */
    method Deactivate(w: Node)
      requires Flagged() && Inv(lists) && w in pool && Active(lists, w)
      modifies this`lists, this`activeHandles, w`active
      ensures Flagged() && lists == Exec(old(lists), Stop(w)) && Mem() == old(Mem()) && !w.active
      ensures activeHandles == old(activeHandles) - if w.ref then 1 else 0
    {
      HandleStop(w);
      Apply(Stop(w));
    }

    /** uv__handle_start of a handle that is not active. */
    method HandleStart(w: Node)
      requires w in pool && !w.active && activeHandles == others + |Live()|
      modifies this`activeHandles, w`active
      ensures w.active && activeHandles == others + |Live()| && activeHandles == old(activeHandles) + if w.ref then 1 else 0
      ensures Mem() == old(Mem())
    {
      ghost var live := Live();
      w.active := true;
      if w.ref {
        activeHandles := activeHandles + 1;
      }
      LiveChange(live, w);
    }

    /** uv__handle_stop of an active handle. */
    method HandleStop(w: Node)
      requires w in pool && w.active && activeHandles == others + |Live()|
      modifies this`activeHandles, w`active
      ensures !w.active && activeHandles == others + |Live()| && activeHandles == old(activeHandles) - if w.ref then 1 else 0
      ensures Mem() == old(Mem())
    {
      ghost var live := Live();
      w.active := false;
      if w.ref {
        activeHandles := activeHandles - 1;
      }
      LiveChange(live, w);
    }

    /** The lists follow the flags, which fit them but for the watcher of the command. */
    ghost method Apply(c: Command)
      requires Inv(lists) && c.w in pool && (c.w.active ==> c.w.hasCb) && (c.w.active <==> c.Start?) && (c.Start? ==> c.cb)
      requires forall v :: v in pool && v != c.w ==> (v.active <==> Active(lists, v)) && (v.active ==> v.hasCb)
      requires activeHandles == others + |Live()|
      modifies this`lists
      ensures Flagged() && lists == Exec(old(lists), c) && Mem() == old(Mem())
    {
      forall v | v in pool ensures (v.active <==> Active(Exec(lists, c), v)) && (v.active ==> v.hasCb) {
        ExecOn(lists, c, v);
      }
      lists := Exec(lists, c);
    }

    /** After w alone has changed. */
    lemma LiveChange(before: set<Node>, w: Node)
      requires before <= pool && w in pool && forall v :: v in pool && v != w ==> (v in before <==> v.active && v.ref)
      ensures |Live()| == |before| - (if w in before then 1 else 0) + (if w.active && w.ref then 1 else 0)
    {
      OneChanged(before, Live(), w);
    }

    /** uv_<name>_start. */
    method WatcherStart(w: Node, cb: bool) returns (err: int)
      requires Valid() && w in pool
      modifies this`lists, this`activeHandles, Space()`next, Space()`prev, w`active, w`hasCb
      ensures Valid() && lists == Exec(old(lists), Start(w, cb))
      ensures lists.local == old(lists.local) && lists.main == (if old(w.active) || !cb then [] else [w]) + old(lists.main)
      ensures w.active == (old(w.active) || cb)
      ensures activeHandles == old(activeHandles) + if !old(w.active) && cb && w.ref then 1 else 0
      ensures err == if !old(w.active) && !cb then UV_EINVAL else 0
    {
      if w.active {
        return 0;
      }
      if !cb {
        return UV_EINVAL;
      }
      Enlist(w);
      return 0;
    }

    /** Lines 35 to 37. */
    method Enlist(w: Node)
      requires Valid() && w in pool && !w.active
      modifies this`lists, this`activeHandles, Space()`next, Space()`prev, w`active, w`hasCb
      ensures Valid() && lists == Exec(old(lists), Start(w, true))
      ensures activeHandles == old(activeHandles) + if w.ref then 1 else 0
    {
      ExecWithin(lists, Start(w, true), pool);
      PutOn(w);
      Activate(w);
    }

    /** uv_<name>_stop. */
    method WatcherStop(w: Node)
      requires Valid() && w in pool
      modifies this`lists, this`activeHandles, Space()`next, Space()`prev, w`active
      ensures Valid() && lists == Exec(old(lists), Stop(w)) && !w.active
      ensures activeHandles == old(activeHandles) - if old(w.active) && w.ref then 1 else 0
    {
      if !w.active {
        StopIdle(lists, w);
        return;
      }
      Unlist(w);
    }

    /** Lines 43 and 44. */
    method Unlist(w: Node)
      requires Valid() && w in pool && w.active
      modifies this`lists, this`activeHandles, Space()`next, Space()`prev, w`active
      ensures Valid() && lists == Exec(old(lists), Stop(w)) && !w.active
      ensures activeHandles == old(activeHandles) - if w.ref then 1 else 0
    {
      ExecWithin(lists, Stop(w), pool);
      TakeOff(w);
      Deactivate(w);
    }

    /** Lines 54 to 57. */
    method TakeFirst() returns (q: Node)
      requires Valid() && lists.local != []
      modifies this`lists, Space()`next, Space()`prev
      ensures Valid() && q == old(lists.local[0]) && q in pool && q.hasCb && lists == Taken(old(lists))
    {
      FirstOf(Mem(), queue, lists.local);
      q := queue.next;
      assert q in lists.local && Active(lists, q);
      Shift(q);
      Retake();
    }

    /** Lines 56 and 57. */
    method Shift(q: Node)
      requires Rings(Mem(), head, queue, lists) && Inv(lists) && lists.local != [] && q == lists.local[0]
      modifies Space()`next, Space()`prev
      ensures Rings(Mem(), head, queue, Taken(lists))
    {
      TakenRings(Mem(), head, queue, lists);
      QueueRemove(q);
      QueueInsertTail(head, q);
    }

    ghost method Retake()
      requires Inv(lists) && lists.local != [] && Flagged() && Within(lists, pool)
      modifies this`lists
      ensures lists == Taken(old(lists)) && Inv(lists) && Flagged() && Within(lists, pool) && Mem() == old(Mem())
    {
      TakeKeeps(lists);
      lists := Taken(lists);
    }

    method DoCommand(c: Command)
      requires Valid() && c.w in pool
      modifies this`lists, this`activeHandles, Space()`next, Space()`prev, pool`active, pool`hasCb
      ensures Valid() && lists == Exec(old(lists), c)
    {
      match c
      case Start(w, cb) => var _ := WatcherStart(w, cb);
      case Stop(w) => WatcherStop(w);
    }

    /** A callback. */
    method Callback(cs: seq<Command>)
      requires Valid() && forall c :: c in cs ==> c.w in pool
      modifies this`lists, this`activeHandles, Space()`next, Space()`prev, pool`active, pool`hasCb
      ensures Valid() && lists == ExecAll(old(lists), cs)
    {
      for n := 0 to |cs|
        invariant Valid() && ExecAll(lists, cs[n..]) == ExecAll(old(lists), cs)
      {
        assert cs[n..][0] == cs[n] && cs[n..][1..] == cs[n + 1..];
        DoCommand(cs[n]);
      }
    }

    /** uv__run_<name>; the k-th callback does what Acts(script, k) says.  It ends, and calls whom Fired says. */
    method Run(script: seq<seq<Command>>) returns (fired: seq<Node>)
      requires Valid() && lists.local == [] && InPool(script, pool)
      modifies this`lists, this`activeHandles, Space()`next, Space()`prev, pool`active, pool`hasCb
      ensures Valid() && lists == Drain(Moved(old(lists)), script, 0) && lists.local == []
      ensures fired == Fired(Moved(old(lists)), script, 0)
    {
      QueueMove();
      fired := DrainQueue(script);
    }

    /** Lines 53 to 59. */
    method DrainQueue(script: seq<seq<Command>>) returns (fired: seq<Node>)
      requires Valid() && InPool(script, pool)
      modifies this`lists, this`activeHandles, Space()`next, Space()`prev, pool`active, pool`hasCb
      ensures Valid() && lists == Drain(old(lists), script, 0) && lists.local == [] && fired == Fired(old(lists), script, 0)
    {
      ghost var s := lists;
      fired := [];
      QueueEmpty();
      while queue.next != queue
        invariant Valid() && (queue.next == queue <==> lists.local == []) && SoFar(s, lists, script, fired)
        decreases |lists.local|
      {
        fired := OneCall(s, fired, script);
        QueueEmpty();
      }
      assert fired + [] == fired;
    }

    /** QUEUE_EMPTY of the local list. */
    lemma QueueEmpty()
      requires Valid()
      ensures queue.next == queue <==> lists.local == []
    {
      FirstOf(Mem(), queue, lists.local);
    }

    /** One turn of the loop. */
    method OneCall(ghost s: Lists, before: seq<Node>, script: seq<seq<Command>>) returns (fired: seq<Node>)
      requires Valid() && lists.local != [] && InPool(script, pool) && SoFar(s, lists, script, before)
      modifies this`lists, this`activeHandles, Space()`next, Space()`prev, pool`active, pool`hasCb
      ensures Valid() && SoFar(s, lists, script, fired) && |lists.local| < |old(lists).local|
    {
      CallOnce(s, lists, script, before);
      var q := TakeFirst();
      Callback(Acts(script, |before|));
      fired := before + [q];
    }
  }

  ghost predicate Within(s: Lists, pool: set<Node>) {
    (forall w :: w in s.main ==> w in pool) && (forall w :: w in s.local ==> w in pool)
  }

  lemma ExecWithin(s: Lists, c: Command, pool: set<Node>)
    requires Inv(s) && Within(s, pool) && c.w in pool
    ensures Inv(Exec(s, c)) && Within(Exec(s, c), pool)
  {
    ExecKeeps(s, c);
    WithoutIs(s.main, c.w);
    WithoutIs(s.local, c.w);
  }

  /** Both lists lie in memory, apart from each other. */
  ghost predicate Rings(m: Memory, head: Node, queue: Node, s: Lists) {
    Ring(m, [head] + s.main) && Ring(m, [queue] + s.local) && Apart([head] + s.main, [queue] + s.local)
  }

  /** QUEUE_MOVE. */
  ghost function MoveMemory(m: Memory, head: Node, queue: Node): Memory
    requires head in m && m[head].next in m
  {
    var q := m[head].next;
    if q == head then InitMemory(m, queue)
    else if queue in m && m[head].prev in m && m[q].prev in m && head != queue && q != queue && m[q].prev != queue
    then SplitMemory(m, head, q, queue)
    else m
  }

  lemma MovedEmpty(m: Memory, head: Node, queue: Node)
    requires Ring(m, [head]) && head != queue && queue in m
    ensures Ring(InitMemory(m, queue), [head]) && Ring(InitMemory(m, queue), [queue])
  {
    assert LinkedAt(m, [head], 0);
    RingFrame(m, InitMemory(m, queue), [head]);
    InitRing(m, queue);
  }

  lemma MovedFull(m: Memory, head: Node, queue: Node, main: seq<Node>)
    requires main != [] && Ring(m, [head] + main) && queue !in [head] + main && queue in m
    ensures var q := main[0];
            && head in m && m[head].next == q && q in m && m[head].prev in m && m[q].prev in m && head != q && m[q].prev != queue && q != queue
            && Ring(SplitMemory(m, head, q, queue), [head]) && Ring(SplitMemory(m, head, q, queue), [queue] + main)
  {
    var c := [head] + main;
    assert LinkedAt(m, c, 0) && c[1] in c;
    SplitRings(m, c, 1, queue);
    assert c[..1] == [head] && c[1..] == main;
  }

  /** What QUEUE_MOVE follows: the first member, the last, and the head. */
  lemma HeadLinks(m: Memory, h: Node, a: seq<Node>)
    requires Ring(m, [h] + a)
    ensures h in m && m[h].next in m && m[h].prev in m && m[m[h].next].prev == h
    ensures m[h].next == (if a == [] then h else a[0]) && (m[h].next == h <==> a == [])
  {
    var c := [h] + a;
    assert LinkedAt(m, c, 0) && LinkedAt(m, c, |c| - 1);
    assert a != [] ==> c[1] == a[0] && c[0] != c[1];
  }

  lemma MovedRings(m: Memory, head: Node, queue: Node, s: Lists)
    requires Rings(m, head, queue, s) && s.local == [] && head != queue
    ensures head in m && queue in m && m[head].next in m && m[head].prev in m && m[m[head].next].prev == head
    ensures (m[head].next == head <==> s.main == []) && m[head].next != queue
    ensures Rings(MoveMemory(m, head, queue), head, queue, Moved(s))
  {
    var c := [head] + s.main;
    HeadLinks(m, head, s.main);
    HeadLinks(m, queue, []);
    assert [queue] + s.local == [queue] == [queue] + [] && [head] + [] == [head] && queue in [queue] && queue !in c;
    if s.main == [] {
      assert c == [head];
      MovedEmpty(m, head, queue);
    } else {
      assert s.main[0] in s.main && s.main[0] in c;
      MovedFull(m, head, queue, s.main);
      assert forall x :: x in [queue] + s.main ==> x == queue || x in s.main;
      HeadApart(head, s.main);
    }
  }

  lemma HeadApart(h: Node, a: seq<Node>)
    ensures Distinct([h] + a) ==> h !in a
  {
    var c := [h] + a;
    if Distinct(c) {
      forall i | 0 <= i < |a| ensures a[i] != h {
        assert c[0] != c[i + 1];
      }
    }
  }

  // ---------- One watcher off a list, or onto it ----------

  lemma RemoveFromRing(m: Memory, h: Node, a: seq<Node>, w: Node)
    requires Ring(m, [h] + a) && w in a && Distinct(a)
    ensures w in m && m[w].prev in m && m[w].next in m && Ring(RemoveMemory(m, w), [h] + Without(a, w))
  {
    var c := [h] + a;
    var k :| 0 <= k < |a| && a[k] == w;
    assert c[k + 1] == w;
    WithoutAt(a, k);
    RemoveRing(m, c, k + 1);
    Slices(h, a, k);
  }

  lemma Slices(h: Node, a: seq<Node>, k: nat)
    requires k < |a|
    ensures ([h] + a)[..k + 1] + ([h] + a)[k + 2..] == [h] + (a[..k] + a[k + 1..])
  {
    var c := [h] + a;
    assert c[..k + 1] == [h] + a[..k] && c[k + 2..] == a[k + 1..];
  }

  lemma StopIdle(s: Lists, w: Node)
    requires !Active(s, w)
    ensures Exec(s, Stop(w)) == s
  {
    WithoutNone(s.main, w);
    WithoutNone(s.local, w);
  }

  lemma TwoChanged(m: Memory, w: Node, x: Node)
    requires w in m && m[w].prev in m && m[w].next in m && x in m && x != m[w].prev && x != m[w].next && x != w
    ensures x in RemoveMemory(m, w) && RemoveMemory(m, w)[x] == m[x]
  {
  }

  lemma RemoveElsewhere(m: Memory, c: seq<Node>, d: seq<Node>, w: Node)
    requires Ring(m, c) && Ring(m, d) && Apart(c, d) && w in c
    ensures w in m && m[w].prev in m && m[w].next in m && Ring(RemoveMemory(m, w), d)
  {
    RingIn(m, c, w);
    var m', p, n := RemoveMemory(m, w), m[w].prev, m[w].next;
    forall x | x in d ensures x in m' && x in m && m'[x] == m[x] {
      assert p in c && n in c && x !in c;
      RingIn(m, d, x);
      TwoChanged(m, w, x);
    }
    RingFrame(m, m', d);
  }

  /** A member of one ring is taken off, and the other ring does not notice. */
  lemma RemoveMember(m: Memory, h: Node, a: seq<Node>, d: seq<Node>, w: Node)
    requires Ring(m, [h] + a) && Ring(m, d) && Apart([h] + a, d) && w in a && Distinct(a)
    ensures w in m && m[w].prev in m && m[w].next in m
    ensures Ring(RemoveMemory(m, w), [h] + Without(a, w)) && Ring(RemoveMemory(m, w), d)
  {
    RemoveFromRing(m, h, a, w);
    RemoveElsewhere(m, [h] + a, d, w);
  }

  lemma RemovedRings(m: Memory, head: Node, queue: Node, s: Lists, w: Node)
    requires Rings(m, head, queue, s) && Inv(s) && Active(s, w)
    ensures w in m && m[w].prev in m && m[w].next in m
    ensures Rings(RemoveMemory(m, w), head, queue, Exec(s, Stop(w)))
  {
    var c, d, s' := [head] + s.main, [queue] + s.local, Lists(Without(s.main, w), Without(s.local, w));
    WithoutIs(s.main, w);
    WithoutIs(s.local, w);
    assert Apart(d, c);
    if w in s.main {
      RemoveMember(m, head, s.main, d, w);
      WithoutNone(s.local, w);
    } else {
      RemoveMember(m, queue, s.local, c, w);
      WithoutNone(s.main, w);
    }
    StillApart(head, queue, s, s');
  }

  lemma StillApart(head: Node, queue: Node, s: Lists, s': Lists)
    requires Apart([head] + s.main, [queue] + s.local)
    requires (forall x :: x in s'.main ==> x in s.main) && (forall x :: x in s'.local ==> x in s.local)
    ensures Apart([head] + s'.main, [queue] + s'.local)
  {
    forall x | x in [head] + s'.main ensures x !in [queue] + s'.local {
      assert x in [head] + s.main;
      assert x in [queue] + s'.local ==> x in [queue] + s.local;
    }
  }

  ghost predicate InPool(script: seq<seq<Command>>, pool: set<Node>) {
    forall cs, c :: cs in script && c in cs ==> c.w in pool
  }

  /** From s, the pass has called `fired` and come to e. */
  ghost predicate SoFar(s: Lists, e: Lists, script: seq<seq<Command>>, fired: seq<Node>) {
    Drain(s, script, 0) == Drain(e, script, |fired|) && Fired(s, script, 0) == fired + Fired(e, script, |fired|)
  }

  lemma CallOnce(s: Lists, e: Lists, script: seq<seq<Command>>, fired: seq<Node>)
    requires SoFar(s, e, script, fired) && e.local != []
    ensures SoFar(s, Turn(e, script, |fired|), script, fired + [e.local[0]])
  {
    var rest := Fired(Turn(e, script, |fired|), script, |fired| + 1);
    assert fired + ([e.local[0]] + rest) == (fired + [e.local[0]]) + rest;
  }

  lemma FirstOf(m: Memory, queue: Node, local: seq<Node>)
    requires Ring(m, [queue] + local)
    ensures queue in m && (m[queue].next == queue <==> local == []) && (local != [] ==> m[queue].next == local[0])
  {
    HeadLinks(m, queue, local);
  }

  lemma HeadElsewhere(m: Memory, c: seq<Node>, d: seq<Node>, q: Node)
    requires Ring(m, c) && Ring(m, d) && Apart(c, d) && q in m && q !in c && q !in d
    ensures c[0] in m && m[c[0]].next in m && Ring(InsertHeadMemory(m, c[0], q), d)
  {
    RingIn(m, c, c[0]);
    var m' := InsertHeadMemory(m, c[0], q);
    forall x | x in d ensures x in m' && x in m && m'[x] == m[x] {
      assert x !in c;
      RingIn(m, d, x);
    }
    RingFrame(m, m', d);
  }

  lemma TailElsewhere(m: Memory, c: seq<Node>, d: seq<Node>, q: Node)
    requires Ring(m, c) && Ring(m, d) && Apart(c, d) && q in m && q !in c && q !in d
    ensures c[0] in m && m[c[0]].prev in m && Ring(InsertTailMemory(m, c[0], q), d)
  {
    RingIn(m, c, c[0]);
    var m' := InsertTailMemory(m, c[0], q);
    forall x | x in d ensures x in m' && x in m && m'[x] == m[x] {
      assert x !in c;
      RingIn(m, d, x);
    }
    RingFrame(m, m', d);
  }

  lemma PushedRings(m: Memory, head: Node, queue: Node, s: Lists, w: Node)
    requires Rings(m, head, queue, s) && w in m && w != head && w != queue && !Active(s, w)
    ensures head in m && m[head].next in m
    ensures Rings(InsertHeadMemory(m, head, w), head, queue, s.(main := [w] + s.main))
  {
    var c, d, c' := [head] + s.main, [queue] + s.local, [head] + ([w] + s.main);
    InsertHeadRing(m, c, w);
    HeadElsewhere(m, c, d, w);
    assert [c[0], w] + c[1..] == c';
    assert forall x :: x in c' ==> x == w || x in c;
  }

  /** The first member of the local list is taken off, and put at the end of the loop's list. */
  lemma TakenRings(m: Memory, head: Node, queue: Node, s: Lists)
    requires Rings(m, head, queue, s) && Inv(s) && s.local != []
    ensures var q := s.local[0];
            && q in m && m[q].prev in m && m[q].next in m
            && var m1 := RemoveMemory(m, q);
            && head in m1 && q in m1 && m1[head].prev in m1 && head != q
            && Rings(InsertTailMemory(m1, head, q), head, queue, Taken(s))
  {
    var q, rest, c, d := s.local[0], s.local[1..], [head] + s.main, [queue] + s.local;
    assert Apart(d, c) && q in s.local && q in d;
    RemoveMember(m, queue, s.local, c, q);
    WithoutAt(s.local, 0);
    assert s.local[..0] + rest == rest;
    HeadLinks(RemoveMemory(m, q), head, s.main);
    OneLess(queue, s.local);
    AppendedRings(RemoveMemory(m, q), head, queue, s.main, rest, q);
  }

  lemma AppendedRings(m: Memory, head: Node, queue: Node, main: seq<Node>, rest: seq<Node>, q: Node)
    requires Ring(m, [head] + main) && Ring(m, [queue] + rest) && Apart([head] + main, [queue] + rest) && q in m
    requires q !in [head] + main && q !in [queue] + rest && head in m && m[head].prev in m
    ensures Rings(InsertTailMemory(m, head, q), head, queue, Lists(main + [q], rest))
  {
    var c, d := [head] + main, [queue] + rest;
    InsertTailRing(m, c, q);
    TailElsewhere(m, c, d, q);
    Assoc([head], main, [q]);
    assert forall x :: x in c + [q] ==> x in c || x == q;
  }

  lemma OneLess(queue: Node, local: seq<Node>)
    requires local != []
    ensures (forall x :: x in [queue] + local[1..] ==> x in [queue] + local)
    ensures Distinct([queue] + local) ==> local[0] !in [queue] + local[1..]
  {
    var d, d' := [queue] + local, [queue] + local[1..];
    assert d[1] == local[0] && forall i :: 1 <= i < |d'| ==> d'[i] == d[i + 1];
    forall x | x in d' ensures x in d {
      var i :| 0 <= i < |d'| && d'[i] == x;
      assert i > 0 ==> d[i + 1] == x;
    }
    if Distinct(d) {
      forall i | 0 <= i < |d'| ensures d'[i] != local[0] {
        assert d[1] != d[if i == 0 then 0 else i + 1];
      }
    }
  }
}
