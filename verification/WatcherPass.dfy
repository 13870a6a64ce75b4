/** One uv__run_<name> pass over prepare, check or idle watchers (src/unix/loop-watcher.c:48-60), on values: the list of
    the loop, the local list of the pass, and callbacks that start and stop watchers as they like. */
module WatcherPass {
  import opened Sequences
  import opened QueueRings

  /** What a callback may do to a watcher; cb tells whether a callback is passed to uv_<name>_start. */
  datatype Command = Start(w: Node, cb: bool) | Stop(w: Node)

  /** The members of loop-><name>_handles and of the local `queue`. */
  datatype Lists = Lists(main: seq<Node>, local: seq<Node>)

  predicate Active(s: Lists, w: Node) {
    w in s.main || w in s.local
  }

  ghost predicate Inv(s: Lists) {
    Distinct(s.main) && Distinct(s.local) && Apart(s.main, s.local)
  }

  function Exec(s: Lists, c: Command): Lists {
    match c
    case Start(w, cb) => if Active(s, w) || !cb then s else s.(main := [w] + s.main)
    case Stop(w) => Lists(Without(s.main, w), Without(s.local, w))
  }

  function ExecAll(s: Lists, cs: seq<Command>): Lists
    decreases |cs|
  {
    if cs == [] then s else ExecAll(Exec(s, cs[0]), cs[1..])
  }

  /** What the k-th callback does; those beyond the script do nothing. */
  function Acts(script: seq<seq<Command>>, k: nat): seq<Command> {
    if k < |script| then script[k] else []
  }

  function Taken(s: Lists): Lists
    requires s.local != []
  {
    Lists(s.main + [s.local[0]], s.local[1..])
  }

  lemma {:induction false} ExecShrinks(s: Lists, cs: seq<Command>)
    ensures |ExecAll(s, cs).local| <= |s.local|
    decreases |cs|
  {
    if cs != [] {
      ExecShrinks(Exec(s, cs[0]), cs[1..]);
    }
  }

  /** The state after the turn of the first watcher in the local list, k callbacks having run before. */
  function Turn(s: Lists, script: seq<seq<Command>>, k: nat): (r: Lists)
    requires s.local != []
    ensures |r.local| < |s.local|
  {
    ExecShrinks(Taken(s), Acts(script, k));
    ExecAll(Taken(s), Acts(script, k))
  }

  /** The loop at lines 53 to 59: it ends, because callbacks never add to the local list. */
  function Drain(s: Lists, script: seq<seq<Command>>, k: nat): Lists
    decreases |s.local|
  {
    if s.local == [] then s else Drain(Turn(s, script, k), script, k + 1)
  }

  /** The watchers called, in order. */
  function Fired(s: Lists, script: seq<seq<Command>>, k: nat): seq<Node>
    decreases |s.local|
  {
    if s.local == [] then [] else [s.local[0]] + Fired(Turn(s, script, k), script, k + 1)
  }

  /** QUEUE_MOVE. */
  function Moved(s: Lists): Lists {
    Lists([], s.main)
  }

  // ---------- Invariant ----------

  lemma Pushed(q: seq<Node>, r: seq<Node>, w: Node)
    requires Distinct(q) && Apart(q, r) && w !in q && w !in r
    ensures Distinct([w] + q) && Apart([w] + q, r) && forall x :: x in [w] + q <==> x == w || x in q
  {
    var p := [w] + q;
    forall i, j | 0 <= i < j < |p| ensures p[i] != p[j] {
      assert p[j] == q[j - 1];
    }
    assert forall x :: x in p <==> x == w || x in q;
  }

  lemma ExecKeeps(s: Lists, c: Command)
    requires Inv(s)
    ensures Inv(Exec(s, c))
  {
    WithoutIs(s.main, c.w);
    WithoutDistinct(s.main, c.w);
    WithoutIs(s.local, c.w);
    WithoutDistinct(s.local, c.w);
    if c.Start? && !Active(s, c.w) && c.cb {
      Pushed(s.main, s.local, c.w);
    } else if c.Stop? {
      var q, r := Without(s.main, c.w), Without(s.local, c.w);
      assert Apart(q, r);
      assert Exec(s, c) == Lists(q, r);
    }
  }

  /** Who is on which list after a command. */
  lemma ExecOn(s: Lists, c: Command, w: Node)
    requires Inv(s)
    ensures w in Exec(s, c).local <==> w in s.local && c != Stop(w)
    ensures Active(Exec(s, c), w) <==> (Active(s, w) && c != Stop(w)) || c == Start(w, true)
  {
    WithoutIs(s.main, c.w);
    WithoutIs(s.local, c.w);
  }

  lemma TakeKeeps(s: Lists)
    requires Inv(s) && s.local != []
    ensures Inv(Taken(s)) && forall w :: Active(Taken(s), w) <==> Active(s, w)
    ensures s.local[0] !in s.local[1..] && forall w :: w in s.local <==> w == s.local[0] || w in s.local[1..]
  {
    TailDistinct(s.local);
    assert s.local[0] in s.local && s.local[0] !in s.main;
    var q := s.main + [s.local[0]];
    forall i, j | 0 <= i < j < |q| ensures q[i] != q[j] {
      assert q[i] == s.main[i] && q[i] in s.main;
    }
  }

  predicate Stops(cs: seq<Command>, w: Node) {
    Stop(w) in cs
  }

  lemma {:induction false} ExecAllKeeps(s: Lists, cs: seq<Command>)
    requires Inv(s)
    ensures Inv(ExecAll(s, cs)) && forall w :: w in ExecAll(s, cs).local <==> w in s.local && !Stops(cs, w)
    decreases |cs|
  {
    if cs != [] {
      ExecKeeps(s, cs[0]);
      ExecAllKeeps(Exec(s, cs[0]), cs[1..]);
      assert cs == [cs[0]] + cs[1..];
      forall w ensures w in Exec(s, cs[0]).local <==> w in s.local && cs[0] != Stop(w) {
        ExecOn(s, cs[0], w);
      }
    }
  }

  lemma TurnKeeps(s: Lists, script: seq<seq<Command>>, k: nat)
    requires Inv(s) && s.local != []
    ensures Inv(Turn(s, script, k))
    ensures forall w :: w in Turn(s, script, k).local <==> w in s.local && w != s.local[0] && !Stops(Acts(script, k), w)
  {
    TakeKeeps(s);
    ExecAllKeeps(Taken(s), Acts(script, k));
  }

  lemma {:induction false} DrainKeeps(s: Lists, script: seq<seq<Command>>, k: nat)
    requires Inv(s)
    ensures Inv(Drain(s, script, k)) && Drain(s, script, k).local == []
    decreases |s.local|
  {
    if s.local != [] {
      TurnKeeps(s, script, k);
      DrainKeeps(Turn(s, script, k), script, k + 1);
    }
  }

  // ---------- Who is called ----------

  /** Only watchers that were on the list at the start of the pass are called, and each at most once. */
  lemma {:induction false} CalledAtMostOnce(s: Lists, script: seq<seq<Command>>, k: nat)
    requires Inv(s)
    ensures Distinct(Fired(s, script, k)) && forall w :: w in Fired(s, script, k) ==> w in s.local
    decreases |s.local|
  {
    if s.local != [] {
      TurnKeeps(s, script, k);
      CalledAtMostOnce(Turn(s, script, k), script, k + 1);
      var f, rest := Fired(s, script, k), Fired(Turn(s, script, k), script, k + 1);
      forall i, j | 0 <= i < j < |f| ensures f[i] != f[j] {
        assert f[j] == rest[j - 1] && f[j] in rest;
        assert i > 0 ==> f[i] == rest[i - 1];
      }
    }
  }

  /** The j-th callback of the pass stops w, before w had its turn. */
  predicate StoppedAt(fired: seq<Node>, script: seq<seq<Command>>, k: nat, w: Node, j: nat) {
    j < |fired| && w !in fired[..j + 1] && Stops(Acts(script, k + j), w)
  }

  ghost predicate StoppedFirst(fired: seq<Node>, script: seq<seq<Command>>, k: nat, w: Node) {
    exists j: nat :: StoppedAt(fired, script, k, w, j)
  }

  lemma StoppedShift(first: Node, fired: seq<Node>, script: seq<seq<Command>>, k: nat, w: Node)
    requires w != first
    ensures StoppedFirst([first] + fired, script, k, w) <==> Stops(Acts(script, k), w) || StoppedFirst(fired, script, k + 1, w)
  {
    var all := [first] + fired;
    if StoppedFirst(all, script, k, w) {
      var j: nat :| StoppedAt(all, script, k, w, j);
      if j > 0 {
        assert all[..j + 1] == [first] + fired[..j];
        assert StoppedAt(fired, script, k + 1, w, j - 1);
      }
    }
    if Stops(Acts(script, k), w) {
      assert all[..1] == [first];
      assert StoppedAt(all, script, k, w, 0);
    }
    if StoppedFirst(fired, script, k + 1, w) {
      var j: nat :| StoppedAt(fired, script, k + 1, w, j);
      assert all[..j + 2] == [first] + fired[..j + 1];
      assert StoppedAt(all, script, k, w, j + 1);
    }
  }

  lemma FirstIsCalled(first: Node, fired: seq<Node>, script: seq<seq<Command>>, k: nat)
    ensures !StoppedFirst([first] + fired, script, k, first)
  {
    var all := [first] + fired;
    forall j: nat ensures !StoppedAt(all, script, k, first, j) {
      if j < |all| {
        assert all[..j + 1][0] == first;
      }
    }
  }

  /** A watcher that was on the list is called in the pass unless a callback stops it before its turn, and only then. */
  lemma {:induction false} CalledUnlessStopped(s: Lists, script: seq<seq<Command>>, k: nat, w: Node)
    requires Inv(s) && w in s.local
    ensures w in Fired(s, script, k) <==> !StoppedFirst(Fired(s, script, k), script, k, w)
    decreases |s.local|
  {
    var first, s', rest := s.local[0], Turn(s, script, k), Fired(Turn(s, script, k), script, k + 1);
    TurnKeeps(s, script, k);
    if w == first {
      FirstIsCalled(first, rest, script, k);
    } else {
      StoppedShift(first, rest, script, k, w);
      if Stops(Acts(script, k), w) {
        CalledAtMostOnce(s', script, k + 1);
      } else {
        CalledUnlessStopped(s', script, k + 1, w);
      }
    }
  }

  /** The pass as a whole: each watcher that is active when it starts is called exactly once, unless a callback stops
      it before its turn; a watcher started during the pass is not called in it, even if it was stopped in it. */
  lemma PassIsFair(s: Lists, script: seq<seq<Command>>, w: Node)
    requires Inv(s) && s.local == []
    ensures var fired := Fired(Moved(s), script, 0);
            && Distinct(fired) && (w in fired <==> Active(s, w) && !StoppedFirst(fired, script, 0, w))
            && Inv(Drain(Moved(s), script, 0)) && Drain(Moved(s), script, 0).local == []
  {
    CalledAtMostOnce(Moved(s), script, 0);
    DrainKeeps(Moved(s), script, 0);
    if w in s.main {
      CalledUnlessStopped(Moved(s), script, 0, w);
    }
  }

  /** A pass without interference goes through the list in order, and leaves it as it was. */
  lemma {:induction false} QuietPass(s: Lists, k: nat)
    ensures Fired(s, [], k) == s.local && Drain(s, [], k).main == s.main + s.local
    decreases |s.local|
  {
    if s.local == [] {
      assert s.main + [] == s.main;
    } else {
      QuietTurn(s, k, []);
      QuietPass(Taken(s), k + 1);
      assert s.local == [s.local[0]] + s.local[1..];
      Assoc(s.main, [s.local[0]], s.local[1..]);
    }
  }

  lemma QuietTurn(s: Lists, k: nat, script: seq<seq<Command>>)
    requires s.local != [] && script == []
    ensures Turn(s, script, k) == Taken(s)
  {
  }
}
