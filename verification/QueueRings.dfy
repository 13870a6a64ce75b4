/** The circular lists of src/queue.h: every macro as a change of memory, and what it does to the rings of nodes. */
module QueueRings {
  import opened Sequences

  /** A QUEUE, and the handle it is part of unless it is the head of a list. */
  class Node {
    var next: Node
    var prev: Node
    var active: bool
    var ref: bool
    var hasCb: bool

    /** QUEUE_INIT of a node of its own. */
    constructor ()
      ensures next == this && prev == this && !active && ref && !hasCb
    {
      next, prev := this, this;
      active, ref, hasCb := false, true, false;
    }
  }

  datatype Links = Links(next: Node, prev: Node)

  type Memory = map<Node, Links>

  ghost function Snapshot(nodes: set<Node>): (m: Memory)
    reads nodes`next, nodes`prev
    ensures m.Keys == nodes
  {
    map n | n in nodes :: Links(n.next, n.prev)
  }

  ghost predicate Linked(m: Memory, x: Node, y: Node) {
    x in m && y in m && m[x].next == y && m[y].prev == x
  }

  function Succ(c: seq<Node>, i: nat): Node
    requires i < |c|
  {
    c[if i + 1 == |c| then 0 else i + 1]
  }

  ghost predicate LinkedAt(m: Memory, c: seq<Node>, i: nat) {
    i < |c| ==> Linked(m, c[i], Succ(c, i))
  }

  /** The head and the members of a list, in order. */
  ghost predicate Ring(m: Memory, c: seq<Node>) {
    c != [] && Distinct(c) && forall i: nat :: LinkedAt(m, c, i)
  }

  ghost predicate Apart(c: seq<Node>, d: seq<Node>) {
    forall x :: x in c ==> x !in d
  }

  lemma RingFrame(m: Memory, m': Memory, c: seq<Node>)
    requires Ring(m, c) && forall x :: x in c ==> x in m' && x in m && m'[x] == m[x]
    ensures Ring(m', c)
  {
    forall i: nat ensures LinkedAt(m', c, i) {
      assert LinkedAt(m, c, i);
    }
  }

  lemma RingIn(m: Memory, c: seq<Node>, x: Node)
    requires Ring(m, c) && x in c
    ensures x in m && m[x].next in c && m[x].prev in c && m[x].next in m && m[x].prev in m
  {
    var i :| 0 <= i < |c| && c[i] == x;
    assert LinkedAt(m, c, i) && LinkedAt(m, c, if i == 0 then |c| - 1 else i - 1);
  }

  function SetNext(m: Memory, x: Node, y: Node): Memory
    requires x in m
  {
    m[x := m[x].(next := y)]
  }

  function SetPrev(m: Memory, x: Node, y: Node): Memory
    requires x in m
  {
    m[x := m[x].(prev := y)]
  }

  // ---------- QUEUE_INIT ----------

  function InitMemory(m: Memory, q: Node): Memory {
    m[q := Links(q, q)]
  }

  lemma InitRing(m: Memory, q: Node)
    ensures Ring(InitMemory(m, q), [q])
  {
  }

  // ---------- QUEUE_REMOVE ----------

  function RemoveMemory(m: Memory, q: Node): Memory
    requires q in m && m[q].prev in m && m[q].next in m
  {
    var m1 := SetNext(m, m[q].prev, m[q].next);
    SetPrev(m1, m1[q].next, m1[q].prev)
  }

  lemma RemoveRing(m: Memory, c: seq<Node>, k: nat)
    requires Ring(m, c) && 1 <= k < |c|
    ensures var q := c[k];
            && q in m && m[q].prev in m && m[q].next in m
            && Ring(RemoveMemory(m, q), c[..k] + c[k + 1..])
  {
    var q, c' := c[k], c[..k] + c[k + 1..];
    var p, n := c[k - 1], Succ(c, k);
    assert LinkedAt(m, c, k) && LinkedAt(m, c, k - 1);
    var m' := RemoveMemory(m, q);
    forall i: nat ensures LinkedAt(m', c', i) {
      if i < |c'| {
        var j := if i < k then i else i + 1;
        assert c'[i] == c[j] && LinkedAt(m, c, j);
        if i == k - 1 {
          assert Succ(c', i) == n;
        } else {
          assert Succ(c', i) == Succ(c, j);
        }
      }
    }
  }

  // ---------- QUEUE_INSERT_TAIL and QUEUE_INSERT_HEAD ----------

  function InsertTailMemory(m: Memory, h: Node, q: Node): Memory
    requires h in m && q in m && m[h].prev in m && h != q
  {
    var m1 := SetNext(m, q, h);
    var m2 := SetPrev(m1, q, m1[h].prev);
    var m3 := SetNext(m2, m2[q].prev, q);
    SetPrev(m3, h, q)
  }

  function InsertHeadMemory(m: Memory, h: Node, q: Node): Memory
    requires h in m && q in m && m[h].next in m && h != q
  {
    var m1 := SetNext(m, q, m[h].next);
    var m2 := SetPrev(m1, q, h);
    var m3 := SetPrev(m2, m2[q].next, q);
    SetNext(m3, h, q)
  }

  lemma InsertTailRing(m: Memory, c: seq<Node>, q: Node)
    requires Ring(m, c) && q !in c && q in m
    ensures c[0] in m && m[c[0]].prev in m && Ring(InsertTailMemory(m, c[0], q), c + [q])
  {
    var c', last := c + [q], |c| - 1;
    assert LinkedAt(m, c, last) && LinkedAt(m, c, 0);
    var m' := InsertTailMemory(m, c[0], q);
    forall i: nat ensures LinkedAt(m', c', i) {
      if i < last {
        assert LinkedAt(m, c, i) && c'[i] == c[i] && Succ(c', i) == c[i + 1];
      }
    }
  }

  lemma InsertHeadRing(m: Memory, c: seq<Node>, q: Node)
    requires Ring(m, c) && q !in c && q in m
    ensures c[0] in m && m[c[0]].next in m && Ring(InsertHeadMemory(m, c[0], q), [c[0], q] + c[1..])
  {
    var c' := [c[0], q] + c[1..];
    assert LinkedAt(m, c, 0);
    var m' := InsertHeadMemory(m, c[0], q);
    forall i: nat ensures LinkedAt(m', c', i) {
      if 2 <= i < |c'| {
        assert LinkedAt(m, c, i - 1) && c'[i] == c[i - 1];
        assert Succ(c', i) == Succ(c, i - 1);
      } else if i == 1 {
        assert Succ(c', 1) == Succ(c, 0);
      }
    }
  }

  // ---------- QUEUE_SPLIT and QUEUE_ADD ----------

  function SplitMemory(m: Memory, h: Node, q: Node, n: Node): Memory
    requires h in m && q in m && n in m && m[h].prev in m && m[q].prev in m && h != n && q != n && h != q && m[q].prev != n
  {
    var m1 := SetPrev(m, n, m[h].prev);
    var m2 := SetNext(m1, m1[n].prev, n);
    var m3 := SetNext(m2, n, q);
    var m4 := SetPrev(m3, h, m3[q].prev);
    var m5 := SetNext(m4, m4[h].prev, h);
    SetPrev(m5, q, n)
  }

  /** The members from the k-th on move to the list of n, which takes no part before. */
  lemma SplitRings(m: Memory, c: seq<Node>, k: nat, n: Node)
    requires Ring(m, c) && 1 <= k < |c| && n !in c && n in m
    ensures var h, q := c[0], c[k];
            && h in m && q in m && m[h].prev in m && m[q].prev in m && h != q && m[q].prev != n
            && Ring(SplitMemory(m, h, q, n), c[..k]) && Ring(SplitMemory(m, h, q, n), [n] + c[k..])
  {
    var h, q, a, b := c[0], c[k], c[..k], [n] + c[k..];
    assert LinkedAt(m, c, k - 1) && LinkedAt(m, c, |c| - 1) && LinkedAt(m, c, k) && LinkedAt(m, c, 0);
    var m' := SplitMemory(m, h, q, n);
    forall i: nat ensures LinkedAt(m', a, i) {
      if i < k {
        assert LinkedAt(m, c, i);
      }
    }
    forall i: nat ensures LinkedAt(m', b, i) {
      if 1 <= i < |b| {
        assert LinkedAt(m, c, k + i - 1) && b[i] == c[k + i - 1];
      }
    }
  }

  function AddMemory(m: Memory, h: Node, n: Node): Memory
    requires h in m && n in m && m[h].prev in m && m[n].next in m && m[n].prev in m && h != n
  {
    var m1 := SetNext(m, m[h].prev, m[n].next);
    var m2 := SetPrev(m1, m1[n].next, m1[h].prev);
    var m3 := SetPrev(m2, h, m2[n].prev);
    SetNext(m3, m3[h].prev, h)
  }

  /** The members of d follow those of c; its head is left over. */
  lemma AddRing(m: Memory, c: seq<Node>, d: seq<Node>)
    requires Ring(m, c) && Ring(m, d) && Apart(c, d)
    ensures var h, n := c[0], d[0];
            && h in m && n in m && m[h].prev in m && m[n].next in m && m[n].prev in m && h != n
            && Ring(AddMemory(m, h, n), c + d[1..])
  {
    var h, n, c' := c[0], d[0], c + d[1..];
    assert LinkedAt(m, c, 0) && LinkedAt(m, c, |c| - 1) && LinkedAt(m, d, 0) && LinkedAt(m, d, |d| - 1);
    assert c[0] in c && d[0] in d;
    var m' := AddMemory(m, h, n);
    forall i: nat ensures LinkedAt(m', c', i) {
      if i < |c| {
        assert LinkedAt(m, c, i) && c[i] in c && c'[i] == c[i];
      } else if i < |c'| {
        var j := i - |c| + 1;
        assert LinkedAt(m, d, j) && d[j] in d && c'[i] == d[j];
      }
    }
    forall i, j | 0 <= i < j < |c'| ensures c'[i] != c'[j] {
      assert if i < |c| then c'[i] in c else c'[i] == d[i - |c| + 1];
      assert if j < |c| then c'[j] == c[j] else c'[j] == d[j - |c| + 1] && c'[j] in d;
    }
  }
}
