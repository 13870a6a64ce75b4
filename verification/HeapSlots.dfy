/** The complete binary tree of src/heap-inl.h, seen as numbered slots: slot 1 is the root, and the children of
    slot k are slots 2k and 2k + 1.  A ghost sequence names the node in each slot; the nodes' links must agree. */
module HeapSlots {
  /** What timer_less_than compares (src/timer.c:38-55). */
  datatype Key = Key(timeout: nat, startId: nat)

  predicate Less(a: Key, b: Key) {
    if a.timeout < b.timeout then true
    else if b.timeout < a.timeout then false
    else a.startId < b.startId
  }

  /** A uv_timer_t: the links of its heap node, its key, and what src/timer.c and src/uv-common.h keep in it. */
  class Timer {
    var left: Timer?
    var right: Timer?
    var parent: Timer?
    var timeout: nat
    var startId: nat
    var repeat: nat
    var hasCb: bool
    var active: bool
    var ref: bool
    var closing: bool

    constructor ()
      ensures !active && ref && !closing && !hasCb && repeat == 0
    {
      left, right, parent, timeout, startId := null, null, null, 0, 0;
      repeat, hasCb, active, ref, closing := 0, false, false, true, false;
    }
  }

  datatype Cell = Cell(left: Timer?, right: Timer?, parent: Timer?, key: Key)

  type Memory = map<Timer, Cell>

  ghost function Snapshot(nodes: set<Timer>): (m: Memory)
    reads nodes`left, nodes`right, nodes`parent, nodes`timeout, nodes`startId
    ensures m.Keys == nodes
  {
    map n | n in nodes :: Cell(n.left, n.right, n.parent, Key(n.timeout, n.startId))
  }

  /** The node in slot k, or NULL. */
  function Slot(a: seq<Timer>, k: int): Timer? {
    if 1 <= k <= |a| then a[k - 1] else null
  }

  ghost predicate Distinct(a: seq<Timer>) {
    forall i, j :: 1 <= i < j <= |a| ==> Slot(a, i) != Slot(a, j)
  }

  ghost predicate LinksOk(m: Memory, a: seq<Timer>, k: int) {
    1 <= k <= |a| ==>
      && a[k - 1] in m
      && m[a[k - 1]].left == Slot(a, 2 * k) && m[a[k - 1]].right == Slot(a, 2 * k + 1) && m[a[k - 1]].parent == Slot(a, k / 2)
  }

  ghost function NodesOf(a: seq<Timer>): set<Timer> {
    set n | n in a
  }

  /** The nodes in memory m hang from `min` as a complete tree, a[k - 1] in slot k. */
  ghost predicate Complete(m: Memory, min: Timer?, a: seq<Timer>) {
    && Distinct(a) && NodesOf(a) == m.Keys && min == Slot(a, 1)
    && forall k :: LinksOk(m, a, k)
  }

  function Swapped(a: seq<Timer>, i: nat, j: nat): seq<Timer>
    requires 1 <= i <= |a| && 1 <= j <= |a|
  {
    a[i - 1 := a[j - 1]][j - 1 := a[i - 1]]
  }

  // ---------- heap_node_swap ----------

  /** The pointer to `from` among the children of p, changed. */
  ghost function Repointed(m: Memory, p: Timer?, from: Timer, to: Timer): Memory
    requires p != null ==> p in m
  {
    if p == null then m
    else if m[p].left == from then m[p := m[p].(left := to)]
    else m[p := m[p].(right := to)]
  }

  ghost function Adopted(m: Memory, n: Timer?, p: Timer): Memory
    requires n != null ==> n in m
  {
    if n == null then m else m[n := m[n].(parent := p)]
  }

  /** The assignments of heap_node_swap (lines 78 to 103), p being the parent and c the child. */
  ghost function SwapMemory(m: Memory, p: Timer, c: Timer, s: Timer?, cl: Timer?, cr: Timer?, g: Timer?, onLeft: bool): Memory
    requires p in m && c in m && (s != null ==> s in m) && (cl != null ==> cl in m) && (cr != null ==> cr in m) && (g != null ==> g in m)
  {
    Repointed(AdoptedAll(ExchangeMemory(m, p, c, onLeft), p, c, s, cl, cr), g, p, c)
  }

  /** Lines 90 to 96: the sibling and the children of c get their new parents. */
  ghost function AdoptedAll(m: Memory, p: Timer, c: Timer, s: Timer?, cl: Timer?, cr: Timer?): (m': Memory)
    requires (s != null ==> s in m) && (cl != null ==> cl in m) && (cr != null ==> cr in m)
    ensures m'.Keys == m.Keys
  {
    Adopted(Adopted(Adopted(m, s, c), cl, p), cr, p)
  }

  /** Lines 78 to 89: p and c exchange their links, and c becomes the parent of p. */
  ghost function ExchangeMemory(m: Memory, p: Timer, c: Timer, onLeft: bool): Memory
    requires p in m && c in m
  {
    var m1 := m[p := m[c].(key := m[p].key)];
    var m2 := m1[c := m[p].(key := m1[c].key)];
    var m3 := m2[p := m2[p].(parent := c)];
    m3[c := if onLeft then m3[c].(left := p) else m3[c].(right := p)]
  }

  /** The nodes around a swap: p above c, s the other child of p, cl and cr the children of c, g above p. */
  ghost predicate Around(m: Memory, p: Timer, c: Timer, s: Timer?, cl: Timer?, cr: Timer?, g: Timer?, onLeft: bool) {
    && p in m && c in m && p != c
    && (s != null ==> s in m && s != p && s != c && s != cl && s != cr && s != g)
    && (cl != null ==> cl in m && cl != p && cl != c && cl != cr && cl != g)
    && (cr != null ==> cr in m && cr != p && cr != c && cr != g)
    && (g != null ==> g in m && g != p && g != c)
    && m[p].left == (if onLeft then c else s) && m[p].right == (if onLeft then s else c) && m[p].parent == g
    && m[c].left == cl && m[c].right == cr && m[c].parent == p
  }

  /** What a swap does, cell by cell. */
  ghost predicate Exchanged(m: Memory, m': Memory, p: Timer, c: Timer, s: Timer?, cl: Timer?, cr: Timer?, g: Timer?, onLeft: bool) {
    && m'.Keys == m.Keys && p in m && c in m
    && m'[p] == Cell(cl, cr, c, m[p].key)
    && m'[c] == Cell(if onLeft then p else s, if onLeft then s else p, g, m[c].key)
    && (s != null ==> s in m && m'[s] == m[s].(parent := c))
    && (cl != null ==> cl in m && m'[cl] == m[cl].(parent := p))
    && (cr != null ==> cr in m && m'[cr] == m[cr].(parent := p))
    && (g != null ==> g in m && m'[g] == if m[g].left == p then m[g].(left := c) else m[g].(right := c))
    && forall n :: n in m && n != p && n != c && n != s && n != cl && n != cr && n != g ==> m'[n] == m[n]
  }

  lemma SwapCells(m: Memory, p: Timer, c: Timer, s: Timer?, cl: Timer?, cr: Timer?, g: Timer?, onLeft: bool)
    requires Around(m, p, c, s, cl, cr, g, onLeft)
    ensures Exchanged(m, SwapMemory(m, p, c, s, cl, cr, g, onLeft), p, c, s, cl, cr, g, onLeft)
  {
    var m1 := ExchangeMemory(m, p, c, onLeft);
    ExchangeCells(m, p, c, s, cl, cr, g, onLeft);
    AdoptedCells(m1, p, c, s, cl, cr);
    RepointedCells(AdoptedAll(m1, p, c, s, cl, cr), g, p, c);
  }

  lemma ExchangeCells(m: Memory, p: Timer, c: Timer, s: Timer?, cl: Timer?, cr: Timer?, g: Timer?, onLeft: bool)
    requires Around(m, p, c, s, cl, cr, g, onLeft)
    ensures var m' := ExchangeMemory(m, p, c, onLeft);
            && m'.Keys == m.Keys
            && m'[p] == Cell(cl, cr, c, m[p].key)
            && m'[c] == Cell(if onLeft then p else s, if onLeft then s else p, g, m[c].key)
            && forall n :: n in m && n != p && n != c ==> m'[n] == m[n]
  {
  }

  lemma AdoptedCells(m: Memory, p: Timer, c: Timer, s: Timer?, cl: Timer?, cr: Timer?)
    requires (s != null ==> s in m && s != cl && s != cr) && (cl != null ==> cl in m && cl != cr) && (cr != null ==> cr in m)
    ensures var m' := AdoptedAll(m, p, c, s, cl, cr);
            && m'.Keys == m.Keys
            && (s != null ==> m'[s] == m[s].(parent := c))
            && (cl != null ==> m'[cl] == m[cl].(parent := p))
            && (cr != null ==> m'[cr] == m[cr].(parent := p))
            && forall n :: n in m && n != s && n != cl && n != cr ==> m'[n] == m[n]
  {
  }

  lemma RepointedCells(m: Memory, g: Timer?, from: Timer, to: Timer)
    requires g != null ==> g in m
    ensures var m' := Repointed(m, g, from, to);
            && m'.Keys == m.Keys
            && (g != null ==> m'[g] == if m[g].left == from then m[g].(left := to) else m[g].(right := to))
            && forall n :: n in m && n != g ==> m'[n] == m[n]
  {
  }

  lemma AroundSlots(m: Memory, min: Timer?, a: seq<Timer>, i: nat, j: nat)
    requires Complete(m, min, a) && 2 <= j <= |a| && j / 2 == i
    ensures Around(m, Slot(a, i), Slot(a, j), Slot(a, if j % 2 == 0 then j + 1 else j - 1), Slot(a, 2 * j), Slot(a, 2 * j + 1),
                   Slot(a, i / 2), j % 2 == 0)
    ensures i >= 2 ==> (m[Slot(a, i / 2)].left == Slot(a, i) <==> i % 2 == 0)
  {
    assert LinksOk(m, a, i) && LinksOk(m, a, j) && LinksOk(m, a, i / 2);
    forall k | 1 <= k <= |a| ensures Slot(a, k) in m {
      assert LinksOk(m, a, k);
    }
  }

  lemma SwappedSlots(a: seq<Timer>, i: nat, j: nat, k: int)
    requires 1 <= i <= |a| && 1 <= j <= |a|
    ensures Slot(Swapped(a, i, j), k) == if k == i then Slot(a, j) else if k == j then Slot(a, i) else Slot(a, k)
  {
  }

  function OtherChild(j: nat): nat
    requires j >= 1
  {
    if j % 2 == 0 then j + 1 else j - 1
  }

  /** heap_node_swap of the nodes in slots i and j, j a child slot of i. */
  ghost function SwapAt(m: Memory, min: Timer?, a: seq<Timer>, i: nat, j: nat): Memory
    requires Complete(m, min, a) && 2 <= j <= |a| && j / 2 == i
  {
    AroundSlots(m, min, a, i, j);
    SwapMemory(m, Slot(a, i), Slot(a, j), Slot(a, OtherChild(j)), Slot(a, 2 * j), Slot(a, 2 * j + 1), Slot(a, i / 2), j % 2 == 0)
  }

  /** The nodes in slots i and j have been swapped. */
  ghost predicate IsSwap(m: Memory, min: Timer?, m': Memory, a: seq<Timer>, i: nat, j: nat) {
    && Complete(m, min, a) && 2 <= j <= |a| && j / 2 == i
    && Exchanged(m, m', Slot(a, i), Slot(a, j), Slot(a, OtherChild(j)), Slot(a, 2 * j), Slot(a, 2 * j + 1), Slot(a, i / 2), j % 2 == 0)
  }

  lemma SwapIs(m: Memory, min: Timer?, a: seq<Timer>, i: nat, j: nat)
    requires Complete(m, min, a) && 2 <= j <= |a| && j / 2 == i
    ensures IsSwap(m, min, SwapAt(m, min, a, i, j), a, i, j)
  {
    AroundSlots(m, min, a, i, j);
    SwapCells(m, Slot(a, i), Slot(a, j), Slot(a, OtherChild(j)), Slot(a, 2 * j), Slot(a, 2 * j + 1), Slot(a, i / 2), j % 2 == 0);
  }

  /** The slots around slot k after the swap. */
  lemma NewSlots(a: seq<Timer>, a': seq<Timer>, i: nat, j: nat, k: int)
    requires 1 <= i <= |a| && 1 <= j <= |a| && a' == Swapped(a, i, j)
    ensures |a'| == |a|
    ensures Slot(a', k) == if k == i then Slot(a, j) else if k == j then Slot(a, i) else Slot(a, k)
    ensures Slot(a', 2 * k) == if 2 * k == i then Slot(a, j) else if 2 * k == j then Slot(a, i) else Slot(a, 2 * k)
    ensures Slot(a', 2 * k + 1) == if 2 * k + 1 == i then Slot(a, j) else if 2 * k + 1 == j then Slot(a, i) else Slot(a, 2 * k + 1)
    ensures Slot(a', k / 2) == if k / 2 == i then Slot(a, j) else if k / 2 == j then Slot(a, i) else Slot(a, k / 2)
  {
  }

  /** Slots away from a swap hold none of the nodes it touches, and neither do their links. */
  lemma LinksElsewhere(m: Memory, min: Timer?, m': Memory, a: seq<Timer>, a': seq<Timer>, i: nat, j: nat, k: int)
    requires IsSwap(m, min, m', a, i, j) && a' == Swapped(a, i, j) && 1 <= k <= |a|
    requires k != i && k != j && k != OtherChild(j) && k != 2 * j && k != 2 * j + 1 && k != i / 2
    ensures LinksOk(m', a', k)
  {
    NewSlots(a, a', i, j, k);
    assert LinksOk(m, a, k);
  }

  lemma LinksAbove(m: Memory, min: Timer?, m': Memory, a: seq<Timer>, a': seq<Timer>, i: nat, j: nat, k: int)
    requires IsSwap(m, min, m', a, i, j) && a' == Swapped(a, i, j) && i >= 2 && k == i / 2
    ensures LinksOk(m', a', k)
  {
    NewSlots(a, a', i, j, k);
    assert LinksOk(m, a, k);
    assert Slot(a, i) != Slot(a, i + 1);
  }

  lemma LinksBeside(m: Memory, min: Timer?, m': Memory, a: seq<Timer>, a': seq<Timer>, i: nat, j: nat, k: int)
    requires IsSwap(m, min, m', a, i, j) && a' == Swapped(a, i, j) && 1 <= k <= |a| && k == OtherChild(j)
    ensures LinksOk(m', a', k)
  {
    assert k != i && k != j && i < 2 * k && j < 2 * k && k / 2 == i;
    NewSlots(a, a', i, j, k);
    assert LinksOk(m, a, k);
  }

  lemma LinksBelow(m: Memory, min: Timer?, m': Memory, a: seq<Timer>, a': seq<Timer>, i: nat, j: nat, k: int)
    requires IsSwap(m, min, m', a, i, j) && a' == Swapped(a, i, j) && 1 <= k <= |a| && k / 2 == j
    ensures LinksOk(m', a', k)
  {
    assert i < j < k && (k == 2 * j || k == 2 * j + 1);
    NewSlots(a, a', i, j, k);
    assert LinksOk(m, a, k);
  }

  lemma LinksOfTwo(m: Memory, min: Timer?, m': Memory, a: seq<Timer>, a': seq<Timer>, i: nat, j: nat, k: int)
    requires IsSwap(m, min, m', a, i, j) && a' == Swapped(a, i, j) && (k == i || k == j)
    ensures LinksOk(m', a', k)
  {
    NewSlots(a, a', i, j, k);
  }

  lemma LinksAfterSwap(m: Memory, min: Timer?, m': Memory, a: seq<Timer>, a': seq<Timer>, i: nat, j: nat, k: int)
    requires IsSwap(m, min, m', a, i, j) && a' == Swapped(a, i, j)
    ensures LinksOk(m', a', k)
  {
    if 1 <= k <= |a| {
      if k == i || k == j {
        LinksOfTwo(m, min, m', a, a', i, j, k);
      } else if k == OtherChild(j) {
        LinksBeside(m, min, m', a, a', i, j, k);
      } else if k / 2 == j {
        LinksBelow(m, min, m', a, a', i, j, k);
      } else if k == i / 2 {
        LinksAbove(m, min, m', a, a', i, j, k);
      } else {
        LinksElsewhere(m, min, m', a, a', i, j, k);
      }
    }
  }

  lemma SwappedNodes(a: seq<Timer>, i: nat, j: nat)
    requires Distinct(a) && 1 <= i < j <= |a|
    ensures Distinct(Swapped(a, i, j)) && NodesOf(Swapped(a, i, j)) == NodesOf(a)
  {
    var a' := Swapped(a, i, j);
    forall x, y | 1 <= x < y <= |a| ensures Slot(a', x) != Slot(a', y) {
      SwappedSlots(a, i, j, x);
      SwappedSlots(a, i, j, y);
    }
    forall n ensures n in a' <==> n in a {
      assert a'[i - 1] == a[j - 1] && a'[j - 1] == a[i - 1];
      if n in a {
        var k :| 0 <= k < |a| && a[k] == n;
        assert a'[if k == i - 1 then j - 1 else if k == j - 1 then i - 1 else k] == n;
      }
    }
  }

  lemma KeysStay(m: Memory, min: Timer?, a: seq<Timer>, i: nat, j: nat)
    requires Complete(m, min, a) && 2 <= j <= |a| && j / 2 == i
    ensures var m' := SwapAt(m, min, a, i, j); m'.Keys == m.Keys && forall n :: n in m ==> m'[n].key == m[n].key
  {
    SwapIs(m, min, a, i, j);
    ExchangedKeys(m, SwapAt(m, min, a, i, j), Slot(a, i), Slot(a, j), Slot(a, OtherChild(j)), Slot(a, 2 * j), Slot(a, 2 * j + 1),
                  Slot(a, i / 2), j % 2 == 0);
  }

  lemma ExchangedKeys(m: Memory, m': Memory, p: Timer, c: Timer, s: Timer?, cl: Timer?, cr: Timer?, g: Timer?, onLeft: bool)
    requires Exchanged(m, m', p, c, s, cl, cr, g, onLeft)
    ensures m'.Keys == m.Keys && forall n :: n in m ==> m'[n].key == m[n].key
  {
  }

  lemma SwappedComplete(m: Memory, min: Timer?, a: seq<Timer>, i: nat, j: nat)
    requires Complete(m, min, a) && 2 <= j <= |a| && j / 2 == i
    ensures Complete(SwapAt(m, min, a, i, j), if i == 1 then Slot(a, j) else min, Swapped(a, i, j))
  {
    var m', a' := SwapAt(m, min, a, i, j), Swapped(a, i, j);
    SwapIs(m, min, a, i, j);
    forall k ensures LinksOk(m', a', k) {
      LinksAfterSwap(m, min, m', a, a', i, j, k);
    }
    SwappedNodes(a, i, j);
    SwappedSlots(a, i, j, 1);
  }

  // ---------- A node more, and a node less, at the end ----------

  function WithKid(c: Cell, right: bool, kid: Timer?): Cell {
    if right then c.(right := kid) else c.(left := kid)
  }

  /** The links of a node added behind the last slot: x hangs from slot n / 2, on the side its slot number says. */
  ghost predicate Hung(m: Memory, min: Timer?, m': Memory, min': Timer?, a: seq<Timer>, x: Timer) {
    var n := |a| + 1;
    && x !in m && m'.Keys == m.Keys + {x}
    && m'[x].left == null && m'[x].right == null && m'[x].parent == Slot(a, n / 2)
    && min' == (if n == 1 then x else min)
    && (n > 1 ==> Slot(a, n / 2) in m && m'[Slot(a, n / 2)] == WithKid(m[Slot(a, n / 2)], n % 2 == 1, x))
    && forall y :: y in m && y != Slot(a, n / 2) ==> m'[y] == m[y]
  }

  lemma AppendedLinks(m: Memory, min: Timer?, m': Memory, min': Timer?, a: seq<Timer>, x: Timer, k: int)
    requires Complete(m, min, a) && Hung(m, min, m', min', a, x)
    ensures LinksOk(m', a + [x], k)
  {
    var n, a' := |a| + 1, a + [x];
    if 1 <= k < n {
      assert LinksOk(m, a, k);
      assert Slot(a', 2 * k) == (if 2 * k == n then x else Slot(a, 2 * k));
      assert Slot(a', 2 * k + 1) == (if 2 * k + 1 == n then x else Slot(a, 2 * k + 1));
      assert Slot(a', k / 2) == Slot(a, k / 2);
      if k != n / 2 {
        assert Slot(a, k) != Slot(a, n / 2);
      }
    } else if k == n {
      assert Slot(a', n / 2) == Slot(a, n / 2);
    }
  }

  lemma AppendedComplete(m: Memory, min: Timer?, m': Memory, min': Timer?, a: seq<Timer>, x: Timer)
    requires Complete(m, min, a) && Hung(m, min, m', min', a, x)
    ensures Complete(m', min', a + [x])
  {
    forall k ensures LinksOk(m', a + [x], k) {
      AppendedLinks(m, min, m', min', a, x, k);
    }
    assert NodesOf(a + [x]) == NodesOf(a) + {x};
    forall i, j | 1 <= i < j <= |a| + 1 ensures Slot(a + [x], i) != Slot(a + [x], j) {
      assert Slot(a + [x], i) == a[i - 1] && a[i - 1] in NodesOf(a);
      assert Slot(a, i) != Slot(a, j) || j == |a| + 1;
      assert Slot(a + [x], j) == if j <= |a| then Slot(a, j) else x;
    }
  }

  /** The node in the last slot, taken off. */
  ghost predicate Unhung(m: Memory, min: Timer?, m': Memory, min': Timer?, a: seq<Timer>)
    requires a != []
  {
    var n, x := |a|, a[|a| - 1];
    && x in m && m'.Keys == m.Keys - {x}
    && min' == (if n == 1 then null else min)
    && (n > 1 ==> Slot(a, n / 2) in m && Slot(a, n / 2) in m' && m'[Slot(a, n / 2)] == WithKid(m[Slot(a, n / 2)], n % 2 == 1, null))
    && forall y :: y in m && y != x && y != Slot(a, n / 2) ==> m'[y] == m[y]
  }

  lemma UnhungLinks(m: Memory, min: Timer?, m': Memory, min': Timer?, a: seq<Timer>, k: int)
    requires a != [] && Complete(m, min, a) && Unhung(m, min, m', min', a)
    ensures LinksOk(m', a[..|a| - 1], k)
  {
    var n, a' := |a|, a[..|a| - 1];
    if 1 <= k < n {
      assert LinksOk(m, a, k);
      assert Slot(a', k) == Slot(a, k) != Slot(a, n);
      assert Slot(a', 2 * k) == (if 2 * k == n then null else Slot(a, 2 * k));
      assert Slot(a', 2 * k + 1) == (if 2 * k + 1 == n then null else Slot(a, 2 * k + 1));
      assert Slot(a', k / 2) == Slot(a, k / 2);
      if k != n / 2 {
        assert Slot(a, k) != Slot(a, n / 2);
      }
    }
  }

  lemma UnhungComplete(m: Memory, min: Timer?, m': Memory, min': Timer?, a: seq<Timer>)
    requires a != [] && Complete(m, min, a) && Unhung(m, min, m', min', a)
    ensures Complete(m', min', a[..|a| - 1])
  {
    var a', x := a[..|a| - 1], a[|a| - 1];
    forall k ensures LinksOk(m', a', k) {
      UnhungLinks(m, min, m', min', a, k);
    }
    forall i, j | 1 <= i < j < |a| ensures Slot(a', i) != Slot(a', j) {
      assert Slot(a', i) == Slot(a, i) && Slot(a', j) == Slot(a, j);
    }
    assert a == a' + [x];
    forall y ensures y in NodesOf(a') <==> y in m' {
      if y in a' {
        var k :| 0 <= k < |a'| && a'[k] == y;
        assert Slot(a, k + 1) != Slot(a, |a|);
      }
    }
  }

  // ---------- One node in the place of another ----------

  /** x, which is in no slot, takes over the links of the node in slot i. */
  ghost predicate Replaced(m: Memory, min: Timer?, m': Memory, min': Timer?, a: seq<Timer>, i: nat, x: Timer)
    requires 1 <= i <= |a|
  {
    var o, l, r, p := Slot(a, i), Slot(a, 2 * i), Slot(a, 2 * i + 1), Slot(a, i / 2);
    && o in m && x !in m && m'.Keys == m.Keys - {o} + {x}
    && m'[x].left == l && m'[x].right == r && m'[x].parent == p
    && min' == (if i == 1 then x else min)
    && (l != null ==> l in m && l in m' && m'[l] == m[l].(parent := x))
    && (r != null ==> r in m && r in m' && m'[r] == m[r].(parent := x))
    && (p != null ==> p in m && p in m' && m'[p] == WithKid(m[p], i % 2 == 1, x))
    && forall y :: y in m && y != o && y != l && y != r && y != p ==> m'[y] == m[y]
  }

  lemma ReplacedLinks(m: Memory, min: Timer?, m': Memory, min': Timer?, a: seq<Timer>, i: nat, x: Timer, k: int)
    requires 1 <= i <= |a| && Complete(m, min, a) && Replaced(m, min, m', min', a, i, x)
    ensures LinksOk(m', a[i - 1 := x], k)
  {
    var a' := a[i - 1 := x];
    if 1 <= k <= |a| {
      assert LinksOk(m, a, k) && LinksOk(m, a, i);
      assert forall s {:trigger Slot(a', s)} :: Slot(a', s) == if s == i then x else Slot(a, s);
      if k != i && k != 2 * i && k != 2 * i + 1 && k != i / 2 {
        assert Slot(a, k) != Slot(a, i) && Slot(a, k) != Slot(a, 2 * i) && Slot(a, k) != Slot(a, 2 * i + 1) && Slot(a, k) != Slot(a, i / 2);
      }
    }
  }

  lemma ReplacedComplete(m: Memory, min: Timer?, m': Memory, min': Timer?, a: seq<Timer>, i: nat, x: Timer)
    requires 1 <= i <= |a| && Complete(m, min, a) && Replaced(m, min, m', min', a, i, x)
    ensures Complete(m', min', a[i - 1 := x])
  {
    var a' := a[i - 1 := x];
    forall k ensures LinksOk(m', a', k) {
      ReplacedLinks(m, min, m', min', a, i, x, k);
    }
    ReplacedNodes(a, i, x);
  }

  lemma ReplacedNodes(a: seq<Timer>, i: nat, x: Timer)
    requires 1 <= i <= |a| && Distinct(a) && x !in NodesOf(a)
    ensures Distinct(a[i - 1 := x]) && NodesOf(a[i - 1 := x]) == NodesOf(a) - {a[i - 1]} + {x}
  {
    var a', o := a[i - 1 := x], a[i - 1];
    forall k, l | 1 <= k < l <= |a| ensures Slot(a', k) != Slot(a', l) {
      assert Slot(a, k) != Slot(a, l) && a[k - 1] in NodesOf(a) && a[l - 1] in NodesOf(a);
    }
    forall y ensures y in a' <==> y == x || (y in a && y != o) {
      assert a'[i - 1] == x;
      if y in a && y != o {
        var k :| 0 <= k < |a| && a[k] == y;
        assert a'[k] == y;
      }
      if y in a' && y != x {
        var k :| 0 <= k < |a'| && a'[k] == y;
        assert a[k] == y && Slot(a, k + 1) != Slot(a, i);
      }
    }
  }
}
