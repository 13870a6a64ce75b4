/** heap_insert, heap_remove and heap_dequeue (src/heap-inl.h:62-241), on linked nodes updated in place. */
module TimerHeap {
  import opened HeapSlots
  import opened HeapOrder

  ghost function Keys(m: Memory, a: seq<Timer>): (ks: seq<Key>)
    requires NodesOf(a) <= m.Keys
    ensures |ks| == |a|
  {
    seq(|a|, i requires 0 <= i < |a| => assert a[i] in NodesOf(a); m[a[i]].key)
  }

  function KeyOf(n: Timer): Key
    reads n`timeout, n`startId
  {
    Key(n.timeout, n.startId)
  }

  class Heap {
    var min: Timer?
    var nelts: nat
    ghost var slots: seq<Timer>

    ghost function Mem(): Memory
      reads this`slots, NodesOf(slots)`left, NodesOf(slots)`right, NodesOf(slots)`parent, NodesOf(slots)`timeout, NodesOf(slots)`startId
    {
      Snapshot(NodesOf(slots))
    }

    ghost predicate Shape()
      reads this, NodesOf(slots)`left, NodesOf(slots)`right, NodesOf(slots)`parent, NodesOf(slots)`timeout, NodesOf(slots)`startId
    {
      Complete(Mem(), min, slots) && nelts == |slots|
    }

    ghost function Ks(): seq<Key>
      reads this`slots, NodesOf(slots)`left, NodesOf(slots)`right, NodesOf(slots)`parent, NodesOf(slots)`timeout, NodesOf(slots)`startId
    {
      Keys(Mem(), slots)
    }

    /** A complete tree in heap order. */
    ghost predicate Valid()
      reads this, NodesOf(slots)`left, NodesOf(slots)`right, NodesOf(slots)`parent, NodesOf(slots)`timeout, NodesOf(slots)`startId
    {
      Shape() && Ordered(Ks())
    }

    ghost function Nodes(): set<Timer>
      reads this`slots
    {
      NodesOf(slots)
    }

    /** heap_init. */
    constructor ()
      ensures Valid() && slots == []
    {
      min, nelts, slots := null, 0, [];
    }

    lemma HasShape(m: Memory, mn: Timer?, a: seq<Timer>, ks: seq<Key>)
      requires Complete(m, mn, a) && Keys(m, a) == ks && slots == a && min == mn && nelts == |a|
      requires forall n :: n in m ==> m[n] == Cell(n.left, n.right, n.parent, Key(n.timeout, n.startId))
      ensures Shape() && Ks() == ks
    {
      assert Mem() == m;
    }

    method SetLinks(n: Timer, left: Timer?, right: Timer?, parent: Timer?)
      requires n in slots
      modifies n`left, n`right, n`parent
      ensures Mem() == old(Mem())[n := Cell(left, right, parent, old(Mem())[n].key)]
    {
      n.left, n.right, n.parent := left, right, parent;
    }

    method SetParent(n: Timer, v: Timer?)
      requires n in slots
      modifies n`parent
      ensures Mem() == old(Mem())[n := old(Mem())[n].(parent := v)]
    {
      n.parent := v;
    }

    method SetLeft(n: Timer, v: Timer?)
      requires n in slots
      modifies n`left
      ensures Mem() == old(Mem())[n := old(Mem())[n].(left := v)]
    {
      n.left := v;
    }

    method SetRight(n: Timer, v: Timer?)
      requires n in slots
      modifies n`right
      ensures Mem() == old(Mem())[n := old(Mem())[n].(right := v)]
    {
      n.right := v;
    }

    method Adopt(n: Timer?, p: Timer)
      requires n != null ==> n in slots
      modifies (if n == null then {} else {n})`parent
      ensures Mem() == Adopted(old(Mem()), n, p)
    {
      if n != null {
        n.parent := p;
      }
    }

    /** The pointer to `from`, in its parent or in heap->min, now points to `to`. */
    method Repoint(p: Timer?, from: Timer, to: Timer)
      requires p != null ==> p in slots
      modifies this`min, Nodes()`left, Nodes()`right
      ensures Mem() == Repointed(old(Mem()), p, from, to)
      ensures min == if p == null then to else old(min)
    {
      if p == null {
        min := to;
      } else if p.left == from {
        SetLeft(p, to);
      } else {
        SetRight(p, to);
      }
    }

    /** heap_node_swap. */
    method NodeSwap(parent: Timer, child: Timer, ghost i: nat, ghost j: nat)
      requires Shape() && 2 <= j <= |slots| && j / 2 == i && parent == Slot(slots, i) && child == Slot(slots, j)
      modifies this`min, this`slots, Nodes()`left, Nodes()`right, Nodes()`parent
      ensures Shape() && slots == Swapped(old(slots), i, j) && Nodes() == old(Nodes()) && Ks() == SwapKeys(old(Ks()), i, j)
      ensures Slot(slots, i) == child && Slot(slots, j) == parent
    {
      ghost var m, mn, a := Mem(), min, slots;
      AroundSlots(m, mn, a, i, j);
      SwapLinks(parent, child, Slot(a, OtherChild(j)), Slot(a, 2 * j), Slot(a, 2 * j + 1), Slot(a, i / 2), j % 2 == 0);
      SwappedSlots(a, i, j, i);
      SwappedSlots(a, i, j, j);
      Relabel(m, mn, i, j, Swapped(a, i, j));
    }

    /** After the links of two nodes are swapped, so are their slots. */
    ghost method Relabel(m: Memory, mn: Timer?, i: nat, j: nat, a': seq<Timer>)
      requires Complete(m, mn, slots) && nelts == |slots| && 2 <= j <= |slots| && j / 2 == i && a' == Swapped(slots, i, j)
      requires Mem() == SwapAt(m, mn, slots, i, j) && min == if Slot(slots, i / 2) == null then Slot(slots, j) else mn
      modifies this`slots
      ensures Shape() && slots == a' && Nodes() == old(Nodes()) && Ks() == SwapKeys(Keys(m, old(slots)), i, j)
    {
      ghost var m', mn', ks := Mem(), min, SwapKeys(Keys(m, slots), i, j);
      SwapDone(m, mn, slots, i, j);
      assert Complete(m', mn', a') && Keys(m', a') == ks;
      slots := a';
      HasShape(m', mn', a', ks);
    }

    /** Lines 78 to 89; the sibling is the other child of the old parent. */
    method ExchangeLinks(parent: Timer, child: Timer) returns (sibling: Timer?)
      requires parent in slots && child in slots && parent != child
      modifies parent`left, parent`right, parent`parent, child`left, child`right, child`parent
      ensures Mem() == ExchangeMemory(old(Mem()), parent, child, old(parent.left) == child)
      ensures sibling == if old(parent.left) == child then old(parent.right) else old(parent.left)
      ensures parent.left == old(child.left) && parent.right == old(child.right) && child.parent == old(parent.parent)
    {
      var tl, tr, tp := parent.left, parent.right, parent.parent;
      SetLinks(parent, child.left, child.right, child.parent);
      SetLinks(child, tl, tr, tp);
      SetParent(parent, child);
      if child.left == child {
        SetLeft(child, parent);
        sibling := child.right;
      } else {
        SetRight(child, parent);
        sibling := child.left;
      }
    }

    /** Lines 90 to 96. */
    method AdoptAll(sibling: Timer?, child: Timer, l: Timer?, r: Timer?, parent: Timer)
      requires (sibling != null ==> sibling in slots) && (l != null ==> l in slots) && (r != null ==> r in slots)
      requires sibling != child && l != child && r != child
      modifies Nodes()`parent
      ensures Mem() == AdoptedAll(old(Mem()), parent, child, sibling, l, r) && child.parent == old(child.parent)
    {
      Adopt(sibling, child);
      Adopt(l, parent);
      Adopt(r, parent);
    }

    /** Lines 78 to 103. */
    method SwapLinks(parent: Timer, child: Timer, ghost s: Timer?, ghost cl: Timer?, ghost cr: Timer?, ghost g: Timer?, ghost onLeft: bool)
      requires parent in slots && child in slots && parent != child && s != child && cl != child && cr != child && g != child
      requires (s != null ==> s in slots) && (cl != null ==> cl in slots) && (cr != null ==> cr in slots) && (g != null ==> g in slots)
      requires parent.left == (if onLeft then child else s) && parent.right == (if onLeft then s else child) && parent.parent == g
      requires child.left == cl && child.right == cr
      modifies this`min, Nodes()`left, Nodes()`right, Nodes()`parent
      ensures Mem() == SwapMemory(old(Mem()), parent, child, s, cl, cr, g, onLeft)
      ensures min == if g == null then child else old(min)
    {
      TakeOver(parent, child, s, cl, cr, g, onLeft);
      Repoint(child.parent, parent, child);
    }

    /** Lines 78 to 96. */
    method TakeOver(parent: Timer, child: Timer, ghost s: Timer?, ghost cl: Timer?, ghost cr: Timer?, ghost g: Timer?, ghost onLeft: bool)
      requires parent in slots && child in slots && parent != child && s != child && cl != child && cr != child
      requires (s != null ==> s in slots) && (cl != null ==> cl in slots) && (cr != null ==> cr in slots)
      requires parent.left == (if onLeft then child else s) && parent.right == (if onLeft then s else child) && parent.parent == g
      requires child.left == cl && child.right == cr
      modifies Nodes()`left, Nodes()`right, Nodes()`parent
      ensures Mem() == AdoptedAll(ExchangeMemory(old(Mem()), parent, child, onLeft), parent, child, s, cl, cr) && child.parent == g
    {
      var sibling := ExchangeLinks(parent, child);
      AdoptAll(sibling, child, parent.left, parent.right, parent);
    }

    /** *loc, for a pointer to heap->min or to a child link. */
    function Deref(loc: Loc): Timer?
      reads this`min, if loc.Kid? then {loc.owner} else {}
    {
      match loc
      case Root => min
      case Kid(n, right) => if right then n.right else n.left
    }

    /** Lines 127 to 136, and 171 to 179: following the path to slot n. */
    method Walk(path0: nat, k0: nat, ghost n: nat) returns (parent: Loc, child: Loc)
      requires Shape() && 1 <= n <= |slots| + 1 && Shift(n, k0) == 1 && path0 == Reversed(n, k0)
      ensures child == LocOf(slots, n) && parent == LocOf(slots, n / 2)
    {
      var path, k := path0, k0;
      parent, child := Root, Root;
      while k > 0
        invariant path == Reversed(n, k) && Shift(n, k) >= 1
        invariant child == LocOf(slots, Shift(n, k)) && parent == LocOf(slots, Shift(n, k) / 2)
        invariant k == 0 ==> Shift(n, k) == n
      {
        ShiftBelow(n, k);
        LocHolds(Mem(), min, slots, Shift(n, k));
        parent := child;
        child := Kid(Deref(child), path % 2 == 1);
        path, k := path / 2, k - 1;
      }
    }

    /** Lines 119 to 136, and 163 to 179: where the links of slot n and of its parent slot are. */
    method Place(n: nat) returns (parent: Loc, child: Loc)
      requires Shape() && 1 <= n <= |slots| + 1
      ensures child == LocOf(slots, n) && parent == LocOf(slots, n / 2)
      ensures Shape() && Ks() == old(Ks())
    {
      var path, k := PathTo(n);
      parent, child := Walk(path, k, n);
    }

    /** *loc = v. */
    method Store(loc: Loc, v: Timer?)
      requires loc.Kid? ==> loc.owner in slots
      modifies this`min, (if loc.Kid? then {loc.owner} else {})`left, (if loc.Kid? then {loc.owner} else {})`right
      ensures loc.Root? ==> min == v && Mem() == old(Mem())
      ensures loc.Kid? ==> min == old(min) && Mem() == old(Mem())[loc.owner := WithKid(old(Mem())[loc.owner], loc.right, v)]
    {
      match loc
      case Root => min := v;
      case Kid(o, right) =>
        if right {
          o.right := v;
        } else {
          o.left := v;
        }
    }

    method NewLinks(newnode: Timer, parent: Timer?)
      requires newnode !in slots
      modifies this`slots, newnode`left, newnode`right, newnode`parent
      ensures slots == old(slots) + [newnode] && Mem() == old(Mem())[newnode := Cell(null, null, parent, KeyOf(newnode))]
    {
      newnode.left, newnode.right, newnode.parent := null, null, null;
      newnode.parent := parent;
      Enlist(newnode);
    }

    /** Lines 115 to 117 and 139 to 140. */
    method HangLinks(newnode: Timer, parent: Loc, child: Loc)
      requires newnode !in slots && (child.Kid? ==> child.owner in slots) && (parent.Kid? ==> parent.owner in slots)
      modifies this`min, this`slots, Nodes()`left, Nodes()`right, newnode`left, newnode`right, newnode`parent
      ensures slots == old(slots) + [newnode]
      ensures HungFrom(old(Mem()), old(min), Mem(), min, child, old(Deref(parent)), newnode, KeyOf(newnode))
    {
      NewLinks(newnode, Deref(parent));
      Store(child, newnode);
    }

    /** Lines 115 to 117 and 139 to 141: the new node becomes slot n, the first free one. */
    method Hang(newnode: Timer, parent: Loc, child: Loc)
      requires Shape() && newnode !in slots
      requires child == LocOf(slots, |slots| + 1) && parent == LocOf(slots, (|slots| + 1) / 2)
      modifies this, Nodes()`left, Nodes()`right, newnode`left, newnode`right, newnode`parent
      ensures Shape() && slots == old(slots) + [newnode] && Ks() == old(Ks()) + [KeyOf(newnode)]
    {
      ghost var m, mn, a, n := Mem(), min, slots, |slots| + 1;
      LocHolds(m, mn, a, n);
      LocHolds(m, mn, a, if n == 1 then 1 else n / 2);
      HangLinks(newnode, parent, child);
      nelts := nelts + 1;
      HungThere(m, mn, Mem(), min, a, newnode, KeyOf(newnode));
      HasShape(Mem(), min, slots, Keys(m, a) + [KeyOf(newnode)]);
    }

    /** timer_less_than on two members is Less on their keys. */
    lemma KeyAt(k: nat)
      requires Shape() && 1 <= k <= |slots|
      ensures At(Ks(), k) == KeyOf(slots[k - 1]) && slots[k - 1] in slots
    {
    }

    /** Lines 146 and 147, and 235 and 236: up as long as the node is less than its parent. */
    method SiftUp(n: Timer, ghost j0: nat)
      requires Shape() && 1 <= j0 <= |slots| && Slot(slots, j0) == n && OrderedBut(Ks(), j0) && AboveChildren(Ks(), j0)
      modifies this`min, this`slots, Nodes()`left, Nodes()`right, Nodes()`parent
      ensures Valid() && Nodes() == old(Nodes())
    {
      ghost var j := j0;
      ParentAt(j);
      while n.parent != null && Less(KeyOf(n), KeyOf(n.parent))
        invariant Shape() && 1 <= j <= |slots| && Slot(slots, j) == n && OrderedBut(Ks(), j) && AboveChildren(Ks(), j)
        invariant Nodes() == old(Nodes()) && n.parent == Slot(slots, j / 2)
        decreases j
      {
        Rising(j);
        NodeSwap(n.parent, n, j / 2, j);
        j := j / 2;
        ParentAt(j);
      }
      UpKeys(j);
      SiftUpDone(Ks(), j);
    }

    lemma Rising(j: nat)
      requires Shape() && 2 <= j <= |slots| && OrderedBut(Ks(), j) && AboveChildren(Ks(), j)
      requires Less(KeyOf(slots[j - 1]), KeyOf(slots[j / 2 - 1]))
      ensures var ks := SwapKeys(Ks(), j / 2, j); OrderedBut(ks, j / 2) && AboveChildren(ks, j / 2)
    {
      UpKeys(j);
      SiftUpStep(Ks(), j);
    }

    lemma ParentAt(j: nat)
      requires Shape() && 1 <= j <= |slots|
      ensures slots[j - 1].parent == Slot(slots, j / 2)
    {
      assert LinksOk(Mem(), slots, j);
    }

    lemma UpKeys(j: nat)
      requires Shape() && 1 <= j <= |slots|
      ensures At(Ks(), j) == KeyOf(slots[j - 1]) && (j >= 2 ==> At(Ks(), j / 2) == KeyOf(slots[j / 2 - 1]))
    {
      KeyAt(j);
      if j >= 2 {
        KeyAt(j / 2);
      }
    }

    /** Lines 119 to 141. */
    method Append(newnode: Timer)
      requires Shape() && newnode !in slots
      modifies this, Nodes()`left, Nodes()`right, newnode`left, newnode`right, newnode`parent
      ensures Shape() && slots == old(slots) + [newnode] && Ks() == old(Ks()) + [KeyOf(newnode)]
    {
      var parent, child := Place(1 + nelts);
      Hang(newnode, parent, child);
    }

    /** heap_insert. */
    method Insert(newnode: Timer)
      requires Valid() && newnode !in slots
      modifies this, Nodes()`left, Nodes()`right, Nodes()`parent, newnode`left, newnode`right, newnode`parent
      ensures Valid() && Nodes() == old(Nodes()) + {newnode} && nelts == old(nelts) + 1
    {
      LastSlotFree(Ks(), KeyOf(newnode));
      Append(newnode);
      assert Nodes() == old(Nodes()) + {newnode};
      SiftUp(newnode, nelts);
    }

    /** Lines 220 to 229: down as long as a child is less. */
    method SiftDown(child: Timer, ghost i: nat) returns (ghost j: nat)
      requires Shape() && 1 <= i <= |slots| && Slot(slots, i) == child && OrderedBut(Ks(), i)
      modifies this`min, this`slots, Nodes()`left, Nodes()`right, Nodes()`parent
      ensures Shape() && 1 <= j <= |slots| && Slot(slots, j) == child && OrderedBut(Ks(), j) && AboveChildren(Ks(), j)
      ensures Nodes() == old(Nodes())
    {
      j := i;
      while true
        invariant Shape() && 1 <= j <= |slots| && Slot(slots, j) == child && OrderedBut(Ks(), j) && Nodes() == old(Nodes())
        decreases |slots| - j
      {
        var smallest, s := Smallest(child, j);
        if smallest == child {
          return;
        }
        SiftDownStep(Ks(), j, s);
        NodeSwap(child, smallest, j, s);
        j := s;
      }
    }

    /** Lines 221 to 225. */
    method Smallest(child: Timer, ghost i: nat) returns (smallest: Timer, ghost s: nat)
      requires Shape() && 1 <= i <= |slots| && Slot(slots, i) == child
      ensures smallest == child ==> AboveChildren(Ks(), i)
      ensures smallest != child ==>
                && 2 <= s <= |slots| && s / 2 == i && smallest == Slot(slots, s) && Less(At(Ks(), s), At(Ks(), i))
                && forall k: nat :: 2 <= k && k / 2 == i ==> Pair(Ks(), s, k)
    {
      smallest, s := child, i;
      FamilyKeys(i);
      if child.left != null && Less(KeyOf(child.left), KeyOf(smallest)) {
        smallest, s := child.left, 2 * i;
      }
      if child.right != null && Less(KeyOf(child.right), KeyOf(smallest)) {
        smallest, s := child.right, 2 * i + 1;
      }
    }

    lemma FamilyKeys(i: nat)
      requires Shape() && 1 <= i <= |slots|
      ensures var n := slots[i - 1];
              && At(Ks(), i) == KeyOf(n)
              && n.left == Slot(slots, 2 * i) && n.right == Slot(slots, 2 * i + 1) && n.left != n && n.right != n
              && (2 * i <= |slots| ==> At(Ks(), 2 * i) == KeyOf(slots[2 * i - 1]))
              && (2 * i + 1 <= |slots| ==> At(Ks(), 2 * i + 1) == KeyOf(slots[2 * i]))
    {
      assert LinksOk(Mem(), slots, i);
      KeyAt(i);
      if 2 * i <= |slots| {
        KeyAt(2 * i);
        assert Slot(slots, i) != Slot(slots, 2 * i);
      }
      if 2 * i + 1 <= |slots| {
        KeyAt(2 * i + 1);
        assert Slot(slots, i) != Slot(slots, 2 * i + 1);
      }
    }

    /** Lines 196 to 236: child, taken from the last slot, goes where node is, and then down or up. */
    method Fill(node: Timer, child: Timer, ghost ks: seq<Key>)
      requires Shape() && node in slots && child !in slots && ks == Ks() && Ordered(ks)
      modifies this`min, this`slots, Nodes()`left, Nodes()`right, Nodes()`parent, child`left, child`right, child`parent
      ensures Valid() && Nodes() == old(Nodes()) - {node} + {child}
    {
      ghost var i0 :| 0 <= i0 < |slots| && slots[i0] == node;
      ghost var i := i0 + 1;
      OneReplaced(ks, i, KeyOf(child));
      Replace(node, child, i);
      ghost var j := SiftDown(child, i);
      SiftUp(child, j);
    }

    /** Lines 163 to 185: the node in the last slot. */
    method TakeLast() returns (child: Timer)
      requires Valid() && nelts > 0
      modifies this, Nodes()`left, Nodes()`right
      ensures Valid() && child == old(slots[|slots| - 1]) && child !in slots
      ensures Nodes() == old(Nodes()) - {child} && child in old(Nodes()) && nelts == old(nelts) - 1
    {
      FirstSlots(Ks());
      var parent, max := Place(nelts);
      child := Unhang(max, slots[..|slots| - 1], slots[|slots| - 1]);
    }

    /** heap_remove of a member; an empty heap stays as it is. */
    method Remove(node: Timer?)
      requires Valid() && (nelts > 0 ==> node != null && node in slots)
      modifies this, Nodes()`left, Nodes()`right, Nodes()`parent
      ensures Valid() && Nodes() == old(Nodes()) - {node}
      ensures nelts == if old(nelts) == 0 then 0 else old(nelts) - 1
    {
      if nelts == 0 {
        return;
      }
      var child := TakeLast();
      if child == node {
        return;
      }
      assert node in Nodes();
      Fill(node, child, Ks());
    }

    /** heap_dequeue. */
    method Dequeue()
      requires Valid()
      modifies this, Nodes()`left, Nodes()`right, Nodes()`parent
      ensures Valid() && Nodes() == old(Nodes()) - {old(min)}
      ensures old(nelts) > 0 ==> old(min) in old(Nodes())
    {
      Remove(min);
    }

    /** heap_min: NULL exactly when the heap is empty, and otherwise a least member. */
    method Min() returns (n: Timer?)
      requires Valid()
      ensures n == min && (n == null <==> Nodes() == {})
      ensures n != null ==> n in Nodes() && forall x :: x in Nodes() ==> Le(KeyOf(n), KeyOf(x))
    {
      n := min;
      MinLeast();
    }

    lemma MinLeast()
      requires Valid()
      ensures min == null <==> Nodes() == {}
      ensures min != null ==> min in Nodes() && forall x :: x in Nodes() ==> Le(KeyOf(min), KeyOf(x))
    {
      if min == null {
        assert slots == [];
      } else {
        assert slots[0] in Nodes();
        forall x | x in Nodes() ensures Le(KeyOf(min), KeyOf(x)) {
          var k :| 0 <= k < |slots| && slots[k] == x;
          LeastAtRoot(Ks(), k + 1);
          KeyAt(1);
          KeyAt(k + 1);
        }
      }
    }

    /** Lines 181 to 185: the node in the last slot is unlinked. */
    method Unhang(max: Loc, ghost rest: seq<Timer>, ghost x: Timer) returns (child: Timer)
      requires Shape() && slots != [] && max == LocOf(slots, nelts) && rest == slots[..|slots| - 1] && x == slots[|slots| - 1]
      modifies this, Nodes()`left, Nodes()`right
      ensures Shape() && slots == rest && child == x
      ensures child !in slots && Nodes() == old(Nodes()) - {child} && Ks() == old(Ks()[..|slots| - 1])
    {
      ghost var m, mn, a, ks := Mem(), min, slots, Ks()[..|slots| - 1];
      LocHolds(m, mn, a, nelts);
      nelts := nelts - 1;
      child := CutLast(max, rest, x);
      UnhungThere(m, mn, Mem(), min, a, rest, x);
      HasShape(Mem(), min, rest, ks);
    }

    method CutLast(max: Loc, ghost rest: seq<Timer>, ghost x: Timer) returns (child: Timer?)
      requires slots != [] && Distinct(slots) && (max.Kid? ==> max.owner in slots)
      requires rest == slots[..|slots| - 1] && x == slots[|slots| - 1]
      modifies this`min, this`slots, Nodes()`left, Nodes()`right
      ensures child == old(Deref(max)) && slots == rest
      ensures Nodes() == old(Nodes()) - {x} && UnhungFrom(old(Mem()), old(min), Mem(), min, max, x)
    {
      child := Deref(max);
      Store(max, null);
      Delist(rest, x);
    }

    ghost method Delist(rest: seq<Timer>, x: Timer)
      requires slots != [] && Distinct(slots) && rest == slots[..|slots| - 1] && x == slots[|slots| - 1]
      modifies this`slots
      ensures slots == rest && Nodes() == old(Nodes()) - {x} && Mem() == old(Mem()) - {x}
    {
      ButLast(slots);
      slots := rest;
    }

    /** Lines 196 to 214: child takes the place of node. */
    method Replace(node: Timer, child: Timer, ghost i: nat)
      requires Shape() && 1 <= i <= |slots| && slots[i - 1] == node && child !in slots
      modifies this`min, this`slots, Nodes()`left, Nodes()`right, Nodes()`parent, child`left, child`right, child`parent
      ensures Shape() && slots == old(slots)[i - 1 := child] && Nodes() == old(Nodes()) - {node} + {child}
      ensures Ks() == old(Ks())[i - 1 := KeyOf(child)]
    {
      ghost var m, mn, a := Mem(), min, slots;
      ReplaceAt(m, mn, a, i);
      ReplacedNodes(a, i, child);
      ReplaceLinks(node, child, i);
      ReplacedThere(m, mn, Mem(), min, a, i, child, KeyOf(child));
    }

    method CopyLinks(node: Timer, child: Timer)
      requires node in slots && child !in slots
      modifies this`slots, child`left, child`right, child`parent
      ensures slots == old(slots) + [child] && Mem() == old(Mem())[child := Cell(node.left, node.right, node.parent, KeyOf(child))]
    {
      child.left := node.left;
      child.right := node.right;
      child.parent := node.parent;
      Enlist(child);
    }

    /** Lines 200 to 206. */
    method AdoptBoth(l: Timer?, r: Timer?, child: Timer)
      requires (l != null ==> l in slots) && (r != null ==> r in slots)
      modifies (if l == null then {} else {l})`parent, (if r == null then {} else {r})`parent
      ensures Mem() == Adopted(Adopted(old(Mem()), l, child), r, child)
    {
      Adopt(l, child);
      Adopt(r, child);
    }

    /** Lines 196 to 214, with both nodes counted as members. */
    method MoveLinks(node: Timer, child: Timer)
      requires node in slots && child !in slots
      requires node.left != null ==> node.left in slots
      requires node.right != null ==> node.right in slots
      requires node.parent != null ==> node.parent in slots
      modifies this`min, this`slots, Nodes()`left, Nodes()`right, Nodes()`parent, child`left, child`right, child`parent
      ensures slots == old(slots) + [child]
      ensures Mem() == MoveMemory(old(Mem()), node, child, old(node.left), old(node.right), old(node.parent), KeyOf(child))
      ensures min == if old(node.parent) == null then child else old(min)
    {
      var l, r, p := node.left, node.right, node.parent;
      CopyLinks(node, child);
      AdoptBoth(l, r, child);
      Repoint(p, node, child);
    }

    method ReplaceLinks(node: Timer, child: Timer, ghost i: nat)
      requires 1 <= i <= |slots| && slots[i - 1] == node && child !in slots && Distinct(slots)
      requires node.left != null ==> node.left in slots
      requires node.right != null ==> node.right in slots
      requires node.parent != null ==> node.parent in slots
      modifies this`min, this`slots, Nodes()`left, Nodes()`right, Nodes()`parent, child`left, child`right, child`parent
      ensures slots == old(slots)[i - 1 := child]
      ensures Mem() == ReplaceMemory(old(Mem()), node, child, old(node.left), old(node.right), old(node.parent), KeyOf(child))
      ensures min == if old(node.parent) == null then child else old(min)
    {
      MoveLinks(node, child);
      assert slots[..|slots| - 1] == old(slots);
      Exchange(node, i);
    }

    /** The node removed no longer counts as a member; the one put in its place holds its slot. */
    ghost method Exchange(node: Timer, i: nat)
      requires |slots| >= 2 && 1 <= i < |slots| && slots[i - 1] == node && Distinct(slots[..|slots| - 1]) && slots[|slots| - 1] !in slots[..|slots| - 1]
      modifies this`slots
      ensures slots == old(slots[..|slots| - 1][i - 1 := slots[|slots| - 1]]) && Mem() == old(Mem()) - {node}
    {
      ghost var a, x := slots[..|slots| - 1], slots[|slots| - 1];
      ReplacedNodes(a, i, x);
      assert slots == a + [x] && NodesOf(slots) == NodesOf(a) + {x};
      slots := a[i - 1 := x];
    }

    /** The new node counts as a member from here on. */
    ghost method Enlist(x: Timer)
      requires x !in slots
      modifies this`slots
      ensures slots == old(slots) + [x] && Nodes() == old(Nodes()) + {x}
      ensures Mem() == old(Mem())[x := Cell(x.left, x.right, x.parent, KeyOf(x))]
    {
      slots := slots + [x];
    }
  }

  /** The new node x, pointed to from `child` and pointing to its parent. */
  ghost predicate HungFrom(m: Memory, min: Timer?, m': Memory, min': Timer?, child: Loc, parent: Timer?, x: Timer, key: Key) {
    var m1 := m[x := Cell(null, null, parent, key)];
    if child.Root? then min' == x && m' == m1
    else min' == min && child.owner in m && m' == m1[child.owner := WithKid(m1[child.owner], child.right, x)]
  }

  lemma HungThere(m: Memory, min: Timer?, m': Memory, min': Timer?, a: seq<Timer>, x: Timer, key: Key)
    requires Complete(m, min, a) && x !in m
    requires HungFrom(m, min, m', min', LocOf(a, |a| + 1), Slot(a, (|a| + 1) / 2), x, key)
    ensures Complete(m', min', a + [x]) && Keys(m', a + [x]) == Keys(m, a) + [key]
  {
    LocHolds(m, min, a, |a| + 1);
    AppendedComplete(m, min, m', min', a, x);
    forall k | 0 <= k < |a| ensures Keys(m', a + [x])[k] == Keys(m, a)[k] {
      assert a[k] in NodesOf(a);
    }
  }

  /** A slot's link is stored where LocOf says. */
  lemma LocHolds(m: Memory, min: Timer?, a: seq<Timer>, s: nat)
    requires Complete(m, min, a) && 1 <= s <= |a| + 1
    ensures var loc := LocOf(a, s);
            match loc
            case Root => s == 1 && min == Slot(a, s)
            case Kid(o, right) => s > 1 && o == Slot(a, s / 2) && o in m && Slot(a, s) == if right then m[o].right else m[o].left
  {
    assert LinksOk(m, a, s / 2);
  }

  /** A place where a link is stored. */
  datatype Loc = Root | Kid(owner: Timer, right: bool)

  function LocOf(a: seq<Timer>, s: nat): Loc {
    if s <= 1 || Slot(a, s / 2) == null then Root else Kid(Slot(a, s / 2), s % 2 == 1)
  }

  lemma SwappedKeys(m: Memory, min: Timer?, a: seq<Timer>, i: nat, j: nat)
    requires Complete(m, min, a) && 2 <= j <= |a| && j / 2 == i
    ensures NodesOf(Swapped(a, i, j)) == NodesOf(a) == SwapAt(m, min, a, i, j).Keys
    ensures Keys(SwapAt(m, min, a, i, j), Swapped(a, i, j)) == SwapKeys(Keys(m, a), i, j)
  {
    KeysStay(m, min, a, i, j);
    SwappedNodes(a, i, j);
    SameKeys(m, SwapAt(m, min, a, i, j), a, i, j);
  }

  /** All that a swap does to a heap. */
  lemma SwapDone(m: Memory, min: Timer?, a: seq<Timer>, i: nat, j: nat)
    requires Complete(m, min, a) && 2 <= j <= |a| && j / 2 == i
    ensures Complete(SwapAt(m, min, a, i, j), if i == 1 then Slot(a, j) else min, Swapped(a, i, j))
    ensures NodesOf(Swapped(a, i, j)) == NodesOf(a) == SwapAt(m, min, a, i, j).Keys
    ensures Keys(SwapAt(m, min, a, i, j), Swapped(a, i, j)) == SwapKeys(Keys(m, a), i, j)
    ensures Slot(a, i / 2) == null <==> i == 1
  {
    SwappedComplete(m, min, a, i, j);
    SwappedKeys(m, min, a, i, j);
  }

  lemma SameKeys(m: Memory, m': Memory, a: seq<Timer>, i: nat, j: nat)
    requires 1 <= i <= |a| && 1 <= j <= |a| && NodesOf(a) == m.Keys == m'.Keys == NodesOf(Swapped(a, i, j))
    requires forall n :: n in m ==> m'[n].key == m[n].key
    ensures Keys(m', Swapped(a, i, j)) == SwapKeys(Keys(m, a), i, j)
  {
    forall k | 0 <= k < |a| ensures Keys(m', Swapped(a, i, j))[k] == SwapKeys(Keys(m, a), i, j)[k] {
      assert a[i - 1] in m && a[j - 1] in m && a[k] in m;
    }
  }

  lemma ButLast(a: seq<Timer>)
    requires a != [] && Distinct(a)
    ensures NodesOf(a[..|a| - 1]) == NodesOf(a) - {a[|a| - 1]} && Distinct(a[..|a| - 1])
  {
    var a', x := a[..|a| - 1], a[|a| - 1];
    assert a == a' + [x];
    forall y ensures y in a' <==> y in a && y != x {
      if y in a' {
        var k :| 0 <= k < |a'| && a'[k] == y;
        assert Slot(a, k + 1) != Slot(a, |a|);
      }
    }
    forall k, l | 1 <= k < l < |a| ensures Slot(a', k) != Slot(a', l) {
      assert Slot(a, k) != Slot(a, l);
    }
  }

  /** The node x, and the pointer to it stored at `max`, gone. */
  ghost predicate UnhungFrom(m: Memory, min: Timer?, m': Memory, min': Timer?, max: Loc, x: Timer) {
    if max.Root? then min' == null && m' == m - {x}
    else min' == min && max.owner in m && m' == m[max.owner := WithKid(m[max.owner], max.right, null)] - {x}
  }

  lemma UnhungThere(m: Memory, min: Timer?, m': Memory, min': Timer?, a: seq<Timer>, rest: seq<Timer>, x: Timer)
    requires Complete(m, min, a) && a != [] && rest == a[..|a| - 1] && x == a[|a| - 1]
    requires UnhungFrom(m, min, m', min', LocOf(a, |a|), x)
    ensures Complete(m', min', rest) && NodesOf(rest) <= m.Keys && Keys(m', rest) == Keys(m, a)[..|a| - 1]
  {
    LocHolds(m, min, a, |a|);
    ButLast(a);
    assert x in NodesOf(a);
    if |a| > 1 {
      assert Slot(a, |a| / 2) != Slot(a, |a|);
    }
    UnhungComplete(m, min, m', min', a);
    UnhungKeys(m, m', a, rest);
  }

  lemma UnhungKeys(m: Memory, m': Memory, a: seq<Timer>, rest: seq<Timer>)
    requires a != [] && NodesOf(a) <= m.Keys && rest == a[..|a| - 1] && NodesOf(rest) <= m'.Keys
    requires forall n :: n in m' ==> n in m && m'[n].key == m[n].key
    ensures Keys(m', rest) == Keys(m, a)[..|a| - 1]
  {
    var ks, ks' := Keys(m, a), Keys(m', rest);
    forall k | 0 <= k < |a| - 1 ensures ks'[k] == ks[k] {
      assert rest[k] == a[k] && a[k] in NodesOf(rest);
    }
  }

  /** The assignments of lines 196 to 214. */
  ghost function MoveMemory(m: Memory, o: Timer, x: Timer, l: Timer?, r: Timer?, p: Timer?, key: Key): Memory
    requires o in m && (l != null ==> l in m) && (r != null ==> r in m) && (p != null ==> p in m)
  {
    Repointed(Adopted(Adopted(m[x := Cell(l, r, p, key)], l, x), r, x), p, o, x)
  }

  ghost function ReplaceMemory(m: Memory, o: Timer, x: Timer, l: Timer?, r: Timer?, p: Timer?, key: Key): Memory
    requires o in m && (l != null ==> l in m) && (r != null ==> r in m) && (p != null ==> p in m)
  {
    MoveMemory(m, o, x, l, r, p, key) - {o}
  }

  /** The nodes around slot i are members, and different. */
  lemma ReplaceAt(m: Memory, min: Timer?, a: seq<Timer>, i: nat)
    requires Complete(m, min, a) && 1 <= i <= |a|
    ensures var o, l, r, p := Slot(a, i), Slot(a, 2 * i), Slot(a, 2 * i + 1), Slot(a, i / 2);
            && o in m && m[o].left == l && m[o].right == r && m[o].parent == p
            && (l != null ==> l in m && l != o && l != r && l != p) && (r != null ==> r in m && r != o && r != p)
            && (p != null ==> p in m && p != o) && (p == null <==> i == 1)
            && (p != null ==> (m[p].left == o <==> i % 2 == 0))
  {
    assert LinksOk(m, a, i) && LinksOk(m, a, i / 2);
    forall k | 1 <= k <= |a| ensures Slot(a, k) in m {
      assert LinksOk(m, a, k);
    }
  }

  lemma ReplacedThere(m: Memory, min: Timer?, m': Memory, min': Timer?, a: seq<Timer>, i: nat, x: Timer, key: Key)
    requires Complete(m, min, a) && 1 <= i <= |a| && x !in m
    requires (ReplaceAt(m, min, a, i);
              m' == ReplaceMemory(m, Slot(a, i), x, Slot(a, 2 * i), Slot(a, 2 * i + 1), Slot(a, i / 2), key))
    requires min' == if Slot(a, i / 2) == null then x else min
    ensures Complete(m', min', a[i - 1 := x]) && Keys(m', a[i - 1 := x]) == Keys(m, a)[i - 1 := key]
  {
    ReplaceAt(m, min, a, i);
    ReplacedCells(m, min, m', min', a, i, x, key);
    ReplacedComplete(m, min, m', min', a, i, x);
    var ks, ks' := Keys(m, a)[i - 1 := key], Keys(m', a[i - 1 := x]);
    forall k | 0 <= k < |a| ensures ks'[k] == ks[k] {
      assert a[k] in NodesOf(a);
      assert k != i - 1 ==> Slot(a, k + 1) != Slot(a, i);
    }
  }

  lemma ReplacedCells(m: Memory, min: Timer?, m': Memory, min': Timer?, a: seq<Timer>, i: nat, x: Timer, key: Key)
    requires Complete(m, min, a) && 1 <= i <= |a| && x !in m
    requires (ReplaceAt(m, min, a, i);
              m' == ReplaceMemory(m, Slot(a, i), x, Slot(a, 2 * i), Slot(a, 2 * i + 1), Slot(a, i / 2), key))
    requires min' == if Slot(a, i / 2) == null then x else min
    ensures Replaced(m, min, m', min', a, i, x) && m'[x].key == key && forall y :: y in m && y != Slot(a, i) ==> m'[y].key == m[y].key
  {
    ReplaceAt(m, min, a, i);
  }

  lemma LastSlotFree(ks: seq<Key>, key: Key)
    requires Ordered(ks)
    ensures OrderedBut(ks + [key], |ks| + 1) && AboveChildren(ks + [key], |ks| + 1)
  {
    forall k: nat | 2 <= k && k != |ks| + 1 ensures Pair(ks + [key], k / 2, k) {
      assert Pair(ks, k / 2, k);
    }
  }

  lemma FirstSlots(ks: seq<Key>)
    requires Ordered(ks) && ks != []
    ensures Ordered(ks[..|ks| - 1])
  {
    forall k: nat | 2 <= k ensures Pair(ks[..|ks| - 1], k / 2, k) {
      assert Pair(ks, k / 2, k);
    }
  }

  lemma OneReplaced(ks: seq<Key>, i: nat, key: Key)
    requires Ordered(ks) && 1 <= i <= |ks|
    ensures OrderedBut(ks[i - 1 := key], i)
  {
    var ks' := ks[i - 1 := key];
    forall k: nat | 2 <= k && k != i && k / 2 != i ensures Pair(ks', k / 2, k) {
      assert Pair(ks, k / 2, k);
    }
    forall k: nat | 2 <= k && k / 2 == i ensures Pair(ks', i / 2, k) {
      assert Pair(ks, k / 2, k) && Pair(ks, i / 2, i);
    }
  }
}
