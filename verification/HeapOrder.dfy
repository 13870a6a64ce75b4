/** Heap order over numbered slots, while one slot is out of place (src/heap-inl.h:143-147 and 216-236). */
module HeapOrder {
  import opened HeapSlots

  /** timer_less_than is a strict total order on keys, so its negation is a total order. */
  predicate Le(a: Key, b: Key) {
    !Less(b, a)
  }

  /** The key in slot k of a sequence of keys. */
  function At(ks: seq<Key>, k: nat): Key
    requires 1 <= k <= |ks|
  {
    ks[k - 1]
  }

  /** Slots i and k are in order, if there are such slots. */
  predicate Pair(ks: seq<Key>, i: nat, k: nat) {
    1 <= i <= |ks| && 1 <= k <= |ks| ==> Le(At(ks, i), At(ks, k))
  }

  ghost predicate Ordered(ks: seq<Key>) {
    forall k: nat :: 2 <= k ==> Pair(ks, k / 2, k)
  }

  /** Ordered but for slot i, whose parent and children are in order with each other. */
  ghost predicate OrderedBut(ks: seq<Key>, i: nat) {
    && (forall k: nat :: 2 <= k && k != i && k / 2 != i ==> Pair(ks, k / 2, k))
    && (forall k: nat :: 2 <= k && k / 2 == i ==> Pair(ks, i / 2, k))
  }

  ghost predicate AboveChildren(ks: seq<Key>, i: nat) {
    forall k: nat :: 2 <= k && k / 2 == i ==> Pair(ks, i, k)
  }

  function SwapKeys(ks: seq<Key>, i: nat, j: nat): seq<Key>
    requires 1 <= i <= |ks| && 1 <= j <= |ks|
  {
    ks[i - 1 := ks[j - 1]][j - 1 := ks[i - 1]]
  }

  lemma SiftUpStep(ks: seq<Key>, j: nat)
    requires 2 <= j <= |ks| && OrderedBut(ks, j) && AboveChildren(ks, j) && Less(At(ks, j), At(ks, j / 2))
    ensures var ks' := SwapKeys(ks, j / 2, j); OrderedBut(ks', j / 2) && AboveChildren(ks', j / 2)
  {
    var i, ks' := j / 2, SwapKeys(ks, j / 2, j);
    assert i >= 2 ==> Pair(ks, i / 2, i);
    forall k: nat | 2 <= k && k != i && k / 2 != i ensures Pair(ks', k / 2, k) {
      assert if k / 2 == j then Pair(ks, i, k) else Pair(ks, k / 2, k);
    }
    forall k: nat | 2 <= k && k / 2 == i ensures Pair(ks', i / 2, k) && Pair(ks', i, k) {
      assert k != j ==> Pair(ks, i, k);
    }
  }

  lemma SiftUpDone(ks: seq<Key>, j: nat)
    requires 1 <= j && OrderedBut(ks, j) && AboveChildren(ks, j)
    requires 2 <= j <= |ks| ==> !Less(At(ks, j), At(ks, j / 2))
    ensures Ordered(ks)
  {
    forall k: nat | 2 <= k ensures Pair(ks, k / 2, k) {
      assert k != j && k / 2 != j ==> Pair(ks, k / 2, k);
      assert k / 2 == j ==> Pair(ks, j, k);
    }
  }

  /** One step down: slot i swaps with its smallest child j. */
  lemma SiftDownStep(ks: seq<Key>, i: nat, j: nat)
    requires 2 <= j <= |ks| && i == j / 2 && OrderedBut(ks, i) && Less(At(ks, j), At(ks, i))
    requires forall k: nat :: 2 <= k && k / 2 == i ==> Pair(ks, j, k)
    ensures OrderedBut(SwapKeys(ks, i, j), j)
  {
    var ks' := SwapKeys(ks, i, j);
    assert Pair(ks, i / 2, j);
    forall k: nat | 2 <= k && k != j && k / 2 != j ensures Pair(ks', k / 2, k) {
      assert if k / 2 == i then Pair(ks, j, k) else k != i ==> Pair(ks, k / 2, k);
    }
    forall k: nat | 2 <= k && k / 2 == j ensures Pair(ks', i, k) {
      assert Pair(ks, j, k);
    }
  }

  lemma {:induction false} LeastAtRoot(ks: seq<Key>, k: nat)
    requires Ordered(ks) && 1 <= k <= |ks|
    ensures Le(At(ks, 1), At(ks, k))
  {
    if k > 1 {
      LeastAtRoot(ks, k / 2);
      assert Pair(ks, k / 2, k);
    }
  }

  // ---------- Paths ----------

  /** n >> k. */
  function Shift(n: nat, k: nat): nat {
    if k == 0 then n else Shift(n, k - 1) / 2
  }

  /** The k low bits of n in reverse, which is how lines 122 to 124 and 166 to 168 store them in `path`. */
  function Reversed(n: nat, k: nat): nat {
    if k == 0 then 0 else 2 * Reversed(n, k - 1) + Shift(n, k - 1) % 2
  }

  lemma {:induction false} ShiftBelow(n: nat, k: nat)
    ensures Shift(n, k) <= n && (k >= 1 ==> Shift(n, k) <= n / 2)
  {
    if k > 1 {
      ShiftBelow(n, k - 1);
    }
  }

  lemma HalvedProduct(p: nat, cur: nat, n: nat)
    requires p * cur <= n
    ensures 2 * p * (cur / 2) <= n
  {
    assert 2 * (cur / 2) <= cur;
    assert p * (2 * (cur / 2)) <= p * cur;
  }

  /** The loops over `path`: the bits of slot n below its leading one, and how many there are.  Nothing
      overflows, since the path is below n. */
  method PathTo(n0: nat) returns (path: nat, k: nat)
    requires n0 >= 1
    ensures Shift(n0, k) == 1 && path == Reversed(n0, k) && path < n0
  {
    var n := n0;
    path, k := 0, 0;
    ghost var p := 1;
    while n >= 2
      invariant n >= 1 && n == Shift(n0, k) && path == Reversed(n0, k)
      invariant path < p && p * n <= n0
    {
      HalvedProduct(p, n, n0);
      p := 2 * p;
      path := 2 * path + n % 2;
      k, n := k + 1, n / 2;
    }
  }
}
