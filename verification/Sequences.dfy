/** Sequences: distinct elements, and taking an element out.  Sets that differ in one element. */
module Sequences {
  lemma Assoc<T>(a: seq<T>, b: seq<T>, c: seq<T>)
    ensures (a + b) + c == a + (b + c)
  {
  }

  predicate Distinct<T(==)>(q: seq<T>) {
    forall i, j :: 0 <= i < j < |q| ==> q[i] != q[j]
  }

  lemma TailDistinct<T>(q: seq<T>)
    requires Distinct(q) && q != []
    ensures Distinct(q[1..]) && q[0] !in q[1..] && forall v :: v in q <==> v == q[0] || v in q[1..]
  {
    var tail := q[1..];
    forall i, j | 0 <= i < j < |tail| ensures tail[i] != tail[j] {
      assert q[i + 1] != q[j + 1];
    }
    assert q == [q[0]] + tail;
  }

  /** QUEUE_REMOVE of an element that may be on the list. */
  function Without<T(==)>(q: seq<T>, x: T): (r: seq<T>)
    ensures |r| <= |q|
  {
    if q == [] then [] else if q[0] == x then Without(q[1..], x) else [q[0]] + Without(q[1..], x)
  }

  lemma {:induction false} WithoutCounts<T>(q: seq<T>, x: T)
    ensures multiset(Without(q, x)) == multiset(q)[x := 0]
    ensures |Without(q, x)| == |q| - multiset(q)[x]
  {
    if q != [] {
      assert q == [q[0]] + q[1..];
      WithoutCounts(q[1..], x);
    }
  }

  lemma {:induction false} WithoutIs<T>(q: seq<T>, x: T)
    ensures forall v :: v in Without(q, x) ==> v in q && v != x
    ensures forall v :: v in q && v != x ==> v in Without(q, x)
  {
    if q != [] {
      WithoutIs(q[1..], x);
      assert q == [q[0]] + q[1..];
    }
  }

  lemma {:induction false} WithoutDistinct<T>(q: seq<T>, x: T)
    requires Distinct(q)
    ensures Distinct(Without(q, x))
  {
    if q != [] {
      TailDistinct(q);
      WithoutDistinct(q[1..], x);
      WithoutIs(q[1..], x);
    }
  }

  lemma {:induction false} WithoutNone<T>(q: seq<T>, x: T)
    requires x !in q
    ensures Without(q, x) == q
  {
    if q != [] {
      WithoutNone(q[1..], x);
    }
  }

  lemma {:induction false} WithoutAt<T>(q: seq<T>, k: nat)
    requires Distinct(q) && k < |q|
    ensures Without(q, q[k]) == q[..k] + q[k + 1..]
  {
    TailDistinct(q);
    if k > 0 {
      WithoutAt(q[1..], k - 1);
      assert q[..k] == [q[0]] + q[1..][..k - 1] && q[1..][k..] == q[k + 1..];
    } else {
      WithoutNone(q[1..], q[0]);
    }
  }

  /** Sets that differ in x at most. */
  lemma OneChanged<T>(a: set<T>, b: set<T>, x: T)
    requires (forall v :: v in a && v != x ==> v in b) && (forall v :: v in b && v != x ==> v in a)
    ensures |b| == |a| - (if x in a then 1 else 0) + (if x in b then 1 else 0)
  {
    assert a - {x} == b - {x};
    assert |a - {x}| == |a| - (if x in a then 1 else 0);
    assert |b - {x}| == |b| - (if x in b then 1 else 0);
  }
}
