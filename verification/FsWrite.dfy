/** Writing all of a list of buffers (src/unix/fs.c:1466-1523), for every sequence of partial results of the kernel. */
module FsWrite {
  import opened Sequences

  type Byte = x: int | 0 <= x < 256

  type Buffers = seq<seq<Byte>>

  /** What one call of uv__fs_write meets: an interruption, or a result.  A positive result is cut down to what was
      handed over, since the kernel takes no more. */
  datatype Outcome = Interrupted | Returned(n: int)

  function Concat(bufs: Buffers): seq<Byte> {
    if bufs == [] then [] else bufs[0] + Concat(bufs[1..])
  }

  lemma {:induction false} ConcatSplits(bufs: Buffers, k: nat)
    requires k <= |bufs|
    ensures Concat(bufs) == Concat(bufs[..k]) + Concat(bufs[k..])
  {
    if k == 0 {
      assert bufs[..0] == [] && bufs[0..] == bufs;
    } else {
      ConcatSplits(bufs[1..], k - 1);
      assert bufs[..k][1..] == bufs[1..][..k - 1] && bufs[1..][k - 1..] == bufs[k..];
      Assoc(bufs[0], Concat(bufs[..k][1..]), Concat(bufs[k..]));
    }
  }

  // ---------- uv__fs_buf_offset ----------

  /** The buffers without their first `size` bytes.  An empty buffer that follows the last of these bytes stays. */
  function Drop(bufs: Buffers, size: nat): Buffers {
    if size == 0 || bufs == [] then bufs
    else if |bufs[0]| <= size then Drop(bufs[1..], size - |bufs[0]|)
    else [bufs[0][size..]] + bufs[1..]
  }

  lemma {:induction false} DropConcat(bufs: Buffers, size: nat)
    requires size <= |Concat(bufs)|
    ensures Concat(Drop(bufs, size)) == Concat(bufs)[size..] && |Drop(bufs, size)| <= |bufs|
  {
    if size > 0 && |bufs[0]| <= size {
      DropConcat(bufs[1..], size - |bufs[0]|);
      DropBoth(bufs[0], Concat(bufs[1..]), size);
    } else if size > 0 {
      var r := [bufs[0][size..]] + bufs[1..];
      assert r[1..] == bufs[1..];
    }
  }

  /** What is left of t + u behind its first n elements, when t is among them. */
  lemma DropBoth<T>(t: seq<T>, u: seq<T>, n: nat)
    requires |t| <= n <= |t| + |u|
    ensures (t + u)[n..] == u[n - |t|..]
  {
  }

  /** Buffers behind those that hold the bytes are not looked at. */
  lemma {:induction false} DropFront(a: Buffers, b: Buffers, size: nat)
    requires size <= |Concat(a)|
    ensures size <= |Concat(a + b)| && Drop(a + b, size) == Drop(a, size) + b
  {
    ConcatJoins(a, b);
    if size > 0 {
      assert (a + b)[1..] == a[1..] + b;
      if |a[0]| <= size {
        DropFront(a[1..], b, size - |a[0]|);
      }
    }
  }

  lemma ConcatJoins(a: Buffers, b: Buffers)
    ensures Concat(a + b) == Concat(a) + Concat(b)
  {
    ConcatSplits(a + b, |a|);
    assert (a + b)[..|a|] == a && (a + b)[|a|..] == b;
  }

  /** uv__fs_buf_offset on the buffers from `start` on: the first `size` bytes are taken off, and the number of buffers
      that are done is returned.  It looks at no buffer from `end` on, if those before hold the bytes. */
  method BufOffset(bufs: array<seq<Byte>>, start: nat, size0: nat, ghost end: nat) returns (offset: nat)
    requires start <= end <= bufs.Length && size0 <= |Concat(bufs[start..end])|
    modifies bufs
    ensures start + offset <= end
    ensures bufs[start + offset..end] == Drop(old(bufs[start..end]), size0)
    ensures forall i :: 0 <= i < bufs.Length && !(start <= i < end) ==> bufs[i] == old(bufs[i])
  {
    var size: nat := size0;
    offset := 0;
    ghost var rest := bufs[start..end];
    while size > 0 && |bufs[start + offset]| <= size
      invariant start + offset <= end && bufs[..] == old(bufs[..]) && rest == bufs[start + offset..end]
      invariant size <= |Concat(rest)| && Drop(rest, size) == Drop(old(bufs[start..end]), size0)
      invariant size > 0 ==> start + offset < end
      decreases end - start - offset
    {
      assert rest[0] == bufs[start + offset] && rest[1..] == bufs[start + offset + 1..end];
      rest := rest[1..];
      size := size - |bufs[start + offset]|;
      offset := offset + 1;
    }
    if size > 0 {
      bufs[start + offset] := bufs[start + offset][size..];
      assert bufs[start + offset..end] == [rest[0][size..]] + rest[1..];
    }
  }

  // ---------- uv__fs_write_all ----------

  /** One system call that was not interrupted: where, how many buffers and which bytes it was given, and its result. */
  datatype Call = Call(off: int, count: nat, handed: seq<Byte>, result: int) {
    function Taken(): seq<Byte> {
      if 0 < result <= |handed| then handed[..result] else []
    }
  }

  /** The calls made so far, the last one outermost. */
  datatype Log = Start | Then(before: Log, call: Call) {
    /** The bytes taken by all calls. */
    ghost function Taken(): seq<Byte> {
      if Start? then [] else before.Taken() + call.Taken()
    }

    ghost function Calls(): nat {
      if Start? then 0 else 1 + before.Calls()
    }

    /** Every call took something. */
    ghost predicate AllTake() {
      Then? ==> before.AllTake() && call.result > 0
    }

    function First(): Call
      requires Then?
    {
      if before.Start? then call else before.First()
    }
  }

  /** The result the kernel has for the next call that it does not interrupt; beyond the script, every call fails. */
  function Answer(script: seq<Outcome>): int {
    if script == [] then -1 else if script[0].Interrupted? then Answer(script[1..]) else script[0].n
  }

  /** The script after that call. */
  ghost function Rest(script: seq<Outcome>): seq<Outcome> {
    if script == [] then [] else if script[0].Interrupted? then Rest(script[1..]) else script[1..]
  }

  /** The first k attempts are interrupted. */
  predicate AllInterrupted(script: seq<Outcome>, k: nat) {
    k <= |script| && forall i :: 0 <= i < k ==> script[i].Interrupted?
  }

  /** The call is made again until it is not interrupted, and no more often: every interruption and the first result are
      used up. */
  lemma {:induction false} AnswerIs(script: seq<Outcome>, k: nat)
    requires AllInterrupted(script, k)
    ensures k < |script| && script[k].Returned? ==> Answer(script) == script[k].n && Rest(script) == script[k + 1..]
    ensures k == |script| ==> Answer(script) == -1 && Rest(script) == []
  {
    if k > 0 {
      var more := script[1..];
      forall i | 0 <= i < k - 1 ensures more[i].Interrupted? {
        assert more[i] == script[i + 1];
      }
      AnswerIs(more, k - 1);
    }
  }

  /** A call with the first iovmax of the buffers that are left, or with all of them, at the offset where the `done`
      bytes that are written end. */
  ghost predicate Proper(c: Call, done: nat, left: Buffers, iovmax: nat, off0: int, answer: int) {
    && c.off == (if off0 >= 0 then off0 + done else off0)
    && left != [] && c.count == Min(iovmax, |left|)
    && c.handed == Concat(left[..c.count])
    && c.result == Min(answer, |c.handed|)
  }

  /** The buffers after the calls, and what is left of the script. */
  ghost function Left(log: Log, bufs: Buffers): Buffers {
    if log.Start? then bufs else Drop(Left(log.before, bufs), |log.call.Taken()|)
  }

  ghost function RestAfter(script: seq<Outcome>, log: Log): seq<Outcome> {
    if log.Start? then script else Rest(RestAfter(script, log.before))
  }

  /** All calls were proper, each after those before it, and all but possibly the last one took something. */
  ghost predicate Made(log: Log, bufs: Buffers, iovmax: nat, off0: int, script: seq<Outcome>) {
    log.Then? ==>
      && Made(log.before, bufs, iovmax, off0, script) && log.before.AllTake()
      && Proper(log.call, |log.before.Taken()|, Left(log.before, bufs), iovmax, off0, Answer(RestAfter(script, log.before)))
  }

  /** What uv__fs_write_all has done: proper calls, up to the first that takes nothing or until no buffer is left.  The
      total is what they took, or else the result of the first call. */
  ghost predicate Finished(log: Log, bufs: Buffers, iovmax: nat, off0: int, script: seq<Outcome>, total: int, off: int) {
    && Made(log, bufs, iovmax, off0, script)
    && (log.Start? || log.call.result > 0 ==> Left(log, bufs) == [])
    && total == (if log.Then? && log.First().result <= 0 then log.First().result else |log.Taken()|)
    && off == if off0 >= 0 then off0 + |log.Taken()| else off0
  }

  /** Between two calls: all have taken something, `left` is to be written from `off` on. */
  ghost predicate Between(log: Log, bufs: Buffers, iovmax: nat, off0: int, script: seq<Outcome>, total: int, off: int,
                          rest: seq<Outcome>, left: Buffers) {
    && Made(log, bufs, iovmax, off0, script) && log.AllTake() && left == Left(log, bufs)
    && total == |log.Taken()| && off == (if off0 >= 0 then off0 + total else off0)
    && rest == RestAfter(script, log)
  }

  lemma CallTakes(c: Call, done: nat, left: Buffers, iovmax: nat, off0: int, answer: int)
    requires Proper(c, done, left, iovmax, off0, answer)
    ensures c.Taken() <= c.handed <= Concat(left) && Concat(left) == c.Taken() + Concat(Drop(left, |c.Taken()|))
  {
    ConcatSplits(left, c.count);
    DropConcat(left, |c.Taken()|);
  }

  /** The bytes that were taken are the first ones, in order. */
  lemma {:induction false} TakenFirst(log: Log, bufs: Buffers, iovmax: nat, off0: int, script: seq<Outcome>)
    requires Made(log, bufs, iovmax, off0, script)
    ensures Concat(bufs) == log.Taken() + Concat(Left(log, bufs))
  {
    if log.Then? {
      TakenFirst(log.before, bufs, iovmax, off0, script);
      var left := Left(log.before, bufs);
      CallTakes(log.call, |log.before.Taken()|, left, iovmax, off0, Answer(RestAfter(script, log.before)));
      Assoc(log.before.Taken(), log.call.Taken(), Concat(Left(log, bufs)));
    }
  }

  lemma {:induction false} FirstTook(log: Log)
    requires log.AllTake() && log.Then?
    ensures log.First().result > 0
  {
    if log.before.Then? {
      FirstTook(log.before);
    }
  }

  /** Calls that took something took a byte each. */
  lemma {:induction false} SomeTaken(log: Log, bufs: Buffers, iovmax: nat, off0: int, script: seq<Outcome>)
    requires log.AllTake() && Made(log, bufs, iovmax, off0, script)
    ensures |log.Taken()| >= log.Calls()
  {
    if log.Then? {
      SomeTaken(log.before, bufs, iovmax, off0, script);
    }
  }

  lemma OneMoreFailed(log: Log, c: Call, bufs: Buffers, iovmax: nat, off0: int, script: seq<Outcome>, total: nat, off: int,
                      rest: seq<Outcome>, left: Buffers)
    requires Between(log, bufs, iovmax, off0, script, total, off, rest, left)
    requires Proper(c, total, left, iovmax, off0, Answer(rest)) && c.result <= 0
    ensures Finished(Then(log, c), bufs, iovmax, off0, script, if total == 0 then c.result else total, off)
  {
    SomeTaken(log, bufs, iovmax, off0, script);
    if log.Then? {
      FirstTook(log);
    }
  }

  lemma RanOut(log: Log, bufs: Buffers, iovmax: nat, off0: int, script: seq<Outcome>, total: int, off: int, rest: seq<Outcome>)
    requires Between(log, bufs, iovmax, off0, script, total, off, rest, [])
    ensures Finished(log, bufs, iovmax, off0, script, total, off)
  {
    if log.Then? {
      FirstTook(log);
    }
  }

  function Min(a: int, b: int): int {
    if a < b then a else b
  }

  /** Lines 1497 to 1499: uv__fs_write until it is not interrupted. */
  method WriteOnce(script: seq<Outcome>, avail: nat) returns (result: int, rest: seq<Outcome>)
    ensures result == Min(Answer(script), avail) && rest == Rest(script)
  {
    rest := script;
    while rest != []
      invariant Answer(rest) == Answer(script) && Rest(rest) == Rest(script)
    {
      var o := rest[0];
      rest := rest[1..];
      if o.Returned? {
        return Min(o.n, avail), rest;
      }
    }
    return Min(-1, avail), rest;
  }

  /** uv__fs_write_all. */
  method WriteAll(bufs: array<seq<Byte>>, iovmax: nat, off0: int, script0: seq<Outcome>)
    returns (total: int, off: int, log: Log)
    requires iovmax >= 1
    modifies bufs
    ensures Finished(log, old(bufs[..]), iovmax, off0, script0, total, off)
  {
    ghost var all := bufs[..];
    var done: nat, nbufs: nat, script := 0, bufs.Length, script0;
    off, total, log := off0, 0, Start;
    ghost var left := all;
    while nbufs > 0
      invariant done + nbufs == bufs.Length && total >= 0 && left == bufs[done..]
      invariant Between(log, all, iovmax, off0, script0, total, off, script, left)
      decreases |Concat(all)| - total
    {
      var c, passed;
      ghost var from := script;
      c, passed, script := WriteSome(bufs, done, nbufs, iovmax, off, script, total, off0, left);
      if c.result <= 0 {
        OneMoreFailed(log, c, all, iovmax, off0, script0, total, off, from, left);
        return if total == 0 then c.result else total, off, Then(log, c);
      }
      TakenFirst(Then(log, c), all, iovmax, off0, script0);
      off, log := if off >= 0 then off + c.result else off, Then(log, c);
      total, done, nbufs := total + c.result, done + passed, nbufs - passed;
      left := bufs[done..];
    }
    RanOut(log, all, iovmax, off0, script0, total, off, script);
  }

  /** Lines 1493 to 1499 and 1510 to 1511: iovmax buffers, or all there are, are handed over; what the kernel took is
      taken off them. */
  method WriteSome(bufs: array<seq<Byte>>, done: nat, nbufs: nat, iovmax: nat, off: int, script: seq<Outcome>,
                   ghost total: nat, ghost off0: int, ghost left: Buffers)
    returns (c: Call, passed: nat, rest: seq<Outcome>)
    requires 0 < nbufs && done + nbufs == bufs.Length && left == bufs[done..]
    requires iovmax >= 1 && off == if off0 >= 0 then off0 + total else off0
    modifies bufs
    ensures Proper(c, total, left, iovmax, off0, Answer(script)) && rest == Rest(script) && passed <= nbufs
    ensures c.result > 0 ==> bufs[done + passed..] == Drop(left, c.result)
  {
    var n := if nbufs > iovmax then iovmax else nbufs;
    assert left[..n] == bufs[done..done + n];
    var handed := Concat(bufs[done..done + n]);
    var result;
    result, rest := WriteOnce(script, |handed|);
    c, passed := Call(off, n, handed, result), 0;
    if result > 0 {
      passed := TakeOff(bufs, done, n, result, left);
    }
  }

  /** Lines 1510 and 1511. */
  method TakeOff(bufs: array<seq<Byte>>, done: nat, n: nat, result: nat, ghost left: Buffers) returns (passed: nat)
    requires done + n <= bufs.Length && left == bufs[done..] && result <= |Concat(left[..n])|
    modifies bufs
    ensures passed <= n && bufs[done + passed..] == Drop(left, result)
  {
    DropWithin(left, n, result);
    ghost var end, back := done + n, left[n..];
    assert left[..n] == bufs[done..end] && back == bufs[end..];
    passed := BufOffset(bufs, done, result, end);
    Unchanged(bufs, end, back);
    Halves(bufs, done + passed, end);
  }

  lemma Unchanged(bufs: array<seq<Byte>>, end: nat, back: Buffers)
    requires end <= bufs.Length && |back| == bufs.Length - end && forall i :: end <= i < bufs.Length ==> bufs[i] == back[i - end]
    ensures bufs[end..] == back
  {
  }

  lemma DropWithin(bufs: Buffers, n: nat, size: nat)
    requires n <= |bufs| && size <= |Concat(bufs[..n])|
    ensures Drop(bufs, size) == Drop(bufs[..n], size) + bufs[n..]
  {
    DropFront(bufs[..n], bufs[n..], size);
    assert bufs[..n] + bufs[n..] == bufs;
  }

  lemma Halves(bufs: array<seq<Byte>>, i: nat, j: nat)
    requires i <= j <= bufs.Length
    ensures bufs[i..] == bufs[i..j] + bufs[j..]
  {
  }

  // ---------- When everything is written ----------

  /** iovmax empty buffers in a row stand before one that is not empty: a call that begins with them is given nothing. */
  ghost predicate BlockedAt(bufs: Buffers, iovmax: nat, i: nat) {
    && i + iovmax <= |bufs| && (forall k :: i <= k < i + iovmax ==> bufs[k] == [])
    && Concat(bufs[i + iovmax..]) != []
  }

  ghost predicate Blocked(bufs: Buffers, iovmax: nat) {
    exists i: nat :: BlockedAt(bufs, iovmax, i)
  }

  lemma {:induction false} NoBytes(bufs: Buffers)
    ensures Concat(bufs) == [] <==> forall k :: 0 <= k < |bufs| ==> bufs[k] == []
  {
    if bufs != [] {
      NoBytes(bufs[1..]);
      assert forall k :: 0 < k < |bufs| ==> bufs[k] == bufs[1..][k - 1];
      assert Concat(bufs) == [] ==> bufs[0] == [] && Concat(bufs[1..]) == [];
    }
  }

  /** The bytes of n buffers, n at most iovmax, are all before the empty ones. */
  lemma BeforeBlock(bufs: Buffers, iovmax: nat, i: nat, n: nat)
    requires BlockedAt(bufs, iovmax, i) && n <= iovmax
    ensures |Concat(bufs[..n])| <= |Concat(bufs[..i])|
  {
    if n <= i {
      ConcatSplits(bufs[..i], n);
      assert bufs[..i][..n] == bufs[..n];
    } else {
      ConcatSplits(bufs[..n], i);
      assert bufs[..n][..i] == bufs[..i];
      NoBytes(bufs[..n][i..]);
    }
  }

  lemma BlockStays(bufs: Buffers, iovmax: nat, n: nat, size: nat)
    requires Blocked(bufs, iovmax) && n <= iovmax && n <= |bufs| && size <= |Concat(bufs[..n])|
    ensures Blocked(Drop(bufs, size), iovmax)
  {
    var i: nat :| BlockedAt(bufs, iovmax, i);
    var a, b := bufs[..i], bufs[i..];
    BeforeBlock(bufs, iovmax, i, n);
    DropFront(a, b, size);
    assert a + b == bufs;
    var d := Drop(a, size);
    assert (d + b)[|d| + iovmax..] == bufs[i + iovmax..];
    assert BlockedAt(d + b, iovmax, |d|);
  }

  lemma BlockBehind(bufs: Buffers, iovmax: nat)
    requires bufs != [] && Blocked(bufs[1..], iovmax)
    ensures Blocked(bufs, iovmax)
  {
    var i: nat :| BlockedAt(bufs[1..], iovmax, i);
    assert forall k :: i + 1 <= k < i + 1 + iovmax ==> bufs[k] == bufs[1..][k - 1];
    assert bufs[1..][i + iovmax..] == bufs[i + 1 + iovmax..];
    assert BlockedAt(bufs, iovmax, i + 1);
  }

  lemma {:induction false} NoNewBlock(bufs: Buffers, iovmax: nat, size: nat)
    requires iovmax >= 1 && Blocked(Drop(bufs, size), iovmax)
    ensures Blocked(bufs, iovmax)
  {
    if size > 0 && bufs != [] {
      if |bufs[0]| <= size {
        NoNewBlock(bufs[1..], iovmax, size - |bufs[0]|);
        BlockBehind(bufs, iovmax);
      } else {
        var d := Drop(bufs, size);
        var i: nat :| BlockedAt(d, iovmax, i);
        assert d == [bufs[0][size..]] + bufs[1..] && |d[0]| > 0 && i > 0;
        assert forall k :: 0 < k < |bufs| ==> d[k] == bufs[k];
        assert d[i + iovmax..] == bufs[i + iovmax..];
        assert BlockedAt(bufs, iovmax, i);
      }
    }
  }

  lemma {:induction false} BlockedThroughout(log: Log, bufs: Buffers, iovmax: nat, off0: int, script: seq<Outcome>)
    requires iovmax >= 1 && Made(log, bufs, iovmax, off0, script)
    ensures Blocked(Left(log, bufs), iovmax) <==> Blocked(bufs, iovmax)
  {
    if log.Then? {
      var left, c := Left(log.before, bufs), log.call;
      BlockedThroughout(log.before, bufs, iovmax, off0, script);
      if Blocked(left, iovmax) {
        BlockStays(left, iovmax, c.count, |c.Taken()|);
      } else if Blocked(Left(log, bufs), iovmax) {
        NoNewBlock(left, iovmax, |c.Taken()|);
      }
    }
  }

  /** The next n calls find a kernel that takes at least a byte when it is given one. */
  ghost predicate Willing(script: seq<Outcome>, n: nat)
    decreases n
  {
    n > 0 ==> Answer(script) >= 1 && Willing(Rest(script), n - 1)
  }

  lemma {:induction false} StillWilling(script: seq<Outcome>, log: Log, n: nat)
    requires Willing(script, n) && log.Calls() <= n
    ensures Willing(RestAfter(script, log), n - log.Calls())
  {
    if log.Then? {
      StillWilling(script, log.before, n);
    }
  }

  lemma BlockedLeft(left: Buffers, iovmax: nat)
    requires Blocked(left, iovmax)
    ensures Concat(left) != []
  {
    var i: nat :| BlockedAt(left, iovmax, i);
    ConcatSplits(left, i + iovmax);
  }

  /** Behind empty buffers nothing is written, whatever the kernel does. */
  lemma NeverAll(log: Log, bufs: Buffers, iovmax: nat, off0: int, script: seq<Outcome>, total: int, off: int)
    requires iovmax >= 1 && Finished(log, bufs, iovmax, off0, script, total, off) && Blocked(bufs, iovmax)
    ensures |log.Taken()| < |Concat(bufs)| && log.Then? && log.call.result <= 0
  {
    TakenFirst(log, bufs, iovmax, off0, script);
    BlockedThroughout(log, bufs, iovmax, off0, script);
    BlockedLeft(Left(log, bufs), iovmax);
  }

  /** A willing kernel that is given nothing: the first iovmax buffers are empty, or all are. */
  lemma GivenNothing(c: Call, done: nat, left: Buffers, iovmax: nat, off0: int, answer: int)
    requires Proper(c, done, left, iovmax, off0, answer) && answer >= 1 && c.result <= 0 && !Blocked(left, iovmax)
    ensures Concat(left) == []
  {
    NoBytes(left[..c.count]);
    ConcatSplits(left, c.count);
    if c.count < |left| {
      assert forall k :: 0 <= k < iovmax ==> left[k] == left[..c.count][k];
      assert !BlockedAt(left, iovmax, 0);
    }
  }

  lemma AllIfOpen(log: Log, bufs: Buffers, iovmax: nat, off0: int, script: seq<Outcome>, total: int, off: int)
    requires iovmax >= 1 && Finished(log, bufs, iovmax, off0, script, total, off)
    requires Willing(script, |Concat(bufs)|) && !Blocked(bufs, iovmax)
    ensures log.Taken() == Concat(bufs)
  {
    TakenFirst(log, bufs, iovmax, off0, script);
    if log.Then? && log.call.result <= 0 {
      var before, c := log.before, log.call;
      var left := Left(before, bufs);
      TakenFirst(before, bufs, iovmax, off0, script);
      SomeTaken(before, bufs, iovmax, off0, script);
      BlockedThroughout(before, bufs, iovmax, off0, script);
      if Concat(left) != [] {
        StillWilling(script, before, |Concat(bufs)|);
        GivenNothing(c, |before.Taken()|, left, iovmax, off0, Answer(RestAfter(script, before)));
      }
    }
  }

  /** With a willing kernel everything is written if and only if iovmax empty buffers in a row never stand before one
      that is not empty. */
  lemma AllWritten(log: Log, bufs: Buffers, iovmax: nat, off0: int, script: seq<Outcome>, total: int, off: int)
    requires iovmax >= 1 && Finished(log, bufs, iovmax, off0, script, total, off) && Willing(script, |Concat(bufs)|)
    ensures log.Taken() == Concat(bufs) <==> !Blocked(bufs, iovmax)
  {
    if Blocked(bufs, iovmax) {
      NeverAll(log, bufs, iovmax, off0, script, total, off);
    } else {
      AllIfOpen(log, bufs, iovmax, off0, script, total, off);
    }
  }

  /** One empty buffer and one byte, with an iovmax of 1: nothing is written, and the result is that of a call that was
      given nothing. */
  lemma StopsEarly(log: Log, off0: int, script: seq<Outcome>, total: int, off: int)
    requires Finished(log, [[], [7]], 1, off0, script, total, off)
    ensures log.Taken() == [] && total <= 0
    ensures Willing(script, 1) ==> total == 0
  {
    var bufs: Buffers := [[], [7]];
    assert bufs[1..] == [[7]] && Concat(bufs[1..]) == [7] + Concat([]);
    assert Concat(bufs) == [] + Concat(bufs[1..]) == [7];
    assert BlockedAt(bufs, 1, 0);
    NeverAll(log, bufs, 1, off0, script, total, off);
    SomeTaken(log.before, bufs, 1, off0, script);
    assert bufs[..1] == [[]] && Concat(bufs[..1]) == [] + Concat(bufs[..1][1..]) == [];
  }
}
