/**
 * The serial receive buffer (ByteBlockingQueue.kt): a bounded FIFO of bytes
 * kept in a fixed array used as a ring. The lock, the condition variable and
 * the wait in `take` are left out; `take` is only called on a non-empty queue.
 */
module ByteQueue {
  import opened Bitwise

  /** The array slot `k` places after `from` in a ring of `n` slots (k <= n). */
  function Slot(from: nat, k: nat, n: nat): (r: nat)
    requires from < n && k <= n
    ensures r < n || (k == n && r == from)
  {
    if from + k < n then from + k else from + k - n
  }

  /** `(x + 1) % n` for an index x of the ring: the next slot, wrapping to 0. */
  lemma NextSlot(x: nat, n: nat)
    requires x < n
    ensures (x + 1) % n == Slot(x, 1, n) % n
    ensures (x + 1) % n == if x + 1 < n then x + 1 else 0
  {
    if x + 1 < n {
      DivUnique(x + 1, n, 0, x + 1);
    } else {
      DivUnique(x + 1, n, 1, 0);
    }
  }

  /** The `k` entries of ring `a` starting at slot `from`. */
  function Window(a: seq<int8>, from: nat, k: nat): (s: seq<int8>)
    requires from < |a| && k <= |a|
    ensures |s| == k && forall i :: 0 <= i < k ==> s[i] == a[Slot(from, i, |a|)]
  {
    seq(k, i requires 0 <= i < k => a[Slot(from, i, |a|)])
  }

  class ByteBlockingQueue {
    const buffer: array<int8>
    var head: nat
    var tail: nat
    var count: nat

    /** The ring's indices stay inside the array, and `tail` is `count` slots after `head`. */
    ghost predicate Valid()
      reads this
    {
      buffer.Length >= 1 && head < buffer.Length && tail < buffer.Length && count <= buffer.Length
      && tail == Slot(head, count, buffer.Length) % buffer.Length
    }

    /** The queued bytes, oldest first. */
    ghost function Contents(): (s: seq<int8>)
      requires Valid()
      reads this, buffer
      ensures |s| == count
    {
      Window(buffer[..], head, count)
    }

    /** `ByteBlockingQueue(capacity)`: `require(buffer.isNotEmpty())`. */
    constructor(capacity: nat)
      requires capacity >= 1
      ensures Valid() && fresh(buffer) && buffer.Length == capacity
      ensures Contents() == []
    {
      buffer := new int8[capacity](_ => 0);
      head, tail, count := 0, 0, 0;
      DivUnique(0, capacity, 0, 0);
    }

    /** `offer(b)`: refused when full; otherwise `b` joins the back. */
    method Offer(b: int8) returns (ok: bool)
      requires Valid()
      modifies this, buffer
      ensures Valid()
      ensures ok <==> old(count) < buffer.Length
      ensures ok ==> Contents() == old(Contents()) + [b]
      ensures !ok ==> Contents() == old(Contents()) && unchanged(this) && unchanged(buffer)
    {
      if count >= buffer.Length {
        return false;
      }
      ghost var before := Contents();
      var n := buffer.Length;
      assert tail == Slot(head, count, n) by {
        DivUnique(Slot(head, count, n), n, 0, Slot(head, count, n));
      }
      buffer[tail] := b;
      NextSlot(tail, n);
      tail := (tail + 1) % n;
      count := count + 1;
      assert tail == Slot(head, count, n) % n by {
        if Slot(head, count, n) < n {
          DivUnique(Slot(head, count, n), n, 0, Slot(head, count, n));
        } else {
          DivUnique(n, n, 1, 0);
        }
      }
      assert Contents() == before + [b];
      return true;
    }

    /** `take()` on a non-empty queue: the front byte leaves. */
    method Take() returns (b: int8)
      requires Valid() && count > 0
      modifies this
      ensures Valid()
      ensures b == old(Contents())[0]
      ensures Contents() == old(Contents())[1..]
    {
      ghost var before := Contents();
      var n := buffer.Length;
      b := buffer[head];
      NextSlot(head, n);
      head := (head + 1) % n;
      count := count - 1;
      assert Contents() == before[1..];
    }
  }

  /** Offers every byte of `xs` in turn to a queue with room for them all. */
  method OfferAll(q: ByteBlockingQueue, xs: seq<int8>)
    requires q.Valid() && q.count + |xs| <= q.buffer.Length
    modifies q, q.buffer
    ensures q.Valid() && q.Contents() == old(q.Contents()) + xs
  {
    ghost var c0 := q.Contents();
    var i := 0;
    while i < |xs|
      invariant 0 <= i <= |xs|
      invariant q.Valid() && q.Contents() == c0 + xs[..i]
    {
      var ok := q.Offer(xs[i]);
      assert xs[..i + 1] == xs[..i] + [xs[i]];
      i := i + 1;
    }
    assert xs[..i] == xs;
  }

  /** Moving the front of `rest` to the back of `out` keeps their concatenation. */
  lemma ConsTail(rest: seq<int8>, b: int8, out: seq<int8>)
    requires |rest| > 0 && b == rest[0]
    ensures (out + [b]) + rest[1..] == out + rest
  {
    assert rest == [b] + rest[1..];
  }

  /** Takes from the queue until it is empty. */
  method TakeAll(q: ByteBlockingQueue) returns (out: seq<int8>)
    requires q.Valid()
    modifies q
    ensures q.Valid() && q.count == 0
    ensures out == old(q.Contents())
  {
    ghost var c0 := q.Contents();
    ghost var rest := c0;
    out := [];
    while q.count > 0
      invariant q.Valid() && q.Contents() == rest && out + rest == c0
      decreases q.count
    {
      var b := q.Take();
      ConsTail(rest, b, out);
      out, rest := out + [b], rest[1..];
    }
  }

  /**
   * Order is kept: the bytes `xs`, offered one after the other to a queue with
   * room for them all, come back from `take` after the bytes already queued
   * and in the order they went in.
   */
  method FifoOrder(q: ByteBlockingQueue, xs: seq<int8>) returns (out: seq<int8>)
    requires q.Valid() && q.count + |xs| <= q.buffer.Length
    modifies q, q.buffer
    ensures out == old(q.Contents()) + xs
    ensures q.Valid() && q.count == 0
  {
    OfferAll(q, xs);
    out := TakeAll(q);
  }
}
