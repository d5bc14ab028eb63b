/**
 * The fixed-size FIFO queue of queue.c: a circular buffer of QUEUESIZE slots
 * with the index of the first element, the index of the last element and the
 * number of elements, all advanced modulo QUEUESIZE.
 *
 * queue.h is not part of this model: QUEUESIZE is taken as 1000 (the value in
 * the book the file comes from); no proof depends on more than its being
 * positive. The element type stands for `void*`.
 */
module Queue {

  const QUEUESIZE: int := 1000

  /** The slot `i` places after `first`. */
  function Slot(first: int, i: int): int
  {
    (first + i) % QUEUESIZE
  }

  /** The `count` slots of a circular buffer starting at `first`, in queue order. */
  function Window<T>(slots: seq<T>, first: int, count: nat): (w: seq<T>)
    requires |slots| == QUEUESIZE
    ensures |w| == count
  {
    seq(count, i requires 0 <= i < count => slots[Slot(first, i)])
  }

  /** Advancing an index modulo QUEUESIZE. */
  lemma NextIndex(a: int)
    requires -1 <= a < QUEUESIZE
    ensures (a + 1) % QUEUESIZE == if a + 1 == QUEUESIZE then 0 else a + 1
  {
  }

  /** Indices that reach at most one lap past `first` wrap around once. */
  lemma WrapOnce(first: int, i: int)
    requires 0 <= first < QUEUESIZE && 0 <= i < QUEUESIZE
    ensures (first + i) % QUEUESIZE == if first + i < QUEUESIZE then first + i else first + i - QUEUESIZE
  {
  }

  /** Writing x into the slot just past the window extends the window by x. */
  lemma WindowPush<T>(slots: seq<T>, first: int, count: int, x: T)
    requires |slots| == QUEUESIZE && 0 <= first < QUEUESIZE && 0 <= count < QUEUESIZE
    ensures Window(slots[Slot(first, count) := x], first, count + 1) == Window(slots, first, count) + [x]
  {
    forall i | 0 <= i < count
      ensures Slot(first, i) != Slot(first, count)
    {
      WrapOnce(first, i);
      WrapOnce(first, count);
    }
  }

  /** Advancing the front by one slot drops the window's first element. */
  lemma WindowPop<T>(slots: seq<T>, first: int, count: int)
    requires |slots| == QUEUESIZE && 0 <= first < QUEUESIZE && 0 < count <= QUEUESIZE
    ensures Window(slots, Slot(first, 1), count - 1) == Window(slots, first, count)[1..]
  {
    forall i | 0 <= i < count - 1
      ensures Slot(Slot(first, 1), i) == Slot(first, i + 1)
    {
      NextIndex(first);
      WrapOnce(Slot(first, 1), i);
      WrapOnce(first, i + 1);
    }
  }

  class Queue<T(0)> {
    var q: array<T>
    var first: int
    var last: int
    var count: int

    /** The index invariant: `last` trails `first` by `count - 1` slots, modulo QUEUESIZE. */
    ghost predicate Valid()
      reads this
    {
      && q.Length == QUEUESIZE
      && 0 <= first < QUEUESIZE
      && 0 <= last < QUEUESIZE
      && 0 <= count <= QUEUESIZE
      && last == (first + count - 1) % QUEUESIZE
    }

    /** The queued elements, front first. */
    ghost function Contents(): seq<T>
      reads this, q
      requires Valid()
    {
      Window(q[..], first, count)
    }

    /** Storage for a queue; its indices are meaningless until `InitQueue`. */
    constructor ()
      ensures fresh(q) && q.Length == QUEUESIZE
    {
      q := new T[QUEUESIZE];
      first, last, count := 0, 0, 0;
    }

    /** init_queue */
    method InitQueue()
      requires q.Length == QUEUESIZE
      modifies this
      ensures Valid() && Contents() == [] && q == old(q)
      ensures first == 0 && last == QUEUESIZE - 1 && count == 0
    {
      first := 0;
      last := QUEUESIZE - 1;
      count := 0;
    }

    /** enqueue: a full queue ignores the element; otherwise it joins the back. */
    method Enqueue(x: T)
      requires Valid()
      modifies this, q
      ensures Valid() && q == old(q)
      ensures old(count) >= QUEUESIZE ==>
                first == old(first) && last == old(last) && count == old(count) && q[..] == old(q[..])
      ensures old(count) < QUEUESIZE ==>
                && first == old(first) && last == (old(last) + 1) % QUEUESIZE && count == old(count) + 1
                && q[..] == old(q[..])[last := x]
      ensures Contents() == if old(count) >= QUEUESIZE then old(Contents()) else old(Contents()) + [x]
    {
      if count >= QUEUESIZE {
      } else {
        NextIndex(last);
        WrapOnce(first, count);
        if count > 0 { WrapOnce(first, count - 1); }
        ghost var slots := q[..];
        WindowPush(slots, first, count, x);
        var next := (last + 1) % QUEUESIZE;
        assert next == Slot(first, count);
        q[next] := x;
        assert q[..] == slots[next := x];
        last := next;
        count := count + 1;
      }
    }

    /** dequeue: the front element leaves. The source has no emptiness check, so callers must not dequeue from an empty queue. */
    method Dequeue() returns (x: T)
      requires Valid() && count > 0
      modifies this
      ensures Valid() && q == old(q) && q[..] == old(q[..])
      ensures first == (old(first) + 1) % QUEUESIZE && last == old(last) && count == old(count) - 1
      ensures x == old(Contents())[0]
      ensures Contents() == old(Contents())[1..]
    {
      x := q[first];
      WindowPop(q[..], first, count);
      NextIndex(first);
      WrapOnce(first, count - 1);
      first := (first + 1) % QUEUESIZE;
      count := count - 1;
      if count > 0 { WrapOnce(first, count - 1); }
    }

    /** empty: 1 when no element is queued, 0 otherwise. */
    method Empty() returns (r: int)
      requires Valid()
      ensures r == 0 || r == 1
      ensures r == 1 <==> Contents() == []
    {
      if count <= 0 {
        r := 1;
      } else {
        r := 0;
      }
    }
  }
}
