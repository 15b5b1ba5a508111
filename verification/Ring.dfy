/** The fields of the bounded queue and the statements that change them, and the
    queue object whose critical sections are made of those statements. */
module Ring {
  type Elem = nat

  datatype Queue = Queue(buf: seq<Elem>, size: nat, head: nat, tail: nat)

  // ---------- positions around the ring ----------

  /** `x % capacity` for positions at most one lap ahead. */
  function Wrap(x: nat, capacity: nat): (r: nat)
    requires x < 2 * capacity
    ensures r < capacity
  {
    if x < capacity then x else x - capacity
  }

  lemma ModIsWrap(x: nat, capacity: nat)
    requires x < 2 * capacity
    ensures x % capacity == Wrap(x, capacity)
  {
    if x >= capacity {
      assert x == capacity + (x - capacity);
      assert (capacity + (x - capacity)) % capacity == (x - capacity) % capacity;
    }
  }

  /** The `n` elements from `head` on, wrapping around. */
  function Elements(buf: seq<Elem>, head: nat, n: nat): (r: seq<Elem>)
    requires n <= |buf| && (head < |buf| || |buf| == 0)
    ensures |r| == n
    ensures forall i | 0 <= i < n :: r[i] == buf[Wrap(head + i, |buf|)]
  {
    seq(n, i requires 0 <= i < n => buf[Wrap(head + i, |buf|)])
  }

  /** The ring holds `n` elements between `head` and `tail`. */
  ghost predicate Spans(q: Queue, n: nat) {
    && n <= |q.buf|
    && (|q.buf| > 0 ==> q.head < |q.buf| && q.tail == Wrap(q.head + n, |q.buf|))
  }

  ghost predicate QueueOk(q: Queue) {
    Spans(q, q.size)
  }

  function Contents(q: Queue): seq<Elem>
    requires q.size <= |q.buf| && (q.head < |q.buf| || |q.buf| == 0)
  {
    Elements(q.buf, q.head, q.size)
  }

  // ---------- the statements of the two critical sections ----------

  function StoreAtTail(q: Queue, e: Elem): Queue
    requires q.tail < |q.buf|
  {
    q.(buf := q.buf[q.tail := e])
  }

  function AdvanceTail(q: Queue): Queue
    requires |q.buf| > 0
  {
    q.(tail := (q.tail + 1) % |q.buf|)
  }

  function Grow(q: Queue): Queue {
    q.(size := q.size + 1)
  }

  function AdvanceHead(q: Queue): Queue
    requires |q.buf| > 0
  {
    q.(head := (q.head + 1) % |q.buf|)
  }

  function Shrink(q: Queue): Queue
    requires q.size > 0
  {
    q.(size := q.size - 1)
  }

  /** Storing at the tail changes none of the `n` elements while there is room for one more. */
  lemma StoreOutside(q: Queue, n: nat, e: Elem)
    requires Spans(q, n) && n < |q.buf|
    ensures Spans(StoreAtTail(q, e), n)
    ensures Elements(q.buf[q.tail := e], q.head, n) == Elements(q.buf, q.head, n)
  {
  }

  /** Moving the tail past a stored element adds it at the end. */
  lemma AdvanceTailAppends(q: Queue, n: nat, e: Elem)
    requires Spans(q, n) && n < |q.buf| && q.buf[q.tail] == e
    ensures Spans(AdvanceTail(q), n + 1)
    ensures Elements(q.buf, q.head, n + 1) == Elements(q.buf, q.head, n) + [e]
  {
    ModIsWrap(q.tail + 1, |q.buf|);
  }

  /** Moving the head removes the first element. */
  lemma AdvanceHeadDrops(q: Queue, n: nat)
    requires Spans(q, n) && n > 0
    ensures Spans(AdvanceHead(q), n - 1)
    ensures Elements(q.buf, q.head, n) == [q.buf[q.head]] + Elements(q.buf, AdvanceHead(q).head, n - 1)
  {
    ModIsWrap(q.head + 1, |q.buf|);
  }

  /** The critical section of an enqueue appends, that of a dequeue takes the first element. */
  lemma CriticalSections(q: Queue, e: Elem)
    requires QueueOk(q)
    ensures q.size < |q.buf| ==>
              var r := Grow(AdvanceTail(StoreAtTail(q, e))); QueueOk(r) && Contents(r) == Contents(q) + [e]
    ensures q.size > 0 ==>
              var r := Shrink(AdvanceHead(q)); QueueOk(r) && Contents(q) == [q.buf[q.head]] + Contents(r)
  {
    if q.size < |q.buf| {
      StoreOutside(q, q.size, e);
      AdvanceTailAppends(StoreAtTail(q, e), q.size, e);
    }
    if q.size > 0 {
      AdvanceHeadDrops(q, q.size);
    }
  }

  /** The queue object, used by one thread at a time. */
  class PcQueue {
    const buffer: array<Elem>
    var size: nat
    var head: nat
    var tail: nat

    ghost function Fields(): Queue
      reads this, buffer
    {
      Queue(buffer[..], size, head, tail)
    }

    ghost predicate Valid()
      reads this, buffer
    {
      QueueOk(Fields())
    }

    /** `pcq_create` */
    constructor (capacity: nat)
      ensures Valid() && fresh(buffer) && buffer.Length == capacity && Contents(Fields()) == []
    {
      buffer := new Elem[capacity];
      size, head, tail := 0, 0, 0;
    }

    /** `pcq_enqueue` up to its wait: `stored` is false exactly when the caller would wait. */
    method Enqueue(elem: Elem) returns (stored: bool)
      requires Valid()
      modifies this, buffer
      ensures Valid() && stored == (old(size) != buffer.Length)
      ensures Contents(Fields()) == old(Contents(Fields())) + (if stored then [elem] else [])
    {
      if size == buffer.Length {
        return false;
      }
      CriticalSections(Fields(), elem);
      buffer[tail] := elem;
      tail := (tail + 1) % buffer.Length;
      size := size + 1;
      assert Fields() == Grow(AdvanceTail(StoreAtTail(old(Fields()), elem)));
      return true;
    }

    /** `pcq_dequeue` up to its wait: `taken` is false exactly when the caller would wait. */
    method Dequeue() returns (taken: bool, elem: Elem)
      requires Valid()
      modifies this
      ensures Valid() && taken == (old(size) != 0)
      ensures old(Contents(Fields())) == (if taken then [elem] else []) + Contents(Fields())
    {
      if size == 0 {
        return false, 0;
      }
      CriticalSections(Fields(), 0);
      elem := buffer[head];
      head := (head + 1) % buffer.Length;
      size := size - 1;
      assert Fields() == Shrink(AdvanceHead(old(Fields())));
      taken := true;
    }
  }
}
