/** The queue as its callers see it: what goes in is what the calls of pcq_enqueue
    were given, and what comes out is what the calls of pcq_dequeue return. */
module QueueCalls {
  import opened Ring
  import opened QueueProtocol
  import opened QueueSafety

  datatype Entry = Entry(thread: Tid, e: Elem)

  function ElementsOf(log: seq<Entry>): seq<Elem> {
    if log == [] then [] else [log[0].e] + ElementsOf(log[1..])
  }

  /** The elements of one thread, in order. */
  function OfThread(log: seq<Entry>, t: Tid): seq<Elem> {
    if log == [] then []
    else (if log[0].thread == t then [log[0].e] else []) + OfThread(log[1..], t)
  }

  /** What a move of thread `t` added to a record. */
  function Added(t: Tid, before: seq<Elem>, after: seq<Elem>): seq<Entry> {
    if before < after then [Entry(t, after[|before|])] else []
  }

  // ---------- what the moves say ----------

  /** The arguments of the enqueue calls of thread `t`, in order: read off the moves alone. */
  function Called(moves: seq<Move>, t: Tid): seq<Elem> {
    if moves == [] then []
    else (if moves[0].t == t && moves[0].a.CallEnqueue? then [moves[0].a.e] else []) + Called(moves[1..], t)
  }

  /** The elements that went into the queue, with the thread whose move put them in. */
  ghost function Put(s: State, moves: seq<Move>): seq<Entry>
    requires Possible(s, moves)
    decreases |moves|
  {
    if moves == [] then []
    else
      var u := Do(s, moves[0].t, moves[0].a);
      Added(moves[0].t, s.enqueued, u.enqueued) + Put(u, moves[1..])
  }

  /** The elements that came out of the queue, with the thread whose move took them. */
  ghost function Took(s: State, moves: seq<Move>): seq<Entry>
    requires Possible(s, moves)
    decreases |moves|
  {
    if moves == [] then []
    else
      var u := Do(s, moves[0].t, moves[0].a);
      Added(moves[0].t, s.dequeued, u.dequeued) + Took(u, moves[1..])
  }

  /** What the last statement of a dequeue returns to its caller. */
  function Returned(s: State, m: Move): seq<Entry>
    requires Enabled(s, m.t, m.a)
  {
    if m.a.Advance? && s.pcs[m.t].DeqUnlock? then [Entry(m.t, s.pcs[m.t].e)] else []
  }

  /** What the dequeue calls return, with the thread that called. */
  ghost function Returns(s: State, moves: seq<Move>): seq<Entry>
    requires Possible(s, moves)
    decreases |moves|
  {
    if moves == [] then []
    else Returned(s, moves[0]) + Returns(Do(s, moves[0].t, moves[0].a), moves[1..])
  }

  /** The number of dequeue calls of thread `t`. */
  function Dequeues(moves: seq<Move>, t: Tid): nat {
    if moves == [] then 0 else (if moves[0].t == t && moves[0].a.CallDequeue? then 1 else 0) + Dequeues(moves[1..], t)
  }

  // ---------- calls under way ----------

  /** The argument of an enqueue call of `t` that has not put its element in yet. */
  function Outstanding(s: State, t: Tid): seq<Elem> {
    if t !in s.pcs then []
    else
      match s.pcs[t]
      case EnqLock(e) => [e]
      case EnqTest(e) => [e]
      case EnqWait(e) => [e]
      case EnqWoken(e) => [e]
      case EnqTail(e) => [e]
      case EnqStore(e) => [e]
      case EnqAdvance(e) => [e]
      case _ => []
  }

  /** The element that a dequeue call of `t` has taken out and not returned yet. */
  function InHand(s: State, t: Tid): seq<Elem> {
    if t !in s.pcs then []
    else
      match s.pcs[t]
      case DeqShrink(e) => [e]
      case DeqUnhead(e) => [e]
      case DeqSignal(e) => [e]
      case DeqUnlock(e) => [e]
      case _ => []
  }

  /** 1 while `t` is in a dequeue call. */
  function InDequeue(s: State, t: Tid): nat {
    if t !in s.pcs then 0
    else
      match s.pcs[t]
      case DeqLock => 1
      case DeqTest => 1
      case DeqWait => 1
      case DeqWoken => 1
      case DeqHead => 1
      case DeqLoad => 1
      case DeqAdvance(_) => 1
      case DeqShrink(_) => 1
      case DeqUnhead(_) => 1
      case DeqSignal(_) => 1
      case DeqUnlock(_) => 1
      case _ => 0
  }

  // ---------- one move ----------

  /** One move: what is outstanding, with a new call's argument, is what the move
      puts in, with what is outstanding then. */
  lemma PutStep(s: State, m: Move, t: Tid)
    requires Enabled(s, m.t, m.a)
    ensures var u := Do(s, m.t, m.a);
            && (s.enqueued <= u.enqueued && |u.enqueued| <= |s.enqueued| + 1)
            && Outstanding(s, t) + (if m.t == t && m.a.CallEnqueue? then [m.a.e] else [])
               == (if m.t == t then u.enqueued[|s.enqueued|..] else []) + Outstanding(u, t)
  {
  }

  lemma TookStatement(s: State, n: Tid, t: Tid)
    requires Enabled(s, n, Advance)
    ensures var u := Do(s, n, Advance);
            && (s.dequeued <= u.dequeued && |u.dequeued| <= |s.dequeued| + 1)
            && InHand(s, t) + (if n == t then u.dequeued[|s.dequeued|..] else [])
               == OfThread(Returned(s, Move(n, Advance)), t) + InHand(u, t)
  {
  }

  lemma TookOther(s: State, m: Move, t: Tid)
    requires Enabled(s, m.t, m.a) && !m.a.Advance?
    ensures var u := Do(s, m.t, m.a); u.dequeued == s.dequeued && InHand(s, t) == InHand(u, t)
  {
  }

  /** One move: what is in hand, with what the move takes out, is what the move
      returns to its caller, with what is in hand then. */
  lemma TookStep(s: State, m: Move, t: Tid)
    requires Enabled(s, m.t, m.a)
    ensures var u := Do(s, m.t, m.a);
            && (s.dequeued <= u.dequeued && |u.dequeued| <= |s.dequeued| + 1)
            && InHand(s, t) + (if m.t == t then u.dequeued[|s.dequeued|..] else [])
               == OfThread(Returned(s, m), t) + InHand(u, t)
  {
    hide Enabled, Do, InHand;
    if m.a.Advance? {
      TookStatement(s, m.t, t);
    } else {
      TookOther(s, m, t);
    }
  }

  lemma DequeueStep(s: State, m: Move, t: Tid)
    requires Enabled(s, m.t, m.a)
    ensures InDequeue(s, t) + (if m.t == t && m.a.CallDequeue? then 1 else 0)
            == |OfThread(Returned(s, m), t)| + InDequeue(Do(s, m.t, m.a), t)
  {
  }

  lemma AddedIs(t: Tid, before: seq<Elem>, after: seq<Elem>, k: Tid)
    requires before <= after && |after| <= |before| + 1
    ensures before + ElementsOf(Added(t, before, after)) == after
    ensures OfThread(Added(t, before, after), k) == if t == k then after[|before|..] else []
  {
  }

  lemma {:induction false} ElementsConcat(a: seq<Entry>, b: seq<Entry>)
    ensures ElementsOf(a + b) == ElementsOf(a) + ElementsOf(b)
  {
    if a == [] {
      assert a + b == b;
    } else {
      assert (a + b)[0] == a[0] && (a + b)[1..] == a[1..] + b;
      ElementsConcat(a[1..], b);
      assert [a[0].e] + (ElementsOf(a[1..]) + ElementsOf(b)) == ([a[0].e] + ElementsOf(a[1..])) + ElementsOf(b);
    }
  }

  lemma {:induction false} ThreadConcat(a: seq<Entry>, b: seq<Entry>, t: Tid)
    ensures OfThread(a + b, t) == OfThread(a, t) + OfThread(b, t)
  {
    if a == [] {
      assert a + b == b;
    } else {
      assert (a + b)[0] == a[0] && (a + b)[1..] == a[1..] + b;
      ThreadConcat(a[1..], b, t);
      var x := if a[0].thread == t then [a[0].e] else [];
      assert x + (OfThread(a[1..], t) + OfThread(b, t)) == (x + OfThread(a[1..], t)) + OfThread(b, t);
    }
  }

  lemma LogConcat(a: seq<Entry>, b: seq<Entry>, t: Tid)
    ensures ElementsOf(a + b) == ElementsOf(a) + ElementsOf(b)
    ensures OfThread(a + b, t) == OfThread(a, t) + OfThread(b, t)
  {
    ElementsConcat(a, b);
    ThreadConcat(a, b, t);
  }

  // ---------- runs ----------

  lemma {:induction false} PutRun(s: State, moves: seq<Move>, t: Tid)
    requires Possible(s, moves)
    ensures After(s, moves).enqueued == s.enqueued + ElementsOf(Put(s, moves))
    ensures Outstanding(s, t) + Called(moves, t) == OfThread(Put(s, moves), t) + Outstanding(After(s, moves), t)
    decreases |moves|
  {
    hide Enabled, Do, Outstanding, Added;
    if moves != [] {
      var m := moves[0];
      var u := Do(s, m.t, m.a);
      PutStep(s, m, t);
      AddedIs(m.t, s.enqueued, u.enqueued, t);
      var added := Added(m.t, s.enqueued, u.enqueued);
      LogConcat(added, Put(u, moves[1..]), t);
      PutRun(u, moves[1..], t);
      var call := if m.t == t && m.a.CallEnqueue? then [m.a.e] else [];
      Shift(Outstanding(s, t), call, OfThread(added, t), Outstanding(u, t),
            Called(moves[1..], t), OfThread(Put(u, moves[1..]), t), Outstanding(After(s, moves), t));
    }
  }

  /** a + b == c + d and d + e == f + g chain to a + (b + e) == (c + f) + g. */
  lemma Shift(a: seq<Elem>, b: seq<Elem>, c: seq<Elem>, d: seq<Elem>, e: seq<Elem>, f: seq<Elem>, g: seq<Elem>)
    requires a + b == c + d && d + e == f + g
    ensures a + (b + e) == (c + f) + g
  {
    assert a + (b + e) == (a + b) + e == (c + d) + e == c + (d + e) == c + (f + g);
  }

  lemma {:induction false} TookRun(s: State, moves: seq<Move>, t: Tid)
    requires Possible(s, moves)
    ensures After(s, moves).dequeued == s.dequeued + ElementsOf(Took(s, moves))
    ensures InHand(s, t) + OfThread(Took(s, moves), t)
            == OfThread(Returns(s, moves), t) + InHand(After(s, moves), t)
    decreases |moves|
  {
    hide Enabled, Do, InHand, Added, Returned;
    if moves != [] {
      var m := moves[0];
      var u := Do(s, m.t, m.a);
      TookStep(s, m, t);
      AddedIs(m.t, s.dequeued, u.dequeued, t);
      var added := Added(m.t, s.dequeued, u.dequeued);
      LogConcat(added, Took(u, moves[1..]), t);
      LogConcat(Returned(s, m), Returns(u, moves[1..]), t);
      TookRun(u, moves[1..], t);
      Shift(InHand(s, t), OfThread(added, t), OfThread(Returned(s, m), t), InHand(u, t),
            OfThread(Took(u, moves[1..]), t), OfThread(Returns(u, moves[1..]), t), InHand(After(s, moves), t));
    }
  }

  lemma {:induction false} DequeueRun(s: State, moves: seq<Move>, t: Tid)
    requires Possible(s, moves)
    ensures InDequeue(s, t) + Dequeues(moves, t) == |OfThread(Returns(s, moves), t)| + InDequeue(After(s, moves), t)
    decreases |moves|
  {
    hide Enabled, Do, InDequeue, Returned;
    if moves != [] {
      var u := Do(s, moves[0].t, moves[0].a);
      DequeueStep(s, moves[0], t);
      LogConcat(Returned(s, moves[0]), Returns(u, moves[1..]), t);
      DequeueRun(u, moves[1..], t);
    }
  }

  /** On every run from an empty queue, what went in are the arguments of the
      enqueue calls, each once, in lock order: for every thread, the elements
      that its moves put in, followed by the argument of the call that it is in if it
      has not put it in yet, are the arguments of its calls in order. */
  lemma EnqueuedAreArguments(s0: State, capacity: nat, threads: set<Tid>, moves: seq<Move>, t: Tid)
    requires Init(s0, capacity, threads) && Possible(s0, moves)
    ensures After(s0, moves).enqueued == ElementsOf(Put(s0, moves))
    ensures Called(moves, t) == OfThread(Put(s0, moves), t) + Outstanding(After(s0, moves), t)
  {
    PutRun(s0, moves, t);
    assert s0.enqueued + ElementsOf(Put(s0, moves)) == ElementsOf(Put(s0, moves));
    assert Outstanding(s0, t) + Called(moves, t) == Called(moves, t);
  }

  /** On every run from an empty queue, what came out is what the dequeue calls
      return, each to one caller: for every thread, what its calls returned, followed by what
      the call that it is in has taken out, is what its moves took out, in order; every
      call returns one element, unless it is still under way; and what came out
      of the queue is a prefix of what went in. */
  lemma ReturnedAreTaken(s0: State, capacity: nat, threads: set<Tid>, moves: seq<Move>, t: Tid)
    requires Init(s0, capacity, threads) && Possible(s0, moves)
    ensures After(s0, moves).dequeued == ElementsOf(Took(s0, moves))
    ensures OfThread(Took(s0, moves), t) == OfThread(Returns(s0, moves), t) + InHand(After(s0, moves), t)
    ensures Dequeues(moves, t) == |OfThread(Returns(s0, moves), t)| + InDequeue(After(s0, moves), t)
    ensures ElementsOf(Took(s0, moves)) <= ElementsOf(Put(s0, moves))
  {
    DequeueRun(s0, moves, t);
    TookRun(s0, moves, t);
    PutRun(s0, moves, t);
    assert s0.dequeued + ElementsOf(Took(s0, moves)) == ElementsOf(Took(s0, moves));
    assert s0.enqueued + ElementsOf(Put(s0, moves)) == ElementsOf(Put(s0, moves));
    assert InHand(s0, t) + OfThread(Took(s0, moves), t) == OfThread(Took(s0, moves), t);
    Fifo(After(s0, moves), capacity);
  }
}
