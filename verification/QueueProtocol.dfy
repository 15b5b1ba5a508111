/** The bounded queue shared by any number of threads, as a transition system:
    one action is one statement of one thread, a signal, or a spurious wakeup. */
module QueueProtocol {
  import opened Ring

  type Tid = nat
  datatype Owner = Nobody | Held(thread: Tid)

  /** Where a thread is: each constructor is about to execute the statement named. */
  datatype Pc =
    | Idle
    // pcq_enqueue
    | EnqLock(e: Elem)     // lock the size lock
    | EnqTest(e: Elem)     // the wait loop's test
    | EnqWait(e: Elem)     // asleep on the pusher condition
    | EnqWoken(e: Elem)    // woken, has to take the size lock again
    | EnqTail(e: Elem)     // lock the tail lock
    | EnqStore(e: Elem)
    | EnqAdvance(e: Elem)
    | EnqGrow
    | EnqUntail            // unlock the tail lock
    | EnqSignal
    | EnqUnlock
    // pcq_dequeue
    | DeqLock
    | DeqTest
    | DeqWait
    | DeqWoken
    | DeqHead
    | DeqLoad
    | DeqAdvance(e: Elem)
    | DeqShrink(e: Elem)
    | DeqUnhead(e: Elem)
    | DeqSignal(e: Elem)
    | DeqUnlock(e: Elem)

  /** The shared queue with its locks, where every thread is, the wait sets of the
      two conditions, the threads woken from them that do not hold the lock yet, and
      the elements that have gone in and come out so far, in lock order. */
  datatype State = State(
    q: Queue,
    sizeLock: Owner, headLock: Owner, tailLock: Owner,
    pcs: map<Tid, Pc>,
    poppers: set<Tid>, wokenPoppers: set<Tid>,
    pushers: set<Tid>, wokenPushers: set<Tid>,
    enqueued: seq<Elem>, dequeued: seq<Elem>)

  datatype Action =
    | CallEnqueue(e: Elem)
    | CallDequeue
    | Advance
    | Signal(woken: set<Tid>)
    | SpuriousWakeup

  ghost predicate Init(s: State, capacity: nat, threads: set<Tid>) {
    && |s.q.buf| == capacity && s.q.size == s.q.head == s.q.tail == 0
    && s.sizeLock == s.headLock == s.tailLock == Nobody
    && s.pcs == (map t | t in threads :: Idle)
    && s.poppers == s.wokenPoppers == s.pushers == s.wokenPushers == {}
    && s.enqueued == s.dequeued == []
  }

  /** pthread_cond_signal wakes at least one waiter if there is one. */
  predicate Signals(waiting: set<Tid>, woken: set<Tid>) {
    woken <= waiting && (waiting != {} ==> woken != {})
  }

  predicate Enabled(s: State, t: Tid, a: Action) {
    t in s.pcs &&
    match a
    case CallEnqueue(_) => s.pcs[t].Idle?
    case CallDequeue => s.pcs[t].Idle?
    case SpuriousWakeup => s.pcs[t].EnqWait? || s.pcs[t].DeqWait?
    case Signal(w) =>
      (s.pcs[t].EnqSignal? && Signals(s.poppers, w)) || (s.pcs[t].DeqSignal? && Signals(s.pushers, w))
    case Advance =>
      match s.pcs[t]
      case Idle => false
      case EnqWait(_) => false
      case DeqWait => false
      case EnqSignal => false
      case DeqSignal(_) => false
      case EnqLock(_) => s.sizeLock == Nobody
      case EnqWoken(_) => s.sizeLock == Nobody
      case DeqLock => s.sizeLock == Nobody
      case DeqWoken => s.sizeLock == Nobody
      case EnqTail(_) => s.tailLock == Nobody
      case DeqHead => s.headLock == Nobody
      case EnqStore(_) => s.q.tail < |s.q.buf|
      case EnqAdvance(_) => |s.q.buf| > 0
      case DeqLoad => s.q.head < |s.q.buf|
      case DeqAdvance(_) => |s.q.buf| > 0
      case DeqShrink(_) => s.q.size > 0
      case _ => true
  }

  function Woken(pc: Pc): Pc {
    match pc
    case EnqWait(e) => EnqWoken(e)
    case DeqWait => DeqWoken
    case _ => pc
  }

  function WakeAll(pcs: map<Tid, Pc>, woken: set<Tid>): map<Tid, Pc> {
    map t | t in pcs :: if t in woken then Woken(pcs[t]) else pcs[t]
  }

  function At(s: State, t: Tid, pc: Pc): State {
    s.(pcs := s.pcs[t := pc])
  }

  /** The next statement of thread `t`. */
  function Statement(s: State, t: Tid): State
    requires Enabled(s, t, Advance)
  {
    match s.pcs[t]
    case EnqLock(e) => At(s, t, EnqTest(e)).(sizeLock := Held(t))
    case EnqWoken(e) => At(s, t, EnqTest(e)).(sizeLock := Held(t), wokenPushers := s.wokenPushers - {t})
    case EnqTest(e) =>
      if s.q.size == |s.q.buf| then
        At(s, t, EnqWait(e)).(sizeLock := Nobody, pushers := s.pushers + {t})
      else At(s, t, EnqTail(e))
    case EnqTail(e) => At(s, t, EnqStore(e)).(tailLock := Held(t))
    case EnqStore(e) => At(s, t, EnqAdvance(e)).(q := StoreAtTail(s.q, e))
    case EnqAdvance(e) => At(s, t, EnqGrow).(q := AdvanceTail(s.q), enqueued := s.enqueued + [e])
    case EnqGrow => At(s, t, EnqUntail).(q := Grow(s.q))
    case EnqUntail => At(s, t, EnqSignal).(tailLock := Nobody)
    case EnqUnlock => At(s, t, Idle).(sizeLock := Nobody)
    case DeqLock => At(s, t, DeqTest).(sizeLock := Held(t))
    case DeqWoken => At(s, t, DeqTest).(sizeLock := Held(t), wokenPoppers := s.wokenPoppers - {t})
    case DeqTest =>
      if s.q.size == 0 then At(s, t, DeqWait).(sizeLock := Nobody, poppers := s.poppers + {t})
      else At(s, t, DeqHead)
    case DeqHead => At(s, t, DeqLoad).(headLock := Held(t))
    case DeqLoad => At(s, t, DeqAdvance(s.q.buf[s.q.head]))
    case DeqAdvance(e) => At(s, t, DeqShrink(e)).(q := AdvanceHead(s.q), dequeued := s.dequeued + [e])
    case DeqShrink(e) => At(s, t, DeqUnhead(e)).(q := Shrink(s.q))
    case DeqUnhead(e) => At(s, t, DeqSignal(e)).(headLock := Nobody)
    case DeqUnlock(e) => At(s, t, Idle).(sizeLock := Nobody)
  }

  function Do(s: State, t: Tid, a: Action): State
    requires Enabled(s, t, a)
  {
    match a
    case CallEnqueue(e) => At(s, t, EnqLock(e))
    case CallDequeue => At(s, t, DeqLock)
    case Advance => Statement(s, t)
    case Signal(w) =>
      var u := s.(pcs := WakeAll(s.pcs, w));
      if s.pcs[t].EnqSignal? then
        At(u, t, EnqUnlock).(poppers := s.poppers - w, wokenPoppers := s.wokenPoppers + w)
      else
        At(u, t, DeqUnlock(s.pcs[t].e)).(pushers := s.pushers - w, wokenPushers := s.wokenPushers + w)
    case SpuriousWakeup =>
      if s.pcs[t].EnqWait? then
        At(s, t, Woken(s.pcs[t])).(pushers := s.pushers - {t}, wokenPushers := s.wokenPushers + {t})
      else
        At(s, t, Woken(s.pcs[t])).(poppers := s.poppers - {t}, wokenPoppers := s.wokenPoppers + {t})
  }

  // ---------- runs: any interleaving ----------

  datatype Move = Move(t: Tid, a: Action)

  ghost predicate Possible(s: State, moves: seq<Move>)
    decreases |moves|
  {
    moves == [] ||
    (Enabled(s, moves[0].t, moves[0].a) && Possible(Do(s, moves[0].t, moves[0].a), moves[1..]))
  }

  ghost function After(s: State, moves: seq<Move>): State
    requires Possible(s, moves)
    decreases |moves|
  {
    if moves == [] then s else After(Do(s, moves[0].t, moves[0].a), moves[1..])
  }

  /** A thread in a call that can execute its next statement without anyone's help. */
  ghost predicate Runnable(s: State, t: Tid) {
    Enabled(s, t, Advance) || exists w :: Enabled(s, t, Signal(w))
  }
}
