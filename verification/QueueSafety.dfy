/** What holds in every state that the shared queue can reach. */
module QueueSafety {
  import opened Ring
  import opened QueueProtocol
  import opened QueueInvariants

  /** `s` is reached from an empty queue by some interleaving. */
  ghost predicate Reachable(s: State, capacity: nat) {
    exists s0: State, threads: set<Tid>, moves: seq<Move> ::
      Init(s0, capacity, threads) && Possible(s0, moves) && After(s0, moves) == s
  }

  lemma {:induction false} RunInv(s: State, moves: seq<Move>)
    requires Inv(s) && Possible(s, moves)
    ensures Inv(After(s, moves)) && |After(s, moves).q.buf| == |s.q.buf|
    decreases |moves|
  {
    hide Inv, Enabled, Do;
    if moves != [] {
      StepInv(s, moves[0].t, moves[0].a);
      StepCapacity(s, moves[0].t, moves[0].a);
      RunInv(Do(s, moves[0].t, moves[0].a), moves[1..]);
    }
  }

  lemma StepCapacity(s: State, t: Tid, a: Action)
    requires Enabled(s, t, a)
    ensures |Do(s, t, a).q.buf| == |s.q.buf|
  {
  }

  lemma ReachableInv(s: State, capacity: nat)
    requires Reachable(s, capacity)
    ensures Inv(s) && |s.q.buf| == capacity
  {
    var s0: State, threads: set<Tid>, moves: seq<Move> :|
      Init(s0, capacity, threads) && Possible(s0, moves) && After(s0, moves) == s;
    InitInv(s0, capacity, threads);
    RunInv(s0, moves);
  }

  /** The two condition-variable waits lose no wakeup: when the lock is free and a
      consumer sleeps, every element has its own consumer that was woken and is on
      its way; and the same for sleeping producers and free places. While a thread
      holds the lock it can stand in for one of them: it is about to take an
      element itself, or it has stored one and has not signalled yet. */
  lemma NoLostWakeup(s: State, capacity: nat)
    requires Reachable(s, capacity)
    ensures s.poppers != {} ==> s.q.size <= |s.wokenPoppers| + One(OwesPopper(OwnerPc(s)))
    ensures s.pushers != {} ==> capacity <= s.q.size + |s.wokenPushers| + One(OwesPusher(OwnerPc(s)))
    ensures s.sizeLock == Nobody ==>
              && (s.poppers != {} ==> s.q.size <= |s.wokenPoppers|)
              && (s.pushers != {} ==> capacity <= s.q.size + |s.wokenPushers|)
              && forall t | t in s.wokenPoppers || t in s.wokenPushers :: Enabled(s, t, Advance)
  {
    ReachableInv(s, capacity);
  }

  /** Conservation in lock order, in every state: what came out, followed by the
      ring from head to tail, is what went in; with the lock free the ring's
      length is `size`. */
  lemma Fifo(s: State, capacity: nat)
    requires Reachable(s, capacity)
    ensures 0 <= Spanned(s) <= capacity && Spans(s.q, Spanned(s)) && s.q.size <= capacity
    ensures s.dequeued + Elements(s.q.buf, s.q.head, Spanned(s)) == s.enqueued
    ensures capacity > 0 ==> s.q.tail == (s.q.head + Spanned(s)) % capacity
    ensures s.sizeLock == Nobody ==>
              QueueOk(s.q) && s.dequeued + Contents(s.q) == s.enqueued
  {
    ReachableInv(s, capacity);
    if capacity > 0 {
      ModIsWrap(s.q.head + Spanned(s), capacity);
    }
  }

  /** A dequeue that is about to return has the element that it took out. */
  lemma DequeueReturnsItsElement(s: State, capacity: nat, t: Tid)
    requires Reachable(s, capacity) && t in s.pcs && s.pcs[t].DeqUnlock?
    ensures s.dequeued != [] && s.dequeued[|s.dequeued| - 1] == s.pcs[t].e
  {
    ReachableInv(s, capacity);
  }

  /** At most one thread is inside the size lock, and the inner locks are only
      ever taken inside it, so the three locks are never waited for in a cycle. */
  lemma LockOrder(s: State, capacity: nat)
    requires Reachable(s, capacity)
    ensures forall t, u | t in s.pcs && u in s.pcs && InCritical(s.pcs[t]) && InCritical(s.pcs[u]) :: t == u
    ensures s.tailLock.Held? ==> s.tailLock == s.sizeLock
    ensures s.headLock.Held? ==> s.headLock == s.sizeLock
    ensures forall t | t in s.pcs && s.pcs[t].EnqTail? :: s.tailLock == Nobody
    ensures forall t | t in s.pcs && s.pcs[t].DeqHead? :: s.headLock == Nobody
  {
    ReachableInv(s, capacity);
    InnerLocks(s);
    forall t | t in s.pcs && s.pcs[t].EnqTail? ensures s.tailLock == Nobody {
      assert InCritical(s.pcs[t]) && !HoldsTail(s.pcs[t]);
    }
    forall t | t in s.pcs && s.pcs[t].DeqHead? ensures s.headLock == Nobody {
      assert InCritical(s.pcs[t]) && !HoldsHead(s.pcs[t]);
    }
  }

  lemma InnerLocks(s: State)
    requires LocksOk(s)
    ensures s.tailLock.Held? ==> s.tailLock == s.sizeLock
    ensures s.headLock.Held? ==> s.headLock == s.sizeLock
  {
    if s.tailLock.Held? {
      assert InCritical(s.pcs[s.tailLock.thread]);
    }
    if s.headLock.Held? {
      assert InCritical(s.pcs[s.headLock.thread]);
    }
  }

  // ---------- deadlock freedom ----------

  /** No thread that is inside a call can go on by itself. */
  ghost predicate Stuck(s: State) {
    forall t | t in s.pcs :: !Runnable(s, t)
  }

  /** The owner of the size lock can always execute its next statement. */
  lemma OwnerRuns(s: State, t: Tid)
    requires Inv(s) && t in s.pcs && InCritical(s.pcs[t])
    ensures Runnable(s, t)
  {
    InnerLocks(s);
    if s.pcs[t].EnqSignal? {
      assert Enabled(s, t, Signal(s.poppers));
    } else if s.pcs[t].DeqSignal? {
      assert Enabled(s, t, Signal(s.pushers));
    } else {
      hide FifoOk, WakeupsOk, SetsOk;
      assert OwnerPc(s) == s.pcs[t];
      if s.pcs[t].EnqTail? {
        assert !HoldsTail(s.pcs[t]);
      }
      if s.pcs[t].DeqHead? {
        assert !HoldsHead(s.pcs[t]);
      }
      assert Enabled(s, t, Advance);
    }
  }

  /** In a stuck state the lock is free and every call sleeps in a wait set. */
  lemma StuckMeansAsleep(s: State)
    requires Inv(s) && Stuck(s)
    ensures s.sizeLock == Nobody && s.wokenPoppers == s.wokenPushers == {}
    ensures forall t | t in s.pcs :: s.pcs[t].Idle? || t in s.poppers || t in s.pushers
  {
    hide RingOk, FifoOk, WakeupsOk;
    if s.sizeLock.Held? {
      OwnerRuns(s, s.sizeLock.thread);
    }
    forall t | t in s.pcs ensures s.pcs[t].Idle? || t in s.poppers || t in s.pushers {
      assert !Runnable(s, t);
      assert !InCritical(s.pcs[t]);
      assert !Enabled(s, t, Advance);
    }
    forall t ensures t !in s.wokenPoppers && t !in s.wokenPushers {
      assert t in s.pcs ==> !Runnable(s, t) && !Enabled(s, t, Advance);
    }
  }

  /** A queue with room for something is never deadlocked: if nobody can go on,
      either every call is a dequeue asleep on an empty queue, or every call is an
      enqueue asleep on a full one. */
  lemma NoDeadlock(s: State, capacity: nat)
    requires Reachable(s, capacity) && Stuck(s) && capacity > 0
    ensures s.poppers != {} ==> s.q.size == 0 && s.pushers == {}
    ensures s.pushers != {} ==> s.q.size == capacity && s.poppers == {}
    ensures forall t | t in s.pcs :: s.pcs[t].Idle? || t in s.poppers || t in s.pushers
  {
    ReachableInv(s, capacity);
    StuckMeansAsleep(s);
    hide Stuck, LocksOk, SetsOk, FifoOk;
  }

  lemma {:induction false} RunOn(s: State, m: seq<Move>, n: seq<Move>)
    requires Possible(s, m) && Possible(After(s, m), n)
    ensures Possible(s, m + n) && After(s, m + n) == After(After(s, m), n)
    decreases |m|
  {
    hide Enabled, Do;
    if m == [] {
      assert m + n == n;
    } else {
      assert (m + n)[1..] == m[1..] + n;
      RunOn(Do(s, m[0].t, m[0].a), m[1..], n);
    }
  }

  lemma FirstMove(s: State, a: Move, rest: seq<Move>)
    requires Enabled(s, a.t, a.a) && Possible(Do(s, a.t, a.a), rest)
    ensures Possible(s, [a] + rest) && After(s, [a] + rest) == After(Do(s, a.t, a.a), rest)
  {
    hide Enabled, Do;
    assert ([a] + rest)[1..] == rest;
  }

  lemma ThreeMoves(s: State, a: Move, b: Move, c: Move)
    requires Enabled(s, a.t, a.a)
    requires var s1 := Do(s, a.t, a.a);
             Enabled(s1, b.t, b.a) && var s2 := Do(s1, b.t, b.a); Enabled(s2, c.t, c.a)
    ensures Possible(s, [a, b, c])
    ensures After(s, [a, b, c]) == Do(Do(Do(s, a.t, a.a), b.t, b.a), c.t, c.a)
  {
    hide Enabled, Do;
    var s1 := Do(s, a.t, a.a);
    var s2 := Do(s1, b.t, b.a);
    FirstMove(s2, c, []);
    assert [c] + [] == [c] && [b] + [c] == [b, c] && [a] + [b, c] == [a, b, c];
    FirstMove(s1, b, [c]);
    FirstMove(s, a, [b, c]);
  }

  /** An enqueue on a full queue goes to sleep. */
  lemma EnqueueSleeps(s: State, t: Tid, e: Elem)
    requires t in s.pcs && s.pcs[t].Idle? && s.sizeLock == Nobody && s.q.size == |s.q.buf|
    ensures var m := [Move(t, CallEnqueue(e)), Move(t, Advance), Move(t, Advance)];
            && Possible(s, m)
            && After(s, m) == s.(pcs := s.pcs[t := EnqWait(e)], pushers := s.pushers + {t})
  {
    ThreeMoves(s, Move(t, CallEnqueue(e)), Move(t, Advance), Move(t, Advance));
  }

  /** A dequeue on an empty queue goes to sleep. */
  lemma DequeueSleeps(s: State, t: Tid)
    requires t in s.pcs && s.pcs[t].Idle? && s.sizeLock == Nobody && s.q.size == 0
    ensures var m := [Move(t, CallDequeue), Move(t, Advance), Move(t, Advance)];
            && Possible(s, m)
            && After(s, m) == s.(pcs := s.pcs[t := DeqWait], poppers := s.poppers + {t})
  {
    ThreeMoves(s, Move(t, CallDequeue), Move(t, Advance), Move(t, Advance));
  }

  lemma SleepersAreStuck(s: State)
    requires forall t | t in s.pcs :: s.pcs[t].EnqWait? || s.pcs[t].DeqWait?
    ensures Stuck(s)
  {
  }

  /** With capacity 0, which the broker asks for when it is given 0 sessions, a
      producer and a consumer sleep side by side for ever. */
  lemma CapacityZeroDeadlocks() returns (s: State)
    ensures Reachable(s, 0) && Stuck(s) && s.poppers != {} && s.pushers != {}
  {
    var threads: set<Tid> := {0, 1};
    var s0 := State(Queue([], 0, 0, 0), Nobody, Nobody, Nobody, map t | t in threads :: Idle,
                    {}, {}, {}, {}, [], []);
    assert Init(s0, 0, threads);
    hide Do, Statement, Enabled, Possible, After, Init;
    var m := [Move(0, CallEnqueue(7)), Move(0, Advance), Move(0, Advance)];
    var n := [Move(1, CallDequeue), Move(1, Advance), Move(1, Advance)];
    EnqueueSleeps(s0, 0, 7);
    DequeueSleeps(After(s0, m), 1);
    RunOn(s0, m, n);
    s := After(s0, m + n);
    assert s.pushers == {0} && s.poppers == {1};
    assert s.pcs == map[0 := EnqWait(7), 1 := DeqWait];
    SleepersAreStuck(s);
  }

  /** Producers and consumers can be stuck together exactly when the capacity is 0. */
  lemma BothKindsStuckIffNoCapacity(capacity: nat)
    ensures (exists s :: Reachable(s, capacity) && Stuck(s) && s.poppers != {} && s.pushers != {}) <==> capacity == 0
  {
    if capacity == 0 {
      var s := CapacityZeroDeadlocks();
      assert Reachable(s, capacity) && Stuck(s) && s.poppers != {} && s.pushers != {};
    } else {
      forall s | Reachable(s, capacity) && Stuck(s) ensures s.poppers == {} || s.pushers == {} {
        NoDeadlock(s, capacity);
      }
    }
  }
}
