/** Safety of the shared queue over every interleaving of any number of threads. */
module QueueInvariants {
  import opened Ring
  import opened QueueProtocol

  // ---------- locks and wait sets ----------

  /** The statements executed while holding the size lock. */
  predicate InCritical(pc: Pc) {
    pc.EnqTest? || pc.EnqTail? || pc.EnqStore? || pc.EnqAdvance? || pc.EnqGrow? || pc.EnqUntail?
    || pc.EnqSignal? || pc.EnqUnlock? || pc.DeqTest? || pc.DeqHead? || pc.DeqLoad? || pc.DeqAdvance?
    || pc.DeqShrink? || pc.DeqUnhead? || pc.DeqSignal? || pc.DeqUnlock?
  }

  predicate HoldsTail(pc: Pc) {
    pc.EnqStore? || pc.EnqAdvance? || pc.EnqGrow? || pc.EnqUntail?
  }

  predicate HoldsHead(pc: Pc) {
    pc.DeqLoad? || pc.DeqAdvance? || pc.DeqShrink? || pc.DeqUnhead?
  }

  ghost predicate SizeLockOk(s: State) {
    && (forall t | t in s.pcs :: InCritical(s.pcs[t]) <==> s.sizeLock == Held(t))
    && (s.sizeLock.Held? ==> s.sizeLock.thread in s.pcs)
  }

  ghost predicate TailLockOk(s: State) {
    && (forall t | t in s.pcs :: HoldsTail(s.pcs[t]) <==> s.tailLock == Held(t))
    && (s.tailLock.Held? ==> s.tailLock.thread in s.pcs)
  }

  ghost predicate HeadLockOk(s: State) {
    && (forall t | t in s.pcs :: HoldsHead(s.pcs[t]) <==> s.headLock == Held(t))
    && (s.headLock.Held? ==> s.headLock.thread in s.pcs)
  }

  /** Each lock is held by the one thread that is between its lock and unlock statements. */
  ghost predicate LocksOk(s: State) {
    SizeLockOk(s) && TailLockOk(s) && HeadLockOk(s)
  }

  ghost predicate PoppersOk(s: State) {
    && (forall t :: t in s.poppers <==> t in s.pcs && s.pcs[t].DeqWait?)
    && (forall t :: t in s.wokenPoppers <==> t in s.pcs && s.pcs[t].DeqWoken?)
  }

  ghost predicate PushersOk(s: State) {
    && (forall t :: t in s.pushers <==> t in s.pcs && s.pcs[t].EnqWait?)
    && (forall t :: t in s.wokenPushers <==> t in s.pcs && s.pcs[t].EnqWoken?)
  }

  /** The sets say where threads are. */
  ghost predicate SetsOk(s: State) {
    PoppersOk(s) && PushersOk(s)
  }

  /** Where the owner of the size lock is; `Idle` stands for no owner. */
  function OwnerPc(s: State): Pc {
    if s.sizeLock.Held? && s.sizeLock.thread in s.pcs then s.pcs[s.sizeLock.thread] else Idle
  }

  // ---------- the ring between statements ----------

  /** The elements between head and tail: one more, or one fewer, than `size` in mid-update. */
  function Spanned(s: State): int {
    if OwnerPc(s).EnqGrow? then s.q.size + 1
    else if OwnerPc(s).DeqShrink? then s.q.size - 1
    else s.q.size
  }

  predicate PastFullTest(pc: Pc) {
    pc.EnqTail? || pc.EnqStore? || pc.EnqAdvance? || pc.EnqGrow?
  }

  predicate PastEmptyTest(pc: Pc) {
    pc.DeqHead? || pc.DeqLoad? || pc.DeqAdvance? || pc.DeqShrink?
  }

  /** Head, tail and size agree, and the owner's local facts hold. */
  ghost predicate RingOk(s: State) {
    var pc := OwnerPc(s);
    && 0 <= Spanned(s) && Spans(s.q, Spanned(s))
    && s.q.size <= |s.q.buf|
    && (PastFullTest(pc) ==> s.q.size < |s.q.buf|)
    && (PastEmptyTest(pc) ==> s.q.size > 0)
    && (pc.EnqAdvance? ==> s.q.buf[s.q.tail] == pc.e)
    && (pc.DeqAdvance? ==> s.q.buf[s.q.head] == pc.e)
  }

  /** Nothing is lost, repeated or reordered; and a dequeue returns what it took out. */
  ghost predicate FifoOk(s: State)
    requires RingOk(s)
  {
    var pc := OwnerPc(s);
    && s.dequeued + Elements(s.q.buf, s.q.head, Spanned(s)) == s.enqueued
    && (pc.DeqShrink? || pc.DeqUnhead? || pc.DeqSignal? || pc.DeqUnlock? ==>
          s.dequeued != [] && s.dequeued[|s.dequeued| - 1] == pc.e)
  }

  // ---------- wakeups ----------

  /** The owner will take an element out, or has put one in and not signalled yet. */
  predicate OwesPopper(pc: Pc) {
    pc.DeqTest? || pc.DeqHead? || pc.DeqLoad? || pc.DeqAdvance? || pc.DeqShrink? || pc.EnqUntail? || pc.EnqSignal?
  }

  predicate OwesPusher(pc: Pc) {
    pc.EnqTest? || pc.EnqTail? || pc.EnqStore? || pc.EnqAdvance? || pc.EnqGrow? || pc.DeqUnhead? || pc.DeqSignal?
  }

  function One(b: bool): nat {
    if b then 1 else 0
  }

  /** While someone waits, every element (every free place) has someone woken, or
      the lock's owner, to account for it. */
  ghost predicate WakeupsOk(s: State) {
    PopperWakeups(s) && PusherWakeups(s)
  }

  ghost predicate PopperWakeups(s: State) {
    s.poppers != {} ==> s.q.size <= |s.wokenPoppers| + One(OwesPopper(OwnerPc(s)))
  }

  ghost predicate PusherWakeups(s: State) {
    s.pushers != {} ==> |s.q.buf| - s.q.size <= |s.wokenPushers| + One(OwesPusher(OwnerPc(s)))
  }

  ghost predicate Inv(s: State) {
    LocksOk(s) && SetsOk(s) && RingOk(s) && FifoOk(s) && WakeupsOk(s)
  }

  lemma InitInv(s: State, capacity: nat, threads: set<Tid>)
    requires Init(s, capacity, threads)
    ensures Inv(s)
  {
  }

  // ---------- every action keeps the invariant ----------

  lemma StatementSizeLock(s: State, t: Tid)
    requires SizeLockOk(s) && Enabled(s, t, Advance)
    ensures SizeLockOk(Do(s, t, Advance))
  {
  }

  lemma StatementTailLock(s: State, t: Tid)
    requires TailLockOk(s) && Enabled(s, t, Advance)
    ensures TailLockOk(Do(s, t, Advance))
  {
  }

  lemma StatementHeadLock(s: State, t: Tid)
    requires HeadLockOk(s) && Enabled(s, t, Advance)
    ensures HeadLockOk(Do(s, t, Advance))
  {
  }

  lemma SignalLocks(s: State, t: Tid, w: set<Tid>)
    requires LocksOk(s) && Enabled(s, t, Signal(w))
    ensures LocksOk(Do(s, t, Signal(w)))
  {
  }

  lemma CallLocks(s: State, t: Tid, a: Action)
    requires LocksOk(s) && Enabled(s, t, a) && !a.Advance? && !a.Signal?
    ensures LocksOk(Do(s, t, a))
  {
  }

  /** No action breaks the ownership of the three locks. */
  lemma StepLocks(s: State, t: Tid, a: Action)
    requires LocksOk(s) && Enabled(s, t, a)
    ensures LocksOk(Do(s, t, a))
  {
    hide SizeLockOk, TailLockOk, HeadLockOk, Do, Enabled;
    match a
    case Advance =>
      StatementSizeLock(s, t);
      StatementTailLock(s, t);
      StatementHeadLock(s, t);
    case Signal(w) => SignalLocks(s, t, w);
    case _ => CallLocks(s, t, a);
  }

  lemma StatementPoppers(s: State, t: Tid)
    requires PoppersOk(s) && Enabled(s, t, Advance)
    ensures PoppersOk(Do(s, t, Advance))
  {
  }

  lemma StatementPushers(s: State, t: Tid)
    requires PushersOk(s) && Enabled(s, t, Advance)
    ensures PushersOk(Do(s, t, Advance))
  {
  }

  lemma SignalSets(s: State, t: Tid, w: set<Tid>)
    requires SetsOk(s) && Enabled(s, t, Signal(w))
    ensures SetsOk(Do(s, t, Signal(w)))
  {
  }

  lemma CallSets(s: State, t: Tid, a: Action)
    requires SetsOk(s) && Enabled(s, t, a) && !a.Advance? && !a.Signal?
    ensures SetsOk(Do(s, t, a))
  {
  }

  /** No action makes the four wait sets disagree with where the threads are. */
  lemma StepSets(s: State, t: Tid, a: Action)
    requires SetsOk(s) && Enabled(s, t, a)
    ensures SetsOk(Do(s, t, a))
  {
    hide PoppersOk, PushersOk, Do, Enabled;
    match a
    case Advance =>
      StatementPoppers(s, t);
      StatementPushers(s, t);
    case Signal(w) => SignalSets(s, t, w);
    case _ => CallSets(s, t, a);
  }

  // ---------- the owner's view of a step ----------

  /** Only the owner of the size lock changes the queue; other steps change neither
      the queue, nor what went in and out, nor where the owner is. */
  lemma OutsiderStep(s: State, t: Tid, a: Action)
    requires LocksOk(s) && SetsOk(s) && Enabled(s, t, a) && !InCritical(s.pcs[t])
    ensures var u := Do(s, t, a);
            && u.q == s.q && u.enqueued == s.enqueued && u.dequeued == s.dequeued
            && (s.sizeLock.Held? ==> OwnerPc(u) == OwnerPc(s))
            && (s.sizeLock == Nobody ==> OwnerPc(u).Idle? || OwnerPc(u).EnqTest? || OwnerPc(u).DeqTest?)
  {
  }

  lemma OwnerStep(s: State, t: Tid, a: Action)
    requires LocksOk(s) && Enabled(s, t, a) && InCritical(s.pcs[t])
    ensures OwnerPc(s) == s.pcs[t]
    ensures var u := Do(s, t, a); OwnerPc(u) == if InCritical(u.pcs[t]) then u.pcs[t] else Idle
  {
  }

  lemma StepRing(s: State, t: Tid, a: Action)
    requires LocksOk(s) && SetsOk(s) && RingOk(s) && FifoOk(s) && Enabled(s, t, a)
    ensures RingOk(Do(s, t, a)) && FifoOk(Do(s, t, a))
  {
    if InCritical(s.pcs[t]) {
      OwnerStep(s, t, a);
      OwnerRing(s, t, a);
    } else {
      OutsiderStep(s, t, a);
    }
  }

  lemma OwnerRing(s: State, t: Tid, a: Action)
    requires LocksOk(s) && RingOk(s) && FifoOk(s) && Enabled(s, t, a) && InCritical(s.pcs[t])
    requires OwnerPc(s) == s.pcs[t]
    requires var u := Do(s, t, a); OwnerPc(u) == if InCritical(u.pcs[t]) then u.pcs[t] else Idle
    ensures RingOk(Do(s, t, a)) && FifoOk(Do(s, t, a))
  {
    hide LocksOk;
    match s.pcs[t]
    case EnqStore(e) =>
      OwnerStores(s, t);
    case EnqAdvance(e) =>
      OwnerAppends(s, t);
    case DeqAdvance(e) =>
      OwnerTakes(s, t);
    case _ =>
      hide Spans, Elements, InCritical, HoldsTail, HoldsHead;
  }

  lemma OwnerStores(s: State, t: Tid)
    requires RingOk(s) && FifoOk(s) && Enabled(s, t, Advance) && s.pcs[t].EnqStore? && OwnerPc(s) == s.pcs[t]
    requires OwnerPc(Do(s, t, Advance)) == EnqAdvance(s.pcs[t].e)
    ensures RingOk(Do(s, t, Advance)) && FifoOk(Do(s, t, Advance))
  {
    StoreOutside(s.q, s.q.size, s.pcs[t].e);
  }

  lemma OwnerAppends(s: State, t: Tid)
    requires RingOk(s) && FifoOk(s) && Enabled(s, t, Advance) && s.pcs[t].EnqAdvance? && OwnerPc(s) == s.pcs[t]
    requires OwnerPc(Do(s, t, Advance)) == EnqGrow
    ensures RingOk(Do(s, t, Advance)) && FifoOk(Do(s, t, Advance))
  {
    var n := s.q.size;
    AdvanceTailAppends(s.q, n, s.pcs[t].e);
    assert s.dequeued + (Elements(s.q.buf, s.q.head, n) + [s.pcs[t].e]) == s.enqueued + [s.pcs[t].e];
  }

  lemma OwnerTakes(s: State, t: Tid)
    requires RingOk(s) && FifoOk(s) && Enabled(s, t, Advance) && s.pcs[t].DeqAdvance? && OwnerPc(s) == s.pcs[t]
    requires OwnerPc(Do(s, t, Advance)) == DeqShrink(s.pcs[t].e)
    ensures RingOk(Do(s, t, Advance)) && FifoOk(Do(s, t, Advance))
  {
    var n, e := s.q.size, s.pcs[t].e;
    AdvanceHeadDrops(s.q, n);
    var rest := Elements(s.q.buf, AdvanceHead(s.q).head, n - 1);
    assert s.dequeued + ([e] + rest) == (s.dequeued + [e]) + rest;
  }

  // ---------- wakeups ----------

  /** What an outsider does to the wait sets. */
  lemma OutsiderSets(s: State, t: Tid, a: Action)
    requires SetsOk(s) && Enabled(s, t, a) && !InCritical(s.pcs[t])
    ensures var u := Do(s, t, a);
            && u.poppers <= s.poppers && u.pushers <= s.pushers
            && u.wokenPoppers >= s.wokenPoppers - (if s.pcs[t].DeqWoken? then {t} else {})
            && u.wokenPushers >= s.wokenPushers - (if s.pcs[t].EnqWoken? then {t} else {})
            && (s.pcs[t].DeqWoken? || s.pcs[t].EnqWoken? ==>
                  s.sizeLock == Nobody && u.sizeLock == Held(t) && t in u.pcs)
            && (s.pcs[t].DeqWoken? ==> u.pcs[t].DeqTest?) && (s.pcs[t].EnqWoken? ==> u.pcs[t].EnqTest?)
  {
  }

  lemma SizeOfSuperset<T>(a: set<T>, b: set<T>, x: T)
    ensures a >= b ==> |a| >= |b|
    ensures a >= b - {x} ==> |a| + 1 >= |b|
  {
    if a >= b - {x} {
      assert a == (b - {x}) + (a - (b - {x}));
      assert b <= (b - {x}) + {x};
      assert |b| <= |b - {x}| + 1 by {
        if x !in b {
          assert b - {x} == b;
        }
      }
    }
    if a >= b {
      assert a == b + (a - b);
    }
  }

  lemma OutsiderWakeups(s: State, t: Tid, a: Action)
    requires LocksOk(s) && SetsOk(s) && WakeupsOk(s) && Enabled(s, t, a) && !InCritical(s.pcs[t])
    ensures WakeupsOk(Do(s, t, a))
  {
    OutsiderStep(s, t, a);
    OutsiderSets(s, t, a);
    var u := Do(s, t, a);
    SizeOfSuperset(u.wokenPoppers, s.wokenPoppers, t);
    SizeOfSuperset(u.wokenPushers, s.wokenPushers, t);
    hide Do, LocksOk, SetsOk, InCritical;
  }

  /** What the owner's statements, other than signals, do to the wait sets and the size. */
  lemma OwnerSets(s: State, t: Tid)
    requires SetsOk(s) && RingOk(s) && LocksOk(s) && Enabled(s, t, Advance) && InCritical(s.pcs[t])
    requires OwnerPc(s) == s.pcs[t]
    ensures var u := Do(s, t, Advance);
            && u.wokenPoppers == s.wokenPoppers && u.wokenPushers == s.wokenPushers
            && |u.q.buf| == |s.q.buf|
            && u.q.size == s.q.size + One(s.pcs[t].EnqGrow?) - One(s.pcs[t].DeqShrink?)
            && (u.poppers == s.poppers || u.q.size == 0)
            && (u.pushers == s.pushers || u.q.size == |u.q.buf|)
  {
  }

  lemma OwnerWakeups(s: State, t: Tid)
    requires LocksOk(s) && SetsOk(s) && RingOk(s) && WakeupsOk(s) && Enabled(s, t, Advance) && InCritical(s.pcs[t])
    ensures WakeupsOk(Do(s, t, Advance))
  {
    OwnerStep(s, t, Advance);
    OwnerSets(s, t);
    hide LocksOk, SetsOk, RingOk;
  }

  /** What a signal does to the wait sets. */
  lemma SignalEffect(s: State, t: Tid, w: set<Tid>)
    requires Enabled(s, t, Signal(w))
    ensures var u := Do(s, t, Signal(w));
            && u.q == s.q && t in u.pcs
            && if s.pcs[t].EnqSignal? then
                 && Signals(s.poppers, w) && u.pcs[t] == EnqUnlock
                 && u.poppers == s.poppers - w && u.wokenPoppers == s.wokenPoppers + w
                 && u.pushers == s.pushers && u.wokenPushers == s.wokenPushers
               else
                 && Signals(s.pushers, w) && u.pcs[t].DeqUnlock?
                 && u.pushers == s.pushers - w && u.wokenPushers == s.wokenPushers + w
                 && u.poppers == s.poppers && u.wokenPoppers == s.wokenPoppers
  {
  }

  lemma WaitingNotWoken(s: State)
    requires SetsOk(s)
    ensures s.poppers !! s.wokenPoppers && s.pushers !! s.wokenPushers
  {
  }

  /** Whoever is woken accounts for at least one element or place. */
  lemma WokenAdds(waiting: set<Tid>, woken: set<Tid>, w: set<Tid>)
    requires waiting !! woken && Signals(waiting, w)
    ensures |woken + w| >= |woken|
    ensures waiting != {} ==> |woken + w| >= |woken| + 1
  {
    assert |woken + w| == |woken| + |w|;
  }

  lemma SignalWakeups(s: State, t: Tid, w: set<Tid>)
    requires LocksOk(s) && SetsOk(s) && WakeupsOk(s) && Enabled(s, t, Signal(w)) && InCritical(s.pcs[t])
    ensures WakeupsOk(Do(s, t, Signal(w)))
  {
    OwnerStep(s, t, Signal(w));
    SignalEffect(s, t, w);
    WaitingNotWoken(s);
    if s.pcs[t].EnqSignal? {
      WokenAdds(s.poppers, s.wokenPoppers, w);
    } else {
      WokenAdds(s.pushers, s.wokenPushers, w);
    }
    hide LocksOk, SetsOk, InCritical, Do, Enabled, OwnerPc, Signals;
  }

  lemma StepWakeups(s: State, t: Tid, a: Action)
    requires LocksOk(s) && SetsOk(s) && RingOk(s) && WakeupsOk(s) && Enabled(s, t, a)
    ensures WakeupsOk(Do(s, t, a))
  {
    hide LocksOk, SetsOk, RingOk, WakeupsOk, Do;
    if !InCritical(s.pcs[t]) {
      OutsiderWakeups(s, t, a);
    } else if a.Signal? {
      SignalWakeups(s, t, a.woken);
    } else {
      OwnerWakeups(s, t);
    }
  }

  lemma StepInv(s: State, t: Tid, a: Action)
    requires Inv(s) && Enabled(s, t, a)
    ensures Inv(Do(s, t, a))
  {
    hide LocksOk, SetsOk, RingOk, FifoOk, WakeupsOk, Do;
    StepLocks(s, t, a);
    StepSets(s, t, a);
    StepRing(s, t, a);
    StepWakeups(s, t, a);
  }
}
