/**
 * Any number of producers and consumers on one task queue. Each transition is one lock operation, one
 * read of a guard, or one of the assignments made under the size lock.
 */
module QueueThreads {
  import opened TaskQueues

  type Task = int

  datatype Lock = Free | HeldBy(thread: nat)

  /** Where a caller of pcq_enqueue is. */
  datatype ProducerAt =
    | PIdle | PGuard | PWaiting | PPassed | PSizeLocked | PHeadLocked
    | PStored | PCounted | PHeadReleased | PSizeReleased | PSignal

  /** Where a caller of pcq_dequeue is. */
  datatype ConsumerAt =
    | CIdle | CGuard | CWaiting | CPassed | CSizeLocked | CTailLocked
    | CRemoved | CCounted | CTailReleased | CSizeReleased | CSignal

  datatype Thread = Producer(p: ProducerAt, elem: Task) | Consumer(c: ConsumerAt) {
    predicate HoldsPusher() { Producer? && !(p.PIdle? || p.PWaiting? || p.PSignal?) }
    predicate HoldsPopper() { Consumer? && !(c.CIdle? || c.CWaiting? || c.CSignal?) }
    predicate HoldsHead() { Producer? && (p.PHeadLocked? || p.PStored? || p.PCounted?) }
    predicate HoldsTail() { Consumer? && (c.CTailLocked? || c.CRemoved? || c.CCounted?) }
    predicate HoldsSize() {
      (Producer? && (p.PSizeLocked? || p.PHeadReleased? || HoldsHead()))
      || (Consumer? && (c.CSizeLocked? || c.CTailReleased? || HoldsTail()))
    }
    /** Has seen room, and has not used it yet. */
    predicate SawRoom() { Producer? && (p.PPassed? || p.PSizeLocked? || p.PHeadLocked?) }
    /** Has seen a task, and has not removed it yet. */
    predicate SawTask() { Consumer? && (c.CPassed? || c.CSizeLocked? || c.CTailLocked?) }
  }

  datatype Shared = Shared(
    buffer: seq<Task>, size: int, tail: int,
    pusher: Lock, popper: Lock, sizeLock: Lock, headLock: Lock, tailLock: Lock,
    threads: seq<Thread>,
    enqueued: seq<Task>, dequeued: seq<Task>)
  {
    function At(t: nat, th: Thread): Shared
      requires t < |threads|
    {
      this.(threads := threads[t := th])
    }
  }

  /** One transition of a thread that is inside pcq_enqueue or about to call it. */
  ghost predicate ProducerStep(s: Shared, t: nat, s': Shared)
    requires t < |s.threads| && s.threads[t].Producer?
  {
    var elem := s.threads[t].elem;
    match s.threads[t].p
    case PIdle => s.pusher == Free && exists e :: s' == s.(pusher := HeldBy(t)).At(t, Producer(PGuard, e))
    case PGuard =>
      if s.size == |s.buffer| then s' == s.(pusher := Free).At(t, Producer(PWaiting, elem))
      else s' == s.At(t, Producer(PPassed, elem))
    case PWaiting => s.pusher == Free && s' == s.(pusher := HeldBy(t)).At(t, Producer(PGuard, elem))
    case PPassed => s.sizeLock == Free && s' == s.(sizeLock := HeldBy(t)).At(t, Producer(PSizeLocked, elem))
    case PSizeLocked => s.headLock == Free && s' == s.(headLock := HeldBy(t)).At(t, Producer(PHeadLocked, elem))
    case PHeadLocked =>
      && 0 <= s.size < |s.buffer|
      && s' == s.(buffer := Shifted(s.buffer, s.size, elem), tail := if s.size != 0 then s.tail + 1 else s.tail,
                  enqueued := s.enqueued + [elem]).At(t, Producer(PStored, elem))
    case PStored => s' == s.(size := s.size + 1).At(t, Producer(PCounted, elem))
    case PCounted => s' == s.(headLock := Free).At(t, Producer(PHeadReleased, elem))
    case PHeadReleased => s' == s.(sizeLock := Free).At(t, Producer(PSizeReleased, elem))
    case PSizeReleased => s' == s.(pusher := Free).At(t, Producer(PSignal, elem))
    case PSignal => s' == s.At(t, Producer(PIdle, elem))
  }

  /** One transition of a thread that is inside pcq_dequeue or about to call it. */
  ghost predicate ConsumerStep(s: Shared, t: nat, s': Shared)
    requires t < |s.threads| && s.threads[t].Consumer?
  {
    match s.threads[t].c
    case CIdle => s.popper == Free && s' == s.(popper := HeldBy(t)).At(t, Consumer(CGuard))
    case CGuard =>
      if s.size == 0 then s' == s.(popper := Free).At(t, Consumer(CWaiting))
      else s' == s.At(t, Consumer(CPassed))
    case CWaiting => s.popper == Free && s' == s.(popper := HeldBy(t)).At(t, Consumer(CGuard))
    case CPassed => s.sizeLock == Free && s' == s.(sizeLock := HeldBy(t)).At(t, Consumer(CSizeLocked))
    case CSizeLocked => s.tailLock == Free && s' == s.(tailLock := HeldBy(t)).At(t, Consumer(CTailLocked))
    case CTailLocked =>
      && 0 <= s.tail < |s.buffer|
      && s' == s.(tail := if s.tail != 0 then s.tail - 1 else s.tail,
                  dequeued := s.dequeued + [s.buffer[s.tail]]).At(t, Consumer(CRemoved))
    case CRemoved => s' == s.(size := s.size - 1).At(t, Consumer(CCounted))
    case CCounted => s' == s.(tailLock := Free).At(t, Consumer(CTailReleased))
    case CTailReleased => s' == s.(sizeLock := Free).At(t, Consumer(CSizeReleased))
    case CSizeReleased => s' == s.(popper := Free).At(t, Consumer(CSignal))
    case CSignal => s' == s.At(t, Consumer(CIdle))
  }

  ghost predicate Next(s: Shared, t: nat, s': Shared) {
    t < |s.threads| && if s.threads[t].Producer? then ProducerStep(s, t, s') else ConsumerStep(s, t, s')
  }

  ghost predicate Start(s: Shared) {
    && s.size == 0 && s.tail == 0 && s.enqueued == [] && s.dequeued == []
    && s.pusher == s.popper == s.sizeLock == s.headLock == s.tailLock == Free
    && forall t :: 0 <= t < |s.threads| ==>
       match s.threads[t]
       case Producer(p, _) => p == PIdle
       case Consumer(c) => c == CIdle
  }

  // ---- the invariant ----

  /** Thread t holds the locks that go with where it is. */
  predicate HoldsItsLocks(s: Shared, t: nat)
    requires t < |s.threads|
  {
    && (s.threads[t].HoldsPusher() <==> s.pusher == HeldBy(t))
    && (s.threads[t].HoldsPopper() <==> s.popper == HeldBy(t))
    && (s.threads[t].HoldsSize() <==> s.sizeLock == HeldBy(t))
    && (s.threads[t].HoldsHead() ==> s.headLock == HeldBy(t))
    && (s.threads[t].HoldsTail() ==> s.tailLock == HeldBy(t))
  }

  ghost predicate LocksOk(s: Shared) {
    forall t: nat :: t < |s.threads| ==> HoldsItsLocks(s, t)
  }

  /** How far the size lags behind the buffer: only the holder of the size lock is between the two updates. */
  function Lag(s: Shared): int {
    if s.sizeLock.HeldBy? && s.sizeLock.thread < |s.threads| then
      match s.threads[s.sizeLock.thread]
      case Producer(p, _) => if p.PStored? then 1 else 0
      case Consumer(c) => if c.CRemoved? then -1 else 0
    else 0
  }

  /** How many tasks are in the buffer. */
  function Items(s: Shared): int { |s.enqueued| - |s.dequeued| }

  ghost predicate DataOk(s: Shared) {
    && 0 <= Items(s) <= |s.buffer| && s.size == Items(s) - Lag(s)
    && s.tail == (if Items(s) == 0 then 0 else Items(s) - 1)
    && s.enqueued == s.dequeued + Reversed(s.buffer[..Items(s)])
  }

  /** What a thread saw through an unlocked guard still holds. */
  ghost predicate GuardsOk(s: Shared) {
    forall t: nat :: t < |s.threads| ==>
      && (s.threads[t].SawRoom() ==> s.size < |s.buffer| && Items(s) < |s.buffer|)
      && (s.threads[t].SawTask() ==> 0 < s.size && 0 < Items(s))
  }

  ghost predicate Inv(s: Shared) { LocksOk(s) && DataOk(s) && GuardsOk(s) && 0 <= s.size <= |s.buffer| }

  lemma StartInv(s: Shared)
    requires Start(s)
    ensures Inv(s)
  {
    assert s.buffer[..0] == [];
  }

  /** The steps on locks, guards and program counters. */
  predicate Moves(th: Thread) {
    match th
    case Producer(p, _) => !p.PHeadLocked? && !p.PStored?
    case Consumer(c) => !c.CTailLocked? && !c.CRemoved?
  }

  lemma ProducerLocks(s: Shared, t: nat, s': Shared)
    requires LocksOk(s) && t < |s.threads| && s.threads[t].Producer? && ProducerStep(s, t, s')
    ensures LocksOk(s')
  {
    assert HoldsItsLocks(s, t);
    forall u: nat | u < |s'.threads| ensures HoldsItsLocks(s', u) {
      assert HoldsItsLocks(s, u);
    }
  }

  lemma ConsumerLocks(s: Shared, t: nat, s': Shared)
    requires LocksOk(s) && t < |s.threads| && s.threads[t].Consumer? && ConsumerStep(s, t, s')
    ensures LocksOk(s')
  {
    assert HoldsItsLocks(s, t);
    forall u: nat | u < |s'.threads| ensures HoldsItsLocks(s', u) {
      assert HoldsItsLocks(s, u);
    }
  }

  /** Nothing but locks and program counters changes. */
  predicate SameData(s: Shared, s': Shared) {
    && s'.buffer == s.buffer && s'.size == s.size && s'.tail == s.tail
    && s'.enqueued == s.enqueued && s'.dequeued == s.dequeued
  }

  /** Seeing room is a matter of reading the size while no other producer is between its two updates. */
  lemma MovesKeep(s: Shared, t: nat, s': Shared)
    requires Inv(s) && SameData(s, s') && Lag(s') == Lag(s) && t < |s.threads| == |s'.threads|
    requires forall u: nat :: u < |s.threads| && u != t ==> s'.threads[u] == s.threads[u]
    requires s'.threads[t].SawRoom() ==> s.size < |s.buffer| && Items(s) < |s.buffer|
    requires s'.threads[t].SawTask() ==> 0 < s.size && 0 < Items(s)
    ensures DataOk(s') && GuardsOk(s')
  {
  }

  lemma ProducerMoves(s: Shared, t: nat, s': Shared)
    requires Inv(s) && t < |s.threads| && s.threads[t].Producer? && ProducerStep(s, t, s') && Moves(s.threads[t])
    ensures DataOk(s') && GuardsOk(s')
  {
    assert HoldsItsLocks(s, t)
           && (s.sizeLock.HeldBy? && s.sizeLock.thread < |s.threads| ==> HoldsItsLocks(s, s.sizeLock.thread));
    assert s.threads[t].HoldsPusher() ==> Lag(s) <= 0;
    MovesKeep(s, t, s');
  }

  lemma ConsumerMoves(s: Shared, t: nat, s': Shared)
    requires Inv(s) && t < |s.threads| && s.threads[t].Consumer? && ConsumerStep(s, t, s') && Moves(s.threads[t])
    ensures DataOk(s') && GuardsOk(s')
  {
    assert HoldsItsLocks(s, t)
           && (s.sizeLock.HeldBy? && s.sizeLock.thread < |s.threads| ==> HoldsItsLocks(s, s.sizeLock.thread));
    assert s.threads[t].HoldsPopper() ==> Lag(s) >= 0;
    MovesKeep(s, t, s');
  }

  /** No two threads hold one lock. */
  lemma LocksApart(s: Shared, t: nat)
    requires LocksOk(s) && t < |s.threads|
    ensures HoldsItsLocks(s, t)
    ensures forall u: nat :: u < |s.threads| && u != t ==>
              && !(s.threads[t].HoldsPusher() && s.threads[u].HoldsPusher())
              && !(s.threads[t].HoldsPopper() && s.threads[u].HoldsPopper())
              && !(s.threads[t].HoldsSize() && s.threads[u].HoldsSize())
  {
    assert HoldsItsLocks(s, t);
    forall u: nat | u < |s.threads| && u != t
      ensures && !(s.threads[t].HoldsPusher() && s.threads[u].HoldsPusher())
              && !(s.threads[t].HoldsPopper() && s.threads[u].HoldsPopper())
              && !(s.threads[t].HoldsSize() && s.threads[u].HoldsSize())
    {
      assert HoldsItsLocks(s, u);
    }
  }

  /** The shift of the buffer and the move of the tail. */
  lemma Stores(s: Shared, t: nat, s': Shared)
    requires Inv(s) && t < |s.threads| && s.threads[t].Producer? && ProducerStep(s, t, s')
             && s.threads[t].p.PHeadLocked?
    ensures DataOk(s') && GuardsOk(s')
  {
    LocksApart(s, t);
    ShiftedContents(s.buffer, s.size, s.threads[t].elem);
    assert s.enqueued + [s.threads[t].elem] == s.dequeued + (Reversed(s.buffer[..Items(s)]) + [s.threads[t].elem]);
  }

  /** The removal of the task at the tail. */
  lemma Removes(s: Shared, t: nat, s': Shared)
    requires Inv(s) && t < |s.threads| && s.threads[t].Consumer? && ConsumerStep(s, t, s')
             && s.threads[t].c.CTailLocked?
    ensures DataOk(s') && GuardsOk(s')
  {
    LocksApart(s, t);
    BackIsOldest(s.buffer, Items(s));
    var rest := Reversed(s.buffer[..Items(s) - 1]);
    assert s.dequeued + ([s.buffer[s.tail]] + rest) == (s.dequeued + [s.buffer[s.tail]]) + rest;
  }

  /** The updates of the size. */
  lemma Counts(s: Shared, t: nat, s': Shared)
    requires Inv(s) && Next(s, t, s')
    requires match s.threads[t] case Producer(p, _) => p.PStored? case Consumer(c) => c.CRemoved?
    ensures DataOk(s') && GuardsOk(s')
  {
    LocksApart(s, t);
  }

  lemma NextInv(s: Shared, t: nat, s': Shared)
    requires Inv(s) && Next(s, t, s')
    ensures Inv(s')
  {
    match s.threads[t]
    case Producer(p, _) =>
      ProducerLocks(s, t, s');
      if p.PHeadLocked? { Stores(s, t, s'); }
      else if p.PStored? { Counts(s, t, s'); }
      else { ProducerMoves(s, t, s'); }
    case Consumer(c) =>
      ConsumerLocks(s, t, s');
      if c.CTailLocked? { Removes(s, t, s'); }
      else if c.CRemoved? { Counts(s, t, s'); }
      else { ConsumerMoves(s, t, s'); }
  }

  // ---- runs ----

  ghost predicate Run(ss: seq<Shared>, ts: seq<nat>) {
    |ss| == |ts| + 1 && Start(ss[0]) && forall k :: 0 <= k < |ts| ==> Next(ss[k], ts[k], ss[k + 1])
  }

  /**
   * However the threads interleave, and however often they wake up without cause: the size stays within
   * the capacity, the room a producer saw and the task a consumer saw are still there when it acts, and
   * tasks come out in the order they went in.
   */
  lemma {:induction false} QueueSafety(ss: seq<Shared>, ts: seq<nat>, k: nat)
    requires Run(ss, ts) && k < |ss|
    ensures Inv(ss[k])
    ensures 0 <= ss[k].size <= |ss[k].buffer| && ss[k].dequeued <= ss[k].enqueued
    ensures forall t: nat :: t < |ss[k].threads| ==>
              (ss[k].threads[t].SawRoom() ==> ss[k].size < |ss[k].buffer|)
                && (ss[k].threads[t].SawTask() ==> 0 < ss[k].size)
  {
    if k == 0 {
      StartInv(ss[0]);
    } else {
      QueueSafety(ss, ts, k - 1);
      NextInv(ss[k - 1], ts[k - 1], ss[k]);
    }
  }

  /** A producer that has both locks can always store, and a consumer that has both can always remove. */
  lemma ActsAreEnabled(s: Shared, t: nat)
    requires Inv(s) && t < |s.threads|
    ensures s.threads[t].Producer? && s.threads[t].p.PHeadLocked? ==> exists s' :: ProducerStep(s, t, s')
    ensures s.threads[t].Consumer? && s.threads[t].c.CTailLocked? ==> exists s' :: ConsumerStep(s, t, s')
  {
    assert HoldsItsLocks(s, t);
    if s.threads[t].Producer? && s.threads[t].p.PHeadLocked? {
      var elem := s.threads[t].elem;
      assert ProducerStep(s, t,
             s.(buffer := Shifted(s.buffer, s.size, elem), tail := if s.size != 0 then s.tail + 1 else s.tail,
                  enqueued := s.enqueued + [elem]).At(t, Producer(PStored, elem)));
    }
    if s.threads[t].Consumer? && s.threads[t].c.CTailLocked? {
      assert ConsumerStep(s, t, s.(tail := if s.tail != 0 then s.tail - 1 else s.tail,
                  dequeued := s.dequeued + [s.buffer[s.tail]]).At(t, Consumer(CRemoved)));
    }
  }

  // ---- nobody waits without need ----

  /** A producer that tests its guard goes to wait if and only if the queue is full, and else passes. */
  lemma ProducerWaitsIff(s: Shared, t: nat, s': Shared)
    requires t < |s.threads| && s.threads[t].Producer? && s.threads[t].p.PGuard? && ProducerStep(s, t, s')
    ensures t < |s'.threads| && s'.threads[t].Producer?
    ensures s'.threads[t].p == PWaiting <==> s.size == |s.buffer|
    ensures s'.threads[t].p == PPassed <==> s.size != |s.buffer|
  {
  }

  /** A consumer that tests its guard goes to wait if and only if the queue is empty, and else passes. */
  lemma ConsumerWaitsIff(s: Shared, t: nat, s': Shared)
    requires t < |s.threads| && s.threads[t].Consumer? && s.threads[t].c.CGuard? && ConsumerStep(s, t, s')
    ensures t < |s'.threads| && s'.threads[t].Consumer?
    ensures s'.threads[t].c == CWaiting <==> s.size == 0
    ensures s'.threads[t].c == CPassed <==> s.size != 0
  {
  }

  /** From ss[0] to the last of ss in steps of these threads. */
  ghost predicate Path(ss: seq<Shared>, ts: seq<nat>) {
    |ss| == |ts| + 1 && forall k :: 0 <= k < |ts| ==> Next(ss[k], ts[k], ss[k + 1])
  }

  ghost predicate Reaches(s: Shared, s': Shared) {
    exists ss, ts :: Path(ss, ts) && ss[0] == s && ss[|ss| - 1] == s'
  }

  lemma ReachesItself(s: Shared)
    ensures Reaches(s, s)
  {
    assert Path([s], []);
  }

  lemma ReachesFurther(s: Shared, s': Shared, t: nat, s'': Shared)
    requires Reaches(s, s') && Next(s', t, s'')
    ensures Reaches(s, s'')
  {
    var ss, ts :| Path(ss, ts) && ss[0] == s && ss[|ss| - 1] == s';
    var us, vs := ss + [s''], ts + [t];
    forall k | 0 <= k < |vs| ensures Next(us[k], vs[k], us[k + 1]) {
      if k < |ts| {
        assert Next(ss[k], ts[k], ss[k + 1]);
      }
    }
    assert Path(us, vs) && us[0] == s && us[|us| - 1] == s'';
  }

  /** A path from a start is a run. */
  lemma ReachedByRun(s: Shared, s': Shared) returns (ss: seq<Shared>, ts: seq<nat>)
    requires Start(s) && Reaches(s, s')
    ensures Run(ss, ts) && ss[0] == s && ss[|ss| - 1] == s'
  {
    ss, ts :| Path(ss, ts) && ss[0] == s && ss[|ss| - 1] == s';
  }

  /** No thread is inside a call. */
  predicate Quiet(s: Shared) {
    s.pusher == s.popper == s.sizeLock == s.headLock == s.tailLock == Free
  }

  /** A producer at thread t puts in one task while nobody else moves. */
  function Put(s: Shared, t: nat, elem: Task): Shared
    requires t < |s.threads| && 0 <= s.size < |s.buffer|
  {
    s.(buffer := Shifted(s.buffer, s.size, elem), tail := if s.size != 0 then s.tail + 1 else s.tail,
       enqueued := s.enqueued + [elem], size := s.size + 1).At(t, Producer(PIdle, elem))
  }

  lemma PutReaches(s: Shared, t: nat, elem: Task, s0: Shared)
    requires Reaches(s0, s) && Quiet(s) && t < |s.threads| && s.threads[t].Producer? && s.threads[t].p.PIdle?
    requires 0 <= s.size < |s.buffer|
    ensures Reaches(s0, Put(s, t, elem)) && Quiet(Put(s, t, elem))
  {
    hide Reaches, Shifted;
    var s1 := s.(pusher := HeldBy(t)).At(t, Producer(PGuard, elem));
    ReachesFurther(s0, s, t, s1);
    var s2 := s1.At(t, Producer(PPassed, elem));
    ReachesFurther(s0, s1, t, s2);
    var s3 := s2.(sizeLock := HeldBy(t)).At(t, Producer(PSizeLocked, elem));
    ReachesFurther(s0, s2, t, s3);
    var s4 := s3.(headLock := HeldBy(t)).At(t, Producer(PHeadLocked, elem));
    ReachesFurther(s0, s3, t, s4);
    var s5 := s4.(buffer := Shifted(s4.buffer, s4.size, elem), tail := if s4.size != 0 then s4.tail + 1 else s4.tail,
                  enqueued := s4.enqueued + [elem]).At(t, Producer(PStored, elem));
    ReachesFurther(s0, s4, t, s5);
    PutEnds(s5, t, elem, s0);
    assert Put(s, t, elem) == s5.(size := s5.size + 1, headLock := Free, sizeLock := Free, pusher := Free)
                                .At(t, Producer(PIdle, elem));
  }

  lemma PutEnds(s: Shared, t: nat, elem: Task, s0: Shared)
    requires Reaches(s0, s) && t < |s.threads| && s.threads[t] == Producer(PStored, elem)
    ensures Reaches(s0, s.(size := s.size + 1, headLock := Free, sizeLock := Free, pusher := Free)
                         .At(t, Producer(PIdle, elem)))
  {
    hide Reaches;
    var s6 := s.(size := s.size + 1).At(t, Producer(PCounted, elem));
    ReachesFurther(s0, s, t, s6);
    var s7 := s6.(headLock := Free).At(t, Producer(PHeadReleased, elem));
    ReachesFurther(s0, s6, t, s7);
    var s8 := s7.(sizeLock := Free).At(t, Producer(PSizeReleased, elem));
    ReachesFurther(s0, s7, t, s8);
    var s9 := s8.(pusher := Free).At(t, Producer(PSignal, elem));
    ReachesFurther(s0, s8, t, s9);
    ReachesFurther(s0, s9, t, s9.At(t, Producer(PIdle, elem)));
    assert s9.At(t, Producer(PIdle, elem))
        == s.(size := s.size + 1, headLock := Free, sizeLock := Free, pusher := Free).At(t, Producer(PIdle, elem));
  }

  /** A consumer at thread t takes out one task while nobody else moves. */
  function Taken(s: Shared, t: nat): Shared
    requires t < |s.threads| && 0 <= s.tail < |s.buffer|
  {
    s.(tail := if s.tail != 0 then s.tail - 1 else s.tail, dequeued := s.dequeued + [s.buffer[s.tail]],
       size := s.size - 1).At(t, Consumer(CIdle))
  }

  lemma TakenReaches(s: Shared, t: nat, s0: Shared)
    requires Reaches(s0, s) && Quiet(s) && t < |s.threads| && s.threads[t] == Consumer(CIdle)
    requires s.size != 0 && 0 <= s.tail < |s.buffer|
    ensures Reaches(s0, Taken(s, t)) && Quiet(Taken(s, t))
  {
    hide Reaches;
    var s1 := s.(popper := HeldBy(t)).At(t, Consumer(CGuard));
    ReachesFurther(s0, s, t, s1);
    var s2 := s1.At(t, Consumer(CPassed));
    ReachesFurther(s0, s1, t, s2);
    var s3 := s2.(sizeLock := HeldBy(t)).At(t, Consumer(CSizeLocked));
    ReachesFurther(s0, s2, t, s3);
    var s4 := s3.(tailLock := HeldBy(t)).At(t, Consumer(CTailLocked));
    ReachesFurther(s0, s3, t, s4);
    var s5 := s4.(tail := if s4.tail != 0 then s4.tail - 1 else s4.tail,
                  dequeued := s4.dequeued + [s4.buffer[s4.tail]]).At(t, Consumer(CRemoved));
    ReachesFurther(s0, s4, t, s5);
    TakenEnds(s5, t, s0);
    assert Taken(s, t) == s5.(size := s5.size - 1, tailLock := Free, sizeLock := Free, popper := Free)
                            .At(t, Consumer(CIdle));
  }

  lemma TakenEnds(s: Shared, t: nat, s0: Shared)
    requires Reaches(s0, s) && t < |s.threads| && s.threads[t] == Consumer(CRemoved)
    ensures Reaches(s0, s.(size := s.size - 1, tailLock := Free, sizeLock := Free, popper := Free)
                         .At(t, Consumer(CIdle)))
  {
    hide Reaches;
    var s6 := s.(size := s.size - 1).At(t, Consumer(CCounted));
    ReachesFurther(s0, s, t, s6);
    var s7 := s6.(tailLock := Free).At(t, Consumer(CTailReleased));
    ReachesFurther(s0, s6, t, s7);
    var s8 := s7.(sizeLock := Free).At(t, Consumer(CSizeReleased));
    ReachesFurther(s0, s7, t, s8);
    var s9 := s8.(popper := Free).At(t, Consumer(CSignal));
    ReachesFurther(s0, s8, t, s9);
    ReachesFurther(s0, s9, t, s9.At(t, Consumer(CIdle)));
    assert s9.At(t, Consumer(CIdle))
        == s.(size := s.size - 1, tailLock := Free, sizeLock := Free, popper := Free).At(t, Consumer(CIdle));
  }

  /**
   * A producer alone puts in tasks one after another, as long as there is room: up to the capacity, none
   * refused and with nothing taken out.
   */
  lemma {:induction false} Fills(s: Shared, t: nat, tasks: seq<Task>) returns (s': Shared)
    requires Start(s) && t < |s.threads| && s.threads[t].Producer? && |tasks| <= |s.buffer|
    ensures Reaches(s, s') && Quiet(s') && s'.size == |tasks| && s'.tail == (if tasks == [] then 0 else |tasks| - 1)
    ensures s'.enqueued == tasks && s'.dequeued == [] && |s'.buffer| == |s.buffer|
    ensures |s'.threads| == |s.threads| && s'.threads[t].Producer? && s'.threads[t].p.PIdle?
    ensures forall u :: 0 <= u < |s.threads| && u != t ==> s'.threads[u] == s.threads[u]
    decreases |tasks|
  {
    hide Reaches, Shifted;
    if tasks == [] {
      ReachesItself(s);
      s' := s;
    } else {
      var n := |tasks| - 1;
      var before := Fills(s, t, tasks[..n]);
      PutReaches(before, t, tasks[n], s);
      s' := Put(before, t, tasks[n]);
      assert tasks[..n] + [tasks[n]] == tasks;
    }
  }

  /** A consumer alone then takes them all out again. */
  lemma {:induction false} Drains(s0: Shared, s: Shared, t: nat) returns (s': Shared)
    requires Reaches(s0, s) && Quiet(s) && t < |s.threads| && s.threads[t] == Consumer(CIdle)
    requires 0 <= s.size <= |s.buffer| && s.tail == (if s.size == 0 then 0 else s.size - 1)
    ensures Reaches(s0, s') && s'.size == 0 && s'.enqueued == s.enqueued && |s'.dequeued| == |s.dequeued| + s.size
    decreases s.size
  {
    hide Reaches;
    if s.size == 0 {
      s' := s;
    } else {
      TakenReaches(s, t, s0);
      s' := Drains(s0, Taken(s, t), t);
    }
  }

  /**
   * For every capacity and every tasks that fit, there is a run in which a producer alone has put them all in
   * with nothing taken out, and a longer one in which a consumer has then taken out exactly these.
   */
  lemma FillsAndDrains(s: Shared, t: nat, u: nat, tasks: seq<Task>)
    requires Start(s) && t < |s.threads| && s.threads[t].Producer? && |tasks| <= |s.buffer|
    requires u < |s.threads| && s.threads[u].Consumer?
    ensures exists ss: seq<Shared>, ts: seq<nat> ::
              Run(ss, ts) && ss[0] == s && ss[|ss| - 1].enqueued == tasks && ss[|ss| - 1].dequeued == []
    ensures exists ss: seq<Shared>, ts: seq<nat> ::
              Run(ss, ts) && ss[0] == s && ss[|ss| - 1].dequeued == ss[|ss| - 1].enqueued == tasks
  {
    hide Reaches, Run;
    var full := Fills(s, t, tasks);
    var ss, ts := ReachedByRun(s, full);
    var empty := Drains(s, full, u);
    var us, vs := ReachedByRun(s, empty);
    RunHasStates(us, vs);
    QueueSafety(us, vs, |us| - 1);
    assert empty.dequeued == empty.enqueued;
  }

  lemma RunHasStates(ss: seq<Shared>, ts: seq<nat>)
    requires Run(ss, ts)
    ensures |ss| > 0
  {
  }
}
