/**
 Who gets the processor, and when.  The run queue is served strictly in order, one thread a dispatch,
 so a ready thread knows exactly how many dispatches it has to wait; a sleeping thread knows exactly
 how many ticks; and the idle thread only runs when there was nothing else to dispatch.
 */
module Fairness {
  import opened Words
  import opened KernelModel
  import opened Invariants
  import opened Isolation
  import opened Conservation

  /** The event makes the scheduler take the next thread from the run queue. */
  predicate IsDispatch(s: State, e: Event) {
    match e
    case Irq(_, _, tick) => tick
    case Svc(user) =>
      || user.regs.r0 == SYS_EXIT || user.regs.r0 >= NUM_SYSCALLS || user.regs.r0 == SYS_SLEEP
      || (user.regs.r0 == SYS_GETC && s.ring == [])
    case Kill(_, _) => true
  }

  predicate IsTick(e: Event) {
    e.Irq? && e.tick
  }

  ghost function Dispatches(s: State, es: seq<Event>): nat
    requires Shaped(s) && ValidRun(s, es)
    decreases |es|
  {
    if es == [] then 0
    else (if IsDispatch(s, es[0]) then 1 else 0) + Dispatches(Step(s, es[0]), es[1..])
  }

  function Ticks(es: seq<Event>): nat {
    if es == [] then 0 else (if IsTick(es[0]) then 1 else 0) + Ticks(es[1..])
  }

  // ---------------------------------------------------------------- one event and the run queue

  lemma {:induction false} ReceiveExtendsRun(s: State, bytes: seq<Byte>)
    requires Shaped(s)
    ensures
      var r := Receive(s, bytes);
      && s.run <= r.run && r.running == s.running && r.started == s.started
      && r.sleep == s.sleep && |r.threads| == |s.threads|
      && (forall i :: 0 <= i <= IDLE ==> r.threads[i].sleepCounter == s.threads[i].sleepCounter)
    decreases |bytes|
  {
    if bytes != [] {
      ReceiveExtendsRun(ReceiveByte(s, bytes[0]), bytes[1..]);
    }
  }

  /** `q` was dispatched from and became the run queue of `r`. */
  predicate ServedHead(q: seq<nat>, r: State) {
    && (q != [] ==> r.running == q[0] && q[1..] <= r.run)
    && (r.running == IDLE ==> r.run == [])
  }

  lemma ServedHeadOfPrefix(q: seq<nat>, q': seq<nat>, r: State)
    requires q <= q' && ServedHead(q', r)
    ensures ServedHead(q, r)
  {
  }

  lemma DispatchServesHead(s: State)
    requires Shaped(s)
    ensures ServedHead(s.run, Dispatch(s))
  {
  }

  lemma TickServesHead(s: State)
    requires Shaped(s) && s.started
    ensures ServedHead(s.run, Tick(s))
  {
    var u := UpdateSleepers(s);
    PreemptServesHead(u);
    ServedHeadOfPrefix(s.run, u.run, Preempt(u));
  }

  lemma PreemptServesHead(s: State)
    requires Shaped(s)
    ensures ServedHead(s.run, Preempt(s))
  {
  }

  lemma NonIrqServesHead(s: State, e: Event)
    requires Inv(s) && Enabled(s, e) && !e.Irq?
    ensures
      var r := Step(s, e);
      if IsDispatch(s, e) then ServedHead(s.run, r) else s.run <= r.run && r.running == s.running
  {
    if GivesUp(s, e) {
      GivingUpDispatches(s, e);
      DispatchServesHead(Departed(s, e));
    }
  }

  /** A dispatch runs the head of the queue and keeps the order of the rest; nothing else overtakes. */
  lemma StepServesHead(s: State, e: Event)
    requires Inv(s) && Enabled(s, e)
    ensures
      var r := Step(s, e);
      if IsDispatch(s, e) then ServedHead(s.run, r) else s.run <= r.run && r.running == s.running
  {
    var s0 := s.(cpu := e.user);
    match e
    case Irq(_, received, tick) =>
      ReceiveExtendsRun(s0, received);
      if tick {
        var s1 := Receive(s0, received);
        TickServesHead(s1);
        ServedHeadOfPrefix(s.run, s1.run, Tick(s1));
      }
    case Svc(_) =>
      NonIrqServesHead(s, e);
    case Kill(_, _) =>
      NonIrqServesHead(s, e);
  }

  // ---------------------------------------------------------------- starvation freedom

  lemma StepMovesUp(s: State, e: Event, k: nat)
    requires Inv(s) && Enabled(s, e) && k < |s.run|
    ensures
      var r := Step(s, e);
      if !IsDispatch(s, e) then k < |r.run| && r.run[k] == s.run[k]
      else if k == 0 then r.running == s.run[k]
      else k - 1 < |r.run| && r.run[k - 1] == s.run[k]
  {
    StepServesHead(s, e);
    if IsDispatch(s, e) && k > 0 {
      assert s.run[1..][k - 1] == s.run[k];
    }
  }

  /**
   The thread at index i + d of the run queue is at index i after d dispatches, whatever causes them
   and whatever else happens, and is not running.
   */
  lemma {:induction false} MovesUp(s: State, es: seq<Event>, i: nat, k: nat)
    requires Inv(s) && ValidRun(s, es) && k == i + Dispatches(s, es) < |s.run|
    ensures i < |Run(s, es).run| && Run(s, es).run[i] == s.run[k] && Run(s, es).running != s.run[k]
    decreases |es|
  {
    if es == [] {
      assert s.threads[s.run[i]].status == Ready;
    } else {
      StepKeepsInv(s, es[0]);
      StepMovesUp(s, es[0], k);
      MovesUp(Step(s, es[0]), es[1..], i, if IsDispatch(s, es[0]) then k - 1 else k);
    }
  }

  /**
   Starvation freedom with an exact bound: the thread at index k of the run queue is running after
   the (k+1)-th dispatch, and (`MovesUp`) not before.
   */
  lemma ServedAtDispatch(s: State, es: seq<Event>, last: Event, k: nat)
    requires Inv(s) && ValidRun(s, es) && k < |s.run|
    requires Dispatches(s, es) == k
    requires Enabled(Run(s, es), last) && IsDispatch(Run(s, es), last)
    ensures Step(Run(s, es), last).running == s.run[k]
  {
    RunKeepsInv(s, es);
    MovesUp(s, es, 0, k);
    StepServesHead(Run(s, es), last);
  }

  /** Distinct numbers below n are at most n many. */
  lemma {:induction false} Pigeonhole(q: seq<nat>, n: nat)
    requires NoDup(q) && forall k :: 0 <= k < |q| ==> q[k] < n
    ensures |q| <= n
    decreases n
  {
    if q != [] {
      assert q[0] < n;
      if j: nat :| j < |q| && q[j] == n - 1 {
        Pigeonhole(q[..j] + q[j + 1..], n - 1);
      } else {
        Pigeonhole(q, n - 1);
      }
    }
  }

  /** At most 32 threads are ready, and only 31 if a table thread is running. */
  lemma RunQueueBound(s: State)
    requires Inv(s)
    ensures |s.run| <= if s.running == 32 then 32 else 31
  {
    if s.running == IDLE {
      Pigeonhole(s.run, NUM_THREADS);
    } else {
      Pigeonhole(s.run + [s.running], NUM_THREADS);
    }
  }

  // ---------------------------------------------------------------- sleep time

  lemma ReceiveKeepsSleepers(s: State, bytes: seq<Byte>)
    requires Shaped(s)
    ensures Receive(s, bytes).sleep == s.sleep
    ensures forall i :: 0 <= i <= IDLE ==> Receive(s, bytes).threads[i].sleepCounter == s.threads[i].sleepCounter
  {
    ReceiveExtendsRun(s, bytes);
  }

  /** A tick wakes the sleeper whose counter is zero and takes one from the counter of any other. */
  lemma TickAndSleeper(s: State, t: nat)
    requires Inv(s) && t in s.sleep
    ensures
      var c, r := s.threads[t].sleepCounter, Tick(s);
      if c == 0 then t !in r.sleep && (r.running == t || t in r.run)
      else t in r.sleep && r.threads[t].sleepCounter == c - 1
  {
    var c, u := s.threads[t].sleepCounter, UpdateSleepers(s);
    SleeperTocked(s, t);
    PreemptKeepsSleepers(u);
    if c == 0 {
      PreemptKeepsReady(u, t);
    }
  }

  lemma SleeperTocked(s: State, t: nat)
    requires Shaped(s) && t in s.sleep
    ensures
      var c, u := s.threads[t].sleepCounter, UpdateSleepers(s);
      if c == 0 then t in u.run && t !in u.sleep
      else t in u.sleep && u.threads[t].sleepCounter == c - 1
  {
    SelectMembers(s.threads, s.sleep, true, t);
    SelectMembers(s.threads, s.sleep, false, t);
    TockedThreads(s);
  }

  lemma PreemptKeepsSleepers(s: State)
    requires Shaped(s)
    ensures Preempt(s).sleep == s.sleep
    ensures forall i :: 0 <= i <= IDLE ==> Preempt(s).threads[i].sleepCounter == s.threads[i].sleepCounter
  {
  }

  lemma PreemptKeepsReady(s: State, t: nat)
    requires Shaped(s) && t in s.run
    ensures Preempt(s).running == t || t in Preempt(s).run
  {
    var q := Requeue(s);
    assert t in q.run;
    assert q.run == [q.run[0]] + q.run[1..];
  }

  lemma StepAndSleeper(s: State, e: Event, t: nat)
    requires Inv(s) && Enabled(s, e) && t in s.sleep
    ensures
      var c, r := s.threads[t].sleepCounter, Step(s, e);
      if !IsTick(e) then t in r.sleep && r.threads[t].sleepCounter == c
      else if c == 0 then t !in r.sleep && (r.running == t || t in r.run)
      else t in r.sleep && r.threads[t].sleepCounter == c - 1
  {
    var s0 := s.(cpu := e.user);
    match e
    case Irq(_, received, tick) =>
      ReceiveKeepsSleepers(s0, received);
      ReceiveKeepsInv(s0, received);
      if tick {
        TickAndSleeper(Receive(s0, received), t);
      }
    case Svc(_) =>
      NonTickKeepsSleeper(s, e, t);
    case Kill(_, _) =>
      NonTickKeepsSleeper(s, e, t);
  }

  lemma DispatchKeepsSleeper(s: State, t: nat)
    requires Shaped(s) && QueueOf(s.run, s.threads, Ready) && t < IDLE && s.threads[t].status == Sleeping
    ensures Dispatch(s).threads[t] == s.threads[t] && Dispatch(s).sleep == s.sleep
  {
  }

  lemma NonTickKeepsSleeper(s: State, e: Event, t: nat)
    requires Inv(s) && Enabled(s, e) && t in s.sleep && !e.Irq?
    ensures t in Step(s, e).sleep && Step(s, e).threads[t].sleepCounter == s.threads[t].sleepCounter
  {
    if GivesUp(s, e) {
      GivingUpDispatches(s, e);
      DepartedReady(s, e);
      DispatchKeepsSleeper(Departed(s, e), t);
    }
  }

  /**
   Exact sleep time.  A sleeping thread stays in the sleep queue, away from the run queue and from
   the processor, for as many ticks as its counter says, no matter what else happens.
   */
  lemma {:induction false} StaysAsleep(s: State, es: seq<Event>, t: nat)
    requires Inv(s) && ValidRun(s, es) && t in s.sleep && Ticks(es) <= s.threads[t].sleepCounter
    ensures
      var r := Run(s, es);
      && t in r.sleep && r.threads[t].sleepCounter == s.threads[t].sleepCounter - Ticks(es)
      && t !in r.run && r.running != t
    decreases |es|
  {
    if es == [] {
      assert s.threads[t].status == Sleeping;
    } else {
      StepKeepsInv(s, es[0]);
      StepAndSleeper(s, es[0], t);
      StaysAsleep(Step(s, es[0]), es[1..], t);
    }
  }

  /** The sleep system call with argument c puts the caller to sleep with exactly that counter. */
  lemma SleepCall(s: State, e: Event)
    requires Inv(s) && Enabled(s, e) && IsSyscall(e, SYS_SLEEP)
    ensures s.running in Step(s, e).sleep && Step(s, e).threads[s.running].sleepCounter == e.user.regs.r1
  {
    var r := Step(s, e);
    assert r.sleep == s.sleep + [s.running];
    assert r.sleep[|s.sleep|] == s.running;
    assert s.run != [] ==> s.threads[s.run[0]].status == Ready;
  }

  /**
   A thread that sleeps with argument c becomes ready at exactly the (c+1)-th tick after the call:
   before that it sleeps (`StaysAsleep`), at that tick it leaves the sleep queue for the run queue
   or, if it is first there, for the processor.
   */
  lemma SleepsExactly(s: State, e: Event, es: seq<Event>, last: Event)
    requires Inv(s) && Enabled(s, e) && IsSyscall(e, 4)
    requires ValidRun(Step(s, e), es) && Enabled(Run(Step(s, e), es), last)
    requires Ticks(es) == e.user.regs.r1 && IsTick(last)
    ensures
      var t, asleep, awake := s.running, Run(Step(s, e), es), Step(Run(Step(s, e), es), last);
      && t in asleep.sleep && t !in asleep.run && asleep.running != t
      && t !in awake.sleep && (awake.running == t || t in awake.run)
  {
    var s1 := Step(s, e);
    StepKeepsInv(s, e);
    SleepCall(s, e);
    StaysAsleep(s1, es, s.running);
    RunKeepsInv(s1, es);
    StepAndSleeper(Run(s1, es), last, s.running);
  }

  // ---------------------------------------------------------------- sleep time and round robin combined

  lemma PrefixOfRun(s: State, es: seq<Event>, j: nat)
    requires Shaped(s) && es != [] && ValidRun(s, es) && j < |es|
    requires ValidRun(Step(s, es[0]), es[1..][..j])
    ensures ValidRun(s, es[..j + 1]) && Run(s, es[..j + 1]) == Run(Step(s, es[0]), es[1..][..j])
  {
    PrefixTail(es, j);
  }

  lemma PrefixTail(es: seq<Event>, j: nat)
    requires j < |es|
    ensures es[..j + 1][0] == es[0] && es[..j + 1][1..] == es[1..][..j]
  {
  }

  /** With more than k further ticks, the thread at index k gets the processor. */
  lemma {:induction false} TicksServe(s: State, es: seq<Event>, k: nat) returns (j: nat)
    requires Inv(s) && ValidRun(s, es) && k < |s.run| && k < Ticks(es)
    ensures j <= |es| && ValidRun(s, es[..j]) && Run(s, es[..j]).running == s.run[k]
    decreases |es|
  {
    var s1 := Step(s, es[0]);
    StepKeepsInv(s, es[0]);
    StepMovesUp(s, es[0], k);
    j := 0;
    if s1.running != s.run[k] {
      j := TicksServe(s1, es[1..], if IsDispatch(s, es[0]) then k - 1 else k);
    }
    PrefixOfRun(s, es, j);
    j := j + 1;
  }

  /** A sleeping thread gets the processor within 32 ticks after its counter has run out. */
  lemma {:induction false} SleeperServed(s: State, es: seq<Event>, t: nat) returns (j: nat)
    requires Inv(s) && ValidRun(s, es) && t in s.sleep
    requires Ticks(es) >= s.threads[t].sleepCounter + NUM_THREADS
    ensures j <= |es| && ValidRun(s, es[..j]) && Run(s, es[..j]).running == t
    decreases |es|
  {
    var s1 := Step(s, es[0]);
    StepKeepsInv(s, es[0]);
    StepAndSleeper(s, es[0], t);
    if t in s1.sleep {
      j := SleeperServed(s1, es[1..], t);
    } else {
      AfterTickBound(s, es[0]);
      j := ReadyServed(s1, es[1..], t);
    }
    PrefixOfRun(s, es, j);
    j := j + 1;
  }

  lemma ReadyServed(s: State, es: seq<Event>, t: nat) returns (j: nat)
    requires Inv(s) && ValidRun(s, es) && (s.running == t || t in s.run)
    requires |s.run| < NUM_THREADS <= Ticks(es) + 1
    ensures j <= |es| && ValidRun(s, es[..j]) && Run(s, es[..j]).running == t
  {
    if s.running == t {
      j := 0;
    } else {
      var k :| 0 <= k < |s.run| && s.run[k] == t;
      j := TicksServe(s, es, k);
    }
  }

  /** Right after a tick at most 31 threads are queued: if any is, one of the 32 is running. */
  lemma AfterTickBound(s: State, e: Event)
    requires Inv(s) && Enabled(s, e) && IsTick(e)
    ensures |Step(s, e).run| <= NUM_THREADS - 1
  {
    StepKeepsInv(s, e);
    StepServesHead(s, e);
    RunQueueBound(Step(s, e));
  }

  /** A thread that sleeps with argument c is running at some point no later than the (c+32)-th tick. */
  lemma SleepCallServed(s: State, e: Event, es: seq<Event>) returns (j: nat)
    requires Inv(s) && Enabled(s, e) && IsSyscall(e, 4) && ValidRun(Step(s, e), es)
    requires Ticks(es) >= e.user.regs.r1 + 32
    ensures j <= |es| && ValidRun(Step(s, e), es[..j]) && Run(Step(s, e), es[..j]).running == s.running
  {
    StepKeepsInv(s, e);
    SleepCall(s, e);
    j := SleeperServed(Step(s, e), es, s.running);
  }

  // ---------------------------------------------------------------- work conservation

  lemma {:induction false} ReceiveQueuesWaiters(s: State, bytes: seq<Byte>)
    requires Shaped(s)
    ensures
      var r, n := Receive(s, bytes), Min(|bytes|, |s.wait|);
      r.run == s.run + s.wait[..n] && r.wait == s.wait[n..]
    decreases |bytes|
  {
    if bytes == [] || s.wait == [] {
      TakeNone(s.run, s.wait);
      NobodyWaits(s, bytes);
    } else {
      var r := ReceiveByte(s, bytes[0]);
      ReceiveQueuesWaiters(r, bytes[1..]);
      TakeOne(s.run, s.wait, Min(|bytes| - 1, |r.wait|));
    }
  }

  lemma {:induction false} NobodyWaits(s: State, bytes: seq<Byte>)
    requires Shaped(s) && (bytes == [] || s.wait == [])
    ensures Receive(s, bytes).run == s.run && Receive(s, bytes).wait == s.wait
    decreases |bytes|
  {
    if bytes != [] {
      NobodyWaits(ReceiveByte(s, bytes[0]), bytes[1..]);
    }
  }

  lemma TakeNone(run: seq<nat>, wait: seq<nat>)
    ensures run + wait[..0] == run && wait[0..] == wait
  {
  }

  lemma TakeOne(run: seq<nat>, wait: seq<nat>, n: nat)
    requires n < |wait|
    ensures (run + [wait[0]]) + wait[1..][..n] == run + wait[..n + 1] && wait[1..][n..] == wait[n + 1..]
  {
  }

  lemma IdleStep(s: State, e: Event)
    requires Inv(s) && Enabled(s, e) && s.running == IDLE && !IsDispatch(s, e)
    ensures
      var r := Step(s, e);
      && e.Irq? && !e.tick && r.running == IDLE
      && r.run + r.wait == s.run + s.wait
  {
    ReceiveQueuesWaiters(s.(cpu := e.user), e.received);
    StepServesHead(s, e);
    MovedAcross(s.run, s.wait, Min(|e.received|, |s.wait|));
  }

  lemma MovedAcross(run: seq<nat>, wait: seq<nat>, n: nat)
    requires n <= |wait|
    ensures (run + wait[..n]) + wait[n..] == run + wait
  {
  }

  /** While the idle thread runs undisturbed, threads only move from the wait queue to the run queue. */
  lemma {:induction false} IdleRun(s: State, es: seq<Event>)
    requires Inv(s) && ValidRun(s, es) && s.running == IDLE && Dispatches(s, es) == 0
    ensures Run(s, es).run + Run(s, es).wait == s.run + s.wait
    decreases |es|
  {
    if es != [] {
      StepKeepsInv(s, es[0]);
      IdleStep(s, es[0]);
      IdleRun(Step(s, es[0]), es[1..]);
    }
  }

  lemma {:induction false} IdleEvents(s: State, es: seq<Event>)
    requires Inv(s) && ValidRun(s, es) && s.running == IDLE && Dispatches(s, es) == 0
    ensures forall e :: e in es ==> e.Irq? && !e.tick
    decreases |es|
  {
    if es != [] {
      StepKeepsInv(s, es[0]);
      IdleStep(s, es[0]);
      IdleEvents(Step(s, es[0]), es[1..]);
    }
  }

  /**
   Work conservation after the dispatch `e`, if no other follows.  If the idle thread is running at the
   end, then it was dispatched by `e` because the run queue was empty, no event but serial interrupts
   without a tick has occurred since, and the run queue now consists of threads that were waiting for
   a byte at `e`, in the order of their waiting.
   */
  lemma WorkConservation(s: State, e: Event, es: seq<Event>)
    requires Inv(s) && Enabled(s, e) && IsDispatch(s, e)
    requires ValidRun(Step(s, e), es) && Dispatches(Step(s, e), es) == 0
    requires Run(Step(s, e), es).running == IDLE
    ensures
      var m, r := Step(s, e), Run(Step(s, e), es);
      && m.running == IDLE && m.run == []
      && r.run + r.wait == m.wait
    ensures forall x :: x in es ==> x.Irq? && !x.tick
  {
    var m := Step(s, e);
    StepKeepsInv(s, e);
    StepServesHead(s, e);
    UndispatchedRunKeepsRunning(m, es);
    IdleRun(m, es);
    IdleEvents(m, es);
  }

  lemma {:induction false} UndispatchedRunKeepsRunning(s: State, es: seq<Event>)
    requires Inv(s) && ValidRun(s, es) && Dispatches(s, es) == 0
    ensures Run(s, es).running == s.running
    decreases |es|
  {
    if es != [] {
      StepKeepsInv(s, es[0]);
      StepServesHead(s, es[0]);
      UndispatchedRunKeepsRunning(Step(s, es[0]), es[1..]);
    }
  }

  /** A run that contains a dispatch splits at the last one, `es[i]`. */
  lemma {:induction false} LastDispatch(s: State, es: seq<Event>) returns (i: nat)
    requires Shaped(s) && ValidRun(s, es) && Dispatches(s, es) > 0
    ensures i < |es| && ValidRun(s, es[..i])
    ensures
      var m := Run(s, es[..i]);
      && Enabled(m, es[i]) && IsDispatch(m, es[i])
      && ValidRun(Step(m, es[i]), es[i + 1..]) && Dispatches(Step(m, es[i]), es[i + 1..]) == 0
      && Run(s, es) == Run(Step(m, es[i]), es[i + 1..])
    decreases |es|
  {
    var s1, rest := Step(s, es[0]), es[1..];
    if Dispatches(s1, rest) > 0 {
      var j := LastDispatch(s1, rest);
      PrefixOfRun(s, es, j);
      assert rest[j + 1..] == es[j + 2..];
      i := j + 1;
    } else {
      assert es[..0] == [];
      i := 0;
    }
  }

  /**
   `e` was a dispatch that found the run queue empty, since then only the serial interrupts `es` came,
   and the run queue of `r` is the front part of what was the wait queue: each of its threads was put
   there by a notification.
   */
  ghost predicate IdleAfter(m: State, e: Event, es: seq<Event>, r: State) {
    && Shaped(m) && Enabled(m, e) && IsDispatch(m, e)
    && ValidRun(Step(m, e), es) && r == Run(Step(m, e), es)
    && Step(m, e).running == IDLE && Step(m, e).run == []
    && r.run + r.wait == Step(m, e).wait
    && forall x :: x in es ==> x.Irq? && !x.tick
  }

  /** For a run that ends in the idle thread but does not start there, the last dispatch is such a one. */
  lemma IdleSince(s: State, es: seq<Event>) returns (i: nat)
    requires Inv(s) && ValidRun(s, es) && s.running != IDLE && Run(s, es).running == IDLE
    ensures i < |es| && ValidRun(s, es[..i]) && IdleAfter(Run(s, es[..i]), es[i], es[i + 1..], Run(s, es))
  {
    if Dispatches(s, es) == 0 {
      UndispatchedRunKeepsRunning(s, es);
      assert false;
    }
    i := LastDispatch(s, es);
    RunKeepsInv(s, es[..i]);
    WorkConservation(Run(s, es[..i]), es[i], es[i + 1..]);
  }

  lemma ReachableByRun(s0: State, es: seq<Event>)
    requires Booted(s0) && Shaped(s0) && ValidRun(s0, es)
    ensures Reachable(Run(s0, es))
  {
    assert Leads(s0, es, Run(s0, es));
  }

  /**
   Work conservation in every reachable state.  If the idle thread is running, then it was dispatched in
   some reachable state `m` because the run queue was empty, and whoever is ready now has been waiting
   for a byte since then.
   */
  lemma IdleBesideReady(s: State) returns (m: State, e: Event, es: seq<Event>)
    requires Reachable(s) && s.running == IDLE
    ensures Reachable(m) && IdleAfter(m, e, es, s)
  {
    var s0, run :| Booted(s0) && Leads(s0, run, s);
    BootedInv(s0);
    var i := IdleSince(s0, run);
    m, e, es := Run(s0, run[..i]), run[i], run[i + 1..];
    ReachableByRun(s0, run[..i]);
  }

  // ---------------------------------------------------------------- one interrupt in closed form

  lemma {:induction false} SelectIgnores(threads: seq<Thread>, threads': seq<Thread>, q: seq<nat>, expired: bool)
    requires |threads| == |threads'| && forall k :: 0 <= k < |q| ==> q[k] < |threads|
    requires forall i :: 0 <= i < |threads| ==> threads[i].sleepCounter == threads'[i].sleepCounter
    ensures Select(threads, q, expired) == Select(threads', q, expired)
  {
    if q != [] {
      SelectIgnores(threads, threads', q[..|q| - 1], expired);
    }
  }

  /**
   One timer interrupt with received bytes.  Before the dispatch the run queue is the old queue, then
   the waiters that got a byte, then the expired sleepers, then the interrupted thread; the head of
   that queue runs.  If the interrupted thread is itself the head, it simply continues.
   */
  lemma TimerInterrupt(s: State, e: Event)
    requires Inv(s) && Enabled(s, e) && IsTick(e)
    ensures
      var n := Min(|e.received|, |s.wait|);
      var last := if s.running == IDLE then [] else [s.running];
      var queue := s.run + s.wait[..n] + Select(s.threads, s.sleep, true) + last;
      var r := Step(s, e);
      && r.running == (if queue == [] then IDLE else queue[0])
      && r.run == (if queue == [] then [] else queue[1..])
      && r.sleep == Select(s.threads, s.sleep, false)
      && r.wait == s.wait[n..]
      && (r.running == s.running ==> r.cpu == e.user)
  {
    var s0 := s.(cpu := e.user);
    var s1 := Receive(s0, e.received);
    ReceiveQueuesWaiters(s0, e.received);
    ReceiveExtendsRun(s0, e.received);
    ReceiveKeepsInv(s0, e.received);
    ReceiveKeepsRunning(s0, e.received);
    SelectIgnores(s.threads, s1.threads, s.sleep, true);
    SelectIgnores(s.threads, s1.threads, s.sleep, false);
    PreemptInClosedForm(UpdateSleepers(s1));
  }

  lemma PreemptInClosedForm(s: State)
    requires Shaped(s)
    ensures
      var queue := s.run + (if s.running == IDLE then [] else [s.running]);
      var r := Preempt(s);
      && r.running == (if queue == [] then IDLE else queue[0])
      && r.run == (if queue == [] then [] else queue[1..])
      && r.sleep == s.sleep && r.wait == s.wait
      && (r.running == s.running ==> r.cpu == s.cpu)
  {
  }
}
