/**
 What a suspended thread finds when it runs again.  Whatever the other threads, the interrupts and
 the faults do in between, it resumes with the registers it was suspended with, except that a getc
 call returns in r0 the byte that belongs to it, and that bits 23 to 8 of the status register, which
 the switch does not write, are those of the thread that ran last.
 */
module Isolation {
  import opened Words
  import opened Machine
  import opened KernelModel
  import opened Invariants
  import opened UartFifo

  /**
   Thread `t` continues with `c` once it has the processor.  If it already has it, it got it in an
   exception taken with status `spsr`, whose middle bits were not replaced.
   */
  predicate Pending(s: State, t: nat, spsr: Psr, c: Context)
    requires Shaped(s) && t <= IDLE
  {
    if s.running == t then s.cpu == Restored(spsr, c) else s.threads[t].context == c
  }

  function WithR0(c: Context, value: U32): Context {
    c.(regs := c.regs.(r0 := value))
  }

  predicate Alive(s: State, t: nat)
    requires Shaped(s)
  {
    t <= IDLE && (t == IDLE || s.threads[t].status != Terminated)
  }

  /**
   From `s` to `r` the suspended thread `t` loses nothing, neither registers nor its entry function;
   it may have become the running thread.  The exception was taken with the status in `s.cpu`.
   */
  predicate Preserved(s: State, r: State, t: nat)
    requires Shaped(s) && Shaped(r)
  {
    && Alive(s, t) && t != s.running
    && Alive(r, t)
    && Pending(r, t, s.cpu.cpsr, s.threads[t].context)
    && r.threads[t].fn == s.threads[t].fn
    && (t < IDLE ==> (r.threads[t].status == Waiting <==> s.threads[t].status == Waiting))
  }

  // ---------------------------------------------------------------- single operations

  lemma DispatchPreserves(s: State, t: nat)
    requires Shaped(s) && Alive(s, t)
    requires QueueOf(s.run, s.threads, Ready)
    ensures
      var r := Dispatch(s);
      && Alive(r, t)
      && Pending(r, t, s.cpu.cpsr, s.threads[t].context)
      && r.threads[t].fn == s.threads[t].fn
      && (t < IDLE ==> (r.threads[t].status == Waiting <==> s.threads[t].status == Waiting))
  {
  }

  lemma VacatingPreserves(s: State, v: Thread, sleep: seq<nat>, wait: seq<nat>, t: nat)
    requires Inv(s) && Alive(s, t) && t != s.running && v.status != Running && v.status != Ready
    requires Shaped(s.(sleep := sleep, wait := wait))
    ensures Preserved(s, Dispatch(s.(threads := s.threads[s.running := v], sleep := sleep, wait := wait)), t)
  {
    QueueFrame(s.run, s.threads, Ready, s.running, v);
    DispatchPreserves(s.(threads := s.threads[s.running := v], sleep := sleep, wait := wait), t);
  }

  lemma CreatePreserves(s: State, fn: U32, argSize: U32, t: nat)
    requires Inv(s) && Alive(s, t) && t != s.running
    ensures Preserved(s, Create(s, fn, argSize), t)
  {
    assert t < IDLE ==> t != FreeSlot(s.threads, 0);
  }

  lemma GetcPreserves(s: State, t: nat)
    requires Inv(s) && s.running < IDLE && Alive(s, t) && t != s.running
    ensures Preserved(s, Getc(s), t)
  {
    if s.ring == [] {
      var v := s.threads[s.running].(status := Waiting, context := s.cpu);
      VacatingPreserves(s, v, s.sleep, s.wait + [s.running], t);
    }
  }

  lemma SleepPreserves(s: State, cycles: U32, t: nat)
    requires Inv(s) && s.running < IDLE && Alive(s, t) && t != s.running
    ensures Preserved(s, Sleep(s, cycles), t)
  {
    var v := s.threads[s.running].(status := Sleeping, sleepCounter := cycles, context := s.cpu);
    VacatingPreserves(s, v, s.sleep + [s.running], s.wait, t);
  }

  lemma TerminatePreserves(s: State, t: nat)
    requires Inv(s) && Alive(s, t) && t != s.running
    ensures Preserved(s, Terminate(s), t)
  {
    VacatingPreserves(s, s.threads[s.running].(status := Terminated), s.sleep, s.wait, t);
  }

  lemma SyscallPreserves(s: State, t: nat)
    requires Inv(s) && s.running < IDLE && Alive(s, t) && t != s.running
    ensures Preserved(s, Syscall(s), t)
  {
    var u := s.cpu.regs;
    if u.r0 >= NUM_SYSCALLS || u.r0 == SYS_EXIT {
      TerminatePreserves(s, t);
    } else if u.r0 == SYS_CREATE_THREAD {
      CreatePreserves(s, u.r1, u.r3, t);
    } else if u.r0 == SYS_GETC {
      GetcPreserves(s, t);
    } else if u.r0 == SYS_SLEEP {
      SleepPreserves(s, u.r1, t);
    }
  }

  lemma TickPreserves(s: State, t: nat)
    requires Inv(s) && Alive(s, t) && t != s.running
    ensures Preserved(s, Tick(s), t)
  {
    UpdateSleepersPreserves(s, t);
    UpdateSleepersKeepsInv(s);
    PreemptPreserves(UpdateSleepers(s), t);
  }

  lemma UpdateSleepersPreserves(s: State, t: nat)
    requires Shaped(s) && Partitioned(s) && Alive(s, t)
    ensures
      var u := UpdateSleepers(s);
      && Alive(u, t)
      && u.threads[t].context == s.threads[t].context && u.threads[t].fn == s.threads[t].fn
      && (t < IDLE ==> (u.threads[t].status == Waiting <==> s.threads[t].status == Waiting))
  {
    OthersUntouchedByTick(s);
  }

  lemma PreemptPreserves(s: State, t: nat)
    requires Inv(s) && Alive(s, t) && t != s.running
    ensures Preserved(s, Preempt(s), t)
  {
    if NextThread(Requeue(s)) != s.running {
      SwitchSavesFirst(s);
      SwitchPreserves(s, t);
    } else if s.running < IDLE {
      ContinuesIffAlone(s);
    }
  }

  lemma SwitchPreserves(s: State, t: nat)
    requires Inv(s) && Alive(s, t) && t != s.running
    ensures Preserved(s, Dispatch(SaveCurrent(Requeue(s), Ready)), t)
  {
    var u := SaveCurrent(Requeue(s), Ready);
    PreemptedIsVacated(s);
    assert u.cpu == s.cpu && u.threads[t] == s.threads[t];
    DispatchPreserves(u, t);
  }

  lemma {:induction false} ReceivePreserves(s: State, bytes: seq<Byte>, t: nat)
    requires Inv(s) && Alive(s, t) && t != s.running && t !in s.wait
    ensures Preserved(s, Receive(s, bytes), t) && Receive(s, bytes).running == s.running
    decreases |bytes|
  {
    if bytes != [] {
      var r := ReceiveByte(s, bytes[0]);
      ReceiveByteKeepsInv(s, bytes[0]);
      assert t !in r.wait && r.threads[t] == s.threads[t];
      ReceivePreserves(r, bytes[1..], t);
    }
  }

  /** The k-th waiter receives the k-th accepted byte, if there is one, and nothing else changes for it. */
  lemma {:induction false} ReceiveHandsOver(s: State, bytes: seq<Byte>, k: nat)
    requires Inv(s) && k < |s.wait|
    ensures
      var t, a, r := s.wait[k], AcceptedBytes(s, bytes), Receive(s, bytes);
      && r.running == s.running != t
      && r.threads[t].context == (if k < |a| then WithR0(s.threads[t].context, a[k]) else s.threads[t].context)
      && r.threads[t].status == (if k < |a| then Ready else Waiting)
    decreases |bytes|
  {
    var t := s.wait[k];
    if bytes != [] {
      var r := ReceiveByte(s, bytes[0]);
      ReceiveByteKeepsInv(s, bytes[0]);
      if k == 0 {
        ReceiveHandsFirst(s, bytes);
      } else {
        assert r.wait[k - 1] == t && s.wait[0] != t;
        ReceiveHandsOver(r, bytes[1..], k - 1);
      }
    }
  }

  lemma ReceiveHandsFirst(s: State, bytes: seq<Byte>)
    requires Inv(s) && s.wait != [] && bytes != []
    ensures
      var t, r := s.wait[0], Receive(s, bytes);
      && r.running == s.running != t
      && r.threads[t].context == WithR0(s.threads[t].context, bytes[0])
      && r.threads[t].status == Ready
  {
    var t, r := s.wait[0], ReceiveByte(s, bytes[0]);
    ReceiveByteKeepsInv(s, bytes[0]);
    assert t !in r.wait;
    ReceivePreserves(r, bytes[1..], t);
    ReceiveKeepsReady(r, bytes[1..], t);
  }

  lemma {:induction false} ReceiveKeepsReady(s: State, bytes: seq<Byte>, t: nat)
    requires Inv(s) && t < IDLE && s.threads[t].status == Ready
    ensures Receive(s, bytes).threads[t].status == Ready
    decreases |bytes|
  {
    if bytes != [] {
      ReceiveByteKeepsInv(s, bytes[0]);
      ReceiveKeepsReady(ReceiveByte(s, bytes[0]), bytes[1..], t);
    }
  }

  // ---------------------------------------------------------------- single events

  /** A suspended thread that is not waiting for a byte. */
  lemma StepPreserves(s: State, e: Event, t: nat)
    requires Inv(s) && Enabled(s, e) && Alive(s, t) && t != s.running && t !in s.wait
    ensures Preserved(s.(cpu := e.user), Step(s, e), t)
    ensures t !in Step(s, e).wait
  {
    var s0 := s.(cpu := e.user);
    StepKeepsInv(s, e);
    assert t < IDLE ==> s.threads[t].status != Waiting;
    match e
    case Irq(_, received, tick) =>
      IrqPreserves(s0, received, tick, t);
    case Svc(_) =>
      NonIrqPreserves(s, e, t);
    case Kill(_, _) =>
      NonIrqPreserves(s, e, t);
  }

  lemma IrqPreserves(s: State, received: seq<Byte>, tick: bool, t: nat)
    requires Inv(s) && Alive(s, t) && t != s.running && t !in s.wait
    ensures Preserved(s, if tick then Tick(Receive(s, received)) else Receive(s, received), t)
  {
    var s1 := Receive(s, received);
    ReceivePreserves(s, received, t);
    ReceiveKeepsInv(s, received);
    ReceiveKeepsRunning(s, received);
    if tick {
      TickPreserves(s1, t);
      PreservedTwice(s, s1, Tick(s1), t);
    }
  }

  lemma PreservedTwice(s: State, s1: State, s2: State, t: nat)
    requires Shaped(s) && Shaped(s1) && Shaped(s2) && s1.cpu == s.cpu
    requires Preserved(s, s1, t) && Preserved(s1, s2, t)
    ensures Preserved(s, s2, t)
  {
  }

  /**
   From `s` to `r`, in an exception taken with status `spsr` in which the bytes `a` were accepted, the
   k-th waiter either gets the k-th byte in r0 or keeps waiting behind fewer others.
   */
  predicate Served(s: State, r: State, spsr: Psr, a: seq<Byte>, k: nat)
    requires Shaped(s) && Shaped(r) && k < |s.wait|
  {
    var t := s.wait[k];
    && Alive(r, t)
    && (if k < |a| then Pending(r, t, spsr, WithR0(s.threads[t].context, a[k])) && t !in r.wait
        else
          && r.running != t && r.threads[t].context == s.threads[t].context
          && k - |a| < |r.wait| && r.wait[k - |a|] == t)
  }

  /** The k-th waiting thread. */
  lemma StepHandsOver(s: State, e: Event, k: nat)
    requires Inv(s) && Enabled(s, e) && k < |s.wait|
    ensures Served(s, Step(s, e), e.user.cpsr, AcceptedBy(s, e), k)
  {
    StepKeepsInv(s, e);
    if e.Irq? {
      IrqHandsOver(s, e, k);
    } else {
      NonIrqHandsOver(s, e, k);
    }
  }

  lemma IrqHandsOver(s: State, e: Event, k: nat)
    requires Inv(s) && Enabled(s, e) && k < |s.wait| && e.Irq? && Inv(Step(s, e))
    ensures Served(s, Step(s, e), e.user.cpsr, AcceptedBy(s, e), k)
  {
    var s0 := s.(cpu := e.user);
    var s1, a := Receive(s0, e.received), AcceptedBy(s, e);
    ReceiveHandsOver(s0, e.received, k);
    ReceiveKeepsInv(s0, e.received);
    ReceiveKeepsRunning(s0, e.received);
    if k >= |a| {
      WaitIndex(s, e, k);
    }
    if e.tick {
      TickPreserves(s1, s.wait[k]);
    }
    ServedAfterReceive(s, s1, Step(s, e), a, k);
  }

  /** What the rest of the interrupt preserves is what the waiter received. */
  lemma ServedAfterReceive(s: State, s1: State, r: State, a: seq<Byte>, k: nat)
    requires Shaped(s) && Shaped(s1) && Inv(r) && k < |s.wait|
    requires Preserved(s1, r, s.wait[k])
    requires
      var t := s.wait[k];
      && s1.threads[t].context == (if k < |a| then WithR0(s.threads[t].context, a[k]) else s.threads[t].context)
      && s1.threads[t].status == (if k < |a| then Ready else Waiting)
    requires k >= |a| ==> k - |a| < |r.wait| && r.wait[k - |a|] == s.wait[k]
    ensures Served(s, r, s1.cpu.cpsr, a, k)
  {
  }

  lemma NonIrqHandsOver(s: State, e: Event, k: nat)
    requires Inv(s) && Enabled(s, e) && k < |s.wait| && !e.Irq? && Inv(Step(s, e))
    ensures Served(s, Step(s, e), e.user.cpsr, AcceptedBy(s, e), k)
  {
    WaitIndex(s, e, k);
    NonIrqPreserves(s, e, s.wait[k]);
    assert s.threads[s.wait[k]].status == Waiting;
    ServedAfterReceive(s, s.(cpu := e.user), Step(s, e), [], k);
  }

  lemma NonIrqPreserves(s: State, e: Event, t: nat)
    requires Inv(s) && Enabled(s, e) && Alive(s, t) && t != s.running && !e.Irq?
    ensures Preserved(s.(cpu := e.user), Step(s, e), t)
  {
    if e.Svc? {
      SyscallPreserves(s.(cpu := e.user), t);
    } else {
      TerminatePreserves(s.(cpu := e.user), t);
    }
  }

  /** A waiter that gets no byte moves up by the number of bytes accepted. */
  lemma WaitIndex(s: State, e: Event, k: nat)
    requires Inv(s) && Enabled(s, e) && k < |s.wait| && k >= |AcceptedBy(s, e)|
    ensures
      var i, r := k - |AcceptedBy(s, e)|, Step(s, e);
      i < |r.wait| && r.wait[i] == s.wait[k]
  {
    assert s.ring == [];
    StepFlow(s, e);
    FlowIndex(s.wait, AcceptedBy(s, e), RequestedBy(s, e), Step(s, e).ring, Step(s, e).wait, k);
  }

  /** The event ends its thread instead of suspending it. */
  predicate Ends(e: Event) {
    e.Kill? || (e.Svc? && (SyscallNumber(e) == SYS_EXIT || SyscallNumber(e) >= NUM_SYSCALLS))
  }

  /** After this system call or fault the thread cannot continue at once. */
  predicate GivesUp(s: State, e: Event) {
    Ends(e) || IsSyscall(e, SYS_SLEEP) || (IsSyscall(e, SYS_GETC) && s.ring == [])
  }

  /** The thread has given up the processor and no other has it yet. */
  function Departed(s: State, e: Event): (r: State)
    requires Shaped(s) && GivesUp(s, e) && (e.Svc? ==> s.running < IDLE)
    ensures Shaped(r) && r.run == s.run
  {
    var s0, t := s.(cpu := e.user), s.threads[s.running];
    if Ends(e) then SetThread(s0, s.running, t.(status := Terminated))
    else if IsSyscall(e, SYS_SLEEP) then
      var v := t.(status := Sleeping, sleepCounter := e.user.regs.r1, context := e.user);
      SetThread(s0, s.running, v).(sleep := s.sleep + [s.running])
    else
      var v := t.(status := Waiting, context := e.user);
      SetThread(s0, s.running, v).(wait := s.wait + [s.running])
  }

  lemma GivingUpDispatches(s: State, e: Event)
    requires Shaped(s) && Enabled(s, e) && GivesUp(s, e)
    ensures Step(s, e) == Dispatch(Departed(s, e))
  {
  }

  lemma DepartedReady(s: State, e: Event)
    requires Inv(s) && GivesUp(s, e) && (e.Svc? ==> s.running < IDLE)
    ensures QueueOf(s.run, Departed(s, e).threads, Ready)
  {
    QueueFrame(s.run, s.threads, Ready, s.running, Departed(s, e).threads[s.running]);
  }

  /** What the thread interrupted by `e` is going to continue with, and whether it waits for a byte. */
  predicate Suspends(s: State, e: Event, r: State)
    requires Shaped(s) && Shaped(r)
  {
    var t := s.running;
    && Alive(r, t)
    && (if !IsSyscall(e, SYS_GETC) then Pending(r, t, e.user.cpsr, e.user) && t !in r.wait
        else if s.ring != [] then r.running == t && r.cpu == WithR0(e.user, s.ring[0])
        else r.running != t && r.threads[t].context == e.user && r.wait == s.wait + [t])
  }

  lemma StepSuspends(s: State, e: Event)
    requires Inv(s) && Enabled(s, e) && !Ends(e)
    ensures Suspends(s, e, Step(s, e))
  {
    StepKeepsInv(s, e);
    if e.Irq? {
      IrqSuspends(s, e);
    } else if IsSyscall(e, SYS_GETC) {
      GetcSuspends(s, e);
    } else if IsSyscall(e, SYS_SLEEP) {
      SleepSuspends(s, e);
    } else {
      OtherSyscallSuspends(s, e);
    }
  }

  lemma IrqSuspends(s: State, e: Event)
    requires Inv(s) && Enabled(s, e) && e.Irq? && Inv(Step(s, e))
    ensures Suspends(s, e, Step(s, e))
  {
    var s0 := s.(cpu := e.user);
    ReceiveKeepsInv(s0, e.received);
    ReceiveKeepsRunning(s0, e.received);
    if e.tick {
      TickSuspends(Receive(s0, e.received));
    }
  }

  lemma GetcSuspends(s: State, e: Event)
    requires Inv(s) && Enabled(s, e) && Inv(Step(s, e)) && IsSyscall(e, SYS_GETC)
    ensures Suspends(s, e, Step(s, e))
  {
    assert s.run != [] ==> s.threads[s.run[0]].status == Ready;
  }

  lemma SleepSuspends(s: State, e: Event)
    requires Inv(s) && Enabled(s, e) && Inv(Step(s, e)) && IsSyscall(e, SYS_SLEEP)
    ensures Suspends(s, e, Step(s, e))
  {
    assert s.run != [] ==> s.threads[s.run[0]].status == Ready;
  }

  lemma OtherSyscallSuspends(s: State, e: Event)
    requires Inv(s) && Enabled(s, e) && Inv(Step(s, e)) && e.Svc? && !Ends(e)
    requires !IsSyscall(e, SYS_GETC) && !IsSyscall(e, SYS_SLEEP)
    ensures Suspends(s, e, Step(s, e))
  {
    assert s.threads[s.running].status == Running;
  }

  lemma {:induction false} ReceiveKeepsRunning(s: State, bytes: seq<Byte>)
    requires Inv(s)
    ensures Receive(s, bytes).running == s.running && Receive(s, bytes).cpu == s.cpu
    decreases |bytes|
  {
    if bytes != [] {
      ReceiveByteKeepsInv(s, bytes[0]);
      ReceiveKeepsRunning(ReceiveByte(s, bytes[0]), bytes[1..]);
    }
  }

  lemma TickSuspends(s: State)
    requires Inv(s)
    ensures
      var t, r := s.running, Tick(s);
      && Alive(r, t)
      && Pending(r, t, s.cpu.cpsr, s.cpu)
      && (t < IDLE ==> r.threads[t].status != Waiting)
  {
    UpdateSleepersKeepsInv(s);
    PreemptSuspends(UpdateSleepers(s));
  }

  lemma PreemptSuspends(s: State)
    requires Inv(s)
    ensures
      var t, r := s.running, Preempt(s);
      && Alive(r, t)
      && Pending(r, t, s.cpu.cpsr, s.cpu)
      && (t < IDLE ==> r.threads[t].status != Waiting)
  {
    if NextThread(Requeue(s)) != s.running {
      SwitchSavesFirst(s);
      SwitchSuspends(s);
    } else if s.running < IDLE {
      ContinuesIffAlone(s);
    }
  }

  lemma SwitchSuspends(s: State)
    requires Inv(s)
    ensures
      var t, r := s.running, Dispatch(SaveCurrent(Requeue(s), Ready));
      && Alive(r, t)
      && Pending(r, t, s.cpu.cpsr, s.cpu)
      && (t < IDLE ==> r.threads[t].status != Waiting)
  {
    PreemptedIsVacated(s);
    DispatchPreserves(SaveCurrent(Requeue(s), Ready), s.running);
  }

  // ---------------------------------------------------------------- whole runs

  /** Thread `t` does not run after any of the events but, possibly, the last. */
  ghost predicate AwayUntilLast(s: State, es: seq<Event>, t: nat)
    requires Shaped(s) && ValidRun(s, es)
    decreases |es|
  {
    |es| <= 1 || (Step(s, es[0]).running != t && AwayUntilLast(Step(s, es[0]), es[1..], t))
  }

  /** The status register of the thread that the last event interrupted. */
  function LastStatus(es: seq<Event>): Psr
    requires es != []
  {
    es[|es| - 1].user.cpsr
  }

  lemma SingleEvent(s: State, es: seq<Event>)
    requires Shaped(s) && |es| == 1 && ValidRun(s, es)
    ensures Run(s, es) == Step(s, es[0]) && Accepted(s, es) == AcceptedBy(s, es[0])
  {
    assert es[1..] == [];
  }

  lemma LaterEvents(s: State, es: seq<Event>, t: nat)
    requires Shaped(s) && |es| > 1 && ValidRun(s, es) && AwayUntilLast(s, es, t)
    ensures
      var s1, rest := Step(s, es[0]), es[1..];
      && ValidRun(s1, rest) && AwayUntilLast(s1, rest, t) && s1.running != t
      && Run(s, es) == Run(s1, rest) && LastStatus(rest) == LastStatus(es)
      && Accepted(s, es) == AcceptedBy(s, es[0]) + Accepted(s1, rest)
  {
  }

  /** In `r` thread `t` has, or is about to have, the context `c`, and its function is `fn`. */
  predicate Holds(r: State, t: nat, spsr: Psr, c: Context, fn: U32)
    requires Shaped(r)
  {
    Alive(r, t) && Pending(r, t, spsr, c) && r.threads[t].fn == fn
  }

  lemma {:induction false} RunPreserves(s: State, es: seq<Event>, t: nat)
    requires Inv(s) && es != [] && ValidRun(s, es) && Alive(s, t) && t != s.running && t !in s.wait
    requires AwayUntilLast(s, es, t)
    ensures Holds(Run(s, es), t, LastStatus(es), s.threads[t].context, s.threads[t].fn)
    decreases |es|
  {
    StepKeepsInv(s, es[0]);
    StepPreserves(s, es[0], t);
    if |es| == 1 {
      SingleEvent(s, es);
    } else {
      LaterEvents(s, es, t);
      RunPreserves(Step(s, es[0]), es[1..], t);
    }
  }

  /** After the run the thread that was the k-th waiter has the k-th byte accepted in r0, or is still away. */
  ghost predicate HandedOver(r: State, t: nat, c: Context, spsr: Psr, bytes: seq<Byte>, k: nat)
    requires Shaped(r)
  {
    && Alive(r, t)
    && (if k < |bytes| then Pending(r, t, spsr, WithR0(c, bytes[k])) else r.running != t)
  }

  lemma {:induction false} RunHandsOver(s: State, es: seq<Event>, k: nat)
    requires Inv(s) && es != [] && ValidRun(s, es) && k < |s.wait|
    requires AwayUntilLast(s, es, s.wait[k])
    ensures HandedOver(Run(s, es), s.wait[k], s.threads[s.wait[k]].context, LastStatus(es), Accepted(s, es), k)
    decreases |es|
  {
    var s1, rest, t, a := Step(s, es[0]), es[1..], s.wait[k], AcceptedBy(s, es[0]);
    StepKeepsInv(s, es[0]);
    StepHandsOver(s, es[0], k);
    if rest == [] {
      SingleEvent(s, es);
    } else {
      LaterEvents(s, es, t);
      if k >= |a| {
        RunHandsOver(s1, rest, k - |a|);
      } else {
        RunPreserves(s1, rest, t);
      }
      HandedOverLater(Run(s1, rest), t, s.threads[t].context, es, a, Accepted(s1, rest), k);
    }
  }

  /** The first event accepted `a`, the other ones `b`. */
  lemma HandedOverLater(
    r: State, t: nat, c: Context, es: seq<Event>, a: seq<Byte>, b: seq<Byte>, k: nat)
    requires Shaped(r) && es != [] && t <= IDLE
    requires k >= |a| ==> HandedOver(r, t, c, LastStatus(es), b, k - |a|)
    requires k < |a| ==> Alive(r, t) && Pending(r, t, LastStatus(es), WithR0(c, a[k]))
    ensures HandedOver(r, t, c, LastStatus(es), a + b, k)
  {
    BytesAt(a, b, k);
  }

  lemma BytesAt(a: seq<Byte>, b: seq<Byte>, k: nat)
    ensures k < |a| ==> (a + b)[k] == a[k]
    ensures k >= |a| ==> (k < |a + b| <==> k - |a| < |b|)
    ensures |a| <= k < |a + b| ==> (a + b)[k] == b[k - |a|]
  {
  }

  /**
   Register isolation.  The first event of `es` suspends or merely interrupts the running thread;
   when that thread first runs again, after any number of further events, its registers, stack
   pointer, link register, program counter and status register are those it had, except that r0
   holds the byte if the event was a getc, and that bits 23 to 8 of the status register are those of
   the thread interrupted last.  So everything is as it was exactly if these bits agree.
   */
  lemma Resumption(s: State, es: seq<Event>)
    requires Inv(s) && es != [] && ValidRun(s, es) && !Ends(es[0])
    requires AwayUntilLast(s, es, s.running) && Run(s, es).running == s.running
    ensures
      var r, e, bytes := Run(s, es), es[0], s.ring + Accepted(s, es);
      && (IsSyscall(e, 2) ==> |s.wait| < |bytes|)
      && var c := if IsSyscall(e, 2) then e.user.(regs := e.user.regs.(r0 := bytes[|s.wait|])) else e.user;
         && r.cpu == Restored(LastStatus(es), c)
         && SameButMiddle(r.cpu, c)
         && (r.cpu == c <==> LastStatus(es).middle == e.user.cpsr.middle)
  {
    var e, mid, t := es[0], es[1..], s.running;
    var s1 := Step(s, e);
    StepKeepsInv(s, e);
    StepSuspends(s, e);
    if mid == [] {
    } else if IsSyscall(e, SYS_GETC) {
      assert s1.wait == s.wait + [t] && s1.wait[|s.wait|] == t;
      RunHandsOver(s1, mid, |s.wait|);
      assert Accepted(s, es) == [] + Accepted(s1, mid);
    } else {
      RunPreserves(s1, mid, t);
    }
  }

  /**
   End-to-end delivery.  Number the getc calls of a run in the order in which they are made (after
   those waiting when it starts) and the bytes in the order in which they are accepted (after those
   buffered when it starts).  When the thread that made a call next runs, r0 holds the byte with
   the number of the call, and every other register is as it was at the call, with the same exception
   for bits 23 to 8 of the status register.
   */
  lemma GetcReturnsItsByte(s: State, pre: seq<Event>, es: seq<Event>)
    requires Inv(s) && ValidRun(s, pre) && ValidRun(Run(s, pre), es)
    requires es != [] && IsSyscall(es[0], 2)
    requires AwayUntilLast(Run(s, pre), es, Run(s, pre).running)
    requires Run(Run(s, pre), es).running == Run(s, pre).running
    ensures ValidRun(s, pre + es)
    ensures
      var bytes := s.ring + Accepted(s, pre + es);
      var call := |s.wait + Requests(s, pre)|;
      && call < |bytes|
      && Run(s, pre + es).cpu.regs == es[0].user.regs.(r0 := bytes[call])
      && Run(s, pre + es).cpu == Restored(LastStatus(es), WithR0(es[0].user, bytes[call]))
  {
    RunAppend(s, pre, es);
    RunKeepsInv(s, pre);
    RunFlow(s, pre);
    GetcAfterHistory(s.ring, s.wait, Accepted(s, pre), Requests(s, pre), Run(s, pre), es);
    AcceptedAppend(s, pre, es);
    ConcatAssociative(s.ring, Accepted(s, pre), Accepted(Run(s, pre), es));
  }

  /** The same, for a call made in state `m` after `bytes` were accepted and `requests` were made. */
  lemma GetcAfterHistory(
    ring: seq<Byte>, wait: seq<nat>, bytes: seq<Byte>, requests: seq<nat>, m: State, es: seq<Event>)
    requires Inv(m) && es != [] && ValidRun(m, es) && IsSyscall(es[0], SYS_GETC)
    requires Flow(ring, wait, bytes, requests, m.ring, m.wait)
    requires AwayUntilLast(m, es, m.running) && Run(m, es).running == m.running
    ensures |wait + requests| < |ring + bytes + Accepted(m, es)|
    ensures
      var byte := (ring + bytes + Accepted(m, es))[|wait + requests|];
      Run(m, es).cpu == Restored(LastStatus(es), WithR0(es[0].user, byte))
  {
    Resumption(m, es);
    MatchedIndex(ring, wait, bytes, requests, m.ring, m.wait, Accepted(m, es));
  }

  /** A later call has a greater number, so no byte answers two calls. */
  lemma LaterCallLaterByte(s: State, pre: seq<Event>, es: seq<Event>)
    requires Inv(s) && ValidRun(s, pre) && ValidRun(Run(s, pre), es) && es != [] && IsSyscall(es[0], 2)
    ensures ValidRun(s, pre + es) && |s.wait + Requests(s, pre)| < |s.wait + Requests(s, pre + es)|
  {
    RunAppend(s, pre, es);
    RequestsAppend(s, pre, es);
  }

  /** The call numbered from the middle of a run and from its start asks for the same byte. */
  lemma MatchedIndex(
    ring: seq<Byte>, wait: seq<nat>, bytes: seq<Byte>, requests: seq<nat>,
    ring': seq<Byte>, wait': seq<nat>, later: seq<Byte>)
    requires Flow(ring, wait, bytes, requests, ring', wait')
    requires |wait'| < |ring' + later|
    ensures |wait + requests| < |ring + bytes + later|
    ensures (ring' + later)[|wait'|] == (ring + bytes + later)[|wait + requests|]
  {
    var n := Min(|ring + bytes|, |wait + requests|);
    DropAcross(ring + bytes, later, n, 0);
    assert (ring' + later) == (ring + bytes + later)[n..];
  }

  /**
   A created thread starts exactly as it was set up: when the new slot first gets the processor, the
   registers are the initial ones, with the stack pointer at the copied argument, and the entry
   trampoline finds the function that was passed to the system call.  Bits 23 to 8 of the status
   register come from the thread interrupted last; they are zero, as set up, exactly if they were then.
   */
  lemma CreatedThreadStarts(s: State, es: seq<Event>)
    requires Inv(s) && es != [] && ValidRun(s, es) && IsSyscall(es[0], 1)
    requires FreeSlot(s.threads, 0) < NUM_THREADS
    requires AwayUntilLast(s, es, FreeSlot(s.threads, 0)) && Run(s, es).running == FreeSlot(s.threads, 0)
    ensures
      var id, u, r := FreeSlot(s.threads, 0), es[0].user.regs, Run(s, es);
      var c := InitialContext(s.entry, s.threads[id].stackTop, u.r3);
      && r.cpu == Restored(LastStatus(es), c)
      && r.cpu.regs == Regs(0, 0, 0, 0, 0, 0, 0, 0, 0, 0, 0, 0, 0)
      && r.cpu.pc == s.entry && r.cpu.lr == 0
      && r.cpu.cpsr == Psr(0, LastStatus(es).middle, 0x10)
      && (r.cpu == c <==> LastStatus(es).middle == 0)
      && r.threads[id].fn == u.r1
  {
    var id, s1 := FreeSlot(s.threads, 0), Step(s, es[0]);
    StepKeepsInv(s, es[0]);
    assert s1.threads[id].status == Ready;
    RunPreserves(s1, es[1..], id);
  }
}
