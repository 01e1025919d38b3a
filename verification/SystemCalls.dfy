/**
 What every event does, in the numbers of the system call interface: which call is which, what reaches
 the console, when the machine halts, and what no event changes.
 */
module SystemCalls {
  import opened Words
  import opened Machine
  import opened KernelModel
  import opened Invariants
  import opened UartFifo
  import opened Isolation

  /**
   The head of the run queue, or else the idle thread, got the processor with its saved registers; bits
   23 to 8 of the status are those of the thread interrupted by `e`.
   */
  predicate NextRuns(s: State, e: Event, r: State)
    requires Shaped(s)
  {
    var next := if s.run == [] then 32 else s.run[0];
    var c := s.threads[next].context;
    && r.running == next && r.run == (if s.run == [] then [] else s.run[1..])
    && r.cpu == c.(cpsr := Psr(c.cpsr.flags, e.user.cpsr.middle, c.cpsr.control))
  }

  /** The stack pointer of a new thread with an argument of `size` bytes. */
  function FirstSp(stackTop: U32, size: U32): int {
    var below := (stackTop - size) % 0x1_0000_0000;
    below - below % 8
  }

  /** The registers of a new thread: user mode, the given address and stack pointer, everything else zero. */
  predicate IsFresh(c: Context, pc: U32, sp: int) {
    && c.regs == Regs(0, 0, 0, 0, 0, 0, 0, 0, 0, 0, 0, 0, 0)
    && c.pc == pc && c.lr == 0 && c.sp == sp && c.cpsr == Psr(0, 0, 0x10)
  }

  // ---------------------------------------------------------------- which events happen

  /**
   Anything can happen to a running kernel that user mode allows, but the idle thread makes no system
   call, and the argument of a new thread has at most 4096 bytes.
   */
  lemma EnabledIff(s: State, e: Event)
    requires s.started && !s.halted
    ensures
      Enabled(s, e) <==>
        && e.user.cpsr.control % 32 == 0x10
        && match e
           case Irq(_, _, _) => true
           case Svc(user) => s.running < 32 && (user.regs.r0 == 1 ==> user.regs.r3 <= 4096)
           case Kill(_, cause) => cause != SupervisorCall && cause != Interrupt
  {
  }

  // ---------------------------------------------------------------- the calls by number

  /** Call 0, and any number from 6 on, ends the thread. */
  lemma ExitCall(s: State, e: Event)
    requires Inv(s) && Enabled(s, e) && e.Svc? && (e.user.regs.r0 == 0 || e.user.regs.r0 >= 6)
    ensures
      var r := Step(s, e);
      && NextRuns(s, e, r) && r.threads[s.running].status == Terminated
      && r.sleep == s.sleep && r.wait == s.wait && r.ring == s.ring
  {
    assert s.run != [] ==> s.threads[s.run[0]].status == Ready;
  }

  /** A fault or fast interrupt does the same; the idle thread keeps the registers it was last suspended with. */
  lemma KillEvent(s: State, e: Event)
    requires Inv(s) && Enabled(s, e) && e.Kill?
    ensures
      var r := Step(s, e);
      && NextRuns(s, e, r) && (s.running < 32 ==> r.threads[s.running].status == Terminated)
      && r.sleep == s.sleep && r.wait == s.wait && r.ring == s.ring
      && r.threads[32].context == s.threads[32].context
  {
    assert s.run != [] ==> s.threads[s.run[0]].status == Ready;
  }

  /** Call 1 sets up the least free slot with function r1 and an argument of r3 bytes, if a slot is free. */
  lemma CreateCall(s: State, e: Event, id: nat)
    requires Inv(s) && Enabled(s, e) && e.Svc? && e.user.regs.r0 == 1
    requires id <= 32 && (forall j :: 0 <= j < id ==> s.threads[j].status != Terminated)
    requires id < 32 ==> s.threads[id].status == Terminated
    ensures
      var r, t := Step(s, e), s.threads[id];
      if id == 32 then r == s.(cpu := e.user)
      else
        && r == s.(cpu := e.user, run := s.run + [id], threads := s.threads[id := r.threads[id]])
        && r.threads[id].status == Ready && r.threads[id].fn == e.user.regs.r1
        && r.threads[id].stackTop == t.stackTop
        && IsFresh(r.threads[id].context, s.entry, FirstSp(t.stackTop, e.user.regs.r3))
  {
    LeastFree(s.threads, 0, id);
  }

  lemma {:induction false} LeastFree(threads: seq<Thread>, i: nat, id: nat)
    requires |threads| == 33 && i <= id <= 32
    requires forall j :: i <= j < id ==> threads[j].status != Terminated
    requires id < 32 ==> threads[id].status == Terminated
    ensures FreeSlot(threads, i) == id
    decreases id - i
  {
    if i < id {
      LeastFree(threads, i + 1, id);
    }
  }

  /** Call 2 takes the oldest byte into r0, or queues the thread if nothing is buffered. */
  lemma GetcCall(s: State, e: Event)
    requires Inv(s) && Enabled(s, e) && e.Svc? && e.user.regs.r0 == 2
    ensures
      var r, t := Step(s, e), s.running;
      if s.ring != [] then
        r == s.(ring := s.ring[1..], cpu := e.user.(regs := e.user.regs.(r0 := s.ring[0])))
      else
        && NextRuns(s, e, r) && r.wait == s.wait + [t] && r.sleep == s.sleep && r.ring == []
        && r.threads[t].status == Waiting && r.threads[t].context == e.user
  {
    assert s.run != [] ==> s.threads[s.run[0]].status == Ready;
  }

  /** Call 3 puts the low byte of r1 on the console and does nothing else. */
  lemma PutcCall(s: State, e: Event)
    requires Inv(s) && Enabled(s, e) && e.Svc? && e.user.regs.r0 == 3
    ensures Step(s, e) == s.(cpu := e.user, console := s.console + [e.user.regs.r1 % 0x100])
  {
  }

  /** Call 4 queues the thread with r1 as its counter. */
  lemma SleepCallByNumber(s: State, e: Event)
    requires Inv(s) && Enabled(s, e) && e.Svc? && e.user.regs.r0 == 4
    ensures
      var r, t := Step(s, e), s.running;
      && NextRuns(s, e, r) && r.sleep == s.sleep + [t] && r.wait == s.wait && r.ring == s.ring
      && r.threads[t].status == Sleeping && r.threads[t].sleepCounter == e.user.regs.r1
      && r.threads[t].context == e.user
  {
    assert s.run != [] ==> s.threads[s.run[0]].status == Ready;
  }

  /** Call 5 halts the machine. */
  lemma KernelExitCall(s: State, e: Event)
    requires Inv(s) && Enabled(s, e) && e.Svc? && e.user.regs.r0 == 5
    ensures Step(s, e) == s.(cpu := e.user, halted := true)
  {
  }

  // ---------------------------------------------------------------- what changes and what does not

  /** The byte that the event puts on the console. */
  function PutBy(e: Event): seq<Byte> {
    if e.Svc? && e.user.regs.r0 == 3 then [e.user.regs.r1 % 0x100] else []
  }

  /** The bytes of all putc calls, in order. */
  function Put(es: seq<Event>): seq<Byte> {
    if es == [] then [] else PutBy(es[0]) + Put(es[1..])
  }

  predicate KernelExit(e: Event) {
    e.Svc? && e.user.regs.r0 == 5
  }

  /** From `s` to `r` neither console, halt nor layout changed, and no thread got another function. */
  predicate SameFrame(s: State, r: State)
    requires Shaped(s) && Shaped(r)
  {
    && r.console == s.console && r.halted == s.halted && r.entry == s.entry && r.started == s.started
    && forall i :: 0 <= i <= IDLE ==>
         r.threads[i].stackTop == s.threads[i].stackTop && r.threads[i].fn == s.threads[i].fn
  }

  lemma {:induction false} ReceiveFrame(s: State, bytes: seq<Byte>)
    requires Shaped(s)
    ensures SameFrame(s, Receive(s, bytes))
    decreases |bytes|
  {
    if bytes != [] {
      ReceiveFrame(ReceiveByte(s, bytes[0]), bytes[1..]);
    }
  }

  lemma DispatchFrame(s: State)
    requires Shaped(s)
    ensures SameFrame(s, Dispatch(s))
  {
  }

  lemma TickFrame(s: State)
    requires Shaped(s)
    ensures SameFrame(s, Tick(s))
  {
    PreemptFrame(UpdateSleepers(s));
  }

  lemma PreemptFrame(s: State)
    requires Shaped(s)
    ensures SameFrame(s, Preempt(s))
  {
    if NextThread(Requeue(s)) != s.running {
      SwitchSavesFirst(s);
      SwitchFrame(s, SaveCurrent(Requeue(s), Ready));
    }
  }

  lemma SwitchFrame(s: State, u: State)
    requires Shaped(s) && Shaped(u) && SameFrame(s, u)
    ensures SameFrame(s, Dispatch(u))
  {
    DispatchFrame(u);
  }

  /** The creation of a thread gives its slot, and no other, a new function. */
  predicate NewFunction(s: State, e: Event, i: nat)
    requires Shaped(s)
  {
    e.Svc? && e.user.regs.r0 == 1 && i < 32 && FreeSlot(s.threads, 0) == i
  }

  /** Console, halt, layout and functions after any event. */
  predicate FrameAfter(s: State, e: Event, r: State)
    requires Shaped(s) && Shaped(r)
  {
    && r.console == s.console + PutBy(e)
    && (r.halted <==> KernelExit(e))
    && r.entry == s.entry && r.started == s.started
    && forall i :: 0 <= i <= IDLE ==>
         && r.threads[i].stackTop == s.threads[i].stackTop
         && r.threads[i].fn == if NewFunction(s, e, i) then e.user.regs.r1 else s.threads[i].fn
  }

  /** After any event only what `FrameAfter` names has changed of these. */
  lemma StepFrame(s: State, e: Event)
    requires Inv(s) && Enabled(s, e)
    ensures FrameAfter(s, e, Step(s, e))
  {
    if e.Irq? {
      IrqFrame(s, e);
    } else if GivesUp(s, e) {
      GivingUpDispatches(s, e);
      DepartedFrame(s, e);
    } else {
      OtherCallFrame(s, e);
    }
  }

  lemma IrqFrame(s: State, e: Event)
    requires Inv(s) && Enabled(s, e) && e.Irq?
    ensures FrameAfter(s, e, Step(s, e))
  {
    var s1 := Receive(s.(cpu := e.user), e.received);
    ReceiveFrame(s.(cpu := e.user), e.received);
    TickFrame(s1);
    SameFrameAfter(s, e, s.(cpu := e.user), s1, Step(s, e));
  }

  lemma DepartedFrame(s: State, e: Event)
    requires Inv(s) && Enabled(s, e) && GivesUp(s, e)
    ensures FrameAfter(s, e, Dispatch(Departed(s, e)))
  {
    DispatchFrame(Departed(s, e));
    SameFrameAfter(s, e, s, Departed(s, e), Dispatch(Departed(s, e)));
  }

  lemma SameFrameAfter(s: State, e: Event, s0: State, s1: State, r: State)
    requires Shaped(s) && Shaped(s0) && Shaped(s1) && Shaped(r)
    requires SameFrame(s, s0) && SameFrame(s0, s1) && SameFrame(s1, r)
    requires !s.halted && !KernelExit(e) && PutBy(e) == [] && !(e.Svc? && e.user.regs.r0 == 1)
    ensures FrameAfter(s, e, r)
  {
    assert s.console + [] == s.console;
  }

  lemma OtherCallFrame(s: State, e: Event)
    requires Inv(s) && Enabled(s, e) && e.Svc? && !GivesUp(s, e)
    ensures FrameAfter(s, e, Step(s, e))
  {
  }

  /** Over every run the console has received the bytes of the putc calls, in order and nothing else. */
  lemma {:induction false} RunConsole(s: State, es: seq<Event>)
    requires Inv(s) && ValidRun(s, es)
    ensures Run(s, es).console == s.console + Put(es)
    decreases |es|
  {
    if es == [] {
      assert s.console + [] == s.console;
    } else {
      StepKeepsInv(s, es[0]);
      StepFrame(s, es[0]);
      RunConsole(Step(s, es[0]), es[1..]);
      ConcatAssociative(s.console, PutBy(es[0]), Put(es[1..]));
    }
  }

  /** Over every run the machine has halted exactly if the last event was a kernel exit call. */
  lemma {:induction false} RunHaltsIff(s: State, es: seq<Event>)
    requires Inv(s) && !s.halted && ValidRun(s, es)
    ensures Run(s, es).halted <==> es != [] && KernelExit(es[|es| - 1])
    decreases |es|
  {
    if |es| == 1 {
      SingleEvent(s, es);
      StepFrame(s, es[0]);
    } else if es != [] {
      StepKeepsInv(s, es[0]);
      NotYetHalted(s, es);
      RunHaltsIff(Step(s, es[0]), es[1..]);
    }
  }

  /** Nothing happens after a halt, so with more events to come there was none. */
  lemma NotYetHalted(s: State, es: seq<Event>)
    requires Shaped(s) && ValidRun(s, es) && |es| > 1
    ensures ValidRun(Step(s, es[0]), es[1..]) && !Step(s, es[0]).halted
    ensures Run(s, es) == Run(Step(s, es[0]), es[1..]) && es[1..][|es| - 2] == es[|es| - 1]
  {
  }

  /** Over every run the stacks and the entry address stay. */
  lemma {:induction false} RunKeepsLayout(s: State, es: seq<Event>)
    requires Inv(s) && ValidRun(s, es)
    ensures Run(s, es).entry == s.entry
    ensures forall i :: 0 <= i <= IDLE ==> Run(s, es).threads[i].stackTop == s.threads[i].stackTop
    decreases |es|
  {
    if es != [] {
      StepKeepsInv(s, es[0]);
      StepFrame(s, es[0]);
      RunKeepsLayout(Step(s, es[0]), es[1..]);
    }
  }

  // ---------------------------------------------------------------- boot

  /**
   When the first user instruction is about to execute, slot 0 runs `mainFn` with fresh registers on its
   own stack, the idle thread is ready to run `idleFn` on its stack, and nothing else is alive.
   */
  lemma BootStarts(entry: U32, stackTops: seq<U32>, spsr: Psr, mainFn: U32, idleFn: U32)
    requires |stackTops| == 33
    ensures
      var s := InitialState(entry, stackTops, spsr, mainFn, idleFn);
      && s.running == 0 && s.threads[0].status == Running && s.threads[0].fn == mainFn
      && IsFresh(s.cpu.(cpsr := s.cpu.cpsr.(middle := 0)), entry, FirstSp(stackTops[0], 0))
      && s.cpu.cpsr.middle == spsr.middle
      && s.threads[32].fn == idleFn && IsFresh(s.threads[32].context, entry, FirstSp(stackTops[32], 0))
      && (forall i :: 1 <= i < 32 ==> s.threads[i].status == Terminated)
      && s.StackTops() == stackTops && s.entry == entry
      && s.run == s.sleep == s.wait == [] && s.ring == [] && s.console == [] && !s.halted
  {
    var s := InitialState(entry, stackTops, spsr, mainFn, idleFn);
    assert s.StackTops() == stackTops;
  }
}
