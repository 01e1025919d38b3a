/**
 A run on which bits 23 to 8 of the status register leak from one thread to another, because the
 switch does not write them.
 */
module StatusBits {
  import opened Words
  import opened Machine
  import opened KernelModel
  import opened Invariants
  import opened Isolation
  import opened Conservation
  import opened Fairness

  /** A user program with an ordinary status register. */
  const LITTLE_ENDIAN := Context(ZERO_REGS, 0, 0, 0, USER_PSR)
  /** A user program that has set the E bit, bit 9, to access data in big-endian order. */
  const BIG_ENDIAN := Context(ZERO_REGS, 0, 0, 0, Psr(0, 2, MODE_USR))

  const CREATE := Svc(LITTLE_ENDIAN.(regs := ZERO_REGS.(r0 := SYS_CREATE_THREAD)))
  /** Two timer interrupts: from the first thread to the second, and back. */
  const THERE_AND_BACK: seq<Event> := [Irq(LITTLE_ENDIAN, [], true), Irq(BIG_ENDIAN, [], true)]

  lemma AfterCreate(entry: U32, stackTops: seq<U32>, spsr: Psr, mainFn: U32, idleFn: U32)
    requires |stackTops| == NUM_THREADS + 1
    ensures
      var s := InitialState(entry, stackTops, spsr, mainFn, idleFn);
      && Inv(s) && Enabled(s, CREATE)
      && var m := Step(s, CREATE);
         Inv(m) && m.running == 0 && m.run == [1] && m.sleep == [] && m.wait == [] && !m.halted
  {
    var s := InitialState(entry, stackTops, spsr, mainFn, idleFn);
    InitialStateInv(entry, stackTops, spsr, mainFn, idleFn);
    StepKeepsInv(s, CREATE);
    assert 0 in LiveSet(s) && 1 !in LiveSet(s);
    assert FreeSlot(s.threads, 1) == 1;
  }

  /** A tick without sleepers and received bytes runs the only other thread. */
  lemma Swap(s: State, e: Event)
    requires Inv(s) && Enabled(s, e) && IsTick(e) && e.received == []
    requires s.running < IDLE && |s.run| == 1 && s.sleep == [] && s.wait == []
    ensures
      var r := Step(s, e);
      Inv(r) && r.running == s.run[0] && r.run == [s.running] && r.sleep == [] && r.wait == [] && r.halted == s.halted
  {
    StepKeepsInv(s, e);
    TimerInterrupt(s, e);
  }

  /**
   The main thread creates a second one, is interrupted with the E bit clear and, after the second thread
   was interrupted with the E bit set, resumes with the E bit set.
   */
  lemma StatusLeaks(entry: U32, stackTops: seq<U32>, spsr: Psr, mainFn: U32, idleFn: U32)
    requires |stackTops| == NUM_THREADS + 1
    ensures
      var s := InitialState(entry, stackTops, spsr, mainFn, idleFn);
      && Enabled(s, CREATE)
      && var m := Step(s, CREATE);
         && ValidRun(m, THERE_AND_BACK)
         && Run(m, THERE_AND_BACK).running == m.running == 0
         && Run(m, THERE_AND_BACK).cpu == BIG_ENDIAN != THERE_AND_BACK[0].user
  {
    AfterCreate(entry, stackTops, spsr, mainFn, idleFn);
    var m := Step(InitialState(entry, stackTops, spsr, mainFn, idleFn), CREATE);
    SwapTwice(m, THERE_AND_BACK[0], THERE_AND_BACK[1]);
  }

  /** Two ticks later the first of two threads continues with the middle status bits of the second. */
  lemma SwapTwice(m: State, e1: Event, e2: Event)
    requires Inv(m) && m.running < IDLE && |m.run| == 1 && m.sleep == [] && m.wait == [] && !m.halted
    requires IsTick(e1) && e1.received == [] && InUserMode(e1.user)
    requires IsTick(e2) && e2.received == [] && InUserMode(e2.user)
    ensures ValidRun(m, [e1, e2])
    ensures Run(m, [e1, e2]).running == m.running
    ensures Run(m, [e1, e2]).cpu == Restored(e2.user.cpsr, e1.user)
  {
    Swap(m, e1);
    Swap(Step(m, e1), e2);
    TwoEvents(m, e1, e2);
    assert m.threads[m.run[0]].status == Ready;
    AwayOnce(m, e1, e2, m.running);
    Resumption(m, [e1, e2]);
  }

  lemma TwoEvents(m: State, e1: Event, e2: Event)
    requires Shaped(m) && Enabled(m, e1) && Enabled(Step(m, e1), e2)
    ensures ValidRun(m, [e1, e2]) && Run(m, [e1, e2]) == Step(Step(m, e1), e2)
  {
    OneEvent(Step(m, e1), e2);
    assert [e1, e2][1..] == [e2];
  }

  lemma OneEvent(m: State, e: Event)
    requires Shaped(m) && Enabled(m, e)
    ensures ValidRun(m, [e]) && Run(m, [e]) == Step(m, e)
  {
    assert [e][1..] == [];
  }

  lemma AwayOnce(m: State, e1: Event, e2: Event, t: nat)
    requires Shaped(m) && ValidRun(m, [e1, e2]) && Step(m, e1).running != t
    ensures AwayUntilLast(m, [e1, e2], t)
  {
    assert [e1, e2][1..] == [e2];
  }
}
