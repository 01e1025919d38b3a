/**
 The kernel as a transition system on values.  A `State` is what the kernel's static variables
 represent, an `Event` is one exception taken from user mode together with everything the outside
 world supplies to it, and `Step` is the whole path from exception entry to exception return.
 The class in module `Kernel` refines this system.
 */
module KernelModel {
  import opened Words
  import opened Machine

  const NUM_THREADS: nat := 32
  /** The idle thread lives outside the table; in the model it is the entry after the last slot. */
  const IDLE: nat := 32
  const UART_INPUT_BUFFER_SIZE: nat := 128

  datatype Status = Terminated | Ready | Running | Waiting | Sleeping

  datatype Thread = Thread(status: Status, context: Context, sleepCounter: U32, fn: U32, stackTop: U32)

  /**
   `cpu` is the user-visible register state that an exception return would establish now.
   `console` holds the bytes written by the putc system call.
   */
  datatype State = State(
    threads: seq<Thread>,
    run: seq<nat>,
    sleep: seq<nat>,
    wait: seq<nat>,
    running: nat,
    started: bool,
    ring: seq<Byte>,
    cpu: Context,
    console: seq<Byte>,
    entry: U32,
    halted: bool)
  {
    function StackTops(): seq<U32> {
      seq(|threads|, i requires 0 <= i < |threads| => threads[i].stackTop)
    }
  }

  predicate Shaped(s: State) {
    && |s.threads| == NUM_THREADS + 1
    && s.running <= IDLE
    && (forall k :: 0 <= k < |s.run| ==> s.run[k] < NUM_THREADS)
    && (forall k :: 0 <= k < |s.sleep| ==> s.sleep[k] < NUM_THREADS)
    && (forall k :: 0 <= k < |s.wait| ==> s.wait[k] < NUM_THREADS)
  }

  // ---------------------------------------------------------------- thread creation

  /** The least terminated slot not below `i`, or `NUM_THREADS`. */
  function FreeSlot(threads: seq<Thread>, i: nat): (r: nat)
    requires |threads| == NUM_THREADS + 1 && i <= NUM_THREADS
    ensures i <= r <= NUM_THREADS
    ensures forall j :: i <= j < r ==> !threads[j].status.Terminated?
    ensures r < NUM_THREADS ==> threads[r].status.Terminated?
    decreases NUM_THREADS - i
  {
    if i < NUM_THREADS && !threads[i].status.Terminated? then FreeSlot(threads, i + 1) else i
  }

  const ZERO_REGS := Regs(0, 0, 0, 0, 0, 0, 0, 0, 0, 0, 0, 0, 0)
  const ZERO_CONTEXT := Context(ZERO_REGS, 0, 0, 0, Psr(0, 0, 0))

  function InitialSp(stackTop: U32, argSize: U32): U32 {
    AlignDown8(Wrap(stackTop - argSize))
  }

  function InitialContext(entry: U32, stackTop: U32, argSize: U32): Context {
    Context(ZERO_REGS, entry, 0, InitialSp(stackTop, argSize), USER_PSR)
  }

  /** `thread_init`: the registers other than these keep their old values. */
  function Initialised(t: Thread, fn: U32, argSize: U32, entry: U32): Thread {
    t.(status := Ready, fn := fn,
       context := t.context.(cpsr := USER_PSR, sp := InitialSp(t.stackTop, argSize), pc := entry))
  }

  function SetThread(s: State, i: nat, t: Thread): (r: State)
    requires Shaped(s) && i <= IDLE
    ensures Shaped(r)
  {
    s.(threads := s.threads[i := t])
  }

  /** A new thread in slot `id`, at the back of the run queue. */
  function CreateIn(s: State, id: nat, fn: U32, argSize: U32): (r: State)
    requires Shaped(s) && id < NUM_THREADS
    ensures Shaped(r)
  {
    var t := s.threads[id].(context := ZERO_CONTEXT);
    SetThread(s, id, Initialised(t, fn, argSize, s.entry)).(run := s.run + [id])
  }

  function Create(s: State, fn: U32, argSize: U32): (r: State)
    requires Shaped(s)
    ensures Shaped(r)
  {
    var id := FreeSlot(s.threads, 0);
    if id == NUM_THREADS then s else CreateIn(s, id, fn, argSize)
  }

  // ---------------------------------------------------------------- dispatching

  /** The running thread gives up the processor with the given status and its registers are saved. */
  function SaveCurrent(s: State, status: Status): (r: State)
    requires Shaped(s)
    ensures Shaped(r)
  {
    SetThread(s, s.running, s.threads[s.running].(status := status, context := s.cpu))
  }

  function NextThread(s: State): (t: nat)
    requires Shaped(s)
    ensures t <= IDLE
  {
    if s.run == [] then IDLE else s.run[0]
  }

  function PopRun(s: State): (r: State)
    requires Shaped(s)
    ensures Shaped(r)
  {
    if s.run == [] then s else s.(run := s.run[1..])
  }

  /** The exception will return into thread `t`, with the middle status bits of the thread it came from. */
  function RunNext(s: State, t: nat): (r: State)
    requires Shaped(s) && t <= IDLE
    ensures Shaped(r)
  {
    SetThread(s, t, s.threads[t].(status := Running)).(
      running := t, cpu := Restored(s.cpu.cpsr, s.threads[t].context))
  }

  function Dispatch(s: State): (r: State)
    requires Shaped(s)
    ensures Shaped(r)
  {
    RunNext(PopRun(s), NextThread(s))
  }

  // ---------------------------------------------------------------- the timer tick

  /** The threads of `q`, in order, whose sleep counter is zero (or, with `expired` false, is not). */
  function Select(threads: seq<Thread>, q: seq<nat>, expired: bool): (r: seq<nat>)
    requires forall k :: 0 <= k < |q| ==> q[k] < |threads|
    ensures forall k :: 0 <= k < |r| ==> r[k] in q && (threads[r[k]].sleepCounter == 0) == expired
  {
    if q == [] then []
    else
      var last := |q| - 1;
      Select(threads, q[..last], expired)
        + (if (threads[q[last]].sleepCounter == 0) == expired then [q[last]] else [])
  }

  function Tock(t: Thread): Thread {
    if t.sleepCounter == 0 then t.(status := Ready) else t.(sleepCounter := t.sleepCounter - 1)
  }

  function UpdateSleepers(s: State): (r: State)
    requires Shaped(s)
    ensures Shaped(r)
  {
    s.(threads := seq(NUM_THREADS + 1, i requires 0 <= i < NUM_THREADS + 1 =>
                        if i in s.sleep then Tock(s.threads[i]) else s.threads[i]),
       run := s.run + Select(s.threads, s.sleep, true),
       sleep := Select(s.threads, s.sleep, false))
  }

  /** The interrupted thread, unless it is the idle thread, goes to the back of the run queue. */
  function Requeue(s: State): (r: State)
    requires Shaped(s)
    ensures Shaped(r)
  {
    if s.running == IDLE then s else s.(run := s.run + [s.running])
  }

  /** The interrupted thread makes room for the next one, or continues if there is no other. */
  function Preempt(s: State): (r: State)
    requires Shaped(s)
    ensures Shaped(r)
  {
    var q := Requeue(s);
    var next := NextThread(q);
    if next == q.running then PopRun(q)
    else RunNext(SaveCurrent(PopRun(q), Ready), next)
  }

  function Tick(s: State): (r: State)
    requires Shaped(s)
    ensures Shaped(r)
  {
    if s.started then Preempt(UpdateSleepers(s)) else s
  }

  // ---------------------------------------------------------------- terminate, sleep, wait, notify

  function Terminate(s: State): (r: State)
    requires Shaped(s)
    ensures Shaped(r)
  {
    Dispatch(SetThread(s, s.running, s.threads[s.running].(status := Terminated)))
  }

  function Sleep(s: State, cycles: U32): (r: State)
    requires Shaped(s) && s.running < IDLE
    ensures Shaped(r)
  {
    var t := s.threads[s.running].(status := Sleeping, sleepCounter := cycles, context := s.cpu);
    Dispatch(SetThread(s, s.running, t).(sleep := s.sleep + [s.running]))
  }

  function Wait(s: State): (r: State)
    requires Shaped(s) && s.running < IDLE
    ensures Shaped(r)
  {
    var t := s.threads[s.running].(status := Waiting, context := s.cpu);
    Dispatch(SetThread(s, s.running, t).(wait := s.wait + [s.running]))
  }

  /** The longest-waiting thread becomes ready with `value` in its saved r0. */
  function Notify(s: State, value: U32): (r: State)
    requires Shaped(s) && s.wait != []
    ensures Shaped(r)
  {
    var t := s.wait[0];
    var c := s.threads[t].context;
    var v := s.threads[t].(status := Ready, context := c.(regs := c.regs.(r0 := value)));
    SetThread(s, t, v).(wait := s.wait[1..], run := s.run + [t])
  }

  // ---------------------------------------------------------------- the serial port

  function ReceiveByte(s: State, b: Byte): (r: State)
    requires Shaped(s)
    ensures Shaped(r)
  {
    if s.wait != [] then Notify(s, b)
    else if |s.ring| < UART_INPUT_BUFFER_SIZE then s.(ring := s.ring + [b])
    else s
  }

  function Receive(s: State, bytes: seq<Byte>): (r: State)
    requires Shaped(s)
    ensures Shaped(r)
    decreases |bytes|
  {
    if bytes == [] then s else Receive(ReceiveByte(s, bytes[0]), bytes[1..])
  }

  function SvcReturn(s: State, value: U32): (r: State)
    requires Shaped(s)
    ensures Shaped(r)
  {
    s.(cpu := s.cpu.(regs := s.cpu.regs.(r0 := value)))
  }

  function Getc(s: State): (r: State)
    requires Shaped(s) && s.running < IDLE
    ensures Shaped(r)
  {
    if s.ring == [] then Wait(s)
    else SvcReturn(s.(ring := s.ring[1..]), s.ring[0])
  }

  // ---------------------------------------------------------------- events

  /**
   `user` is the state the user program reached before the exception, with `pc` the preferred return
   address.  An interrupt drains the bytes `received` and then handles a timer tick if one is pending.
   */
  datatype Event =
    | Irq(user: Context, received: seq<Byte>, tick: bool)
    | Svc(user: Context)
    | Kill(user: Context, cause: Exception)

  const SYS_EXIT: U32 := 0
  const SYS_CREATE_THREAD: U32 := 1
  const SYS_GETC: U32 := 2
  const SYS_PUTC: U32 := 3
  const SYS_SLEEP: U32 := 4
  const SYS_KERNEL_EXIT: U32 := 5
  const NUM_SYSCALLS: U32 := 6

  const THREAD_STACK_SIZE: U32 := 4096

  function SyscallNumber(e: Event): U32 {
    e.user.regs.r0
  }

  predicate IsSyscall(e: Event, number: U32) {
    e.Svc? && SyscallNumber(e) == number
  }

  /**
   Which events can happen.  User code cannot leave user mode; the idle thread only waits for
   interrupts and makes no system call; a fault or a fast interrupt can strike any thread; the
   argument of a new thread has to fit on its stack.
   */
  predicate Enabled(s: State, e: Event) {
    && !s.halted && s.started
    && InUserMode(e.user)
    && (e.Svc? ==> s.running < IDLE)
    && (e.Kill? ==> IsFault(e.cause) || e.cause.FastInterrupt?)
    && (IsSyscall(e, SYS_CREATE_THREAD) ==> e.user.regs.r3 <= THREAD_STACK_SIZE)
  }

  function Syscall(s: State): (r: State)
    requires Shaped(s) && s.running < IDLE
    ensures Shaped(r)
  {
    var u := s.cpu.regs;
    if u.r0 >= NUM_SYSCALLS || u.r0 == SYS_EXIT then Terminate(s)
    else if u.r0 == SYS_CREATE_THREAD then Create(s, u.r1, u.r3)
    else if u.r0 == SYS_GETC then Getc(s)
    else if u.r0 == SYS_PUTC then s.(console := s.console + [u.r1 % 0x100])
    else if u.r0 == SYS_SLEEP then Sleep(s, u.r1)
    else s.(halted := true)
  }

  function Handle(s: State, e: Event): (r: State)
    requires Shaped(s) && (e.Svc? ==> s.running < IDLE)
    ensures Shaped(r)
  {
    match e
    case Irq(_, received, tick) =>
      var s1 := Receive(s, received);
      if tick then Tick(s1) else s1
    case Svc(_) => Syscall(s)
    case Kill(_, _) => Terminate(s)
  }

  /** One exception, from entry to return. */
  function Step(s: State, e: Event): (r: State)
    requires Shaped(s) && Enabled(s, e)
    ensures Shaped(r)
  {
    Handle(s.(cpu := e.user), e)
  }

  // ---------------------------------------------------------------- runs

  ghost predicate ValidRun(s: State, es: seq<Event>)
    requires Shaped(s)
    decreases |es|
  {
    es == [] || (Enabled(s, es[0]) && ValidRun(Step(s, es[0]), es[1..]))
  }

  ghost function Run(s: State, es: seq<Event>): (r: State)
    requires Shaped(s) && ValidRun(s, es)
    ensures Shaped(r)
    decreases |es|
  {
    if es == [] then s else Run(Step(s, es[0]), es[1..])
  }

  lemma {:induction false} RunAppend(s: State, a: seq<Event>, b: seq<Event>)
    requires Shaped(s)
    ensures ValidRun(s, a + b) <==> ValidRun(s, a) && ValidRun(Run(s, a), b)
    ensures ValidRun(s, a + b) ==> Run(s, a + b) == Run(Run(s, a), b)
    decreases |a|
  {
    if a == [] {
      assert a + b == b;
    } else {
      assert (a + b)[0] == a[0] && (a + b)[1..] == a[1..] + b;
      if Enabled(s, a[0]) {
        RunAppend(Step(s, a[0]), a[1..], b);
      }
    }
  }

  // ---------------------------------------------------------------- boot

  /**
   The static variables before the kernel starts: zeroed thread table, empty queues.  The saved status
   register holds whatever `spsr` the boot code left in it.
   */
  function BootState(entry: U32, stackTops: seq<U32>, spsr: Psr): (s: State)
    requires |stackTops| == NUM_THREADS + 1
    ensures Shaped(s)
  {
    var threads :=
      seq(NUM_THREADS + 1, i requires 0 <= i < NUM_THREADS + 1 => Thread(Terminated, ZERO_CONTEXT, 0, 0, stackTops[i]));
    State(threads, [], [], [], IDLE, false, [], ZERO_CONTEXT.(cpsr := spsr), [], entry, false)
  }

  /** Creating the idle thread and entering the first thread. */
  function Start(s: State, idleFn: U32): (r: State)
    requires Shaped(s)
    ensures Shaped(r)
  {
    Dispatch(SetThread(s, IDLE, Initialised(s.threads[IDLE], idleFn, 0, s.entry)).(started := true))
  }

  /** The kernel when the first user instruction is about to execute. */
  function InitialState(entry: U32, stackTops: seq<U32>, spsr: Psr, mainFn: U32, idleFn: U32): (s: State)
    requires |stackTops| == NUM_THREADS + 1
    ensures Shaped(s)
  {
    Start(Create(BootState(entry, stackTops, spsr), mainFn, 0), idleFn)
  }
}
