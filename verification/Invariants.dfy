/**
 The invariant that every event keeps: the three queues and the running thread partition the live
 threads, and every status field names the place its thread is in.
 */
module Invariants {
  import opened Words
  import opened Machine
  import opened KernelModel

  predicate NoDup(q: seq<nat>) {
    forall j, k :: 0 <= j < k < |q| ==> q[j] != q[k]
  }

  /** `q` lists, without repetition, exactly the table threads whose status is `st`. */
  ghost predicate QueueOf(q: seq<nat>, threads: seq<Thread>, st: Status)
    requires |threads| == NUM_THREADS + 1
  {
    && NoDup(q)
    && (forall k :: 0 <= k < |q| ==> q[k] < NUM_THREADS && threads[q[k]].status == st)
    && (forall i :: 0 <= i < NUM_THREADS && threads[i].status == st ==> i in q)
  }

  /** The bookkeeping of the thread table; it also holds half-way through a handler. */
  ghost predicate Partitioned(s: State)
    requires Shaped(s)
  {
    && QueueOf(s.run, s.threads, Ready)
    && QueueOf(s.sleep, s.threads, Sleeping)
    && QueueOf(s.wait, s.threads, Waiting)
    && (forall i :: 0 <= i < NUM_THREADS ==> (s.threads[i].status == Running <==> i == s.running))
  }

  /** A thread waits for a byte only while no byte is buffered. */
  predicate BufferAndWaitersExclude(s: State) {
    && (s.wait != [] ==> s.ring == [])
    && |s.ring| <= UART_INPUT_BUFFER_SIZE
  }

  predicate UserContexts(s: State) {
    && (forall i {:trigger InUserMode(s.threads[i].context)} :: 0 <= i < |s.threads| ==>
          InUserMode(s.threads[i].context) || (i != s.running && i != IDLE && s.threads[i].status == Terminated))
    && InUserMode(s.cpu)
  }

  /** Every thread that can still run, the running one included, is suspended in user mode. */
  predicate ResumesInUserMode(s: State)
    requires Shaped(s)
  {
    forall i {:trigger InUserMode(s.threads[i].context)} :: 0 <= i <= IDLE ==>
      InUserMode(s.threads[i].context) || (i != IDLE && s.threads[i].status == Terminated)
  }

  ghost predicate Inv(s: State) {
    && Shaped(s)
    && s.started
    && Partitioned(s)
    && BufferAndWaitersExclude(s)
    && UserContexts(s)
  }

  // ---------------------------------------------------------------- how one status change moves the lists

  /** A thread that takes the status is appended. */
  lemma QueueAppend(q: seq<nat>, threads: seq<Thread>, st: Status, t: nat, v: Thread)
    requires |threads| == NUM_THREADS + 1 && QueueOf(q, threads, st)
    requires t < NUM_THREADS && threads[t].status != st && v.status == st
    ensures QueueOf(q + [t], threads[t := v], st)
  {
    var q', threads' := q + [t], threads[t := v];
    forall i | 0 <= i < NUM_THREADS && threads'[i].status == st
      ensures i in q'
    {
      if i != t {
        assert i in q;
      } else {
        assert q'[|q|] == t;
      }
    }
  }

  /** The head of the list leaves it by changing its status. */
  lemma QueuePop(q: seq<nat>, threads: seq<Thread>, st: Status, v: Thread)
    requires |threads| == NUM_THREADS + 1 && QueueOf(q, threads, st)
    requires q != [] && v.status != st
    ensures QueueOf(q[1..], threads[q[0] := v], st)
  {
    var threads' := threads[q[0] := v];
    forall i | 0 <= i < NUM_THREADS && threads'[i].status == st
      ensures i in q[1..]
    {
      assert i in q;
    }
  }

  /** A thread that neither has nor takes the status does not matter. */
  lemma QueueFrame(q: seq<nat>, threads: seq<Thread>, st: Status, t: nat, v: Thread)
    requires |threads| == NUM_THREADS + 1 && QueueOf(q, threads, st)
    requires t <= IDLE && (t == IDLE || (threads[t].status == st <==> v.status == st))
    ensures QueueOf(q, threads[t := v], st)
  {
    var threads' := threads[t := v];
    forall k | 0 <= k < |q| ensures q[k] < NUM_THREADS && threads'[q[k]].status == st {
    }
  }

  // ---------------------------------------------------------------- the operations keep the invariant

  /** No running thread: between a thread giving up the processor and the next one getting it. */
  ghost predicate Vacated(s: State)
    requires Shaped(s)
  {
    && QueueOf(s.run, s.threads, Ready)
    && QueueOf(s.sleep, s.threads, Sleeping)
    && QueueOf(s.wait, s.threads, Waiting)
    && (forall i :: 0 <= i < NUM_THREADS ==> s.threads[i].status != Running)
  }

  lemma DispatchFromVacated(s: State)
    requires Shaped(s) && s.started && Vacated(s) && BufferAndWaitersExclude(s) && ResumesInUserMode(s)
    ensures Inv(Dispatch(s))
  {
    DispatchPartitions(s);
    DispatchInUserMode(s);
  }

  lemma DispatchInUserMode(s: State)
    requires Shaped(s) && ResumesInUserMode(s) && (s.run != [] ==> s.threads[s.run[0]].status == Ready)
    ensures UserContexts(Dispatch(s))
  {
    assert InUserMode(s.threads[NextThread(s)].context);
  }

  lemma DispatchPartitions(s: State)
    requires Shaped(s) && Vacated(s)
    ensures Partitioned(Dispatch(s))
  {
    var t := NextThread(s);
    var v := s.threads[t].(status := Running);
    if s.run != [] {
      QueuePop(s.run, s.threads, Ready, v);
    } else {
      QueueFrame(s.run, s.threads, Ready, t, v);
    }
    QueueFrame(s.sleep, s.threads, Sleeping, t, v);
    QueueFrame(s.wait, s.threads, Waiting, t, v);
  }

  /** The running thread takes a status other than `Running`. */
  lemma Vacate(s: State, v: Thread)
    requires Inv(s) && v.status != Running
    requires s.running == IDLE || v.status in {Terminated, Ready, Sleeping, Waiting}
    ensures var r := s.(
                threads := s.threads[s.running := v],
                run := if s.running != IDLE && v.status == Ready then s.run + [s.running] else s.run,
                sleep := if s.running != IDLE && v.status == Sleeping then s.sleep + [s.running] else s.sleep,
                wait := if s.running != IDLE && v.status == Waiting then s.wait + [s.running] else s.wait);
              Shaped(r) && Vacated(r)
  {
    var t := s.running;
    if t < IDLE && v.status == Ready {
      QueueAppend(s.run, s.threads, Ready, t, v);
    } else {
      QueueFrame(s.run, s.threads, Ready, t, v);
    }
    if t < IDLE && v.status == Sleeping {
      QueueAppend(s.sleep, s.threads, Sleeping, t, v);
    } else {
      QueueFrame(s.sleep, s.threads, Sleeping, t, v);
    }
    if t < IDLE && v.status == Waiting {
      QueueAppend(s.wait, s.threads, Waiting, t, v);
    } else {
      QueueFrame(s.wait, s.threads, Waiting, t, v);
    }
  }

  lemma VacatedResumes(s: State, v: Thread, r: State)
    requires Shaped(s) && UserContexts(s) && InUserMode(v.context)
    requires Shaped(r) && r.threads == s.threads[s.running := v]
    ensures ResumesInUserMode(r)
  {
    forall i | 0 <= i <= IDLE
      ensures InUserMode(r.threads[i].context) || (i != IDLE && r.threads[i].status == Terminated)
    {
      assert InUserMode(s.threads[i].context) || (i != s.running && i != IDLE && s.threads[i].status == Terminated);
    }
  }

  lemma RunningInUserMode(s: State)
    requires Inv(s)
    ensures InUserMode(s.threads[s.running].context) && InUserMode(s.cpu)
  {
  }

  /** The running thread takes status and context of `v`, goes to the queue that belongs, and another one runs. */
  lemma VacateAndDispatch(s: State, v: Thread, sleep: seq<nat>, wait: seq<nat>)
    requires Inv(s) && v.status in {Terminated, Sleeping, Waiting} && InUserMode(v.context)
    requires s.running == IDLE ==> v.status == Terminated
    requires sleep == if v.status == Sleeping then s.sleep + [s.running] else s.sleep
    requires wait == if v.status == Waiting then s.wait + [s.running] else s.wait
    requires wait != [] ==> s.ring == []
    ensures Shaped(s.(threads := s.threads[s.running := v], sleep := sleep, wait := wait))
    ensures Inv(Dispatch(s.(threads := s.threads[s.running := v], sleep := sleep, wait := wait)))
  {
    var r := s.(threads := s.threads[s.running := v], sleep := sleep, wait := wait);
    Vacate(s, v);
    VacatedResumes(s, v, r);
    DispatchFromVacated(r);
  }

  lemma TerminateKeepsInv(s: State)
    requires Inv(s)
    ensures Inv(Terminate(s))
  {
    RunningInUserMode(s);
    VacateAndDispatch(s, s.threads[s.running].(status := Terminated), s.sleep, s.wait);
  }

  lemma SleepKeepsInv(s: State, cycles: U32)
    requires Inv(s) && s.running < IDLE
    ensures Inv(Sleep(s, cycles))
  {
    var v := s.threads[s.running].(status := Sleeping, sleepCounter := cycles, context := s.cpu);
    RunningInUserMode(s);
    VacateAndDispatch(s, v, s.sleep + [s.running], s.wait);
  }

  lemma WaitKeepsInv(s: State)
    requires Inv(s) && s.running < IDLE && s.ring == []
    ensures Inv(Wait(s))
  {
    var v := s.threads[s.running].(status := Waiting, context := s.cpu);
    RunningInUserMode(s);
    VacateAndDispatch(s, v, s.sleep, s.wait + [s.running]);
  }

  lemma CreateKeepsInv(s: State, fn: U32, argSize: U32)
    requires Inv(s)
    ensures Inv(Create(s, fn, argSize))
  {
    var id := FreeSlot(s.threads, 0);
    if id < NUM_THREADS {
      var v := Initialised(s.threads[id].(context := ZERO_CONTEXT), fn, argSize, s.entry);
      CreateKeepsPartition(s, id, v);
      assert InUserMode(v.context);
      UserContextsFrame(s, s.(threads := s.threads[id := v]), id);
    }
  }

  lemma CreateKeepsPartition(s: State, id: nat, v: Thread)
    requires Shaped(s) && Partitioned(s)
    requires id < NUM_THREADS && s.threads[id].status == Terminated && v.status == Ready
    ensures var r := s.(threads := s.threads[id := v], run := s.run + [id]); Shaped(r) && Partitioned(r)
  {
    QueueAppend(s.run, s.threads, Ready, id, v);
    QueueFrame(s.sleep, s.threads, Sleeping, id, v);
    QueueFrame(s.wait, s.threads, Waiting, id, v);
  }

  lemma ReceiveByteKeepsInv(s: State, b: Byte)
    requires Inv(s)
    ensures Inv(ReceiveByte(s, b))
  {
    if s.wait != [] {
      var t, v := s.wait[0], Notify(s, b).threads[s.wait[0]];
      QueueAppend(s.run, s.threads, Ready, t, v);
      QueueFrame(s.sleep, s.threads, Sleeping, t, v);
      QueuePop(s.wait, s.threads, Waiting, v);
      assert InUserMode(s.threads[t].context) && v.context.cpsr == s.threads[t].context.cpsr;
      UserContextsFrame(s, Notify(s, b), t);
    }
  }

  /** A change to one thread whose new context is in user mode. */
  lemma UserContextsFrame(s: State, r: State, t: nat)
    requires UserContexts(s) && t < |s.threads| == |r.threads| && r.running == s.running && r.cpu == s.cpu
    requires r.threads == s.threads[t := r.threads[t]] && InUserMode(r.threads[t].context)
    ensures UserContexts(r)
  {
    forall i | 0 <= i < |r.threads| && i != t
      ensures InUserMode(r.threads[i].context) || (i != r.running && i != IDLE && r.threads[i].status == Terminated)
    {
      assert InUserMode(s.threads[i].context) || (i != s.running && i != IDLE && s.threads[i].status == Terminated);
    }
  }

  lemma {:induction false} ReceiveKeepsInv(s: State, bytes: seq<Byte>)
    requires Inv(s)
    ensures Inv(Receive(s, bytes))
    decreases |bytes|
  {
    if bytes != [] {
      ReceiveByteKeepsInv(s, bytes[0]);
      ReceiveKeepsInv(ReceiveByte(s, bytes[0]), bytes[1..]);
    }
  }

  /** `Select` picks out exactly the threads it is meant to. */
  lemma {:induction false} SelectMembers(threads: seq<Thread>, q: seq<nat>, expired: bool, t: nat)
    requires forall k :: 0 <= k < |q| ==> q[k] < |threads|
    ensures t in Select(threads, q, expired) <==> t in q && (threads[t].sleepCounter == 0) == expired
  {
    if q != [] {
      var last := |q| - 1;
      SelectMembers(threads, q[..last], expired, t);
      assert q == q[..last] + [q[last]];
    }
  }

  /** What `Select` picks out stays in order. */
  lemma {:induction false} SelectKeepsOrder(threads: seq<Thread>, q: seq<nat>, expired: bool, i: nat, j: nat)
    returns (i': nat, j': nat)
    requires forall k :: 0 <= k < |q| ==> q[k] < |threads|
    requires i < j < |Select(threads, q, expired)|
    ensures i' < j' < |q|
    ensures q[i'] == Select(threads, q, expired)[i] && q[j'] == Select(threads, q, expired)[j]
  {
    var last := |q| - 1;
    var r := Select(threads, q[..last], expired);
    if j < |r| {
      i', j' := SelectKeepsOrder(threads, q[..last], expired, i, j);
    } else {
      assert r[i] in q[..last];
      i' :| 0 <= i' < last && q[i'] == r[i];
      j' := last;
    }
  }

  lemma {:induction false} SelectNoDup(threads: seq<Thread>, q: seq<nat>, expired: bool)
    requires forall k :: 0 <= k < |q| ==> q[k] < |threads|
    requires NoDup(q)
    ensures NoDup(Select(threads, q, expired))
  {
    if q != [] {
      var last := |q| - 1;
      SelectNoDup(threads, q[..last], expired);
      SelectMembers(threads, q[..last], expired, q[last]);
    }
  }

  /** Several threads take the status at once and are appended together. */
  lemma QueueJoin(q: seq<nat>, w: seq<nat>, threads: seq<Thread>, threads': seq<Thread>, st: Status)
    requires |threads| == |threads'| == NUM_THREADS + 1 && QueueOf(q, threads, st) && NoDup(w)
    requires forall k :: 0 <= k < |w| ==>
               w[k] < NUM_THREADS && threads[w[k]].status != st && threads'[w[k]].status == st
    requires forall i :: 0 <= i < NUM_THREADS && i !in w ==> (threads'[i].status == st <==> threads[i].status == st)
    ensures QueueOf(q + w, threads', st)
  {
    forall k | 0 <= k < |q|
      ensures q[k] < NUM_THREADS && threads'[q[k]].status == st && q[k] !in w
    {
    }
  }

  lemma TockedThreads(s: State)
    requires Shaped(s)
    ensures var r := UpdateSleepers(s);
            forall i :: 0 <= i <= IDLE ==> r.threads[i] == if i in s.sleep then Tock(s.threads[i]) else s.threads[i]
  {
  }

  /** The threads woken by a tick join the run queue. */
  lemma WokenJoinRun(s: State)
    requires Shaped(s) && Partitioned(s)
    ensures QueueOf(UpdateSleepers(s).run, UpdateSleepers(s).threads, Ready)
  {
    var threads' := UpdateSleepers(s).threads;
    var woken := Select(s.threads, s.sleep, true);
    TockedThreads(s);
    SelectNoDup(s.threads, s.sleep, true);
    forall i | 0 <= i < NUM_THREADS && i !in woken
      ensures threads'[i].status == Ready <==> s.threads[i].status == Ready
    {
      SelectMembers(s.threads, s.sleep, true, i);
      if i in s.sleep {
        assert s.threads[i].status == Sleeping;
      }
    }
    forall k | 0 <= k < |woken|
      ensures woken[k] < NUM_THREADS && s.threads[woken[k]].status == Sleeping && threads'[woken[k]].status == Ready
    {
      assert woken[k] in s.sleep;
    }
    QueueJoin(s.run, woken, s.threads, threads', Ready);
  }

  /** The other sleepers stay where they are. */
  lemma DozingStay(s: State)
    requires Shaped(s) && Partitioned(s)
    ensures QueueOf(UpdateSleepers(s).sleep, UpdateSleepers(s).threads, Sleeping)
  {
    var r := UpdateSleepers(s);
    TockedThreads(s);
    SelectNoDup(s.threads, s.sleep, false);
    forall i | 0 <= i < NUM_THREADS && r.threads[i].status == Sleeping
      ensures i in r.sleep
    {
      SelectMembers(s.threads, s.sleep, false, i);
    }
  }

  /** A tick changes no thread outside the sleep queue, and of a sleeper only status and counter. */
  lemma OthersUntouchedByTick(s: State)
    requires Shaped(s) && Partitioned(s)
    ensures var r := UpdateSleepers(s);
            forall i :: 0 <= i <= IDLE ==>
              && r.threads[i].context == s.threads[i].context
              && (i < NUM_THREADS && s.threads[i].status != Sleeping ==> r.threads[i] == s.threads[i])
              && (r.threads[i].status == s.threads[i].status
                  || (s.threads[i].status == Sleeping && r.threads[i].status == Ready && i < NUM_THREADS))
  {
    TockedThreads(s);
    assert forall i :: i in s.sleep ==> i < NUM_THREADS && s.threads[i].status == Sleeping;
  }

  lemma UpdateSleepersKeepsInv(s: State)
    requires Inv(s)
    ensures Inv(UpdateSleepers(s))
  {
    WokenJoinRun(s);
    DozingStay(s);
    OthersUntouchedByTick(s);
    SameQueue(s.wait, s.threads, UpdateSleepers(s).threads, Waiting);
  }

  lemma SameQueue(q: seq<nat>, threads: seq<Thread>, threads': seq<Thread>, st: Status)
    requires |threads| == |threads'| == NUM_THREADS + 1 && QueueOf(q, threads, st)
    requires forall i :: 0 <= i < NUM_THREADS ==> (threads'[i].status == st <==> threads[i].status == st)
    ensures QueueOf(q, threads', st)
  {
    forall k | 0 <= k < |q| ensures q[k] < NUM_THREADS && threads'[q[k]].status == st {
    }
  }

  lemma TickKeepsInv(s: State)
    requires Inv(s)
    ensures Inv(Tick(s))
  {
    UpdateSleepersKeepsInv(s);
    PreemptKeepsInv(UpdateSleepers(s));
  }

  lemma PreemptKeepsInv(s: State)
    requires Inv(s)
    ensures Inv(Preempt(s))
  {
    if NextThread(Requeue(s)) != s.running {
      SwitchSavesFirst(s);
      PreemptedIsVacated(s);
      DispatchFromVacated(SaveCurrent(Requeue(s), Ready));
    } else if s.running < IDLE {
      ContinuesIffAlone(s);
    }
  }

  /** A tick lets the running thread continue exactly if no other thread is ready. */
  lemma ContinuesIffAlone(u: State)
    requires Shaped(u) && Partitioned(u) && u.running < IDLE
    ensures NextThread(Requeue(u)) == u.running <==> u.run == []
    ensures u.run == [] ==> PopRun(Requeue(u)) == u
  {
    if u.run != [] {
      assert u.threads[u.run[0]].status == Ready;
    }
  }

  lemma PreemptedIsVacated(u: State)
    requires Inv(u)
    ensures
      var r := SaveCurrent(Requeue(u), Ready);
      && Vacated(r)
      && r.started
      && BufferAndWaitersExclude(r)
      && ResumesInUserMode(r)
  {
    var v := u.threads[u.running].(status := Ready, context := u.cpu);
    Vacate(u, v);
    RunningInUserMode(u);
    VacatedResumes(u, v, SaveCurrent(Requeue(u), Ready));
  }

  /** A switching tick is: save the interrupted thread, queue it, dispatch. */
  lemma SwitchSavesFirst(s: State)
    requires Shaped(s) && NextThread(Requeue(s)) != s.running
    ensures Preempt(s) == Dispatch(SaveCurrent(Requeue(s), Ready))
  {
  }

  lemma SyscallKeepsInv(s: State)
    requires Inv(s) && s.running < IDLE
    ensures Inv(Syscall(s))
  {
    var u := s.cpu.regs;
    if u.r0 >= NUM_SYSCALLS || u.r0 == SYS_EXIT {
      TerminateKeepsInv(s);
    } else if u.r0 == SYS_CREATE_THREAD {
      CreateKeepsInv(s, u.r1, u.r3);
    } else if u.r0 == SYS_GETC {
      if s.ring == [] {
        WaitKeepsInv(s);
      }
    } else if u.r0 == SYS_SLEEP {
      SleepKeepsInv(s, u.r1);
    }
  }

  lemma StepKeepsInv(s: State, e: Event)
    requires Inv(s) && Enabled(s, e)
    ensures Inv(Step(s, e))
  {
    var s0 := s.(cpu := e.user);
    assert Inv(s0);
    match e
    case Irq(_, received, tick) =>
      ReceiveKeepsInv(s0, received);
      if tick {
        TickKeepsInv(Receive(s0, received));
      }
    case Svc(_) =>
      SyscallKeepsInv(s0);
    case Kill(_, _) =>
      TerminateKeepsInv(s0);
  }

  lemma {:induction false} RunKeepsInv(s: State, es: seq<Event>)
    requires Inv(s) && ValidRun(s, es)
    ensures Inv(Run(s, es))
    decreases |es|
  {
    if es != [] {
      StepKeepsInv(s, es[0]);
      RunKeepsInv(Step(s, es[0]), es[1..]);
    }
  }
}
