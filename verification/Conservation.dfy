/**
 Counting threads over whole runs, and what holds in every state the kernel can reach from boot.
 */
module Conservation {
  import opened Words
  import opened Machine
  import opened KernelModel
  import opened Invariants
  import opened Isolation

  // ---------------------------------------------------------------- reachable states

  lemma InitialStateInv(entry: U32, stackTops: seq<U32>, spsr: Psr, mainFn: U32, idleFn: U32)
    requires |stackTops| == NUM_THREADS + 1
    ensures Inv(InitialState(entry, stackTops, spsr, mainFn, idleFn))
    ensures InitialState(entry, stackTops, spsr, mainFn, idleFn).running == 0
    ensures
      var s := InitialState(entry, stackTops, spsr, mainFn, idleFn);
      s.run == s.sleep == s.wait == [] && s.ring == [] && !s.halted && LiveSet(s) == {0}
  {
  }

  /** The kernel has booted and the first user instruction is about to execute. */
  ghost predicate Booted(s: State) {
    exists entry, stackTops: seq<U32>, spsr, mainFn, idleFn ::
      |stackTops| == NUM_THREADS + 1 && s == InitialState(entry, stackTops, spsr, mainFn, idleFn)
  }

  lemma BootedInv(s: State)
    requires Booted(s)
    ensures Inv(s) && s.running == 0
  {
    var entry, stackTops: seq<U32>, spsr, mainFn, idleFn :|
      |stackTops| == NUM_THREADS + 1 && s == InitialState(entry, stackTops, spsr, mainFn, idleFn);
    InitialStateInv(entry, stackTops, spsr, mainFn, idleFn);
  }

  /** The run `es` leads from `s0` to `s`. */
  ghost predicate Leads(s0: State, es: seq<Event>, s: State) {
    Shaped(s0) && ValidRun(s0, es) && s == Run(s0, es)
  }

  /** The state is reached from boot by some run. */
  ghost predicate Reachable(s: State) {
    exists s0, es :: Booted(s0) && Leads(s0, es, s)
  }

  lemma ReachableInv(s: State)
    requires Reachable(s)
    ensures Inv(s)
  {
    var s0, es :| Booted(s0) && Leads(s0, es, s);
    BootedInv(s0);
    RunKeepsInv(s0, es);
  }

  function Occurs(holds: bool): nat {
    if holds then 1 else 0
  }

  lemma {:induction false} CountInList(q: seq<nat>, i: nat)
    requires NoDup(q)
    ensures multiset(q)[i] == Occurs(i in q)
  {
    if q != [] {
      var last := |q| - 1;
      CountInList(q[..last], i);
      assert q == q[..last] + [q[last]];
    }
  }

  /** Thread `i` is in the place its status names, and only there. */
  ghost predicate InItsPlace(s: State, i: nat)
    requires Shaped(s) && i < NUM_THREADS
  {
    var st := s.threads[i].status;
    && multiset(s.run)[i] == Occurs(st == Ready)
    && multiset(s.sleep)[i] == Occurs(st == Sleeping)
    && multiset(s.wait)[i] == Occurs(st == Waiting)
    && (s.running == i <==> st == Running)
  }

  lemma InvPlaces(s: State, i: nat)
    requires Inv(s) && i < NUM_THREADS
    ensures InItsPlace(s, i)
    ensures IDLE !in s.run && IDLE !in s.sleep && IDLE !in s.wait
  {
    CountInList(s.run, i);
    CountInList(s.sleep, i);
    CountInList(s.wait, i);
  }

  /**
   In every reachable state each thread of the table is in exactly the place its status names, once:
   the processor, the run queue, the sleep queue, the wait queue, or nowhere.  The idle thread is in
   no queue, no byte is buffered while a thread waits, and whoever runs does so in user mode.
   */
  lemma EveryThreadInItsPlace(s: State, i: nat)
    requires Reachable(s) && i < NUM_THREADS
    ensures Shaped(s) && InItsPlace(s, i)
    ensures IDLE !in s.run && IDLE !in s.sleep && IDLE !in s.wait
    ensures s.wait == [] || s.ring == []
    ensures InUserMode(s.cpu)
  {
    ReachableInv(s);
    InvPlaces(s, i);
  }

  // ---------------------------------------------------------------- slots

  ghost function LiveSet(s: State): set<nat>
    requires Shaped(s)
  {
    set i: nat | i < NUM_THREADS && s.threads[i].status != Terminated
  }

  ghost function Elements(q: seq<nat>): set<nat> {
    set i | i in q
  }

  lemma {:induction false} ElementsCount(q: seq<nat>)
    requires NoDup(q)
    ensures |Elements(q)| == |q|
  {
    if q == [] {
      assert Elements(q) == {};
    } else {
      var last := |q| - 1;
      ElementsCount(q[..last]);
      assert q == q[..last] + [q[last]];
      assert Elements(q) == Elements(q[..last]) + {q[last]};
    }
  }

  function Queued(s: State): seq<nat> {
    s.run + s.sleep + s.wait + (if s.running < IDLE then [s.running] else [])
  }

  lemma NoDupConcat(a: seq<nat>, b: seq<nat>)
    requires NoDup(a) && NoDup(b) && forall x :: x in a ==> x !in b
    ensures NoDup(a + b)
  {
    forall j, k | 0 <= j < k < |a + b|
      ensures (a + b)[j] != (a + b)[k]
    {
      if j < |a| <= k {
        assert (a + b)[j] in a && (a + b)[k] in b;
      }
    }
  }

  lemma QueuedNoDup(s: State)
    requires Inv(s)
    ensures NoDup(Queued(s))
  {
    NoDupConcat(s.run, s.sleep);
    NoDupConcat(s.run + s.sleep, s.wait);
    NoDupConcat(s.run + s.sleep + s.wait, if s.running < IDLE then [s.running] else []);
  }

  lemma QueuedIsLive(s: State, i: nat)
    requires Inv(s)
    ensures i in Queued(s) <==> i in LiveSet(s)
  {
    if i < NUM_THREADS {
      match s.threads[i].status
      case Terminated =>
      case Ready =>
      case Running =>
      case Waiting =>
      case Sleeping =>
    }
  }

  /** The live threads are those in the queues and the running one. */
  lemma LiveCount(s: State)
    requires Inv(s)
    ensures |LiveSet(s)| == |s.run| + |s.sleep| + |s.wait| + Occurs(s.running < IDLE)
  {
    QueuedNoDup(s);
    ElementsCount(Queued(s));
    forall i: nat ensures i in Elements(Queued(s)) <==> i in LiveSet(s) {
      QueuedIsLive(s, i);
    }
    assert Elements(Queued(s)) == LiveSet(s);
  }

  predicate Spawns(s: State, e: Event)
    requires Shaped(s)
  {
    IsSyscall(e, SYS_CREATE_THREAD) && FreeSlot(s.threads, 0) < NUM_THREADS
  }

  /** A free slot is not touched by anything but the creation that takes it. */
  lemma FreeSlotUntouched(s: State, e: Event, i: nat)
    requires Inv(s) && Enabled(s, e) && i < NUM_THREADS && s.threads[i].status == Terminated
    requires Spawns(s, e) ==> i != FreeSlot(s.threads, 0)
    ensures Step(s, e).threads[i] == s.threads[i]
  {
    var s0 := s.(cpu := e.user);
    match e
    case Irq(_, received, tick) =>
      ReceiveLeavesFreeSlots(s0, received, i);
      ReceiveKeepsInv(s0, received);
      if tick {
        TickLeavesFreeSlots(Receive(s0, received), i);
      }
    case Svc(_) =>
      NonIrqLeavesFreeSlots(s, e, i);
    case Kill(_, _) =>
      NonIrqLeavesFreeSlots(s, e, i);
  }

  lemma {:induction false} ReceiveLeavesFreeSlots(s: State, bytes: seq<Byte>, i: nat)
    requires Inv(s) && i < NUM_THREADS && s.threads[i].status == Terminated
    ensures Receive(s, bytes).threads[i] == s.threads[i]
    decreases |bytes|
  {
    if bytes != [] {
      ReceiveByteKeepsInv(s, bytes[0]);
      ReceiveLeavesFreeSlots(ReceiveByte(s, bytes[0]), bytes[1..], i);
    }
  }

  lemma DispatchLeavesFreeSlots(s: State, i: nat)
    requires Shaped(s) && QueueOf(s.run, s.threads, Ready) && i < NUM_THREADS && s.threads[i].status == Terminated
    ensures Dispatch(s).threads[i] == s.threads[i]
  {
  }

  lemma TickLeavesFreeSlots(s: State, i: nat)
    requires Inv(s) && i < NUM_THREADS && s.threads[i].status == Terminated
    ensures Tick(s).threads[i] == s.threads[i]
  {
    UpdateSleepersKeepsInv(s);
    OthersUntouchedByTick(s);
    PreemptLeavesFreeSlots(UpdateSleepers(s), i);
  }

  lemma PreemptLeavesFreeSlots(s: State, i: nat)
    requires Inv(s) && i < NUM_THREADS && s.threads[i].status == Terminated
    ensures Preempt(s).threads[i] == s.threads[i]
  {
    if NextThread(Requeue(s)) != s.running {
      SwitchSavesFirst(s);
      PreemptedIsVacated(s);
      DispatchLeavesFreeSlots(SaveCurrent(Requeue(s), Ready), i);
    }
  }

  lemma NonIrqLeavesFreeSlots(s: State, e: Event, i: nat)
    requires Inv(s) && Enabled(s, e) && i < NUM_THREADS && s.threads[i].status == Terminated && !e.Irq?
    requires Spawns(s, e) ==> i != FreeSlot(s.threads, 0)
    ensures Step(s, e).threads[i] == s.threads[i]
  {
    if GivesUp(s, e) {
      GivingUpDispatches(s, e);
      DepartedReady(s, e);
      DispatchLeavesFreeSlots(Departed(s, e), i);
    }
  }

  /** A thread that is not the one ended by the event stays alive. */
  lemma AliveStays(s: State, e: Event, i: nat)
    requires Inv(s) && Enabled(s, e) && i < NUM_THREADS && s.threads[i].status != Terminated
    requires Ends(e) ==> i != s.running
    ensures Step(s, e).threads[i].status != Terminated
  {
    if i == s.running {
      StepSuspends(s, e);
    } else if i in s.wait {
      var k :| 0 <= k < |s.wait| && s.wait[k] == i;
      StepHandsOver(s, e, k);
    } else {
      StepPreserves(s, e, i);
    }
  }

  lemma RunningEnds(s: State, e: Event)
    requires Inv(s) && Enabled(s, e) && Ends(e) && s.running < IDLE
    ensures Step(s, e).threads[s.running].status == Terminated
  {
    var v := s.threads[s.running].(status := Terminated);
    QueueFrame(s.run, s.threads, Ready, s.running, v);
    DispatchLeavesFreeSlots(s.(cpu := e.user, threads := s.threads[s.running := v]), s.running);
  }

  /**
   An event adds to the live threads the least free slot if it creates a thread successfully, and
   removes the running thread if it ends it; nothing else changes who is alive.
   */
  lemma StepLiveSet(s: State, e: Event)
    requires Inv(s) && Enabled(s, e)
    ensures
      LiveSet(Step(s, e)) ==
        if Spawns(s, e) then LiveSet(s) + {FreeSlot(s.threads, 0)}
        else if Ends(e) then LiveSet(s) - {s.running}
        else LiveSet(s)
  {
    var r := Step(s, e);
    forall i: nat | i < NUM_THREADS
      ensures i in LiveSet(r) <==>
        (i in LiveSet(s) && !(Ends(e) && i == s.running)) || (Spawns(s, e) && i == FreeSlot(s.threads, 0))
    {
      if s.threads[i].status == Terminated {
        if !Spawns(s, e) || i != FreeSlot(s.threads, 0) {
          FreeSlotUntouched(s, e, i);
        }
      } else if Ends(e) && i == s.running {
        RunningEnds(s, e);
      } else {
        AliveStays(s, e, i);
      }
    }
  }

  /** A creation fails exactly when all 32 slots are live; otherwise the slot it takes is in no queue. */
  lemma CreateFailsIffFull(s: State)
    requires Inv(s)
    ensures FreeSlot(s.threads, 0) == 32 <==> |LiveSet(s)| == 32
    ensures FreeSlot(s.threads, 0) < 32 ==> FreeSlot(s.threads, 0) !in Queued(s)
  {
    var id := FreeSlot(s.threads, 0);
    LiveSetMembers(s);
    if id == NUM_THREADS {
      CountFull(LiveSet(s), NUM_THREADS);
    } else {
      QueuedIsLive(s, id);
      CountNotFull(LiveSet(s), id, NUM_THREADS);
    }
  }

  lemma LiveSetMembers(s: State)
    requires Shaped(s)
    ensures
      var id := FreeSlot(s.threads, 0);
      if id == NUM_THREADS then forall i: nat :: i in LiveSet(s) <==> i < NUM_THREADS
      else id !in LiveSet(s) && forall i: nat :: i in LiveSet(s) ==> i < NUM_THREADS && i != id
  {
  }

  lemma CountFull(a: set<nat>, n: nat)
    requires forall i: nat :: i in a <==> i < n
    ensures |a| == n
  {
    assert a == Below(n);
  }

  lemma CountNotFull(a: set<nat>, id: nat, n: nat)
    requires id < n && forall i: nat :: i in a ==> i < n && i != id
    ensures |a| < n
  {
    SubsetCount(a, Below(n) - {id});
  }

  ghost function Below(n: nat): (r: set<nat>)
    ensures |r| == n && forall i: nat :: i in r <==> i < n
  {
    if n == 0 then {} else Below(n - 1) + {n - 1}
  }

  lemma {:induction false} SubsetCount(a: set<nat>, b: set<nat>)
    requires a <= b
    ensures |a| <= |b|
  {
    if a != {} {
      var x :| x in a;
      SubsetCount(a - {x}, b - {x});
    }
  }

  ghost function Creations(s: State, es: seq<Event>): nat
    requires Shaped(s) && ValidRun(s, es)
    decreases |es|
  {
    if es == [] then 0 else Occurs(Spawns(s, es[0])) + Creations(Step(s, es[0]), es[1..])
  }

  ghost function Terminations(s: State, es: seq<Event>): nat
    requires Shaped(s) && ValidRun(s, es)
    decreases |es|
  {
    if es == [] then 0 else Occurs(Ends(es[0]) && s.running < IDLE) + Terminations(Step(s, es[0]), es[1..])
  }

  /**
   Slot conservation over every run: the threads in the queues and on the processor at the end are
   those alive at the start, plus the successful creations, minus the terminations.
   */
  lemma {:induction false} SlotsConserved(s: State, es: seq<Event>)
    requires Inv(s) && ValidRun(s, es)
    ensures
      var r := Run(s, es);
      |r.run| + |r.sleep| + |r.wait| + Occurs(r.running < IDLE) + Terminations(s, es) == |LiveSet(s)| + Creations(s, es)
    decreases |es|
  {
    if es == [] {
      LiveCount(s);
    } else {
      StepKeepsInv(s, es[0]);
      StepLiveCount(s, es[0]);
      SlotsConserved(Step(s, es[0]), es[1..]);
    }
  }

  lemma StepLiveCount(s: State, e: Event)
    requires Inv(s) && Enabled(s, e)
    ensures |LiveSet(Step(s, e))| == |LiveSet(s)| + Occurs(Spawns(s, e)) - Occurs(Ends(e) && s.running < IDLE)
  {
    StepLiveSet(s, e);
    LiveSetMembers(s);
    RunningIsLive(s);
    CountChange(LiveSet(s), LiveSet(Step(s, e)), Spawns(s, e), FreeSlot(s.threads, 0), Ends(e), s.running);
  }

  lemma CountChange(a: set<nat>, r: set<nat>, add: bool, x: nat, remove: bool, y: nat)
    requires r == if add then a + {x} else if remove then a - {y} else a
    requires add ==> x !in a && !remove
    ensures |r| == |a| + Occurs(add) - Occurs(remove && y in a)
  {
    if !add && remove && y !in a {
      assert a - {y} == a;
    }
  }

  lemma RunningIsLive(s: State)
    requires Inv(s)
    ensures s.running in LiveSet(s) <==> s.running < IDLE
  {
  }
}
