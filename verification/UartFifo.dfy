/**
 The serial input path over whole runs.  Bytes reach a thread in two ways, handed to the longest
 waiter by the interrupt handler or taken from the ring buffer by the getc system call; the two
 together behave as one queue.
 */
module UartFifo {
  import opened Words
  import opened KernelModel
  import opened Invariants

  // ---------------------------------------------------------------- what a run receives and asks for

  /** A received byte is lost exactly when nobody waits and the buffer is full. */
  predicate Accepts(s: State) {
    s.wait != [] || |s.ring| < UART_INPUT_BUFFER_SIZE
  }

  /** A byte that is not accepted is the only one that leaves no trace. */
  lemma LostIffFull(s: State, b: Byte)
    requires Shaped(s) && |s.ring| <= 128
    ensures ReceiveByte(s, b) == s <==> s.wait == [] && |s.ring| == 128
  {
    if s.wait != [] {
      assert |ReceiveByte(s, b).wait| < |s.wait|;
    } else if |s.ring| < UART_INPUT_BUFFER_SIZE {
      assert |ReceiveByte(s, b).ring| > |s.ring|;
    }
  }

  function AcceptedByte(s: State, b: Byte): seq<Byte> {
    if Accepts(s) then [b] else []
  }

  function AcceptedBytes(s: State, bytes: seq<Byte>): seq<Byte>
    requires Shaped(s)
    decreases |bytes|
  {
    if bytes == [] then []
    else AcceptedByte(s, bytes[0]) + AcceptedBytes(ReceiveByte(s, bytes[0]), bytes[1..])
  }

  /** Of the bytes of one interrupt the first are accepted, as many as there are waiters and free places. */
  lemma {:induction false} AcceptedAreFirst(s: State, bytes: seq<Byte>)
    requires Shaped(s) && BufferAndWaitersExclude(s)
    ensures AcceptedBytes(s, bytes) == bytes[..Min(|bytes|, |s.wait| + 128 - |s.ring|)]
    decreases |bytes|
  {
    if bytes != [] {
      var r, rest := ReceiveByte(s, bytes[0]), bytes[1..];
      ReceiveByteFlow(s, bytes[0]);
      AcceptedAreFirst(r, rest);
      FirstAndRest(bytes, Min(|rest|, |r.wait| + 128 - |r.ring|));
    }
  }

  lemma FirstAndRest(bytes: seq<Byte>, n: nat)
    requires n < |bytes|
    ensures [bytes[0]] + bytes[1..][..n] == bytes[..n + 1]
  {
  }

  function AcceptedBy(s: State, e: Event): seq<Byte>
    requires Shaped(s)
  {
    if e.Irq? then AcceptedBytes(s.(cpu := e.user), e.received) else []
  }

  function RequestedBy(s: State, e: Event): seq<nat> {
    if IsSyscall(e, SYS_GETC) then [s.running] else []
  }

  /** All bytes accepted in a run, in order of arrival. */
  ghost function Accepted(s: State, es: seq<Event>): seq<Byte>
    requires Shaped(s) && ValidRun(s, es)
    decreases |es|
  {
    if es == [] then [] else AcceptedBy(s, es[0]) + Accepted(Step(s, es[0]), es[1..])
  }

  /** The threads that call getc in a run, in order of their calls. */
  ghost function Requests(s: State, es: seq<Event>): seq<nat>
    requires Shaped(s) && ValidRun(s, es)
    decreases |es|
  {
    if es == [] then [] else RequestedBy(s, es[0]) + Requests(Step(s, es[0]), es[1..])
  }

  lemma ConsAppend<T>(a: seq<T>, b: seq<T>)
    requires a != []
    ensures (a + b)[0] == a[0] && (a + b)[1..] == a[1..] + b
  {
  }

  lemma ConcatAssociative<T>(a: seq<T>, b: seq<T>, c: seq<T>)
    ensures a + (b + c) == (a + b) + c
  {
  }

  lemma {:induction false} AcceptedAppend(s: State, a: seq<Event>, b: seq<Event>)
    requires Shaped(s) && ValidRun(s, a) && ValidRun(Run(s, a), b) && ValidRun(s, a + b)
    ensures Accepted(s, a + b) == Accepted(s, a) + Accepted(Run(s, a), b)
    decreases |a|
  {
    var later := Accepted(Run(s, a), b);
    if a == [] {
      assert a + b == b;
    } else {
      var s1 := Step(s, a[0]);
      ConsAppend(a, b);
      AcceptedAppend(s1, a[1..], b);
      ConcatAssociative(AcceptedBy(s, a[0]), Accepted(s1, a[1..]), later);
    }
  }

  lemma {:induction false} RequestsAppend(s: State, a: seq<Event>, b: seq<Event>)
    requires Shaped(s) && ValidRun(s, a) && ValidRun(Run(s, a), b) && ValidRun(s, a + b)
    ensures Requests(s, a + b) == Requests(s, a) + Requests(Run(s, a), b)
    decreases |a|
  {
    var later := Requests(Run(s, a), b);
    if a == [] {
      assert a + b == b;
    } else {
      var s1 := Step(s, a[0]);
      ConsAppend(a, b);
      RequestsAppend(s1, a[1..], b);
      ConcatAssociative(RequestedBy(s, a[0]), Requests(s1, a[1..]), later);
    }
  }

  // ---------------------------------------------------------------- matching requests with bytes

  /**
   Starting with `ring` buffered and `wait` waiting, then accepting `bytes` and serving `requests`,
   the k-th request has met the k-th byte as far as both exist, and only the rest is left.
   */
  predicate Flow(
    ring: seq<Byte>, wait: seq<nat>, bytes: seq<Byte>, requests: seq<nat>, ring': seq<Byte>, wait': seq<nat>)
  {
    var n := Min(|ring + bytes|, |wait + requests|);
    ring' == (ring + bytes)[n..] && wait' == (wait + requests)[n..]
  }

  lemma FlowCompose(
    ring0: seq<Byte>, wait0: seq<nat>, bytes1: seq<Byte>, requests1: seq<nat>,
    ring1: seq<Byte>, wait1: seq<nat>, bytes2: seq<Byte>, requests2: seq<nat>,
    ring2: seq<Byte>, wait2: seq<nat>)
    requires Flow(ring0, wait0, bytes1, requests1, ring1, wait1)
    requires Flow(ring1, wait1, bytes2, requests2, ring2, wait2)
    ensures Flow(ring0, wait0, bytes1 + bytes2, requests1 + requests2, ring2, wait2)
  {
    var n1 := Min(|ring0 + bytes1|, |wait0 + requests1|);
    var n2 := Min(|ring1 + bytes2|, |wait1 + requests2|);
    DropAcross(ring0 + bytes1, bytes2, n1, n2);
    DropAcross(wait0 + requests1, requests2, n1, n2);
    assert (ring0 + bytes1) + bytes2 == ring0 + (bytes1 + bytes2);
    assert (wait0 + requests1) + requests2 == wait0 + (requests1 + requests2);
  }

  lemma DropAcross<T>(a: seq<T>, b: seq<T>, m: nat, n: nat)
    requires m <= |a| && n <= |a[m..] + b|
    ensures (a[m..] + b)[n..] == (a + b)[m + n..]
  {
  }

  lemma ReceiveByteFlow(s: State, b: Byte)
    requires Shaped(s) && BufferAndWaitersExclude(s)
    ensures
      var r := ReceiveByte(s, b);
      && Flow(s.ring, s.wait, AcceptedByte(s, b), [], r.ring, r.wait)
      && BufferAndWaitersExclude(r)
  {
  }

  lemma FlowNothing(ring: seq<Byte>, wait: seq<nat>)
    requires ring == [] || wait == []
    ensures Flow(ring, wait, [], [], ring, wait)
  {
    assert ring + [] == ring && wait + [] == wait;
  }

  lemma {:induction false} ReceiveFlow(s: State, bytes: seq<Byte>)
    requires Shaped(s) && BufferAndWaitersExclude(s)
    ensures var r := Receive(s, bytes); Flow(s.ring, s.wait, AcceptedBytes(s, bytes), [], r.ring, r.wait)
    decreases |bytes|
  {
    if bytes == [] {
      FlowNothing(s.ring, s.wait);
    } else {
      var r, first, end := ReceiveByte(s, bytes[0]), AcceptedByte(s, bytes[0]), Receive(s, bytes);
      var later := AcceptedBytes(r, bytes[1..]);
      ReceiveByteFlow(s, bytes[0]);
      ReceiveFlow(r, bytes[1..]);
      BytesCompose(s.ring, s.wait, first, r.ring, r.wait, later, end.ring, end.wait);
    }
  }

  lemma BytesCompose(
    ring0: seq<Byte>, wait0: seq<nat>, bytes1: seq<Byte>, ring1: seq<Byte>, wait1: seq<nat>,
    bytes2: seq<Byte>, ring2: seq<Byte>, wait2: seq<nat>)
    requires Flow(ring0, wait0, bytes1, [], ring1, wait1)
    requires Flow(ring1, wait1, bytes2, [], ring2, wait2)
    ensures Flow(ring0, wait0, bytes1 + bytes2, [], ring2, wait2)
  {
    var none: seq<nat> := [];
    FlowCompose(ring0, wait0, bytes1, none, ring1, wait1, bytes2, none, ring2, wait2);
    assert none + none == none;
  }

  lemma TickKeepsUart(s: State)
    requires Shaped(s)
    ensures Tick(s).ring == s.ring && Tick(s).wait == s.wait
  {
  }

  lemma GetcFlow(s: State)
    requires Shaped(s) && BufferAndWaitersExclude(s) && s.running < IDLE
    ensures Flow(s.ring, s.wait, [], [s.running], Getc(s).ring, Getc(s).wait)
  {
    assert s.ring + [] == s.ring;
    if s.ring == [] {
      assert Getc(s).wait == s.wait + [s.running];
    } else {
      assert s.wait + [s.running] == [s.running];
    }
  }

  lemma OtherSyscallsKeepUart(s: State)
    requires Shaped(s) && s.running < IDLE && s.cpu.regs.r0 != SYS_GETC
    ensures Syscall(s).ring == s.ring && Syscall(s).wait == s.wait
  {
  }

  lemma SyscallFlow(s: State)
    requires Shaped(s) && BufferAndWaitersExclude(s) && s.running < IDLE
    ensures
      var r := Syscall(s);
      Flow(s.ring, s.wait, [], if s.cpu.regs.r0 == SYS_GETC then [s.running] else [], r.ring, r.wait)
  {
    if s.cpu.regs.r0 == SYS_GETC {
      GetcFlow(s);
    } else {
      OtherSyscallsKeepUart(s);
      FlowNothing(s.ring, s.wait);
    }
  }

  lemma TerminateKeepsUart(s: State)
    requires Shaped(s)
    ensures Terminate(s).ring == s.ring && Terminate(s).wait == s.wait
  {
  }

  lemma IrqFlow(s: State, e: Event)
    requires Inv(s) && Enabled(s, e) && e.Irq?
    ensures Flow(s.ring, s.wait, AcceptedBy(s, e), [], Step(s, e).ring, Step(s, e).wait)
  {
    var s0 := s.(cpu := e.user);
    ReceiveFlow(s0, e.received);
    TickKeepsUart(Receive(s0, e.received));
  }

  lemma StepFlow(s: State, e: Event)
    requires Inv(s) && Enabled(s, e)
    ensures var r := Step(s, e); Flow(s.ring, s.wait, AcceptedBy(s, e), RequestedBy(s, e), r.ring, r.wait)
  {
    if e.Irq? {
      IrqFlow(s, e);
    } else if e.Svc? {
      SyscallFlow(s.(cpu := e.user));
    } else {
      TerminateKeepsUart(s.(cpu := e.user));
      FlowNothing(s.ring, s.wait);
    }
  }

  /** With nothing buffered, a waiter that gets no byte moves up by the number of bytes. */
  lemma FlowIndex(wait: seq<nat>, bytes: seq<Byte>, requests: seq<nat>, ring': seq<Byte>, wait': seq<nat>, k: nat)
    requires Flow([], wait, bytes, requests, ring', wait') && |bytes| <= k < |wait|
    ensures k - |bytes| < |wait'| && wait'[k - |bytes|] == wait[k]
  {
    assert [] + bytes == bytes;
  }

  /**
   FIFO over every run: of the bytes present at the start or accepted since, and of the requests
   waiting at the start or made since, the k-th byte is consumed by the k-th request, and what is
   left in the buffer and in the wait queue is exactly what has not met its partner yet.
   */
  lemma {:induction false} RunFlow(s: State, es: seq<Event>)
    requires Inv(s) && ValidRun(s, es)
    ensures var r := Run(s, es); Flow(s.ring, s.wait, Accepted(s, es), Requests(s, es), r.ring, r.wait)
    decreases |es|
  {
    if es != [] {
      var s1, r := Step(s, es[0]), Run(s, es);
      StepKeepsInv(s, es[0]);
      StepFlow(s, es[0]);
      RunFlow(s1, es[1..]);
      FlowCompose(s.ring, s.wait, AcceptedBy(s, es[0]), RequestedBy(s, es[0]), s1.ring, s1.wait,
                  Accepted(s1, es[1..]), Requests(s1, es[1..]), r.ring, r.wait);
    }
  }
}
