/**
 The kernel as it is written: thread blocks that contain their queue node, three linked queues, a
 ring buffer, and the exception frame that is overwritten in place.  Every method is proved to do to
 the represented `State` what the corresponding function of `KernelModel` says.
 */
module Kernel {
  import opened Words
  import opened Machine
  import opened KernelModel
  import opened Invariants
  import opened Bits
  import opened Lists
  import opened RingBuffers
  import opened Sleepers
  import opened Conservation

  /** `struct thread`; `slot` stands for its address, `queue` for the node embedded in it. */
  class ThreadBlock {
    const slot: nat
    const queue: ListNode
    const stackTop: U32
    var id: U32
    var fn: U32
    var status: Status
    var context: Context
    var sleepCounter: U32

    function View(): Thread
      reads this
    {
      Thread(status, context, sleepCounter, fn, stackTop)
    }

    /** `thread_init`, without the copy of the argument onto the stack, which module `ThreadInit` models. */
    method Init(fn: U32, argSize: U32, entry: U32)
      modifies this`fn, this`context, this`status
      ensures View() == Initialised(old(View()), fn, argSize, entry)
    {
      this.fn := fn;
      context := context.(cpsr := USER_PSR);
      var sp := Wrap(stackTop - argSize);
      sp := AlignDown8(sp);
      context := context.(sp := sp);
      context := context.(pc := entry);
      status := Ready;
    }

    constructor (slot: nat, queue: ListNode, stackTop: U32)
      ensures this.slot == slot && this.queue == queue && this.stackTop == stackTop
      ensures View() == Thread(Terminated, ZERO_CONTEXT, 0, 0, stackTop)
    {
      this.slot, this.queue, this.stackTop := slot, queue, stackTop;
      id, fn, status, sleepCounter := 0, 0, Terminated, 0;
      context := ZERO_CONTEXT;
    }
  }

  /** `struct saved_registers`, as pushed by the vector table. */
  class SavedRegisters {
    var r0: U32
    var r1: U32
    var r2: U32
    var r3: U32
    var r4: U32
    var r5: U32
    var r6: U32
    var r7: U32
    var r8: U32
    var r9: U32
    var r10: U32
    var r11: U32
    var r12: U32
    var pc: U32

    function Registers(): Regs
      reads this
    {
      Regs(r0, r1, r2, r3, r4, r5, r6, r7, r8, r9, r10, r11, r12)
    }

    /** Overwrites the whole frame. */
    method Push(regs: Regs, pc: U32)
      modifies this
      ensures Registers() == regs && this.pc == pc
    {
      PushLow(regs);
      PushHigh(regs);
      this.pc := pc;
    }

    method PushLow(regs: Regs)
      modifies this`r0, this`r1, this`r2, this`r3, this`r4, this`r5, this`r6
      ensures (r0, r1, r2, r3, r4, r5, r6) == (regs.r0, regs.r1, regs.r2, regs.r3, regs.r4, regs.r5, regs.r6)
    {
      r0, r1, r2, r3, r4, r5, r6 := regs.r0, regs.r1, regs.r2, regs.r3, regs.r4, regs.r5, regs.r6;
    }

    method PushHigh(regs: Regs)
      modifies this`r7, this`r8, this`r9, this`r10, this`r11, this`r12
      ensures (r7, r8, r9, r10, r11, r12) == (regs.r7, regs.r8, regs.r9, regs.r10, regs.r11, regs.r12)
    {
      r7, r8, r9, r10, r11, r12 := regs.r7, regs.r8, regs.r9, regs.r10, regs.r11, regs.r12;
    }

    /** The struct assignment of a context switch; `pc` goes back to the last executed instruction. */
    method Load(c: Context)
      modifies this
      ensures Registers() == c.regs && pc == SwitchPc(c.pc)
    {
      Push(c.regs, Wrap(c.pc - 4));
    }

    constructor ()
    {
      r0, r1, r2, r3, r4, r5, r6 := 0, 0, 0, 0, 0, 0, 0;
      r7, r8, r9, r10, r11, r12, pc := 0, 0, 0, 0, 0, 0, 0;
    }
  }

  class Kernel {
    /** The 32 table entries and, last, the idle thread. */
    const threads: seq<ThreadBlock>
    const runQueue: ListNode
    const sleepQueue: ListNode
    const uartWaitQueue: ListNode
    const uartRing: RingBuffer
    /** What `exception_frame` points to. */
    const frame: SavedRegisters
    /** The user-mode bank of `sp` and `lr`, and the saved status register of the current exception. */
    var spUsr: U32
    var lrUsr: U32
    var spsr: Psr
    var running: ThreadBlock?
    var isRunning: bool
    var halted: bool
    var console: seq<Byte>
    /** The address of the entry trampoline of every thread. */
    const entry: U32

    ghost const nodes: seq<ListNode>
    ghost var s: State
    ghost var inHandler: bool

    // ------------------------------------------------------------ representation

    /** The static memory layout: no two structures share an address. */
    ghost predicate Layout() {
      && |threads| == NUM_THREADS + 1 && |nodes| == NUM_THREADS + 4
      && (forall i :: 0 <= i <= IDLE ==> threads[i].slot == i && threads[i].queue == nodes[i])
      && (forall i :: 0 <= i < |nodes| ==> nodes[i].slot == i)
      && runQueue == nodes[IDLE + 1] && sleepQueue == nodes[IDLE + 2] && uartWaitQueue == nodes[IDLE + 3]
    }

    ghost function NodesOf(q: seq<nat>): (r: seq<ListNode>)
      requires Layout() && forall k :: 0 <= k < |q| ==> q[k] < NUM_THREADS
      ensures |r| == |q| && forall k :: 0 <= k < |q| ==> r[k] == nodes[q[k]]
    {
      seq(|q|, k requires 0 <= k < |q| => nodes[q[k]])
    }

    ghost predicate ThreadsRepresented(ts: seq<Thread>)
      requires Layout()
      reads threads
    {
      && |ts| == NUM_THREADS + 1
      && forall i :: 0 <= i <= IDLE ==> threads[i].View() == ts[i]
    }

    ghost predicate QueueRepresented(head: ListNode, q: seq<nat>)
      requires Layout() && head in nodes && forall k :: 0 <= k < |q| ==> q[k] < NUM_THREADS
      reads nodes
    {
      IsList(head, NodesOf(q))
    }

    /** The three queues; one fact, like `Represents`. */
    ghost predicate Queues(run: seq<nat>, sleep: seq<nat>, wait: seq<nat>)
      requires Layout()
      reads nodes
    {
      QueuesRepresented(run, sleep, wait) == true
    }

    ghost predicate QueuesRepresented(run: seq<nat>, sleep: seq<nat>, wait: seq<nat>)
      requires Layout()
      reads nodes
    {
      && SlotsOnly(run) && SlotsOnly(sleep) && SlotsOnly(wait)
      && Apart(run, sleep, wait)
      && QueueRepresented(runQueue, run)
      && QueueRepresented(sleepQueue, sleep)
      && QueueRepresented(uartWaitQueue, wait)
    }

    ghost predicate RingRepresented(ring: seq<Byte>)
      reads uartRing, uartRing.buffer
    {
      uartRing.Valid() && uartRing.contents == ring && uartRing.size == UART_INPUT_BUFFER_SIZE
    }

    /** What an exception return would establish now. */
    ghost function ReturnState(): Context
      reads this`spUsr, this`lrUsr, this`spsr, frame
    {
      Context(frame.Registers(), ReturnPc(frame.pc), lrUsr, spUsr, spsr)
    }

    ghost predicate ScalarsRepresented()
      requires Layout()
      reads this, frame
    {
      && s.started == isRunning && s.halted == halted && s.console == console && s.entry == entry
      && s.running <= IDLE
      && (running != null ==> running == threads[s.running])
      && (inHandler ==> isRunning && running != null && ReturnState() == s.cpu)
      && (!isRunning ==> spsr == s.cpu.cpsr)
    }

    /** The heap represents `s`.  An equation, so that the verifier carries it around as one fact. */
    ghost predicate Represents()
      reads this, threads, nodes, frame, uartRing, uartRing.buffer
    {
      Representation() == true
    }

    /** The bookkeeping of the represented state is in order; likewise one fact. */
    ghost predicate Orderly()
      reads this`s
    {
      Inv(s) == true
    }

    ghost predicate Representation()
      reads this, threads, nodes, frame, uartRing, uartRing.buffer
    {
      && Layout()
      && Shaped(s)
      && ThreadsRepresented(s.threads)
      && Queues(s.run, s.sleep, s.wait)
      && RingRepresented(s.ring)
      && ScalarsRepresented()
    }

    // ------------------------------------------------------------ boot

    /** The static variables as the C start-up code leaves them: `create_ringbuffer`, `list_create`, zeroed table. */
    constructor (entry: U32, stackTops: seq<U32>, spsr: Psr)
      requires |stackTops| == NUM_THREADS + 1
      ensures Represents() && s == BootState(entry, stackTops, spsr) && !inHandler && !isRunning
      ensures fresh(threads) && fresh(nodes) && fresh(frame) && fresh(uartRing) && fresh(uartRing.buffer)
    {
      var ring := UartRing();
      uartRing := ring;
      frame := new SavedRegisters();
      var blocks, run, sleep, wait, all := Allocate(stackTops);
      threads, runQueue, sleepQueue, uartWaitQueue, nodes := blocks, run, sleep, wait, all;
      spUsr, lrUsr, this.spsr := 0, 0, spsr;
      running, isRunning, halted, console := null, false, false, [];
      this.entry := entry;
      inHandler := false;
      new;
      RepresentBoot(stackTops);
    }

    ghost method RepresentBoot(stackTops: seq<U32>)
      requires |stackTops| == NUM_THREADS + 1
      requires Layout()
      requires IsList(runQueue, []) && IsList(sleepQueue, []) && IsList(uartWaitQueue, [])
      requires forall i :: 0 <= i <= IDLE ==> threads[i].View() == Thread(Terminated, ZERO_CONTEXT, 0, 0, stackTops[i])
      requires uartRing.Valid() && uartRing.contents == [] && uartRing.size == UART_INPUT_BUFFER_SIZE
      requires running == null && !isRunning && !halted && console == [] && !inHandler
      modifies this`s
      ensures Represents() && s == BootState(entry, stackTops, spsr)
    {
      s := BootState(entry, stackTops, spsr);
      assert NodesOf([]) == [];
    }

    /** The buffer of the serial port; its size passes the test of the ring buffer macro. */
    static method UartRing() returns (ring: RingBuffer)
      ensures ring.Valid() && ring.contents == [] && ring.size == UART_INPUT_BUFFER_SIZE
      ensures fresh(ring) && fresh(ring.buffer)
    {
      BufferSizePasses();
      ring := new RingBuffer(128);
    }

    /** The thread table with the idle thread, and the three queue heads. */
    static method Allocate(stackTops: seq<U32>)
      returns (blocks: seq<ThreadBlock>, run: ListNode, sleep: ListNode, wait: ListNode, ghost all: seq<ListNode>)
      requires |stackTops| == NUM_THREADS + 1
      ensures |blocks| == NUM_THREADS + 1 && |all| == NUM_THREADS + 4
      ensures forall i :: 0 <= i <= IDLE ==> blocks[i].slot == i && blocks[i].queue == all[i]
      ensures forall i :: 0 <= i < |all| ==> all[i].slot == i
      ensures run == all[IDLE + 1] && sleep == all[IDLE + 2] && wait == all[IDLE + 3]
      ensures IsList(run, []) && IsList(sleep, []) && IsList(wait, [])
      ensures forall i :: 0 <= i <= IDLE ==>
                blocks[i].View() == Thread(Terminated, ZERO_CONTEXT, 0, 0, stackTops[i])
      ensures fresh(blocks) && fresh(all)
    {
      run := new ListNode.Head(IDLE + 1);
      sleep := new ListNode.Head(IDLE + 2);
      wait := new ListNode.Head(IDLE + 3);
      ghost var links;
      blocks, links := Blocks(stackTops);
      all := links + [run, sleep, wait];
    }

    static method Blocks(stackTops: seq<U32>) returns (blocks: seq<ThreadBlock>, ghost links: seq<ListNode>)
      ensures |blocks| == |links| == |stackTops|
      ensures forall i :: 0 <= i < |blocks| ==> fresh(blocks[i]) && fresh(links[i])
      ensures forall i :: 0 <= i < |blocks| ==> blocks[i].slot == i && blocks[i].queue == links[i] && links[i].slot == i
      ensures forall i :: 0 <= i < |blocks| ==>
                blocks[i].View() == Thread(Terminated, ZERO_CONTEXT, 0, 0, stackTops[i])
    {
      blocks, links := [], [];
      while |blocks| < |stackTops|
        invariant |blocks| == |links| <= |stackTops|
        invariant forall i :: 0 <= i < |blocks| ==> fresh(blocks[i]) && fresh(links[i])
        invariant forall i :: 0 <= i < |blocks| ==>
                    blocks[i].slot == i && blocks[i].queue == links[i] && links[i].slot == i
        invariant forall i :: 0 <= i < |blocks| ==>
                    blocks[i].View() == Thread(Terminated, ZERO_CONTEXT, 0, 0, stackTops[i])
      {
        var node := new ListNode(|blocks|);
        var block := new ThreadBlock(|blocks|, node, stackTops[|blocks|]);
        blocks, links := blocks + [block], links + [node];
      }
    }

    // ------------------------------------------------------------ queue operations on threads

    /** The thread that contains the node: subtracting the offset of the `queue` member. */
    method ThreadFromQueue(node: ListNode?) returns (t: ThreadBlock?)
      requires Layout() && (node != null ==> node.slot <= IDLE && node == nodes[node.slot])
      ensures node == null ==> t == null
      ensures node != null ==> t in threads && t.slot == node.slot && t.queue == node
    {
      if node == null {
        return null;
      }
      t := threads[node.slot];
    }

    ghost predicate SlotsOnly(q: seq<nat>) {
      forall k :: 0 <= k < |q| ==> q[k] < NUM_THREADS
    }

    ghost predicate IsHead(head: ListNode)
      requires Layout()
    {
      exists i :: NUM_THREADS < i < |nodes| && nodes[i] == head
    }

    /** Nodes of different threads, and nodes and heads, are different. */
    lemma NodesApart(head: ListNode, a: seq<nat>, head': ListNode, b: seq<nat>)
      requires Layout() && IsHead(head) && IsHead(head')
      requires SlotsOnly(a) && SlotsOnly(b) && forall t :: t in a ==> t !in b
      ensures
        var c := Cycle(head', NodesOf(b));
        forall i :: 0 <= i < |c| ==> c[i] !in NodesOf(a) && (c[i] == head ==> head == head')
    {
      forall n | n in NodesOf(a)
        ensures n.slot in a && n.slot < NUM_THREADS
      {
        var j :| 0 <= j < |a| && NodesOf(a)[j] == n;
      }
      forall n | n in NodesOf(b)
        ensures n.slot in b && n.slot < NUM_THREADS
      {
        var j :| 0 <= j < |b| && NodesOf(b)[j] == n;
      }
    }

    lemma NodesApartAppend(head: ListNode, a: seq<nat>, t: nat, head': ListNode, b: seq<nat>)
      requires Layout() && IsHead(head) && IsHead(head') && head != head' && t < NUM_THREADS
      requires SlotsOnly(a) && SlotsOnly(b) && forall x :: x in a + [t] ==> x !in b
      ensures
        var c := Cycle(head', NodesOf(b));
        forall i :: 0 <= i < |c| ==> c[i] !in NodesOf(a) && c[i] != head && c[i] != nodes[t]
    {
      assert forall x :: x in a ==> x in a + [t];
      NodesApart(head, a, head', b);
      NodesApart(head, [t], head', b);
      assert NodesOf([t])[0] == nodes[t];
    }

    lemma NodesAppend(head: ListNode, q: seq<nat>, t: nat)
      requires Layout() && IsHead(head) && t < NUM_THREADS && SlotsOnly(q) && t !in q
      ensures NodesOf(q + [t]) == NodesOf(q) + [nodes[t]]
      ensures nodes[t] !in NodesOf(q) && nodes[t] != head
    {
    }

    /** The queue at `head1` shares no node with the one at `head`. */
    ghost predicate Other(head: ListNode, q: seq<nat>, head1: ListNode, q1: seq<nat>)
      requires Layout()
      reads nodes
    {
      && IsHead(head1) && head != head1 && SlotsOnly(q1)
      && (forall x :: x in q ==> x !in q1)
      && QueueRepresented(head1, q1)
    }

    /** Appends thread `t` to the queue at `head`; the other two queues do not notice. */
    method LinkLast(head: ListNode, t: ThreadBlock, ghost q: seq<nat>,
                    ghost head1: ListNode, ghost q1: seq<nat>, ghost head2: ListNode, ghost q2: seq<nat>)
      requires Layout() && IsHead(head) && SlotsOnly(q) && QueueRepresented(head, q)
      requires t.slot < NUM_THREADS && t == threads[t.slot] && t.slot !in q
      requires Other(head, q + [t.slot], head1, q1) && Other(head, q + [t.slot], head2, q2)
      modifies nodes
      ensures QueueRepresented(head, q + [t.slot]) && QueueRepresented(head1, q1) && QueueRepresented(head2, q2)
    {
      NodesAppend(head, q, t.slot);
      NodesApartAppend(head, q, t.slot, head1, q1);
      NodesApartAppend(head, q, t.slot, head2, q2);
      AddLast(head, t.queue, NodesOf(q));
      assert IsList(head1, NodesOf(q1));
      assert IsList(head2, NodesOf(q2));
    }

    lemma NodesTail(q: seq<nat>)
      requires Layout() && SlotsOnly(q) && q != []
      ensures NodesOf(q[1..]) == NodesOf(q)[1..]
    {
    }

    lemma NodesDelete(q: seq<nat>, k: nat)
      requires Layout() && SlotsOnly(q) && NoDup(q) && k < |q|
      ensures nodes[q[k]] in NodesOf(q)
      ensures forall j :: 0 <= j < |q| && NodesOf(q)[j] == nodes[q[k]] ==> j == k
      ensures NodesOf(q[..k] + q[k + 1..]) == NodesOf(q)[..k] + NodesOf(q)[k + 1..]
    {
      assert NodesOf(q)[k] == nodes[q[k]];
      forall j | 0 <= j < |q| && NodesOf(q)[j] == nodes[q[k]]
        ensures j == k
      {
        assert nodes[q[j]].slot == q[j];
      }
    }

    method UnlinkFirst(head: ListNode, ghost q: seq<nat>,
                       ghost head1: ListNode, ghost q1: seq<nat>, ghost head2: ListNode, ghost q2: seq<nat>)
      returns (node: ListNode?)
      requires Layout() && IsHead(head) && SlotsOnly(q) && QueueRepresented(head, q)
      requires Other(head, q, head1, q1) && Other(head, q, head2, q2)
      modifies nodes
      ensures q == [] ==> node == null && QueueRepresented(head, q)
      ensures q != [] ==> node == nodes[q[0]] && QueueRepresented(head, q[1..])
      ensures QueueRepresented(head1, q1) && QueueRepresented(head2, q2)
    {
      NodesApart(head, q, head1, q1);
      NodesApart(head, q, head2, q2);
      node := RemoveFirst(head, NodesOf(q));
      assert IsList(head1, NodesOf(q1));
      assert IsList(head2, NodesOf(q2));
      if q != [] {
        NodesTail(q);
      }
    }

    method UnlinkThread(head: ListNode, t: ThreadBlock, ghost q: seq<nat>, ghost k: nat,
                        ghost head1: ListNode, ghost q1: seq<nat>, ghost head2: ListNode, ghost q2: seq<nat>)
      requires Layout() && IsHead(head) && SlotsOnly(q) && QueueRepresented(head, q)
      requires k < |q| && q[k] == t.slot && t == threads[t.slot] && NoDup(q)
      requires Other(head, q, head1, q1) && Other(head, q, head2, q2)
      modifies nodes
      ensures QueueRepresented(head, q[..k] + q[k + 1..])
      ensures QueueRepresented(head1, q1) && QueueRepresented(head2, q2)
    {
      NodesApart(head, q, head1, q1);
      NodesApart(head, q, head2, q2);
      NodesDelete(q, k);
      var found;
      ghost var j;
      found, j := Remove(head, t.queue, NodesOf(q));
      assert IsList(head1, NodesOf(q1));
      assert IsList(head2, NodesOf(q2));
    }

    lemma Heads()
      requires Layout()
      ensures IsHead(runQueue) && IsHead(sleepQueue) && IsHead(uartWaitQueue)
      ensures runQueue != sleepQueue && runQueue != uartWaitQueue && sleepQueue != uartWaitQueue
    {
      assert nodes[IDLE + 1] == runQueue && nodes[IDLE + 2] == sleepQueue && nodes[IDLE + 3] == uartWaitQueue;
    }

    /** `t` is a table thread that is in none of the queues. */
    ghost predicate Detached(t: ThreadBlock)
      requires Layout()
      reads this`s
    {
      t.slot < NUM_THREADS && t == threads[t.slot] && t.slot !in s.run && t.slot !in s.sleep && t.slot !in s.wait
    }

    method LinkRun(t: ThreadBlock, ghost run: seq<nat>, ghost sleep: seq<nat>, ghost wait: seq<nat>)
      requires Layout() && Queues(run, sleep, wait)
      requires t.slot < NUM_THREADS && t == threads[t.slot] && t.slot !in run && t.slot !in sleep && t.slot !in wait
      modifies nodes
      ensures Queues(run + [t.slot], sleep, wait)
    {
      Heads();
      LinkLast(runQueue, t, run, sleepQueue, sleep, uartWaitQueue, wait);
    }

    method AddToRun(t: ThreadBlock)
      requires Represents() && Detached(t)
      modifies this`s, nodes
      ensures Represents() && s == old(s).(run := old(s).run + [t.slot])
    {
      LinkRun(t, s.run, s.sleep, s.wait);
      s := s.(run := s.run + [t.slot]);
      assert Shaped(s) && ScalarsRepresented();
    }

    method LinkSleep(t: ThreadBlock, ghost run: seq<nat>, ghost sleep: seq<nat>, ghost wait: seq<nat>)
      requires Layout() && Queues(run, sleep, wait)
      requires t.slot < NUM_THREADS && t == threads[t.slot] && t.slot !in run && t.slot !in sleep && t.slot !in wait
      modifies nodes
      ensures Queues(run, sleep + [t.slot], wait)
    {
      Heads();
      LinkLast(sleepQueue, t, sleep, runQueue, run, uartWaitQueue, wait);
    }

    method AddToSleep(t: ThreadBlock)
      requires Represents() && Detached(t)
      modifies this`s, nodes
      ensures Represents() && s == old(s).(sleep := old(s).sleep + [t.slot])
    {
      LinkSleep(t, s.run, s.sleep, s.wait);
      s := s.(sleep := s.sleep + [t.slot]);
      assert Shaped(s) && ScalarsRepresented();
    }

    method LinkWait(t: ThreadBlock, ghost run: seq<nat>, ghost sleep: seq<nat>, ghost wait: seq<nat>)
      requires Layout() && Queues(run, sleep, wait)
      requires t.slot < NUM_THREADS && t == threads[t.slot] && t.slot !in run && t.slot !in sleep && t.slot !in wait
      modifies nodes
      ensures Queues(run, sleep, wait + [t.slot])
    {
      Heads();
      LinkLast(uartWaitQueue, t, wait, runQueue, run, sleepQueue, sleep);
    }

    method AddToWait(t: ThreadBlock)
      requires Represents() && Detached(t)
      modifies this`s, nodes
      ensures Represents() && s == old(s).(wait := old(s).wait + [t.slot])
    {
      LinkWait(t, s.run, s.sleep, s.wait);
      s := s.(wait := s.wait + [t.slot]);
      assert Shaped(s) && ScalarsRepresented();
    }

    // ------------------------------------------------------------ scheduler

    lemma FreeSlotIs(ts: seq<Thread>, i: nat, r: nat)
      requires |ts| == NUM_THREADS + 1 && i <= r <= NUM_THREADS
      requires forall j :: i <= j < r ==> ts[j].status != Terminated
      requires r < NUM_THREADS ==> ts[r].status == Terminated
      ensures FreeSlot(ts, i) == r
      decreases r - i
    {
    }

    method FindFreeThreadId() returns (ok: bool, id: nat)
      requires Represents()
      ensures ok <==> FreeSlot(s.threads, 0) < NUM_THREADS
      ensures ok ==> id == FreeSlot(s.threads, 0)
    {
      id := 0;
      while id < NUM_THREADS && threads[id].status != Terminated
        invariant id <= NUM_THREADS
        invariant forall j :: 0 <= j < id ==> s.threads[j].status != Terminated
      {
        assert threads[id].View() == s.threads[id];
        id := id + 1;
      }
      assert threads[id].View() == s.threads[id];
      FreeSlotIs(s.threads, 0, id);
      ok := id < NUM_THREADS;
    }

    method InitThread(t: ThreadBlock, fn: U32, argSize: U32)
      requires Represents() && t in threads
      modifies this`s, t
      ensures Represents()
      ensures s == SetThread(old(s), t.slot, Initialised(old(s).threads[t.slot], fn, argSize, old(s).entry))
    {
      assert threads[t.slot] == t && t.View() == s.threads[t.slot];
      t.Init(fn, argSize, entry);
      s := SetThread(s, t.slot, t.View());
      assert Shaped(s) && ScalarsRepresented();
    }

    method ClearContext(t: ThreadBlock)
      requires Represents() && t in threads
      modifies this`s, t
      ensures Represents() && s == SetThread(old(s), t.slot, old(s).threads[t.slot].(context := ZERO_CONTEXT))
    {
      assert threads[t.slot] == t && t.View() == s.threads[t.slot];
      t.id := t.slot;
      t.context := ZERO_CONTEXT;
      s := SetThread(s, t.slot, t.View());
      assert Shaped(s) && ScalarsRepresented();
    }

    lemma SetTwice(st: State, i: nat, a: Thread, b: Thread)
      requires Shaped(st) && i <= IDLE
      ensures SetThread(SetThread(st, i, a), i, b) == SetThread(st, i, b)
    {
    }

    method FillSlot(t: ThreadBlock, fn: U32, argSize: U32)
      requires Represents() && Detached(t)
      modifies this`s, nodes, t
      ensures Represents() && s == CreateIn(old(s), t.slot, fn, argSize)
    {
      ghost var cleared := s.threads[t.slot].(context := ZERO_CONTEXT);
      SetTwice(s, t.slot, cleared, Initialised(cleared, fn, argSize, s.entry));
      ClearContext(t);
      InitThread(t, fn, argSize);
      AddToRun(t);
    }

    method SchedulerThreadCreate(fn: U32, argSize: U32)
      requires Represents() && Partitioned(s)
      modifies this`s, nodes, threads
      ensures Represents() && s == Create(old(s), fn, argSize)
    {
      ghost var after := Create(s, fn, argSize);
      var ok, id := FindFreeThreadId();
      if ok {
        assert s.threads[id].status == Terminated;
        assert after == CreateIn(s, id, fn, argSize);
        FillSlot(threads[id], fn, argSize);
      }
      assert s == after;
    }

    method UnlinkFirstRun(ghost run: seq<nat>, ghost sleep: seq<nat>, ghost wait: seq<nat>) returns (node: ListNode?)
      requires Layout() && Queues(run, sleep, wait)
      modifies nodes
      ensures run == [] ==> node == null && Queues(run, sleep, wait)
      ensures run != [] ==> node == nodes[run[0]] && Queues(run[1..], sleep, wait)
    {
      Heads();
      node := UnlinkFirst(runQueue, run, sleepQueue, sleep, uartWaitQueue, wait);
    }

    method PopRunNode() returns (node: ListNode?)
      requires Represents()
      modifies this`s, nodes
      ensures Represents() && s == PopRun(old(s))
      ensures node == if old(s).run == [] then null else nodes[old(s).run[0]]
    {
      node := UnlinkFirstRun(s.run, s.sleep, s.wait);
      s := PopRun(s);
      assert Shaped(s) && ScalarsRepresented();
    }

    method GetNextThread() returns (t: ThreadBlock)
      requires Represents()
      modifies this`s, nodes
      ensures Represents() && s == PopRun(old(s)) && t == threads[NextThread(old(s))]
    {
      var node := PopRunNode();
      if node == null {
        return threads[IDLE];
      }
      var block := ThreadFromQueue(node);
      t := block;
    }

    /** The banked registers the handlers read and write are those of user mode. */
    function ReadSpMode(mode: Byte): U32
      requires mode == MODE_USR || mode == MODE_SYS
      reads this`spUsr
    {
      spUsr
    }

    function ReadLrMode(mode: Byte): U32
      requires mode == MODE_USR || mode == MODE_SYS
      reads this`lrUsr
    {
      lrUsr
    }

    method WriteSpMode(mode: Byte, sp: U32)
      requires mode == MODE_USR || mode == MODE_SYS
      modifies this`spUsr
      ensures spUsr == sp
    {
      spUsr := sp;
    }

    method WriteLrMode(mode: Byte, lr: U32)
      requires mode == MODE_USR || mode == MODE_SYS
      modifies this`lrUsr
      ensures lrUsr == lr
    {
      lrUsr := lr;
    }

    /** The bare `msr spsr`: bits 23 to 8 stay. */
    method WriteSpsr(value: Psr)
      modifies this`spsr
      ensures spsr == WrittenPsr(old(spsr), value)
    {
      spsr := Psr(value.flags, spsr.middle, value.control);
    }

    method SaveThreadContext(t: ThreadBlock)
      requires Represents() && inHandler && t in threads && InUserMode(s.cpu)
      modifies this`s, t
      ensures Represents() && s == SetThread(old(s), t.slot, old(s).threads[t.slot].(context := old(s).cpu))
    {
      assert threads[t.slot] == t && t.View() == s.threads[t.slot];
      t.context := Context(
        Regs(frame.r0, frame.r1, frame.r2, frame.r3, frame.r4, frame.r5, frame.r6,
             frame.r7, frame.r8, frame.r9, frame.r10, frame.r11, frame.r12),
        Wrap(frame.pc + 4),
        ReadLrMode(ModeOf(spsr)),
        ReadSpMode(ModeOf(spsr)),
        spsr);
      s := SetThread(s, t.slot, t.View());
      assert Shaped(s) && ScalarsRepresented();
    }

    method SetStatus(t: ThreadBlock, status: Status)
      requires Represents() && t in threads
      modifies this`s, t`status
      ensures Represents() && s == SetThread(old(s), t.slot, old(s).threads[t.slot].(status := status))
    {
      assert threads[t.slot] == t && t.View() == s.threads[t.slot];
      t.status := status;
      s := SetThread(s, t.slot, t.View());
      assert Shaped(s) && ScalarsRepresented();
    }

    /** Overwrites what the trampoline will restore with the context `c`, except the middle status bits. */
    method LoadContext(c: Context)
      requires InUserMode(c)
      modifies this`spUsr, this`lrUsr, this`spsr, frame
      ensures ReturnState() == Restored(old(spsr), c)
    {
      frame.Load(c);
      WriteLrMode(ModeOf(c.cpsr), c.lr);
      WriteSpMode(ModeOf(c.cpsr), c.sp);
      WriteSpsr(c.cpsr);
      SwitchReturns(c.pc);
    }

    method ReplaceIrqContext(t: ThreadBlock)
      requires Represents() && inHandler && t in threads && InUserMode(t.context)
      modifies this`s, this`spUsr, this`lrUsr, this`spsr, frame
      ensures Represents() && s == old(s).(cpu := Restored(old(s).cpu.cpsr, old(s).threads[t.slot].context))
    {
      assert threads[t.slot] == t && t.View() == s.threads[t.slot];
      LoadContext(t.context);
      s := s.(cpu := Restored(s.cpu.cpsr, t.context));
    }

    /** `running_thread` as a non-null pointer. */
    method Running() returns (t: ThreadBlock)
      requires Represents() && inHandler
      ensures t == threads[s.running] && t.slot == s.running
    {
      t := running;
    }

    method SaveCurrent(status: Status)
      requires Represents() && inHandler && InUserMode(s.cpu)
      modifies this`s, threads
      ensures Represents() && s == KernelModel.SaveCurrent(old(s), status)
    {
      var t := Running();
      ghost var before := s;
      SetStatus(t, status);
      SaveThreadContext(t);
      SetTwice(before, t.slot, before.threads[t.slot].(status := status),
               before.threads[t.slot].(status := status, context := before.cpu));
    }

    method RunNext(t: ThreadBlock)
      requires Represents() && inHandler && t in threads && InUserMode(t.context)
      modifies this`s, this`running, this`spUsr, this`lrUsr, this`spsr, threads, frame
      ensures Represents() && s == KernelModel.RunNext(old(s), t.slot)
    {
      SetStatus(t, Status.Running);
      SetRunning(t);
      ReplaceIrqContext(t);
    }

    method SetRunning(t: ThreadBlock)
      requires Represents() && t in threads
      modifies this`s, this`running
      ensures Represents() && running == t && s == old(s).(running := t.slot)
    {
      assert threads[t.slot] == t;
      running := t;
      s := s.(running := t.slot);
      assert Shaped(s) && ScalarsRepresented();
    }

    /** A sleeper at position `d` of the sleep queue wakes up. */
    method WakeSleeper(t: ThreadBlock, ghost d: nat)
      requires Represents() && NoDup(s.sleep) && d < |s.sleep| && t.slot == s.sleep[d] && t == threads[t.slot]
      modifies this`s, nodes, t`status
      ensures Represents()
      ensures
        s == SetThread(old(s), t.slot, old(s).threads[t.slot].(status := Ready)).(
          sleep := old(s).sleep[..d] + old(s).sleep[d + 1..], run := old(s).run + [t.slot])
    {
      RemoveSleeper(t, d);
      AddToRun(t);
      SetStatus(t, Ready);
    }

    method UnlinkSleep(
        t: ThreadBlock, ghost d: nat, ghost run: seq<nat>, ghost sleep: seq<nat>, ghost wait: seq<nat>)
      requires Layout() && Queues(run, sleep, wait)
      requires NoDup(sleep) && d < |sleep| && t.slot == sleep[d] && t == threads[t.slot]
      modifies nodes
      ensures Queues(run, sleep[..d] + sleep[d + 1..], wait)
    {
      Heads();
      DeletedElement(sleep, d);
      UnlinkThread(sleepQueue, t, sleep, d, runQueue, run, uartWaitQueue, wait);
    }

    method RemoveSleeper(t: ThreadBlock, ghost d: nat)
      requires Represents() && NoDup(s.sleep) && d < |s.sleep| && t.slot == s.sleep[d] && t == threads[t.slot]
      modifies this`s, nodes
      ensures Represents() && Detached(t)
      ensures s == old(s).(sleep := old(s).sleep[..d] + old(s).sleep[d + 1..])
    {
      DeletedElement(s.sleep, d);
      UnlinkSleep(t, d, s.run, s.sleep, s.wait);
      s := s.(sleep := s.sleep[..d] + s.sleep[d + 1..]);
      assert Shaped(s) && ScalarsRepresented();
    }

    method DecrementCounter(t: ThreadBlock)
      requires Represents() && t in threads && t.sleepCounter != 0
      modifies this`s, t`sleepCounter
      ensures Represents()
      ensures
        var v := old(s).threads[t.slot];
        v.sleepCounter != 0 && s == SetThread(old(s), t.slot, v.(sleepCounter := v.sleepCounter - 1))
    {
      assert threads[t.slot] == t && t.View() == s.threads[t.slot];
      t.sleepCounter := t.sleepCounter - 1;
      s := SetThread(s, t.slot, t.View());
      assert Shaped(s) && ScalarsRepresented();
    }

    /** The node behind the one at position d of the sleep queue, possibly the head. */
    method NextNode(cur: ListNode, ghost d: nat) returns (next: ListNode)
      requires Represents() && d < |s.sleep| && cur == nodes[s.sleep[d]]
      ensures next == if d + 1 < |s.sleep| then nodes[s.sleep[d + 1]] else sleepQueue
    {
      ghost var c := Cycle(sleepQueue, NodesOf(s.sleep));
      assert c[d + 1] == NodesOf(s.sleep)[d] && c[d + 1].next == c[d + 2];
      next := cur.next;
    }

    method FirstSleeper() returns (next: ListNode)
      requires Represents()
      ensures next == if s.sleep != [] then nodes[s.sleep[0]] else sleepQueue
    {
      ghost var c := Cycle(sleepQueue, NodesOf(s.sleep));
      assert c[0] == sleepQueue && c[0].next == c[1];
      next := sleepQueue.next;
    }

    method WakeVisited(t: ThreadBlock, ghost before: State, ghost k: nat)
      requires Shaped(before) && NoDup(before.sleep) && k < |before.sleep|
      requires Represents() && s == HalfTicked(before, k)
      requires t.slot == before.sleep[k] && t == threads[t.slot] && before.threads[t.slot].sleepCounter == 0
      modifies this`s, nodes, t`status
      ensures Represents() && s == HalfTicked(before, k + 1)
    {
      NextSleeper(before, k);
      WakeNext(before, k);
      WakeSleeper(t, Kept(before, k));
    }

    method KeepVisited(t: ThreadBlock, ghost before: State, ghost k: nat)
      requires Shaped(before) && NoDup(before.sleep) && k < |before.sleep|
      requires Represents() && s == HalfTicked(before, k)
      requires t.slot == before.sleep[k] && t == threads[t.slot] && before.threads[t.slot].sleepCounter != 0
      requires t.sleepCounter != 0
      modifies this`s, t`sleepCounter
      ensures Represents() && s == HalfTicked(before, k + 1)
    {
      NextSleeper(before, k);
      KeepNext(before, k);
      DecrementCounter(t);
    }

    /** The node behind the k-th sleeper's. */
    method NextVisited(cur: ListNode, ghost before: State, ghost k: nat) returns (next: ListNode)
      requires Shaped(before) && NoDup(before.sleep) && k < |before.sleep|
      requires Represents() && s == HalfTicked(before, k)
      requires cur == nodes[before.sleep[k]]
      ensures next == if k + 1 < |before.sleep| then nodes[before.sleep[k + 1]] else sleepQueue
      ensures threads[cur.slot].sleepCounter == before.threads[before.sleep[k]].sleepCounter
    {
      NextSleeper(before, k);
      next := NextNode(cur, Kept(before, k));
      assert threads[cur.slot].View() == s.threads[cur.slot];
    }

    /** One round of the traversal: `cur` is the next sleeper's node. */
    method VisitSleeper(cur: ListNode, ghost before: State, ghost k: nat) returns (next: ListNode)
      requires Shaped(before) && NoDup(before.sleep) && k < |before.sleep|
      requires Represents() && s == HalfTicked(before, k)
      requires cur == nodes[before.sleep[k]]
      modifies this`s, nodes, threads
      ensures Represents() && s == HalfTicked(before, k + 1)
      ensures next == if k + 1 < |before.sleep| then nodes[before.sleep[k + 1]] else sleepQueue
    {
      next := NextVisited(cur, before, k);
      var t := ThreadFromQueue(cur);
      if t.sleepCounter == 0 {
        WakeVisited(t, before, k);
      } else {
        KeepVisited(t, before, k);
      }
    }

    /** The list is changed while it is traversed; each original sleeper is visited exactly once. */
    method SchedulerUpdateSleepers()
      requires Represents() && NoDup(s.sleep)
      modifies this`s, nodes, threads
      ensures Represents() && s == UpdateSleepers(old(s))
    {
      ghost var before, k := s, 0;
      TraversalStarts(before);
      var cur := FirstSleeper();
      while cur != sleepQueue
        invariant k <= |before.sleep|
        invariant Represents() && s == HalfTicked(before, k)
        invariant cur == if k < |before.sleep| then nodes[before.sleep[k]] else sleepQueue
        decreases |before.sleep| - k
      {
        cur := VisitSleeper(cur, before, k);
        k := k + 1;
      }
      TraversalEnds(before);
    }

    method SchedulerTickFromIrq()
      requires Represents() && inHandler && Orderly()
      modifies this`s, this`running, this`spUsr, this`lrUsr, this`spsr, nodes, threads, frame
      ensures Represents() && s == Tick(old(s))
    {
      if !isRunning {
        return;
      }
      UpdateSleepersKeepsInv(s);
      SchedulerUpdateSleepers();
      SwitchThread();
    }

    method RequeueRunning()
      requires Represents() && inHandler && Partitioned(s)
      modifies this`s, nodes
      ensures Represents() && s == Requeue(old(s))
    {
      var t := Running();
      if t != threads[IDLE] {
        RunningInNoQueue(s);
        AddToRun(t);
      }
    }

    method SwitchTo(next: ThreadBlock)
      requires Represents() && inHandler && next in threads
      requires InUserMode(s.cpu) && next.slot != s.running && InUserMode(s.threads[next.slot].context)
      modifies this`s, this`running, this`spUsr, this`lrUsr, this`spsr, threads, frame
      ensures Represents() && s == KernelModel.RunNext(KernelModel.SaveCurrent(old(s), Ready), next.slot)
    {
      SaveCurrent(Ready);
      assert next.View() == s.threads[next.slot];
      RunNext(next);
    }

    method PickNext() returns (next: ThreadBlock)
      requires Represents() && inHandler && Orderly()
      modifies this`s, nodes
      ensures Represents() && s == PopRun(Requeue(old(s))) && next == threads[NextThread(Requeue(old(s)))]
      ensures next.slot != s.running ==> InUserMode(s.cpu) && InUserMode(s.threads[next.slot].context)
    {
      NextInUserMode(s);
      RequeueRunning();
      next := GetNextThread();
    }

    /** The part of the tick after the sleepers were updated. */
    method SwitchThread()
      requires Represents() && inHandler && Orderly()
      modifies this`s, this`running, this`spUsr, this`lrUsr, this`spsr, nodes, threads, frame
      ensures Represents() && s == Preempt(old(s))
    {
      var next := PickNext();
      if next != running {
        SwitchTo(next);
      }
    }

    /** `scheduler_run_next(scheduler_get_next_thread())`. */
    method DispatchNext()
      requires Represents() && inHandler && InUserMode(s.threads[NextThread(s)].context)
      modifies this`s, this`running, this`spUsr, this`lrUsr, this`spsr, nodes, threads, frame
      ensures Represents() && s == Dispatch(old(s))
    {
      var next := GetNextThread();
      assert next.View() == s.threads[next.slot];
      RunNext(next);
    }

    method SchedulerThreadTerminateRunningFromIrq()
      requires Represents() && inHandler && Orderly()
      modifies this`s, this`running, this`spUsr, this`lrUsr, this`spsr, nodes, threads, frame
      ensures Represents() && s == Terminate(old(s))
    {
      var t := Running();
      NextAfterVacating(s, s.threads[s.running].(status := Terminated), s.sleep, s.wait);
      SetStatus(t, Terminated);
      DispatchNext();
    }

    method SetSleepCounter(t: ThreadBlock, cycles: U32)
      requires Represents() && t in threads
      modifies this`s, t`sleepCounter
      ensures Represents() && s == SetThread(old(s), t.slot, old(s).threads[t.slot].(sleepCounter := cycles))
    {
      assert threads[t.slot] == t && t.View() == s.threads[t.slot];
      t.sleepCounter := cycles;
      s := SetThread(s, t.slot, t.View());
      assert Shaped(s) && ScalarsRepresented();
    }

    /** The sleeping thread is saved and queued; the processor is free. */
    method SuspendSleeper(cycles: U32)
      requires Represents() && inHandler && Orderly() && s.running < IDLE
      modifies this`s, nodes, threads
      ensures Represents()
      ensures
        var v := old(s).threads[old(s).running].(status := Sleeping, sleepCounter := cycles, context := old(s).cpu);
        s == SetThread(old(s), old(s).running, v).(sleep := old(s).sleep + [old(s).running])
      ensures InUserMode(s.threads[NextThread(s)].context)
    {
      NextAfterVacating(s, s.threads[s.running].(status := Sleeping, sleepCounter := cycles, context := s.cpu),
                        s.sleep + [s.running], s.wait);
      RunningInNoQueue(s);
      var t := Running();
      SaveSleeper(t, cycles);
      AddToSleep(t);
    }

    method SaveSleeper(t: ThreadBlock, cycles: U32)
      requires Represents() && inHandler && InUserMode(s.cpu) && t == threads[s.running] && t.slot == s.running
      modifies this`s, threads
      ensures Represents()
      ensures
        var v := old(s).threads[t.slot].(status := Sleeping, sleepCounter := cycles, context := old(s).cpu);
        s == SetThread(old(s), t.slot, v)
    {
      ghost var v := s.threads[t.slot].(sleepCounter := cycles);
      SetTwice(s, t.slot, v, v.(status := Sleeping, context := s.cpu));
      SetSleepCounter(t, cycles);
      SaveCurrent(Sleeping);
    }

    method SchedulerSleepRunningFromIrq(cycles: U32)
      requires Represents() && inHandler && Orderly() && s.running < IDLE
      modifies this`s, this`running, this`spUsr, this`lrUsr, this`spsr, nodes, threads, frame
      ensures Represents() && s == Sleep(old(s), cycles)
    {
      SuspendSleeper(cycles);
      DispatchNext();
    }

    method SuspendWaiter()
      requires Represents() && inHandler && Orderly() && s.running < IDLE
      modifies this`s, nodes, threads
      ensures Represents()
      ensures
        var v := old(s).threads[old(s).running].(status := Waiting, context := old(s).cpu);
        s == SetThread(old(s), old(s).running, v).(wait := old(s).wait + [old(s).running])
      ensures InUserMode(s.threads[NextThread(s)].context)
    {
      NextAfterVacating(s, s.threads[s.running].(status := Waiting, context := s.cpu), s.sleep, s.wait + [s.running]);
      var t := Running();
      RunningInNoQueue(s);
      SaveCurrent(Waiting);
      AddToWait(t);
    }

    method SchedulerWaitRunningFromIrq()
      requires Represents() && inHandler && Orderly() && s.running < IDLE
      modifies this`s, this`running, this`spUsr, this`lrUsr, this`spsr, nodes, threads, frame
      ensures Represents() && s == Wait(old(s))
    {
      SuspendWaiter();
      DispatchNext();
    }

    method SchedulerPrepareSvcReturn(value: U32)
      requires Represents() && inHandler
      modifies this`s, frame
      ensures Represents() && s == SvcReturn(old(s), value)
    {
      frame.r0 := value;
      s := s.(cpu := s.cpu.(regs := s.cpu.regs.(r0 := value)));
    }

    method UnlinkFirstWait(ghost run: seq<nat>, ghost sleep: seq<nat>, ghost wait: seq<nat>) returns (node: ListNode?)
      requires Layout() && Queues(run, sleep, wait)
      modifies nodes
      ensures wait == [] ==> node == null && Queues(run, sleep, wait)
      ensures wait != [] ==> node == nodes[wait[0]] && Queues(run, sleep, wait[1..])
    {
      Heads();
      node := UnlinkFirst(uartWaitQueue, wait, runQueue, run, sleepQueue, sleep);
    }

    method PopWaitNode() returns (node: ListNode?)
      requires Represents()
      modifies this`s, nodes
      ensures Represents()
      ensures old(s).wait == [] ==> node == null && s == old(s)
      ensures old(s).wait != [] ==> node == nodes[old(s).wait[0]] && s == old(s).(wait := old(s).wait[1..])
    {
      node := UnlinkFirstWait(s.run, s.sleep, s.wait);
      if node != null {
        s := s.(wait := s.wait[1..]);
        assert Shaped(s) && ScalarsRepresented();
      }
    }

    /** `list_remove_first(uart_wait_queue)`, as a thread. */
    method TakeWaiter() returns (t: ThreadBlock?)
      requires Represents() && Partitioned(s)
      modifies this`s, nodes
      ensures Represents()
      ensures old(s).wait == [] ==> t == null && s == old(s)
      ensures old(s).wait != [] ==>
                && t == threads[old(s).wait[0]] && Detached(t) && t.status == Waiting
                && s == old(s).(wait := old(s).wait[1..])
    {
      var node := PopWaitNode();
      t := ThreadFromQueue(node);
      if t != null {
        assert t.View() == s.threads[t.slot];
      }
    }

    method SetR0(t: ThreadBlock, value: U32)
      requires Represents() && t in threads
      modifies this`s, t`context
      ensures Represents()
      ensures
        var v := old(s).threads[t.slot];
        s == SetThread(old(s), t.slot, v.(context := v.context.(regs := v.context.regs.(r0 := value))))
    {
      assert threads[t.slot] == t && t.View() == s.threads[t.slot];
      t.context := t.context.(regs := t.context.regs.(r0 := value));
      s := SetThread(s, t.slot, t.View());
      assert Shaped(s) && ScalarsRepresented();
    }

    method WakeWaiter(t: ThreadBlock, value: U32)
      requires Represents() && Detached(t)
      modifies this`s, nodes, t
      ensures Represents()
      ensures
        var v := old(s).threads[t.slot];
        var c := v.context.(regs := v.context.regs.(r0 := value));
        s == SetThread(old(s), t.slot, v.(status := Ready, context := c)).(
          run := old(s).run + [t.slot])
    {
      ghost var c := s.threads[t.slot].context;
      ghost var v := s.threads[t.slot].(context := c.(regs := c.regs.(r0 := value)));
      SetTwice(s, t.slot, v, v.(status := Ready));
      SetR0(t, value);
      SetStatus(t, Ready);
      AddToRun(t);
    }

    /** Whether a thread was waiting.  The kernel would spin if a waiter were running; none ever is. */
    method SchedulerNotifyOneFromIrq(value: U32) returns (ok: bool)
      requires Represents() && Partitioned(s)
      modifies this`s, nodes, threads
      ensures Represents()
      ensures ok <==> old(s).wait != []
      ensures s == if ok then Notify(old(s), value) else old(s)
    {
      var t := TakeWaiter();
      if t == null {
        return false;
      }
      if t.status == Status.Running {
        assert false;
      }
      WakeWaiter(t, value);
      ok := true;
    }

    // ------------------------------------------------------------ serial port

    method BufferByte(c: Byte)
      requires Represents()
      modifies this`s, uartRing, uartRing.buffer
      ensures Represents()
      ensures s == if |old(s).ring| < UART_INPUT_BUFFER_SIZE then old(s).(ring := old(s).ring + [c]) else old(s)
    {
      var full := uartRing.Putc(c);
      s := s.(ring := uartRing.contents);
      assert Shaped(s) && ScalarsRepresented();
    }

    method UartReceive(c: Byte)
      requires Represents() && Orderly()
      modifies this`s, nodes, threads, uartRing, uartRing.buffer
      ensures Represents() && s == ReceiveByte(old(s), c)
    {
      var ok := SchedulerNotifyOneFromIrq(c);
      if !ok {
        BufferByte(c);
      }
    }

    /** Drains the receive register; `received` is what it yields until it is empty. */
    method UartHandleIrq(received: seq<Byte>)
      requires Represents() && Orderly()
      modifies this`s, nodes, threads, uartRing, uartRing.buffer
      ensures Represents() && Orderly() && s == Receive(old(s), received)
    {
      var i := 0;
      while i < |received|
        invariant i <= |received|
        invariant Represents() && Orderly()
        invariant Receive(old(s), received) == Receive(s, received[i..])
      {
        ReceiveByteKeepsInv(s, received[i]);
        assert received[i..][1..] == received[i + 1..];
        UartReceive(received[i]);
        i := i + 1;
      }
    }

    method TakeByte() returns (c: Byte)
      requires Represents() && s.ring != []
      modifies this`s, uartRing
      ensures Represents() && c == old(s).ring[0] && s == old(s).(ring := old(s).ring[1..])
    {
      c := uartRing.Getc();
      s := s.(ring := s.ring[1..]);
      assert Shaped(s) && ScalarsRepresented();
    }

    method UartUserGetc()
      requires Represents() && inHandler && Orderly() && s.running < IDLE
      modifies this`s, this`running, this`spUsr, this`lrUsr, this`spsr, nodes, threads, frame, uartRing
      ensures Represents() && s == Getc(old(s))
    {
      var empty := uartRing.IsEmpty();
      if empty {
        SchedulerWaitRunningFromIrq();
        return;
      }
      var c := TakeByte();
      SchedulerPrepareSvcReturn(c);
    }

    method UartPutc(c: Byte)
      requires Represents()
      modifies this`s, this`console
      ensures Represents() && s == old(s).(console := old(s).console + [c])
    {
      console := console + [c];
      s := s.(console := console);
    }

    // ------------------------------------------------------------ exception handlers

    /** The system call would be taken again from kernel mode, which halts the machine. */
    method Halt()
      requires Represents()
      modifies this`s, this`halted
      ensures Represents() && s == old(s).(halted := true)
    {
      halted := true;
      s := s.(halted := true);
    }

    method HandleSyscall()
      requires Represents() && inHandler && Orderly() && s.running < IDLE
      modifies this`s, this`running, this`spUsr, this`lrUsr, this`spsr, this`halted, this`console
      modifies nodes, threads, frame, uartRing
      ensures Represents() && s == Syscall(old(s))
    {
      var number := frame.r0;
      if number >= NUM_SYSCALLS {
        SchedulerThreadTerminateRunningFromIrq();
        return;
      }
      match number {
        case SYS_EXIT => SchedulerThreadTerminateRunningFromIrq();
        case SYS_CREATE_THREAD => SchedulerThreadCreate(frame.r1, frame.r3);
        case SYS_GETC => UartUserGetc();
        case SYS_PUTC => UartPutc(frame.r1 % 0x100);
        case SYS_SLEEP => SchedulerSleepRunningFromIrq(frame.r1);
        case SYS_KERNEL_EXIT => Halt();
      }
    }

    method HandleIrq(received: seq<Byte>, tick: bool)
      requires Represents() && inHandler && Orderly()
      modifies this`s, this`running, this`spUsr, this`lrUsr, this`spsr, nodes, threads, frame, uartRing, uartRing.buffer
      ensures Represents()
      ensures s == if tick then Tick(Receive(old(s), received)) else Receive(old(s), received)
    {
      UartHandleIrq(received);
      if tick {
        SchedulerTickFromIrq();
      }
    }

    /** A call from kernel mode would stop the machine; the frame at hand always comes from user mode. */
    method HandleSvc()
      requires Represents() && inHandler && Orderly() && s.running < IDLE
      modifies this`s, this`running, this`spUsr, this`lrUsr, this`spsr, this`halted, this`console
      modifies nodes, threads, frame, uartRing
      ensures Represents() && s == Syscall(old(s))
    {
      if ModeOf(spsr) == MODE_USR {
        HandleSyscall();
      } else {
        assert false;
      }
    }

    /** Undefined instructions, aborts and fast interrupts; one from kernel mode would stop the machine. */
    method HandleFault()
      requires Represents() && inHandler && Orderly()
      modifies this`s, this`running, this`spUsr, this`lrUsr, this`spsr, nodes, threads, frame
      ensures Represents() && s == Terminate(old(s))
    {
      if ModeOf(spsr) == MODE_USR {
        SchedulerThreadTerminateRunningFromIrq();
      } else {
        assert false;
      }
    }

    // ------------------------------------------------------------ exception entry and return

    /** Between exceptions: the represented state satisfies the invariant and a user program runs. */
    ghost predicate Valid()
      reads this, threads, nodes, frame, uartRing, uartRing.buffer
    {
      Represents() && Orderly() && !inHandler && running != null
    }

    method PushFrame(user: Context, kind: Exception)
      requires Represents() && !inHandler && isRunning
      modifies this`spUsr, this`lrUsr, this`spsr, frame
      ensures Represents() && ReturnState() == user.(pc := ReturnPc(FramePc(kind, user.pc)))
    {
      spUsr, lrUsr, spsr := user.sp, user.lr, user.cpsr;
      frame.Push(user.regs, FramePc(kind, user.pc));
    }

    /** The processor's exception entry and the pushes of the vector table. */
    method Enter(user: Context, kind: Exception)
      requires Represents() && !inHandler && isRunning && running != null
      modifies this`s, this`inHandler, this`spUsr, this`lrUsr, this`spsr, frame
      ensures Represents() && inHandler
      ensures s == old(s).(cpu := user.(pc := ReturnPc(FramePc(kind, user.pc))))
    {
      PushFrame(user, kind);
      inHandler := true;
      s := s.(cpu := ReturnState());
    }

    /** The pops and the `movs` of the trampoline: the user program continues with `user`. */
    method Return() returns (user: Context)
      requires Represents() && inHandler
      modifies this`inHandler
      ensures Represents() && !inHandler && user == s.cpu
    {
      user := Context(
        Regs(frame.r0, frame.r1, frame.r2, frame.r3, frame.r4, frame.r5, frame.r6,
             frame.r7, frame.r8, frame.r9, frame.r10, frame.r11, frame.r12),
        Wrap(frame.pc + 4), lrUsr, spUsr, spsr);
      inHandler := false;
    }

    /** Entry for an interrupt or a system call, which will continue at `user.pc`. */
    method EnterHandler(user: Context, kind: Exception)
      requires Valid() && InUserMode(user) && !IsFault(kind)
      modifies this`s, this`inHandler, this`spUsr, this`lrUsr, this`spsr, frame
      ensures Represents() && inHandler && Orderly() && s == old(s).(cpu := user)
    {
      ExceptionReturns(kind, user.pc);
      Enter(user, kind);
    }

    method TakeIrq(user: Context, received: seq<Byte>, tick: bool) returns (next: Context)
      requires Valid() && Enabled(s, Irq(user, received, tick))
      modifies this, nodes, threads, frame, uartRing, uartRing.buffer
      ensures Valid() && s == Step(old(s), Irq(user, received, tick)) && next == s.cpu
    {
      StepKeepsInv(s, Irq(user, received, tick));
      EnterHandler(user, Interrupt);
      HandleIrq(received, tick);
      next := Return();
    }

    method TakeSvc(user: Context) returns (next: Context)
      requires Valid() && Enabled(s, Svc(user))
      modifies this, nodes, threads, frame, uartRing
      ensures Valid() && s == Step(old(s), Svc(user)) && next == s.cpu
    {
      StepKeepsInv(s, Svc(user));
      next := RunSvcHandler(user);
    }

    method RunSvcHandler(user: Context) returns (next: Context)
      requires Valid() && InUserMode(user) && s.running < IDLE
      modifies this, nodes, threads, frame, uartRing
      ensures Represents() && !inHandler && running != null
      ensures s == Syscall(old(s).(cpu := user)) && next == s.cpu
    {
      EnterHandler(user, SupervisorCall);
      HandleSvc();
      next := Return();
    }

    /** Entry for a fault: the frame names the faulting instruction. */
    method EnterFault(user: Context, cause: Exception)
      requires Valid() && InUserMode(user)
      modifies this`s, this`inHandler, this`spUsr, this`lrUsr, this`spsr, frame
      ensures Represents() && inHandler && Orderly() && s == old(s).(cpu := FaultContext(user, cause))
    {
      FaultKeepsInv(s, user, cause);
      Enter(user, cause);
    }

    method RunFaultHandler(user: Context, cause: Exception) returns (next: Context)
      requires Valid() && InUserMode(user)
      modifies this, nodes, threads, frame
      ensures Represents() && !inHandler && running != null
      ensures s == Terminate(old(s).(cpu := FaultContext(user, cause))) && next == s.cpu
    {
      EnterFault(user, cause);
      HandleFault();
      next := Return();
    }

    method TakeFault(user: Context, cause: Exception) returns (next: Context)
      requires Valid() && Enabled(s, Kill(user, cause))
      modifies this, nodes, threads, frame
      ensures Valid() && s == Step(old(s), Kill(user, cause)) && next == s.cpu
    {
      StepKeepsInv(s, Kill(user, cause));
      FaultStep(s, user, FaultContext(user, cause));
      next := RunFaultHandler(user, cause);
    }

    /** One exception of any kind. */
    method TakeException(e: Event) returns (next: Context)
      requires Valid() && Enabled(s, e)
      modifies this, nodes, threads, frame, uartRing, uartRing.buffer
      ensures Valid() && s == Step(old(s), e) && next == s.cpu
    {
      match e
      case Irq(user, received, tick) => next := TakeIrq(user, received, tick);
      case Svc(user) => next := TakeSvc(user);
      case Kill(user, cause) => next := TakeFault(user, cause);
    }

    /** A whole run on the heap, from the register state `user` to the last one. */
    method Execute(user: Context, es: seq<Event>) returns (next: Context)
      requires Valid() && user == s.cpu && ValidRun(s, es)
      modifies this, nodes, threads, frame, uartRing, uartRing.buffer
      ensures Valid() && s == Run(old(s), es) && next == s.cpu
    {
      next := user;
      var i := 0;
      while i < |es|
        invariant i <= |es|
        invariant Valid() && next == s.cpu
        invariant ValidRun(s, es[i..]) && Run(s, es[i..]) == Run(old(s), es)
      {
        assert es[i..][1..] == es[i + 1..];
        next := TakeException(es[i]);
        i := i + 1;
      }
    }

    // ------------------------------------------------------------ starting

    method WriteBank(c: Context)
      requires Represents() && !inHandler && isRunning && InUserMode(c)
      modifies this`spUsr, this`lrUsr, this`spsr
      ensures Represents() && spUsr == c.sp && lrUsr == c.lr && spsr == WrittenPsr(old(spsr), c.cpsr)
    {
      WriteSpMode(ModeOf(c.cpsr), c.sp);
      WriteLrMode(ModeOf(c.cpsr), c.lr);
      WriteSpsr(c.cpsr);
    }

    /** `thread_run`: the registers come from the thread block, not from an exception frame. */
    method ThreadRun(t: ThreadBlock) returns (user: Context)
      requires Represents() && !inHandler && isRunning && t in threads && InUserMode(t.context)
      requires spsr == s.cpu.cpsr
      modifies this`s, this`spUsr, this`lrUsr, this`spsr, t`status
      ensures Represents() && user == Restored(old(s).cpu.cpsr, old(s).threads[t.slot].context)
      ensures s == SetThread(old(s), t.slot, old(s).threads[t.slot].(status := Status.Running)).(cpu := user)
    {
      assert threads[t.slot] == t && t.View() == s.threads[t.slot];
      WriteBank(t.context);
      SetStatus(t, Status.Running);
      user := Context(t.context.regs, t.context.pc, lrUsr, spUsr, spsr);
      s := s.(cpu := user);
    }

    /** `scheduler_run_thread`. */
    method SchedulerRunThread(t: ThreadBlock) returns (user: Context)
      requires Represents() && !inHandler && isRunning && t in threads && InUserMode(s.threads[t.slot].context)
      requires spsr == s.cpu.cpsr
      modifies this, t`status
      ensures Represents() && !inHandler && running != null
      ensures s == KernelModel.RunNext(old(s), t.slot) && user == s.cpu
    {
      assert threads[t.slot] == t && t.View() == s.threads[t.slot];
      SetRunning(t);
      user := ThreadRun(t);
    }

    method SchedulerStart(idleFn: U32) returns (user: Context)
      requires Represents() && !inHandler && !isRunning
      requires s.run != [] ==> InUserMode(s.threads[s.run[0]].context)
      modifies this, nodes, threads
      ensures Represents() && !inHandler && running != null && s == Start(old(s), idleFn) && user == s.cpu
    {
      NextAtStart(s, idleFn);
      InitThread(threads[IDLE], idleFn, 0);
      MarkStarted();
      user := RunFirst();
    }

    /** `scheduler_run_thread(scheduler_get_next_thread())`. */
    method RunFirst() returns (user: Context)
      requires Represents() && !inHandler && isRunning && InUserMode(s.threads[NextThread(s)].context)
      requires spsr == s.cpu.cpsr
      modifies this, nodes, threads
      ensures Represents() && !inHandler && running != null && s == Dispatch(old(s)) && user == s.cpu
    {
      var t := GetNextThread();
      user := SchedulerRunThread(t);
    }

    method MarkStarted()
      requires Represents() && !inHandler && !isRunning
      modifies this`s, this`isRunning
      ensures Represents() && isRunning && s == old(s).(started := true)
    {
      isRunning := true;
      s := s.(started := true);
      assert Shaped(s) && ScalarsRepresented();
    }

    /** The kernel up to the first instruction of the user program. */
    method StartKernel(mainFn: U32, idleFn: U32) returns (user: Context)
      requires Represents() && !inHandler && s == BootState(entry, s.StackTops(), spsr)
      modifies this, nodes, threads
      ensures Valid() && s == InitialState(entry, old(s).StackTops(), old(spsr), mainFn, idleFn) && user == s.cpu
    {
      InitialStateInv(entry, s.StackTops(), spsr, mainFn, idleFn);
      SchedulerThreadCreate(mainFn, 0);
      user := SchedulerStart(idleFn);
    }

    /** From the zeroed memory through boot and any run: the heap represents what `Run` says. */
    static method BootAndExecute(entry: U32, stackTops: seq<U32>, spsr: Psr, mainFn: U32, idleFn: U32, es: seq<Event>)
      returns (kernel: Kernel, user: Context)
      requires |stackTops| == NUM_THREADS + 1
      requires ValidRun(InitialState(entry, stackTops, spsr, mainFn, idleFn), es)
      ensures fresh(kernel) && kernel.Valid() && user == kernel.s.cpu
      ensures kernel.s == Run(InitialState(entry, stackTops, spsr, mainFn, idleFn), es)
    {
      kernel := new Kernel(entry, stackTops, spsr);
      assert kernel.s.StackTops() == stackTops;
      user := kernel.StartKernel(mainFn, idleFn);
      user := kernel.Execute(user, es);
    }
  }

  /** The thread that starts first does so in user mode. */
  lemma NextAtStart(s: State, idleFn: U32)
    requires Shaped(s) && (s.run != [] ==> InUserMode(s.threads[s.run[0]].context))
    ensures
      var r := SetThread(s, IDLE, Initialised(s.threads[IDLE], idleFn, 0, s.entry)).(started := true);
      InUserMode(r.threads[NextThread(r)].context)
  {
  }

  /** What an exception return would establish if the frame of a fault were left alone. */
  function FaultContext(user: Context, cause: Exception): Context {
    user.(pc := ReturnPc(FramePc(cause, user.pc)))
  }

  lemma FaultKeepsInv(s: State, user: Context, cause: Exception)
    requires Inv(s) && InUserMode(user)
    ensures Inv(s.(cpu := FaultContext(user, cause)))
  {
  }

  /** After a fault the registers in the frame are not used again. */
  lemma FaultStep(s: State, user: Context, entered: Context)
    requires Shaped(s) && entered.cpsr == user.cpsr
    ensures Terminate(s.(cpu := entered)) == Terminate(s.(cpu := user))
  {
    DispatchIgnoresRegisters(SetThread(s, s.running, s.threads[s.running].(status := Terminated)), user, entered);
  }

  /** Of the interrupted registers only the status matters to the next thread. */
  lemma DispatchIgnoresRegisters(s: State, a: Context, b: Context)
    requires Shaped(s) && a.cpsr == b.cpsr
    ensures Dispatch(s.(cpu := a)) == Dispatch(s.(cpu := b))
  {
  }

  /** The thread that follows one that gives up the processor resumes in user mode. */
  lemma NextAfterVacating(s: State, v: Thread, sleep: seq<nat>, wait: seq<nat>)
    requires Inv(s) && InUserMode(v.context)
    ensures
      var r := SetThread(s, s.running, v).(sleep := sleep, wait := wait);
      Shaped(r) ==> InUserMode(r.threads[NextThread(r)].context)
  {
    if s.run != [] {
      assert s.threads[s.run[0]].status == Ready;
      assert InUserMode(s.threads[s.run[0]].context);
    } else {
      assert InUserMode(s.threads[IDLE].context);
    }
  }

  /** The thread that follows the running one resumes in user mode. */
  lemma NextInUserMode(s: State)
    requires Inv(s)
    ensures
      var t := NextThread(Requeue(s));
      t != s.running ==> InUserMode(s.cpu) && InUserMode(s.threads[t].context)
  {
    var t := NextThread(Requeue(s));
    if t < IDLE && t != s.running {
      assert s.threads[s.run[0]].status == Ready;
    }
  }

  lemma RunningInNoQueue(s: State)
    requires Shaped(s) && Partitioned(s) && s.running < IDLE
    ensures s.running !in s.run && s.running !in s.sleep && s.running !in s.wait
  {
    assert s.threads[s.running].status == Status.Running;
  }

  lemma DeletedElement(q: seq<nat>, d: nat)
    requires NoDup(q) && d < |q|
    ensures var r := q[..d] + q[d + 1..]; q[d] !in r && forall t :: t in r ==> t in q
  {
  }

  /** No thread is in two queues. */
  predicate Apart(a: seq<nat>, b: seq<nat>, c: seq<nat>) {
    && (forall t :: t in a ==> t !in b && t !in c)
    && (forall t :: t in b ==> t !in c)
  }
}
