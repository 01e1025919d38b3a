# Verified model of the Betriebssysteme kernel

The kernel is a small preemptive operating system for one 32-bit ARM core: a table of 32 threads and an
idle thread, round-robin scheduling from a timer interrupt, system calls for exit, create, getc, putc
and sleep, and a serial port whose bytes are either handed to a waiting thread or kept in a ring buffer.
This project models that kernel in Dafny and proves what it does over whole runs; beside it stand the
kernel's `kprintf` and its four memory functions.

`dafny verify dfyconfig.toml` checks everything.

## How it is built

* **Heap level.** `Lists.dfy` has the circular doubly linked lists with their pointers, `RingBuffers.dfy`
  the ring buffer with its wrapping counters and mask (`Bits.dfy` supplies the bit arithmetic), and
  `Kernel.dfy` the kernel itself: thread blocks with embedded queue nodes, three list heads, the exception
  frame that is overwritten to switch threads, the banked registers. Node slots stand for addresses, so
  that `thread_from_queue` is a lookup of the containing thread.
* **Transition system.** `KernelModel.dfy` says on values what one exception does (`Step`) and what a
  sequence of exceptions does (`Run`). Every method of `Kernel.Kernel` is proved to change the represented
  state exactly as the corresponding function says; `TakeIrq`, `TakeSvc` and `TakeFault` are the whole path
  from exception entry to exception return, including the `pc` arithmetic of the vector table
  (`Machine.dfy`). `BootAndExecute` takes the pointer structures from zeroed memory through boot and any
  sequence of exceptions, so what is proved of runs holds of them.
* **Whole runs.** `Invariants.dfy`, `UartFifo.dfy`, `Isolation.dfy`, `Fairness.dfy` and `Conservation.dfy`
  prove properties of every run of the transition system; `Sleepers.dfy` describes the traversal of the
  sleep queue half-way, `StatusBits.dfy` a run on which status bits leak. `SystemCalls.dfy` says in plain
  numbers what each call, and boot, does and what no event changes.
* **Libraries.** `Memory.dfy`, `ThreadInit.dfy`, `Digits.dfy`, `Format.dfy`; `Conversions.dfy` describes the
  output of each conversion by itself, without the formatter.

An event carries everything the outside supplies: the user registers at the moment of the exception
(arbitrary, but in user mode), the bytes the serial port yields, whether a tick is pending. Which events can
happen is `KernelModel.Enabled`. Exceptions come from user mode: the kernel runs with ordinary interrupts
masked, and that no fast interrupt and no fault strikes inside the kernel is an assumption. Exception entry
leaves the mask bit for fast interrupts as the user program had it, so one that came during a handler would
end in the halting branch of `handle_fiq`; the kernel enables no source of fast interrupts. The idle thread
makes no system call because its function only waits for interrupts; faults and fast interrupts can strike
any user program, the idle thread included; nothing happens after a kernel exit. A `char` is a value from 0
to 255, as on ARM.

The predicates `Represents`, `Queues` and `Orderly` of class `Kernel` are written as equations with `true`.
That has no logical effect; it makes the verifier pass them on as one fact instead of re-proving every part.

## What turned out not to hold

* A switch does not restore the whole status register. `write_spsr` is a bare `msr spsr` (`arch/cpu/registers.c:32`),
  which the assembler takes for `SPSR_fc`: it writes bits 31 to 24 and 7 to 0. Bits 23 to 8 (GE, part of IT, E, A)
  stay those of the thread that was interrupted. A thread resumes with all its registers as they were exactly if
  these bits agree (`Isolation.Resumption`, `Machine.RestoredIff`); `StatusBits.StatusLeaks` has a run from boot on
  which the main thread resumes with the E bit that the other thread had set.
* The check of a format accepts a width of any length, but the printing scanner reads two digits and takes
  the third for the conversion specifier. `Format.DefaultReachedIff` gives the exact condition and
  `Format.LongWidthCounterexample` an input.
* A number is assembled in a 16-byte buffer. It fits exactly if the width is at most 16
  (`Digits.FitsBufferIff`, `Digits.UnsignedFitsBufferIff`); `Digits.PrintInBaseSigned`,
  `Digits.PrintInBaseUnsigned` and `Format.Kprintf` demand that it fits. The accepted format `%17i` overruns the
  buffer for every argument (`Format.WideNumberCounterexample`).
* The argument of a new thread stays on the new stack exactly if it has at most 4096 bytes
  (`ThreadInit.ArgumentFitsIff`); `KernelModel.Enabled` demands that of a creating system call.
* The format check compares the pointer, not the character, with zero after a `0` flag and after digits
  (`lib/kprintf.c:75` and `lib/kprintf.c:81`). The model follows the code: a format that ends inside a width
  is rejected, one that ends right after a percent sign is accepted.

## Model

| member | source | states |
|---|---|---|
| Lists.IsEmpty | include/lib/list.h:23-26 | the head points to itself exactly if the represented sequence is empty |
| Lists.GetFirst | include/lib/list.h:29-35 | the first element of the represented sequence, null if there is none |
| Lists.GetLast | include/lib/list.h:38-44 | the last element, null if there is none |
| Lists.AddFirst | include/lib/list.h:57-60 | the pointers afterwards represent the sequence with the node in front; only this list's nodes and the new one are written |
| Lists.AddLast | include/lib/list.h:63-66 | the same with the node at the end |
| Lists.Unlink | include/lib/list.h:69-73 | the neighbours point to each other |
| Lists.RemoveFirst | include/lib/list.h:76-84 | returns the first element and leaves a list of the others, or null and the empty list |
| Lists.RemoveLast | include/lib/list.h:87-95 | returns the last element and leaves a list of the others |
| Lists.Remove | include/lib/list.h:98-108 | the search terminates; the node found is deleted and the order of the others kept, a node that is not in the list is reported as null and nothing changes |
| Bits.PowerOfTwoExponent | include/lib/ringbuffer.h:25 | what passes the macro's test is a power of two |
| Bits.PowersPass | include/lib/ringbuffer.h:25 | every power of two passes the test |
| Bits.MaskIsRemainder | include/lib/ringbuffer.h:56 | masking with a power of two minus one is the remainder |
| Bits.WrapKeepsRemainder | include/lib/ringbuffer.h:57 | a counter that wraps at 2^32 keeps its remainder by every power of two |
| RingBuffers.RingBuffer.constructor | include/lib/ringbuffer.h:33-38 | a buffer of any power-of-two size starts empty |
| RingBuffers.RingBuffer.IsEmpty | include/lib/ringbuffer.h:40-43 | true exactly if nothing is buffered |
| RingBuffers.RingBuffer.IsFull | include/lib/ringbuffer.h:45-48 | true exactly if as many bytes are buffered as the size says |
| RingBuffers.RingBuffer.Putc | include/lib/ringbuffer.h:50-60 | appends the byte, or refuses it and says so exactly if the buffer is full |
| RingBuffers.RingBuffer.Getc | include/lib/ringbuffer.h:62-71 | removes and returns the oldest byte |
| RingBuffers.RingBuffer.Peekc | include/lib/ringbuffer.h:73-79 | the oldest byte |
| RingBuffers.RingBuffer.PeekcLast | include/lib/ringbuffer.h:81-87 | the newest byte |
| RingBuffers.RingBuffer.LengthInCounters | include/lib/ringbuffer.h:12-18 | head minus tail modulo 2^32 is always the number of buffered bytes and at most the size |
| Machine.ExceptionReturns | arch/cpu/exceptions/ivt.S:16-24 | for every exception and address, also around zero, interrupts and system calls return to their preferred return address, and the frame of a fault names the faulting instruction |
| Machine.FrameFromLink | arch/cpu/exceptions/ivt.S:26-42 | data aborts and interrupts subtract eight from the link register, the other exceptions four |
| Machine.UserModeNumber | include/arch/cpu/modes.h:4 | user mode is mode number 0x10 |
| Machine.WordDetermines | include/arch/cpu/registers.h:7-25 | the three parts of the status register make up its 32-bit word, and the word determines them |
| Machine.RestoredIff | arch/cpu/registers.c:30-33 | a context written by a switch is restored except for bits 23 to 8 of the status register, and wholly exactly if these agree with those of the interrupted thread |
| Machine.SwitchReturns | kernel/threading/scheduler.c:108-110 | a frame the scheduler wrote returns to the saved pc |
| Kernel.Kernel.constructor | kernel/threading/scheduler.c:11-18 | the static variables at boot represent the boot state: empty queues and buffer, all slots terminated; all structures are new |
| Kernel.Kernel.ThreadFromQueue | kernel/threading/thread.c:36-41 | null for null, otherwise the thread whose queue member is the node |
| Kernel.ThreadBlock.Init | kernel/threading/thread.c:7-34 | function, user-mode status register, aligned stack pointer, entry point and status are set, the other registers kept |
| Kernel.Kernel.FindFreeThreadId | kernel/threading/scheduler.c:25-38 | finds the least terminated slot, and fails exactly if there is none |
| Kernel.Kernel.SchedulerThreadCreate | kernel/threading/scheduler.c:118-133 | in place, what `Create` does: the least free slot is initialised and queued, or nothing changes |
| Kernel.Kernel.GetNextThread | kernel/threading/scheduler.c:135-143 | unlinks and returns the head of the run queue, the idle thread if it is empty |
| Kernel.Kernel.SaveThreadContext | kernel/threading/scheduler.c:55-80 | copies frame and banked registers so that the saved context is what an exception return would have established |
| Kernel.Kernel.WriteSpsr | arch/cpu/registers.c:30-33 | writes bits 31 to 24 and 7 to 0 of the saved status register and leaves the others |
| Kernel.Kernel.ReplaceIrqContext | kernel/threading/scheduler.c:90-116 | overwrites frame and banked registers so that the exception return establishes the thread's saved context, with bits 23 to 8 of the interrupted thread's status |
| Kernel.Kernel.RunNext | kernel/threading/scheduler.c:168-174 | the thread becomes the running one and its context will be restored, as `ReplaceIrqContext` says |
| Kernel.Kernel.SchedulerUpdateSleepers | kernel/threading/scheduler.c:145-166 | the traversal of the list it modifies terminates and equals a stable partition: zero counters go to the run queue in order, the others stay in order, reduced by one |
| Kernel.Kernel.SchedulerTickFromIrq | kernel/threading/scheduler.c:176-194 | in place, what `Tick` does, with the frame untouched if the same thread continues |
| Kernel.Kernel.SchedulerThreadTerminateRunningFromIrq | kernel/threading/scheduler.c:196-201 | in place, what `Terminate` does |
| Kernel.Kernel.SchedulerSleepRunningFromIrq | kernel/threading/scheduler.c:203-210 | in place, what `Sleep` does |
| Kernel.Kernel.SchedulerWaitRunningFromIrq | kernel/threading/scheduler.c:212-218 | in place, what `Wait` does |
| Kernel.Kernel.SchedulerPrepareSvcReturn | kernel/threading/scheduler.c:220-223 | only r0 of what will be restored changes |
| Kernel.Kernel.SchedulerNotifyOneFromIrq | kernel/threading/scheduler.c:225-245 | reports whether a thread waited; the longest waiter gets the value in r0 and becomes ready; the branch for a running waiter is dead |
| Kernel.Kernel.UartHandleIrq | arch/bsp/uart.c:25-40 | the drain loop does with every received byte, in order, what `ReceiveByte` does, and keeps the invariant |
| Kernel.Kernel.UartUserGetc | arch/bsp/uart.c:70-78 | waits if nothing is buffered, otherwise returns the oldest byte in r0 |
| Kernel.Kernel.HandleSyscall | kernel/syscalls.c:46-58 | the dispatch of every system call number, unknown ones included |
| Kernel.Kernel.HandleIrq | kernel/handlers.c:11-21 | received bytes first, then the tick |
| Kernel.Kernel.HandleSvc | kernel/handlers.c:51-63 | a call from user mode is dispatched; the halt for one from kernel mode is dead |
| Kernel.Kernel.HandleFault | kernel/handlers.c:23-49 | a fault or fast interrupt ends the running thread |
| Kernel.Kernel.TakeIrq | arch/cpu/exceptions/ivt.S:38-39 | one whole interrupt, from entry to return, is one `Step`, and the processor continues with the register state that `Step` says |
| Kernel.Kernel.TakeSvc | arch/cpu/exceptions/ivt.S:26-27 | the same for a system call |
| Kernel.Kernel.TakeFault | arch/cpu/exceptions/ivt.S:29-36 | the same for a fault |
| Kernel.Kernel.Execute | arch/cpu/exceptions/ivt.S:16-42 | any sequence of exceptions on the pointer structures is one `Run` of the transition system |
| Kernel.Kernel.SchedulerStart | kernel/threading/scheduler.c:255-269 | the first thread starts with its initial registers, and with bits 23 to 8 of the status that the boot code left |
| Kernel.Kernel.StartKernel | kernel/start.c:17-28 | boot leads to the initial state, which satisfies the invariant |
| Kernel.Kernel.BootAndExecute | kernel/start.c:17-28 | from zeroed memory through boot and any sequence of exceptions the pointer structures represent what `Run` says |
| Sleepers.WakeNext | kernel/threading/scheduler.c:158-161 | visiting a sleeper with counter zero moves it, and only it, from its place to the back of the run queue |
| Sleepers.KeepNext | kernel/threading/scheduler.c:162-164 | visiting another sleeper keeps both queues and takes one from its counter |
| Sleepers.TraversalEnds | kernel/threading/scheduler.c:152-165 | after all original sleepers were visited the tick's partition is complete |
| Invariants.StepKeepsInv | kernel/threading/scheduler.c:168-245 | every exception keeps the invariant: queues and running thread partition the live threads, statuses agree, no byte is buffered while a thread waits, all contexts are in user mode |
| Invariants.RunKeepsInv | kernel/threading/scheduler.c:168-245 | and so does every run |
| Invariants.SelectMembers | kernel/threading/scheduler.c:158-164 | the two parts of the sleep queue contain exactly the threads with and without a zero counter |
| Invariants.SelectKeepsOrder | kernel/threading/scheduler.c:152-165 | within each part the sleepers keep their order |
| Invariants.ContinuesIffAlone | kernel/threading/scheduler.c:183-190 | a tick lets the running thread continue exactly if no other thread is ready |
| SystemCalls.EnabledIff | kernel/handlers.c:23-63 | which events can happen: anything user mode allows, but no call of the idle thread and no argument of more than 4096 bytes |
| SystemCalls.ExitCall | kernel/syscalls.c:12-16 | call 0, and any number from 6 on, ends the thread and runs the next |
| SystemCalls.KillEvent | kernel/handlers.c:23-49 | a fault or fast interrupt ends a thread and runs the next; the idle thread goes on later with the registers it was last suspended with |
| SystemCalls.CreateCall | kernel/syscalls.c:18-21 | call 1 takes the least free slot, with function r1, zeroed registers in user mode and a stack pointer below an argument of r3 bytes; without a free slot nothing changes |
| SystemCalls.GetcCall | kernel/syscalls.c:28-32 | call 2 takes the oldest byte into r0, or queues the thread and runs the next |
| SystemCalls.PutcCall | kernel/syscalls.c:34-37 | call 3 puts the low byte of r1 on the console and does nothing else |
| SystemCalls.SleepCallByNumber | kernel/syscalls.c:23-26 | call 4 queues the thread with counter r1 and runs the next |
| SystemCalls.KernelExitCall | kernel/syscalls.c:39-44 | call 5 halts the machine |
| SystemCalls.StepFrame | kernel/syscalls.c:46-58 | of console, halt, entry address, stacks and thread functions an event changes only what its call number says |
| SystemCalls.RunConsole | kernel/syscalls.c:34-37 | over every run the console gets the bytes of the putc calls in order, and nothing else |
| SystemCalls.RunHaltsIff | kernel/syscalls.c:39-44 | over every run the machine has halted exactly if the last event was call 5 |
| SystemCalls.RunKeepsLayout | kernel/threading/scheduler.c:118-133 | over every run stacks and entry address stay |
| SystemCalls.BootStarts | kernel/start.c:26-27 | after boot slot 0 runs `main` with fresh registers on its own stack, the idle thread waits with its own function and stack, nothing else is alive |
| Conservation.InitialStateInv | kernel/start.c:27-28 | the state after boot satisfies the invariant and has only the main thread |
| Conservation.EveryThreadInItsPlace | include/kernel/threading/thread.h:20-26 | in every reachable state each thread is exactly once in the place its status names and nowhere else, and the idle thread is in no queue |
| Conservation.LiveCount | kernel/threading/scheduler.c:168-245 | the live threads are as many as the queued ones plus the running one |
| Conservation.StepLiveSet | kernel/threading/scheduler.c:118-133 | an event adds the least free slot, or removes the running thread, or changes nothing about who is alive |
| Conservation.FreeSlotUntouched | kernel/threading/scheduler.c:118-133 | a free slot is changed by nothing but the creation that takes it |
| Conservation.CreateFailsIffFull | kernel/threading/scheduler.c:25-38 | creation fails exactly if all 32 slots are live; the slot it takes is in no queue |
| Conservation.SlotsConserved | kernel/threading/scheduler.c:118-133 | over every run: queued plus running threads, plus terminations, equal the threads alive at the start plus successful creations |
| UartFifo.LostIffFull | arch/bsp/uart.c:34-37 | a byte is lost exactly if nobody waits and the buffer is full |
| UartFifo.AcceptedAreFirst | arch/bsp/uart.c:32-39 | of the bytes of one interrupt the first are accepted, as many as there are waiters and free places |
| UartFifo.StepFlow | arch/bsp/uart.c:25-40 | one event matches the oldest requests with the oldest bytes and leaves the rest |
| UartFifo.RunFlow | arch/bsp/uart.c:25-40 | over every run the k-th accepted byte meets the k-th request; buffer and wait queue are exactly what has not met its partner |
| Isolation.StepHandsOver | kernel/threading/scheduler.c:225-245 | the k-th waiter gets the k-th byte accepted in r0 and nothing else, or moves up by the number of bytes |
| Isolation.StepSuspends | kernel/threading/scheduler.c:82-86 | an event that does not end its thread keeps all its registers for later |
| Isolation.Resumption | kernel/threading/scheduler.c:55-116 | over every run: a thread first runs again with the registers it was interrupted with, except r0 after a getc and bits 23 to 8 of the status, which are those of the thread interrupted last; exactly if these agree nothing else differs |
| Isolation.GetcReturnsItsByte | arch/bsp/uart.c:70-78 | over every run: the n-th getc call returns the n-th accepted byte in r0, whether buffered or handed over, all other registers as `Resumption` says |
| Isolation.LaterCallLaterByte | arch/bsp/uart.c:70-78 | a later call gets a later byte, so no byte answers two calls |
| Isolation.CreatedThreadStarts | kernel/threading/thread.c:7-34 | over every run: a created thread first runs with its initial registers, its stack pointer at the argument, and its own function; bits 23 to 8 of the status are those of the thread interrupted last, zero as set up exactly if they were zero there |
| StatusBits.StatusLeaks | arch/cpu/registers.c:30-33 | a run from boot on which the main thread, interrupted with the E bit clear, resumes with it set |
| Fairness.StepServesHead | kernel/threading/scheduler.c:135-143 | a dispatch runs the head and keeps the order of the rest; any other event keeps the queue and the running thread; after a dispatch the idle thread runs only if the queue is empty |
| Fairness.MovesUp | kernel/threading/scheduler.c:135-143 | over every run: after d dispatches a queued thread is exactly d places further and has not run |
| Fairness.ServedAtDispatch | kernel/threading/scheduler.c:135-143 | the thread at index k is running after exactly the (k+1)-th dispatch |
| Fairness.RunQueueBound | include/kernel/threading/scheduler.h:6 | at most 32 threads are queued, 31 if a table thread runs |
| Fairness.StaysAsleep | kernel/threading/scheduler.c:145-166 | over every run: a sleeper stays in the sleep queue, away from run queue and processor, while fewer ticks came than its counter says |
| Fairness.SleepsExactly | kernel/threading/scheduler.c:203-210 | a thread that sleeps with argument c wakes at exactly the (c+1)-th tick, for every 32-bit c |
| Fairness.SleepCallServed | kernel/threading/scheduler.c:176-210 | and is running at some point no later than the (c+32)-th tick |
| Fairness.WorkConservation | kernel/threading/scheduler.c:183-193 | if no dispatch follows a given one and the idle thread runs at the end, the run queue was empty at that dispatch, only serial interrupts came since and the queue holds exactly the threads they notified |
| Fairness.IdleBesideReady | kernel/threading/scheduler.c:135-143 | in every reachable state in which the idle thread runs there was such a dispatch: the run queue is the front part of the wait queue of that time |
| Fairness.TimerInterrupt | kernel/handlers.c:11-21 | one timer interrupt in closed form: old queue, then notified waiters, then woken sleepers, then the interrupted thread; the head runs; the interrupted thread continues unchanged if it is the head |
| Memory.Memmove | lib/mem.c:30-48 | on any two ranges of one memory, overlapping or not, the destination holds what the source held before, all other bytes are unchanged |
| Memory.Memcpy | lib/mem.c:17-28 | the same for separate ranges |
| Memory.Memset | lib/mem.c:50-59 | the range holds the value converted to an unsigned char, all other bytes are unchanged |
| Memory.Memcmp | lib/mem.c:3-15 | the loop computes the comparison that the next two rows describe |
| Memory.CompareAtMismatch | lib/mem.c:3-15 | at the first mismatch the result is the difference of the two bytes |
| Memory.CompareIsLexicographic | lib/mem.c:3-15 | its sign is lexicographic order, and zero means equal |
| ThreadInit.ArgumentFitsIff | kernel/threading/thread.c:15-23 | the stack pointer is aligned to eight; it lies in the stack below the whole argument with less than eight bytes wasted exactly if the argument has at most 4096 bytes |
| ThreadInit.CopyArgument | kernel/threading/thread.c:15-27 | the argument is at the stack pointer, inside the thread's own stack, and no byte outside that stack changes |
| ThreadInit.StacksSeparate | include/kernel/threading/thread.h:48-56 | the stacks of the table are aligned and do not overlap |
| Digits.ConvertToBaseString | lib/kprintf.c:6-15 | for every base from 2 to 36, characters that read backwards are the canonical numeral, if the buffer has room for it |
| Digits.WordLength | lib/kprintf.c:19 | a 32-bit value has at most ten digits in base 10 and 16 |
| Digits.NumeralDenotes | lib/kprintf.c:6-15 | the numeral consists of digits of the base and denotes the value |
| Digits.DigitIs | lib/kprintf.c:10-11 | digits are `0` to `9` and then lower-case letters |
| Digits.NumeralCanonical | lib/kprintf.c:9-13 | only the numeral of zero starts with a zero |
| Digits.ValueOfFirst | lib/kprintf.c:9-13 | numerals are positional, the most significant digit first |
| Digits.PrintInBaseSigned | lib/kprintf.c:17-41 | the loops through the 16-byte buffer produce sign, padding and digits in the order of `fprintf` and never leave the buffer |
| Digits.PrintInBaseUnsigned | lib/kprintf.c:43-58 | the same without a sign |
| Digits.SignedRoundTrip | lib/kprintf.c:17-41 | the output reads back as the value, for every 32-bit value including the least, every width and both paddings |
| Digits.UnsignedRoundTrip | lib/kprintf.c:43-58 | the same for unsigned values |
| Digits.SignedField | lib/kprintf.c:24-40 | the output ends in the numeral of the magnitude; in front of it is only padding and, exactly for a negative value, one minus sign, first among zeros, last among blanks |
| Digits.UnsignedField | lib/kprintf.c:49-57 | the output ends in the numeral; in front of it is only padding |
| Digits.SignedLength | lib/kprintf.c:24-32 | the output is as long as the width, or as digits and sign if these are longer |
| Digits.UnsignedLength | lib/kprintf.c:49 | the output is as long as the width, or as the digits if these are longer |
| Digits.FitsBufferIff | lib/kprintf.c:19 | signed output in base 10 or 16 fits the 16-byte buffer exactly if the width is at most 16 |
| Digits.UnsignedFitsBufferIff | lib/kprintf.c:45 | the same for unsigned output |
| Format.CheckForUnknownFormat | lib/kprintf.c:60-101 | accepts exactly the well-formed formats, and reads nothing behind the NUL |
| Format.ParseWidth | lib/kprintf.c:103-119 | reads at most two digits and yields their value, zero without digits |
| Format.PrintString | lib/kprintf.c:163-180 | padding up to the width, then the string |
| Format.Kprintf | lib/kprintf.c:121-215 | a rejected format prints only the error line; an accepted one prints and consumes what its directives with at most two width digits say; nothing behind the NUL is read |
| Format.DefaultReachedIff | lib/kprintf.c:209-211 | for an accepted format the default branch is reached exactly if some width has more than two digits |
| Format.ScannersAgree | lib/kprintf.c:60-119 | for an accepted format with short widths both scanners see the same directives |
| Format.PrintfMeetsGrammar | lib/kprintf.c:121-215 | such a format prints what the grammar with unlimited widths says and consumes one argument for each conversion that takes one |
| Format.WideNumberCounterexample | lib/kprintf.c:181-185 | `%17i` passes the check, and no argument makes its number fit the buffer |
| Format.LongWidthCounterexample | lib/kprintf.c:103-119 | `%100i` is accepted and then prints the error line and `i` |
| Conversions.WellFormedDirective | lib/kprintf.c:73-98 | the check accepts a directive of any width exactly if its specifier is one of c s i u x p % |
| Conversions.WellFormedText | lib/kprintf.c:63-65 | text does not matter to the check |
| Conversions.EndsInDirective | lib/kprintf.c:69-84 | a format may end after a percent sign but not inside a flag or width |
| Conversions.DirectivePrints | lib/kprintf.c:157-204 | for every value, flag and width: c prints the low byte, s the right-aligned text, i, u and x the padded number that reads back in base 10, 10 and 16, p `0x` and eight hexadecimal digits; one argument is consumed and the rest of the format follows |
| Conversions.PercentPrints | lib/kprintf.c:205-208 | a percent specifier prints one percent sign and consumes nothing |
| Conversions.TextPrints | lib/kprintf.c:131-134 | any other character prints as itself |
| Conversions.EndPrints | lib/kprintf.c:135-155 | nothing is printed when the format ends, also inside a directive |
| Conversions.WordFormat | arch/cpu/exceptions/exception_print.c:49 | `%08x` prints 255 as `000000ff` |

## Left out

- Format.Kprintf: requires suitable arguments and widths of at most 16 for numbers, because reading a missing argument and writing behind the 16-byte buffer have no defined result.
- ThreadInit.CopyArgument: requires at most 4096 bytes and an argument outside the new stack; beyond that the C code overwrites other structures.
- Kernel.ThreadBlock.Init: sets the registers only; the copy of the argument is in ThreadInit, and the contents of the stacks are not part of the kernel state.
- RingBuffers.RingBuffer.Getc: requires a non-empty buffer; on an empty one the C code waits for ever. The kernel's own polling `uart_getc` has no caller and is not modelled.
- RingBuffers.RingBuffer.Peekc: requires a non-empty buffer, for the same reason.
- RingBuffers.RingBuffer.PeekcLast: requires a non-empty buffer, for the same reason.
- Digits.ConvertToBaseString: requires a base from 2 to 36 and room for the numeral; the C code divides by the base, runs out of letters above 36 and writes behind a buffer that is too small. Its callers pass 10 and 16.
- Digits.PrintInBaseSigned: requires that the output fits the 16-byte buffer; otherwise the C code writes behind it.
- Digits.PrintInBaseUnsigned: requires that the output fits the 16-byte buffer; otherwise the C code writes behind it.
- Kernel.Kernel.HandleSyscall: the kernel exit call is modelled as reaching a halted state, without the second supervisor call that leads there.
- Device registers, the timer, the interrupt controller, GPIO and the LED: received bytes and ticks are inputs of the steps.
- Diagnostic output: register dumps of `print_exception_infos`, the message of a failed creation and the boot message; of the console only the putc system call is kept.
- The inline assembly of `arch/cpu/registers.c` except reading and writing the user-mode bank and the saved status register, and the boot code: the status register it leaves is a parameter.
- The idle thread's status field: a fast interrupt can mark it terminated, it is still dispatched; the invariant is about the table.
- Thread identifiers (`id`), which nothing reads.
- `lib/ubsan.c`, the demo programs and the tests.
