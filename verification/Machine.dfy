/**
 The part of the ARMv7-A processor that a context switch can see: the registers of the interrupted
 user program, the way an exception entry turns them into a stack frame, and the exception return.
 */
module Machine {
  import opened Words

  datatype Regs = Regs(
    r0: U32, r1: U32, r2: U32, r3: U32, r4: U32, r5: U32, r6: U32,
    r7: U32, r8: U32, r9: U32, r10: U32, r11: U32, r12: U32)

  /**
   Everything a user program can see of the processor.  As the saved state of a suspended thread,
   `pc` is the address of the next instruction to execute.
   */
  datatype Context = Context(regs: Regs, pc: U32, lr: U32, sp: U32, cpsr: Psr)

  type Half = x: int | 0 <= x < 0x1_0000

  /**
   A program status register, cut where the write instruction cuts it: `flags` are bits 31 to 24 (the f
   field), `middle` bits 23 to 8 (the s and x fields, with the GE bits, part of the IT bits, the E and the
   A bit), `control` bits 7 to 0 (the c field, with the mode).
   */
  datatype Psr = Psr(flags: Byte, middle: Half, control: Byte)

  const MODE_USR: Byte := 0x10
  const MODE_SYS: Byte := 0x1F

  /** The status of a new thread: everything zero but the mode. */
  const USER_PSR := Psr(0, 0, MODE_USR)

  /** The register as a 32-bit word. */
  function WordOf(p: Psr): U32 {
    p.flags * 0x100_0000 + p.middle * 0x100 + p.control
  }

  /** No two register contents are the same word. */
  lemma WordDetermines(p: Psr, q: Psr)
    ensures WordOf(p) == WordOf(q) <==> p == q
  {
  }

  /** The `mode` bit field of a program status register. */
  function ModeOf(psr: Psr): Byte {
    psr.control % 32
  }

  /**
   `msr spsr, value` without a field suffix writes the f and the c field only: the assembler takes it for
   `SPSR_fc`.  The bits between stay as they were `before`.
   */
  function WrittenPsr(before: Psr, value: Psr): Psr {
    value.(middle := before.middle)
  }

  /** What the exception return establishes when `c` was written over a frame entered with status `spsr`. */
  function Restored(spsr: Psr, c: Context): Context {
    c.(cpsr := WrittenPsr(spsr, c.cpsr))
  }

  /** The two contexts differ at most in bits 23 to 8 of the status register. */
  predicate SameButMiddle(a: Context, b: Context) {
    a == b.(cpsr := b.cpsr.(middle := a.cpsr.middle))
  }

  /** A switch restores the whole context exactly if the middle bits of the status happen to agree. */
  lemma RestoredIff(spsr: Psr, c: Context)
    ensures SameButMiddle(Restored(spsr, c), c)
    ensures Restored(spsr, c) == c <==> spsr.middle == c.cpsr.middle
  {
  }

  predicate InUserMode(c: Context) {
    ModeOf(c.cpsr) == MODE_USR
  }

  /** User mode is mode number 0x10. */
  lemma UserModeNumber(c: Context)
    ensures InUserMode(c) <==> c.cpsr.control % 32 == 0x10
  {
  }

  datatype Exception = Undefined | SupervisorCall | PrefetchAbort | DataAbort | Interrupt | FastInterrupt

  /**
   What the processor adds to the preferred return address to obtain the banked `lr` (ARMv7-A
   Architecture Reference Manual, section B1.8.3).  The preferred return address of a supervisor
   call and of an interrupt is the next instruction; that of a fault is the faulting instruction.
   */
  function LinkOffset(e: Exception): int {
    match e
    case Undefined => 4
    case SupervisorCall => 0
    case PrefetchAbort => 4
    case DataAbort => 8
    case Interrupt => 4
    case FastInterrupt => 4
  }

  /** What the vector table subtracts from the banked `lr` before it pushes the frame. */
  function TrampolineOffset(e: Exception): int {
    match e
    case Undefined => 4
    case SupervisorCall => 4
    case PrefetchAbort => 4
    case DataAbort => 8
    case Interrupt => 8
    case FastInterrupt => 8
  }

  predicate IsFault(e: Exception) {
    e.Undefined? || e.PrefetchAbort? || e.DataAbort?
  }

  /** The `pc` word of the frame that the handler receives. */
  function FramePc(e: Exception, preferredReturn: U32): U32 {
    Wrap(Wrap(preferredReturn + LinkOffset(e)) - TrampolineOffset(e))
  }

  /** The address at which the exception return continues, for a frame whose `pc` word is `framePc`. */
  function ReturnPc(framePc: U32): U32 {
    Wrap(framePc + 4)
  }

  /** The `pc` word that the scheduler writes for a thread whose next instruction is at `pc`. */
  function SwitchPc(pc: U32): U32 {
    Wrap(pc - 4)
  }

  /** Adding `up`, subtracting `down` and adding four again, each modulo 2^32. */
  lemma ThereAndBack(p: U32, up: int, down: int)
    requires 0 <= up <= 8 && 0 <= down <= 8
    ensures up == down ==> Wrap(Wrap(p + up) - down) == p
    ensures up + 4 == down ==> Wrap(Wrap(Wrap(p + up) - down) + 4) == p
  {
    var linked := Wrap(p + up);
    assert linked == if p + up < 0x1_0000_0000 then p + up else p + up - 0x1_0000_0000;
    var framed := Wrap(linked - down);
    assert framed == if linked < down then linked - down + 0x1_0000_0000 else linked - down;
  }

  /**
   The offsets of the vector table and of the processor cancel, including around address zero: an
   interrupt or a supervisor call returns to its preferred return address, and the frame of a fault
   names the faulting instruction itself.
   */
  lemma ExceptionReturns(e: Exception, preferredReturn: U32)
    ensures
      if IsFault(e) then FramePc(e, preferredReturn) == preferredReturn
      else ReturnPc(FramePc(e, preferredReturn)) == preferredReturn
  {
    ThereAndBack(preferredReturn, LinkOffset(e), TrampolineOffset(e));
  }

  /** The vector table: which handlers subtract four from the banked `lr`, and which eight. */
  lemma FrameFromLink(e: Exception, lr: U32)
    ensures
      Wrap(lr - TrampolineOffset(e)) ==
        (lr - (if e.DataAbort? || e.Interrupt? || e.FastInterrupt? then 8 else 4)) % 0x1_0000_0000
  {
  }

  /** A frame that the scheduler wrote returns to the saved `pc`. */
  lemma SwitchReturns(pc: U32)
    ensures ReturnPc(SwitchPc(pc)) == pc
  {
  }
}
