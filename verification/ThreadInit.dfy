/** The stack of a new thread: where the argument is copied and where the stack pointer starts. */
module ThreadInit {
  import opened Words
  import opened KernelModel
  import opened Memory

  /** Size and stack offset of `struct thread` on 32-bit ARM. */
  const THREAD_SIZE: nat := 4192
  const STACK_OFFSET: nat := 96

  function StackBase(table: nat, slot: nat): nat {
    table + slot * THREAD_SIZE + STACK_OFFSET
  }

  /** The stacks of an aligned table are aligned and do not overlap. */
  lemma StacksSeparate(table: nat, i: nat, j: nat)
    requires table % 8 == 0 && i < j
    ensures StackBase(table, i) % 8 == 0 && StackBase(table, i) - table == 96 + 4192 * i
    ensures StackBase(table, i) + 4096 < StackBase(table, j)
  {
    AddEights(table, i * 524 + 12);
    assert j * THREAD_SIZE >= (i + 1) * THREAD_SIZE;
  }

  lemma {:induction false} AddEights(x: nat, n: nat)
    ensures (x + 8 * n) % 8 == x % 8
    decreases n
  {
    if n > 0 {
      AddEights(x + 8, n - 1);
    }
  }

  /**
   The initial stack pointer is where it should be exactly if the argument fits on the stack: aligned,
   inside the stack, with the argument above it and fewer than eight bytes wasted.
   */
  lemma ArgumentFitsIff(base: U32, argSize: U32)
    requires base % 8 == 0 && base + THREAD_STACK_SIZE < 0x1_0000_0000
    ensures InitialSp(base + THREAD_STACK_SIZE, argSize) % 8 == 0
    ensures
      var top := base + THREAD_STACK_SIZE;
      var sp := InitialSp(top, argSize);
      (base <= sp && sp + argSize <= top < sp + argSize + 8) <==> argSize <= 4096
  {
  }

  /** The memory part of `thread_init`. */
  method CopyArgument(mem: array<Byte>, base: U32, arg: nat, argSize: U32) returns (sp: U32)
    requires base % 8 == 0 && base + THREAD_STACK_SIZE < 0x1_0000_0000 && base + THREAD_STACK_SIZE <= mem.Length
    requires argSize <= THREAD_STACK_SIZE && arg + argSize <= mem.Length
    requires arg + argSize <= base || base + THREAD_STACK_SIZE <= arg
    modifies mem
    ensures sp == InitialSp(base + THREAD_STACK_SIZE, argSize) && sp % 8 == 0
    ensures base <= sp && sp + argSize <= base + THREAD_STACK_SIZE < sp + argSize + 8
    ensures mem[sp..sp + argSize] == old(mem[arg..arg + argSize])
    ensures mem[..base] == old(mem[..base]) && mem[base + THREAD_STACK_SIZE..] == old(mem[base + THREAD_STACK_SIZE..])
  {
    ArgumentFitsIff(base, argSize);
    sp := base + THREAD_STACK_SIZE;
    sp := Wrap(sp - argSize);
    sp := AlignDown8(sp);
    Memcpy(mem, sp, arg, argSize);
    MovedInside(old(mem[..]), base, base + THREAD_STACK_SIZE, sp, arg, argSize);
    assert mem[sp..sp + argSize] == mem[..][sp..sp + argSize];
    assert old(mem[arg..arg + argSize]) == old(mem[..])[arg..arg + argSize];
    assert mem[..base] == mem[..][..base] && old(mem[..base]) == old(mem[..])[..base];
    assert mem[base + THREAD_STACK_SIZE..] == mem[..][base + THREAD_STACK_SIZE..];
    assert old(mem[base + THREAD_STACK_SIZE..]) == old(mem[..])[base + THREAD_STACK_SIZE..];
  }

  /** Moving into a region changes nothing below and above it. */
  lemma MovedInside(m: seq<Byte>, low: nat, high: nat, dst: nat, src: nat, n: nat)
    requires low <= dst && dst + n <= high <= |m| && src + n <= |m|
    ensures
      var r := Moved(m, dst, src, n);
      r[dst..dst + n] == m[src..src + n] && r[..low] == m[..low] && r[high..] == m[high..]
  {
  }
}
