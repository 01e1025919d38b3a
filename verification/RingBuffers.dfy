/**
 The ring buffer of characters.  Its head and tail are free-running 32-bit counters; only when the
 array is accessed are they masked.  Through any number of wrap-arounds it is a bounded queue.
 */
module RingBuffers {
  import opened Words
  import opened Bits

  function Rem(x: nat, n: nat): (r: nat)
    requires n >= 1
    ensures r < n
  {
    x % n
  }

  class RingBuffer {
    var head: U32
    var tail: U32
    const size: U32
    const mask: U32
    const buffer: array<Byte>

    /** What the buffer holds, oldest first. */
    ghost var contents: seq<Byte>
    ghost const exponent: nat

    ghost predicate Sized() {
      size == Pow2(exponent) && exponent <= 32 && mask == size - 1 && buffer.Length == size
    }

    /** The array index i places, around the array, after counter value `counter`. */
    ghost function Cell(counter: nat, i: nat): nat
      requires Sized()
    {
      Rem(counter + i, size)
    }

    /** The i-th byte is stored i places, around the array, after the tail. */
    ghost predicate Valid()
      reads this, buffer
    {
      && Sized()
      && |contents| <= size
      && head == Wrap(tail + |contents|)
      && forall i {:trigger contents[i]} :: 0 <= i < |contents| ==> buffer[Cell(tail, i)] == contents[i]
    }

    constructor (size: U32)
      requires size >= 1 && IsPowerOfTwo(size)
      ensures Valid() && contents == [] && this.size == size
      ensures fresh(buffer)
    {
      ghost var k := PowerOfTwoExponent(size);
      ExponentBound(k);
      head, tail := 0, 0;
      this.size, mask := size, size - 1;
      buffer := new Byte[size](_ => 0);
      contents := [];
      exponent := k;
    }

    /** The masked counter i steps after the tail. */
    lemma MaskedIndex(i: nat)
      requires Sized()
      ensures BitAnd(Wrap(tail + i), mask) == Cell(tail, i)
    {
      MaskIsRemainder(Wrap(tail + i), exponent);
      WrapKeepsRemainder(tail + i, exponent);
    }

    /** The difference of the free-running counters is the length, however often they wrapped. */
    lemma LengthInCounters()
      requires Valid()
      ensures Wrap(head - tail) == |contents| <= size
    {
      LengthOfDifference(tail, |contents|);
    }

    lemma TailIndex()
      requires Sized()
      ensures BitAnd(tail, mask) == Cell(tail, 0)
    {
      MaskedIndex(0);
    }

    lemma HeadIndex()
      requires Valid()
      ensures BitAnd(head, mask) == Cell(tail, |contents|)
    {
      MaskedIndex(|contents|);
    }

    method IsEmpty() returns (empty: bool)
      requires Valid()
      ensures empty <==> contents == []
    {
      LengthVisible(tail, |contents|, size);
      empty := head == tail;
    }

    method IsFull() returns (full: bool)
      requires Valid()
      ensures full <==> |contents| == size
    {
      var empty := IsEmpty();
      TailIndex();
      HeadIndex();
      RemaindersMeet(tail, |contents|, size);
      full := BitAnd(tail, mask) == BitAnd(head, mask) && !empty;
    }

    /** Appends `c`, or refuses it and says so if the buffer is full. */
    method Putc(c: Byte) returns (full: bool)
      requires Valid()
      modifies this`head, this`contents, buffer
      ensures Valid()
      ensures full <==> |old(contents)| == size
      ensures contents == if full then old(contents) else old(contents) + [c]
    {
      full := IsFull();
      if full {
        return;
      }
      ghost var n := |contents|;
      HeadIndex();
      forall i | 0 <= i < n
        ensures Cell(tail, i) != Cell(tail, n)
      {
        RemaindersDiffer(tail + i, tail + n, size);
      }
      buffer[BitAnd(head, mask)] := c;
      NextCounter(tail + n);
      head := Wrap(head + 1);
      contents := contents + [c];
    }

    /** Removes and returns the oldest byte; on an empty buffer the C code would wait for ever. */
    method Getc() returns (c: Byte)
      requires Valid() && contents != []
      modifies this`tail, this`contents
      ensures Valid()
      ensures c == old(contents)[0] && contents == old(contents)[1..]
    {
      TailIndex();
      c := buffer[BitAnd(tail, mask)];
      ghost var tail', n := Wrap(tail + 1), |contents| - 1;
      forall i | 0 <= i < n
        ensures Cell(tail', i) == Cell(tail, i + 1)
      {
        WrapShift(tail + 1, i, exponent);
      }
      WrapSum(tail + 1, n);
      tail := Wrap(tail + 1);
      contents := contents[1..];
    }

    method Peekc() returns (c: Byte)
      requires Valid() && contents != []
      ensures c == contents[0]
    {
      TailIndex();
      c := buffer[BitAnd(tail, mask)];
    }

    method PeekcLast() returns (c: Byte)
      requires Valid() && contents != []
      ensures c == contents[|contents| - 1]
    {
      ghost var last := |contents| - 1;
      MaskedIndex(last);
      PreviousCounter(tail + last);
      c := buffer[BitAnd(Wrap(head - 1), mask)];
    }
  }

  // ---------------------------------------------------------------- counters

  lemma LargePower(k: nat)
    requires k >= 32
    ensures Pow2(k) >= 0x1_0000_0000
  {
    var n := 32;
    WordSize(n);
    var m := PowSplit(n, k - n);
    assert Pow2(n) * m >= Pow2(n);
  }

  /** A power of two that fits a word has an exponent of at most 31. */
  lemma ExponentBound(k: nat)
    requires Pow2(k) < 0x1_0000_0000
    ensures k < 32
  {
    if k >= 32 {
      LargePower(k);
    }
  }

  lemma NextCounter(x: nat)
    ensures Wrap(Wrap(x) + 1) == Wrap(x + 1)
  {
  }

  lemma PreviousCounter(x: nat)
    ensures Wrap(Wrap(x + 1) - 1) == Wrap(x)
  {
  }

  lemma WrapSum(x: nat, i: nat)
    ensures Wrap(Wrap(x) + i) == Wrap(x + i)
  {
  }

  lemma WrapShift(x: nat, i: nat, k: nat)
    requires k <= 32
    ensures Rem(Wrap(x) + i, Pow2(k)) == Rem(x + i, Pow2(k))
  {
    WrapKeepsRemainder(Wrap(x) + i, k);
    WrapKeepsRemainder(x + i, k);
    WrapSum(x, i);
  }

  lemma LengthOfDifference(tail: U32, n: nat)
    requires n < 0x1_0000_0000
    ensures Wrap(Wrap(tail + n) - tail) == n
  {
    assert Wrap(tail + n) == if tail + n < 0x1_0000_0000 then tail + n else tail + n - 0x1_0000_0000;
  }

  /** A length below 2^32 shows in the difference of the counters. */
  lemma LengthVisible(tail: U32, n: nat, size: U32)
    requires n <= size
    ensures Wrap(tail + n) == tail <==> n == 0
  {
  }

  /** Head and tail address the same cell only when the buffer is empty or full. */
  lemma RemaindersMeet(tail: U32, n: nat, size: U32)
    requires 1 <= size && n <= size
    ensures Rem(tail, size) == Rem(tail + n, size) <==> n == 0 || n == size
  {
    if n == size {
      RemainderUnique(tail + size, size, tail / size + 1, tail % size);
    } else if n > 0 {
      RemaindersDiffer(tail, tail + n, size);
    }
  }
}
