/** The four memory functions, on one flat byte memory so that source and destination may overlap. */
module Memory {
  import opened Words

  /** Memory `m` with the `n` bytes at `dst` replaced by those that were at `src`. */
  function Moved(m: seq<Byte>, dst: nat, src: nat, n: nat): seq<Byte>
    requires dst + n <= |m| && src + n <= |m|
  {
    seq(|m|, i requires 0 <= i < |m| => if dst <= i < dst + n then m[i - dst + src] else m[i])
  }

  method CopyByte(mem: array<Byte>, dst: nat, src: nat)
    requires dst < mem.Length && src < mem.Length
    modifies mem
    ensures mem[..] == old(mem[..])[dst := old(mem[..])[src]]
  {
    mem[dst] := mem[src];
  }

  lemma MovedNothing(m: seq<Byte>, dst: nat, src: nat)
    requires dst <= |m| && src <= |m|
    ensures Moved(m, dst, src, 0) == m
  {
  }

  /** One more byte at the end; the byte to be read has not been overwritten. */
  lemma MovedUp(m: seq<Byte>, dst: nat, src: nat, n: nat)
    requires dst + n < |m| && src + n < |m| && (dst <= src || src + n < dst)
    ensures
      var r := Moved(m, dst, src, n);
      r[dst + n := r[src + n]] == Moved(m, dst, src, n + 1)
  {
  }

  /** One more byte at the front. */
  lemma MovedDown(m: seq<Byte>, dst: nat, src: nat, n: nat)
    requires dst + n < |m| && src + n < |m| && src <= dst
    ensures
      var r := Moved(m, dst + 1, src + 1, n);
      r[dst := r[src]] == Moved(m, dst, src, n + 1)
  {
  }

  predicate Separate(a: nat, b: nat, n: nat) {
    a + n <= b || b + n <= a
  }

  /** The upward loop of `memcpy` and `memmove`. */
  method CopyUp(mem: array<Byte>, s1: nat, s2: nat, n: nat)
    requires s1 + n <= mem.Length && s2 + n <= mem.Length && (s1 <= s2 || Separate(s1, s2, n))
    modifies mem
    ensures mem[..] == Moved(old(mem[..]), s1, s2, n)
  {
    ghost var m := mem[..];
    MovedNothing(m, s1, s2);
    var str1, str2, left := s1, s2, n;
    while left > 0
      invariant 0 <= left <= n && str1 == s1 + (n - left) && str2 == s2 + (n - left)
      invariant mem[..] == Moved(m, s1, s2, n - left)
    {
      MovedUp(m, s1, s2, n - left);
      CopyByte(mem, str1, str2);
      str1, str2, left := str1 + 1, str2 + 1, left - 1;
    }
  }

  /** The downward loop of `memmove`. */
  method CopyDown(mem: array<Byte>, s1: nat, s2: nat, n: nat)
    requires s1 + n <= mem.Length && s2 + n <= mem.Length && s2 <= s1
    modifies mem
    ensures mem[..] == Moved(old(mem[..]), s1, s2, n)
  {
    ghost var m := mem[..];
    var left := n;
    MovedNothing(m, s1 + n, s2 + n);
    while left > 0
      invariant 0 <= left <= n
      invariant mem[..] == Moved(m, s1 + left, s2 + left, n - left)
    {
      left := left - 1;
      MovedDown(m, s1 + left, s2 + left, n - left - 1);
      CopyByte(mem, s1 + left, s2 + left);
    }
  }

  /** In slices: the destination holds what the source held, before and behind it nothing changed. */
  lemma MovedInSlices(m: seq<Byte>, dst: nat, src: nat, n: nat)
    requires dst + n <= |m| && src + n <= |m|
    ensures
      var r := Moved(m, dst, src, n);
      r[dst..dst + n] == m[src..src + n] && r[..dst] == m[..dst] && r[dst + n..] == m[dst + n..]
  {
  }

  /** Overlapping ranges are allowed: the result is as if the source had been saved first. */
  method Memmove(mem: array<Byte>, s1: nat, s2: nat, n: nat)
    requires s1 + n <= mem.Length && s2 + n <= mem.Length
    modifies mem
    ensures mem[..] == Moved(old(mem[..]), s1, s2, n)
    ensures mem[..][s1..s1 + n] == old(mem[..])[s2..s2 + n]
    ensures mem[..][..s1] == old(mem[..])[..s1] && mem[..][s1 + n..] == old(mem[..])[s1 + n..]
  {
    MovedInSlices(mem[..], s1, s2, n);
    if s1 < s2 {
      CopyUp(mem, s1, s2, n);
    } else {
      CopyDown(mem, s1, s2, n);
    }
  }

  /** The `restrict` qualifiers promise that the ranges do not overlap. */
  method Memcpy(mem: array<Byte>, s1: nat, s2: nat, n: nat)
    requires s1 + n <= mem.Length && s2 + n <= mem.Length && Separate(s1, s2, n)
    modifies mem
    ensures mem[..] == Moved(old(mem[..]), s1, s2, n)
    ensures mem[..][s1..s1 + n] == old(mem[..])[s2..s2 + n]
    ensures mem[..][..s1] == old(mem[..])[..s1] && mem[..][s1 + n..] == old(mem[..])[s1 + n..]
  {
    MovedInSlices(mem[..], s1, s2, n);
    CopyUp(mem, s1, s2, n);
  }

  /** The fill value is converted to an unsigned character. */
  method Memset(mem: array<Byte>, s: nat, c: int, n: nat)
    requires s + n <= mem.Length
    modifies mem
    ensures forall i :: 0 <= i < mem.Length ==> mem[i] == if s <= i < s + n then c % 0x100 else old(mem[i])
  {
    var str, left := s, n;
    while left > 0
      invariant 0 <= left <= n && str == s + (n - left)
      invariant forall i :: 0 <= i < mem.Length ==> mem[i] == if s <= i < str then c % 0x100 else old(mem[i])
    {
      mem[str] := c % 0x100;
      str, left := str + 1, left - 1;
    }
  }

  /** The difference at the first mismatch, zero if there is none. */
  function Compare(a: seq<Byte>, b: seq<Byte>): int
    requires |a| == |b|
  {
    if a == [] then 0
    else if a[0] != b[0] then a[0] - b[0]
    else Compare(a[1..], b[1..])
  }

  method Memcmp(mem: array<Byte>, s1: nat, s2: nat, n: nat) returns (res: int)
    requires s1 + n <= mem.Length && s2 + n <= mem.Length
    ensures res == Compare(mem[s1..s1 + n], mem[s2..s2 + n])
  {
    var str1, str2, left := s1, s2, n;
    res := 0;
    while left > 0 && res == 0
      invariant 0 <= left <= n && str1 == s1 + (n - left) && str2 == s2 + (n - left)
      invariant Compare(mem[s1..s1 + n], mem[s2..s2 + n]) ==
                if res != 0 then res else Compare(mem[str1..s1 + n], mem[str2..s2 + n])
    {
      assert mem[str1..s1 + n][1..] == mem[str1 + 1..s1 + n];
      assert mem[str2..s2 + n][1..] == mem[str2 + 1..s2 + n];
      var c1: int, c2: int := mem[str1], mem[str2];
      res := c1 - c2;
      str1, str2, left := str1 + 1, str2 + 1, left - 1;
    }
  }

  /** The comparison is decided at the first mismatch, by the difference of the bytes there. */
  lemma {:induction false} CompareAtMismatch(a: seq<Byte>, b: seq<Byte>, k: nat)
    requires |a| == |b| && k < |a| && (forall i :: 0 <= i < k ==> a[i] == b[i]) && a[k] != b[k]
    ensures Compare(a, b) == a[k] as int - b[k] as int
  {
    if k > 0 {
      CompareAtMismatch(a[1..], b[1..], k - 1);
    }
  }

  /** `a` comes before `b` in lexicographic order: equal up to some k, and there smaller. */
  predicate Before(a: seq<Byte>, b: seq<Byte>)
    requires |a| == |b|
  {
    exists k :: 0 <= k < |a| && a[..k] == b[..k] && a[k] < b[k]
  }

  /** The sign of the comparison is lexicographic order, and zero means equal. */
  lemma {:induction false} CompareIsLexicographic(a: seq<Byte>, b: seq<Byte>)
    requires |a| == |b|
    ensures Compare(a, b) < 0 <==> Before(a, b)
    ensures Compare(a, b) > 0 <==> Before(b, a)
    ensures Compare(a, b) == 0 <==> a == b
  {
    if a == [] {
    } else if a[0] != b[0] {
      assert a[..0] == b[..0];
      FirstDecides(a, b);
      FirstDecides(b, a);
    } else {
      CompareIsLexicographic(a[1..], b[1..]);
      BeforeTail(a, b);
      BeforeTail(b, a);
      assert a == [a[0]] + a[1..] && b == [b[0]] + b[1..];
    }
  }

  lemma FirstDecides(a: seq<Byte>, b: seq<Byte>)
    requires |a| == |b| > 0 && a[0] != b[0]
    ensures Before(a, b) <==> a[0] < b[0]
  {
    if a[0] < b[0] {
      assert a[..0] == b[..0];
    }
    forall k | 0 < k < |a|
      ensures a[..k] != b[..k]
    {
      assert a[..k][0] != b[..k][0];
    }
  }

  lemma BeforeTail(a: seq<Byte>, b: seq<Byte>)
    requires |a| == |b| > 0 && a[0] == b[0]
    ensures Before(a, b) <==> Before(a[1..], b[1..])
  {
    if k :| 0 <= k < |a| && a[..k] == b[..k] && a[k] < b[k] {
      assert a[1..][..k - 1] == a[..k][1..] && b[1..][..k - 1] == b[..k][1..];
      assert a[1..][k - 1] < b[1..][k - 1];
    }
    if k :| 0 <= k < |a[1..]| && a[1..][..k] == b[1..][..k] && a[1..][k] < b[1..][k] {
      assert a[..k + 1] == [a[0]] + a[1..][..k] && b[..k + 1] == [b[0]] + b[1..][..k];
      assert a[k + 1] < b[k + 1];
    }
  }
}
