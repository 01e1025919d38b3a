/** Integer output of the kernel's printf: digits, sign and padding, assembled backwards in a 16-byte buffer. */
module Digits {
  import opened Words

  const BUFFER_SIZE: nat := 16
  /** Beyond this base the characters for digits run out of the alphabet. */
  const MAX_BASE: nat := 36

  type I32 = x: int | -0x8000_0000 <= x < 0x8000_0000

  // ---------------------------------------------------------------- numerals and their value

  function DigitChar(d: nat): char
    requires d < MAX_BASE
  {
    if d < 10 then '0' + d as char else 'a' + (d - 10) as char
  }

  function DigitValue(c: char): int {
    if '0' <= c <= '9' then c as int - '0' as int
    else if 'a' <= c <= 'z' then c as int - 'a' as int + 10
    else -1
  }

  predicate IsNumeral(s: string, base: nat) {
    s != [] && forall i :: 0 <= i < |s| ==> 0 <= DigitValue(s[i]) < base
  }

  /** The number a string of digits denotes, most significant digit first. */
  function Value(s: string, base: nat): int {
    if s == [] then 0 else Value(s[..|s| - 1], base) * base + DigitValue(s[|s| - 1])
  }

  /** The canonical numeral of `v`. */
  function Numeral(v: nat, base: nat): string
    requires 2 <= base <= MAX_BASE
  {
    if v < base then [DigitChar(v)] else Numeral(v / base, base) + [DigitChar(v % base)]
  }

  /** Digits are decimal digits and then lower-case letters. */
  lemma DigitIs(d: nat)
    requires d < MAX_BASE
    ensures DigitChar(d) == "0123456789abcdefghijklmnopqrstuvwxyz"[d]
  {
  }

  lemma DigitCharDenotes(d: nat)
    requires d < MAX_BASE
    ensures DigitValue(DigitChar(d)) == d
  {
  }

  lemma ValueSnoc(s: string, c: char, base: nat)
    ensures Value(s + [c], base) == Value(s, base) * base + DigitValue(c)
  {
    assert (s + [c])[..|s|] == s;
  }

  lemma QuotientAndRemainder(v: nat, base: nat)
    requires base >= 2
    ensures v == (v / base) * base + v % base && v % base < base
    ensures v >= base ==> v / base < v
  {
  }

  /** The numeral of a value consists of digits and denotes the value. */
  lemma {:induction false} NumeralDenotes(v: nat, base: nat)
    requires 2 <= base <= MAX_BASE
    ensures IsNumeral(Numeral(v, base), base)
    ensures Value(Numeral(v, base), base) == v
  {
    QuotientAndRemainder(v, base);
    DigitCharDenotes(v % base);
    if v < base {
      DigitCharDenotes(v);
      ValueSnoc([], DigitChar(v), base);
      assert [] + [DigitChar(v)] == [DigitChar(v)];
    } else {
      NumeralDenotes(v / base, base);
      ValueSnoc(Numeral(v / base, base), DigitChar(v % base), base);
    }
  }

  /** Only the numeral of zero starts with a zero. */
  lemma {:induction false} NumeralCanonical(v: nat, base: nat)
    requires 2 <= base <= MAX_BASE
    ensures Numeral(v, base)[0] == '0' <==> v == 0
    ensures v == 0 ==> Numeral(v, base) == "0"
  {
    if v >= base {
      SmallQuotient(v, base);
      NumeralCanonical(v / base, base);
    }
  }

  /** The value is positional: the first digit counts for its place. */
  lemma {:induction false} ValueOfFirst(c: char, s: string, base: nat)
    ensures Value([c] + s, base) == DigitValue(c) * Power(base, |s|) + Value(s, base)
    decreases |s|
  {
    if s == [] {
      ValueSnoc([], c, base);
      assert [c] + s == [] + [c];
    } else {
      var front, last := s[..|s| - 1], s[|s| - 1];
      ValueOfFirst(c, front, base);
      ValueSnoc([c] + front, last, base);
      ValueSnoc(front, last, base);
      assert [c] + s == ([c] + front) + [last] && s == front + [last];
      ShiftDigit(Value([c] + s, base), DigitValue(c), Power(base, |front|), Value(front, base), base, DigitValue(last));
    }
  }

  lemma ShiftDigit(whole: int, a: int, p: int, b: int, base: int, d: int)
    requires whole == (a * p + b) * base + d
    ensures whole == a * (base * p) + (b * base + d)
  {
    assert (a * p) * base == a * (base * p);
  }

  function Power(base: nat, n: nat): nat {
    if n == 0 then 1 else base * Power(base, n - 1)
  }

  /** A value below base^n has at most n digits. */
  lemma {:induction false} NumeralLength(v: nat, base: nat, n: nat)
    requires 2 <= base <= MAX_BASE && n >= 1 && v < Power(base, n)
    ensures 1 <= |Numeral(v, base)| <= n
    decreases n
  {
    if n == 1 {
      assert Power(base, 0) == 1;
    } else if v >= base {
      QuotientBound(v, base, Power(base, n - 1));
      NumeralLength(v / base, base, n - 1);
    }
  }

  lemma ProductOrder(base: nat, p: nat, q: nat)
    ensures q >= p ==> base * q >= base * p
  {
    if q >= p {
      assert base * (q - p) >= 0;
    }
  }

  lemma QuotientBound(v: nat, base: nat, p: nat)
    requires base >= 2 && v < base * p
    ensures v / base < p
  {
    QuotientAndRemainder(v, base);
    ProductOrder(base, p, v / base);
  }

  /** A 32-bit value has at most ten decimal and at most eight hexadecimal digits. */
  lemma WordLength(v: U32, base: nat)
    requires base == 10 || base == 16
    ensures 1 <= |Numeral(v, base)| <= 10
  {
    if base == 10 {
      assert Power(10, 10) == 10_000_000_000;
      NumeralLength(v, 10, 10);
    } else {
      assert Power(16, 8) == 0x1_0000_0000;
      NumeralLength(v, 16, 8);
    }
  }

  // ---------------------------------------------------------------- strings written backwards

  function Reverse(s: string): (r: string)
    ensures |r| == |s|
  {
    if s == [] then [] else [s[|s| - 1]] + Reverse(s[..|s| - 1])
  }

  lemma ReverseSnoc(s: string, c: char)
    ensures Reverse(s + [c]) == [c] + Reverse(s)
  {
    assert (s + [c])[..|s|] == s;
  }

  function Repeat(c: char, n: nat): string {
    seq(n, _ => c)
  }

  // ---------------------------------------------------------------- the conversion loop

  /** The digits still to come, none when the value is used up. */
  function Rest(v: nat, base: nat): string
    requires 2 <= base <= MAX_BASE
  {
    if v == 0 then [] else Numeral(v, base)
  }

  method ConvertToBaseString(value: U32, base: nat, buffer: array<char>) returns (i: nat)
    requires 2 <= base <= MAX_BASE && |Numeral(value, base)| <= buffer.Length
    modifies buffer
    ensures 1 <= i <= buffer.Length && Reverse(buffer[..i]) == Numeral(value, base)
  {
    ghost var whole := Numeral(value, base);
    var v: nat := value;
    i := 0;
    var more := true;
    while more
      invariant i <= |whole| && (i == 0 ==> more)
      invariant more <==> i == 0 || v > 0
      invariant whole == (if more then Numeral(v, base) else []) + Reverse(buffer[..i])
      decreases more, v
    {
      var digit, quotient := v % base, v / base;
      RestSnoc(v, base);
      SmallQuotient(v, base);
      ConversionStep(whole, Numeral(v, base), Rest(quotient, base), DigitChar(digit), buffer[..i]);
      WriteAt(buffer, i, DigitChar(digit));
      i := i + 1;
      v := quotient;
      more := v > 0;
    }
  }

  method WriteAt(buffer: array<char>, i: nat, c: char)
    requires i < buffer.Length
    modifies buffer
    ensures buffer[..i + 1] == old(buffer[..i]) + [c]
  {
    buffer[i] := c;
  }

  /** One more digit: `current` is what was still to come, `rest` what is to come now. */
  lemma ConversionStep(whole: string, current: string, rest: string, c: char, written: string)
    requires current == rest + [c]
    requires whole == current + Reverse(written)
    ensures |written| < |whole| && whole == rest + Reverse(written + [c])
  {
    ReverseSnoc(written, c);
    Regroup(rest, c, Reverse(written));
  }

  lemma Regroup(front: string, c: char, back: string)
    ensures (front + [c]) + back == front + ([c] + back)
  {
  }

  lemma RestSnoc(v: nat, base: nat)
    requires 2 <= base <= MAX_BASE
    ensures Numeral(v, base) == Rest(v / base, base) + [DigitChar(v % base)] && |Numeral(v, base)| >= 1
  {
    SmallQuotient(v, base);
  }

  lemma SmallQuotient(v: nat, base: nat)
    requires base >= 2
    ensures v < base ==> v / base == 0 && v % base == v
    ensures v >= base ==> 0 < v / base < v
  {
  }

  // ---------------------------------------------------------------- padded output

  function Missing(width: nat, length: nat): nat {
    if length >= width then 0 else width - length
  }

  function Magnitude(value: I32): U32 {
    var v: int := value;
    if v < 0 then -v else v
  }

  function Sign(value: I32): string {
    Minus(value < 0)
  }

  /** As `fprintf` places them: blanks before the sign, zeros between sign and digits. */
  function Padded(sign: string, digits: string, width: nat, pad: char): string {
    var fill := Repeat(pad, Missing(width, |digits| + |sign|));
    if pad == '0' then sign + fill + digits else fill + sign + digits
  }

  function FormatSigned(value: I32, base: nat, width: nat, pad: char): string
    requires 2 <= base <= MAX_BASE
  {
    Padded(Sign(value), Numeral(Magnitude(value), base), width, pad)
  }

  function FormatUnsigned(value: U32, base: nat, width: nat, pad: char): string
    requires 2 <= base <= MAX_BASE
  {
    Padded("", Numeral(value, base), width, pad)
  }

  lemma RepeatNext(c: char, n: nat)
    ensures Repeat(c, n + 1) == [c] + Repeat(c, n)
  {
  }

  method FillBuffer(buffer: array<char>, start: nat, pad: char, count: nat) returns (i: nat)
    requires start + count <= buffer.Length
    modifies buffer
    ensures i == start + count
    ensures Reverse(buffer[..i]) == Repeat(pad, count) + Reverse(old(buffer[..start]))
  {
    i := start;
    ghost var written := buffer[..start];
    assert Repeat(pad, 0) + Reverse(written) == Reverse(written);
    for j := 0 to count
      invariant i == start + j
      invariant Reverse(buffer[..i]) == Repeat(pad, j) + Reverse(written)
    {
      ReverseSnoc(buffer[..i], pad);
      RepeatNext(pad, j);
      Prepend(pad, Repeat(pad, j), Reverse(written));
      WriteAt(buffer, i, pad);
      i := i + 1;
    }
  }

  lemma Prepend(c: char, a: string, b: string)
    ensures [c] + (a + b) == ([c] + a) + b
  {
  }

  /** The buffer is printed from its end. */
  method Flush(buffer: array<char>, length: nat) returns (out: string)
    requires length <= buffer.Length
    ensures out == Reverse(buffer[..length])
  {
    var i := length;
    out := "";
    while i > 0
      invariant 0 <= i <= length
      invariant Reverse(buffer[..length]) == out + Reverse(buffer[..i])
    {
      assert buffer[..i] == buffer[..i - 1] + [buffer[i - 1]];
      ReverseSnoc(buffer[..i - 1], buffer[i - 1]);
      Regroup(out, buffer[i - 1], Reverse(buffer[..i - 1]));
      i := i - 1;
      out := out + [buffer[i]];
    }
  }

  method PutMinus(buffer: array<char>, i: nat, put: bool) returns (i': nat)
    requires i <= buffer.Length && (put ==> i < buffer.Length)
    modifies buffer
    ensures i' == i + |Minus(put)|
    ensures Reverse(buffer[..i']) == Minus(put) + Reverse(old(buffer[..i]))
  {
    i' := i;
    if put {
      ReverseSnoc(buffer[..i], '-');
      WriteAt(buffer, i, '-');
      i' := i + 1;
    }
  }

  function Minus(put: bool): string {
    if put then "-" else ""
  }

  /** The magnitude is computed in unsigned arithmetic, so that the least value works too. */
  lemma MagnitudeWraps(value: I32)
    ensures (if value < 0 then Wrap(0 - Wrap(value)) else Wrap(value)) == Magnitude(value)
  {
  }

  /** Sign and padding behind the `start` digits already in the buffer. */
  method PadAndSign(buffer: array<char>, start: nat, width: nat, isNegative: bool, pad: char) returns (i: nat)
    requires start <= buffer.Length && (pad == ' ' || pad == '0')
    requires |Padded(Minus(isNegative), Reverse(buffer[..start]), width, pad)| <= buffer.Length
    modifies buffer
    ensures i <= buffer.Length
    ensures Reverse(buffer[..i]) == Padded(Minus(isNegative), Reverse(old(buffer[..start])), width, pad)
  {
    ghost var digits := Reverse(buffer[..start]);
    var paddingNeeded := if start >= width then 0 else width - start - (if isNegative then 1 else 0);
    assert paddingNeeded == Missing(width, |digits| + |Minus(isNegative)|);
    i := PutMinus(buffer, start, isNegative && pad == ' ');
    i := FillBuffer(buffer, i, pad, paddingNeeded);
    i := PutMinus(buffer, i, isNegative && pad == '0');
    Assembled(isNegative, digits, width, pad);
  }

  /** Whichever place the sign takes, the parts come out in the right order. */
  lemma Assembled(isNegative: bool, digits: string, width: nat, pad: char)
    requires pad == ' ' || pad == '0'
    ensures
      var fill := Repeat(pad, Missing(width, |digits| + |Minus(isNegative)|));
      Minus(isNegative && pad == '0') + (fill + (Minus(isNegative && pad == ' ') + digits)) ==
      Padded(Minus(isNegative), digits, width, pad)
  {
    var fill := Repeat(pad, Missing(width, |digits| + |Minus(isNegative)|));
    if pad == '0' {
      Concats(Minus(isNegative), fill, digits);
    } else {
      Concats(fill, Minus(isNegative), digits);
    }
  }

  lemma AssembledUnsigned(digits: string, width: nat, pad: char)
    ensures Repeat(pad, Missing(width, |digits|)) + digits == Padded("", digits, width, pad)
  {
    var fill := Repeat(pad, Missing(width, |digits|));
    assert "" + fill == fill && fill + "" == fill;
  }

  lemma Concats(a: string, b: string, c: string)
    ensures a + (b + c) == a + b + c
    ensures a + ("" + c) == a + c && "" + (a + c) == a + c
    ensures "" + (a + (b + c)) == a + b + c && a + (b + ("" + c)) == a + b + c
  {
  }

  /** Demands what the C code needs of its buffer; see `FitsBufferIff`. */
  method PrintInBaseSigned(value: I32, base: nat, width: nat, pad: char) returns (out: string)
    requires 2 <= base <= MAX_BASE && (pad == ' ' || pad == '0')
    requires |FormatSigned(value, base, width, pad)| <= BUFFER_SIZE
    ensures out == FormatSigned(value, base, width, pad)
  {
    var buffer := new char[BUFFER_SIZE];
    var isNegative := value < 0;
    MagnitudeWraps(value);
    var abs := if isNegative then Wrap(0 - Wrap(value)) else Wrap(value);
    var i := ConvertToBaseString(abs, base, buffer);
    i := PadAndSign(buffer, i, width, isNegative, pad);
    out := Flush(buffer, i);
  }

  method PrintInBaseUnsigned(value: U32, base: nat, width: nat, pad: char) returns (out: string)
    requires 2 <= base <= MAX_BASE && (pad == ' ' || pad == '0')
    requires |FormatUnsigned(value, base, width, pad)| <= BUFFER_SIZE
    ensures out == FormatUnsigned(value, base, width, pad)
  {
    var buffer := new char[BUFFER_SIZE];
    var i := ConvertToBaseString(value, base, buffer);
    ghost var digits := Numeral(value, base);
    assert |digits| == i;
    var paddingNeeded := if i >= width then 0 else width - i;
    i := FillBuffer(buffer, i, pad, paddingNeeded);
    AssembledUnsigned(digits, width, pad);
    out := Flush(buffer, i);
  }

  // ---------------------------------------------------------------- what the output means

  /** Reads a number back: blanks, then an optional minus sign, then digits. */
  function ParseNumber(s: string, base: nat): int {
    if s == [] then 0
    else if s[0] == ' ' then ParseNumber(s[1..], base)
    else if s[0] == '-' then -Value(s[1..], base)
    else Value(s, base)
  }

  lemma {:induction false} LeadingBlanks(n: nat, s: string, base: nat)
    ensures ParseNumber(Repeat(' ', n) + s, base) == ParseNumber(s, base)
  {
    if n == 0 {
      assert Repeat(' ', 0) + s == s;
    } else {
      RepeatNext(' ', n - 1);
      Prepend(' ', Repeat(' ', n - 1), s);
      assert (Repeat(' ', n) + s)[1..] == Repeat(' ', n - 1) + s;
      LeadingBlanks(n - 1, s, base);
    }
  }

  lemma {:induction false} LeadingZeros(n: nat, s: string, base: nat)
    ensures Value(Repeat('0', n) + s, base) == Value(s, base)
    decreases n + |s|
  {
    var whole := Repeat('0', n) + s;
    if s != [] {
      LeadingZeros(n, s[..|s| - 1], base);
      assert whole[..|whole| - 1] == Repeat('0', n) + s[..|s| - 1];
    } else if n > 0 {
      LeadingZeros(n - 1, s, base);
      assert whole[..|whole| - 1] == Repeat('0', n - 1) + s;
    } else {
      assert whole == [];
    }
  }

  function Signed(sign: string, v: int): int {
    if sign == "-" then -v else v
  }

  lemma SignReads(sign: string, body: string, base: nat)
    requires (sign == "" || sign == "-") && body != [] && DigitValue(body[0]) >= 0
    ensures ParseNumber(sign + body, base) == Signed(sign, Value(body, base))
  {
    if sign == "-" {
      assert (sign + body)[1..] == body;
    } else {
      assert sign + body == body;
    }
  }

  lemma BlanksReadBack(sign: string, n: nat, digits: string, base: nat)
    requires IsNumeral(digits, base) && (sign == "" || sign == "-")
    ensures ParseNumber(Repeat(' ', n) + sign + digits, base) == Signed(sign, Value(digits, base))
  {
    LeadingBlanks(n, sign + digits, base);
    SignReads(sign, digits, base);
    Concats(Repeat(' ', n), sign, digits);
  }

  lemma ZerosReadBack(sign: string, n: nat, digits: string, base: nat)
    requires IsNumeral(digits, base) && (sign == "" || sign == "-")
    ensures ParseNumber(sign + Repeat('0', n) + digits, base) == Signed(sign, Value(digits, base))
  {
    var zeros := Repeat('0', n) + digits;
    assert zeros[0] == if n > 0 then '0' else digits[0];
    LeadingZeros(n, digits, base);
    SignReads(sign, zeros, base);
    Concats(sign, Repeat('0', n), digits);
  }

  /** Padded with blanks or zeros, a numeral with an optional minus sign reads back as its value. */
  lemma PaddedReadsBack(sign: string, digits: string, width: nat, pad: char, base: nat)
    requires IsNumeral(digits, base) && (sign == "" || sign == "-") && (pad == ' ' || pad == '0')
    ensures ParseNumber(Padded(sign, digits, width, pad), base) == Signed(sign, Value(digits, base))
  {
    var n := Missing(width, |digits| + |sign|);
    if pad == '0' {
      ZerosReadBack(sign, n, digits, base);
    } else {
      BlanksReadBack(sign, n, digits, base);
    }
  }

  /** Every 32-bit value, the least one included, is read back from its printed form. */
  lemma SignedRoundTrip(value: I32, base: nat, width: nat, pad: char)
    requires 2 <= base <= MAX_BASE && (pad == ' ' || pad == '0')
    ensures ParseNumber(FormatSigned(value, base, width, pad), base) == value
  {
    NumeralDenotes(Magnitude(value), base);
    PaddedReadsBack(Sign(value), Numeral(Magnitude(value), base), width, pad, base);
  }

  lemma UnsignedRoundTrip(value: U32, base: nat, width: nat, pad: char)
    requires 2 <= base <= MAX_BASE && (pad == ' ' || pad == '0')
    ensures ParseNumber(FormatUnsigned(value, base, width, pad), base) == value
  {
    NumeralDenotes(value, base);
    PaddedReadsBack("", Numeral(value, base), width, pad, base);
  }

  /**
   A number in a field: `digits` at the end, in front of them padding and, for a negative number, one
   minus sign, which comes first among zeros and last among blanks.
   */
  predicate IsField(out: string, negative: bool, digits: string, width: nat, pad: char) {
    var sign := if negative then 1 else 0;
    var lead := |out| - |digits|;
    var minusAt := if pad == '0' then 0 else lead - 1;
    && |out| == (if |digits| + sign >= width then |digits| + sign else width)
    && out[lead..] == digits
    && forall i :: 0 <= i < lead ==> out[i] == if negative && i == minusAt then '-' else pad
  }

  lemma PaddedIsField(negative: bool, digits: string, width: nat, pad: char)
    requires pad == ' ' || pad == '0'
    ensures IsField(Padded(Minus(negative), digits, width, pad), negative, digits, width, pad)
  {
    var fill := Repeat(pad, Missing(width, |digits| + |Minus(negative)|));
    if pad == '0' {
      Concats(Minus(negative), fill, digits);
    } else {
      Concats(fill, Minus(negative), digits);
    }
  }

  /** Signed output: the numeral of the magnitude, padded, with the sign where it belongs. */
  lemma SignedField(value: I32, base: nat, width: nat, pad: char)
    requires 2 <= base <= MAX_BASE && (pad == ' ' || pad == '0')
    ensures
      var v: int := value;
      IsField(FormatSigned(value, base, width, pad), v < 0, Numeral(if v < 0 then -v else v, base), width, pad)
  {
    PaddedIsField(value < 0, Numeral(Magnitude(value), base), width, pad);
  }

  lemma UnsignedField(value: U32, base: nat, width: nat, pad: char)
    requires 2 <= base <= MAX_BASE && (pad == ' ' || pad == '0')
    ensures IsField(FormatUnsigned(value, base, width, pad), false, Numeral(value, base), width, pad)
  {
    PaddedIsField(false, Numeral(value, base), width, pad);
  }

  /** The output is as wide as asked for, or as wide as needed. */
  lemma SignedLength(value: I32, base: nat, width: nat, pad: char)
    requires 2 <= base <= MAX_BASE
    ensures
      var needed := |Numeral(Magnitude(value), base)| + |Sign(value)|;
      |FormatSigned(value, base, width, pad)| == if needed >= width then needed else width
  {
  }

  lemma UnsignedLength(value: U32, base: nat, width: nat, pad: char)
    requires 2 <= base <= MAX_BASE
    ensures
      var needed := |Numeral(value, base)|;
      |FormatUnsigned(value, base, width, pad)| == if needed >= width then needed else width
  {
  }

  /** In the two bases in use the output fits the buffer exactly if the width is at most its size. */
  lemma FitsBufferIff(value: I32, base: nat, width: nat, pad: char)
    requires base == 10 || base == 16
    ensures |FormatSigned(value, base, width, pad)| <= BUFFER_SIZE <==> width <= BUFFER_SIZE
  {
    WordLength(Magnitude(value), base);
    SignedLength(value, base, width, pad);
  }

  lemma UnsignedFitsBufferIff(value: U32, base: nat, width: nat, pad: char)
    requires base == 10 || base == 16
    ensures |FormatUnsigned(value, base, width, pad)| <= BUFFER_SIZE <==> width <= BUFFER_SIZE
  {
    WordLength(value, base);
    UnsignedLength(value, base, width, pad);
  }
}
