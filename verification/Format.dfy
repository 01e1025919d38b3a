/**
 The kernel's printf.  Two scanners read the format: one looks for unknown conversions before anything
 is printed, the other prints.  A NUL-terminated string is modelled by its characters before the NUL;
 every read is shown to be at one of these or at the NUL itself.
 */
module Format {
  import opened Words
  import opened Digits

  const NUL: char := '\0'
  const UNKNOWN_MESSAGE: string := "Unknown conversion specifier\n"
  /** How many width digits the printing scanner reads. */
  const MAX_WIDTH_DIGITS: nat := 2

  /** One variadic argument: a 32-bit word or a pointer to a NUL-terminated string. */
  datatype Arg = Num(value: U32) | Str(text: string)

  /** What the pointer `s + i` points to. */
  function At(s: string, i: nat): char
    requires i <= |s|
  {
    if i < |s| then s[i] else NUL
  }

  predicate IsString(s: string) {
    NUL !in s
  }

  // ---------------------------------------------------------------- the format language

  predicate IsDigit(c: char) {
    '0' <= c <= '9'
  }

  predicate TakesArgument(c: char) {
    c == 'c' || c == 's' || c == 'i' || c == 'u' || c == 'x' || c == 'p'
  }

  predicate IsSpecifier(c: char) {
    TakesArgument(c) || c == '%'
  }

  /** The number of leading digits. */
  function DigitRun(f: string): (n: nat)
    ensures n <= |f| && (forall i :: 0 <= i < n ==> IsDigit(f[i])) && (n < |f| ==> !IsDigit(f[n]))
  {
    if f != [] && IsDigit(f[0]) then 1 + DigitRun(f[1..]) else 0
  }

  datatype Directive =
    | End
    | Unknown(length: nat)
    | Conversion(zero: bool, width: string, specifier: char, length: nat)

  /** The directive that starts with the `%` at the front of `f`, with at most `limit` width digits. */
  function DirectiveOf(f: string, limit: nat): (d: Directive)
    requires f != []
    ensures !d.End? ==> 1 < d.length <= |f|
  {
    var zero := |f| > 1 && f[1] == '0';
    var skip := if zero then 2 else 1;
    var n := Min(DigitRun(f[skip..]), limit);
    if skip + n >= |f| then End
    else if IsSpecifier(f[skip + n]) then Conversion(zero, f[skip..skip + n], f[skip + n], skip + n + 1)
    else Unknown(skip + n + 1)
  }

  /** Every `%` starts a known conversion with a width of any length, or is the last character. */
  predicate WellFormed(f: string)
    decreases |f|
  {
    if f == [] then true
    else if f[0] != '%' then WellFormed(f[1..])
    else match DirectiveOf(f, |f|)
      case End => |f| == 1
      case Unknown(_) => false
      case Conversion(_, _, _, length) => WellFormed(f[length..])
  }

  predicate ShortWidths(f: string)
    decreases |f|
  {
    if f == [] then true
    else if f[0] != '%' then ShortWidths(f[1..])
    else match DirectiveOf(f, |f|)
      case End => true
      case Unknown(length) => ShortWidths(f[length..])
      case Conversion(_, width, _, length) => |width| <= MAX_WIDTH_DIGITS && ShortWidths(f[length..])
  }

  // ---------------------------------------------------------------- what a format prints

  function AsSigned(v: U32): I32 {
    if v < 0x8000_0000 then v else v - 0x1_0000_0000
  }

  function WidthOf(width: string): nat {
    var w := Value(width, 10);
    if w < 0 then 0 else w
  }

  /** The argument is of the type that the conversion expects, and a number fits the buffer. */
  predicate Suits(specifier: char, width: string, a: Arg) {
    if specifier == 's' then a.Str? && IsString(a.text)
    else a.Num? && (specifier == 'i' || specifier == 'u' || specifier == 'x' ==> WidthOf(width) <= BUFFER_SIZE)
  }

  function Converted(zero: bool, width: string, specifier: char, a: Arg): string
    requires TakesArgument(specifier) && Suits(specifier, width, a)
  {
    var pad := if zero then '0' else ' ';
    var w := WidthOf(width);
    match specifier
    case 'c' => [(a.value % 0x100) as char]
    case 's' => Repeat(pad, Missing(w, |a.text|)) + a.text
    case 'i' => FormatSigned(AsSigned(a.value), 10, w, pad)
    case 'u' => FormatUnsigned(a.value, 10, w, pad)
    case 'x' => FormatUnsigned(a.value, 16, w, pad)
    case _ => "0x" + FormatUnsigned(a.value, 16, 8, '0')
  }

  /** There is a suitable argument for every conversion. */
  predicate Fits(f: string, args: seq<Arg>, limit: nat)
    decreases |f|
  {
    if f == [] then true
    else if f[0] != '%' then Fits(f[1..], args, limit)
    else match DirectiveOf(f, limit)
      case End => true
      case Unknown(length) => Fits(f[length..], args, limit)
      case Conversion(_, width, c, length) =>
        if TakesArgument(c) then args != [] && Suits(c, width, args[0]) && Fits(f[length..], args[1..], limit)
        else Fits(f[length..], args, limit)
  }

  function Rendered(f: string, args: seq<Arg>, limit: nat): string
    requires Fits(f, args, limit)
    decreases |f|
  {
    if f == [] then []
    else if f[0] != '%' then [f[0]] + Rendered(f[1..], args, limit)
    else match DirectiveOf(f, limit)
      case End => []
      case Unknown(length) => UNKNOWN_MESSAGE + Rendered(f[length..], args, limit)
      case Conversion(zero, width, c, length) =>
        if TakesArgument(c) then Converted(zero, width, c, args[0]) + Rendered(f[length..], args[1..], limit)
        else "%" + Rendered(f[length..], args, limit)
  }

  /** The number of conversions that take an argument. */
  function Consumed(f: string, limit: nat): nat
    decreases |f|
  {
    if f == [] then 0
    else if f[0] != '%' then Consumed(f[1..], limit)
    else match DirectiveOf(f, limit)
      case End => 0
      case Unknown(length) => Consumed(f[length..], limit)
      case Conversion(_, _, c, length) => (if TakesArgument(c) then 1 else 0) + Consumed(f[length..], limit)
  }

  /** Scanning with the digit limit never meets an unknown conversion. */
  predicate AllKnown(f: string, limit: nat)
    decreases |f|
  {
    if f == [] then true
    else if f[0] != '%' then AllKnown(f[1..], limit)
    else match DirectiveOf(f, limit)
      case End => true
      case Unknown(_) => false
      case Conversion(_, _, _, length) => AllKnown(f[length..], limit)
  }

  // ---------------------------------------------------------------- the two scanners agree

  /** A short width is read completely; of a longer one the third digit is taken for the specifier. */
  lemma LimitMatters(f: string)
    requires f != [] && DirectiveOf(f, |f|).Conversion?
    ensures
      var d := DirectiveOf(f, |f|);
      if |d.width| <= MAX_WIDTH_DIGITS then DirectiveOf(f, MAX_WIDTH_DIGITS) == d
      else DirectiveOf(f, MAX_WIDTH_DIGITS).Unknown?
  {
  }

  /**
   For a format that the check accepts, printing meets an unknown conversion exactly if some width
   has more than two digits.
   */
  lemma {:induction false} DefaultReachedIff(f: string)
    requires WellFormed(f)
    ensures AllKnown(f, MAX_WIDTH_DIGITS) <==> ShortWidths(f)
    decreases |f|
  {
    if f == [] {
    } else if f[0] != '%' {
      DefaultReachedIff(f[1..]);
    } else if |f| > 1 {
      LimitMatters(f);
      DefaultReachedIff(f[DirectiveOf(f, |f|).length..]);
    }
  }

  /** With the limit at least the length of the format it does not matter. */
  lemma LargeLimit(f: string, limit: nat)
    requires f != [] && limit >= |f|
    ensures DirectiveOf(f, limit) == DirectiveOf(f, |f|)
  {
  }

  /**
   For an accepted format with widths of at most two digits, what is printed and consumed is what the
   grammar with unlimited widths says.
   */
  lemma {:induction false} ScannersAgree(f: string, args: seq<Arg>, limit: nat)
    requires WellFormed(f) && ShortWidths(f) && limit >= |f|
    ensures Fits(f, args, MAX_WIDTH_DIGITS) <==> Fits(f, args, limit)
    ensures Fits(f, args, limit) ==> Rendered(f, args, MAX_WIDTH_DIGITS) == Rendered(f, args, limit)
    ensures Consumed(f, MAX_WIDTH_DIGITS) == Consumed(f, limit)
    decreases |f|
  {
    if f == [] {
    } else if f[0] != '%' {
      ScannersAgree(f[1..], args, limit);
    } else {
      LargeLimit(f, limit);
      if |f| > 1 {
        LimitMatters(f);
        var d := DirectiveOf(f, |f|);
        ScannersAgree(f[d.length..], args, limit);
        if args != [] {
          ScannersAgree(f[d.length..], args[1..], limit);
        }
      }
    }
  }

  // ---------------------------------------------------------------- the checking scanner

  lemma {:induction false} DigitRunIs(f: string, n: nat)
    requires n <= |f| && (forall i :: 0 <= i < n ==> IsDigit(f[i])) && (n < |f| ==> !IsDigit(f[n]))
    ensures DigitRun(f) == n
    decreases n
  {
    if n > 0 {
      DigitRunIs(f[1..], n - 1);
    }
  }

  method SkipDigits(format: string, start: nat) returns (i: nat)
    requires IsString(format) && start <= |format|
    ensures i == start + DigitRun(format[start..]) <= |format|
  {
    i := start;
    while IsDigit(At(format, i))
      invariant start <= i <= |format|
      invariant forall j :: start <= j < i ==> IsDigit(format[j])
      decreases |format| - i
    {
      i := i + 1;
    }
    DigitRunIs(format[start..], i - start);
  }

  /** Skips one directive; `i` is at its percent sign, which is not the last character. */
  method CheckDirective(format: string, i: nat) returns (unknown: bool, next: nat)
    requires IsString(format) && i + 1 < |format| && format[i] == '%'
    ensures unknown <==> !DirectiveOf(format[i..], |format| - i).Conversion?
    ensures !unknown ==> next == i + DirectiveOf(format[i..], |format| - i).length
  {
    ghost var f := format[i..];
    next := i + 1;
    if At(format, next) == '0' {
      next := next + 1;
    }
    assert format[next..] == f[next - i..];
    next := SkipDigits(format, next);
    unknown := !IsSpecifier(At(format, next));
    if !unknown {
      next := next + 1;
    }
  }

  /** Skips one directive and decides about it. */
  method CheckNext(format: string, i: nat) returns (unknown: bool, next: nat)
    requires IsString(format) && i + 1 < |format| && format[i] == '%'
    ensures unknown ==> !WellFormed(format[i..])
    ensures !unknown ==> i < next <= |format| && WellFormed(format[i..]) == WellFormed(format[next..])
  {
    ghost var f := format[i..];
    unknown, next := CheckDirective(format, i);
    if !unknown {
      assert format[next..] == f[next - i..];
    }
  }

  /** Accepts exactly the well-formed formats and reads no character behind the NUL. */
  method CheckForUnknownFormat(format: string) returns (unknown: bool)
    requires IsString(format)
    ensures unknown <==> !WellFormed(format)
  {
    var i := 0;
    assert format[0..] == format;
    while At(format, i) != NUL
      invariant i <= |format| && WellFormed(format) == WellFormed(format[i..])
      decreases |format| - i
    {
      i := SkipText(format, i);
      if At(format, i) == NUL {
        return false;
      }
      if At(format, i + 1) == NUL {
        return false;
      }
      var bad, next := CheckNext(format, i);
      if bad {
        return true;
      }
      i := next;
    }
    unknown := false;
  }

  method SkipText(format: string, start: nat) returns (i: nat)
    requires IsString(format) && start <= |format|
    ensures start <= i <= |format| && WellFormed(format[start..]) == WellFormed(format[i..])
    ensures i == |format| || format[i] == '%'
  {
    i := start;
    while At(format, i) != NUL && At(format, i) != '%'
      invariant start <= i <= |format| && WellFormed(format[start..]) == WellFormed(format[i..])
      decreases |format| - i
    {
      assert format[i..][1..] == format[i + 1..];
      i := i + 1;
    }
  }

  // ---------------------------------------------------------------- the printing scanner

  /** Reads at most two digits and leaves the default width if there is none. */
  method ParseWidth(format: string, start: nat) returns (i: nat, width: nat)
    requires IsString(format) && start <= |format|
    ensures i == start + Min(DigitRun(format[start..]), MAX_WIDTH_DIGITS) <= |format|
    ensures width == WidthOf(format[start..i])
  {
    var buff := new char[2](_ => '0');
    var numDigits := 0;
    i := start;
    while At(format, i) != NUL && IsDigit(At(format, i)) && numDigits < 2
      invariant i == start + numDigits <= |format| && numDigits <= 2
      invariant forall j :: start <= j < i ==> IsDigit(format[j])
      invariant buff[..numDigits] == format[start..i]
      decreases 2 - numDigits
    {
      WriteAt(buff, numDigits, At(format, i));
      assert format[start..i + 1] == format[start..i] + [format[i]];
      numDigits := numDigits + 1;
      i := i + 1;
    }
    if numDigits < 2 {
      DigitRunIs(format[start..], numDigits);
    } else {
      LongRun(format[start..]);
    }
    WidthOfDigits(buff[..numDigits]);
    if numDigits == 0 {
      return i, 0;
    }
    width := if numDigits == 1 then buff[0] as nat - '0' as nat
             else (buff[0] as nat - '0' as nat) * 10 + (buff[1] as nat - '0' as nat);
  }

  lemma LongRun(f: string)
    requires |f| >= 2 && IsDigit(f[0]) && IsDigit(f[1])
    ensures DigitRun(f) >= 2
  {
    assert f[1..][0] == f[1];
  }

  lemma WidthOfDigits(w: string)
    requires |w| <= 2 && forall i :: 0 <= i < |w| ==> IsDigit(w[i])
    ensures w == [] ==> WidthOf(w) == 0
    ensures |w| == 1 ==> WidthOf(w) == w[0] as nat - '0' as nat
    ensures |w| == 2 ==> WidthOf(w) == (w[0] as nat - '0' as nat) * 10 + (w[1] as nat - '0' as nat)
  {
    if |w| >= 1 {
      ValueSnoc([], w[0], 10);
      assert [] + [w[0]] == w[..1];
      if |w| == 2 {
        ValueSnoc(w[..1], w[1], 10);
        assert w == w[..1] + [w[1]];
      } else {
        assert w == w[..1];
      }
    }
  }

  /** The argument of an `s` conversion, found to its NUL twice: to measure and to print. */
  method PrintString(text: string, width: nat, pad: char) returns (out: string)
    requires IsString(text)
    ensures out == Repeat(pad, Missing(width, |text|)) + text
  {
    var length := 0;
    while At(text, length) != NUL
      invariant length <= |text|
      decreases |text| - length
    {
      length := length + 1;
    }
    var paddingNeeded := if length >= width then 0 else width - length;
    out := "";
    for j := 0 to paddingNeeded
      invariant out == Repeat(pad, j)
    {
      out := out + [pad];
    }
    var i := 0;
    while At(text, i) != NUL
      invariant i <= |text| && out == Repeat(pad, paddingNeeded) + text[..i]
      decreases |text| - i
    {
      out := out + [text[i]];
      i := i + 1;
    }
    assert text[..i] == text;
  }

  /** One conversion that takes an argument. */
  method PrintArgument(specifier: char, a: Arg, ghost zero: bool, ghost digits: string, pad: char, width: nat)
    returns (out: string)
    requires TakesArgument(specifier) && Suits(specifier, digits, a)
    requires width == WidthOf(digits) && pad == if zero then '0' else ' '
    ensures out == Converted(zero, digits, specifier, a)
  {
    match specifier
    case 'c' => out := [(a.value % 0x100) as char];
    case 's' => out := PrintString(a.text, width, pad);
    case 'i' =>
      FitsBufferIff(AsSigned(a.value), 10, width, pad);
      out := PrintInBaseSigned(AsSigned(a.value), 10, width, pad);
    case 'u' =>
      UnsignedFitsBufferIff(a.value, 10, width, pad);
      out := PrintInBaseUnsigned(a.value, 10, width, pad);
    case 'x' =>
      UnsignedFitsBufferIff(a.value, 16, width, pad);
      out := PrintInBaseUnsigned(a.value, 16, width, pad);
    case _ =>
      UnsignedFitsBufferIff(a.value, 16, 8, '0');
      out := PrintInBaseUnsigned(a.value, 16, 8, '0');
      out := "0x" + out;
  }

  /** A text without percent signs prints as itself. */
  lemma {:induction false} PlainText(f: string, limit: nat)
    requires '%' !in f
    ensures WellFormed(f) && Fits(f, [], limit) && Rendered(f, [], limit) == f && Consumed(f, limit) == 0
  {
    if f != [] {
      PlainText(f[1..], limit);
      assert f == [f[0]] + f[1..];
    }
  }

  /** The flag behind the percent sign. */
  method ScanFlag(format: string, start: nat) returns (i: nat, pad: char)
    requires IsString(format) && start < |format|
    ensures
      var flagged := start + 1 < |format| && format[start + 1] == '0';
      i == start + (if flagged then 2 else 1) && pad == (if flagged then '0' else ' ')
  {
    i := start + 1;
    pad := ' ';
    if At(format, i) == '0' {
      pad := '0';
      i := i + 1;
    }
  }

  /** What the scan of flag and width has found at `i`. */
  ghost predicate Scanned(d: Directive, format: string, start: nat, i: nat, pad: char, width: nat) {
    && start < i <= |format|
    && match d
       case End => i == |format|
       case Unknown(length) => i + 1 == start + length <= |format| && !IsSpecifier(format[i])
       case Conversion(zero, digits, c, length) =>
         && i + 1 == start + length <= |format| && format[i] == c
         && pad == (if zero then '0' else ' ') && width == WidthOf(digits)
  }

  /** The scan of one directive up to its specifier: flag, then width. */
  method ScanDirective(format: string, start: nat) returns (i: nat, pad: char, width: nat)
    requires IsString(format) && start < |format| && format[start] == '%'
    ensures Scanned(DirectiveOf(format[start..], MAX_WIDTH_DIGITS), format, start, i, pad, width)
  {
    width := 0;
    i, pad := ScanFlag(format, start);
    if At(format, i) == NUL {
      return;
    }
    ghost var skip := i - start;
    i, width := ParseWidth(format, i);
    DirectiveFound(format, start, skip, i);
  }

  lemma DirectiveFound(format: string, start: nat, skip: nat, i: nat)
    requires start < |format| && start + skip <= i <= |format|
    requires skip == if start + 1 < |format| && format[start + 1] == '0' then 2 else 1
    requires i == start + skip + Min(DigitRun(format[start + skip..]), MAX_WIDTH_DIGITS)
    ensures
      DirectiveOf(format[start..], MAX_WIDTH_DIGITS) ==
        if i == |format| then End
        else if IsSpecifier(format[i]) then Conversion(skip == 2, format[start + skip..i], format[i], i - start + 1)
        else Unknown(i - start + 1)
  {
    SliceOfSuffix(format, start, skip, |format|);
    SliceOfSuffix(format, start, skip, i);
    assert format[start..][skip..|format| - start] == format[start..][skip..];
  }

  lemma SliceOfSuffix(s: string, a: nat, b: nat, c: nat)
    requires a + b <= c <= |s|
    ensures s[a..][b..c - a] == s[a + b..c]
  {
  }

  /** How many arguments a directive takes, and what it prints. */
  function Taken(d: Directive): nat {
    if d.Conversion? && TakesArgument(d.specifier) then 1 else 0
  }

  function Piece(d: Directive, args: seq<Arg>): string
    requires !d.End? && (Taken(d) == 1 ==> args != [] && Suits(d.specifier, d.width, args[0]))
  {
    if d.Unknown? then UNKNOWN_MESSAGE
    else if Taken(d) == 1 then Converted(d.zero, d.width, d.specifier, args[0])
    else "%"
  }

  lemma RenderedSplits(f: string, args: seq<Arg>, limit: nat)
    requires f != [] && f[0] == '%' && Fits(f, args, limit) && !DirectiveOf(f, limit).End?
    ensures
      var d := DirectiveOf(f, limit);
      && (Taken(d) == 1 ==> args != [] && Suits(d.specifier, d.width, args[0]))
      && Fits(f[d.length..], args[Taken(d)..], limit)
      && Rendered(f, args, limit) == Piece(d, args) + Rendered(f[d.length..], args[Taken(d)..], limit)
      && Consumed(f, limit) == Taken(d) + Consumed(f[d.length..], limit)
  {
    assert args[0..] == args;
  }

  /** The switch on the specifier; its default branch prints the error line. */
  method PrintSpecifier(
      c: char, ghost d: Directive, args: seq<Arg>, first: nat, pad: char, width: nat, ghost within: string)
    returns (out: string, used: nat)
    requires first <= |args| && '%' in within
    requires match d
             case End => false
             case Unknown(_) => !IsSpecifier(c)
             case Conversion(zero, digits, specifier, _) =>
               c == specifier && IsSpecifier(c) && pad == (if zero then '0' else ' ') && width == WidthOf(digits)
    requires Taken(d) == 1 ==> first < |args| && Suits(d.specifier, d.width, args[first])
    ensures out == Piece(d, args[first..]) && used == first + Taken(d)
    decreases '%' in within, 0
  {
    used := first;
    if TakesArgument(c) {
      out := PrintArgument(c, args[first], d.zero, d.width, pad, width);
      used := first + 1;
    } else if c == '%' {
      out := "%";
    } else {
      MessagePrintsItself();
      var none;
      out, none := Kprintf(UNKNOWN_MESSAGE, []);
    }
  }

  /** Prints what the directive at `start` asks for; `done` if the format ends inside it. */
  method PrintDirective(format: string, start: nat, args: seq<Arg>, first: nat)
    returns (next: nat, out: string, used: nat, done: bool)
    requires IsString(format) && start < |format| && format[start] == '%'
    requires first <= |args| && Fits(format[start..], args[first..], MAX_WIDTH_DIGITS)
    ensures
      var f, rest := format[start..], args[first..];
      if done then Rendered(f, rest, MAX_WIDTH_DIGITS) == [] && Consumed(f, MAX_WIDTH_DIGITS) == 0
      else
        && start < next <= |format| && first <= used <= |args|
        && Fits(format[next..], args[used..], MAX_WIDTH_DIGITS)
        && Rendered(f, rest, MAX_WIDTH_DIGITS) == out + Rendered(format[next..], args[used..], MAX_WIDTH_DIGITS)
        && Consumed(f, MAX_WIDTH_DIGITS) == (used - first) + Consumed(format[next..], MAX_WIDTH_DIGITS)
    decreases '%' in format, 1
  {
    ghost var f := format[start..];
    ghost var d := DirectiveOf(f, MAX_WIDTH_DIGITS);
    var i, pad, width := ScanDirective(format, start);
    next, out, used, done := i, "", first, false;
    if At(format, i) == NUL {
      done := true;
      return;
    }
    RenderedSplits(f, args[first..], MAX_WIDTH_DIGITS);
    out, used := PrintSpecifier(At(format, i), d, args, first, pad, width, format);
    next := i + 1;
    assert format[next..] == f[d.length..] && args[used..] == args[first..][Taken(d)..];
  }

  lemma NoPercent()
    ensures '%' !in UNKNOWN_MESSAGE && IsString(UNKNOWN_MESSAGE)
  {
  }

  lemma MessagePrintsItself()
    ensures '%' !in UNKNOWN_MESSAGE && IsString(UNKNOWN_MESSAGE)
    ensures WellFormed(UNKNOWN_MESSAGE) && Fits(UNKNOWN_MESSAGE, [], MAX_WIDTH_DIGITS)
    ensures Rendered(UNKNOWN_MESSAGE, [], MAX_WIDTH_DIGITS) == UNKNOWN_MESSAGE
  {
    NoPercent();
    PlainText(UNKNOWN_MESSAGE, MAX_WIDTH_DIGITS);
  }

  /**
   A rejected format prints only the error line.  An accepted one prints and consumes what its
   directives, read with at most two width digits, say.
   */
  method Kprintf(format: string, args: seq<Arg>) returns (out: string, used: nat)
    requires IsString(format)
    requires WellFormed(format) ==> Fits(format, args, MAX_WIDTH_DIGITS)
    ensures !WellFormed(format) ==> out == "Unknown conversion specifier\n" && used == 0
    ensures WellFormed(format) ==>
              out == Rendered(format, args, MAX_WIDTH_DIGITS) && used == Consumed(format, MAX_WIDTH_DIGITS)
    decreases '%' in format, 3
  {
    out, used := "", 0;
    var unknown := CheckForUnknownFormat(format);
    if unknown {
      MessagePrintsItself();
      RejectedHasPercent(format);
      out, used := Kprintf(UNKNOWN_MESSAGE, []);
      used := 0;
      return;
    }
    out, used := PrintAccepted(format, args);
  }

  /** The printing loop. */
  method PrintAccepted(format: string, args: seq<Arg>) returns (out: string, used: nat)
    requires IsString(format) && Fits(format, args, MAX_WIDTH_DIGITS)
    ensures out == Rendered(format, args, MAX_WIDTH_DIGITS) && used == Consumed(format, MAX_WIDTH_DIGITS)
    decreases '%' in format, 2
  {
    ghost var whole, count := Rendered(format, args, MAX_WIDTH_DIGITS), Consumed(format, MAX_WIDTH_DIGITS);
    var i := 0;
    out, used := "", 0;
    assert format[0..] == format && args[0..] == args;
    while At(format, i) != NUL
      invariant i <= |format| && used <= |args|
      invariant Fits(format[i..], args[used..], MAX_WIDTH_DIGITS)
      invariant whole == out + Rendered(format[i..], args[used..], MAX_WIDTH_DIGITS)
      invariant count == used + Consumed(format[i..], MAX_WIDTH_DIGITS)
      decreases |format| - i
    {
      if At(format, i) != '%' {
        assert format[i..][1..] == format[i + 1..];
        Concats(out, [format[i]], Rendered(format[i + 1..], args[used..], MAX_WIDTH_DIGITS));
        out := out + [format[i]];
        i := i + 1;
      } else {
        var next, piece, used', done := PrintDirective(format, i, args, used);
        if done {
          return;
        }
        Concats(out, piece, Rendered(format[next..], args[used'..], MAX_WIDTH_DIGITS));
        out := out + piece;
        i, used := next, used';
      }
    }
  }

  lemma {:induction false} RejectedHasPercent(f: string)
    requires !WellFormed(f)
    ensures '%' in f
  {
    if f[0] != '%' {
      RejectedHasPercent(f[1..]);
    }
  }

  /**
   The two scanners agree: for an accepted format whose widths have at most two digits, printing is
   rendering by the grammar, one argument is consumed for every conversion that takes one, and no
   directive is unknown.
   */
  lemma PrintfMeetsGrammar(format: string, args: seq<Arg>)
    requires WellFormed(format) && ShortWidths(format) && Fits(format, args, |format|)
    ensures Fits(format, args, MAX_WIDTH_DIGITS) && AllKnown(format, MAX_WIDTH_DIGITS)
    ensures Rendered(format, args, MAX_WIDTH_DIGITS) == Rendered(format, args, |format|)
    ensures Consumed(format, MAX_WIDTH_DIGITS) == Consumed(format, |format|) <= |args|
  {
    ScannersAgree(format, args, |format|);
    DefaultReachedIff(format);
    EnoughArguments(format, args, |format|);
  }

  lemma {:induction false} EnoughArguments(f: string, args: seq<Arg>, limit: nat)
    requires Fits(f, args, limit)
    ensures Consumed(f, limit) <= |args|
    decreases |f|
  {
    if f == [] {
    } else if f[0] != '%' {
      EnoughArguments(f[1..], args, limit);
    } else {
      match DirectiveOf(f, limit)
      case End =>
      case Unknown(length) => EnoughArguments(f[length..], args, limit);
      case Conversion(_, _, c, length) =>
        EnoughArguments(f[length..], if TakesArgument(c) then args[1..] else args, limit);
    }
  }

  /**
   A number with an accepted, short width of more than 16 overruns the buffer whatever the argument:
   no arguments suit the format.
   */
  lemma WideNumberCounterexample(args: seq<Arg>, a: Arg)
    ensures WellFormed("%17i") && ShortWidths("%17i")
    ensures !Suits('i', "17", a) && !Fits("%17i", args, MAX_WIDTH_DIGITS)
    ensures a.Num? ==> |FormatSigned(AsSigned(a.value), 10, WidthOf("17"), ' ')| > BUFFER_SIZE
  {
    var f := "%17i";
    assert f[1..] == "17i";
    DigitRunIs(f[1..], 2);
    assert DirectiveOf(f, |f|) == Conversion(false, "17", 'i', 4);
    assert f[4..] == [];
    WidthOfDigits("17");
    LimitMatters(f);
    if a.Num? {
      FitsBufferIff(AsSigned(a.value), 10, 17, ' ');
    }
  }

  /** A width of three digits is accepted by the check and then misread: the error line and the rest come out. */
  lemma LongWidthCounterexample(args: seq<Arg>)
    ensures WellFormed("%100i") && !AllKnown("%100i", MAX_WIDTH_DIGITS)
    ensures Fits("%100i", args, 2) && Rendered("%100i", args, 2) == "Unknown conversion specifier\ni"
  {
    var f := "%100i";
    assert f[1..] == "100i";
    DigitRunIs(f[1..], 3);
    var d := DirectiveOf(f, |f|);
    assert d == Conversion(false, "100", 'i', 5);
    assert f[5..] == [];
    assert DirectiveOf(f, 2) == Unknown(4);
    assert f[4..] == "i" && "i"[1..] == "";
  }
}
