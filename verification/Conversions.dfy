/**
 What formats print, directive by directive.  A format is text, or a directive in front of another
 format; for each kind of directive the output is described by itself, without the formatter.
 */
module Conversions {
  import opened Words
  import opened Digits
  import opened Format

  predicate AllDigits(w: string) {
    forall i :: 0 <= i < |w| ==> '0' <= w[i] <= '9'
  }

  /** The directive with this flag, width and specifier. */
  function DirectiveText(zero: bool, w: string, c: char): string {
    (if zero then "%0" else "%") + w + [c]
  }

  /** Without the flag a width does not start with a zero: that zero would be the flag. */
  predicate IsWidth(zero: bool, w: string) {
    AllDigits(w) && (zero || w == [] || w[0] != '0')
  }

  /** The number that at most two digits denote. */
  function ShortWidth(w: string): int
    requires |w| <= 2
  {
    if w == [] then 0
    else if |w| == 1 then w[0] as int - '0' as int
    else (w[0] as int - '0' as int) * 10 + (w[1] as int - '0' as int)
  }

  // ---------------------------------------------------------------- the grammar

  lemma Pieces(zero: bool, w: string, c: char, rest: string)
    requires IsWidth(zero, w) && !('0' <= c <= '9')
    ensures
      var f, skip := DirectiveText(zero, w, c) + rest, if zero then 2 else 1;
      && |DirectiveText(zero, w, c)| == skip + |w| + 1
      && f[0] == '%' && (f[1] == '0' <==> zero)
      && f[skip..] == w + ([c] + rest) && f[skip + |w|] == c && f[skip..skip + |w|] == w
  {
    if zero {
      Parts("%0", w, [c] + rest);
    } else {
      Parts("%", w, [c] + rest);
    }
  }

  lemma Parts(a: string, b: string, c: string)
    requires c != []
    ensures (a + b + c)[|a|..] == b + c && (a + b + c)[|a|..|a| + |b|] == b && (a + b + c)[|a| + |b|] == c[0]
    ensures a + b + c == a + b + [c[0]] + c[1..]
  {
  }

  lemma DirectiveParses(zero: bool, w: string, c: char, rest: string, limit: nat)
    requires IsWidth(zero, w) && !('0' <= c <= '9') && |w| <= limit
    ensures
      var text := DirectiveText(zero, w, c);
      DirectiveOf(text + rest, limit) ==
        if c in "csiuxp%" then Conversion(zero, w, c, |text|) else Unknown(|text|)
  {
    Pieces(zero, w, c, rest);
    Specifiers(c);
    DigitRunIs(w + ([c] + rest), |w|);
  }

  /** The check accepts a directive of any width exactly if its specifier is one of the seven. */
  lemma WellFormedDirective(zero: bool, w: string, c: char, rest: string)
    requires IsWidth(zero, w) && !('0' <= c <= '9')
    ensures WellFormed(DirectiveText(zero, w, c) + rest) <==> c in "csiuxp%" && WellFormed(rest)
  {
    var text := DirectiveText(zero, w, c);
    DirectiveParses(zero, w, c, rest, |text + rest|);
    assert (text + rest)[0] == '%' && (text + rest)[|text|..] == rest;
  }

  lemma WellFormedText(c: char, rest: string)
    requires c != '%'
    ensures WellFormed([c] + rest) <==> WellFormed(rest)
  {
    assert ([c] + rest)[1..] == rest;
  }

  /** A format may end right after a percent sign, but not inside a width. */
  lemma EndsInDirective(zero: bool, w: string)
    requires IsWidth(zero, w)
    ensures WellFormed((if zero then "%0" else "%") + w) <==> !zero && w == []
  {
    var f, skip := (if zero then "%0" else "%") + w, if zero then 2 else 1;
    assert f[skip..] == w;
    DigitRunIs(w, |w|);
  }

  // ---------------------------------------------------------------- what a conversion means

  /** The argument has the type that the specifier expects and a number is not wider than the buffer. */
  predicate Expected(c: char, w: int, a: Arg) {
    if c == 's' then a.Str? && '\0' !in a.text
    else a.Num? && (c in "iux" ==> w <= 16)
  }

  /** `text` at the end, padding in front. */
  predicate IsRightAligned(out: string, text: string, w: int, pad: char) {
    var lead := |out| - |text|;
    && |out| == (if |text| >= w then |text| else w)
    && out[lead..] == text
    && forall i :: 0 <= i < lead ==> out[i] == pad
  }

  /** The output `out` is what specifier `c` with width `w` means for the argument. */
  predicate Means(c: char, zero: bool, w: nat, a: Arg, out: string)
    requires c in "csiuxp" && Expected(c, w, a)
  {
    var pad := if zero then '0' else ' ';
    match c
    case 'c' => |out| == 1 && out[0] as int == a.value % 0x100
    case 's' => IsRightAligned(out, a.text, w, pad)
    case 'i' =>
      var v: int := if a.value < 0x8000_0000 then a.value else a.value - 0x1_0000_0000;
      IsField(out, v < 0, Numeral(if v < 0 then -v else v, 10), w, pad) && ParseNumber(out, 10) == v
    case 'u' => IsField(out, false, Numeral(a.value, 10), w, pad) && ParseNumber(out, 10) == a.value
    case 'x' => IsField(out, false, Numeral(a.value, 16), w, pad) && ParseNumber(out, 16) == a.value
    case _ =>
      && |out| == 10 && out[..2] == "0x"
      && IsField(out[2..], false, Numeral(a.value, 16), 8, '0') && ParseNumber(out[2..], 16) == a.value
  }

  lemma ConvertedMeans(zero: bool, w: string, c: char, a: Arg)
    requires c in "csiuxp" && AllDigits(w) && |w| <= 2 && Expected(c, ShortWidth(w), a)
    ensures TakesArgument(c) && Suits(c, w, a)
    ensures Means(c, zero, ShortWidth(w), a, Converted(zero, w, c, a))
  {
    WidthOfDigits(w);
    Specifiers(c);
    if c == 's' {
      TextMeans(a.text, ShortWidth(w), if zero then '0' else ' ');
    } else if c == 'i' {
      SignedMeans(zero, w, a);
    } else if c == 'u' {
      UnsignedMeans(a.value, 10, ShortWidth(w), if zero then '0' else ' ');
    } else if c == 'x' {
      UnsignedMeans(a.value, 16, ShortWidth(w), if zero then '0' else ' ');
    } else if c == 'p' {
      PointerMeans(zero, w, a);
    }
  }

  lemma Specifiers(c: char)
    ensures c in "csiuxp" <==> TakesArgument(c)
    ensures c in "csiuxp%" <==> IsSpecifier(c)
  {
  }

  lemma TextMeans(text: string, w: nat, pad: char)
    ensures IsRightAligned(Repeat(pad, Missing(w, |text|)) + text, text, w, pad)
  {
  }

  lemma SignedMeans(zero: bool, w: string, a: Arg)
    requires a.Num? && |w| <= 2 && WidthOf(w) == ShortWidth(w) <= 16
    ensures Means('i', zero, WidthOf(w), a, Converted(zero, w, 'i', a))
  {
    SignedField(AsSigned(a.value), 10, WidthOf(w), if zero then '0' else ' ');
    SignedRoundTrip(AsSigned(a.value), 10, WidthOf(w), if zero then '0' else ' ');
  }

  lemma UnsignedMeans(v: U32, base: nat, w: nat, pad: char)
    requires (base == 10 || base == 16) && (pad == ' ' || pad == '0')
    ensures
      var out := FormatUnsigned(v, base, w, pad);
      IsField(out, false, Numeral(v, base), w, pad) && ParseNumber(out, base) == v
  {
    UnsignedField(v, base, w, pad);
    UnsignedRoundTrip(v, base, w, pad);
  }

  lemma PointerMeans(zero: bool, w: string, a: Arg)
    requires a.Num?
    ensures Means('p', zero, 0, a, Converted(zero, w, 'p', a))
  {
    var out := Converted(zero, w, 'p', a);
    assert out[2..] == FormatUnsigned(a.value, 16, 8, '0');
    UnsignedField(a.value, 16, 8, '0');
    UnsignedRoundTrip(a.value, 16, 8, '0');
    assert Power(16, 8) == 0x1_0000_0000;
    NumeralLength(a.value, 16, 8);
  }

  // ---------------------------------------------------------------- what a format prints

  /** A directive that takes an argument prints what it means for the next one; then the rest is printed. */
  lemma DirectivePrints(zero: bool, w: string, c: char, rest: string, a: Arg, args: seq<Arg>) returns (out: string)
    requires c in "csiuxp" && IsWidth(zero, w) && |w| <= 2 && Expected(c, ShortWidth(w), a)
    requires Fits(rest, args, 2)
    ensures
      var f := DirectiveText(zero, w, c) + rest;
      && Fits(f, [a] + args, 2)
      && Means(c, zero, ShortWidth(w), a, out)
      && Rendered(f, [a] + args, 2) == out + Rendered(rest, args, 2)
      && Consumed(f, 2) == 1 + Consumed(rest, 2)
  {
    var text := DirectiveText(zero, w, c);
    DirectiveParses(zero, w, c, rest, 2);
    ConvertedMeans(zero, w, c, a);
    assert (text + rest)[0] == '%' && (text + rest)[|text|..] == rest && ([a] + args)[1..] == args;
    out := Converted(zero, w, c, a);
  }

  /** Two percent signs, also with flag and width between them, print one and take no argument. */
  lemma PercentPrints(zero: bool, w: string, rest: string, args: seq<Arg>)
    requires IsWidth(zero, w) && |w| <= 2 && Fits(rest, args, 2)
    ensures
      var f := DirectiveText(zero, w, '%') + rest;
      && Fits(f, args, 2)
      && Rendered(f, args, 2) == "%" + Rendered(rest, args, 2)
      && Consumed(f, 2) == Consumed(rest, 2)
  {
    var text := DirectiveText(zero, w, '%');
    DirectiveParses(zero, w, '%', rest, 2);
    assert (text + rest)[0] == '%' && (text + rest)[|text|..] == rest;
  }

  /** Any other character prints as itself. */
  lemma TextPrints(c: char, rest: string, args: seq<Arg>)
    requires c != '%' && Fits(rest, args, 2)
    ensures Fits([c] + rest, args, 2) && Rendered([c] + rest, args, 2) == [c] + Rendered(rest, args, 2)
    ensures Consumed([c] + rest, 2) == Consumed(rest, 2)
  {
    assert ([c] + rest)[1..] == rest;
  }

  /** The end of the format, also right after a percent sign or inside a directive, prints nothing. */
  lemma EndPrints(zero: bool, w: string, args: seq<Arg>)
    requires IsWidth(zero, w) && |w| <= 2
    ensures Rendered("", args, 2) == "" && Consumed("", 2) == 0
    ensures
      var f := (if zero then "%0" else "%") + w;
      Fits(f, args, 2) && Rendered(f, args, 2) == "" && Consumed(f, 2) == 0
  {
    var f, skip := (if zero then "%0" else "%") + w, if zero then 2 else 1;
    assert f[skip..] == w;
    DigitRunIs(w, |w|);
  }

  /** For example, the format with which the exception handlers print a word. */
  lemma WordFormat()
    ensures Fits("%08x", [Num(255)], 2) && Rendered("%08x", [Num(255)], 2) == "000000ff"
  {
    var out := DirectivePrints(true, "8", 'x', "", Num(255), []);
    assert DirectiveText(true, "8", 'x') + "" == "%08x" && [Num(255)] + [] == [Num(255)];
    FullByte(out);
    assert out + "" == out;
  }

  lemma FullByte(out: string)
    requires IsField(out, false, Numeral(255, 16), 8, '0')
    ensures out == "000000ff"
  {
    assert Numeral(15, 16) == "f";
    assert Numeral(255, 16) == "ff";
    assert out[6..] == "ff";
    assert out[6] == out[6..][0] && out[7] == out[6..][1];
  }
}
