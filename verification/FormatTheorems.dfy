/** What the printed numbers and the parsed conversions mean. */
module FormatTheorems {
  import opened Basics
  import opened FormatModel

  // ---- Numerals read back -----------------------------------------------------------------

  predicate IsDigitOf(c: char, r: Radix) {
    IsDigit(c) || (r == LowerHex && 'a' <= c <= 'f') || (r == UpperHex && 'A' <= c <= 'F')
  }

  function CharValue(c: char): nat {
    if '0' <= c <= '9' then c as int - '0' as int
    else if 'a' <= c <= 'f' then c as int - 'a' as int + 10
    else if 'A' <= c <= 'F' then c as int - 'A' as int + 10
    else 0
  }

  /** The number a string of digits stands for, read from the left onto acc. */
  function Value(s: string, r: Radix, acc: nat): nat {
    if s == "" then acc else Value(s[1..], r, Base(r) * acc + CharValue(s[0]))
  }

  lemma DigitReads(d: nat, r: Radix)
    requires d < Base(r)
    ensures CharValue(DigitChar(d, r)) == d && IsDigitOf(DigitChar(d, r), r)
    ensures DigitChar(d, r) == '0' <==> d == 0
  {
  }

  lemma {:induction false} ValueAppend(s: string, c: char, r: Radix, acc: nat)
    ensures Value(s + [c], r, acc) == Base(r) * Value(s, r, acc) + CharValue(c)
    decreases s
  {
    if s != "" {
      assert (s + [c])[1..] == s[1..] + [c];
      ValueAppend(s[1..], c, r, Base(r) * acc + CharValue(s[0]));
    }
  }

  /** Every numeral stands for the number it was made from. */
  lemma {:induction false} NumeralReadsBack(n: nat, r: Radix)
    ensures Value(Numeral(n, r), r, 0) == n
    ensures forall i :: 0 <= i < |Numeral(n, r)| ==> IsDigitOf(Numeral(n, r)[i], r)
    ensures n > 0 ==> Numeral(n, r)[0] != '0'
  {
    if n < Base(r) {
      DigitReads(n, r);
      assert Numeral(n, r)[1..] == "";
    } else {
      NumeralReadsBack(Quotient(n, r), r);
      DigitReads(Remainder(n, r), r);
      ValueAppend(Numeral(Quotient(n, r), r), DigitChar(Remainder(n, r), r), r, 0);
    }
  }

  function Power(r: Radix, k: nat): nat {
    if k == 0 then 1 else Base(r) * Power(r, k - 1)
  }

  /** A number below the k-th power of the base takes at most k digits. */
  lemma {:induction false} NumeralLength(n: nat, r: Radix, k: nat)
    requires k > 0 && n < Power(r, k)
    ensures |Numeral(n, r)| <= k
    decreases k
  {
    if n >= Base(r) {
      assert k > 1 by { assert Power(r, 1) == Base(r) * Power(r, 0) == Base(r); }
      NumeralLength(Quotient(n, r), r, k - 1);
    }
  }

  lemma PowersOfTen()
    ensures Power(Decimal, 19) == 10_000_000_000_000_000_000
  {
    assert Power(Decimal, 5) == 100_000;
    assert Power(Decimal, 10) == 10_000_000_000;
    assert Power(Decimal, 15) == 1_000_000_000_000_000;
  }

  lemma PowersOfSixteen(r: Radix)
    requires r != Decimal
    ensures Power(r, 16) == WORD
  {
    assert Power(r, 4) == 0x1_0000;
    assert Power(r, 8) == 0x1_0000_0000;
    assert Power(r, 12) == 0x1_0000_0000_0000;
  }

  /** The scratch buffers of 25 and 16 characters are never outgrown. */
  lemma ScratchSuffices(spec: Spec, bits: nat)
    requires bits < WORD
    ensures spec.conv == 'd' ==> |NumeralOf(spec, bits)| <= 20
    ensures spec.conv != 'd' ==> |NumeralOf(spec, bits)| <= 16
  {
    if spec.conv == 'd' {
      PowersOfTen();
      var v := Signed(spec.mod, bits);
      NumeralLength(if v < 0 then -v else v, Decimal, 19);
    } else {
      var r := if spec.conv == 'X' then UpperHex else LowerHex;
      PowersOfSixteen(r);
      NumeralLength(Unsigned(spec, bits), r, 16);
    }
  }

  // ---- Fields -----------------------------------------------------------------------------

  /** A field is exactly as long as the longest of pad, precision and numeral: it ends in the
      numeral, before it come zeros up to the precision, and before those the fill. */
  lemma FieldLength(spec: Spec, numeral: string)
    ensures |Field(spec, numeral)| == Max(spec.pad, Max(spec.prec, |numeral|))
    ensures Field(spec, numeral)[|Field(spec, numeral)| - |numeral|..] == numeral
    ensures var f, n := Field(spec, numeral), Max(spec.prec, |numeral|);
      && (forall i :: 0 <= i < |f| - n ==> f[i] == if spec.zero then '0' else ' ')
      && (forall i :: |f| - n <= i < |f| - |numeral| ==> f[i] == '0')
  {
  }

  datatype Reading = Number(value: int) | NotANumber

  predicate AllDigits(s: string) {
    s != "" && forall i :: 0 <= i < |s| ==> IsDigit(s[i])
  }

  /** Blanks, an optional minus sign, digits: how a decimal number is read. */
  function ReadDecimal(s: string): Reading {
    if s != "" && s[0] == ' ' then ReadDecimal(s[1..])
    else if s != "" && s[0] == '-' then
      if AllDigits(s[1..]) then Number(0 - Value(s[1..], Decimal, 0)) else NotANumber
    else if AllDigits(s) then Number(Value(s, Decimal, 0)) else NotANumber
  }

  lemma {:induction false} BlanksSkipped(k: nat, s: string)
    ensures ReadDecimal(Repeat(' ', k) + s) == ReadDecimal(s)
  {
    if k == 0 {
      assert Repeat(' ', k) + s == s;
    } else {
      assert (Repeat(' ', k) + s)[1..] == Repeat(' ', k - 1) + s;
      BlanksSkipped(k - 1, s);
    }
  }

  lemma {:induction false} ZerosSkipped(k: nat, s: string)
    ensures Value(Repeat('0', k) + s, Decimal, 0) == Value(s, Decimal, 0)
  {
    if k == 0 {
      assert Repeat('0', k) + s == s;
    } else {
      assert (Repeat('0', k) + s)[1..] == Repeat('0', k - 1) + s;
      ZerosSkipped(k - 1, s);
    }
  }

  /** Zeros in front of a numeral read back exactly when it carries no sign. */
  lemma ZerosRead(k: nat, v: int)
    requires v != -HALF_WORD
    ensures ReadDecimal(Repeat('0', k) + SignedNumeral(v)) == Number(v) <==> v >= 0 || k == 0
  {
    hide Numeral;
    var n := if v < 0 then -v else v;
    var digits := Numeral(n, Decimal);
    NumeralReadsBack(n, Decimal);
    assert SignedNumeral(v) == if v < 0 then "-" + digits else digits;
    var s := Repeat('0', k) + SignedNumeral(v);
    if v >= 0 {
      ZerosSkipped(k, digits);
      assert AllDigits(s);
      assert s[0] == if k > 0 then '0' else digits[0];
    } else if k == 0 {
      assert s == "-" + digits && s[1..] == digits;
    } else {
      assert s[0] == '0' && s[k] == '-';
      assert !AllDigits(s);
    }
  }

  /** The least 64-bit number never reads back. */
  lemma LeastUnreadable(k: nat)
    ensures ReadDecimal(Repeat('0', k) + SignedNumeral(-HALF_WORD)) == NotANumber
  {
    hide Numeral;
    var m := LoopDigits(-HALF_WORD);
    LeastFirst();
    var s := Repeat('0', k) + SignedNumeral(-HALF_WORD);
    if k == 0 {
      assert s == "-" + m && s[1..] == m && !AllDigits(m);
    } else {
      assert s[0] == '0' && s[k] == '-';
      assert !AllDigits(s);
    }
  }

  lemma LeastFirst()
    ensures LoopDigits(-HALF_WORD) != "" && !IsDigit(LoopDigits(-HALF_WORD)[0])
  {
    hide Numeral;
    NumeralReadsBack(HALF_WORD, Decimal);
    DecimalDigits(HALF_WORD);
  }

  /** How many zeros a field puts in front of its numeral. */
  function LeadingZeros(spec: Spec, digits: nat): nat {
    (if spec.zero then FillCount(spec, digits) else 0) + ZeroCount(spec, digits)
  }

  /** A decimal field reads back as the number printed exactly when the number is not negative,
      or is above the least 64-bit number and has no zeros put in front of its sign. */
  lemma FieldReadsBackExactly(spec: Spec, v: int)
    ensures ReadDecimal(Field(spec, SignedNumeral(v))) == Number(v)
      <==> v >= 0 || (v != -HALF_WORD && LeadingZeros(spec, |SignedNumeral(v)|) == 0)
  {
    var numeral := SignedNumeral(v);
    var k := LeadingZeros(spec, |numeral|);
    var body := Repeat('0', k) + numeral;
    if spec.zero {
      assert Field(spec, numeral) == body;
    } else {
      assert Field(spec, numeral) == Repeat(' ', FillCount(spec, |numeral|)) + body;
      BlanksSkipped(FillCount(spec, |numeral|), body);
    }
    if v == -HALF_WORD { LeastUnreadable(k); } else { ZerosRead(k, v); }
  }

  /** Such a number: minus five in a zero-filled field of four. */
  lemma SignBehindZeros()
    ensures ReadDecimal(Field(Spec(true, 4, 0, Plain, 'd'), SignedNumeral(-5))) != Number(-5)
  {
    assert |SignedNumeral(-5)| == 2;
    FieldReadsBackExactly(Spec(true, 4, 0, Plain, 'd'), -5);
  }

  // ---- From the argument to the output ----------------------------------------------------

  const INTS: int := 0x1_0000_0000

  /** How many values the argument of a conversion with this modifier has. */
  function Values(mod: Modifier): int {
    if mod == Plain then INTS else WORD
  }

  /** The argument v, an int or a long, lies in the low bits of the word w. */
  predicate Passed(mod: Modifier, v: int, w: nat) {
    w < WORD && -Values(mod) <= 2 * v < Values(mod) && (w - v) % Values(mod) == 0
  }

  lemma SignedPassed(mod: Modifier, v: int, w: nat)
    requires Passed(mod, v, w)
    ensures Signed(mod, w) == v
  {
    if mod == Plain {
      var low := w % INTS;
      assert (low - v) % INTS == 0 by { assert w == w / INTS * INTS + low; }
    }
  }

  /** A decimal conversion prints the argument that was passed: its field reads back as v exactly
      when v is not negative, or is above the least 64-bit number and has no zeros before its sign. */
  lemma DecimalPrintsArgument(spec: Spec, v: int, w: nat)
    requires spec.conv == 'd' && Passed(spec.mod, v, w)
    ensures ReadDecimal(Output(spec, [Word(w)])) == Number(v)
      <==> v >= 0 || (v != -HALF_WORD && LeadingZeros(spec, |SignedNumeral(v)|) == 0)
  {
    hide SignedNumeral, Field, Signed, ReadDecimal;
    SignedPassed(spec.mod, v, w);
    FieldReadsBackExactly(spec, v);
  }

  /** Without padding it always reads back, short of the least 64-bit number. */
  lemma DecimalReadsBack(spec: Spec, v: int, w: nat)
    requires spec.conv == 'd' && spec.pad == 0 && spec.prec == 0 && Passed(spec.mod, v, w) && v != -HALF_WORD
    ensures ReadDecimal(Output(spec, [Word(w)])) == Number(v)
  {
    hide SignedNumeral, Output, Signed, ReadDecimal;
    DecimalPrintsArgument(spec, v, w);
  }

  /** Without padding, a hexadecimal conversion prints the low 32 bits of the word, with a modifier or
      as a pointer all 64, in digits of its case. */
  lemma HexReadsBack(spec: Spec, w: nat)
    requires spec.conv in {'x', 'X', 'p'} && spec.pad == 0 && spec.prec == 0 && w < WORD
    ensures var r := if spec.conv == 'X' then UpperHex else LowerHex;
      var out := Output(spec, [Word(w)]);
      && Value(out, r, 0) == (if spec.conv != 'p' && spec.mod == Plain then w % INTS else w)
      && out != "" && forall i :: 0 <= i < |out| ==> IsDigitOf(out[i], r)
  {
    hide Numeral, Value;
    var r := if spec.conv == 'X' then UpperHex else LowerHex;
    NumeralReadsBack(Unsigned(spec, w), r);
    var n := Numeral(Unsigned(spec, w), r);
    assert Output(spec, [Word(w)]) == "" + "" + n == n;
  }

  /** The conversions without digits. */
  lemma OtherOutputs(spec: Spec, w: nat, text: string)
    requires w < WORD
    ensures spec.conv == 'c' ==>
      |Output(spec, [Word(w)])| == 1 && Output(spec, [Word(w)])[0] as int == w % 256
    ensures spec.conv == 's' ==> Output(spec, [Text(text)]) == text && Output(spec, [NullText]) == "(null)"
    ensures spec.conv == '%' ==> Output(spec, []) == "%"
    ensures spec.conv !in {'c', 's', '%', 'd', 'x', 'X', 'p'} ==> Output(spec, []) == ""
  {
  }

  // ---- Conversions read back --------------------------------------------------------------

  lemma {:induction false} ParseDigitsReads(s: string, rest: string, acc: nat)
    requires forall i :: 0 <= i < |s| ==> IsDigit(s[i])
    requires !IsDigit(Front(rest))
    ensures ParseDigits(s + rest, acc) == (Value(s, Decimal, acc), rest)
    decreases s
  {
    if s == "" {
      assert s + rest == rest;
    } else {
      assert (s + rest)[1..] == s[1..] + rest;
      ParseDigitsReads(s[1..], rest, 10 * acc + DigitValue(s[0]));
    }
  }

  lemma NumberParsed(n: nat, rest: string)
    requires !IsDigit(Front(rest))
    ensures ParseDigits(Numeral(n, Decimal) + rest, 0) == (n, rest)
  {
    NumeralReadsBack(n, Decimal);
    ParseDigitsReads(Numeral(n, Decimal), rest, 0);
  }

  // The parts of a conversion as a format would spell them.

  function ShowZero(spec: Spec): string {
    if spec.zero then "0" else ""
  }

  function ShowPad(spec: Spec): string {
    if spec.pad == 0 then "" else Numeral(spec.pad, Decimal)
  }

  function ShowPrec(spec: Spec): string {
    if spec.prec == 0 then "" else "." + Numeral(spec.prec, Decimal)
  }

  function ShowMod(spec: Spec): string {
    match spec.mod case Plain => "" case Long => "l" case LongLong => "ll"
  }

  function Show(spec: Spec): string {
    ShowZero(spec) + (ShowPad(spec) + (ShowPrec(spec) + (ShowMod(spec) + [spec.conv])))
  }

  lemma ZeroParsed(spec: Spec, rest: string)
    requires Front(rest) != '0'
    ensures ParseZero(ShowZero(spec) + rest) == (spec.zero, rest)
  {
    if spec.zero { assert ("0" + rest)[1..] == rest; } else { assert "" + rest == rest; }
  }

  lemma PadParsed(spec: Spec, rest: string)
    requires !IsDigit(Front(rest))
    ensures ParsePad(ShowPad(spec) + rest) == (spec.pad, rest)
    ensures spec.pad > 0 ==> '1' <= Front(ShowPad(spec) + rest) <= '9'
    ensures Front(ShowPad(spec) + rest) != '0'
  {
    if spec.pad == 0 {
      assert ShowPad(spec) + rest == rest;
    } else {
      NumeralReadsBack(spec.pad, Decimal);
      NumberParsed(spec.pad, rest);
    }
  }

  lemma PrecParsed(spec: Spec, rest: string)
    requires !IsDigit(Front(rest)) && Front(rest) != '.'
    ensures ParsePrec(ShowPrec(spec) + rest) == (spec.prec, rest)
    ensures !IsDigit(Front(ShowPrec(spec) + rest))
  {
    if spec.prec == 0 {
      assert ShowPrec(spec) + rest == rest;
    } else {
      assert (ShowPrec(spec) + rest)[1..] == Numeral(spec.prec, Decimal) + rest;
      NumberParsed(spec.prec, rest);
    }
  }

  lemma ModParsed(spec: Spec, rest: string)
    requires rest != "" && rest[0] != 'l' && rest[0] != '.' && !IsDigit(rest[0])
    ensures ParseMod(ShowMod(spec) + rest) == (spec.mod, rest)
    ensures !IsDigit(Front(ShowMod(spec) + rest)) && Front(ShowMod(spec) + rest) != '.'
  {
    match spec.mod {
      case Plain => assert ShowMod(spec) + rest == rest;
      case Long => assert ("l" + rest)[1..] == rest;
      case LongLong => assert ("ll" + rest)[1..] == "l" + rest && ("ll" + rest)[2..] == rest;
    }
  }

  /** Every conversion is parsed back from its spelling, whatever follows it. */
  lemma SpecParsedBack(spec: Spec, rest: string)
    requires spec.conv != '\0' && spec.conv != 'l' && spec.conv != '.' && !IsDigit(spec.conv)
    ensures ParseSpec(Show(spec) + rest) == (spec, rest)
  {
    hide ParsePad, ParsePrec, ParseMod, ParseDigits, ShowPad, ShowPrec, ShowMod, IsDigit, ShowZero, ParseZero;
    var s4 := [spec.conv] + rest;
    var s3 := ShowMod(spec) + s4;
    var s2 := ShowPrec(spec) + s3;
    var s1 := ShowPad(spec) + s2;
    ModParsed(spec, s4);
    PrecParsed(spec, s3);
    PadParsed(spec, s2);
    assert s4[1..] == rest;
    assert Show(spec) + rest == ShowZero(spec) + s1;
    ZeroParsed(spec, s1);
  }

  /** A format that is one spelled-out conversion prints what that conversion prints. */
  lemma OneConversion(spec: Spec, args: seq<Arg>)
    requires spec.conv != '\0' && spec.conv != 'l' && spec.conv != '.' && !IsDigit(spec.conv)
    requires Fed(spec, args)
    ensures AllFed("%" + Show(spec), args) && Render("%" + Show(spec), args) == Output(spec, args)
  {
    SpecParsedBack(spec, "");
    assert Show(spec) + "" == Show(spec) && ("%" + Show(spec))[1..] == Show(spec);
  }

  // ---- Whole formats ----------------------------------------------------------------------

  /** A part of a format: text without percent signs, or a conversion with its argument, if it takes one. */
  datatype Part = Literal(text: string) | Conversion(spec: Spec, args: seq<Arg>)

  predicate Spelled(part: Part) {
    match part
    case Literal(text) => '%' !in text
    case Conversion(spec, args) =>
      && spec.conv != '\0' && spec.conv != 'l' && spec.conv != '.' && !IsDigit(spec.conv)
      && |args| == (if spec.conv in {'s', 'c', 'd', 'x', 'X', 'p'} then 1 else 0) && Fed(spec, args)
  }

  function ShowPart(part: Part): string {
    if part.Literal? then part.text else "%" + Show(part.spec)
  }

  function PrintPart(part: Part): string
    requires Spelled(part)
  {
    if part.Literal? then part.text else Output(part.spec, part.args)
  }

  function ShowParts(parts: seq<Part>): string {
    if parts == [] then "" else ShowPart(parts[0]) + ShowParts(parts[1..])
  }

  function ArgsOf(parts: seq<Part>): seq<Arg> {
    if parts == [] then [] else (if parts[0].Literal? then [] else parts[0].args) + ArgsOf(parts[1..])
  }

  function PrintParts(parts: seq<Part>): string
    requires forall i :: 0 <= i < |parts| ==> Spelled(parts[i])
  {
    if parts == [] then "" else PrintPart(parts[0]) + PrintParts(parts[1..])
  }

  lemma {:induction false} LiteralPrints(text: string, rest: string, args: seq<Arg>)
    requires '%' !in text && AllFed(rest, args)
    ensures AllFed(text + rest, args) && Render(text + rest, args) == text + Render(rest, args)
  {
    if text == "" {
      assert text + rest == rest;
    } else {
      assert (text + rest)[1..] == text[1..] + rest;
      LiteralPrints(text[1..], rest, args);
      assert [text[0]] + (text[1..] + Render(rest, args)) == text + Render(rest, args);
    }
  }

  lemma ConversionPrints(part: Part, rest: string, more: seq<Arg>)
    requires part.Conversion? && Spelled(part) && AllFed(rest, more)
    ensures AllFed(ShowPart(part) + rest, part.args + more)
    ensures Render(ShowPart(part) + rest, part.args + more) == PrintPart(part) + Render(rest, more)
  {
    hide ParseSpec, Show, Field, NumeralOf, IsDigit;
    var spec, args := part.spec, part.args + more;
    SpecParsedBack(spec, rest);
    assert (ShowPart(part) + rest)[1..] == Show(spec) + rest && (ShowPart(part) + rest)[0] == '%';
    assert Rest(spec, args) == more;
    assert Fed(spec, args) && Output(spec, args) == Output(spec, part.args);
  }

  /** A format prints its parts one after the other, each conversion taking its own argument in turn. */
  lemma {:induction false} PartsPrint(parts: seq<Part>)
    requires forall i :: 0 <= i < |parts| ==> Spelled(parts[i])
    ensures AllFed(ShowParts(parts), ArgsOf(parts))
    ensures Render(ShowParts(parts), ArgsOf(parts)) == PrintParts(parts)
    decreases |parts|
  {
    hide AllFed, Render, ShowPart, PrintPart, Spelled;
    if parts == [] {
      EmptyFormat();
    } else {
      var part, rest := parts[0], parts[1..];
      PartsPrint(rest);
      if part.Literal? {
        assert [] + ArgsOf(rest) == ArgsOf(rest);
        LiteralPart(part);
        LiteralPrints(part.text, ShowParts(rest), ArgsOf(rest));
      } else {
        ConversionPrints(part, ShowParts(rest), ArgsOf(rest));
      }
    }
  }

  lemma EmptyFormat()
    ensures AllFed("", []) && Render("", []) == ""
  {
  }

  lemma LiteralPart(part: Part)
    requires part.Literal? && Spelled(part)
    ensures '%' !in part.text && ShowPart(part) == part.text == PrintPart(part)
  {
  }

  const NUMBER: Spec := Spec(false, 0, 0, Plain, 'd')

  lemma ThirtyTwo(w: nat)
    requires w < WORD && w % INTS == 32
    ensures Output(NUMBER, [Word(w)]) == "32"
  {
    hide Signed;
    SignedPassed(Plain, 32, w);
    assert Numeral(3, Decimal) == "3" && Numeral(32, Decimal) == "3" + "2";
    assert SignedNumeral(32) == "32";
    assert Output(NUMBER, [Word(w)]) == "" + "" + "32" == "32";
  }

  /** The number 32 after a text: "kmalloc-%d" prints "kmalloc-32". */
  lemma CacheName(w: nat)
    requires w < WORD && w % INTS == 32
    ensures AllFed("kmalloc-%d", [Word(w)]) && Render("kmalloc-%d", [Word(w)]) == "kmalloc-32"
  {
    hide AllFed, Render, Output;
    var text, number := Literal("kmalloc-"), Conversion(NUMBER, [Word(w)]);
    var parts := [text, number];
    assert parts[1..] == [number] && [number][1..] == [];
    assert Spelled(text) && Spelled(number);
    PartsPrint(parts);
    hide Fed;
    ThirtyTwo(w);
    assert Show(NUMBER) == "d" && ShowPart(number) == "%d";
    assert ShowParts([]) == "" && ShowParts([number]) == "%d" + "" == "%d";
    assert ShowParts(parts) == "kmalloc-" + "%d" == "kmalloc-%d";
    assert ArgsOf([]) == [] && ArgsOf([number]) == [Word(w)] + [] == [Word(w)];
    assert ArgsOf(parts) == [] + [Word(w)] == [Word(w)];
    assert PrintParts([]) == "" && PrintParts([number]) == "32" + "" == "32";
    assert PrintParts(parts) == "kmalloc-" + "32" == "kmalloc-32";
  }
}
