/** Formatted output as a function: what a format and its arguments print. */
module FormatModel {
  import opened Basics

  // ---- Conversions ----------------------------------------------------------------------

  datatype Modifier = Plain | Long | LongLong

  /** One parsed conversion; conv is NUL when the format ends inside it. */
  datatype Spec = Spec(zero: bool, pad: nat, prec: nat, mod: Modifier, conv: char)

  predicate IsDigit(c: char) {
    '0' <= c <= '9'
  }

  function DigitValue(c: char): nat
    requires IsDigit(c)
  {
    c as int - '0' as int
  }

  /** The character at the front, NUL at the end of the string. */
  function Front(s: string): char {
    if s == "" then '\0' else s[0]
  }

  function Tail(s: string): string {
    if s == "" then "" else s[1..]
  }

  /** Read digits onto acc, up to the first character that is none. */
  function ParseDigits(s: string, acc: nat): (r: (nat, string))
    ensures |r.1| <= |s|
  {
    if s != "" && IsDigit(s[0]) then ParseDigits(s[1..], 10 * acc + DigitValue(s[0])) else (acc, s)
  }

  function ParseZero(s: string): (r: (bool, string))
    ensures |r.1| <= |s|
  {
    if Front(s) == '0' then (true, s[1..]) else (false, s)
  }

  function ParsePad(s: string): (r: (nat, string))
    ensures |r.1| <= |s|
  {
    if '1' <= Front(s) <= '9' then ParseDigits(s, 0) else (0, s)
  }

  function ParsePrec(s: string): (r: (nat, string))
    ensures |r.1| <= |s|
  {
    if Front(s) == '.' then ParseDigits(s[1..], 0) else (0, s)
  }

  function ParseMod(s: string): (r: (Modifier, string))
    ensures |r.1| <= |s|
  {
    if Front(s) == 'l' then
      if Front(s[1..]) == 'l' then (LongLong, s[2..]) else (Long, s[1..])
    else (Plain, s)
  }

  /** Parse what follows a percent sign; the rest is what is left of the format. */
  function ParseSpec(s: string): (r: (Spec, string))
    ensures |r.1| <= |s|
  {
    var (zero, s1) := ParseZero(s);
    var (pad, s2) := ParsePad(s1);
    var (prec, s3) := ParsePrec(s2);
    var (mod, s4) := ParseMod(s3);
    (Spec(zero, pad, prec, mod, Front(s4)), Tail(s4))
  }

  // ---- Arguments ------------------------------------------------------------------------

  /** A machine word, or a string which may be the null pointer. */
  datatype Arg = Word(bits: nat) | Text(text: string) | NullText

  predicate TakesWord(conv: char) {
    conv in {'c', 'd', 'x', 'X', 'p'}
  }

  predicate TakesArg(conv: char) {
    conv == 's' || TakesWord(conv)
  }

  /** The word read as a signed number of 32 or 64 bits. */
  function Signed(mod: Modifier, bits: nat): int {
    if mod == Plain then
      var low := bits % 0x1_0000_0000;
      if low < 0x8000_0000 then low else low - 0x1_0000_0000
    else if bits < HALF_WORD then bits else bits - WORD
  }

  function Unsigned(spec: Spec, bits: nat): nat {
    if spec.conv != 'p' && spec.mod == Plain then bits % 0x1_0000_0000 else bits
  }

  /** The conversion finds an argument of its kind. */
  predicate Fed(spec: Spec, args: seq<Arg>) {
    && (TakesWord(spec.conv) ==> args != [] && args[0].Word? && args[0].bits < WORD)
    && (spec.conv == 's' ==> args != [] && !args[0].Word?)
  }

  function Rest(spec: Spec, args: seq<Arg>): seq<Arg> {
    if TakesArg(spec.conv) && args != [] then args[1..] else args
  }

  // ---- Numbers --------------------------------------------------------------------------

  datatype Radix = Decimal | LowerHex | UpperHex

  function Base(r: Radix): nat {
    if r == Decimal then 10 else 16
  }

  function Quotient(n: nat, r: Radix): nat {
    if r == Decimal then n / 10 else n / 16
  }

  function Remainder(n: nat, r: Radix): (d: nat)
    ensures d < Base(r)
  {
    if r == Decimal then n % 10 else n % 16
  }

  function DigitChar(d: nat, r: Radix): char
    requires d < 16
  {
    if d < 10 then (d + '0' as int) as char
    else if r == UpperHex then (d - 10 + 'A' as int) as char
    else (d - 10 + 'a' as int) as char
  }

  /** The numeral of n, most significant digit first. */
  function Numeral(n: nat, r: Radix): (s: string)
    ensures s != ""
  {
    if n < Base(r) then [DigitChar(n, r)] else Numeral(Quotient(n, r), r) + [DigitChar(Remainder(n, r), r)]
  }

  /** The character as far below '0' as the digit is above it. */
  function Mirror(c: char): char
    requires IsDigit(c)
  {
    ('0' as int - DigitValue(c)) as char
  }

  /** Digits counted down from '0' instead of up. */
  function Mirrored(s: string): string
    requires forall i :: 0 <= i < |s| ==> IsDigit(s[i])
  {
    seq(|s|, i requires 0 <= i < |s| && IsDigit(s[i]) => Mirror(s[i]))
  }

  lemma {:induction false} DecimalDigits(n: nat)
    ensures forall i :: 0 <= i < |Numeral(n, Decimal)| ==> IsDigit(Numeral(n, Decimal)[i])
  {
    if n >= 10 { DecimalDigits(n / 10); }
  }

  /** The digits the division loop yields: a negative number has negative remainders. */
  function LoopDigits(v: int): string {
    DecimalDigits(if v < 0 then -v else v);
    if v < 0 then Mirrored(Numeral(-v, Decimal)) else Numeral(v, Decimal)
  }

  /** The negation of a 64-bit number, in 64 bits. */
  function Negated(v: int): int {
    if v == -HALF_WORD then v else -v
  }

  /** The sign is taken off first; the least 64-bit number is its own negation. */
  function SignedNumeral(v: int): string {
    if v < 0 then "-" + LoopDigits(Negated(v)) else LoopDigits(v)
  }

  function Repeat(c: char, n: nat): string {
    seq(n, _ => c)
  }

  function Max(a: nat, b: nat): nat {
    if a < b then b else a
  }

  function Fill(spec: Spec): char {
    if spec.zero then '0' else ' '
  }

  /** How many fill characters come first. */
  function FillCount(spec: Spec, digits: nat): nat {
    if spec.pad > Max(spec.prec, digits) then spec.pad - Max(spec.prec, digits) else 0
  }

  function ZeroCount(spec: Spec, digits: nat): nat {
    if spec.prec > digits then spec.prec - digits else 0
  }

  /** A numeral padded to its field: fill, then zeros up to the precision, then the numeral. */
  function Field(spec: Spec, numeral: string): string {
    Repeat(Fill(spec), FillCount(spec, |numeral|)) + Repeat('0', ZeroCount(spec, |numeral|)) + numeral
  }

  // ---- Output ---------------------------------------------------------------------------

  function TextOf(arg: Arg): string
    requires !arg.Word?
  {
    if arg.NullText? then "(null)" else arg.text
  }

  function NumeralOf(spec: Spec, bits: nat): string {
    if spec.conv == 'd' then SignedNumeral(Signed(spec.mod, bits))
    else Numeral(Unsigned(spec, bits), if spec.conv == 'X' then UpperHex else LowerHex)
  }

  /** What one conversion prints; an unknown conversion prints nothing. */
  function Output(spec: Spec, args: seq<Arg>): string
    requires Fed(spec, args)
  {
    if spec.conv == '%' then "%"
    else if spec.conv == 's' then TextOf(args[0])
    else if spec.conv == 'c' then [(args[0].bits % 256) as char]
    else if TakesWord(spec.conv) then Field(spec, NumeralOf(spec, args[0].bits))
    else ""
  }

  /** Every conversion of the format is fed. */
  predicate AllFed(format: string, args: seq<Arg>)
    decreases |format|
  {
    if format == "" then true
    else if format[0] != '%' then AllFed(format[1..], args)
    else
      var (spec, rest) := ParseSpec(format[1..]);
      Fed(spec, args) && AllFed(rest, Rest(spec, args))
  }

  /** Everything the format prints, were there room for it. */
  function Render(format: string, args: seq<Arg>): string
    requires AllFed(format, args)
    decreases |format|
  {
    if format == "" then ""
    else if format[0] != '%' then [format[0]] + Render(format[1..], args)
    else
      var (spec, rest) := ParseSpec(format[1..]);
      Output(spec, args) + Render(rest, Rest(spec, args))
  }
}
