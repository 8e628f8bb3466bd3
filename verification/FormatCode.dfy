/** The formatter as it runs: a cursor over the format, a scratch buffer for digits,
    and a bounded output buffer. */
module FormatCode {
  import opened Basics
  import opened FormatModel
  import opened FormatTheorems

  /** The character at i, NUL past the end. */
  function CharAt(s: string, i: nat): char {
    if i < |s| then s[i] else '\0'
  }

  lemma CursorStep(s: string, i: nat)
    requires i <= |s|
    ensures Front(s[i..]) == CharAt(s, i)
    ensures i < |s| ==> s[i..][1..] == s[i + 1..]
  {
  }

  // ---- Parsing ----------------------------------------------------------------------------

  /** Read digits onto acc from the cursor on. */
  method ReadDigits(format: string, k: nat, start: nat) returns (acc: nat, next: nat)
    requires k <= |format|
    ensures k <= next <= |format| && (acc, format[next..]) == ParseDigits(format[k..], start)
  {
    acc, next := start, k;
    while '0' <= CharAt(format, next) <= '9'
      invariant k <= next <= |format|
      invariant ParseDigits(format[next..], acc) == ParseDigits(format[k..], start)
      decreases |format| - next
    {
      CursorStep(format, next);
      acc := acc * 10;
      acc := acc + DigitValue(format[next]);
      next := next + 1;
    }
    CursorStep(format, next);
  }

  method ReadPad(format: string, k: nat) returns (pad: nat, next: nat)
    requires k <= |format|
    ensures next <= |format| && (pad, format[next..]) == ParsePad(format[k..])
    ensures next >= k
  {
    hide ParseDigits;
    CursorStep(format, k);
    pad, next := 0, k;
    if '1' <= CharAt(format, next) <= '9' {
      FirstDigit(format[next..]);
      pad, next := ReadDigits(format, next + 1, DigitValue(format[next]));
    }
  }

  method ReadPrec(format: string, k: nat) returns (prec: nat, next: nat)
    requires k <= |format|
    ensures next <= |format| && (prec, format[next..]) == ParsePrec(format[k..])
    ensures next >= k
  {
    hide ParseDigits;
    CursorStep(format, k);
    prec, next := 0, k;
    if CharAt(format, next) == '.' {
      prec, next := ReadDigits(format, next + 1, 0);
    }
  }

  method ReadMod(format: string, k: nat) returns (mod: Modifier, next: nat)
    requires k <= |format|
    ensures next <= |format| && (mod, format[next..]) == ParseMod(format[k..])
    ensures next >= k
  {
    CursorStep(format, k);
    mod, next := Plain, k;
    if CharAt(format, next) == 'l' {
      next := next + 1;
      CursorStep(format, next);
      if CharAt(format, next) == 'l' {
        mod := LongLong;
        next := next + 1;
        assert format[k..][2..] == format[next..];
      } else {
        mod := Long;
      }
    }
  }

  /** Parse one conversion; refused when the cursor is not at a percent sign. */
  method ParseFormat(format: string, k: nat) returns (ok: bool, spec: Spec, next: nat)
    requires k <= |format|
    ensures ok <==> CharAt(format, k) == '%'
    ensures ok ==> k < next <= |format| && (spec, format[next..]) == ParseSpec(format[k + 1..])
  {
    hide ParseDigits, IsDigit, ParsePad, ParsePrec, ParseMod;
    next := k;
    spec := Spec(false, 0, 0, Plain, '\0');
    ok := false;
    if CharAt(format, next) != '%' {
      return;
    }
    next := next + 1;
    CursorStep(format, next);
    var zero := false;
    if CharAt(format, next) == '0' {
      zero := true;
      next := next + 1;
    }
    var pad, prec, mod;
    pad, next := ReadPad(format, next);
    prec, next := ReadPrec(format, next);
    mod, next := ReadMod(format, next);
    CursorStep(format, next);
    var conv := '\0';
    if next < |format| {
      conv := format[next];
      next := next + 1;
    }
    ok, spec := true, Spec(zero, pad, prec, mod, conv);
  }

  lemma FirstDigit(s: string)
    requires '1' <= Front(s) <= '9'
    ensures IsDigit(s[0]) && ParseDigits(s, 0) == ParseDigits(s[1..], DigitValue(s[0]))
  {
  }

  // ---- Bounded output ---------------------------------------------------------------------

  /** As much of out as the buffer has room for, short of its last character, is stored. */
  ghost predicate Stored(tmp: array<char>, out: string)
    reads tmp
  {
    forall j :: 0 <= j < |out| && j + 1 < tmp.Length ==> tmp[j] == out[j]
  }

  /** How much of the buffer is left. */
  function Room(size: nat, pos: nat): nat {
    if size > pos then size - pos else 0
  }

  /** Store a character at pos of the room left from start on, if it is not the last. */
  method Put(tmp: array<char>, start: nat, room: nat, pos: nat, c: char, ghost out: string)
    requires room == Room(tmp.Length, start) && |out| == start + pos && Stored(tmp, out)
    modifies tmp
    ensures Stored(tmp, out + [c])
  {
    if pos + 1 < room {
      tmp[start + pos] := c;
    }
  }

  method PutRun(tmp: array<char>, start: nat, room: nat, pos: nat, c: char, n: nat,
                ghost out: string) returns (end: nat)
    requires room == Room(tmp.Length, start) && |out| == start + pos && Stored(tmp, out)
    modifies tmp
    ensures end == pos + n && Stored(tmp, out + Repeat(c, n))
  {
    end := pos;
    var i := 0;
    assert out + Repeat(c, 0) == out;
    while i < n
      invariant 0 <= i <= n && end == pos + i
      invariant Stored(tmp, out + Repeat(c, i))
    {
      Put(tmp, start, room, end, c, out + Repeat(c, i));
      assert out + Repeat(c, i) + [c] == out + Repeat(c, i + 1);
      end := end + 1;
      i := i + 1;
    }
  }

  method PutText(tmp: array<char>, start: nat, room: nat, s: string, ghost out: string) returns (pos: nat)
    requires room == Room(tmp.Length, start) && |out| == start && Stored(tmp, out)
    modifies tmp
    ensures pos == |s| && Stored(tmp, out + s)
  {
    pos := 0;
    assert out + s[..0] == out;
    while pos < |s|
      invariant 0 <= pos <= |s|
      invariant Stored(tmp, out + s[..pos])
    {
      Put(tmp, start, room, pos, s[pos], out + s[..pos]);
      assert out + s[..pos] + [s[pos]] == out + s[..pos + 1];
      pos := pos + 1;
    }
    assert s[..pos] == s;
  }

  // ---- Numbers ----------------------------------------------------------------------------

  /** The buffer holds the string backwards in its first |s| places. */
  ghost predicate Backwards(buf: array<char>, s: string)
    reads buf
  {
    |s| <= buf.Length && forall i :: 0 <= i < |s| ==> buf[i] == s[|s| - 1 - i]
  }

  function Ahead(q: nat, r: Radix): string {
    if q == 0 then "" else Numeral(q, r)
  }

  /** Dividing out a digit drops the last character of the digits ahead. */
  lemma OneDigit(t: string, m: nat, q: nat, r: Radix)
    requires q > 0 && m <= |t| && Ahead(q, r) == t[..m]
    ensures m > 0 && Ahead(Quotient(q, r), r) == t[..m - 1]
    ensures t[m - 1] == DigitChar(Remainder(q, r), r)
    ensures Quotient(q, r) < q
  {
    var s := Ahead(Quotient(q, r), r);
    assert Ahead(q, r) == s + [DigitChar(Remainder(q, r), r)];
    assert m == |s| + 1 && t[..m][..m - 1] == t[..m - 1];
    assert t[..m][m - 1] == t[m - 1];
  }

  /** Store the digits of n, least significant first. */
  method StoreDigits(buf: array<char>, n: nat, r: Radix) returns (ptr: nat)
    requires |Numeral(n, r)| <= buf.Length
    modifies buf
    ensures ptr == |Numeral(n, r)| && Backwards(buf, Numeral(n, r))
  {
    hide DigitChar, Remainder, Quotient, Numeral;
    ptr := 0;
    var q := n;
    ghost var t := Ahead(n, r);
    assert t[..|t|] == t;
    while q != 0
      invariant ptr <= |t| && (n > 0 ==> t == Numeral(n, r)) && (n == 0 ==> q == 0)
      invariant Ahead(q, r) == t[..|t| - ptr]
      invariant forall i :: 0 <= i < ptr ==> buf[i] == t[|t| - 1 - i]
      decreases q
    {
      OneDigit(t, |t| - ptr, q, r);
      buf[ptr] := DigitChar(Remainder(q, r), r);
      q := Quotient(q, r);
      ptr := ptr + 1;
    }
    ZeroDigit(r);
    if ptr == 0 {
      buf[ptr] := '0';
      ptr := ptr + 1;
    }
  }

  /** What the loop stores for the digit of the magnitude m, given the sign of the number. */
  function DigitOf(m: nat, negative: bool): char {
    if negative then ('0' as int - m % 10) as char else ('0' as int + m % 10) as char
  }

  /** A stored character of a signed number is the character of its loop digits. */
  lemma LoopDigit(v: int, i: nat, m: nat)
    requires var n := if v < 0 then -v else v;
      i < |Numeral(n, Decimal)| && Numeral(n, Decimal)[i] == DigitChar(Remainder(m, Decimal), Decimal)
    ensures i < |LoopDigits(v)| && LoopDigits(v)[i] == DigitOf(m, v < 0)
  {
    hide Numeral;
    DecimalDigits(if v < 0 then -v else v);
  }

  /** The division loop on a signed number, with the processor's division towards zero. */
  method StoreDecimal(buf: array<char>, v: int) returns (ptr: nat)
    requires |LoopDigits(v)| <= buf.Length
    modifies buf
    ensures ptr == |LoopDigits(v)| && Backwards(buf, LoopDigits(v))
  {
    hide Numeral, LoopDigits;
    ptr := 0;
    var q := v;
    ghost var n := if v < 0 then -v else v;
    ghost var t := Ahead(n, Decimal);
    LoopLength(v);
    assert t[..|t|] == t;
    while q != 0
      invariant ptr <= |t| && (v != 0 ==> t == Numeral(n, Decimal))
      invariant (v == 0 ==> q == 0) && (q < 0 ==> v < 0) && (q > 0 ==> v > 0)
      invariant Ahead(if q < 0 then -q else q, Decimal) == t[..|t| - ptr]
      invariant forall i :: 0 <= i < ptr ==> buf[i] == LoopDigits(v)[|t| - 1 - i]
      decreases if q < 0 then -q else q
    {
      ghost var m := if q < 0 then -q else q;
      OneDigit(t, |t| - ptr, m, Decimal);
      LoopDigit(v, |t| - ptr - 1, m);
      var next := if q < 0 then -((-q) / 10) else q / 10;
      var r := q - 10 * next;
      RemainderOf(q);
      buf[ptr] := (r + '0' as int) as char;
      q := next;
      ptr := ptr + 1;
    }
    ZeroDigit(Decimal);
    if ptr == 0 {
      buf[ptr] := '0';
      ptr := ptr + 1;
    }
  }

  lemma LoopLength(v: int)
    ensures |LoopDigits(v)| == |Numeral(if v < 0 then -v else v, Decimal)|
    ensures v == 0 ==> LoopDigits(v) == "0"
  {
  }

  lemma RemainderOf(q: int)
    requires q != 0
    ensures var m := if q < 0 then -q else q; var next := if q < 0 then -((-q) / 10) else q / 10;
      && q - 10 * next == (if q < 0 then -(m % 10) else m % 10) && (if next < 0 then -next else next) == m / 10
  {
  }

  lemma ZeroDigit(r: Radix)
    ensures Numeral(0, r) == "0"
  {
  }

  /** Copy the numeral out of the scratch buffer, first digit first. */
  method PutBackwards(tmp: array<char>, start: nat, room: nat, begin: nat, buf: array<char>, ptr: nat,
                      ghost numeral: string, ghost out: string)
    returns (pos: nat)
    requires tmp != buf && room == Room(tmp.Length, start) && |out| == start + begin && Stored(tmp, out)
    requires Backwards(buf, numeral) && ptr == |numeral|
    modifies tmp
    ensures pos == begin + |numeral| && Stored(tmp, out + numeral)
  {
    pos := begin;
    assert out + numeral[..0] == out;
    var i := 0;
    while i < ptr
      invariant 0 <= i <= ptr && pos == begin + i
      invariant Stored(tmp, out + numeral[..i])
    {
      Put(tmp, start, room, pos, buf[ptr - i - 1], out + numeral[..i]);
      assert out + numeral[..i] + [numeral[i]] == out + numeral[..i + 1];
      pos := pos + 1;
      i := i + 1;
    }
    assert numeral[..i] == numeral;
  }

  /** Pad the numeral in the scratch buffer to its field. */
  method PutField(tmp: array<char>, start: nat, room: nat, spec: Spec, buf: array<char>, ptr: nat,
                  ghost numeral: string, ghost out: string)
    returns (pos: nat)
    requires tmp != buf && room == Room(tmp.Length, start) && |out| == start && Stored(tmp, out)
    requires Backwards(buf, numeral) && ptr == |numeral|
    modifies tmp
    ensures pos == |Field(spec, numeral)| && Stored(tmp, out + Field(spec, numeral))
  {
    hide Stored;
    pos := 0;
    ghost var fill := Repeat(Fill(spec), FillCount(spec, ptr));
    ghost var zeros := Repeat('0', ZeroCount(spec, ptr));
    assert out + "" == out && out + fill + "" == out + fill;
    if spec.pad > spec.prec && spec.pad > ptr {
      var n := if spec.pad - spec.prec < spec.pad - ptr then spec.pad - spec.prec else spec.pad - ptr;
      pos := PutRun(tmp, start, room, pos, if spec.zero then '0' else ' ', n, out);
    }
    if spec.prec > ptr {
      pos := PutRun(tmp, start, room, pos, '0', spec.prec - ptr, out + fill);
    }
    pos := PutBackwards(tmp, start, room, pos, buf, ptr, numeral, out + fill + zeros);
    assert out + fill + zeros + numeral == out + Field(spec, numeral);
  }

  method PutDecimal(tmp: array<char>, start: nat, room: nat, spec: Spec, bits: nat,
                    ghost out: string) returns (pos: nat)
    requires room == Room(tmp.Length, start) && |out| == start && Stored(tmp, out)
    requires spec.conv == 'd' && bits < WORD
    modifies tmp
    ensures pos == |Field(spec, NumeralOf(spec, bits))| && Stored(tmp, out + Field(spec, NumeralOf(spec, bits)))
  {
    hide Field, Signed, LoopDigits;
    ScratchSuffices(spec, bits);
    var v := Signed(spec.mod, bits);
    var buf := new char[25];
    var negative := v < 0;
    if negative {
      v := Negated(v);
    }
    ghost var digits := LoopDigits(v);
    var ptr := StoreDecimal(buf, v);
    if negative {
      buf[ptr] := '-';
      ptr := ptr + 1;
      assert Backwards(buf, "-" + digits);
    }
    pos := PutField(tmp, start, room, spec, buf, ptr, NumeralOf(spec, bits), out);
  }

  method PutHex(tmp: array<char>, start: nat, room: nat, spec: Spec, bits: nat, ghost out: string) returns (pos: nat)
    requires room == Room(tmp.Length, start) && |out| == start && Stored(tmp, out)
    requires spec.conv != 'd' && bits < WORD
    modifies tmp
    ensures pos == |Field(spec, NumeralOf(spec, bits))| && Stored(tmp, out + Field(spec, NumeralOf(spec, bits)))
  {
    hide Field, Numeral;
    ScratchSuffices(spec, bits);
    var buf := new char[16];
    var ptr := StoreDigits(buf, Unsigned(spec, bits), if spec.conv == 'X' then UpperHex else LowerHex);
    pos := PutField(tmp, start, room, spec, buf, ptr, NumeralOf(spec, bits), out);
  }

  /** Print one conversion into the room left; returns its untruncated length. */
  method PutOutput(tmp: array<char>, start: nat, room: nat, spec: Spec, args: seq<Arg>, ghost out: string)
    returns (pos: nat, rest: seq<Arg>)
    requires room == Room(tmp.Length, start) && |out| == start && Stored(tmp, out)
    requires Fed(spec, args)
    modifies tmp
    ensures pos == |Output(spec, args)| && Stored(tmp, out + Output(spec, args))
    ensures rest == Rest(spec, args)
  {
    hide Field, Signed, Numeral, NumeralOf, Stored;
    pos, rest := 0, args;
    assert out + "" == out;
    match spec.conv {
      case '%' =>
        Put(tmp, start, room, 0, '%', out);
        pos := 1;
      case 's' =>
        rest := args[1..];
        pos := PutText(tmp, start, room, if args[0].NullText? then "(null)" else args[0].text, out);
      case 'c' =>
        rest := args[1..];
        Put(tmp, start, room, 0, (args[0].bits % 256) as char, out);
        pos := 1;
      case 'd' =>
        rest := args[1..];
        pos := PutDecimal(tmp, start, room, spec, args[0].bits, out);
      case 'x' =>
        rest := args[1..];
        pos := PutHex(tmp, start, room, spec, args[0].bits, out);
      case 'X' =>
        rest := args[1..];
        pos := PutHex(tmp, start, room, spec, args[0].bits, out);
      case 'p' =>
        rest := args[1..];
        pos := PutHex(tmp, start, room, spec, args[0].bits, out);
      case _ =>
    }
  }

  // ---- The formatter ----------------------------------------------------------------------

  /** Print the whole format into the buffer; returns the untruncated length. */
  method RenderInto(tmp: array<char>, format: string, args: seq<Arg>) returns (pos: nat)
    requires AllFed(format, args)
    modifies tmp
    ensures pos == |Render(format, args)| && Stored(tmp, Render(format, args))
  {
    hide Fed, Output, ParseSpec, Stored;
    pos := 0;
    var k, rest := 0, args;
    ghost var out: string := "";
    assert format[0..] == format && out + Render(format, args) == Render(format, args);
    assert Stored(tmp, out) by { NothingStored(tmp); }
    while k < |format|
      invariant k <= |format| && AllFed(format[k..], rest)
      invariant |out| == pos && out + Render(format[k..], rest) == Render(format, args)
      invariant Stored(tmp, out)
      decreases |format| - k
    {
      CursorStep(format, k);
      if format[k] == '%' {
        var ok, spec, next := ParseFormat(format, k);
        ghost var piece := Output(spec, rest);
        ghost var after := Render(format[next..], Rest(spec, rest));
        assert out + (piece + after) == (out + piece) + after;
        var n;
        n, rest := PutOutput(tmp, pos, Room(tmp.Length, pos), spec, rest, out);
        out := out + piece;
        pos := pos + n;
        k := next;
      } else {
        ghost var after := Render(format[k + 1..], rest);
        assert out + ([format[k]] + after) == (out + [format[k]]) + after;
        Put(tmp, 0, tmp.Length, pos, format[k], out);
        out := out + [format[k]];
        k := k + 1;
        pos := pos + 1;
      }
    }
    assert out + Render(format[k..], rest) == out;
  }

  lemma NothingStored(tmp: array<char>)
    ensures Stored(tmp, "")
  {
  }

  /** Render the whole format into a buffer of size characters, and copy it out. The result is
      the length of the untruncated output; the buffer holds as much of it as fits, then NUL. */
  method Vsnprintf(str: array<char>, size: nat, format: string, args: seq<Arg>) returns (length: nat)
    requires 0 < size <= str.Length && AllFed(format, args)
    modifies str
    ensures length == |Render(format, args)|
    ensures var n := if length < size then length else size - 1;
      str[..n] == Render(format, args)[..n] && str[n] == '\0'
    ensures str[size..] == old(str[size..])
  {
    hide Render, AllFed;
    var tmp := new char[size];
    length := RenderInto(tmp, format, args);
    if length + 1 < size {
      tmp[length] := '\0';
    }
    tmp[size - 1] := '\0';
    forall i | 0 <= i < size {
      str[i] := tmp[i];
    }
  }
}
