/** Backslash escapes and quoting (brush-core/src/escape.rs): the decoder. */
module Escape {
  import opened Wrappers

  type Byte = b: int | 0 <= b < 256

  datatype Mode = EchoBuiltin | AnsiCQuotes

  /** A number that does not fit its integer type. */
  datatype Error = IntParseError

  /** The bytes written, and whether output may go on behind them. */
  datatype Expanded = Expanded(bytes: seq<Byte>, goOn: bool)

  // ----- Characters -----------------------------------------------------------------------------

  predicate IsScalar(code: int) {
    0 <= code < 0xD800 || 0xE000 <= code < 0x11_0000
  }

  /** The UTF-8 encoding of a code point (RFC 3629, section 3). */
  function Utf8OfCode(code: int): (bytes: seq<Byte>)
    requires IsScalar(code)
    ensures |bytes| >= 1
  {
    if code < 0x80 then [code]
    else if code < 0x800 then [0xC0 + code / 0x40, 0x80 + code % 0x40]
    else if code < 0x1_0000 then [0xE0 + code / 0x1000, 0x80 + code / 0x40 % 0x40, 0x80 + code % 0x40]
    else [0xF0 + code / 0x4_0000, 0x80 + code / 0x1000 % 0x40, 0x80 + code / 0x40 % 0x40, 0x80 + code % 0x40]
  }

  function Utf8(c: char): (bytes: seq<Byte>)
    ensures |bytes| >= 1
  {
    Utf8OfCode(c as int)
  }

  function Utf8All(s: string): seq<Byte> {
    if s == "" then [] else Utf8(s[0]) + Utf8All(s[1..])
  }

  predicate IsOctal(c: char) {
    '0' <= c <= '7'
  }

  predicate IsHex(c: char) {
    '0' <= c <= '9' || 'a' <= c <= 'f' || 'A' <= c <= 'F'
  }

  function Digit(c: char): (d: nat)
    requires IsHex(c)
    ensures d < 16
  {
    if c <= '9' then c as int - '0' as int
    else if c <= 'F' then c as int - 'A' as int + 10
    else c as int - 'a' as int + 10
  }

  function Number(digits: string, radix: nat): nat
    requires forall i :: 0 <= i < |digits| ==> IsHex(digits[i])
  {
    if digits == "" then 0
    else radix * Number(digits[..|digits| - 1], radix) + Digit(digits[|digits| - 1])
  }

  /** The number of leading digits, no more than `max`. */
  function OctalPrefix(t: string, max: nat): (n: nat)
    ensures n <= max && n <= |t|
    ensures forall i :: 0 <= i < n ==> IsHex(t[i])
  {
    if max == 0 || t == "" || !IsOctal(t[0]) then 0 else 1 + OctalPrefix(t[1..], max - 1)
  }

  function HexPrefix(t: string, max: nat): (n: nat)
    ensures n <= max && n <= |t|
    ensures forall i :: 0 <= i < n ==> IsHex(t[i])
  {
    if max == 0 || t == "" || !IsHex(t[0]) then 0 else 1 + HexPrefix(t[1..], max - 1)
  }

  // ----- One escape sequence --------------------------------------------------------------------

  /** What the text behind a backslash stands for: bytes and the number of characters used up,
      the end of all output, or an error. */
  datatype Step = Emit(bytes: seq<Byte>, used: nat) | Stop | Fail

  const BACKSLASH: Byte := 0x5C

  /** The sequence is not one: the backslash and the character stand for themselves. */
  function Unchanged(c: char): Step {
    Emit([BACKSLASH] + Utf8(c), 1)
  }

  function OctalStep(digits: string, used: nat): Step
    requires forall i :: 0 <= i < |digits| ==> IsHex(digits[i])
  {
    if Number(digits, 8) < 256 then Emit([Number(digits, 8)], used) else Fail
  }

  function UnicodeStep(t: string, max: nat): Step
    requires t != ""
  {
    var n := HexPrefix(t[1..], max);
    var code := Number(t[1..][..n], 16);
    if n == 0 then Unchanged(t[0])
    else if !IsScalar(code) then Emit([BACKSLASH] + Utf8(t[0]), 1 + n)
    else Emit(Utf8OfCode(code), 1 + n)
  }

  /** Control characters: the first byte loses its upper bits. */
  function ControlStep(t: string): Step
    requires t != ""
  {
    if |t| == 1 then Emit([BACKSLASH, 0x63], 1)
    else
      var c := if 'a' <= t[1] <= 'z' then (t[1] as int - 32) as char else t[1];
      var used := if t[1] == '\\' && |t| > 2 && t[2] == '\\' then 3 else 2;
      Emit([if c == '?' then 0x7F else Utf8(c)[0] % 32] + Utf8(c)[1..], used)
  }

  /** The digits of a hexadecimal escape and what has been read of it. */
  datatype HexScan = HexScan(digits: string, brace: bool, invalidPrefix: bool, used: nat)

  /** Reads on from the scan `h`; `t` is the text behind what it has used. */
  function ScanHex(t: string, mode: Mode, h: HexScan): (r: HexScan)
    requires forall i :: 0 <= i < |h.digits| ==> IsHex(h.digits[i])
    ensures forall i :: 0 <= i < |r.digits| ==> IsHex(r.digits[i])
    ensures h.used <= r.used <= h.used + |t|
    decreases |t|
  {
    if t == "" then h
    else
      var c := t[0];
      if mode.AnsiCQuotes? && !h.brace && c == '{' then ScanHex(t[1..], mode, h.(brace := true, used := h.used + 1))
      else if h.brace && c == '}' then h.(used := h.used + 1)
      else if ((h.brace && !h.invalidPrefix) || (!h.brace && |h.digits| < 2)) && IsHex(c) then
        ScanHex(t[1..], mode, h.(digits := h.digits + [c], used := h.used + 1))
      else if h.brace && h.digits == "" then
        ScanHex(t[1..], mode, h.(invalidPrefix := true, used := h.used + 1))
      else h
  }

  function HexStep(t: string, mode: Mode): Step
    requires t != ""
  {
    var h := ScanHex(t[1..], mode, HexScan("", false, false, 1));
    if h.digits == "" then
      if h.brace then Emit([0], h.used) else Emit([BACKSLASH] + Utf8(t[0]), h.used)
    else if Number(h.digits, 16) >= 0x1_0000_0000 then Fail
    else Emit([Number(h.digits, 16) % 256], h.used)
  }

  function EscapeStep(t: string, mode: Mode): (r: Step)
    requires t != ""
    ensures r.Emit? ==> 1 <= r.used <= |t|
  {
    var c, ansi := t[0], mode.AnsiCQuotes?;
    if c == 'a' then Emit([0x07], 1)
    else if c == 'b' then Emit([0x08], 1)
    else if c == 'c' then (if ansi then ControlStep(t) else Stop)
    else if c == 'e' || c == 'E' then Emit([0x1B], 1)
    else if c == 'f' then Emit([0x0C], 1)
    else if c == 'n' then Emit([0x0A], 1)
    else if c == 'r' then Emit([0x0D], 1)
    else if c == 't' then Emit([0x09], 1)
    else if c == 'v' then Emit([0x0B], 1)
    else if c == '\\' then Emit([BACKSLASH], 1)
    else if ansi && c == '\'' then Emit([0x27], 1)
    else if ansi && c == '"' then Emit([0x22], 1)
    else if ansi && c == '?' then Emit([0x3F], 1)
    else if c == '0' then
      var n := OctalPrefix(t[1..], 3);
      OctalStep(if n == 0 then "0" else t[1..][..n], 1 + n)
    else if c == 'x' then HexStep(t, mode)
    else if c == 'u' then UnicodeStep(t, 4)
    else if c == 'U' then UnicodeStep(t, 8)
    else if ansi && '1' <= c <= '7' then
      var n := OctalPrefix(t[1..], 2);
      OctalStep([c] + t[1..][..n], 1 + n)
    else Unchanged(c)
  }

  // ----- The whole text -------------------------------------------------------------------------

  function Prepend(bytes: seq<Byte>, r: Result<Expanded, Error>): Result<Expanded, Error> {
    if r.Err? then r else Ok(Expanded(bytes + r.value.bytes, r.value.goOn))
  }

  /** The expansion before anything is cut off at a NUL. */
  function Expand(s: string, mode: Mode): Result<Expanded, Error>
    decreases |s|
  {
    if s == "" then Ok(Expanded([], true))
    else if s[0] != '\\' then Prepend(Utf8(s[0]), Expand(s[1..], mode))
    else if |s| == 1 then Ok(Expanded([BACKSLASH], true))
    else
      match EscapeStep(s[1..], mode)
      case Stop => Ok(Expanded([], false))
      case Fail => Err(IntParseError)
      case Emit(bytes, used) => Prepend(bytes, Expand(s[1 + used..], mode))
  }

  function CutAtNul(bytes: seq<Byte>): seq<Byte> {
    if bytes == [] || bytes[0] == 0 then [] else [bytes[0]] + CutAtNul(bytes[1..])
  }

  function Expansion(s: string, mode: Mode): Result<Expanded, Error> {
    match Expand(s, mode)
    case Err(e) => Err(e)
    case Ok(r) => Ok(if mode.AnsiCQuotes? && r.goOn then r.(bytes := CutAtNul(r.bytes)) else r)
  }

  lemma PrependTwice(a: seq<Byte>, b: seq<Byte>, r: Result<Expanded, Error>)
    ensures Prepend(a, Prepend(b, r)) == Prepend(a + b, r)
  {
    if r.Ok? {
      assert a + (b + r.value.bytes) == a + b + r.value.bytes;
    }
  }

  lemma PrependNothing(r: Result<Expanded, Error>)
    ensures Prepend([], r) == r
  {
    if r.Ok? {
      assert [] + r.value.bytes == r.value.bytes;
    }
  }

  /** `result` has been written for the part of `s` in front of `rest`. */
  ghost predicate Written(s: string, mode: Mode, result: seq<Byte>, rest: string) {
    Expand(s, mode) == Prepend(result, Expand(rest, mode))
  }

  lemma WrittenPlain(s: string, mode: Mode, result: seq<Byte>, rest: string)
    requires Written(s, mode, result, rest) && rest != "" && rest[0] != '\\'
    ensures Written(s, mode, result + Utf8(rest[0]), rest[1..])
  {
    PrependTwice(result, Utf8(rest[0]), Expand(rest[1..], mode));
  }

  lemma WrittenStep(s: string, mode: Mode, result: seq<Byte>, rest: string)
    requires Written(s, mode, result, rest) && |rest| > 1 && rest[0] == '\\'
    ensures match EscapeStep(rest[1..], mode)
            case Stop => Expand(s, mode) == Ok(Expanded(result, false))
            case Fail => Expand(s, mode) == Err(IntParseError)
            case Emit(bytes, used) => Written(s, mode, result + bytes, rest[1 + used..])
  {
    match EscapeStep(rest[1..], mode)
    case Stop =>
      assert result + [] == result;
    case Fail =>
    case Emit(bytes, used) =>
      PrependTwice(result, bytes, Expand(rest[1 + used..], mode));
  }

  lemma WrittenEnd(s: string, mode: Mode, result: seq<Byte>, rest: string)
    requires Written(s, mode, result, rest)
    ensures rest == "" ==> Expand(s, mode) == Ok(Expanded(result, true))
    ensures rest == "\\" ==> Expand(s, mode) == Ok(Expanded(result + [BACKSLASH], true))
  {
    assert result + [] == result;
  }

  method ExpandBackslashEscapes(s: string, mode: Mode) returns (r: Result<Expanded, Error>)
    ensures r == Expansion(s, mode)
  {
    var result: seq<Byte> := [];
    var rest := s;
    PrependNothing(Expand(s, mode));
    while rest != ""
      invariant Written(s, mode, result, rest)
      decreases |rest|
    {
      var c := rest[0];
      if c != '\\' {
        WrittenPlain(s, mode, result, rest);
        result, rest := result + Utf8(c), rest[1..];
        continue;
      }
      if |rest| == 1 {
        break;
      }
      WrittenStep(s, mode, result, rest);
      match EscapeStep(rest[1..], mode)
      case Stop =>
        return Ok(Expanded(result, false));
      case Fail =>
        return Err(IntParseError);
      case Emit(bytes, used) =>
        result, rest := result + bytes, rest[1 + used..];
    }
    WrittenEnd(s, mode, result, rest);
    if rest != "" {
      result := result + [BACKSLASH];
    }
    if mode.AnsiCQuotes? {
      result := CutAtNul(result);
    }
    r := Ok(Expanded(result, true));
  }
}
