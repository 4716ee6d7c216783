/** What the numeric and named escapes decode to (brush-core/src/escape.rs:43-250). */
module Decoding {
  import opened Wrappers
  import opened Escape

  // ----- Hexadecimal digits ---------------------------------------------------------------------

  function HexDigit(d: nat, upper: bool): (c: char)
    requires d < 16
    ensures IsHex(c) && Digit(c) == d
  {
    (if d < 10 then '0' as int + d else if upper then 'A' as int + d - 10 else 'a' as int + d - 10) as char
  }

  /** The number in `k` digits. */
  function HexText(n: nat, k: nat, upper: bool): (t: string)
    ensures |t| == k && AllHex(t)
  {
    if k == 0 then "" else HexText(n / 16, k - 1, upper) + [HexDigit(n % 16, upper)]
  }

  predicate AllHex(t: string) { forall i :: 0 <= i < |t| ==> IsHex(t[i]) }

  function PowerOf16(k: nat): nat { if k == 0 then 1 else 16 * PowerOf16(k - 1) }

  lemma {:induction false} HexTextIsNumber(n: nat, k: nat, upper: bool)
    requires n < PowerOf16(k)
    ensures Number(HexText(n, k, upper), 16) == n
  {
    if k > 0 {
      HexTextIsNumber(n / 16, k - 1, upper);
      var t := HexText(n, k, upper);
      assert t[..k - 1] == HexText(n / 16, k - 1, upper);
    }
  }

  /** Text in front of which digits end. */
  predicate EndsDigits(rest: string) { rest == "" || !IsHex(rest[0]) }

  lemma {:induction false} HexPrefixIs(d: string, rest: string, max: nat)
    requires AllHex(d) && |d| <= max && (|d| == max || EndsDigits(rest))
    ensures HexPrefix(d + rest, max) == |d|
  {
    if d == "" {
      assert d + rest == rest;
    } else {
      assert (d + rest)[0] == d[0] && (d + rest)[1..] == d[1..] + rest;
      HexPrefixIs(d[1..], rest, max - 1);
    }
  }

  /** An escape behind the backslash. */
  lemma EscapeDecodes(t: string, rest: string, mode: Mode, bytes: seq<Byte>)
    requires t != "" && EscapeStep(t + rest, mode) == Emit(bytes, |t|)
    ensures Expand("\\" + t + rest, mode) == Prepend(bytes, Expand(rest, mode))
  {
    hide EscapeStep, Utf8;
    var s := "\\" + t + rest;
    assert s[1..] == t + rest && s[1 + |t|..] == rest;
  }

  lemma BehindLetter(c: char, d: string, rest: string)
    ensures ([c] + d + rest)[0] == c && ([c] + d + rest)[1..] == d + rest && (d + rest)[..|d|] == d && "" + d == d
  {
  }

  lemma LongStep(t: string, mode: Mode)
    requires t != ""
    ensures t[0] == 'x' ==> EscapeStep(t, mode) == HexStep(t, mode)
    ensures t[0] == 'u' ==> EscapeStep(t, mode) == UnicodeStep(t, 4)
    ensures t[0] == 'U' ==> EscapeStep(t, mode) == UnicodeStep(t, 8)
    ensures t[0] == 'c' ==> EscapeStep(t, mode) == if mode.AnsiCQuotes? then ControlStep(t) else Stop
  {
    hide HexStep, UnicodeStep, ControlStep;
  }

  // ----- Code points ----------------------------------------------------------------------------

  /** `\u` and `\U` take as many digits as there are, up to 4 and 8, and give the UTF-8 encoding of the code
      point; for what is none, the backslash and the letter stay. */
  lemma UnicodeDecodes(code: nat, k: nat, upper: bool, long: bool, mode: Mode, rest: string)
    requires 1 <= k <= (if long then 8 else 4) && code < PowerOf16(k)
    requires k == (if long then 8 else 4) || EndsDigits(rest)
    ensures var letter := if long then 'U' else 'u';
            Expand("\\" + ([letter] + HexText(code, k, upper)) + rest, mode)
            == Prepend(if IsScalar(code) then Utf8OfCode(code) else [BACKSLASH, letter as int], Expand(rest, mode))
  {
    hide Utf8OfCode, EscapeStep, HexText, HexPrefix, Number, Expand, PowerOf16;
    var letter := if long then 'U' else 'u';
    var d := HexText(code, k, upper);
    HexPrefixIs(d, rest, if long then 8 else 4);
    HexTextIsNumber(code, k, upper);
    var t := [letter] + d;
    BehindLetter(letter, d, rest);
    LetterIsByte(letter);
    LongStep(t + rest, mode);
    EscapeDecodes(t, rest, mode, if IsScalar(code) then Utf8OfCode(code) else [BACKSLASH, letter as int]);
  }

  lemma LetterIsByte(c: char)
    requires c as int < 0x80
    ensures Utf8(c) == [c as int]
  {
  }

  /** The code points that have an encoding are the characters. */
  lemma ScalarsAreChars(c: char, code: int)
    ensures IsScalar(c as int)
    ensures IsScalar(code) ==> (code as char) as int == code
  {
  }

  /** What a byte behind the first adds. */
  function Continued(code: int, b: Byte): int { code * 0x40 + (b as int - 0x80) }

  /** The code point that one to four bytes encode (RFC 3629, section 3). */
  function CodeOf(bytes: seq<Byte>): Option<int> {
    if |bytes| == 0 || exists i :: 1 <= i < |bytes| && !(0x80 <= bytes[i] < 0xC0) then None
    else
      var first: int := bytes[0];
      if |bytes| == 1 && first < 0x80 then Some(first)
      else if |bytes| == 2 && 0xC0 <= first < 0xE0 then Some(Continued(first - 0xC0, bytes[1]))
      else if |bytes| == 3 && 0xE0 <= first < 0xF0 then Some(Continued(Continued(first - 0xE0, bytes[1]), bytes[2]))
      else if |bytes| == 4 && 0xF0 <= first < 0xF8 then
        Some(Continued(Continued(Continued(first - 0xF0, bytes[1]), bytes[2]), bytes[3]))
      else None
  }

  lemma LastByte(code: nat)
    ensures 0x80 <= 0x80 + code % 0x40 < 0xC0 && Continued(code / 0x40, 0x80 + code % 0x40) == code
  {
  }

  lemma DivideAgain(code: nat)
    ensures code / 0x40 / 0x40 == code / 0x1000 && code / 0x1000 / 0x40 == code / 0x4_0000
  {
  }

  /** Encodings read back, and are no longer than they have to be. */
  lemma EncodingReadsBack(code: int)
    requires IsScalar(code)
    ensures CodeOf(Utf8OfCode(code)) == Some(code)
    ensures |Utf8OfCode(code)| == if code < 0x80 then 1 else if code < 0x800 then 2 else if code < 0x1_0000 then 3 else 4
  {
    hide Continued;
    LastByte(code);
    LastByte(code / 0x40);
    LastByte(code / 0x1000);
    DivideAgain(code);
  }

  // ----- Bytes ----------------------------------------------------------------------------------

  lemma DigitStep(t: string, mode: Mode, h: HexScan)
    requires AllHex(h.digits) && t != "" && IsHex(t[0]) && !h.brace && |h.digits| < 2
    ensures ScanHex(t, mode, h) == ScanHex(t[1..], mode, h.(digits := h.digits + [t[0]], used := h.used + 1))
  {
  }

  lemma {:induction false} ScanDigits(d: string, rest: string, mode: Mode, h: HexScan)
    requires AllHex(h.digits) && AllHex(d) && !h.brace && |h.digits| + |d| <= 2
    requires |h.digits| + |d| == 2 || EndsDigits(rest)
    requires mode.AnsiCQuotes? ==> rest == "" || rest[0] != '{'
    ensures ScanHex(d + rest, mode, h) == h.(digits := h.digits + d, used := h.used + |d|)
    decreases |d|
  {
    if d == "" {
      assert d + rest == rest && h.digits + d == h.digits;
    } else {
      hide ScanHex;
      assert (d + rest)[0] == d[0] && (d + rest)[1..] == d[1..] + rest;
      assert h.digits + [d[0]] + d[1..] == h.digits + d;
      DigitStep(d + rest, mode, h);
      ScanDigits(d[1..], rest, mode, h.(digits := h.digits + [d[0]], used := h.used + 1));
    }
  }

  lemma HexStepIs(t: string, mode: Mode, h: HexScan)
    requires t != "" && t[0] == 'x' && ScanHex(t[1..], mode, HexScan("", false, false, 1)) == h && h.digits != "" && AllHex(h.digits)
    ensures EscapeStep(t, mode)
            == if Number(h.digits, 16) < 0x1_0000_0000 then Emit([Number(h.digits, 16) % 256], h.used) else Fail
  {
    hide EscapeStep, ScanHex, Number;
    LongStep(t, mode);
  }

  /** `\x` takes one or two digits. */
  lemma HexDecodes(n: Byte, k: nat, upper: bool, mode: Mode, rest: string)
    requires 1 <= k <= 2 && n < PowerOf16(k) && (k == 2 || EndsDigits(rest))
    requires mode.AnsiCQuotes? ==> rest == "" || rest[0] != '{'
    ensures Expand("\\" + (['x'] + HexText(n, k, upper)) + rest, mode) == Prepend([n], Expand(rest, mode))
  {
    hide EscapeStep, HexText, ScanHex, Number, Expand, PowerOf16, Utf8, Prepend;
    var d := HexText(n, k, upper);
    HexTextIsNumber(n, k, upper);
    var t := ['x'] + d;
    BehindLetter('x', d, rest);
    ScanDigits(d, rest, mode, HexScan("", false, false, 1));
    HexStepIs(t + rest, mode, HexScan(d, false, false, 1 + k));
    EscapeDecodes(t, rest, mode, [n]);
  }

  lemma {:induction false} ScanBraced(d: string, rest: string, h: HexScan)
    requires AllHex(h.digits) && AllHex(d) && h.brace && !h.invalidPrefix
    ensures ScanHex(d + "}" + rest, AnsiCQuotes, h) == h.(digits := h.digits + d, used := h.used + |d| + 1)
    decreases |d|
  {
    var t := d + "}" + rest;
    if d == "" {
      assert t[0] == '}' && h.digits + d == h.digits;
    } else {
      assert t[0] == d[0] && t[1..] == d[1..] + "}" + rest;
      assert h.digits + [d[0]] + d[1..] == h.digits + d;
      ScanBraced(d[1..], rest, h.(digits := h.digits + [d[0]], used := h.used + 1));
    }
  }

  lemma FailingEscape(t: string, mode: Mode)
    requires t != "" && EscapeStep(t, mode) == Fail
    ensures Expand("\\" + t, mode) == Err(IntParseError)
  {
    hide EscapeStep;
    assert ("\\" + t)[1..] == t;
  }

  /** In an ANSI-C quotation braces may hold any number of digits, of which the last byte counts; and they
      are taken as such behind digits, too, which then count with those in the braces. */
  lemma BracedDecodes(first: string, n: nat, k: nat, upper: bool, rest: string)
    requires AllHex(first) && |first| <= 2 && |first| + k > 0 && n < PowerOf16(k)
    ensures var all := Number(first, 16) * PowerOf16(k) + n;
            var t := "x" + first + "{" + HexText(n, k, upper) + "}";
            Expand("\\" + (t + rest), AnsiCQuotes)
            == if all < 0x1_0000_0000 then Prepend([all % 256], Expand(rest, AnsiCQuotes)) else Err(IntParseError)
  {
    hide EscapeStep, HexText, ScanHex, Number, Expand, PowerOf16;
    var d := HexText(n, k, upper);
    var tail := d + "}" + rest;
    var t := "x" + first + "{" + d + "}";
    assert (t + rest)[0] == 'x' && (t + rest)[1..] == first + ("{" + tail);
    ScanOpening(first, tail, HexScan("", false, false, 1));
    assert "" + first == first;
    ScanBraced(d, rest, HexScan(first, true, false, 2 + |first|));
    NumberOfBoth(first, n, k, upper);
    HexStepIs(t + rest, AnsiCQuotes, HexScan(first + d, true, false, 3 + |first| + k));
    var all := Number(first + d, 16);
    if all < 0x1_0000_0000 {
      EscapeDecodes(t, rest, AnsiCQuotes, [all % 256]);
      assert "\\" + (t + rest) == "\\" + t + rest;
    } else {
      FailingEscape(t + rest, AnsiCQuotes);
    }
  }

  lemma {:induction false} ScanOpening(d: string, tail: string, h: HexScan)
    requires AllHex(h.digits) && AllHex(d) && !h.brace && |h.digits| + |d| <= 2
    ensures ScanHex(d + ("{" + tail), AnsiCQuotes, h)
            == ScanHex(tail, AnsiCQuotes, h.(digits := h.digits + d, brace := true, used := h.used + |d| + 1))
    decreases |d|
  {
    var t := d + ("{" + tail);
    if d == "" {
      assert t[0] == '{' && t[1..] == tail && h.digits + d == h.digits;
    } else {
      hide ScanHex;
      assert t[0] == d[0] && t[1..] == d[1..] + ("{" + tail);
      assert h.digits + [d[0]] + d[1..] == h.digits + d;
      DigitStep(t, AnsiCQuotes, h);
      ScanOpening(d[1..], tail, h.(digits := h.digits + [d[0]], used := h.used + 1));
    }
  }

  lemma TimesSixteen(a: nat, b: nat)
    ensures 16 * (a * b) == a * (16 * b)
  {
  }

  lemma {:induction false} NumberOfBoth(first: string, n: nat, k: nat, upper: bool)
    requires AllHex(first) && n < PowerOf16(k)
    ensures AllHex(first + HexText(n, k, upper))
    ensures Number(first + HexText(n, k, upper), 16) == Number(first, 16) * PowerOf16(k) + n
  {
    var all := first + HexText(n, k, upper);
    if k == 0 {
      assert all == first && Number(first, 16) * 1 == Number(first, 16);
    } else {
      NumberOfBoth(first, n / 16, k - 1, upper);
      assert all[..|all| - 1] == first + HexText(n / 16, k - 1, upper);
      assert all[|all| - 1] == HexDigit(n % 16, upper);
      NumberSteps(all);
      PowerSteps(k);
      hide Number, PowerOf16;
      TimesSixteen(Number(first, 16), PowerOf16(k - 1));
    }
  }

  lemma NumberSteps(t: string)
    requires t != "" && AllHex(t)
    ensures Number(t, 16) == 16 * Number(t[..|t| - 1], 16) + Digit(t[|t| - 1])
  {
  }

  lemma PowerSteps(k: nat)
    requires k > 0
    ensures PowerOf16(k) == 16 * PowerOf16(k - 1)
  {
  }

  lemma DigitB()
    ensures HexText(0xB, 1, false) == "b"
  {
    assert HexText(0, 0, false) == "" && 'a' as int + 1 == 'b' as int;
  }

  /** So in an ANSI-C quotation a brace behind `\xHH` is no plain character. */
  lemma BraceIsTaken()
    ensures Expand("\\x41{b}", AnsiCQuotes) == Ok(Expanded([0x1B], true))
  {
    hide ScanHex, EscapeStep, Expand, HexText;
    DigitB();
    NumberOf41();
    PowerSteps(1);
    BracedDecodes("41", 0xB, 1, false, "");
    hide Number, PowerOf16;
    assert "\\" + ("x" + "41" + "{" + "b" + "}" + "") == "\\x41{b}";
    EmptyDecodes(AnsiCQuotes);
    assert [0x1B] + [] == [0x1B];
  }

  lemma EmptyDecodes(mode: Mode)
    ensures Expand("", mode) == Ok(Expanded([], true))
  {
  }

  lemma NumberOf41()
    ensures AllHex("41") && Number("41", 16) == 0x41
  {
    assert "41"[..1] == "4" && "4"[..0] == "";
    assert Number("4", 16) == 4;
  }

  lemma {:induction false} ScanJunk(body: string, rest: string, h: HexScan)
    requires h.brace && h.digits == "" && '}' !in body && (h.invalidPrefix || (body != "" && !IsHex(body[0])) || body == "")
    ensures var r := ScanHex(body + "}" + rest, AnsiCQuotes, h); r.brace && r.digits == "" && r.used == h.used + |body| + 1
    decreases |body|
  {
    var t := body + "}" + rest;
    if body == "" {
      assert t[0] == '}';
    } else {
      assert t[0] == body[0] && t[1..] == body[1..] + "}" + rest;
      assert body[0] in body && forall c :: c in body[1..] ==> c in body;
      ScanJunk(body[1..], rest, h.(invalidPrefix := true, used := h.used + 1));
    }
  }

  lemma JunkStep(t: string, mode: Mode, h: HexScan)
    requires t != "" && t[0] == 'x' && ScanHex(t[1..], mode, HexScan("", false, false, 1)) == h && h.digits == ""
    ensures EscapeStep(t, mode) == Emit(if h.brace then [0] else [BACKSLASH, 'x' as int], h.used)
  {
    hide EscapeStep, ScanHex, Number;
    LongStep(t, mode);
    LetterIsByte('x');
  }

  lemma BracedJunk(body: string, rest: string) returns (h: HexScan)
    requires '}' !in body && (body == "" || !IsHex(body[0]))
    ensures ScanHex("{" + body + "}" + rest, AnsiCQuotes, HexScan("", false, false, 1)) == h
    ensures h.brace && h.digits == "" && h.used == 3 + |body|
  {
    var start, t := HexScan("", false, false, 1), "{" + body + "}" + rest;
    ScanJunk(body, rest, start.(brace := true, used := 2));
    assert t[0] == '{' && t[1..] == body + "}" + rest;
    h := ScanHex(t, AnsiCQuotes, start);
  }

  /** Braces that do not begin with a digit are a NUL byte. */
  lemma JunkDecodes(body: string, rest: string)
    requires '}' !in body && (body == "" || !IsHex(body[0]))
    ensures Expand("\\" + (['x'] + ("{" + body + "}")) + rest, AnsiCQuotes) == Prepend([0], Expand(rest, AnsiCQuotes))
  {
    hide EscapeStep, Expand, ScanHex;
    var braced := "{" + body + "}";
    var t := ['x'] + braced;
    BehindLetter('x', braced, rest);
    var h := BracedJunk(body, rest);
    JunkStep(t + rest, AnsiCQuotes, h);
    EscapeDecodes(t, rest, AnsiCQuotes, [0]);
  }

  /** Without digits or braces there is no escape. */
  lemma NoDigitsDecode(rest: string, mode: Mode)
    requires EndsDigits(rest) && (mode.AnsiCQuotes? ==> rest == "" || rest[0] != '{')
    ensures Expand("\\" + "x" + rest, mode) == Prepend([BACKSLASH, 'x' as int], Expand(rest, mode))
  {
    assert ("x" + rest)[0] == 'x' && ("x" + rest)[1..] == rest;
    var h := ScanHex(rest, mode, HexScan("", false, false, 1));
    assert h == HexScan("", false, false, 1);
    hide EscapeStep, Expand, ScanHex;
    JunkStep("x" + rest, mode, h);
    EscapeDecodes("x", rest, mode, [BACKSLASH, 'x' as int]);
  }

  // ----- Control characters and names -----------------------------------------------------------

  /** In an ANSI-C quotation `\c` and an ASCII character, upper or lower case, are the control character with
      its lowest five bits. */
  lemma ControlDecodes(c: char, rest: string)
    requires c as int < 0x80 && c != '?' && c != '\\'
    ensures Expand("\\" + ['c', c] + rest, AnsiCQuotes) == Prepend([c as int % 32], Expand(rest, AnsiCQuotes))
  {
    var t := ['c', c];
    hide EscapeStep, Expand;
    assert (t + rest)[0] == 'c' && (t + rest)[1] == c;
    LongStep(t + rest, AnsiCQuotes);
    var upper := if 'a' <= c <= 'z' then (c as int - 32) as char else c;
    LetterIsByte(upper);
    assert [c as int % 32] + Utf8(upper)[1..] == [c as int % 32];
    EscapeDecodes(t, rest, AnsiCQuotes, [c as int % 32]);
  }

  lemma BackslashStep(t: string)
    requires |t| > 1 && t[0] == 'c' && t[1] == '\\'
    ensures EscapeStep(t, AnsiCQuotes) == Emit([0x1C], if |t| > 2 && t[2] == '\\' then 3 else 2)
  {
    hide EscapeStep;
    LongStep(t, AnsiCQuotes);
    LetterIsByte('\\');
    assert [0x1C] + Utf8('\\')[1..] == [0x1C];
  }

  /** A backslash behind `\c` may be doubled. */
  lemma ControlBackslash(rest: string)
    ensures rest == "" || rest[0] != '\\' ==>
              Expand("\\" + "c\\" + rest, AnsiCQuotes) == Prepend([0x1C], Expand(rest, AnsiCQuotes))
    ensures Expand("\\" + "c\\\\" + rest, AnsiCQuotes) == Prepend([0x1C], Expand(rest, AnsiCQuotes))
  {
    hide EscapeStep, Expand;
    var one, two := "c\\", "c\\\\";
    BackslashStep(one + rest);
    if rest == "" || rest[0] != '\\' {
      assert rest != "" ==> (one + rest)[2] == rest[0];
      EscapeDecodes(one, rest, AnsiCQuotes, [0x1C]);
    }
    assert (two + rest)[2] == '\\';
    BackslashStep(two + rest);
    EscapeDecodes(two, rest, AnsiCQuotes, [0x1C]);
  }

  /** An ANSI-C quotation ends at the first NUL byte; for `echo` nothing is cut off. */
  lemma NulEndsQuotation(s: string, mode: Mode)
    requires Expand(s, mode).Ok? && Expand(s, mode).value.goOn
    ensures Expansion(s, mode).Ok? && Expansion(s, mode).value.goOn
    ensures var all, kept := Expand(s, mode).value.bytes, Expansion(s, mode).value.bytes;
            if mode.AnsiCQuotes?
            then kept <= all && 0 !in kept && (kept == all || all[|kept|] == 0)
            else kept == all
  {
    CutIs(Expand(s, mode).value.bytes);
  }

  lemma {:induction false} CutIs(bytes: seq<Byte>)
    ensures var kept := CutAtNul(bytes); kept <= bytes && 0 !in kept && (kept == bytes || bytes[|kept|] == 0)
  {
    if bytes != [] && bytes[0] != 0 {
      CutIs(bytes[1..]);
    }
  }

  lemma SpecialControls(rest: string)
    ensures Expand("\\" + "c?" + rest, AnsiCQuotes) == Prepend([0x7F], Expand(rest, AnsiCQuotes))
    ensures Expand("\\" + ("c" + rest), EchoBuiltin) == Ok(Expanded([], false))
  {
    hide EscapeStep;
    var t := "c?";
    assert (t + rest)[0] == 'c' && (t + rest)[1] == '?';
    LongStep(t + rest, AnsiCQuotes);
    LetterIsByte('?');
    assert [0x7F] + Utf8('?')[1..] == [0x7F];
    EscapeDecodes(t, rest, AnsiCQuotes, [0x7F]);
    LongStep("c" + rest, EchoBuiltin);
    assert ("\\" + ("c" + rest))[1..] == "c" + rest;
  }

  const NAMES := "abeEfnrtv\\"
  const CODES: seq<Byte> := [0x07, 0x08, 0x1B, 0x1B, 0x0C, 0x0A, 0x0D, 0x09, 0x0B, 0x5C]

  lemma ShortStep(t: string, i: nat, mode: Mode)
    requires t != "" && i < |NAMES| && t[0] == NAMES[i]
    ensures EscapeStep(t, mode) == Emit([CODES[i]], 1)
  {
    hide HexStep, UnicodeStep, ControlStep, Utf8;
  }

  /** The named characters, in both modes. */
  lemma NamedDecode(i: nat, mode: Mode, rest: string)
    requires i < |NAMES|
    ensures Expand("\\" + [NAMES[i]] + rest, mode) == Prepend([CODES[i]], Expand(rest, mode))
  {
    hide EscapeStep, Expand;
    var t := [NAMES[i]];
    assert (t + rest)[0] == NAMES[i];
    ShortStep(t + rest, i, mode);
    EscapeDecodes(t, rest, mode, [CODES[i]]);
  }

  /** Quotes and the question mark lose their backslash in an ANSI-C quotation only; characters that mean
      nothing behind a backslash always keep it. */
  lemma OthersDecode(c: char, mode: Mode, rest: string)
    requires c !in NAMES && c !in "cxuU" && !('0' <= c <= '7')
    ensures Expand("\\" + [c] + rest, mode)
            == Prepend(if mode.AnsiCQuotes? && c in "'\"?" then [c as int] else [BACKSLASH] + Utf8(c), Expand(rest, mode))
  {
    var t := [c];
    assert (t + rest)[0] == c;
    OtherStep(t + rest, mode);
    hide EscapeStep, Expand;
    EscapeDecodes(t, rest, mode, if mode.AnsiCQuotes? && c in "'\"?" then [c as int] else [BACKSLASH] + Utf8(c));
  }

  lemma OtherStep(t: string, mode: Mode)
    requires t != "" && t[0] !in NAMES && t[0] !in "cxuU" && !('0' <= t[0] <= '7')
    ensures EscapeStep(t, mode)
            == Emit(if mode.AnsiCQuotes? && t[0] in "'\"?" then [t[0] as int] else [BACKSLASH] + Utf8(t[0]), 1)
  {
    hide HexStep, UnicodeStep, ControlStep, Utf8;
    assert forall i :: 0 <= i < |NAMES| ==> t[0] != NAMES[i];
    var c := t[0];
    assert c != NAMES[0] && c != NAMES[1] && c != NAMES[2] && c != NAMES[3] && c != NAMES[4];
    assert c != NAMES[5] && c != NAMES[6] && c != NAMES[7] && c != NAMES[8] && c != NAMES[9];
    assert c != "cxuU"[0] && c != "cxuU"[1] && c != "cxuU"[2] && c != "cxuU"[3];
    assert "'\"?"[0] == '\'' && "'\"?"[1] == '"' && "'\"?"[2] == '?';
  }

  // ----- Octal digits ---------------------------------------------------------------------------

  predicate AllOctal(t: string) { forall i :: 0 <= i < |t| ==> IsOctal(t[i]) }

  lemma {:induction false} OctalPrefixIs(d: string, rest: string, max: nat)
    requires AllOctal(d) && |d| <= max && (|d| == max || rest == "" || !IsOctal(rest[0]))
    ensures OctalPrefix(d + rest, max) == |d|
  {
    if d == "" {
      assert d + rest == rest;
    } else {
      assert (d + rest)[0] == d[0] && (d + rest)[1..] == d[1..] + rest;
      OctalPrefixIs(d[1..], rest, max - 1);
    }
  }

  lemma OctalStepIs(d: string, mode: Mode, rest: string)
    requires AllOctal(d) && |d| <= 3 && (|d| == 3 || rest == "" || !IsOctal(rest[0]))
    ensures AllHex(d) && EscapeStep(['0'] + d + rest, mode) == OctalStep(d, 1 + |d|)
  {
    OctalPrefixIs(d, rest, 3);
    BehindLetter('0', d, rest);
    ZeroIsNoNumber();
    ZeroStep(['0'] + d + rest, mode);
    hide EscapeStep, Number, OctalPrefix;
  }

  /** `\0` takes up to three more digits; what does not fit a byte is an error. */
  lemma OctalDecodes(d: string, mode: Mode, rest: string)
    requires AllOctal(d) && |d| <= 3 && (|d| == 3 || rest == "" || !IsOctal(rest[0]))
    ensures var n := Number(d, 8);
            Expand("\\" + (['0'] + d + rest), mode) == if n < 256 then Prepend([n], Expand(rest, mode)) else Err(IntParseError)
  {
    hide EscapeStep, Expand, Number, Prepend;
    OctalStepIs(d, mode, rest);
    var t := ['0'] + d;
    if Number(d, 8) < 256 {
      var b: Byte := Number(d, 8);
      EscapeDecodes(t, rest, mode, [b]);
      assert "\\" + (t + rest) == "\\" + t + rest;
    } else {
      FailingEscape(t + rest, mode);
    }
  }

  lemma ZeroIsNoNumber()
    ensures Number("0", 8) == Number("", 8) == 0
  {
    assert "0"[..0] == "";
  }

  lemma ZeroStep(t: string, mode: Mode)
    requires t != "" && t[0] == '0'
    ensures var n := OctalPrefix(t[1..], 3);
            EscapeStep(t, mode) == OctalStep(if n == 0 then "0" else t[1..][..n], 1 + n)
  {
    hide HexStep, UnicodeStep, ControlStep, Utf8, OctalPrefix, OctalStep;
  }
}
