/** ANSI-C quotations: the printer in `Quote` against the decoder in `Escape`. */
module AnsiC {
  import opened Wrappers
  import opened Escape
  import opened Quote

  /** A control character that is printed as an octal escape with a leading zero. */
  predicate LowOctal(c: char) {
    c < '\U{07}' || '\U{0D}' < c < '\U{1B}' || '\U{1B}' < c < ' '
  }

  /** The digit behind a low octal escape is taken for a third digit of it. */
  predicate Merges(s: string) {
    |s| > 1 && LowOctal(s[0]) && IsOctal(s[1])
  }

  /** The bytes that a quoted string decodes to, before anything is cut off. */
  function Decoded(s: string): seq<Byte> {
    if s == "" then []
    else if Merges(s) then [8 * (s[0] as int) + Digit(s[1])] + Decoded(s[2..])
    else Utf8(s[0]) + Decoded(s[1..])
  }

  lemma OctalRun(digits: string, t: string, max: nat)
    requires forall i :: 0 <= i < |digits| ==> IsOctal(digits[i])
    requires |digits| <= max
    requires |digits| == max || t == "" || !IsOctal(t[0])
    ensures OctalPrefix(digits + t, max) == |digits|
  {
    if digits == "" {
      assert digits + t == t;
    } else {
      assert (digits + t)[0] == digits[0] && (digits + t)[1..] == digits[1..] + t;
      OctalRun(digits[1..], t, max - 1);
    }
  }

  lemma NumberSnoc(digits: string, c: char, radix: nat)
    requires IsHex(c) && forall i :: 0 <= i < |digits| ==> IsHex(digits[i])
    ensures Number(digits + [c], radix) == radix * Number(digits, radix) + Digit(c)
  {
    assert (digits + [c])[..|digits|] == digits;
  }

  /** Two octal digits. */
  lemma TwoDigits(a: char, b: char)
    requires IsOctal(a) && IsOctal(b)
    ensures Number([a, b], 8) == 8 * Digit(a) + Digit(b)
  {
    NumberSnoc([a], b, 8);
    assert [a] + [b] == [a, b];
    NumberSnoc([], a, 8);
    assert [] + [a] == [a];
  }

  lemma ThreeDigits(a: char, b: char, c: char)
    requires IsOctal(a) && IsOctal(b) && IsOctal(c)
    ensures Number([a, b, c], 8) == 64 * Digit(a) + 8 * Digit(b) + Digit(c)
  {
    TwoDigits(a, b);
    NumberSnoc([a, b], c, 8);
    assert [a, b] + [c] == [a, b, c];
  }

  /** What follows a backslash, if it is a step of the decoder. */
  lemma ExpandStep(t: string, rest: string, bytes: seq<Byte>)
    requires t != "" && EscapeStep(t + rest, AnsiCQuotes) == Emit(bytes, |t|)
    ensures Expand("\\" + t + rest, AnsiCQuotes) == Prepend(bytes, Expand(rest, AnsiCQuotes))
  {
    var w := "\\" + t + rest;
    assert w[1..] == t + rest && w[1 + |t|..] == rest;
  }

  lemma LowOctalText(c: char)
    requires LowOctal(c)
    ensures AnsiCChar(c) == ['\\', '0', OctalDigit(c as int / 8), OctalDigit(c as int % 8)]
  {
    assert c as int / 64 == 0;
  }

  lemma LowOctalAlone(c: char, rest: string)
    requires LowOctal(c) && (rest == "" || !IsOctal(rest[0]))
    ensures Expand(AnsiCChar(c) + rest, AnsiCQuotes) == Prepend(Utf8(c), Expand(rest, AnsiCQuotes))
  {
    hide Expand, AnsiCChar;
    LowOctalText(c);
    var a, b := OctalDigit(c as int / 8), OctalDigit(c as int % 8);
    var t := ['0', a, b];
    OctalRun([a, b], rest, 3);
    TwoDigits(a, b);
    assert (t + rest)[1..] == [a, b] + rest && ([a, b] + rest)[..2] == [a, b];
    ExpandStep(t, rest, [c as int]);
    assert AnsiCChar(c) == "\\" + t;
  }

  lemma LowOctalMerged(c: char, d: char, rest: string)
    requires LowOctal(c) && IsOctal(d)
    ensures Expand(AnsiCChar(c) + [d] + rest, AnsiCQuotes)
            == Prepend([8 * (c as int) + Digit(d)], Expand(rest, AnsiCQuotes))
  {
    hide Expand, AnsiCChar;
    LowOctalText(c);
    var a, b := OctalDigit(c as int / 8), OctalDigit(c as int % 8);
    var t := ['0', a, b, d];
    OctalRun([a, b, d], rest, 3);
    ThreeDigits(a, b, d);
    assert (t + rest)[1..] == [a, b, d] + rest && ([a, b, d] + rest)[..3] == [a, b, d];
    ExpandStep(t, rest, [8 * (c as int) + Digit(d)]);
    assert AnsiCChar(c) + [d] == "\\" + t;
  }

  lemma DeleteDecodes(rest: string)
    ensures Expand(AnsiCChar('\U{7F}') + rest, AnsiCQuotes) == Prepend(Utf8('\U{7F}'), Expand(rest, AnsiCQuotes))
  {
    var t := ['1', '7', '7'];
    assert OctalDigits(0x7F) == t;
    OctalRun(['7', '7'], rest, 2);
    ThreeDigits('1', '7', '7');
    assert (t + rest)[1..] == ['7', '7'] + rest && (['7', '7'] + rest)[..2] == ['7', '7'];
    assert ['1'] + ['7', '7'] == t;
    ExpandStep(t, rest, [0x7F]);
    assert AnsiCChar('\U{7F}') == "\\" + t;
  }

  /** The escapes of one letter. */
  lemma LetterDecodes(c: char, e: char, rest: string)
    requires AnsiCChar(c) == ['\\', e] && !LowOctal(c) && c != '\U{7F}'
    ensures Expand(AnsiCChar(c) + rest, AnsiCQuotes) == Prepend(Utf8(c), Expand(rest, AnsiCQuotes))
  {
    assert ([e] + rest)[0] == e;
    ExpandStep([e], rest, Utf8(c));
    assert AnsiCChar(c) == "\\" + [e];
  }

  lemma PlainDecodes(c: char, rest: string)
    requires AnsiCChar(c) == [c] && c != '\\'
    ensures Expand(AnsiCChar(c) + rest, AnsiCQuotes) == Prepend(Utf8(c), Expand(rest, AnsiCQuotes))
  {
    assert ([c] + rest)[0] == c && ([c] + rest)[1..] == rest;
  }

  lemma CharDecodes(c: char, rest: string)
    requires LowOctal(c) ==> rest == "" || !IsOctal(rest[0])
    ensures Expand(AnsiCChar(c) + rest, AnsiCQuotes) == Prepend(Utf8(c), Expand(rest, AnsiCQuotes))
  {
    if LowOctal(c) {
      LowOctalAlone(c, rest);
    } else if c == '\U{7F}' {
      DeleteDecodes(rest);
    } else if AnsiCChar(c) == [c] {
      PlainDecodes(c, rest);
    } else {
      LetterDecodes(c, AnsiCChar(c)[1], rest);
    }
  }

  /** A body starts with an octal digit only if the string does. */
  lemma BodyStart(s: string)
    ensures AnsiCBody(s) != "" && IsOctal(AnsiCBody(s)[0]) ==> s != "" && IsOctal(s[0])
    ensures s != "" && IsOctal(s[0]) ==> AnsiCBody(s) == [s[0]] + AnsiCBody(s[1..])
  {
  }

  lemma MergedBody(s: string)
    requires Merges(s)
    ensures AnsiCBody(s) == AnsiCChar(s[0]) + [s[1]] + AnsiCBody(s[2..])
  {
    BodyStart(s[1..]);
    assert s[1..][0] == s[1] && s[1..][1..] == s[2..];
  }

  lemma MergeCase(s: string, bytes: seq<Byte>)
    requires Merges(s) && Expand(AnsiCBody(s[2..]), AnsiCQuotes) == Ok(Expanded(bytes, true))
    ensures Expand(AnsiCBody(s), AnsiCQuotes)
            == Ok(Expanded([8 * (s[0] as int) + Digit(s[1])] + bytes, true))
  {
    hide Expand, AnsiCBody, AnsiCChar;
    MergedBody(s);
    LowOctalMerged(s[0], s[1], AnsiCBody(s[2..]));
  }

  lemma SingleCase(s: string, bytes: seq<Byte>)
    requires s != "" && !Merges(s) && Expand(AnsiCBody(s[1..]), AnsiCQuotes) == Ok(Expanded(bytes, true))
    ensures Expand(AnsiCBody(s), AnsiCQuotes) == Ok(Expanded(Utf8(s[0]) + bytes, true))
  {
    hide Expand, AnsiCChar;
    BodyStart(s[1..]);
    assert |s| > 1 ==> s[1..][0] == s[1];
    CharDecodes(s[0], AnsiCBody(s[1..]));
  }

  /** The decoder reads every quoted string in full, as the bytes given above. */
  lemma {:induction false} BodyDecodes(s: string)
    ensures Expand(AnsiCBody(s), AnsiCQuotes) == Ok(Expanded(Decoded(s), true))
    decreases |s|
  {
    if s != "" {
      if Merges(s) {
        BodyDecodes(s[2..]);
        MergeCase(s, Decoded(s[2..]));
      } else {
        BodyDecodes(s[1..]);
        SingleCase(s, Decoded(s[1..]));
      }
    }
  }

  /** The characters in front of the first quote that no backslash stands before. */
  function BareQuote(t: string): nat {
    if t == "" || t[0] == '\'' then 0
    else if t[0] == '\\' && |t| > 1 then 2 + BareQuote(t[2..])
    else 1 + BareQuote(t[1..])
  }

  lemma DigitsPass(a: char, b: char, rest: string)
    requires IsOctal(a) && IsOctal(b)
    ensures BareQuote([a, b] + rest) == 2 + BareQuote(rest)
  {
    assert ([a, b] + rest)[1..] == [b] + rest && ([b] + rest)[1..] == rest;
    assert BareQuote([b] + rest) == 1 + BareQuote(rest);
  }

  lemma BareQuoteBehind(c: char, rest: string)
    ensures BareQuote(AnsiCChar(c) + rest) == |AnsiCChar(c)| + BareQuote(rest)
  {
    var w := AnsiCChar(c);
    if w == [c] {
      assert (w + rest)[1..] == rest;
    } else if |w| == 2 {
      assert (w + rest)[2..] == rest;
    } else {
      var digits := OctalDigits(c as int);
      assert w == ['\\', digits[0], digits[1], digits[2]];
      DigitsPass(digits[1], digits[2], rest);
      assert (w + rest)[2..] == [digits[1], digits[2]] + rest;
    }
  }

  /** The quotation ends where its printer ended it. */
  lemma {:induction false} BodyIsClosed(s: string)
    ensures BareQuote(AnsiCBody(s) + "'") == |AnsiCBody(s)|
  {
    if s == "" {
      assert AnsiCBody(s) + "'" == "'";
    } else {
      BodyIsClosed(s[1..]);
      BareQuoteBehind(s[0], AnsiCBody(s[1..]) + "'");
      assert AnsiCBody(s) + "'" == AnsiCChar(s[0]) + (AnsiCBody(s[1..]) + "'");
    }
  }

  // ----- When the bytes are those of the string -------------------------------------------------

  /** No NUL, and no low octal escape directly in front of an octal digit. */
  ghost predicate Safe(s: string) {
    && (forall i :: 0 <= i < |s| ==> s[i] != '\0')
    && (forall i :: 0 <= i < |s| - 1 ==> LowOctal(s[i]) ==> !IsOctal(s[i + 1]))
  }

  lemma SafeTail(s: string)
    requires s != ""
    ensures Safe(s) <==> s[0] != '\0' && !Merges(s) && Safe(s[1..])
  {
    var t := s[1..];
    assert forall i :: 0 <= i < |t| ==> t[i] == s[i + 1];
    if s[0] != '\0' && !Merges(s) && Safe(t) {
      forall i | 0 <= i < |s| - 1
        ensures LowOctal(s[i]) ==> !IsOctal(s[i + 1])
      {
        if i > 0 {
          assert t[i - 1] == s[i] && t[i] == s[i + 1];
        }
      }
      assert forall i :: 0 < i < |s| ==> s[i] == t[i - 1];
    }
  }

  lemma CutShorter(bytes: seq<Byte>)
    ensures |CutAtNul(bytes)| <= |bytes|
    ensures 0 in bytes ==> |CutAtNul(bytes)| < |bytes|
    ensures 0 !in bytes ==> CutAtNul(bytes) == bytes
  {
    if bytes != [] {
      CutShorter(bytes[1..]);
    }
  }

  lemma Utf8NoNul(c: char)
    ensures 0 in Utf8(c) <==> c == '\0'
  {
  }

  /** Decoding never adds bytes, and loses some if anything merges. */
  lemma {:induction false} DecodedLength(s: string)
    ensures |Decoded(s)| <= |Utf8All(s)|
    ensures Decoded(s) == Utf8All(s) || |Decoded(s)| < |Utf8All(s)|
    decreases |s|
  {
    if s != "" {
      if Merges(s) {
        DecodedLength(s[2..]);
        assert s[1..][1..] == s[2..] && Utf8All(s[1..]) == Utf8(s[1]) + Utf8All(s[2..]);
        assert Utf8All(s) == Utf8(s[0]) + (Utf8(s[1]) + Utf8All(s[2..]));
      } else {
        DecodedLength(s[1..]);
      }
    }
  }

  /** A string that is not safe decodes to fewer bytes, or to a NUL. */
  lemma {:induction false} SafeDecodes(s: string)
    ensures Safe(s) <==> |Decoded(s)| == |Utf8All(s)| && 0 !in Decoded(s)
    decreases |s|
  {
    if s != "" {
      SafeTail(s);
      DecodedLength(s);
      if Merges(s) {
        DecodedLength(s[2..]);
        assert s[1..][1..] == s[2..] && Utf8All(s[1..]) == Utf8(s[1]) + Utf8All(s[2..]);
        assert |Utf8All(s)| == |Utf8(s[0])| + |Utf8(s[1])| + |Utf8All(s[2..])|;
      } else {
        Utf8NoNul(s[0]);
        SafeDecodes(s[1..]);
        DecodedLength(s[1..]);
      }
    }
  }

  /** Expanding the body of an ANSI-C quotation gives back the string exactly when the string
      is safe. */
  lemma AnsiCRoundTrip(s: string)
    ensures Expansion(AnsiCBody(s), AnsiCQuotes) == Ok(Expanded(Utf8All(s), true)) <==> Safe(s)
  {
    BodyDecodes(s);
    SafeDecodes(s);
    DecodedLength(s);
    CutShorter(Decoded(s));
  }

  // ----- Every form together --------------------------------------------------------------------

  function Chars(ms: seq<Marked>): string {
    seq(|ms|, i requires 0 <= i < |ms| => ms[i].c)
  }

  /** An unquoted blank or newline ends a word. */
  predicate EndsWord(m: Marked) { !m.quoted && (m.c == ' ' || m.c == '\t' || m.c == '\n') }

  /** A reader of one word: an ANSI-C quotation up to its end, or quote removal; what starts with a
      bare `#` is a comment (sections 2.3 and 2.6.7 of the POSIX.1-2017 Shell Command Language). */
  function ReadBack(w: string): Option<seq<Byte>> {
    if |w| >= 3 && w[..2] == "$'" then
      var end := 2 + BareQuote(w[2..]);
      if end != |w| - 1 then None
      else
        match Expansion(w[2..end], AnsiCQuotes)
        case Ok(r) => Some(r.bytes)
        case Err(_) => None
    else if w != "" && w[0] == '#' then None
    else
      match Unquote(w, Plain)
      case None => None
      case Some(ms) => if exists i :: 0 <= i < |ms| && EndsWord(ms[i]) then None else Some(Utf8All(Chars(ms)))
  }

  lemma PlainFormStart(s: string, options: QuoteOptions)
    requires !UsesAnsiCQuotes(s, options)
    ensures Quoted(s, options) != "" ==> Quoted(s, options)[0] != '$'
  {
    var w := Quoted(s, options);
    if s != "" && !(options.alwaysQuote || AnyNeedsEscaping(s)) {
      assert !NeedsEscaping(s[0]);
    } else if s != "" && options.preferredMode.SingleQuote? {
      GlueStart(Parts(s));
    }
  }

  lemma {:induction false} GlueStart(parts: seq<string>)
    requires |parts| >= 1
    ensures Glue(parts) != "" ==> Glue(parts)[0] == '\'' || Glue(parts)[0] == '\\'
  {
    if |parts| > 1 {
      GlueStart(parts[..|parts| - 1]);
    }
  }

  lemma ReadBackAnsiC(s: string)
    ensures ReadBack(AnsiCQuoted(s)) == Some(Utf8All(s)) <==> Safe(s)
  {
    var w, body := AnsiCQuoted(s), AnsiCBody(s);
    BodyIsClosed(s);
    AnsiCRoundTrip(s);
    BodyDecodes(s);
    assert w == "$'" + (body + "'");
    assert w[..2] == "$'" && w[2..] == body + "'";
    assert w[2..2 + |body|] == body;
  }

  /** Some characters are printed without any quoting. */
  predicate PrintsBare(s: string, options: QuoteOptions) {
    && !UsesAnsiCQuotes(s, options) && s != ""
    && (options.preferredMode.BackslashEscape? || !(options.alwaysQuote || AnyNeedsEscaping(s)))
  }

  lemma BareForm(s: string, options: QuoteOptions)
    requires PrintsBare(s, options)
    ensures Quoted(s, options) == Escaped(s) && Unquote(Escaped(s), Plain) == Some(QuotedAsNeeded(s))
    ensures Escaped(s) != "" && (Escaped(s)[0] == '#' <==> s[0] == '#')
  {
    hide Unquote;
    UnquoteEscaped(s);
    if !(options.alwaysQuote || AnyNeedsEscaping(s)) {
      EscapedUnchanged(s);
    }
  }

  lemma CoveredForm(s: string, options: QuoteOptions)
    requires !UsesAnsiCQuotes(s, options) && !PrintsBare(s, options)
    ensures Unquote(Quoted(s, options), Plain) == Some(AllQuoted(s))
    ensures Quoted(s, options) != "" ==> Quoted(s, options)[0] != '#'
  {
    hide Unquote;
    UnquoteForms(s);
    if s == "" {
      assert AllQuoted(s) == QuotedAsNeeded(s);
    } else if options.preferredMode.SingleQuote? {
      GlueStart(Parts(s));
    }
  }

  lemma MarkedChars(s: string)
    ensures Chars(AllQuoted(s)) == s && Chars(QuotedAsNeeded(s)) == s
  {
  }

  /** Without other control characters, only a newline can end a word that is printed bare. */
  lemma BareEndsWord(s: string, options: QuoteOptions)
    requires PrintsBare(s, options)
    ensures |QuotedAsNeeded(s)| == |s|
    ensures (exists i :: 0 <= i < |s| && EndsWord(QuotedAsNeeded(s)[i])) <==> '\n' in s
  {
    forall i | 0 <= i < |s| && s[i] == '\t'
      ensures NeedsAnsiCQuoting(s[i])
    {
    }
    if '\n' in s {
      var i :| 0 <= i < |s| && s[i] == '\n';
      assert EndsWord(QuotedAsNeeded(s)[i]);
    }
  }

  lemma ReadBackBare(s: string, options: QuoteOptions)
    requires PrintsBare(s, options)
    ensures ReadBack(Quoted(s, options)) == Some(Utf8All(s)) <==> '\n' !in s && s[0] != '#'
  {
    hide Unquote, Quoted, Escaped, Utf8All, UsesAnsiCQuotes, NeedsEscaping, EndsWord, QuotedAsNeeded, Chars;
    var w := Quoted(s, options);
    PlainFormStart(s, options);
    assert |w| >= 2 ==> w[..2][0] == w[0];
    BareForm(s, options);
    MarkedChars(s);
    BareEndsWord(s, options);
  }

  lemma ReadBackCovered(s: string, options: QuoteOptions)
    requires !UsesAnsiCQuotes(s, options) && !PrintsBare(s, options)
    ensures ReadBack(Quoted(s, options)) == Some(Utf8All(s))
  {
    hide Unquote, Quoted, Escaped, Utf8All, UsesAnsiCQuotes, NeedsEscaping, PrintsBare, Chars;
    var w := Quoted(s, options);
    PlainFormStart(s, options);
    assert |w| >= 2 ==> w[..2][0] == w[0];
    CoveredForm(s, options);
    MarkedChars(s);
  }

  /** Whatever the options, what `quote` prints reads back as the string exactly if an ANSI-C
      quotation is of a safe string, and what is printed bare holds no newline and does not start
      like a comment. */
  lemma QuoteRoundTrip(s: string, options: QuoteOptions)
    ensures ReadBack(Quoted(s, options)) == Some(Utf8All(s))
            <==> (UsesAnsiCQuotes(s, options) ==> Safe(s))
                 && (PrintsBare(s, options) ==> '\n' !in s && s[0] != '#')
  {
    hide ReadBack, Quoted, Utf8All, Safe;
    if UsesAnsiCQuotes(s, options) {
      ReadBackAnsiC(s);
      assert Quoted(s, options) == AnsiCQuoted(s) by { AnsiCForm(s, options); }
    } else {
      if PrintsBare(s, options) {
        ReadBackBare(s, options);
      } else {
        ReadBackCovered(s, options);
      }
    }
  }

  lemma AnsiCForm(s: string, options: QuoteOptions)
    requires UsesAnsiCQuotes(s, options)
    ensures Quoted(s, options) == AnsiCQuoted(s)
  {
  }
}
