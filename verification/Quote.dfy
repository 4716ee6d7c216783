/** The printers that quote a string for the shell (brush-core/src/escape.rs), and what a
    reader makes of their output. */
module Quote {
  import opened Wrappers
  import opened Escape

  datatype QuoteMode = SingleQuote | DoubleQuote | BackslashEscape

  datatype QuoteOptions = QuoteOptions(alwaysQuote: bool, preferredMode: QuoteMode, avoidAnsiCQuotingNewline: bool)

  predicate NeedsEscaping(c: char) {
    || c == '(' || c == ')' || c == '[' || c == ']' || c == '{' || c == '}' || c == '$' || c == '*'
    || c == '?' || c == '|' || c == '&' || c == ';' || c == '<' || c == '>' || c == '`' || c == '\\'
    || c == '"' || c == '!' || c == '^' || c == ',' || c == ' ' || c == '\''
  }

  /** An ASCII control character. */
  predicate NeedsAnsiCQuoting(c: char) {
    c < ' ' || c == '\U{7F}'
  }

  // ----- The printers ---------------------------------------------------------------------------

  function Escaped(s: string): string {
    if s == "" then "" else (if NeedsEscaping(s[0]) then ['\\', s[0]] else [s[0]]) + Escaped(s[1..])
  }

  function BackslashEscaped(s: string): string {
    if s == "" then "''" else Escaped(s)
  }

  method BackslashEscapeString(s: string) returns (output: string)
    ensures output == BackslashEscaped(s)
  {
    if s == "" {
      return "''";
    }
    output := "";
    assert s[0..] == s;
    for i := 0 to |s|
      invariant Escaped(s) == output + Escaped(s[i..])
    {
      assert s[i..][0] == s[i] && s[i..][1..] == s[i + 1..];
      if NeedsEscaping(s[i]) {
        output := output + ['\\'];
      }
      output := output + [s[i]];
    }
    assert s[|s|..] == "";
  }

  /** The parts between single quotes; there is always at least one. */
  function Parts(s: string): (parts: seq<string>)
    ensures |parts| >= 1
  {
    if s == "" then [""]
    else
      var c, parts := s[|s| - 1], Parts(s[..|s| - 1]);
      if c == '\'' then parts + [""]
      else parts[..|parts| - 1] + [parts[|parts| - 1] + [c]]
  }

  /** Each part in single quotes, if it is not empty, with escaped quotes between them. */
  function Glue(parts: seq<string>): string
    requires |parts| >= 1
  {
    if |parts| == 1 then Wrapped(parts[0])
    else Glue(parts[..|parts| - 1]) + EscapedQuote() + Wrapped(parts[|parts| - 1])
  }

  function EscapedQuote(): string {
    ['\\', '\'']
  }

  function Wrapped(part: string): string {
    if part == "" then "" else ['\''] + part + ['\'']
  }

  function SingleQuoted(s: string): string {
    if s == "" then "''" else Glue(Parts(s))
  }

  /** The part that comes next. */
  lemma GlueUpTo(parts: seq<string>, k: nat)
    requires k < |parts|
    ensures Glue(parts[..k + 1])
            == if k == 0 then Wrapped(parts[k]) else Glue(parts[..k]) + EscapedQuote() + Wrapped(parts[k])
  {
    assert parts[..k + 1][..k] == parts[..k];
  }

  method SingleQuoteString(s: string) returns (result: string)
    ensures result == SingleQuoted(s)
  {
    if s == "" {
      return "''";
    }
    hide EscapedQuote, Wrapped, Parts, Glue;
    result := "";
    var parts := Parts(s);
    var first := true;
    for k := 0 to |parts|
      invariant first <==> k == 0
      invariant result == if k == 0 then "" else Glue(parts[..k])
    {
      GlueUpTo(parts, k);
      if !first {
        result := result + EscapedQuote();
      } else {
        first := false;
      }
      result := result + Wrapped(parts[k]);
    }
    assert parts[..|parts|] == parts;
  }

  predicate DoubleQuoteSpecial(c: char) {
    c == '$' || c == '`' || c == '"' || c == '\\'
  }

  function DoubleBody(s: string): string {
    if s == "" then "" else (if DoubleQuoteSpecial(s[0]) then ['\\', s[0]] else [s[0]]) + DoubleBody(s[1..])
  }

  function DoubleQuoted(s: string): string {
    "\"" + DoubleBody(s) + "\""
  }

  method DoubleQuoteString(s: string) returns (result: string)
    ensures result == DoubleQuoted(s)
  {
    result := "\"";
    assert s[0..] == s;
    for i := 0 to |s|
      invariant "\"" + DoubleBody(s) == result + DoubleBody(s[i..])
    {
      assert s[i..][0] == s[i] && s[i..][1..] == s[i + 1..];
      if DoubleQuoteSpecial(s[i]) {
        result := result + ['\\'];
      }
      result := result + [s[i]];
    }
    assert s[|s|..] == "";
    result := result + "\"";
  }

  /** Three octal digits. */
  function OctalDigits(n: nat): (t: string)
    requires n < 512
    ensures |t| == 3 && forall i :: 0 <= i < 3 ==> IsOctal(t[i])
  {
    [OctalDigit(n / 64), OctalDigit(n / 8 % 8), OctalDigit(n % 8)]
  }

  function OctalDigit(d: nat): (c: char)
    requires d < 8
    ensures IsOctal(c) && Digit(c) == d
  {
    ('0' as int + d) as char
  }

  function AnsiCChar(c: char): string {
    if c == '\U{07}' then "\\a"
    else if c == '\U{08}' then "\\b"
    else if c == '\U{1B}' then "\\E"
    else if c == '\U{0C}' then "\\f"
    else if c == '\n' then "\\n"
    else if c == '\r' then "\\r"
    else if c == '\t' then "\\t"
    else if c == '\U{0B}' then "\\v"
    else if c == '\\' then "\\\\"
    else if c == '\'' then "\\'"
    else if NeedsAnsiCQuoting(c) then "\\" + OctalDigits(c as int)
    else [c]
  }

  function AnsiCBody(s: string): string {
    if s == "" then "" else AnsiCChar(s[0]) + AnsiCBody(s[1..])
  }

  function AnsiCQuoted(s: string): string {
    "$'" + AnsiCBody(s) + "'"
  }

  method AnsiCQuoteString(s: string) returns (result: string)
    ensures result == AnsiCQuoted(s)
  {
    hide AnsiCChar;
    result := "$'";
    assert s[0..] == s;
    for i := 0 to |s|
      invariant "$'" + AnsiCBody(s) == result + AnsiCBody(s[i..])
    {
      assert s[i..][0] == s[i] && s[i..][1..] == s[i + 1..];
      result := result + AnsiCChar(s[i]);
    }
    assert s[|s|..] == "";
    result := result + "'";
  }

  predicate UsesAnsiCQuotes(s: string, options: QuoteOptions) {
    exists i :: 0 <= i < |s| && NeedsAnsiCQuoting(s[i]) && (!options.avoidAnsiCQuotingNewline || s[i] != '\n')
  }

  predicate AnyNeedsEscaping(s: string) {
    exists i :: 0 <= i < |s| && NeedsEscaping(s[i])
  }

  function Quoted(s: string, options: QuoteOptions): string {
    if UsesAnsiCQuotes(s, options) then AnsiCQuoted(s)
    else if !(options.alwaysQuote || s == "" || AnyNeedsEscaping(s)) then s
    else
      match options.preferredMode
      case BackslashEscape => BackslashEscaped(s)
      case SingleQuote => SingleQuoted(s)
      case DoubleQuote => DoubleQuoted(s)
  }

  // ----- Quote removal --------------------------------------------------------------------------

  datatype Context = Plain | InSingle | InDouble

  /** A character of a word, and whether quoting took its special meaning away. */
  datatype Marked = Marked(c: char, quoted: bool)

  function Push(ms: seq<Marked>, r: Option<seq<Marked>>): Option<seq<Marked>> {
    if r.None? then None else Some(ms + r.value)
  }

  /** Quote removal as sections 2.2 and 2.6.7 of the POSIX.1-2017 Shell Command Language have
      it; there is no result if a quotation does not end. */
  function Unquote(w: string, context: Context): Option<seq<Marked>>
    decreases |w|
  {
    if w == "" then (if context.Plain? then Some([]) else None)
    else
      match context
      case InSingle =>
        if w[0] == '\'' then Unquote(w[1..], Plain) else Push([Marked(w[0], true)], Unquote(w[1..], InSingle))
      case InDouble =>
        if w[0] == '"' then Unquote(w[1..], Plain)
        else if w[0] == '\\' && |w| > 1 && w[1] == '\n' then Unquote(w[2..], InDouble)
        else if w[0] == '\\' && |w| > 1 && DoubleQuoteSpecial(w[1]) then
          Push([Marked(w[1], true)], Unquote(w[2..], InDouble))
        else Push([Marked(w[0], w[0] != '$' && w[0] != '`')], Unquote(w[1..], InDouble))
      case Plain =>
        if w[0] == '\'' then Unquote(w[1..], InSingle)
        else if w[0] == '"' then Unquote(w[1..], InDouble)
        else if w[0] == '\\' then
          if |w| == 1 then None
          else if w[1] == '\n' then Unquote(w[2..], Plain)
          else Push([Marked(w[1], true)], Unquote(w[2..], Plain))
        else Push([Marked(w[0], false)], Unquote(w[1..], Plain))
  }

  /** `ms` spells `s`, with every character that needs escaping quoted. */
  ghost predicate Spells(ms: seq<Marked>, s: string) {
    && |ms| == |s|
    && forall i :: 0 <= i < |s| ==> ms[i].c == s[i] && (NeedsEscaping(s[i]) ==> ms[i].quoted)
  }

  function AllQuoted(s: string): seq<Marked> {
    seq(|s|, i requires 0 <= i < |s| => Marked(s[i], true))
  }

  function QuotedAsNeeded(s: string): seq<Marked> {
    seq(|s|, i requires 0 <= i < |s| => Marked(s[i], NeedsEscaping(s[i])))
  }

  lemma EscapedStep(c: char, rest: string)
    ensures Unquote((if NeedsEscaping(c) then ['\\', c] else [c]) + rest, Plain)
            == Push([Marked(c, NeedsEscaping(c))], Unquote(rest, Plain))
  {
    if NeedsEscaping(c) {
      assert (['\\', c] + rest)[2..] == rest;
    } else {
      assert ([c] + rest)[1..] == rest;
    }
  }

  lemma {:induction false} UnquoteEscaped(s: string)
    ensures Unquote(Escaped(s), Plain) == Some(QuotedAsNeeded(s))
  {
    hide NeedsEscaping, Unquote;
    if s == "" {
      UnquoteNothing();
    } else {
      UnquoteEscaped(s[1..]);
      EscapedStep(s[0], Escaped(s[1..]));
      assert QuotedAsNeeded(s) == [Marked(s[0], NeedsEscaping(s[0]))] + QuotedAsNeeded(s[1..]);
    }
  }

  lemma UnquoteNothing()
    ensures Unquote("", Plain) == Some([]) && QuotedAsNeeded("") == []
  {
  }

  lemma {:induction false} EscapedUnchanged(s: string)
    requires !AnyNeedsEscaping(s)
    ensures Escaped(s) == s
  {
    if s != "" {
      assert !NeedsEscaping(s[0]);
      forall i | 0 <= i < |s[1..]|
        ensures !NeedsEscaping(s[1..][i])
      {
        assert s[1..][i] == s[i + 1];
      }
      EscapedUnchanged(s[1..]);
    }
  }

  lemma {:induction false} UnquoteDouble(s: string)
    ensures Unquote(DoubleBody(s) + "\"", InDouble) == Some(AllQuoted(s))
  {
    if s == "" {
      assert "\""[1..] == "";
    } else {
      UnquoteDouble(s[1..]);
      var rest := DoubleBody(s[1..]) + "\"";
      assert AllQuoted(s) == [Marked(s[0], true)] + AllQuoted(s[1..]);
      if DoubleQuoteSpecial(s[0]) {
        assert DoubleBody(s) + "\"" == ['\\', s[0]] + rest;
        assert (['\\', s[0]] + rest)[2..] == rest;
      } else {
        assert DoubleBody(s) + "\"" == [s[0]] + rest;
        assert ([s[0]] + rest)[1..] == rest;
      }
    }
  }

  ghost predicate NoQuote(s: string) {
    forall i :: 0 <= i < |s| ==> s[i] != '\''
  }

  lemma {:induction false} UnquoteSingle(part: string, rest: string)
    requires NoQuote(part)
    ensures Unquote(part + ("'" + rest), InSingle) == Push(AllQuoted(part), Unquote(rest, Plain))
  {
    var tail := "'" + rest;
    if part == "" {
      assert part + tail == tail && tail[1..] == rest;
      PushNothing(Unquote(rest, Plain));
    } else {
      UnquoteSingle(part[1..], rest);
      assert (part + tail)[0] == part[0] && (part + tail)[1..] == part[1..] + tail;
      PushTwice([Marked(part[0], true)], AllQuoted(part[1..]), Unquote(rest, Plain));
      assert AllQuoted(part) == [Marked(part[0], true)] + AllQuoted(part[1..]);
    }
  }

  lemma PushNothing(r: Option<seq<Marked>>)
    ensures Push([], r) == r
  {
    if r.Some? {
      assert [] + r.value == r.value;
    }
  }

  lemma PushTwice(a: seq<Marked>, b: seq<Marked>, r: Option<seq<Marked>>)
    ensures Push(a, Push(b, r)) == Push(a + b, r)
  {
    if r.Some? {
      assert a + (b + r.value) == a + b + r.value;
    }
  }

  lemma UnquoteWrapped(part: string, rest: string)
    requires NoQuote(part)
    ensures Unquote(Wrapped(part) + rest, Plain) == Push(AllQuoted(part), Unquote(rest, Plain))
  {
    if part == "" {
      assert Wrapped(part) + rest == rest && AllQuoted(part) == [];
      PushNothing(Unquote(rest, Plain));
    } else {
      UnquoteSingle(part, rest);
      assert Wrapped(part) + rest == "'" + (part + ("'" + rest));
      assert ("'" + (part + ("'" + rest)))[1..] == part + ("'" + rest);
    }
  }

  lemma UnquoteEscapedQuote(rest: string)
    ensures Unquote(EscapedQuote() + rest, Plain) == Push([Marked('\'', true)], Unquote(rest, Plain))
  {
    assert (EscapedQuote() + rest)[2..] == rest;
  }

  /** The parts with single quotes put back between them. */
  function JoinParts(parts: seq<string>): string
    requires |parts| >= 1
  {
    if |parts| == 1 then parts[0] else JoinParts(parts[..|parts| - 1]) + ['\''] + parts[|parts| - 1]
  }

  ghost predicate NoQuotes(parts: seq<string>) {
    forall i :: 0 <= i < |parts| ==> NoQuote(parts[i])
  }

  lemma LongerLastPart(parts: seq<string>, c: char)
    requires |parts| >= 1
    ensures JoinParts(parts[..|parts| - 1] + [parts[|parts| - 1] + [c]]) == JoinParts(parts) + [c]
  {
    var init, last := parts[..|parts| - 1], parts[|parts| - 1];
    assert (init + [last + [c]])[..|init|] == init;
    if |parts| > 1 {
      assert JoinParts(init) + ['\''] + (last + [c]) == JoinParts(init) + ['\''] + last + [c];
    }
  }

  lemma EmptyLastPart(parts: seq<string>)
    requires |parts| >= 1
    ensures JoinParts(parts + [""]) == JoinParts(parts) + ['\'']
  {
    assert (parts + [""])[..|parts|] == parts;
  }

  lemma {:induction false} PartsJoin(s: string)
    ensures JoinParts(Parts(s)) == s
  {
    if s != "" {
      hide JoinParts;
      var c, parts := s[|s| - 1], Parts(s[..|s| - 1]);
      PartsJoin(s[..|s| - 1]);
      assert s == s[..|s| - 1] + [c];
      EmptyLastPart(parts);
      LongerLastPart(parts, c);
    }
  }

  lemma {:induction false} PartsHaveNoQuotes(s: string)
    ensures NoQuotes(Parts(s))
  {
    if s != "" {
      PartsHaveNoQuotes(s[..|s| - 1]);
    }
  }

  lemma PartsOf(s: string)
    ensures JoinParts(Parts(s)) == s && NoQuotes(Parts(s))
  {
    PartsJoin(s);
    PartsHaveNoQuotes(s);
  }

  lemma AllQuotedConcat(a: string, b: string)
    ensures AllQuoted(a + b) == AllQuoted(a) + AllQuoted(b)
  {
  }

  lemma UnquoteLastPart(part: string, rest: string)
    requires NoQuote(part)
    ensures Unquote(EscapedQuote() + (Wrapped(part) + rest), Plain)
            == Push(AllQuoted(['\''] + part), Unquote(rest, Plain))
  {
    UnquoteWrapped(part, rest);
    UnquoteEscapedQuote(Wrapped(part) + rest);
    PushTwice([Marked('\'', true)], AllQuoted(part), Unquote(rest, Plain));
    AllQuotedConcat(['\''], part);
    assert AllQuoted(['\'']) == [Marked('\'', true)];
  }

  lemma {:induction false} UnquoteGlue(parts: seq<string>, rest: string)
    requires |parts| >= 1 && NoQuotes(parts)
    ensures Unquote(Glue(parts) + rest, Plain) == Push(AllQuoted(JoinParts(parts)), Unquote(rest, Plain))
  {
    hide Unquote, Push, AllQuoted, EscapedQuote, Wrapped, NoQuote;
    var n := |parts| - 1;
    if n == 0 {
      UnquoteWrapped(parts[0], rest);
    } else {
      var init, part := parts[..n], parts[n];
      var tail := EscapedQuote() + (Wrapped(part) + rest);
      UnquoteGlue(init, tail);
      UnquoteLastPart(part, rest);
      PushTwice(AllQuoted(JoinParts(init)), AllQuoted(['\''] + part), Unquote(rest, Plain));
      AllQuotedConcat(JoinParts(init), ['\''] + part);
      assert Glue(parts) + rest == Glue(init) + tail;
      assert JoinParts(parts) == JoinParts(init) + (['\''] + part);
    }
  }

  lemma UnquoteEmptyQuotes()
    ensures Unquote("''", Plain) == Some([])
  {
    assert "''"[1..] == "'" && "'"[1..] == "";
  }

  /** What a reader takes each of the three forms to be. */
  lemma UnquoteForms(s: string)
    ensures Unquote(BackslashEscaped(s), Plain) == Some(QuotedAsNeeded(s))
    ensures Unquote(SingleQuoted(s), Plain) == Some(AllQuoted(s))
    ensures Unquote(DoubleQuoted(s), Plain) == Some(AllQuoted(s))
  {
    UnquoteEmptyQuotes();
    UnquoteEscaped(s);
    PartsOf(s);
    UnquoteGlue(Parts(s), "");
    assert Glue(Parts(s)) + "" == Glue(Parts(s)) && AllQuoted(s) + [] == AllQuoted(s);
    UnquoteDouble(s);
    assert DoubleQuoted(s) == "\"" + (DoubleBody(s) + "\"");
    assert DoubleQuoted(s)[1..] == DoubleBody(s) + "\"";
    assert s == "" ==> AllQuoted(s) == [] && QuotedAsNeeded(s) == [];
  }

  /** Quote removal undoes quoting in every mode, for every string that is not printed as an
      ANSI-C quotation, and no character of the output that needs it is left unquoted. */
  lemma QuotedSpells(s: string, options: QuoteOptions)
    requires !UsesAnsiCQuotes(s, options)
    ensures Unquote(Quoted(s, options), Plain).Some?
    ensures Spells(Unquote(Quoted(s, options), Plain).value, s)
  {
    if !(options.alwaysQuote || s == "" || AnyNeedsEscaping(s)) {
      EscapedUnchanged(s);
      UnquoteEscaped(s);
    } else {
      UnquoteForms(s);
    }
  }

  /** The form that the string and the options call for. */
  method QuoteString(s: string, options: QuoteOptions) returns (r: string)
    ensures r == Quoted(s, options)
    ensures !UsesAnsiCQuotes(s, options) ==> Unquote(r, Plain).Some? && Spells(Unquote(r, Plain).value, s)
  {
    hide UsesAnsiCQuotes, AnyNeedsEscaping, Unquote, Spells;
    if !UsesAnsiCQuotes(s, options) {
      QuotedSpells(s, options);
    }
    if UsesAnsiCQuotes(s, options) {
      r := AnsiCQuoteString(s);
      return;
    }
    if !(options.alwaysQuote || s == "" || AnyNeedsEscaping(s)) {
      return s;
    }
    match options.preferredMode
    case BackslashEscape => r := BackslashEscapeString(s);
    case SingleQuote => r := SingleQuoteString(s);
    case DoubleQuote => r := DoubleQuoteString(s);
  }

  /** Of the characters that section 2.2 of the POSIX.1-2017 Shell Command Language has quoted in a word, the
      printers escape all but the blanks that they print in an ANSI-C quotation, and `#`, `~`, `=` and `%`. */
  lemma SpecialsAreEscaped(c: char)
    ensures c in "|&;<>()$`\\\"' *?[" ==> NeedsEscaping(c)
    ensures c in "\t\n" ==> NeedsAnsiCQuoting(c)
    ensures c in "#~=%" ==> !NeedsEscaping(c) && !NeedsAnsiCQuoting(c)
  {
  }
}
