/** The delimiter tokenizer that programmable completion uses (brush-core/src/completion.rs).

    A token is a half-open range of positions of the input, so that "slice of the input"
    needs no separate statement. */
module Completion {
  import opened Wrappers

  datatype Token = Token(start: nat, end: nat)

  /** What a character does to the tokens around it. */
  datatype Kind = Gap | Delimiter | Word

  /** The lexical state in front of a character; `open` says that a token is being built. */
  datatype Mode = Mode(escaped: bool, quote: Option<char>, open: bool)

  predicate IsAsciiWhitespace(c: char) {
    c == ' ' || c == '\t' || c == '\n' || c == '\r' || c == '\U{0C}'
  }

  /** A quote only opens in front of a token; a backslash escapes outside quotes and inside
      double quotes. Anything else outside quotes is an active delimiter if it is listed. */
  predicate OpensQuote(m: Mode, c: char) {
    !m.escaped && m.quote.None? && !m.open && (c == '\'' || c == '"')
  }

  predicate IsActive(m: Mode, c: char, delimiters: seq<char>) {
    !m.escaped && m.quote.None? && c != '\\' && !OpensQuote(m, c) && c in delimiters
  }

  function KindOf(m: Mode, c: char, delimiters: seq<char>): Kind {
    if !IsActive(m, c, delimiters) then Word
    else if IsAsciiWhitespace(c) then Gap
    else Delimiter
  }

  function After(m: Mode, c: char, delimiters: seq<char>): Mode {
    Mode(
      !m.escaped && c == '\\' && (m.quote.None? || m.quote == Some('"')),
      if OpensQuote(m, c) then Some(c)
      else if !m.escaped && m.quote == Some(c) then None
      else m.quote,
      KindOf(m, c, delimiters) != Gap)
  }

  function ModeAt(input: string, delimiters: seq<char>, i: nat): Mode
    requires i <= |input|
  {
    if i == 0 then Mode(false, None, false)
    else After(ModeAt(input, delimiters, i - 1), input[i - 1], delimiters)
  }

  function KindAt(input: string, delimiters: seq<char>, i: nat): Kind
    requires i < |input|
  {
    KindOf(ModeAt(input, delimiters, i), input[i], delimiters)
  }

  function Kinds(input: string, delimiters: seq<char>): (kinds: seq<Kind>)
    ensures |kinds| == |input|
    ensures forall i :: 0 <= i < |input| ==> kinds[i] == KindAt(input, delimiters, i)
  {
    seq(|input|, i requires 0 <= i < |input| => KindAt(input, delimiters, i))
  }

  /** `[a, b)` is not empty, holds characters of one kind other than Gap, and does not
      continue to its left. */
  ghost predicate OpenRun(kinds: seq<Kind>, a: nat, b: nat) {
    && a < b <= |kinds|
    && kinds[a] != Gap
    && (forall p :: a <= p < b ==> kinds[p] == kinds[a])
    && (a > 0 ==> kinds[a - 1] != kinds[a])
  }

  /** A maximal run of one kind other than Gap. */
  ghost predicate Run(kinds: seq<Kind>, t: Token) {
    OpenRun(kinds, t.start, t.end) && (t.end < |kinds| ==> kinds[t.end] != kinds[t.start])
  }

  ghost predicate AllGap(kinds: seq<Kind>, a: nat, b: nat)
    requires b <= |kinds|
  {
    forall p :: a <= p < b ==> kinds[p] == Gap
  }

  /** Read from the right, the first `e` characters are gaps and maximal runs, and the runs
      are the tokens in order. */
  ghost predicate IsTokenization(kinds: seq<Kind>, e: nat, tokens: seq<Token>)
    requires e <= |kinds|
    decreases |tokens|
  {
    if tokens == [] then AllGap(kinds, 0, e)
    else
      var t := tokens[|tokens| - 1];
      && t.end <= e
      && Run(kinds, t)
      && AllGap(kinds, t.end, e)
      && IsTokenization(kinds, t.start, tokens[..|tokens| - 1])
  }

  /** The closed tokens and the start of the open one, when `i` characters have been read. */
  datatype Progress = Progress(tokens: seq<Token>, start: Option<nat>)

  function Closed(b: Progress, i: nat): seq<Token> {
    if b.start.Some? then b.tokens + [Token(b.start.value, i)] else b.tokens
  }

  /** Reads the character at `i`: a run goes on, or it closes and the next one may open. */
  function Advance(kinds: seq<Kind>, i: nat, b: Progress): Progress
    requires i < |kinds|
    requires b.start.Some? ==> b.start.value < |kinds|
  {
    if kinds[i] == Gap then Progress(Closed(b, i), None)
    else if b.start.Some? && kinds[b.start.value] == kinds[i] then b
    else Progress(Closed(b, i), Some(i))
  }

  function Read(kinds: seq<Kind>, i: nat): (b: Progress)
    requires i <= |kinds|
    ensures b.start.Some? ==> b.start.value < i && kinds[b.start.value] != Gap
  {
    if i == 0 then Progress([], None) else Advance(kinds, i - 1, Read(kinds, i - 1))
  }

  ghost predicate ReadInvariant(kinds: seq<Kind>, i: nat, b: Progress)
    requires i <= |kinds|
  {
    && b.start.GetOr(i) <= i
    && IsTokenization(kinds, b.start.GetOr(i), b.tokens)
    && (b.start.Some? ==> OpenRun(kinds, b.start.value, i))
    && (b.start.None? && i > 0 ==> kinds[i - 1] == Gap)
  }

  /** Closing the open token, where its run ends, leaves a tokenization of what was read. */
  lemma CloseKeeps(kinds: seq<Kind>, i: nat, b: Progress)
    requires i <= |kinds| && ReadInvariant(kinds, i, b)
    requires b.start.Some? && i < |kinds| ==> kinds[i] != kinds[b.start.value]
    ensures IsTokenization(kinds, i, Closed(b, i))
  {
    if b.start.Some? {
      assert Closed(b, i)[..|b.tokens|] == b.tokens;
    }
  }

  /** A gap may follow a tokenization. */
  lemma GapExtends(kinds: seq<Kind>, e: nat, tokens: seq<Token>)
    requires e < |kinds| && kinds[e] == Gap && IsTokenization(kinds, e, tokens)
    ensures IsTokenization(kinds, e + 1, tokens)
  {
  }

  lemma AdvanceKeeps(kinds: seq<Kind>, i: nat, b: Progress)
    requires i < |kinds| && ReadInvariant(kinds, i, b)
    ensures ReadInvariant(kinds, i + 1, Advance(kinds, i, b))
  {
    if !(b.start.Some? && kinds[b.start.value] == kinds[i]) {
      CloseKeeps(kinds, i, b);
      if kinds[i] == Gap {
        GapExtends(kinds, i, Closed(b, i));
      }
    }
  }

  lemma {:induction false} ReadKeeps(kinds: seq<Kind>, i: nat)
    requires i <= |kinds|
    ensures ReadInvariant(kinds, i, Read(kinds, i))
  {
    if i > 0 {
      ReadKeeps(kinds, i - 1);
      AdvanceKeeps(kinds, i - 1, Read(kinds, i - 1));
    }
  }

  /** The token list a run of the tokenizer produces meets the specification. */
  lemma ReadIsTokenization(kinds: seq<Kind>)
    ensures IsTokenization(kinds, |kinds|, Closed(Read(kinds, |kinds|), |kinds|))
  {
    ReadKeeps(kinds, |kinds|);
    CloseKeeps(kinds, |kinds|, Read(kinds, |kinds|));
  }

  method TokenizeByDelimiters(input: string, delimiters: seq<char>) returns (tokens: seq<Token>)
    ensures IsTokenization(Kinds(input, delimiters), |input|, tokens)
  {
    tokens := [];
    var wordStart: Option<nat> := None;
    var wordIsDelimiters := false;
    var quoteChar: Option<char> := None;
    var escaped := false;
    ghost var kinds := Kinds(input, delimiters);

    for i := 0 to |input|
      invariant ModeAt(input, delimiters, i) == Mode(escaped, quoteChar, wordStart.Some?)
      invariant Read(kinds, i) == Progress(tokens, wordStart)
      invariant wordIsDelimiters <==> wordStart.Some? && kinds[wordStart.value] == Delimiter
    {
      var c := input[i];
      var isActiveDelimiter := false;
      if escaped {
        escaped := false;
      } else if quoteChar.Some? {
        if c == '\\' && quoteChar.value == '"' {
          escaped := true;
        } else if c == quoteChar.value {
          quoteChar := None;
        }
      } else {
        if c == '\\' {
          escaped := true;
        } else if wordStart.None? && (c == '\'' || c == '"') {
          quoteChar := Some(c);
        } else {
          isActiveDelimiter := c in delimiters;
        }
      }

      if isActiveDelimiter {
        if wordStart.Some? {
          if !wordIsDelimiters || IsAsciiWhitespace(c) {
            tokens := tokens + [Token(wordStart.value, i)];
            wordStart := None;
            wordIsDelimiters := false;
          }
          if !IsAsciiWhitespace(c) && wordStart.None? {
            wordStart := Some(i);
            wordIsDelimiters := true;
          }
        } else if !IsAsciiWhitespace(c) {
          wordStart := Some(i);
          wordIsDelimiters := true;
        }
      } else {
        if wordIsDelimiters && wordStart.Some? {
          tokens := tokens + [Token(wordStart.value, i)];
          wordStart := None;
          wordIsDelimiters := false;
        }
        if wordStart.None? {
          wordStart := Some(i);
        }
      }
    }

    if wordStart.Some? {
      tokens := tokens + [Token(wordStart.value, |input|)];
    }
    ReadIsTokenization(kinds);
  }

  /** A position lies in a token exactly when it is not an active whitespace delimiter. */
  lemma {:induction false} OutsideIsGap(kinds: seq<Kind>, e: nat, tokens: seq<Token>, p: nat)
    requires p < e <= |kinds| && IsTokenization(kinds, e, tokens)
    ensures (exists t :: t in tokens && t.start <= p < t.end) <==> kinds[p] != Gap
    decreases |tokens|
  {
    if tokens != [] {
      var init, t := tokens[..|tokens| - 1], tokens[|tokens| - 1];
      assert tokens == init + [t];
      if p < t.start {
        OutsideIsGap(kinds, t.start, init, p);
      } else {
        BeforeEnd(kinds, t.start, init);
      }
    }
  }

  lemma {:induction false} BeforeEnd(kinds: seq<Kind>, e: nat, tokens: seq<Token>)
    requires e <= |kinds| && IsTokenization(kinds, e, tokens)
    ensures forall t :: t in tokens ==> t.start < t.end <= e
    decreases |tokens|
  {
    if tokens != [] {
      BeforeEnd(kinds, tokens[|tokens| - 1].start, tokens[..|tokens| - 1]);
    }
  }

  lemma NotAllGap(kinds: seq<Kind>, e: nat, tokens: seq<Token>)
    requires e <= |kinds| && IsTokenization(kinds, e, tokens) && tokens != []
    ensures !AllGap(kinds, 0, e)
  {
    assert kinds[tokens[|tokens| - 1].start] != Gap;
  }

  /** The specification pins the tokenizer down: the input and the delimiters determine the
      token list. */
  lemma {:induction false} TokenizationIsUnique(kinds: seq<Kind>, e: nat, a: seq<Token>, b: seq<Token>)
    requires e <= |kinds| && IsTokenization(kinds, e, a) && IsTokenization(kinds, e, b)
    ensures a == b
    decreases |a|
  {
    if a != [] && b != [] {
      var s, t := a[|a| - 1], b[|b| - 1];
      assert kinds[s.end - 1] != Gap && kinds[t.end - 1] != Gap;
      assert s == t;
      TokenizationIsUnique(kinds, s.start, a[..|a| - 1], b[..|b| - 1]);
    } else {
      if a != [] { NotAllGap(kinds, e, a); }
      if b != [] { NotAllGap(kinds, e, b); }
    }
  }

  // ----- Quotes and escapes ---------------------------------------------------------------------

  /** A quote in front of a token takes everything up to the next one of its kind into the token; within
      double quotes, if there is no backslash among it. */
  lemma {:induction false} QuotedIsWord(input: string, delimiters: seq<char>, i: nat, j: nat)
    requires i < j < |input| && ModeAt(input, delimiters, i) == Mode(false, None, false)
    requires (input[i] == '\'' || input[i] == '"') && forall k :: i < k < j ==> input[k] != input[i]
    requires input[i] == '"' ==> forall k :: i < k < j ==> input[k] != '\\'
    ensures forall k :: i <= k < j ==> KindAt(input, delimiters, k) == Word
    ensures ModeAt(input, delimiters, j) == Mode(false, Some(input[i]), true)
    ensures input[j] == input[i] ==> KindAt(input, delimiters, j) == Word && ModeAt(input, delimiters, j + 1) == Mode(false, None, true)
    decreases j
  {
    if i + 1 < j {
      QuotedIsWord(input, delimiters, i, j - 1);
      assert input[j - 1] != input[i];
    }
  }

  /** A backslash takes itself and the next character into a token, outside of quotes and within double ones,
      and changes nothing else; within single quotes it is a character like others. */
  lemma EscapedIsWord(input: string, delimiters: seq<char>, i: nat, quote: Option<char>, open: bool)
    requires i + 1 < |input| && input[i] == '\\' && ModeAt(input, delimiters, i) == Mode(false, quote, open)
    ensures quote.None? || quote == Some('"') ==>
              && KindAt(input, delimiters, i) == Word && KindAt(input, delimiters, i + 1) == Word
              && ModeAt(input, delimiters, i + 2) == Mode(false, quote, true)
    ensures quote == Some('\'') ==>
              KindAt(input, delimiters, i) == Word && ModeAt(input, delimiters, i + 1) == Mode(false, quote, true)
  {
    assert ModeAt(input, delimiters, i + 1) == After(ModeAt(input, delimiters, i), input[i], delimiters);
    assert ModeAt(input, delimiters, i + 2) == After(ModeAt(input, delimiters, i + 1), input[i + 1], delimiters);
  }

  /** Outside of both, delimiters are what they are, and a quote within a token opens nothing. */
  lemma UnquotedIs(input: string, delimiters: seq<char>, i: nat, open: bool)
    requires i < |input| && ModeAt(input, delimiters, i) == Mode(false, None, open) && input[i] != '\\'
    requires input[i] in "'\"" ==> open
    ensures KindAt(input, delimiters, i)
            == if input[i] !in delimiters then Word else if input[i] in " \t\n\r\U{0C}" then Gap else Delimiter
    ensures ModeAt(input, delimiters, i + 1) == Mode(false, None, KindAt(input, delimiters, i) != Gap)
  {
    var c := input[i];
    assert "'\""[0] == '\'' && "'\""[1] == '"';
    var whites := " \t\n\r\U{0C}";
    assert whites[0] == ' ' && whites[1] == '\t' && whites[2] == '\n' && whites[3] == '\r' && whites[4] == '\U{0C}';
    assert IsAsciiWhitespace(c) <==> c in whites;
  }
}
