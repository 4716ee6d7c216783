/** The text form of the history: writing it out and reading it back
    (brush-core/src/history.rs). */
module HistoryFile {
  import opened Wrappers
  import opened Decimal
  import opened History

  /** The White_Space property of Unicode. */
  predicate IsWhitespace(c: char) {
    || '\U{09}' <= c <= '\U{0D}' || c == ' ' || c == '\U{85}' || c == '\U{A0}' || c == '\U{1680}'
    || '\U{2000}' <= c <= '\U{200A}' || c == '\U{2028}' || c == '\U{2029}' || c == '\U{202F}'
    || c == '\U{205F}' || c == '\U{3000}'
  }

  function Trim(s: string): string {
    if s == "" then ""
    else if IsWhitespace(s[0]) then Trim(s[1..])
    else if IsWhitespace(s[|s| - 1]) then Trim(s[..|s| - 1])
    else s
  }

  // ----- Writing --------------------------------------------------------------------------------

  function Written(item: Item, timestamps: bool): string {
    (if timestamps && item.timestamp.Some? then "#" + ShowInt(item.timestamp.value.seconds) + "\n" else "")
    + (item.commandLine + "\n")
  }

  function WrittenAll(items: seq<Item>, unsavedOnly: bool, timestamps: bool): string {
    if items == [] then ""
    else
      WrittenAll(items[..|items| - 1], unsavedOnly, timestamps)
      + (if unsavedOnly && !items[|items| - 1].dirty then "" else Written(items[|items| - 1], timestamps))
  }

  /** The map once every item that was written is marked as saved. */
  function Saved(s: Store, unsavedOnly: bool): map<int, Item> {
    if unsavedOnly then map id | id in s.idMap :: s.idMap[id].(dirty := false) else s.idMap
  }

  lemma WrittenSnoc(base: string, s: Store, i: nat, unsavedOnly: bool, timestamps: bool)
    requires Valid(s) && i < |s.items|
    ensures base + WrittenAll(Contents(s)[..i + 1], unsavedOnly, timestamps)
            == base + WrittenAll(Contents(s)[..i], unsavedOnly, timestamps)
               + (if unsavedOnly && !s.idMap[s.items[i]].dirty then "" else Written(s.idMap[s.items[i]], timestamps))
  {
    var all := Contents(s);
    var next := if unsavedOnly && !all[i].dirty then "" else Written(all[i], timestamps);
    assert all[..i + 1][..i] == all[..i];
    assert base + (WrittenAll(all[..i], unsavedOnly, timestamps) + next)
        == base + WrittenAll(all[..i], unsavedOnly, timestamps) + next;
  }

  /** The map while the first `i` items have been written. */
  ghost predicate PartlySaved(s: Store, m: map<int, Item>, i: nat, unsavedOnly: bool)
    requires Valid(s) && i <= |s.items|
  {
    && m.Keys == s.idMap.Keys
    && (forall k :: 0 <= k < i ==>
          m[s.items[k]] == if unsavedOnly then s.idMap[s.items[k]].(dirty := false) else s.idMap[s.items[k]])
    && (forall k :: i <= k < |s.items| ==> m[s.items[k]] == s.idMap[s.items[k]])
  }

  lemma SaveNext(s: Store, m: map<int, Item>, i: nat)
    requires Valid(s) && i < |s.items| && PartlySaved(s, m, i, true)
    ensures PartlySaved(s, m[s.items[i] := m[s.items[i]].(dirty := false)], i + 1, true)
  {
  }

  lemma KeepNext(s: Store, m: map<int, Item>, i: nat, unsavedOnly: bool)
    requires Valid(s) && i < |s.items| && PartlySaved(s, m, i, unsavedOnly)
    requires unsavedOnly ==> !m[s.items[i]].dirty
    ensures PartlySaved(s, m, i + 1, unsavedOnly)
  {
  }

  lemma AllSaved(s: Store, m: map<int, Item>, unsavedOnly: bool)
    requires Valid(s) && PartlySaved(s, m, |s.items|, unsavedOnly)
    ensures m == Saved(s, unsavedOnly)
  {
    forall id | id in m
      ensures m[id] == Saved(s, unsavedOnly)[id]
    {
      var k :| 0 <= k < |s.items| && s.items[k] == id;
    }
  }

  /** Writes the items to the file, whose text so far is `file`. */
  method Flush(h: HistoryStore, file: string, append: bool, unsavedOnly: bool, timestamps: bool)
    returns (text: string)
    requires Valid(h.State())
    modifies h
    ensures text == (if append then file else "") + WrittenAll(Contents(old(h.State())), unsavedOnly, timestamps)
    ensures h.State() == old(h.State()).(idMap := Saved(old(h.State()), unsavedOnly))
  {
    text := if append then file else "";
    ghost var base, s := text, h.State();
    for i := 0 to |h.items|
      invariant h.items == s.items && h.nextId == s.nextId
      invariant PartlySaved(s, h.idMap, i, unsavedOnly)
      invariant text == base + WrittenAll(Contents(s)[..i], unsavedOnly, timestamps)
    {
      var id := h.items[i];
      var item := h.idMap[id];
      WrittenSnoc(base, s, i, unsavedOnly, timestamps);
      if unsavedOnly && !item.dirty {
        KeepNext(s, h.idMap, i, unsavedOnly);
        assert text + "" == text;
        continue;
      }
      var lines := "";
      if timestamps && item.timestamp.Some? {
        lines := "#" + ShowInt(item.timestamp.value.seconds) + "\n";
      }
      assert item.commandLine == s.idMap[id].commandLine && item.timestamp == s.idMap[id].timestamp;
      text := text + (lines + (item.commandLine + "\n"));
      if unsavedOnly {
        SaveNext(s, h.idMap, i);
        h.idMap := h.idMap[id := item.(dirty := false)];
      } else {
        KeepNext(s, h.idMap, i, unsavedOnly);
      }
    }
    AllSaved(s, h.idMap, unsavedOnly);
    assert Contents(s)[..|s.items|] == Contents(s);
  }

  // ----- Reading --------------------------------------------------------------------------------

  function LineEnd(text: string): (n: nat)
    ensures n <= |text|
  {
    if text == "" || text[0] == '\n' then 0 else 1 + LineEnd(text[1..])
  }

  function StripReturn(line: string): string {
    if line != "" && line[|line| - 1] == '\r' then line[..|line| - 1] else line
  }

  /** The lines of a text. A line end is a newline or a carriage return and a newline; the last
      line need not have one. */
  function Lines(text: string): seq<string>
    decreases |text|
  {
    var n := LineEnd(text);
    if text == "" then []
    else if n == |text| then [text]
    else [StripReturn(text[..n])] + Lines(text[n + 1..])
  }

  datatype Entry = Entry(commandLine: string, timestamp: Option<Timestamp>)

  /** The timestamp that a comment line announces, if it holds a number of seconds that a
      timestamp can have. */
  function Announced(line: string, inRange: int -> bool): Option<Timestamp>
    requires line != ""
  {
    match ReadI64(Trim(line[1..]))
    case None => None
    case Some(n) => if inRange(n) then Some(Timestamp(n, 0)) else None
  }

  predicate IsComment(line: string) {
    line != "" && line[0] == '#'
  }

  function Entries(lines: seq<string>, inRange: int -> bool, pending: Option<Timestamp>): seq<Entry> {
    if lines == [] then []
    else if IsComment(lines[0]) then Entries(lines[1..], inRange, Announced(lines[0], inRange))
    else [Entry(lines[0], pending)] + Entries(lines[1..], inRange, None)
  }

  /** The timestamp that waits for the next command line. */
  function PendingAfter(lines: seq<string>, inRange: int -> bool, pending: Option<Timestamp>): Option<Timestamp> {
    if lines == [] then pending
    else PendingAfter(lines[1..], inRange, if IsComment(lines[0]) then Announced(lines[0], inRange) else None)
  }

  lemma {:induction false} EntriesConcat(a: seq<string>, b: seq<string>, inRange: int -> bool,
                                         pending: Option<Timestamp>)
    ensures Entries(a + b, inRange, pending)
            == Entries(a, inRange, pending) + Entries(b, inRange, PendingAfter(a, inRange, pending))
    ensures PendingAfter(a + b, inRange, pending) == PendingAfter(b, inRange, PendingAfter(a, inRange, pending))
  {
    hide Announced;
    if a == [] {
      assert a + b == b;
    } else {
      assert (a + b)[0] == a[0] && (a + b)[1..] == a[1..] + b;
      EntriesConcat(a[1..], b, inRange, if IsComment(a[0]) then Announced(a[0], inRange) else None);
    }
  }

  function Numbered(entries: seq<Entry>): seq<Item> {
    seq(|entries|, i requires 0 <= i < |entries| => Item(i, entries[i].commandLine, entries[i].timestamp, false))
  }

  lemma NumberedSnoc(entries: seq<Entry>, e: Entry)
    ensures Numbered(entries + [e]) == Numbered(entries) + [Item(|entries|, e.commandLine, e.timestamp, false)]
  {
  }

  /** What one more line adds. */
  lemma EntriesSnoc(lines: seq<string>, i: nat, inRange: int -> bool)
    requires i < |lines|
    ensures var before, pending := Entries(lines[..i], inRange, None), PendingAfter(lines[..i], inRange, None);
            if IsComment(lines[i])
            then Entries(lines[..i + 1], inRange, None) == before
                 && PendingAfter(lines[..i + 1], inRange, None) == Announced(lines[i], inRange)
            else Entries(lines[..i + 1], inRange, None) == before + [Entry(lines[i], pending)]
                 && PendingAfter(lines[..i + 1], inRange, None) == None
  {
    assert lines[..i + 1] == lines[..i] + [lines[i]];
    EntriesConcat(lines[..i], [lines[i]], inRange, None);
  }

  lemma NumberedLength(entries: seq<Entry>, s: Store)
    requires Valid(s) && Contents(s) == Numbered(entries)
    ensures |entries| == |s.items|
  {
    assert |Numbered(entries)| == |entries|;
  }

  lemma NothingImported(inRange: int -> bool)
    ensures Valid(EMPTY) && Contents(EMPTY) == Numbered(Entries([], inRange, None)) && PendingAfter([], inRange, None) == None
  {
  }

  method Import(text: string, inRange: int -> bool) returns (history: HistoryStore)
    ensures fresh(history) && Valid(history.State())
    ensures Contents(history.State()) == Numbered(Entries(Lines(text), inRange, None))
    ensures history.State().nextId == |history.State().items|
  {
    hide Entries, PendingAfter, Announced, Contents, Numbered, Increasing, Listed;
    history := new HistoryStore();
    NothingImported(inRange);
    var nextTimestamp: Option<Timestamp> := None;
    var lines := Lines(text);
    for i := 0 to |lines|
      invariant fresh(history) && Valid(history.State()) && history.nextId == |history.items|
      invariant Contents(history.State()) == Numbered(Entries(lines[..i], inRange, None))
      invariant nextTimestamp == PendingAfter(lines[..i], inRange, None)
    {
      var line := lines[i];
      EntriesSnoc(lines, i, inRange);
      if IsComment(line) {
        nextTimestamp := Announced(line, inRange);
        continue;
      }
      var item := Item(history.nextId, line, nextTimestamp, false);
      nextTimestamp := None;
      ghost var before := Entries(lines[..i], inRange, None);
      ghost var s := history.State();
      NumberedLength(before, s);
      NumberedSnoc(before, Entry(line, item.timestamp));
      AddAppends(history.State(), item);
      AddKeepsValid(history.State(), item);
      var _ := history.AddItem(item);
      assert history.State() == Apply(s, Add(item));
    }
    assert lines[..|lines|] == lines;
  }

  // ----- There and back -------------------------------------------------------------------------

  ghost predicate NoNewline(s: string) {
    forall i :: 0 <= i < |s| ==> s[i] != '\n'
  }

  lemma {:induction false} LineEndOf(line: string, rest: string)
    requires NoNewline(line)
    ensures LineEnd(line + "\n" + rest) == |line|
  {
    var t := line + "\n" + rest;
    if line != "" {
      LineEndOf(line[1..], rest);
      assert t[0] == line[0] && t[1..] == line[1..] + "\n" + rest;
    }
  }

  lemma FirstLine(line: string, rest: string)
    requires NoNewline(line)
    ensures Lines(line + "\n" + rest) == [StripReturn(line)] + Lines(rest)
  {
    LineEndOf(line, rest);
    var t := line + "\n" + rest;
    assert t[..|line|] == line && t[|line| + 1..] == rest;
  }

  lemma {:induction false} LineEndShape(text: string)
    ensures NoNewline(text[..LineEnd(text)])
    ensures LineEnd(text) < |text| ==> text[LineEnd(text)] == '\n'
  {
    if !(text == "" || text[0] == '\n') {
      LineEndShape(text[1..]);
    }
  }

  /** No line holds a newline. */
  lemma {:induction false} LinesHoldNoNewline(text: string)
    ensures forall i :: 0 <= i < |Lines(text)| ==> NoNewline(Lines(text)[i])
    decreases |text|
  {
    var n := LineEnd(text);
    if text != "" {
      LineEndShape(text);
      if n < |text| {
        LinesHoldNoNewline(text[n + 1..]);
        assert NoNewline(StripReturn(text[..n]));
      } else {
        assert text[..n] == text;
      }
    }
  }

  ghost predicate EndsInNewline(text: string) {
    text != "" ==> text[|text| - 1] == '\n'
  }

  lemma SplitFirstLine(text: string) returns (line: string, rest: string)
    requires text != "" && EndsInNewline(text)
    ensures text == line + "\n" + rest && NoNewline(line) && EndsInNewline(rest)
  {
    var n := LineEnd(text);
    LineEndShape(text);
    assert text[..n] == text ==> n < |text|;
    line, rest := text[..n], text[n + 1..];
    assert text == line + "\n" + rest;
  }

  /** A text that ends in a newline keeps its lines whatever follows. */
  lemma NoLines()
    ensures Lines("") == []
  {
  }

  lemma {:induction false} LinesConcat(a: string, b: string)
    requires EndsInNewline(a)
    ensures Lines(a + b) == Lines(a) + Lines(b)
    decreases |a|
  {
    hide Lines;
    if a == "" {
      NoLines();
      assert a + b == b;
    } else {
      var line, rest := SplitFirstLine(a);
      assert a + b == line + "\n" + (rest + b);
      FirstLine(line, rest);
      FirstLine(line, rest + b);
      LinesConcat(rest, b);
    }
  }

  lemma TrimNumber(n: int)
    requires -I64_MAX - 1 <= n <= I64_MAX
    ensures Trim(ShowInt(n)) == ShowInt(n)
  {
    ReadShownInt(n);
    var s := ShowInt(n);
    assert !IsWhitespace(s[0]) && !IsWhitespace(s[|s| - 1]);
  }

  function Truncated(t: Option<Timestamp>): Option<Timestamp> {
    if t.None? then None else Some(Timestamp(t.value.seconds, 0))
  }

  predicate KnownTime(item: Item, inRange: int -> bool) {
    item.timestamp.Some? ==>
      -I64_MAX - 1 <= item.timestamp.value.seconds <= I64_MAX && inRange(item.timestamp.value.seconds)
  }

  ghost predicate OneLine(item: Item) {
    NoNewline(item.commandLine) && !IsComment(item.commandLine)
  }

  /** What reading makes of a written item: a carriage return at its end is lost. */
  function ReadAs(item: Item): Entry {
    Entry(StripReturn(item.commandLine), Truncated(item.timestamp))
  }

  lemma AnnouncedTime(n: int, inRange: int -> bool)
    requires -I64_MAX - 1 <= n <= I64_MAX && inRange(n)
    ensures Announced("#" + ShowInt(n), inRange) == Some(Timestamp(n, 0))
  {
    TrimNumber(n);
    ReadShownInt(n);
    assert ("#" + ShowInt(n))[1..] == ShowInt(n);
  }

  lemma LinesOfItem(item: Item)
    requires OneLine(item)
    requires item.timestamp.Some? ==> -I64_MAX - 1 <= item.timestamp.value.seconds <= I64_MAX
    ensures Lines(Written(item, true))
            == (if item.timestamp.Some? then ["#" + ShowInt(item.timestamp.value.seconds)] else [])
               + [StripReturn(item.commandLine)]
  {
    FirstLine(item.commandLine, "");
    assert item.commandLine + "\n" + "" == item.commandLine + "\n";
    if item.timestamp.Some? {
      var stamp := "#" + ShowInt(item.timestamp.value.seconds);
      ReadShownInt(item.timestamp.value.seconds);
      FirstLine(stamp, item.commandLine + "\n");
      assert StripReturn(stamp) == stamp;
    } else {
      assert Written(item, true) == item.commandLine + "\n";
    }
  }

  lemma OneEntry(line: string, inRange: int -> bool, pending: Option<Timestamp>)
    requires !IsComment(line)
    ensures Entries([line], inRange, pending) == [Entry(line, pending)]
    ensures PendingAfter([line], inRange, pending) == None
  {
    assert [line][1..] == [];
  }

  lemma OneComment(line: string, inRange: int -> bool, pending: Option<Timestamp>)
    requires IsComment(line)
    ensures Entries([line], inRange, pending) == []
    ensures PendingAfter([line], inRange, pending) == Announced(line, inRange)
  {
    assert [line][1..] == [];
  }

  lemma ItemReads(item: Item, inRange: int -> bool)
    requires OneLine(item) && KnownTime(item, inRange)
    ensures Entries(Lines(Written(item, true)), inRange, None) == [ReadAs(item)]
    ensures PendingAfter(Lines(Written(item, true)), inRange, None) == None
  {
    LinesOfItem(item);
    var line := StripReturn(item.commandLine);
    assert !IsComment(line);
    if item.timestamp.Some? {
      var n := item.timestamp.value.seconds;
      AnnouncedTime(n, inRange);
      OneComment("#" + ShowInt(n), inRange, None);
      OneEntry(line, inRange, Some(Timestamp(n, 0)));
      EntriesConcat(["#" + ShowInt(n)], [line], inRange, None);
    } else {
      OneEntry(line, inRange, None);
      assert [] + [line] == [line];
    }
  }

  lemma WrittenEnds(items: seq<Item>)
    ensures EndsInNewline(WrittenAll(items, false, true))
  {
    if items != [] {
      var w := Written(items[|items| - 1], true);
      assert w[|w| - 1] == '\n';
    }
  }

  function ReadAsAll(items: seq<Item>): seq<Entry> {
    seq(|items|, i requires 0 <= i < |items| => ReadAs(items[i]))
  }

  lemma LastWritten(items: seq<Item>)
    requires items != []
    ensures var init, last := items[..|items| - 1], items[|items| - 1];
            Lines(WrittenAll(items, false, true)) == Lines(WrittenAll(init, false, true)) + Lines(Written(last, true))
  {
    var init, last := items[..|items| - 1], items[|items| - 1];
    WrittenEnds(init);
    LinesConcat(WrittenAll(init, false, true), Written(last, true));
  }

  lemma AppendReads(a: seq<string>, b: seq<string>, inRange: int -> bool)
    requires PendingAfter(a, inRange, None) == None && PendingAfter(b, inRange, None) == None
    ensures Entries(a + b, inRange, None) == Entries(a, inRange, None) + Entries(b, inRange, None)
    ensures PendingAfter(a + b, inRange, None) == None
  {
    EntriesConcat(a, b, inRange, None);
  }

  ghost predicate ReadsBack(items: seq<Item>, inRange: int -> bool) {
    var lines := Lines(WrittenAll(items, false, true));
    Entries(lines, inRange, None) == ReadAsAll(items) && PendingAfter(lines, inRange, None) == None
  }

  lemma ReadsBackSnoc(items: seq<Item>, inRange: int -> bool)
    requires items != [] && ReadsBack(items[..|items| - 1], inRange)
    requires OneLine(items[|items| - 1]) && KnownTime(items[|items| - 1], inRange)
    ensures ReadsBack(items, inRange)
  {
    hide Entries, PendingAfter, Lines, WrittenAll, Written, OneLine, KnownTime, ReadAs;
    var init, last := items[..|items| - 1], items[|items| - 1];
    LastWritten(items);
    ItemReads(last, inRange);
    AppendReads(Lines(WrittenAll(init, false, true)), Lines(Written(last, true)), inRange);
    assert ReadAsAll(items) == ReadAsAll(init) + [ReadAs(last)];
  }

  lemma {:induction false} WrittenReads(items: seq<Item>, inRange: int -> bool)
    requires forall i :: 0 <= i < |items| ==> OneLine(items[i]) && KnownTime(items[i], inRange)
    ensures ReadsBack(items, inRange)
  {
    if items != [] {
      WrittenReads(items[..|items| - 1], inRange);
      ReadsBackSnoc(items, inRange);
    }
  }

  lemma {:induction false} EntriesAreLines(lines: seq<string>, inRange: int -> bool, pending: Option<Timestamp>)
    requires forall i :: 0 <= i < |lines| ==> NoNewline(lines[i])
    ensures forall e :: e in Entries(lines, inRange, pending) ==> NoNewline(e.commandLine) && !IsComment(e.commandLine)
  {
    if lines != [] {
      EntriesAreLines(lines[1..], inRange, if IsComment(lines[0]) then Announced(lines[0], inRange) else None);
    }
  }

  ghost predicate SameLines(entries: seq<Entry>, items: seq<Item>) {
    |entries| == |items| && forall i :: 0 <= i < |items| ==> entries[i].commandLine == items[i].commandLine
  }

  /** A history that is written in full with timestamps and read back has the same sequence of
      command lines exactly when no line holds a newline, starts with a number sign or ends
      in a carriage return; and then each timestamp comes back cut to its seconds. */
  lemma FileRoundTrip(items: seq<Item>, inRange: int -> bool)
    requires forall i :: 0 <= i < |items| ==> KnownTime(items[i], inRange)
    ensures var back := Entries(Lines(WrittenAll(items, false, true)), inRange, None);
            && (SameLines(back, items) <==>
                  forall i :: 0 <= i < |items| ==>
                    OneLine(items[i]) && StripReturn(items[i].commandLine) == items[i].commandLine)
            && (SameLines(back, items) ==>
                  forall i :: 0 <= i < |items| ==> back[i].timestamp == Truncated(items[i].timestamp))
  {
    var lines := Lines(WrittenAll(items, false, true));
    var back := Entries(lines, inRange, None);
    if SameLines(back, items) {
      LinesHoldNoNewline(WrittenAll(items, false, true));
      EntriesAreLines(lines, inRange, None);
      forall i | 0 <= i < |items|
        ensures OneLine(items[i])
      {
        assert back[i] in back;
      }
    }
    if forall i :: 0 <= i < |items| ==> OneLine(items[i]) {
      WrittenReads(items, inRange);
      assert forall i :: 0 <= i < |items| ==> back[i] == ReadAs(items[i]);
    }
  }
}
