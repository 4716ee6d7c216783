/** How the `read` builtin splits a line and hands the fields to variables
    (brush-builtins/src/read.rs). */
module Read {
  import opened Wrappers

  function Chars(s: string): set<char> {
    set c | c in s
  }

  predicate IsIfsWhitespace(ifs: set<char>, c: char) {
    (c == ' ' || c == '\t' || c == '\n') && c in ifs
  }

  function DropWhitespace(ifs: set<char>, s: string): (r: string)
    ensures |r| <= |s|
  {
    if s != "" && IsIfsWhitespace(ifs, s[0]) then DropWhitespace(ifs, s[1..]) else s
  }

  function DropTrailingWhitespace(ifs: set<char>, s: string): (r: string)
    ensures |r| <= |s|
  {
    if s != "" && IsIfsWhitespace(ifs, s[|s| - 1]) then DropTrailingWhitespace(ifs, s[..|s| - 1]) else s
  }

  function Trim(ifs: set<char>, line: string): string {
    DropTrailingWhitespace(ifs, DropWhitespace(ifs, line))
  }

  lemma {:induction false} DropShape(ifs: set<char>, s: string)
    ensures var r := DropWhitespace(ifs, s);
            && r == s[|s| - |r|..]
            && (r != "" ==> !IsIfsWhitespace(ifs, r[0]))
            && forall i :: 0 <= i < |s| - |r| ==> IsIfsWhitespace(ifs, s[i])
  {
    if s != "" && IsIfsWhitespace(ifs, s[0]) {
      DropShape(ifs, s[1..]);
    }
  }

  lemma {:induction false} DropTrailingShape(ifs: set<char>, s: string)
    ensures var r := DropTrailingWhitespace(ifs, s);
            && r == s[..|r|]
            && (r != "" ==> !IsIfsWhitespace(ifs, r[|r| - 1]))
            && forall i :: |r| <= i < |s| ==> IsIfsWhitespace(ifs, s[i])
  {
    if s != "" && IsIfsWhitespace(ifs, s[|s| - 1]) {
      DropTrailingShape(ifs, s[..|s| - 1]);
    }
  }

  /** The trimmed line is the line without the IFS whitespace at its two ends, and no less. */
  lemma TrimShape(ifs: set<char>, line: string) returns (before: string, after: string)
    ensures line == before + Trim(ifs, line) + after
    ensures forall c :: c in before || c in after ==> IsIfsWhitespace(ifs, c)
    ensures var t := Trim(ifs, line);
            t != "" ==> !IsIfsWhitespace(ifs, t[0]) && !IsIfsWhitespace(ifs, t[|t| - 1])
  {
    hide DropWhitespace, DropTrailingWhitespace, IsIfsWhitespace;
    DropShape(ifs, line);
    var s := DropWhitespace(ifs, line);
    DropTrailingShape(ifs, s);
    var t := Trim(ifs, line);
    before, after := line[..|line| - |s|], s[|t|..];
    assert line == before + s;
    assert s == t + after;
    Reassociate("", before, t, after);
    if t != "" {
      assert t[0] == s[0];
    }
  }

  /** No more than one field may still be opened. */
  predicate AtLimit(left: Option<nat>) {
    left.Some? && left.value <= 1
  }

  function OneLess(left: Option<nat>): Option<nat> {
    if left.Some? && left.value > 0 then Some(left.value - 1) else left
  }

  /** The length of the longest prefix without IFS characters. */
  function FieldLength(ifs: set<char>, t: string): (n: nat)
    ensures n <= |t|
  {
    if t == "" || t[0] in ifs then 0 else 1 + FieldLength(ifs, t[1..])
  }

  lemma {:induction false} FieldLengthShape(ifs: set<char>, t: string)
    ensures NoIfs(ifs, t[..FieldLength(ifs, t)])
    ensures FieldLength(ifs, t) < |t| ==> t[FieldLength(ifs, t)] in ifs
  {
    if !(t == "" || t[0] in ifs) {
      FieldLengthShape(ifs, t[1..]);
    }
  }

  ghost predicate NoIfs(ifs: set<char>, s: string) {
    forall i :: 0 <= i < |s| ==> s[i] !in ifs
  }

  lemma {:induction false} FieldLengthOf(ifs: set<char>, field: string, rest: string)
    requires NoIfs(ifs, field) && (rest != "" ==> rest[0] in ifs)
    ensures FieldLength(ifs, field + rest) == |field|
  {
    if field == "" {
      assert field + rest == rest;
    } else {
      assert (field + rest)[0] == field[0] && (field + rest)[1..] == field[1..] + rest;
      FieldLengthOf(ifs, field[1..], rest);
    }
  }

  /** What remains behind the delimiter that `t` starts with: a run of IFS whitespace counts
      as one delimiter, another IFS character stands alone, and the last field always starts
      behind any IFS whitespace. */
  function BehindDelimiter(ifs: set<char>, left: Option<nat>, t: string): (r: string)
    requires t != ""
    ensures |r| < |t|
  {
    if IsIfsWhitespace(ifs, t[0]) || AtLimit(left) then DropWhitespace(ifs, t[1..]) else t[1..]
  }

  /** The fields of `t` when `left` more may be opened. A field that is empty because `t`
      ends in a delimiter that is not whitespace is dropped. */
  function Split(ifs: set<char>, left: Option<nat>, t: string, afterDelimiter: bool): seq<string>
    decreases |t|
  {
    var n := FieldLength(ifs, t);
    if t == "" && afterDelimiter then []
    else if AtLimit(left) || n == |t| then [t]
    else [t[..n]] + Split(ifs, OneLess(left), BehindDelimiter(ifs, OneLess(left), t[n..]),
                          !IsIfsWhitespace(ifs, t[n]))
  }

  /** A field is cut where its first delimiter stands. */
  lemma CutField(ifs: set<char>, left: Option<nat>, field: string, c: char, rest: string, afterDelimiter: bool)
    requires NoIfs(ifs, field) && c in ifs && !AtLimit(left)
    ensures Split(ifs, left, field + [c] + rest, afterDelimiter)
            == [field] + Split(ifs, OneLess(left), BehindDelimiter(ifs, OneLess(left), [c] + rest),
                               !IsIfsWhitespace(ifs, c))
  {
    var t := field + [c] + rest;
    assert t == field + ([c] + rest);
    FieldLengthOf(ifs, field, [c] + rest);
    assert t[..|field|] == field && t[|field|..] == [c] + rest;
  }

  function Left(maxFields: Option<nat>, fields: nat): Option<nat> {
    if maxFields.None? then None
    else if fields <= maxFields.value then Some(maxFields.value - fields)
    else Some(0)
  }

  /** The splitter's state between two characters. */
  datatype Scan = Scan(fields: seq<string>, current: string, consuming: bool, afterDelimiter: bool,
                       collecting: bool)

  ghost predicate ScanInvariant(ifs: set<char>, maxFields: Option<nat>, s: Scan) {
    && (s.collecting <==> AtLimit(Left(maxFields, |s.fields|)) && s.current != "")
    && (!s.collecting ==> NoIfs(ifs, s.current))
    && (s.consuming ==> s.current == "")
  }

  /** Whether IFS whitespace that comes next is skipped. */
  ghost predicate Skips(maxFields: Option<nat>, s: Scan) {
    s.consuming || (AtLimit(Left(maxFields, |s.fields|)) && !s.collecting)
  }

  /** The fields that the state and the unread input stand for together. */
  ghost function Result(ifs: set<char>, maxFields: Option<nat>, s: Scan, rest: string): seq<string> {
    s.fields + Split(ifs, Left(maxFields, |s.fields|),
                     s.current + (if Skips(maxFields, s) then DropWhitespace(ifs, rest) else rest),
                     s.afterDelimiter)
  }

  lemma SkipKeeps(ifs: set<char>, maxFields: Option<nat>, s: Scan, c: char, rest: string)
    requires ScanInvariant(ifs, maxFields, s) && Skips(maxFields, s) && IsIfsWhitespace(ifs, c)
    ensures ScanInvariant(ifs, maxFields, s.(consuming := true))
    ensures Result(ifs, maxFields, s, [c] + rest) == Result(ifs, maxFields, s.(consuming := true), rest)
  {
    assert ([c] + rest)[1..] == rest;
  }

  lemma NoSkip(ifs: set<char>, maxFields: Option<nat>, s: Scan, c: char, rest: string)
    requires Skips(maxFields, s) ==> !IsIfsWhitespace(ifs, c)
    ensures Result(ifs, maxFields, s, [c] + rest)
            == s.fields + Split(ifs, Left(maxFields, |s.fields|), s.current + [c] + rest, s.afterDelimiter)
  {
    assert s.current + ([c] + rest) == s.current + [c] + rest;
  }

  function Cut(ifs: set<char>, s: Scan, c: char): Scan {
    Scan(s.fields + [s.current], "", IsIfsWhitespace(ifs, c), !IsIfsWhitespace(ifs, c), s.collecting)
  }

  lemma BehindCut(ifs: set<char>, maxFields: Option<nat>, s: Scan, c: char, rest: string)
    requires !s.collecting
    ensures Result(ifs, maxFields, Cut(ifs, s, c), rest)
            == s.fields + [s.current]
               + Split(ifs, Left(maxFields, |s.fields| + 1),
                       BehindDelimiter(ifs, Left(maxFields, |s.fields| + 1), [c] + rest), !IsIfsWhitespace(ifs, c))
  {
    hide Split, DropWhitespace, Left;
    assert ([c] + rest)[1..] == rest;
    assert "" + rest == rest && "" + DropWhitespace(ifs, rest) == DropWhitespace(ifs, rest);
  }

  lemma CutKeeps(ifs: set<char>, maxFields: Option<nat>, s: Scan, c: char, rest: string)
    requires ScanInvariant(ifs, maxFields, s) && (s.consuming ==> !IsIfsWhitespace(ifs, c))
    requires c in ifs && !AtLimit(Left(maxFields, |s.fields|))
    ensures ScanInvariant(ifs, maxFields, Cut(ifs, s, c))
    ensures Result(ifs, maxFields, s, [c] + rest) == Result(ifs, maxFields, Cut(ifs, s, c), rest)
  {
    var left := Left(maxFields, |s.fields| + 1);
    assert OneLess(Left(maxFields, |s.fields|)) == left;
    var tail := Split(ifs, left, BehindDelimiter(ifs, left, [c] + rest), !IsIfsWhitespace(ifs, c));
    calc {
      Result(ifs, maxFields, s, [c] + rest);
      { NoSkip(ifs, maxFields, s, c, rest); }
      s.fields + Split(ifs, Left(maxFields, |s.fields|), s.current + [c] + rest, s.afterDelimiter);
      { CutField(ifs, Left(maxFields, |s.fields|), s.current, c, rest, s.afterDelimiter); }
      s.fields + ([s.current] + tail);
      s.fields + [s.current] + tail;
      { BehindCut(ifs, maxFields, s, c, rest); }
      Result(ifs, maxFields, Cut(ifs, s, c), rest);
    }
  }

  lemma PushKeeps(ifs: set<char>, maxFields: Option<nat>, s: Scan, c: char, rest: string, afterDelimiter: bool)
    requires ScanInvariant(ifs, maxFields, s)
    requires Skips(maxFields, s) ==> !IsIfsWhitespace(ifs, c)
    requires c !in ifs || AtLimit(Left(maxFields, |s.fields|))
    ensures var s' := s.(current := s.current + [c], consuming := false, afterDelimiter := afterDelimiter,
                         collecting := AtLimit(Left(maxFields, |s.fields|)));
            && ScanInvariant(ifs, maxFields, s')
            && Result(ifs, maxFields, s, [c] + rest) == Result(ifs, maxFields, s', rest)
  {
    NoSkip(ifs, maxFields, s, c, rest);
  }

  /** What one character does to the state. */
  function Next(ifs: set<char>, maxFields: Option<nat>, s: Scan, c: char): Scan {
    var atLimit := AtLimit(Left(maxFields, |s.fields|));
    if s.consuming && IsIfsWhitespace(ifs, c) then s
    else if !atLimit && c in ifs then Cut(ifs, s, c)
    else if atLimit && !s.collecting && IsIfsWhitespace(ifs, c) then s.(consuming := true)
    else s.(current := s.current + [c], consuming := false, collecting := atLimit,
            afterDelimiter := s.afterDelimiter && atLimit && !s.collecting && c in ifs)
  }

  function ScanOf(ifs: set<char>, maxFields: Option<nat>, t: string): Scan {
    if t == "" then Scan([], "", false, false, false)
    else Next(ifs, maxFields, ScanOf(ifs, maxFields, t[..|t| - 1]), t[|t| - 1])
  }

  lemma ScanSnoc(ifs: set<char>, maxFields: Option<nat>, t: string, i: nat)
    requires i < |t|
    ensures ScanOf(ifs, maxFields, t[..i + 1]) == Next(ifs, maxFields, ScanOf(ifs, maxFields, t[..i]), t[i])
  {
    assert t[..i + 1][..i] == t[..i];
  }

  lemma NextKeeps(ifs: set<char>, maxFields: Option<nat>, s: Scan, c: char, rest: string)
    requires ScanInvariant(ifs, maxFields, s)
    ensures ScanInvariant(ifs, maxFields, Next(ifs, maxFields, s, c))
    ensures Result(ifs, maxFields, s, [c] + rest) == Result(ifs, maxFields, Next(ifs, maxFields, s, c), rest)
  {
    var atLimit := AtLimit(Left(maxFields, |s.fields|));
    if Skips(maxFields, s) && IsIfsWhitespace(ifs, c) {
      SkipKeeps(ifs, maxFields, s, c, rest);
    } else if !atLimit && c in ifs {
      CutKeeps(ifs, maxFields, s, c, rest);
    } else {
      PushKeeps(ifs, maxFields, s, c, rest, s.afterDelimiter && atLimit && !s.collecting && c in ifs);
    }
  }

  lemma StartOfScan(ifs: set<char>, maxFields: Option<nat>, t: string)
    requires DropWhitespace(ifs, t) == t
    ensures Result(ifs, maxFields, ScanOf(ifs, maxFields, ""), t) == Split(ifs, maxFields, t, false)
  {
    hide Split;
    assert "" + t == t;
  }

  lemma {:induction false} ScanKeeps(ifs: set<char>, maxFields: Option<nat>, done: string, rest: string)
    requires DropWhitespace(ifs, done + rest) == done + rest
    ensures ScanInvariant(ifs, maxFields, ScanOf(ifs, maxFields, done))
    ensures Result(ifs, maxFields, ScanOf(ifs, maxFields, done), rest) == Split(ifs, maxFields, done + rest, false)
    decreases |done|
  {
    if done == "" {
      assert done + rest == rest;
      StartOfScan(ifs, maxFields, rest);
    } else {
      var init, c := done[..|done| - 1], done[|done| - 1];
      assert init + ([c] + rest) == done + rest;
      ScanKeeps(ifs, maxFields, init, [c] + rest);
      NextKeeps(ifs, maxFields, ScanOf(ifs, maxFields, init), c, rest);
    }
  }

  /** At the end of the input the open field is the last one, unless it is dropped. */
  function Finished(s: Scan): seq<string> {
    if s.current != "" || !s.afterDelimiter then s.fields + [s.current] else s.fields
  }

  lemma Finish(ifs: set<char>, maxFields: Option<nat>, s: Scan)
    requires ScanInvariant(ifs, maxFields, s)
    ensures Result(ifs, maxFields, s, "") == Finished(s)
  {
    assert s.current + "" == s.current;
    var left := Left(maxFields, |s.fields|);
    if !AtLimit(left) {
      FieldLengthOf(ifs, s.current, "");
    }
    assert Split(ifs, left, s.current, s.afterDelimiter)
        == if s.current == "" && s.afterDelimiter then [] else [s.current];
  }

  lemma ScanIsSplit(ifs: set<char>, maxFields: Option<nat>, t: string)
    requires DropWhitespace(ifs, t) == t
    ensures Finished(ScanOf(ifs, maxFields, t)) == Split(ifs, maxFields, t, false)
  {
    assert t + "" == t;
    ScanKeeps(ifs, maxFields, t, "");
    Finish(ifs, maxFields, ScanOf(ifs, maxFields, t));
  }

  lemma TrimStart(ifs: set<char>, line: string)
    ensures DropWhitespace(ifs, Trim(ifs, line)) == Trim(ifs, line)
  {
    var before, after := TrimShape(ifs, line);
  }

  /** The fields of a line: none if it holds only IFS whitespace. */
  function Fields(ifs: set<char>, line: string, maxFields: Option<nat>): seq<string> {
    var t := Trim(ifs, line);
    if t == "" then [] else Split(ifs, maxFields, t, false)
  }

  /** Whether field `k` is the last that a limit allows. */
  predicate IsLimited(left: Option<nat>, k: nat) { left.Some? && left.value <= k + 1 }

  /** One delimiter in front of `behind`: a whole run of IFS whitespace, or one other IFS character; with
      all IFS whitespace behind it if the limited last field comes next. */
  ghost predicate IsDelimiter(ifs: set<char>, s: string, behind: string, beforeLimited: bool) {
    && s != "" && s[0] in ifs
    && if IsIfsWhitespace(ifs, s[0]) || beforeLimited
       then (forall i :: 0 < i < |s| ==> IsIfsWhitespace(ifs, s[i])) && (behind != "" ==> !IsIfsWhitespace(ifs, behind[0]))
       else |s| == 1
  }

  lemma BehindShape(ifs: set<char>, left: Option<nat>, t: string)
    requires t != "" && t[0] in ifs
    ensures var r := BehindDelimiter(ifs, left, t);
            t == t[..|t| - |r|] + r && IsDelimiter(ifs, t[..|t| - |r|], r, AtLimit(left))
  {
    DropShape(ifs, t[1..]);
    var r := BehindDelimiter(ifs, left, t);
    hide DropWhitespace, IsIfsWhitespace;
    assert t[|t| - |r|..] == r && t[1..][|t| - 1 - |r|..] == r;
    forall i | 0 < i < |t| - |r| && (IsIfsWhitespace(ifs, t[0]) || AtLimit(left))
      ensures IsIfsWhitespace(ifs, t[i])
    {
      assert t[i] == t[1..][i - 1];
    }
  }

  predicate Splits(ifs: set<char>, left: Option<nat>, t: string) {
    !AtLimit(left) && FieldLength(ifs, t) < |t|
  }

  function Rest(ifs: set<char>, left: Option<nat>, t: string): (r: string)
    requires Splits(ifs, left, t)
    ensures |r| < |t|
  {
    BehindDelimiter(ifs, OneLess(left), t[FieldLength(ifs, t)..])
  }

  lemma SplitStep(ifs: set<char>, left: Option<nat>, t: string, afterDelimiter: bool)
    ensures Splits(ifs, left, t) ==>
              Split(ifs, left, t, afterDelimiter)
              == [t[..FieldLength(ifs, t)]]
                 + Split(ifs, OneLess(left), Rest(ifs, left, t), !IsIfsWhitespace(ifs, t[FieldLength(ifs, t)]))
    ensures !Splits(ifs, left, t) ==>
              Split(ifs, left, t, afterDelimiter) == if t == "" && afterDelimiter then [] else [t]
  {
  }

  lemma SplitParts(ifs: set<char>, left: Option<nat>, t: string) returns (separator: string)
    requires Splits(ifs, left, t)
    ensures t == t[..FieldLength(ifs, t)] + (separator + Rest(ifs, left, t))
    ensures IsDelimiter(ifs, separator, Rest(ifs, left, t), AtLimit(OneLess(left)))
    ensures separator[0] == t[FieldLength(ifs, t)]
  {
    var n := FieldLength(ifs, t);
    FieldLengthShape(ifs, t);
    var u := t[n..];
    BehindShape(ifs, OneLess(left), u);
    separator := u[..|u| - |BehindDelimiter(ifs, OneLess(left), u)|];
    assert t == t[..n] + u;
  }

  lemma SplitsBelowLimit(ifs: set<char>, left: Option<nat>, t: string)
    requires Splits(ifs, left, t)
    ensures !AtLimit(left) && FieldLength(ifs, t) < |t|
  {
  }

  /** A limit k gives at most max(1, k) fields. */
  lemma {:induction false} FieldCount(ifs: set<char>, left: nat, t: string, afterDelimiter: bool)
    ensures |Split(ifs, Some(left), t, afterDelimiter)| <= if left == 0 then 1 else left
    decreases |t|
  {
    hide Split, Splits, Rest, FieldLength;
    SplitStep(ifs, Some(left), t, afterDelimiter);
    if Splits(ifs, Some(left), t) {
      SplitsBelowLimit(ifs, Some(left), t);
      FieldCount(ifs, left - 1, Rest(ifs, Some(left), t), !IsIfsWhitespace(ifs, t[FieldLength(ifs, t)]));
    }
  }

  /** The fields before the k-th hold no IFS character. */
  lemma {:induction false} EarlyFields(ifs: set<char>, left: Option<nat>, t: string, afterDelimiter: bool, i: nat)
    requires i < |Split(ifs, left, t, afterDelimiter)| && (left.None? || i + 1 < left.value)
    ensures NoIfs(ifs, Split(ifs, left, t, afterDelimiter)[i])
    decreases |t|
  {
    SplitStep(ifs, left, t, afterDelimiter);
    FieldLengthShape(ifs, t);
    assert t[..|t|] == t;
    if Splits(ifs, left, t) && i > 0 {
      EarlyFields(ifs, OneLess(left), Rest(ifs, left, t), !IsIfsWhitespace(ifs, t[FieldLength(ifs, t)]), i - 1);
    }
  }

  lemma Reassociate(a: string, b: string, c: string, d: string)
    ensures a + (b + (c + d)) == a + (b + c) + d
  {
  }

  lemma LastStep(ifs: set<char>, left: nat, t: string, afterDelimiter: bool, fields: seq<string>, inner: string)
    returns (before: string)
    requires Splits(ifs, Some(left), t) && fields != []
    requires fields == Split(ifs, OneLess(Some(left)), Rest(ifs, Some(left), t),
                             !IsIfsWhitespace(ifs, t[FieldLength(ifs, t)]))
    requires Rest(ifs, Some(left), t) == inner + Last(fields)
    ensures Last(Split(ifs, Some(left), t, afterDelimiter)) == Last(fields)
    ensures t == before + Last(fields)
  {
    var separator := SplitParts(ifs, Some(left), t);
    before := t[..FieldLength(ifs, t)] + (separator + inner);
    LastOfCons(t[..FieldLength(ifs, t)], fields);
    Reassociate(t[..FieldLength(ifs, t)], separator, inner, Last(fields));
  }

  /** The k-th field is the rest of the line. */
  lemma {:induction false} LastField(ifs: set<char>, left: nat, t: string, afterDelimiter: bool)
    returns (before: string)
    requires |Split(ifs, Some(left), t, afterDelimiter)| >= left
    requires |Split(ifs, Some(left), t, afterDelimiter)| > 0
    ensures t == before + Last(Split(ifs, Some(left), t, afterDelimiter))
    decreases |t|
  {
    SplitStep(ifs, Some(left), t, afterDelimiter);
    hide Split, FieldLength, IsIfsWhitespace;
    if Splits(ifs, Some(left), t) {
      var behindOther := !IsIfsWhitespace(ifs, t[FieldLength(ifs, t)]);
      var rest := Rest(ifs, Some(left), t);
      var inner := LastField(ifs, left - 1, rest, behindOther);
      before := LastStep(ifs, left, t, afterDelimiter, Split(ifs, Some(left - 1), rest, behindOther), inner);
    } else {
      before := "";
    }
  }

  function Last(fields: seq<string>): string
    requires fields != []
  {
    fields[|fields| - 1]
  }

  lemma LastOfCons(field: string, fields: seq<string>)
    requires fields != []
    ensures Last([field] + fields) == Last(fields)
  {
  }

  /** Fields and separators in turn. */
  function Weave(fields: seq<string>, separators: seq<string>): string {
    if fields == [] then ""
    else fields[0] + (if separators == [] then "" else separators[0] + Weave(fields[1..], separators[1..]))
  }

  /** Whether the last piece of a text stands behind a delimiter that is not whitespace. */
  predicate EndsBehindOther(ifs: set<char>, separators: seq<string>, afterDelimiter: bool) {
    if separators == [] then afterDelimiter
    else
      var last := separators[|separators| - 1];
      last != "" && !IsIfsWhitespace(ifs, last[0])
  }

  /** Behind field `k`, which is not a limited last one, stands a delimiter. */
  ghost predicate DelimitsAt(ifs: set<char>, left: Option<nat>, fields: seq<string>, separators: seq<string>, k: nat)
    requires k < |separators| <= |fields|
  {
    && !IsLimited(left, k)
    && IsDelimiter(ifs, separators[k], Weave(fields[k + 1..], separators[k + 1..]), IsLimited(left, k + 1))
  }

  ghost predicate IsFieldAt(ifs: set<char>, left: Option<nat>, fields: seq<string>, k: nat)
    requires k < |fields|
  {
    IsLimited(left, k) || NoIfs(ifs, fields[k])
  }

  /** These are the fields of `t`, with these delimiters between them: put together again they are the
      text, only a limited last field holds IFS characters, and a field is missing at the end exactly
      where an empty one would stand behind a delimiter that is not whitespace. */
  ghost predicate IsSplit(ifs: set<char>, left: Option<nat>, t: string, afterDelimiter: bool, fields: seq<string>,
                          separators: seq<string>)
  {
    && Weave(fields, separators) == t
    && (|separators| == |fields| || |separators| + 1 == |fields|)
    && (forall k: nat | k < |fields| :: IsFieldAt(ifs, left, fields, k))
    && (forall k: nat | k < |separators| :: DelimitsAt(ifs, left, fields, separators, k))
    && (|separators| == |fields| ==> EndsBehindOther(ifs, separators, afterDelimiter))
    && (|separators| < |fields| && EndsBehindOther(ifs, separators, afterDelimiter) ==> Last(fields) != "")
  }

  lemma {:induction false} DropRun(ifs: set<char>, white: string, rest: string)
    requires (forall i :: 0 <= i < |white| ==> IsIfsWhitespace(ifs, white[i])) && (rest != "" ==> !IsIfsWhitespace(ifs, rest[0]))
    ensures DropWhitespace(ifs, white + rest) == rest
  {
    if white == "" {
      assert white + rest == rest;
    } else {
      assert (white + rest)[0] == white[0] && (white + rest)[1..] == white[1..] + rest;
      DropRun(ifs, white[1..], rest);
    }
  }

  /** The delimiter decides what is behind it. */
  lemma DelimiterBehind(ifs: set<char>, left: Option<nat>, s: string, behind: string)
    requires IsDelimiter(ifs, s, behind, AtLimit(left))
    ensures BehindDelimiter(ifs, left, s + behind) == behind
  {
    assert (s + behind)[0] == s[0] && (s + behind)[1..] == s[1..] + behind;
    if IsIfsWhitespace(ifs, s[0]) || AtLimit(left) {
      DropRun(ifs, s[1..], behind);
    }
  }

  lemma SplitCut(ifs: set<char>, left: Option<nat>, field: string, s: string, behind: string, afterDelimiter: bool)
    requires NoIfs(ifs, field) && !AtLimit(left) && IsDelimiter(ifs, s, behind, AtLimit(OneLess(left)))
    ensures Split(ifs, left, field + (s + behind), afterDelimiter)
            == [field] + Split(ifs, OneLess(left), behind, !IsIfsWhitespace(ifs, s[0]))
  {
    hide DropWhitespace, BehindDelimiter;
    var t := field + (s + behind);
    FieldLengthOf(ifs, field, s + behind);
    DelimiterBehind(ifs, OneLess(left), s, behind);
    assert t[|field|..] == s + behind && t[..|field|] == field && t[|field|] == s[0];
  }

  lemma OneLessLimited(left: Option<nat>, k: nat)
    ensures IsLimited(left, k + 1) <==> IsLimited(OneLess(left), k)
    ensures IsLimited(left, 0) <==> AtLimit(left)
  {
  }

  lemma DelimitsNext(ifs: set<char>, left: Option<nat>, fields: seq<string>, separators: seq<string>, k: nat)
    requires k + 1 < |separators| <= |fields|
    ensures DelimitsAt(ifs, left, fields, separators, k + 1)
            <==> DelimitsAt(ifs, OneLess(left), fields[1..], separators[1..], k)
  {
    hide IsDelimiter, Weave;
    OneLessLimited(left, k);
    OneLessLimited(left, k + 1);
    assert fields[1..][k + 1..] == fields[k + 2..] && separators[1..][k + 1..] == separators[k + 2..];
  }

  lemma FieldNext(ifs: set<char>, left: Option<nat>, fields: seq<string>, k: nat)
    requires k + 1 < |fields|
    ensures IsFieldAt(ifs, left, fields, k + 1) <==> IsFieldAt(ifs, OneLess(left), fields[1..], k)
  {
    OneLessLimited(left, k);
  }

  lemma SplitTail(ifs: set<char>, left: Option<nat>, t: string, afterDelimiter: bool, fields: seq<string>, separators: seq<string>)
    requires IsSplit(ifs, left, t, afterDelimiter, fields, separators) && separators != []
    ensures var behind := Weave(fields[1..], separators[1..]);
            && fields != [] && separators[0] != ""
            && t == fields[0] + (separators[0] + behind) && NoIfs(ifs, fields[0]) && !AtLimit(left)
            && IsDelimiter(ifs, separators[0], behind, AtLimit(OneLess(left)))
            && IsSplit(ifs, OneLess(left), behind, !IsIfsWhitespace(ifs, separators[0][0]), fields[1..], separators[1..])
  {
    hide IsIfsWhitespace, NoIfs, AtLimit, IsLimited, OneLess;
    OneLessLimited(left, 0);
    OneLessLimited(OneLess(left), 0);
    assert DelimitsAt(ifs, left, fields, separators, 0) && IsFieldAt(ifs, left, fields, 0);
    assert fields[0 + 1..] == fields[1..] && separators[0 + 1..] == separators[1..] && separators[0] != "";
    hide DelimitsAt, IsFieldAt, IsDelimiter;
    var rest, others := fields[1..], separators[1..];
    forall k: nat | k < |others|
      ensures DelimitsAt(ifs, OneLess(left), rest, others, k)
    {
      DelimitsNext(ifs, left, fields, separators, k);
    }
    forall k: nat | k < |rest|
      ensures IsFieldAt(ifs, OneLess(left), rest, k)
    {
      FieldNext(ifs, left, fields, k);
    }
  }

  lemma WholeIsOnly(ifs: set<char>, left: Option<nat>, t: string, afterDelimiter: bool, fields: seq<string>)
    requires IsSplit(ifs, left, t, afterDelimiter, fields, [])
    ensures fields == Split(ifs, left, t, afterDelimiter)
  {
    if fields != [] {
      assert fields[0] + "" == fields[0] && fields == [t];
      assert IsFieldAt(ifs, left, fields, 0);
      if !AtLimit(left) {
        FieldLengthOf(ifs, t, "");
        assert t + "" == t;
      }
    }
  }

  /** Only one list of fields meets this. */
  lemma {:induction false} SplitIsOnly(ifs: set<char>, left: Option<nat>, t: string, afterDelimiter: bool, fields: seq<string>,
                                       separators: seq<string>)
    requires IsSplit(ifs, left, t, afterDelimiter, fields, separators)
    ensures fields == Split(ifs, left, t, afterDelimiter)
    decreases |fields|
  {
    hide Split, IsSplit, IsDelimiter;
    if separators == [] {
      WholeIsOnly(ifs, left, t, afterDelimiter, fields);
    } else {
      SplitTail(ifs, left, t, afterDelimiter, fields, separators);
      var behind := Weave(fields[1..], separators[1..]);
      SplitIsOnly(ifs, OneLess(left), behind, !IsIfsWhitespace(ifs, separators[0][0]), fields[1..], separators[1..]);
      SplitCut(ifs, left, fields[0], separators[0], behind, afterDelimiter);
      assert fields == [fields[0]] + fields[1..];
    }
  }

  /** And the fields do. */
  lemma {:induction false} SplitRebuilds(ifs: set<char>, left: Option<nat>, t: string, afterDelimiter: bool)
    returns (separators: seq<string>)
    ensures IsSplit(ifs, left, t, afterDelimiter, Split(ifs, left, t, afterDelimiter), separators)
    decreases |t|
  {
    SplitStep(ifs, left, t, afterDelimiter);
    if Splits(ifs, left, t) {
      var n := FieldLength(ifs, t);
      var field, rest, behindOther := t[..n], Rest(ifs, left, t), !IsIfsWhitespace(ifs, t[n]);
      var s := SplitParts(ifs, left, t);
      var others := SplitRebuilds(ifs, OneLess(left), rest, behindOther);
      separators := [s] + others;
      FieldLengthShape(ifs, t);
      SplitOneMore(ifs, left, t, afterDelimiter, field, s, rest, Split(ifs, OneLess(left), rest, behindOther), others);
    } else {
      separators := [];
      FieldLengthShape(ifs, t);
      assert t[..|t|] == t && t + "" == t;
    }
  }

  lemma SplitOneMore(ifs: set<char>, left: Option<nat>, t: string, afterDelimiter: bool, field: string, s: string, rest: string,
                     fields: seq<string>, others: seq<string>)
    requires t == field + (s + rest) && NoIfs(ifs, field) && !AtLimit(left) && IsDelimiter(ifs, s, rest, AtLimit(OneLess(left)))
    requires IsSplit(ifs, OneLess(left), rest, !IsIfsWhitespace(ifs, s[0]), fields, others)
    ensures IsSplit(ifs, left, t, afterDelimiter, [field] + fields, [s] + others)
  {
    hide IsIfsWhitespace, NoIfs, AtLimit, IsLimited, OneLess;
    WeaveStep(field, fields, s, others);
    var all, separators := [field] + fields, [s] + others;
    assert all[1..] == fields && separators[1..] == others;
    OneLessLimited(left, 0);
    OneLessLimited(OneLess(left), 0);
    assert all[0 + 1..] == fields && separators[0 + 1..] == others;
    assert DelimitsAt(ifs, left, all, separators, 0) && IsFieldAt(ifs, left, all, 0);
    hide DelimitsAt, IsFieldAt, IsDelimiter, Weave;
    forall k: nat | k < |separators|
      ensures DelimitsAt(ifs, left, all, separators, k)
    {
      if k > 0 {
        DelimitsNext(ifs, left, all, separators, k - 1);
      }
    }
    forall k: nat | k < |all|
      ensures IsFieldAt(ifs, left, all, k)
    {
      if k > 0 {
        FieldNext(ifs, left, all, k - 1);
      }
    }
  }

  lemma WeaveStep(field: string, fields: seq<string>, separator: string, separators: seq<string>)
    ensures Weave([field] + fields, [separator] + separators) == field + (separator + Weave(fields, separators))
  {
    assert ([field] + fields)[1..] == fields && ([separator] + separators)[1..] == separators;
  }

  /** The fields of a whole line; there is none if it holds only IFS whitespace. */
  ghost predicate AreFields(ifs: set<char>, line: string, maxFields: Option<nat>, fields: seq<string>) {
    var t := Trim(ifs, line);
    if t == "" then fields == [] else exists separators :: IsSplit(ifs, maxFields, t, false, fields, separators)
  }

  lemma FieldsAre(ifs: set<char>, line: string, maxFields: Option<nat>)
    ensures AreFields(ifs, line, maxFields, Fields(ifs, line, maxFields))
  {
    if Trim(ifs, line) != "" {
      var separators := SplitRebuilds(ifs, maxFields, Trim(ifs, line), false);
    }
  }

  lemma FieldsAreUnique(ifs: set<char>, line: string, maxFields: Option<nat>, a: seq<string>, b: seq<string>)
    requires AreFields(ifs, line, maxFields, a) && AreFields(ifs, line, maxFields, b)
    ensures a == b
  {
    hide IsSplit, Trim;
    var t := Trim(ifs, line);
    if t != "" {
      var separators :| IsSplit(ifs, maxFields, t, false, a, separators);
      var others :| IsSplit(ifs, maxFields, t, false, b, others);
      SplitIsOnly(ifs, maxFields, t, false, a, separators);
      SplitIsOnly(ifs, maxFields, t, false, b, others);
    }
  }

  method SplitLineByIfs(ifsString: string, line: string, maxFields: Option<nat>) returns (fields: seq<string>)
    ensures fields == Fields(Chars(ifsString), line, maxFields)
    ensures AreFields(Chars(ifsString), line, maxFields, fields)
  {
    var ifs := Chars(ifsString);
    var t := Trim(ifs, line);
    if t == "" {
      return [];
    }
    fields := [];
    var currentField := "";
    var consumingWhitespaceRun, prevWasNonWsDelim, collectingRemainder := false, false, false;

    for i := 0 to |t|
      invariant ScanOf(ifs, maxFields, t[..i])
                == Scan(fields, currentField, consumingWhitespaceRun, prevWasNonWsDelim, collectingRemainder)
    {
      var c := t[i];
      ScanSnoc(ifs, maxFields, t, i);
      if consumingWhitespaceRun && IsIfsWhitespace(ifs, c) {
        continue;
      }
      consumingWhitespaceRun := false;
      var isDelimiter := c in ifs;
      var atFieldLimit := maxFields.Some? && |fields| + 1 >= maxFields.value;

      if !atFieldLimit && isDelimiter {
        fields := fields + [currentField];
        currentField := "";
        consumingWhitespaceRun := IsIfsWhitespace(ifs, c);
        prevWasNonWsDelim := !consumingWhitespaceRun;
      } else if atFieldLimit && !collectingRemainder && isDelimiter {
        if IsIfsWhitespace(ifs, c) {
          consumingWhitespaceRun := true;
        } else {
          collectingRemainder := true;
          currentField := currentField + [c];
        }
      } else {
        collectingRemainder := atFieldLimit;
        currentField := currentField + [c];
        prevWasNonWsDelim := false;
      }
    }

    if currentField != "" || !prevWasNonWsDelim {
      fields := fields + [currentField];
    }
    assert t[..|t|] == t;
    TrimStart(ifs, line);
    ScanIsSplit(ifs, maxFields, t);
    FieldsAre(ifs, line, maxFields);
  }

  /** The characters of `s` that are not in IFS. */
  function Keep(ifs: set<char>, s: string): string {
    if s == "" then ""
    else (if s[0] in ifs then "" else [s[0]]) + Keep(ifs, s[1..])
  }

  function Concat(fields: seq<string>): string {
    if fields == [] then "" else fields[0] + Concat(fields[1..])
  }

  lemma {:induction false} KeepConcat(ifs: set<char>, a: string, b: string)
    ensures Keep(ifs, a + b) == Keep(ifs, a) + Keep(ifs, b)
  {
    if a == "" {
      assert a + b == b;
    } else {
      assert (a + b)[0] == a[0] && (a + b)[1..] == a[1..] + b;
      KeepConcat(ifs, a[1..], b);
    }
  }

  predicate AllIfs(ifs: set<char>, s: string) { forall c :: c in s ==> c in ifs }

  lemma {:induction false} KeepNothing(ifs: set<char>, s: string)
    requires AllIfs(ifs, s)
    ensures Keep(ifs, s) == ""
  {
    if s != "" {
      KeepNothing(ifs, s[1..]);
    }
  }

  lemma {:induction false} KeepWeave(ifs: set<char>, fields: seq<string>, separators: seq<string>)
    requires |separators| == |fields| || |separators| + 1 == |fields|
    requires forall s :: s in separators ==> AllIfs(ifs, s)
    ensures Keep(ifs, Weave(fields, separators)) == Keep(ifs, Concat(fields))
  {
    if fields != [] && separators != [] {
      KeepWeave(ifs, fields[1..], separators[1..]);
      var rest := Weave(fields[1..], separators[1..]);
      KeepConcat(ifs, fields[0], separators[0] + rest);
      KeepConcat(ifs, separators[0], rest);
      KeepNothing(ifs, separators[0]);
      KeepConcat(ifs, fields[0], Concat(fields[1..]));
    } else if fields != [] {
      assert fields[0] + Concat(fields[1..]) == fields[0] + "";
    }
  }

  /** The characters of the fields that are not in IFS are, in order, those of the line. */
  lemma FieldsKeepContent(ifs: set<char>, line: string, maxFields: Option<nat>)
    ensures Keep(ifs, Concat(Fields(ifs, line, maxFields))) == Keep(ifs, line)
  {
    hide Split, Trim;
    var before, after := TrimShape(ifs, line);
    var t := Trim(ifs, line);
    KeepConcat(ifs, before + t, after);
    KeepConcat(ifs, before, t);
    KeepNothing(ifs, before);
    KeepNothing(ifs, after);
    if t != "" {
      var separators := SplitRebuilds(ifs, maxFields, t, false);
      forall s | s in separators
        ensures AllIfs(ifs, s)
      {
        var k :| 0 <= k < |separators| && separators[k] == s;
        var fields := Split(ifs, maxFields, t, false);
        assert DelimitsAt(ifs, maxFields, fields, separators, k);
      }
      KeepWeave(ifs, Split(ifs, maxFields, t, false), separators);
    }
  }

  function Join(fields: seq<string>, separator: string): string {
    if fields == [] then ""
    else if |fields| == 1 then fields[0]
    else fields[0] + separator + Join(fields[1..], separator)
  }

  /** The fields that a read has: none at the end of input, the line itself with `-N`, or its fields. */
  ghost predicate AreReadFields(line: Option<string>, ifs: set<char>, skipSplitting: bool, names: nat, fields: seq<string>) {
    match line
    case None => fields == []
    case Some(text) => if skipSplitting then fields == [text] else AreFields(ifs, text, Some(names), fields)
  }

  /** The fields meant for named variables; with `-N` the line is not split. */
  function VariableFields(line: Option<string>, ifs: set<char>, skipSplitting: bool, names: nat): seq<string> {
    if line.None? then []
    else if skipSplitting then [line.value]
    else Fields(ifs, line.value, Some(names))
  }

  lemma VariableFieldCount(line: Option<string>, ifs: set<char>, skipSplitting: bool, names: nat)
    requires names > 0
    ensures |VariableFields(line, ifs, skipSplitting, names)| <= names
  {
    hide Split, FieldLength, Trim;
    if line.Some? {
      FieldCount(ifs, names, Trim(ifs, line.value), false);
    }
  }

  lemma JoinOne(fields: seq<string>, separator: string)
    requires |fields| == 1
    ensures Join(fields, separator) == fields[0]
  {
  }

  /** The values given to the named variables, in order. The last variable is meant to get the
      remaining fields joined by a space, but never more than one field remains. */
  method AssignToNamedVariables(line: Option<string>, ifs: set<char>, skipSplitting: bool, names: nat)
    returns (values: seq<string>)
    ensures |values| == names
    ensures var all := VariableFields(line, ifs, skipSplitting, names);
            && AreReadFields(line, ifs, skipSplitting, names, all)
            && (names > 0 ==> |all| <= names)
            && forall i :: 0 <= i < names ==> values[i] == if i < |all| then all[i] else ""
  {
    hide Join, AreFields;
    if line.Some? {
      FieldsAre(ifs, line.value, Some(names));
    }
    hide VariableFields;
    values := [];
    var fields := VariableFields(line, ifs, skipSplitting, names);
    ghost var all := fields;
    if names > 0 {
      VariableFieldCount(line, ifs, skipSplitting, names);
    }
    assert all[0..] == all;
    for i := 0 to names
      invariant |values| == i
      invariant names > 0 ==> fields == if i < |all| && i < names then all[i..] else []
      invariant forall j :: 0 <= j < i ==> values[j] == if j < |all| then all[j] else ""
    {
      var value := "";
      if fields != [] {
        if i == names - 1 {
          JoinOne(fields, " ");
          value := Join(fields, " ");
          fields := [];
        } else {
          value := fields[0];
          fields := fields[1..];
        }
      }
      values := values + [value];
    }
  }
}
