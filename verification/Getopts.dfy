/** The `getopts` builtin (brush-builtins/src/getopts.rs). */
module Getopts {
  import opened Wrappers

  const I32_MAX: int := 0x7FFF_FFFF

  /** Which option characters exist, and whether each takes an argument. */
  datatype OptionSpec = OptionSpec(defs: map<char, bool>, silentErrors: bool)

  predicate FirstAt(spec: string, i: nat)
    requires i < |spec|
  {
    spec[i] != ':' && forall k :: 0 <= k < i ==> spec[k] != spec[i]
  }

  predicate ColonAt(spec: string, i: nat) {
    i < |spec| && spec[i] == ':'
  }

  /** A character is an option if it stands in the spec; a colon right behind its first place
      says that it takes an argument; later places change nothing. A leading colon asks for
      silent errors. */
  ghost predicate Describes(spec: string, r: OptionSpec) {
    && (forall c :: c in r.defs <==> c in spec && c != ':')
    && (forall i :: 0 <= i < |spec| && FirstAt(spec, i) ==> r.defs[spec[i]] == ColonAt(spec, i + 1))
    && r.silentErrors == ColonAt(spec, 0)
  }

  /** `last` is the first place of the option that a colon would now give an argument to. */
  ghost predicate Reading(spec: string, r: OptionSpec, last: Option<nat>) {
    && Describes(spec, r)
    && (last.Some? ==>
          && last.value < |spec| && FirstAt(spec, last.value)
          && forall k :: last.value < k < |spec| ==> spec[k] == ':')
    && (spec != "" && FirstAt(spec, |spec| - 1) ==> last == Some(|spec| - 1))
    && (last.None? && r.defs == map[] ==> forall k :: 0 <= k < |spec| ==> spec[k] == ':')
  }

  lemma FirstAtSnoc(spec: string, c: char)
    ensures forall i :: 0 <= i < |spec| ==> (FirstAt(spec + [c], i) <==> FirstAt(spec, i))
    ensures forall i :: 0 <= i < |spec| ==> (ColonAt(spec + [c], i) <==> ColonAt(spec, i))
    ensures FirstAt(spec + [c], |spec|) <==> c != ':' && forall k :: 0 <= k < |spec| ==> spec[k] != c
    ensures ColonAt(spec + [c], |spec|) <==> c == ':'
    ensures !ColonAt(spec, |spec|) && !ColonAt(spec + [c], |spec| + 1)
  {
    var s := spec + [c];
    assert forall k :: 0 <= k < |spec| ==> s[k] == spec[k];
  }

  lemma OptionRead(spec: string, r: OptionSpec, last: Option<nat>, c: char)
    requires Reading(spec, r, last) && c != ':' && c !in r.defs
    ensures Reading(spec + [c], r.(defs := r.defs[c := false]), Some(|spec|))
  {
    FirstAtSnoc(spec, c);
    var s := spec + [c];
    assert forall i :: 0 <= i < |spec| ==> s[i] == spec[i] && spec[i] in spec;
    assert ColonAt(s, 0) == ColonAt(spec, 0);
  }

  lemma DuplicateRead(spec: string, r: OptionSpec, last: Option<nat>, c: char)
    requires Reading(spec, r, last) && c != ':' && c in r.defs
    ensures Reading(spec + [c], r, None)
  {
    FirstAtSnoc(spec, c);
    var s := spec + [c];
    assert forall i :: 0 <= i < |spec| ==> s[i] == spec[i];
    assert ColonAt(s, 0) == ColonAt(spec, 0);
  }

  lemma ColonDescribes(spec: string, r: OptionSpec, last: nat)
    requires Reading(spec, r, Some(last))
    ensures Describes(spec + [':'], r.(defs := r.defs[spec[last] := true]))
  {
    var s, r' := spec + [':'], r.(defs := r.defs[spec[last] := true]);
    FirstAtSnoc(spec, ':');
    hide FirstAt;
    assert forall c :: c in s <==> c in spec || c == ':';
    forall i | 0 <= i < |s| && FirstAt(s, i)
      ensures r'.defs[s[i]] == ColonAt(s, i + 1)
    {
      assert i < |spec| && s[i] == spec[i] && FirstAt(spec, i);
      FirstIsNotBehind(spec, r, last, i);
      if i == last {
        assert s[last + 1] == ':';
      } else {
        FirstPlaceIsOne(spec, i, last);
        assert ColonAt(s, i + 1) == ColonAt(spec, i + 1);
      }
    }
    assert ColonAt(s, 0) == ColonAt(spec, 0);
  }

  lemma FirstIsNotBehind(spec: string, r: OptionSpec, last: nat, i: nat)
    requires Reading(spec, r, Some(last)) && i < |spec| && FirstAt(spec, i)
    ensures i <= last
  {
  }

  lemma FirstPlaceIsOne(spec: string, i: nat, j: nat)
    requires i < |spec| && j < |spec| && i != j && FirstAt(spec, i) && FirstAt(spec, j)
    ensures spec[i] != spec[j]
  {
  }

  lemma ColonAfterOption(spec: string, r: OptionSpec, last: nat)
    requires Reading(spec, r, Some(last))
    ensures Reading(spec + [':'], r.(defs := r.defs[spec[last] := true]), Some(last))
  {
    ColonDescribes(spec, r, last);
    FirstAtSnoc(spec, ':');
    hide Describes;
    assert forall i :: 0 <= i < |spec| ==> (spec + [':'])[i] == spec[i];
  }

  lemma ColonRead(spec: string, r: OptionSpec, last: Option<nat>)
    requires Reading(spec, r, last)
    ensures var r' := if last.Some? then r.(defs := r.defs[spec[last.value] := true])
                      else if r.defs == map[] then r.(silentErrors := true) else r;
            Reading(spec + [':'], r', last)
  {
    if last.Some? {
      ColonAfterOption(spec, r, last.value);
    } else {
      FirstAtSnoc(spec, ':');
      var s := spec + [':'];
      assert forall i :: 0 <= i < |spec| ==> s[i] == spec[i];
    }
  }

  lemma NothingRead()
    ensures Reading("", OptionSpec(map[], false), None)
  {
  }

  lemma LastIsInside(spec: string, r: OptionSpec, last: Option<nat>)
    requires Reading(spec, r, last)
    ensures last.Some? ==> last.value < |spec|
  {
  }

  lemma ReadDescribes(spec: string, r: OptionSpec, last: Option<nat>)
    requires Reading(spec, r, last)
    ensures Describes(spec, r)
  {
  }

  method ParseOptionSpec(spec: string) returns (r: OptionSpec)
    ensures Describes(spec, r)
  {
    hide Reading, Describes, FirstAt;
    NothingRead();
    var defs: map<char, bool> := map[];
    var silentErrors := false;
    var lastChar: Option<char> := None;
    ghost var last: Option<nat> := None;

    for i := 0 to |spec|
      invariant Reading(spec[..i], OptionSpec(defs, silentErrors), last)
      invariant last.Some? ==> last.value < i
      invariant lastChar == if last.Some? then Some(spec[last.value]) else None
    {
      var c := spec[i];
      ghost var r := OptionSpec(defs, silentErrors);
      LastIsInside(spec[..i], r, last);
      assert spec[..i + 1] == spec[..i] + [c];
      if c == ':' {
        ColonRead(spec[..i], r, last);
        if lastChar.Some? {
          defs := defs[lastChar.value := true];
        } else if defs == map[] {
          silentErrors := true;
        }
        continue;
      }
      if c !in defs {
        OptionRead(spec[..i], r, last, c);
        defs := defs[c := false];
        lastChar, last := Some(c), Some(i);
      } else {
        DuplicateRead(spec[..i], r, last, c);
        lastChar, last := None, None;
      }
    }
    assert spec[..|spec|] == spec;
    r := OptionSpec(defs, silentErrors);
    ReadDescribes(spec, r, last);
  }

  // ----- One call -----------------------------------------------------------------------------

  /** The variables that a call reads and writes. OPTIND and the two hidden variables hold
      text; a value that does not parse is as good as none. */
  datatype State = State(optind: Option<int>, nextChar: Option<nat>, lastOptind: Option<int>,
                         variable: string, optarg: Option<string>)

  datatype Report = Report(variable: string, optarg: Option<string>, optind: nat, nextChar: Option<nat>,
                           found: bool)

  /** The value that a decimal number has when it is read back as a 32-bit integer. */
  function ReadBack(n: nat): Option<int> {
    if n <= I32_MAX then Some(n) else None
  }

  predicate IsOption(arg: string) {
    arg != "" && arg[0] == '-' && arg != "--" && arg != "-"
  }

  /** The position in an argument to go on from; one that lies beyond it is stale. */
  function CharIndex(arg: string, nextChar: Option<nat>): (n: nat)
    requires IsOption(arg)
    ensures n < |arg|
  {
    if nextChar.GetOr(1) < |arg| then nextChar.GetOr(1) else 1
  }

  function MissingArgument(spec: OptionSpec, c: char): (string, Option<string>) {
    if spec.silentErrors then (":", Some([c])) else ("?", None)
  }

  function UnknownOption(spec: OptionSpec, c: char): (string, Option<string>) {
    ("?", if spec.silentErrors then Some([c]) else None)
  }

  /** The next option at or behind the 1-based position `index`. */
  function NextOption(spec: OptionSpec, args: seq<string>, index: nat, nextChar: Option<nat>): Report
    requires index >= 1
  {
    if index > |args| then Report("?", None, |args| + 1, nextChar, false)
    else
      var arg := args[index - 1];
      if !IsOption(arg) then Report("?", None, if arg == "--" then index + 1 else index, nextChar, false)
      else
        var i := CharIndex(arg, nextChar);
        var c := arg[i];
        var last := i == |arg| - 1;
        if c in spec.defs && spec.defs[c] then
          if !last then Report([c], Some(arg[i + 1..]), index + 1, None, true)
          else if index >= |args| then
            var (variable, optarg) := MissingArgument(spec, c);
            Report(variable, optarg, index + 1, None, true)
          else Report([c], Some(args[index]), index + 2, None, true)
        else
          var (variable, optarg) := if c in spec.defs then ([c], None) else UnknownOption(spec, c);
          if last then Report(variable, optarg, index + 1, None, true)
          else Report(variable, optarg, index, Some(i + 1), true)
  }

  /** Where a call starts: OPTIND, taken as 1 if it is missing or not positive, and the
      position inside a word, which only counts while OPTIND is what the last call left. */
  function StartIndex(s: State): (n: nat)
    ensures n >= 1
  {
    if s.optind.GetOr(1) >= 1 then s.optind.GetOr(1) else 1
  }

  function StartChar(s: State): Option<nat> {
    if s.lastOptind == Some(s.optind.GetOr(1)) then s.nextChar else None
  }

  function NextReport(spec: OptionSpec, args: seq<string>, s: State): Report {
    NextOption(spec, args, StartIndex(s), StartChar(s))
  }

  function NextState(spec: OptionSpec, args: seq<string>, s: State): State {
    var r := NextReport(spec, args, s);
    State(ReadBack(r.optind), r.nextChar, ReadBack(r.optind), r.variable, r.optarg)
  }

  class Getopts {
    var optind: Option<int>
    var nextChar: Option<nat>
    var lastOptind: Option<int>
    var variable: string
    var optarg: Option<string>

    function Vars(): State
      reads this
    {
      State(optind, nextChar, lastOptind, variable, optarg)
    }

    constructor ()
      ensures Vars() == State(None, None, None, "", None)
    {
      optind, nextChar, lastOptind, variable, optarg := None, None, None, "", None;
    }

    /** Status 0 when an option was found, 1 when there are no more. */
    method Execute(spec: OptionSpec, args: seq<string>) returns (status: nat)
      modifies this
      ensures Vars() == NextState(spec, args, old(Vars()))
      ensures status == if NextReport(spec, args, old(Vars())).found then 0 else 1
    {
      var nextIndexSigned := optind.GetOr(1);
      if lastOptind != Some(nextIndexSigned) {
        nextChar := None;
      }
      var nextIndex: nat := if nextIndexSigned >= 1 then nextIndexSigned else 1;
      var result := ParseNextOption(spec, args, nextIndex);
      UpdateVariables(result);
      status := if result.found then 0 else 1;
    }

    method ParseNextOption(spec: OptionSpec, args: seq<string>, index: nat) returns (r: Report)
      requires index >= 1
      modifies this`nextChar
      ensures r == NextOption(spec, args, index, old(nextChar)) && nextChar == r.nextChar
    {
      if index > |args| {
        return Report("?", None, |args| + 1, nextChar, false);
      }
      var arg := args[index - 1];
      if !IsOption(arg) {
        return Report("?", None, if arg == "--" then index + 1 else index, nextChar, false);
      }
      var nextCharIndex := nextChar.GetOr(1);
      if nextCharIndex >= |arg| {
        nextCharIndex := 1;
      }
      var c := arg[nextCharIndex];
      var isLast := nextCharIndex == |arg| - 1;
      var nextIndex := index;
      var variableValue: string;
      var value: Option<string> := None;
      if c in spec.defs {
        variableValue := [c];
        if spec.defs[c] {
          variableValue, value, nextIndex := ResolveOptionArgument(spec, c, arg, args, nextCharIndex, isLast, index);
          isLast := true;
        }
      } else {
        var (unknown, offender) := UnknownOption(spec, c);
        variableValue, value := unknown, offender;
      }
      if isLast {
        nextChar := None;
        r := Report(variableValue, value, nextIndex + 1, nextChar, true);
      } else {
        nextChar := Some(nextCharIndex + 1);
        r := Report(variableValue, value, nextIndex, nextChar, true);
      }
    }

    /** The value of an option that takes one: the rest of its word or the next word. */
    method ResolveOptionArgument(spec: OptionSpec, c: char, arg: string, args: seq<string>, charIndex: nat,
                                 isLast: bool, index: nat)
      returns (variableValue: string, value: Option<string>, nextIndex: nat)
      requires charIndex < |arg| && isLast == (charIndex == |arg| - 1) && index <= |args|
      ensures !isLast ==> variableValue == [c] && value == Some(arg[charIndex + 1..]) && nextIndex == index
      ensures isLast && index == |args| ==>
                (variableValue, value) == MissingArgument(spec, c) && nextIndex == index
      ensures isLast && index < |args| ==>
                variableValue == [c] && value == Some(args[index]) && nextIndex == index + 1
    {
      nextIndex := index;
      if isLast {
        if index >= |args| {
          var (missing, offender) := MissingArgument(spec, c);
          return missing, offender, nextIndex;
        }
        nextIndex := nextIndex + 1;
        return [c], Some(args[nextIndex - 1]), nextIndex;
      }
      return [c], Some(arg[charIndex + 1..]), nextIndex;
    }

    method UpdateVariables(r: Report)
      modifies this`variable, this`optarg, this`optind, this`lastOptind
      ensures Vars() == State(ReadBack(r.optind), nextChar, ReadBack(r.optind), r.variable, r.optarg)
    {
      variable := r.variable;
      optarg := r.optarg;
      optind := ReadBack(r.optind);
      lastOptind := ReadBack(r.optind);
    }
  }

  // ----- All calls ----------------------------------------------------------------------------

  /** What a caller sees of a call that found an option. */
  datatype Event = Event(variable: string, optarg: Option<string>)

  /** The words and then the characters that are left. */
  function WordsLeft(args: seq<string>, s: State): nat {
    if StartIndex(s) > |args| then 0 else |args| + 1 - StartIndex(s)
  }

  function CharsLeft(args: seq<string>, s: State): nat {
    if StartIndex(s) <= |args| && IsOption(args[StartIndex(s) - 1])
    then |args[StartIndex(s) - 1]| - CharIndex(args[StartIndex(s) - 1], StartChar(s))
    else 0
  }

  /** A call that finds an option uses up characters or words; OPTIND stays in range. */
  lemma CallProgress(spec: OptionSpec, args: seq<string>, s: State)
    requires |args| < I32_MAX
    ensures var r := NextReport(spec, args, s);
            && 1 <= r.optind <= |args| + 1
            && r.optind >= Min(StartIndex(s), |args| + 1)
            && NextState(spec, args, s).optind == Some(r.optind)
    ensures NextReport(spec, args, s).found ==>
              var s' := NextState(spec, args, s);
              || WordsLeft(args, s') < WordsLeft(args, s)
              || (WordsLeft(args, s') == WordsLeft(args, s) && CharsLeft(args, s') < CharsLeft(args, s))
  {
  }

  function Min(a: int, b: int): int {
    if a <= b then a else b
  }

  /** What repeated calls report until one of them finds no option; from any state there are
      only finitely many. */
  function Calls(spec: OptionSpec, args: seq<string>, s: State): (events: seq<Event>)
    requires |args| < I32_MAX
    decreases WordsLeft(args, s), CharsLeft(args, s)
  {
    var r := NextReport(spec, args, s);
    CallProgress(spec, args, s);
    if !r.found then [] else [Event(r.variable, r.optarg)] + Calls(spec, args, NextState(spec, args, s))
  }

  /** The state that the last of those calls leaves. */
  function FinalState(spec: OptionSpec, args: seq<string>, s: State): State
    requires |args| < I32_MAX
    decreases WordsLeft(args, s), CharsLeft(args, s)
  {
    CallProgress(spec, args, s);
    var s' := NextState(spec, args, s);
    if !NextReport(spec, args, s).found then s' else FinalState(spec, args, s')
  }

  /** OPTIND after each of those calls. */
  function Optinds(spec: OptionSpec, args: seq<string>, s: State): (optinds: seq<nat>)
    requires |args| < I32_MAX
    decreases WordsLeft(args, s), CharsLeft(args, s)
  {
    var r := NextReport(spec, args, s);
    CallProgress(spec, args, s);
    [r.optind] + if !r.found then [] else Optinds(spec, args, NextState(spec, args, s))
  }

  /** From any state on, however OPTIND was set, it stays within 1 and the number of arguments plus
      1, and it never goes back. */
  lemma {:induction false} OptindStaysInRange(spec: OptionSpec, args: seq<string>, s: State)
    requires |args| < I32_MAX
    ensures var optinds := Optinds(spec, args, s);
            && (forall i :: 0 <= i < |optinds| ==> 1 <= optinds[i] <= |args| + 1)
            && (forall i, j :: 0 <= i < j < |optinds| ==> optinds[i] <= optinds[j])
            && optinds[0] >= Min(StartIndex(s), |args| + 1)
    decreases WordsLeft(args, s), CharsLeft(args, s)
  {
    hide NextReport, NextState;
    CallProgress(spec, args, s);
    if NextReport(spec, args, s).found {
      var s' := NextState(spec, args, s);
      OptindStaysInRange(spec, args, s');
      var rest := Optinds(spec, args, s');
      assert StartIndex(s') == NextReport(spec, args, s).optind;
      assert forall j :: 0 <= j < |rest| ==> rest[0] <= rest[j];
    }
  }

  // The options of a list of words, read off the words themselves.

  function Words(spec: OptionSpec, args: seq<string>): seq<Event>
    decreases Size(args), 1
  {
    if args == [] || !IsOption(args[0]) then [] else Letters(spec, args[0][1..], args[1..])
  }

  function Letters(spec: OptionSpec, letters: string, args: seq<string>): seq<Event>
    decreases Size(args) + |letters|, 2
  {
    if letters == "" then Words(spec, args)
    else
      var c, rest := letters[0], letters[1..];
      if c !in spec.defs then
        var (variable, optarg) := UnknownOption(spec, c);
        [Event(variable, optarg)] + Letters(spec, rest, args)
      else if !spec.defs[c] then [Event([c], None)] + Letters(spec, rest, args)
      else if rest != "" then [Event([c], Some(rest))] + Words(spec, args)
      else if args == [] then
        var (variable, optarg) := MissingArgument(spec, c);
        [Event(variable, optarg)]
      else [Event([c], Some(args[0]))] + Words(spec, args[1..])
  }

  function Size(args: seq<string>): nat {
    if args == [] then 0 else |args[0]| + 1 + Size(args[1..])
  }

  /** The words that those options use up, with a "--" that ends them. */
  function Used(spec: OptionSpec, args: seq<string>): nat
    decreases Size(args), 1
  {
    if args == [] then 0
    else if args[0] == "--" then 1
    else if !IsOption(args[0]) then 0
    else 1 + UsedAfter(spec, args[0][1..], args[1..])
  }

  function UsedAfter(spec: OptionSpec, letters: string, args: seq<string>): nat
    decreases Size(args) + |letters|, 2
  {
    if letters == "" then Used(spec, args)
    else
      var c, rest := letters[0], letters[1..];
      if c !in spec.defs || !spec.defs[c] then UsedAfter(spec, rest, args)
      else if rest != "" then Used(spec, args)
      else if args == [] then 0
      else 1 + Used(spec, args[1..])
  }

  /** What is left to be read from the start position of a state on. */
  function Unread(spec: OptionSpec, args: seq<string>, s: State): seq<Event>
    requires StartIndex(s) <= |args| + 1
  {
    var i := StartIndex(s) - 1;
    if i < |args| && IsOption(args[i]) then
      Letters(spec, args[i][CharIndex(args[i], StartChar(s))..], args[i + 1..])
    else []
  }

  function UnreadEnd(spec: OptionSpec, args: seq<string>, s: State): nat
    requires StartIndex(s) <= |args| + 1
  {
    var i := StartIndex(s) - 1;
    if i < |args| && IsOption(args[i]) then
      i + 2 + UsedAfter(spec, args[i][CharIndex(args[i], StartChar(s))..], args[i + 1..])
    else i + 1 + Used(spec, args[i..])
  }

  /** At the start of a word, what is unread is what its suffix of words spells. */
  lemma UnreadWords(spec: OptionSpec, args: seq<string>, s: State)
    requires StartIndex(s) <= |args| + 1 && StartChar(s).None?
    ensures var rest := args[StartIndex(s) - 1..];
            Unread(spec, args, s) == Words(spec, rest)
            && UnreadEnd(spec, args, s) == StartIndex(s) + Used(spec, rest)
  {
    var i := StartIndex(s) - 1;
    if i < |args| {
      assert args[i..][0] == args[i] && args[i..][1..] == args[i + 1..];
    }
  }

  /** The call's report and what remains, in terms of the letters still to be read. */
  lemma LettersStep(spec: OptionSpec, args: seq<string>, index: nat, nextChar: Option<nat>)
    requires 1 <= index <= |args| && IsOption(args[index - 1])
    ensures var r := NextOption(spec, args, index, nextChar);
            var letters := args[index - 1][CharIndex(args[index - 1], nextChar)..];
            var rest := args[index..];
            && r.found
            && (r.nextChar.Some? ==>
                  && r.optind == index && r.nextChar.value < |args[index - 1]|
                  && var letters' := args[index - 1][r.nextChar.value..];
                     && Letters(spec, letters, rest) == [Event(r.variable, r.optarg)] + Letters(spec, letters', rest)
                     && UsedAfter(spec, letters, rest) == UsedAfter(spec, letters', rest))
            && (r.nextChar.None? ==>
                  && index < r.optind <= |args| + 1
                  && Letters(spec, letters, rest)
                     == [Event(r.variable, r.optarg)] + Words(spec, args[r.optind - 1..])
                  && index + 1 + UsedAfter(spec, letters, rest) == r.optind + Used(spec, args[r.optind - 1..]))
  {
    var arg, k := args[index - 1], CharIndex(args[index - 1], nextChar);
    var letters := arg[k..];
    assert letters[0] == arg[k] && letters[1..] == arg[k + 1..];
    var c := arg[k];
    if c in spec.defs && spec.defs[c] && k == |arg| - 1 && index < |args| {
      assert args[index..][0] == args[index] && args[index..][1..] == args[index + 1..];
    }
  }

  lemma UsedByNone(spec: OptionSpec, rest: seq<string>)
    requires rest == [] || !IsOption(rest[0])
    ensures Used(spec, rest) == if rest != [] && rest[0] == "--" then 1 else 0
  {
  }

  lemma FoundIsOption(spec: OptionSpec, args: seq<string>, index: nat, nextChar: Option<nat>)
    requires index >= 1
    ensures NextOption(spec, args, index, nextChar).found <==> index <= |args| && IsOption(args[index - 1])
  {
  }

  /** The next call starts where this one says. */
  lemma NextStart(spec: OptionSpec, args: seq<string>, s: State)
    requires |args| < I32_MAX
    ensures var r, s' := NextReport(spec, args, s), NextState(spec, args, s);
            StartIndex(s') == r.optind && StartChar(s') == r.nextChar
  {
    CallProgress(spec, args, s);
    hide NextReport;
  }

  lemma UnreadAfterOption(spec: OptionSpec, args: seq<string>, s: State)
    requires |args| < I32_MAX && StartIndex(s) <= |args| + 1 && NextReport(spec, args, s).found
    ensures var r, s' := NextReport(spec, args, s), NextState(spec, args, s);
            && StartIndex(s') <= |args| + 1
            && Unread(spec, args, s) == [Event(r.variable, r.optarg)] + Unread(spec, args, s')
            && UnreadEnd(spec, args, s) == UnreadEnd(spec, args, s')
  {
    hide Words, Letters, Used, UsedAfter, NextOption, NextState, StartIndex, StartChar, IsOption;
    FoundIsOption(spec, args, StartIndex(s), StartChar(s));
    NextStart(spec, args, s);
    var r, s' := NextReport(spec, args, s), NextState(spec, args, s);
    LettersStep(spec, args, StartIndex(s), StartChar(s));
    if r.nextChar.None? {
      UnreadWords(spec, args, s');
    }
  }

  lemma UnreadAtEnd(spec: OptionSpec, args: seq<string>, s: State)
    requires |args| < I32_MAX && StartIndex(s) <= |args| + 1 && !NextReport(spec, args, s).found
    ensures Unread(spec, args, s) == [] && NextState(spec, args, s).optind == Some(UnreadEnd(spec, args, s))
  {
    hide Words, Letters, Used, UsedAfter;
    FoundIsOption(spec, args, StartIndex(s), StartChar(s));
    var i := StartIndex(s) - 1;
    UsedByNone(spec, args[i..]);
    if i < |args| {
      assert args[i..][0] == args[i];
    }
  }

  lemma UnreadStep(spec: OptionSpec, args: seq<string>, s: State)
    requires |args| < I32_MAX && StartIndex(s) <= |args| + 1
    ensures var r, s' := NextReport(spec, args, s), NextState(spec, args, s);
            if r.found then
              && StartIndex(s') <= |args| + 1
              && Unread(spec, args, s) == [Event(r.variable, r.optarg)] + Unread(spec, args, s')
              && UnreadEnd(spec, args, s) == UnreadEnd(spec, args, s')
            else Unread(spec, args, s) == [] && s'.optind == Some(UnreadEnd(spec, args, s))
  {
    hide Unread, UnreadEnd, NextReport, NextState, StartIndex;
    if NextReport(spec, args, s).found {
      UnreadAfterOption(spec, args, s);
    } else {
      UnreadAtEnd(spec, args, s);
    }
  }

  /** Repeated calls report exactly the options of the words from the start position on, each
      once and in order, and OPTIND ends one past the words that these use up. */
  lemma {:induction false} CallsReadWords(spec: OptionSpec, args: seq<string>, s: State)
    requires |args| < I32_MAX && StartIndex(s) <= |args| + 1
    ensures Calls(spec, args, s) == Unread(spec, args, s)
    ensures FinalState(spec, args, s).optind == Some(UnreadEnd(spec, args, s))
    decreases WordsLeft(args, s), CharsLeft(args, s)
  {
    hide Unread, UnreadEnd, NextReport, NextState;
    CallProgress(spec, args, s);
    UnreadStep(spec, args, s);
    if NextReport(spec, args, s).found {
      CallsReadWords(spec, args, NextState(spec, args, s));
    }
  }

  /** A call at a word of one letter: what it reports, and where the next one starts. */
  lemma OneLetterIs(spec: OptionSpec, args: seq<string>, s: State, c: char)
    requires StartIndex(s) <= |args| && StartChar(s).None? && args[StartIndex(s) - 1] == ['-', c] && c != '-'
    ensures var r, index := NextReport(spec, args, s), StartIndex(s);
            && r.found && r.nextChar.None?
            && if c !in spec.defs then
                 r.variable == "?" && r.optarg == (if spec.silentErrors then Some([c]) else None) && r.optind == index + 1
               else if !spec.defs[c] then r.variable == [c] && r.optarg == None && r.optind == index + 1
               else if index < |args| then r.variable == [c] && r.optarg == Some(args[index]) && r.optind == index + 2
               else if spec.silentErrors then r.variable == ":" && r.optarg == Some([c]) && r.optind == index + 1
               else r.variable == "?" && r.optarg == None && r.optind == index + 1
  {
  }

  /** Options end at the first word that is none: behind `--`, and in front of anything else, a single dash
      included. */
  lemma OptionsEnd(spec: OptionSpec, args: seq<string>, s: State)
    ensures var r, index := NextReport(spec, args, s), StartIndex(s);
            && (index > |args| ==> !r.found && r.optind == |args| + 1)
            && (index <= |args| && args[index - 1] == "--" ==> !r.found && r.optind == index + 1)
            && (index <= |args| && args[index - 1] in {"", "-"} ==> !r.found && r.optind == index)
            && (index <= |args| && args[index - 1] != "" && args[index - 1][0] != '-' ==> !r.found && r.optind == index)
            && (!r.found ==> r.variable == "?" && r.optarg == None)
  {
  }

  // ----- Ways to write the same options -------------------------------------------------------

  /** One word for each letter. */
  function Separate(letters: string): seq<string> {
    seq(|letters|, i requires 0 <= i < |letters| => ['-', letters[i]])
  }

  predicate TakesArgument(spec: OptionSpec, c: char) {
    c in spec.defs && spec.defs[c]
  }

  ghost predicate NoneTakesArgument(spec: OptionSpec, letters: string) {
    forall i :: 0 <= i < |letters| ==> !TakesArgument(spec, letters[i])
  }

  /** What a letter without an argument reports. */
  function LetterEvent(spec: OptionSpec, c: char): Event {
    if c in spec.defs then Event([c], None)
    else
      var (variable, optarg) := UnknownOption(spec, c);
      Event(variable, optarg)
  }

  lemma SeparateStep(spec: OptionSpec, letters: string, args: seq<string>)
    requires letters != "" && letters[0] != '-' && !TakesArgument(spec, letters[0])
    ensures Words(spec, Separate(letters) + args)
            == [LetterEvent(spec, letters[0])] + Words(spec, Separate(letters[1..]) + args)
    ensures Letters(spec, letters, args) == [LetterEvent(spec, letters[0])] + Letters(spec, letters[1..], args)
  {
    var all, rest := Separate(letters) + args, Separate(letters[1..]) + args;
    assert all[0] == ['-', letters[0]] && all[1..] == rest;
    assert all[0][1..] == [letters[0]] && [letters[0]][1..] == "";
    assert Letters(spec, [letters[0]], rest) == [LetterEvent(spec, letters[0])] + Letters(spec, "", rest);
  }

  lemma {:induction false} LettersAreWords(spec: OptionSpec, letters: string, args: seq<string>)
    requires NoneTakesArgument(spec, letters) && '-' !in letters
    ensures Letters(spec, letters, args) == Words(spec, Separate(letters) + args)
  {
    if letters == "" {
      assert Separate("") + args == args;
    } else {
      SeparateStep(spec, letters, args);
      LettersAreWords(spec, letters[1..], args);
    }
  }

  lemma {:induction false} LettersCount(spec: OptionSpec, letters: string, args: seq<string>)
    requires NoneTakesArgument(spec, letters)
    ensures |Letters(spec, letters, args)| == |letters| + |Words(spec, args)|
  {
    if letters != "" {
      LettersCount(spec, letters[1..], args);
    }
  }

  lemma {:induction false} DashEndsWords(spec: OptionSpec, letters: string, args: seq<string>)
    requires NoneTakesArgument(spec, letters) && '-' in letters
    ensures |Words(spec, Separate(letters) + args)| < |letters|
  {
    if letters[0] == '-' {
      assert (Separate(letters) + args)[0] == "--";
    } else {
      SeparateStep(spec, letters, args);
      DashEndsWords(spec, letters[1..], args);
    }
  }

  lemma WordIsLetters(spec: OptionSpec, letters: string, args: seq<string>)
    requires letters != "" && letters != "-"
    ensures Words(spec, ["-" + letters] + args) == Letters(spec, letters, args)
  {
    var word := "-" + letters;
    assert ([word] + args)[0] == word && ([word] + args)[1..] == args && word[1..] == letters;
    assert |word| == 2 ==> word[1] == letters[0];
  }

  /** Setting OPTIND to 1 keeps the place in the first word: OPTIND was 1 already, and the place is
      one in the word other than its first letter. */
  predicate GoesOnInside(args: seq<string>, s: State) {
    && s.lastOptind == Some(1) && args != [] && IsOption(args[0])
    && s.nextChar.Some? && s.nextChar.value != 1 && s.nextChar.value < |args[0]|
  }

  lemma RestartReads(spec: OptionSpec, args: seq<string>, s: State)
    requires |args| < I32_MAX
    ensures Calls(spec, args, s.(optind := Some(1)))
            == if GoesOnInside(args, s) then Letters(spec, args[0][s.nextChar.value..], args[1..]) else Words(spec, args)
    ensures !GoesOnInside(args, s) ==> FinalState(spec, args, s.(optind := Some(1))).optind == Some(1 + Used(spec, args))
  {
    hide Letters, Calls, FinalState, UsedAfter, NextOption;
    var s' := s.(optind := Some(1));
    CallsReadWords(spec, args, s');
    assert args[0..] == args;
    if !GoesOnInside(args, s) && args != [] && IsOption(args[0]) {
      assert CharIndex(args[0], StartChar(s')) == 1;
    }
  }

  /** The dash of a word is no letter of it. */
  lemma DashIsNoLetter(spec: OptionSpec, letters: string, args: seq<string>)
    requires letters != "" && NoneTakesArgument(spec, letters)
    ensures Letters(spec, "-" + letters, args) != Letters(spec, letters, args)
  {
    var all := "-" + letters;
    assert all[0] == '-' && all[1..] == letters;
    if TakesArgument(spec, '-') {
      assert Letters(spec, all, args)[0] == Event("-", Some(letters));
      assert Letters(spec, letters, args)[0] == LetterEvent(spec, letters[0]);
    } else {
      LettersCount(spec, letters, args);
      LettersCount(spec, all, args);
    }
  }

  /** A parse may be started over by setting OPTIND to 1. For a first word whose letters take no
      argument, this reads all words exactly if the place in the first word is not kept. */
  lemma RestartReadsAllIff(spec: OptionSpec, args: seq<string>, s: State)
    requires |args| < I32_MAX
    requires args != [] && IsOption(args[0]) ==> NoneTakesArgument(spec, args[0][1..])
    ensures Calls(spec, args, s.(optind := Some(1))) == Words(spec, args) <==> !GoesOnInside(args, s)
  {
    hide Letters, Calls, Used, UsedAfter, FinalState;
    RestartReads(spec, args, s);
    if GoesOnInside(args, s) {
      var k, letters, rest := s.nextChar.value, args[0][1..], args[1..];
      assert Words(spec, args) == Letters(spec, letters, rest);
      if k == 0 {
        assert args[0][0..] == "-" + letters;
        DashIsNoLetter(spec, letters, rest);
      } else {
        assert args[0][k..] == letters[k - 1..];
        LettersCount(spec, letters, rest);
        LettersCount(spec, letters[k - 1..], rest);
      }
    }
  }

  /** `-abc` says the same as `-a -b -c`, for letters without arguments, exactly when no dash
      is among them. (A single dash makes both the "--" that ends the options.) */
  lemma ClusterIsSeparate(spec: OptionSpec, letters: string, args: seq<string>)
    requires letters != "" && NoneTakesArgument(spec, letters)
    ensures Words(spec, ["-" + letters] + args) == Words(spec, Separate(letters) + args)
            <==> '-' !in letters || letters == "-"
  {
    if letters == "-" {
      assert "-" + letters == ['-', letters[0]];
      assert Separate(letters) == ["-" + letters];
    } else {
      WordIsLetters(spec, letters, args);
      if '-' in letters {
        LettersCount(spec, letters, args);
        DashEndsWords(spec, letters, args);
      } else {
        LettersAreWords(spec, letters, args);
      }
    }
  }

  /** `-pVALUE` says the same as `-p VALUE`, for a value that is not empty, exactly when the
      option is not a dash. */
  lemma AttachedIsSeparate(spec: OptionSpec, p: char, value: string, args: seq<string>)
    requires TakesArgument(spec, p) && value != ""
    ensures Words(spec, ["-" + [p] + value] + args) == Words(spec, ["-" + [p], value] + args) <==> p != '-'
  {
    WordIsLetters(spec, [p] + value, args);
    assert "-" + ([p] + value) == "-" + [p] + value;
    assert ([p] + value)[1..] == value;
    var apart := ["-" + [p], value] + args;
    assert apart[0] == "-" + [p] && apart[1..] == [value] + args && apart[1..][0] == value && apart[1..][1..] == args;
    if p == '-' {
      assert apart[0] == "--";
    } else {
      assert apart[0][1] == p && apart[0][1..] == [p] && [p][1..] == "";
    }
  }

  /** What calls report from the start of a word on depends on the words from there on only. */
  lemma CallsDependOnSuffix(spec: OptionSpec, front: seq<string>, args: seq<string>, s: State)
    requires |front + args| < I32_MAX && StartIndex(s) == |front| + 1 && StartChar(s).None?
    ensures Calls(spec, front + args, s) == Words(spec, args)
  {
    CallsReadWords(spec, front + args, s);
    UnreadWords(spec, front + args, s);
    assert (front + args)[|front|..] == args;
  }

  /** So wherever a parse has come to the start of a word, a cluster is reported as separate
      letters in exactly these cases, */
  lemma ClusterReportsIff(spec: OptionSpec, front: seq<string>, letters: string, back: seq<string>, s: State)
    requires StartIndex(s) == |front| + 1 && StartChar(s).None? && |front| + |letters| + 1 + |back| < I32_MAX
    requires letters != "" && NoneTakesArgument(spec, letters)
    ensures Calls(spec, front + (["-" + letters] + back), s) == Calls(spec, front + (Separate(letters) + back), s)
            <==> '-' !in letters || letters == "-"
  {
    hide Words, Calls;
    CallsDependOnSuffix(spec, front, ["-" + letters] + back, s);
    CallsDependOnSuffix(spec, front, Separate(letters) + back, s);
    ClusterIsSeparate(spec, letters, back);
  }

  /** and so is an attached value as a separate one. */
  lemma AttachedReportsIff(spec: OptionSpec, front: seq<string>, p: char, value: string, back: seq<string>, s: State)
    requires StartIndex(s) == |front| + 1 && StartChar(s).None? && |front| + 2 + |back| < I32_MAX
    requires TakesArgument(spec, p) && value != ""
    ensures Calls(spec, front + (["-" + [p] + value] + back), s) == Calls(spec, front + (["-" + [p], value] + back), s)
            <==> p != '-'
  {
    hide Words, Calls;
    CallsDependOnSuffix(spec, front, ["-" + [p] + value] + back, s);
    CallsDependOnSuffix(spec, front, ["-" + [p], value] + back, s);
    AttachedIsSeparate(spec, p, value, back);
  }
}
