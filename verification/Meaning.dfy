/** What each construct comes to, in terms of what its parts come to
    (brush-core/src/interp.rs:236-475 and 683-1128). A run that no amount
    of fuel brings to an end has no outcome. */
module Meaning {
  import opened Wrappers
  import opened Results
  import opened Interp
  import opened Machine
  import E = Environment

  type Answer = Result<ExecutionResult, Failure>

  /** The outcome of a move with as much fuel as it takes; `OutOfFuel` if none suffices. */
  ghost function Value(w: World, m: Move): Outcome {
    if fuel: nat :| Drive(w, fuel, m).Finished? then Drive(w, fuel, m) else OutOfFuel
  }

  ghost function OutcomeOf(w: World, task: Task, sup: bool, s: Shell): Outcome { Value(w, Enter(w, task, sup, s)) }

  lemma ValueIs(w: World, fuel: nat, m: Move)
    requires Drive(w, fuel, m).Finished?
    ensures Value(w, m) == Drive(w, fuel, m)
  {
    var enough: nat :| Drive(w, enough, m).Finished? && Value(w, m) == Drive(w, enough, m);
    if enough <= fuel {
      FuelIsEnough(w, enough, fuel, m);
    } else {
      FuelIsEnough(w, fuel, enough, m);
    }
  }

  /** A task has an outcome exactly if some amount of fuel brings it to that outcome. */
  lemma OutcomeIff(w: World, task: Task, sup: bool, s: Shell, r: Answer, s': Shell)
    ensures OutcomeOf(w, task, sup, s) == Finished(r, s') <==> exists fuel :: Run(w, fuel, task, sup, s) == Finished(r, s')
  {
    hide Drive, Enter;
    var m := Enter(w, task, sup, s);
    if fuel: nat :| Run(w, fuel, task, sup, s) == Finished(r, s') {
      ValueIs(w, fuel, m);
    }
    if Value(w, m) == Finished(r, s') {
      var fuel: nat :| Drive(w, fuel, m) == Finished(r, s');
      assert Run(w, fuel, task, sup, s) == Finished(r, s');
    }
  }

  lemma DoneIs(w: World, r: Answer, s: Shell)
    ensures Value(w, Done(r, s)) == Finished(r, s)
  {
    assert Drive(w, 0, Done(r, s)).Finished?;
    ValueIs(w, 0, Done(r, s));
  }

  /** What follows a nested run with this outcome. */
  ghost function Following(w: World, o: Outcome, f: Frame): Outcome {
    match o
    case OutOfFuel => OutOfFuel
    case Finished(r, s) => Value(w, Leave(w, f, r, s))
  }

  lemma CallIs(w: World, task: Task, sup: bool, s: Shell, f: Frame)
    ensures Value(w, Call(task, sup, s, f)) == Following(w, OutcomeOf(w, task, sup, s), f)
  {
    hide Enter, Leave;
    var m, inner := Call(task, sup, s, f), Enter(w, task, sup, s);
    if fuel: nat :| Drive(w, fuel, m).Finished? {
      var o := Drive(w, fuel - 1, inner);
      ValueIs(w, fuel, m);
      ValueIs(w, fuel - 1, inner);
      ValueIs(w, fuel - 1, Leave(w, f, o.result, o.shell));
    } else if a: nat :| Drive(w, a, inner).Finished? {
      ValueIs(w, a, inner);
      var o := Drive(w, a, inner);
      var outer := Leave(w, f, o.result, o.shell);
      if b: nat :| Drive(w, b, outer).Finished? {
        var enough := a + b;
        FuelIsEnough(w, a, enough, inner);
        FuelIsEnough(w, b, enough, outer);
        assert Drive(w, enough + 1, m).Finished?;
      }
    }
  }

  // ----- And-or lists ---------------------------------------------------------------------------

  function More(additional: Additional, isAnd: bool, p: Pipeline): Additional {
    match additional
    case End => if isAnd then And(p, End) else Or(p, End)
    case And(next, rest) => And(next, More(rest, isAnd, p))
    case Or(next, rest) => Or(next, More(rest, isAnd, p))
  }

  /** The list with one more member: `list && p` or `list || p`. */
  function Extended(list: AndOrList, isAnd: bool, p: Pipeline): AndOrList {
    list.(additional := More(list.additional, isAnd, p))
  }

  /** `&&` goes on after success, `||` after failure; neither does after an error or a signal. */
  predicate CallsFor(isAnd: bool, r: Answer) {
    r.Ok? && r.value.flow.Normal? && (r.value.code == 0 <==> isAnd)
  }

  /** One more member runs in the shell that the list before it left, if that calls for it. */
  ghost function OneMore(w: World, o: Outcome, isAnd: bool, p: Pipeline, sup: bool): Outcome {
    match o
    case OutOfFuel => OutOfFuel
    case Finished(r, s) => if CallsFor(isAnd, r) then OutcomeOf(w, RunPipeline(p), sup, s) else o
  }

  lemma AfterMember(w: World, rest: Additional, sup: bool, r: Answer, s: Shell)
    ensures Leave(w, AndOrRest(rest, sup), r, s) == if r.Err? then Done(r, s) else NextPipeline(rest, r.value, sup, s)
  {
  }

  lemma LastMember(w: World, p: Pipeline, sup: bool, s: Shell)
    ensures Value(w, Call(RunPipeline(p), sup, s, AndOrRest(End, sup))) == OutcomeOf(w, RunPipeline(p), sup, s)
  {
    hide OutcomeOf, Value, Leave;
    CallIs(w, RunPipeline(p), sup, s, AndOrRest(End, sup));
    var o := OutcomeOf(w, RunPipeline(p), sup, s);
    if o.Finished? {
      AfterMember(w, End, sup, o.result, o.shell);
      DoneIs(w, o.result, o.shell);
    }
  }

  lemma {:induction false} FurtherMember(w: World, rest: Additional, isAnd: bool, p: Pipeline, last: ExecutionResult, sup: bool, s: Shell)
    ensures Value(w, NextPipeline(More(rest, isAnd, p), last, sup, s))
            == OneMore(w, Value(w, NextPipeline(rest, last, true, s)), isAnd, p, sup)
    decreases rest
  {
    hide OutcomeOf, Value, Leave;
    DoneIs(w, Ok(last), s);
    if last.IsNormalFlow() {
      if rest.End? {
        LastMember(w, p, sup, s);
      } else if rest.And? != last.IsSuccess() {
        FurtherMember(w, rest.rest, isAnd, p, last, sup, s);
      } else {
        FurtherRun(w, rest, isAnd, p, sup, s);
      }
    }
  }

  lemma {:induction false} FurtherRun(w: World, rest: Additional, isAnd: bool, p: Pipeline, sup: bool, s: Shell)
    requires !rest.End?
    ensures Value(w, Call(RunPipeline(rest.next), true, s, AndOrRest(More(rest.rest, isAnd, p), sup)))
            == OneMore(w, Value(w, Call(RunPipeline(rest.next), true, s, AndOrRest(rest.rest, true))), isAnd, p, sup)
    decreases rest, 0
  {
    hide OutcomeOf, Value, Leave, NextPipeline;
    CallIs(w, RunPipeline(rest.next), true, s, AndOrRest(More(rest.rest, isAnd, p), sup));
    CallIs(w, RunPipeline(rest.next), true, s, AndOrRest(rest.rest, true));
    var o := OutcomeOf(w, RunPipeline(rest.next), true, s);
    if o.Finished? {
      AfterMember(w, More(rest.rest, isAnd, p), sup, o.result, o.shell);
      AfterMember(w, rest.rest, true, o.result, o.shell);
      DoneIs(w, o.result, o.shell);
      if o.result.Ok? {
        FurtherMember(w, rest.rest, isAnd, p, o.result.value, sup, o.shell);
      }
    }
  }

  /** And-or lists associate to the left: a list with one more member is the list before it, run with
      errexit suppressed, and then that member exactly if the operator calls for it. */
  lemma AndOrListIs(w: World, list: AndOrList, isAnd: bool, p: Pipeline, sup: bool, s: Shell)
    ensures OutcomeOf(w, RunAndOr(Extended(list, isAnd, p)), sup, s)
            == OneMore(w, OutcomeOf(w, RunAndOr(list), true, s), isAnd, p, sup)
  {
    hide Value, Leave, NextPipeline;
    var first := list.first;
    CallIs(w, RunPipeline(first), true, s, AndOrRest(More(list.additional, isAnd, p), sup));
    CallIs(w, RunPipeline(first), true, s, AndOrRest(list.additional, true));
    var o := OutcomeOf(w, RunPipeline(first), true, s);
    if o.Finished? {
      AfterMember(w, More(list.additional, isAnd, p), sup, o.result, o.shell);
      AfterMember(w, list.additional, true, o.result, o.shell);
      DoneIs(w, o.result, o.shell);
      if o.result.Ok? {
        FurtherMember(w, list.additional, isAnd, p, o.result.value, sup, o.shell);
      }
    }
  }

  /** And a list of one member is that member. */
  lemma SingleMemberIs(w: World, p: Pipeline, sup: bool, s: Shell)
    ensures OutcomeOf(w, RunAndOr(AndOrList(p, End)), sup, s) == OutcomeOf(w, RunPipeline(p), sup, s)
  {
    hide Value, Leave;
    LastMember(w, p, sup, s);
  }

  // ----- Programs and lists ---------------------------------------------------------------------

  /** Complete commands run one after the other, in spite of errors, as long as each ends normally. */
  lemma ProgramIs(w: World, program: Program, sup: bool, s: Shell)
    ensures program == [] ==> OutcomeOf(w, RunProgram(program), sup, s) == Finished(Ok(SUCCESS), s)
    ensures program != [] ==>
              OutcomeOf(w, RunProgram(program), sup, s)
              == match OutcomeOf(w, RunList(program[0]), sup, s)
                 case OutOfFuel => OutOfFuel
                 case Finished(r, s1) =>
                   var result := if r.Ok? then r.value
                                 else ExecutionResult(if r.error.fatal && !s1.options.interactive then ExitShell else Normal, r.error.code);
                   var s2 := s1.(status := result.code);
                   if result.flow.Normal? && program[1..] != [] then OutcomeOf(w, RunProgram(program[1..]), sup, s2)
                   else Finished(Ok(result), s2)
  {
    hide Value, Enter, Drive;
    DoneIs(w, Ok(SUCCESS), s);
    assert OutcomeOf(w, RunProgram(program), sup, s) == Value(w, NextProgram(program, SUCCESS, sup, s)) by { EnterProgram(w, program, sup, s); }
    if program != [] {
      var rest := program[1..];
      var frame := ProgramRest(rest, sup);
      CallIs(w, RunList(program[0]), sup, s, frame);
      var o := OutcomeOf(w, RunList(program[0]), sup, s);
      if o.Finished? {
        var result := Settled(o.result, o.shell);
        var s2 := o.shell.(status := result.code);
        EnterProgram(w, rest, sup, s2);
        DoneIs(w, Ok(result), s2);
      }
    }
  }

  lemma EnterProgram(w: World, program: Program, sup: bool, s: Shell)
    ensures Enter(w, RunProgram(program), sup, s) == NextProgram(program, SUCCESS, sup, s)
  {
  }

  /** The items of a list run one after the other up to the first error or signal, and the status is
      that of the last. */
  lemma ListIs(w: World, list: CompoundList, sup: bool, s: Shell)
    ensures list.Nothing? ==> OutcomeOf(w, RunList(list), sup, s) == Finished(Ok(SUCCESS), s)
    ensures list.Item? ==>
              OutcomeOf(w, RunList(list), sup, s)
              == match OutcomeOf(w, RunAndOr(list.first), sup, s)
                 case OutOfFuel => OutOfFuel
                 case Finished(Err(f), s1) => Finished(Err(f), s1)
                 case Finished(Ok(result), s1) =>
                   var s2 := s1.(status := result.code);
                   if result.flow.Normal? && list.rest.Item? then OutcomeOf(w, RunList(list.rest), sup, s2)
                   else Finished(Ok(result), s2)
  {
    hide Value, Enter, Drive;
    DoneIs(w, Ok(SUCCESS), s);
    EnterList(w, list, sup, s);
    if list.Item? {
      CallIs(w, RunAndOr(list.first), sup, s, ListRest(list.rest, sup));
      var o := OutcomeOf(w, RunAndOr(list.first), sup, s);
      if o.Finished? {
        DoneIs(w, o.result, o.shell);
        if o.result.Ok? {
          var s2 := o.shell.(status := o.result.value.code);
          EnterList(w, list.rest, sup, s2);
          DoneIs(w, o.result, s2);
        }
      }
    }
  }

  lemma EnterList(w: World, list: CompoundList, sup: bool, s: Shell)
    ensures Enter(w, RunList(list), sup, s) == NextItem(list, SUCCESS, sup, s)
    ensures Enter(w, RunCommand(BraceGroup(list)), sup, s) == NextItem(list, SUCCESS, sup, s)
  {
  }

  /** A brace group is its list. */
  lemma BraceGroupIs(w: World, list: CompoundList, sup: bool, s: Shell)
    ensures OutcomeOf(w, RunCommand(BraceGroup(list)), sup, s) == OutcomeOf(w, RunList(list), sup, s)
  {
    hide Value, Enter;
    EnterList(w, list, sup, s);
  }

  // ----- Branches -------------------------------------------------------------------------------

  /** What comes when the condition has failed: the next condition, the last branch, or success. */
  ghost function Otherwise(w: World, elses: Elses, sup: bool, s: Shell): Outcome {
    match elses
    case NoElse => Finished(Ok(SUCCESS), s.(status := 0))
    case ElseClause(None, body, _) => OutcomeOf(w, RunList(body), sup, s)
    case ElseClause(Some(condition), body, rest) => OutcomeOf(w, RunCommand(IfClause(condition, body, rest)), sup, s)
  }

  /** The condition runs with errexit suppressed; after success comes the first branch, after failure
      the rest, and errors and signals in the condition are those of the whole. */
  lemma IfIs(w: World, condition: CompoundList, thenBranch: CompoundList, elses: Elses, sup: bool, s: Shell)
    ensures OutcomeOf(w, RunCommand(IfClause(condition, thenBranch, elses)), sup, s)
            == match OutcomeOf(w, RunList(condition), true, s)
               case OutOfFuel => OutOfFuel
               case Finished(Err(f), s1) => Finished(Err(f), s1)
               case Finished(Ok(result), s1) =>
                 if !result.flow.Normal? then Finished(Ok(result), s1)
                 else if result.code == 0 then OutcomeOf(w, RunList(thenBranch), sup, s1)
                 else Otherwise(w, elses, sup, s1)
  {
    hide Value, Enter, Drive;
    EnterIf(w, condition, thenBranch, elses, sup, s);
    CallIs(w, RunList(condition), true, s, IfCondition(thenBranch, elses, sup));
    var o := OutcomeOf(w, RunList(condition), true, s);
    if o.Finished? {
      DoneIs(w, o.result, o.shell);
      EnterList(w, thenBranch, sup, o.shell);
      if o.result.Ok? && elses.ElseClause? {
        match elses.condition
        case None => EnterList(w, elses.body, sup, o.shell);
        case Some(c) => EnterIf(w, c, elses.body, elses.rest, sup, o.shell);
      }
      DoneIs(w, Ok(SUCCESS), o.shell.(status := 0));
    }
  }

  lemma EnterIf(w: World, condition: CompoundList, thenBranch: CompoundList, elses: Elses, sup: bool, s: Shell)
    ensures Enter(w, RunCommand(IfClause(condition, thenBranch, elses)), sup, s)
            == Call(RunList(condition), true, s, IfCondition(thenBranch, elses, sup))
  {
  }

  // ----- Loops ----------------------------------------------------------------------------------

  /** Whether the loop has its next turn after a run of its body. */
  predicate TurnsOn(r: ExecutionResult) { r.flow.Normal? || r.flow == ContinueLoop(0) }

  /** What comes out of the loop if not: a signal that is meant for it is used up, one for a loop
      around it has one level less to go. */
  function Left(r: ExecutionResult): ExecutionResult {
    match r.flow
    case BreakLoop(levels) => r.(flow := if levels == 0 then Normal else BreakLoop(levels - 1))
    case ContinueLoop(levels) => r.(flow := if levels == 0 then Normal else ContinueLoop(levels - 1))
    case _ => r
  }

  /** `while` runs its body after success, `until` after failure. */
  predicate Stops(isWhile: bool, r: ExecutionResult) { r.code == 0 <==> !isWhile }

  /** The next turn of a loop, or its end with the code of the last run of its body. */
  ghost function Again(w: World, c: Command, last: ExecutionResult, sup: bool, s: Shell): Outcome
    requires c.WhileClause?
  {
    match OutcomeOf(w, RunList(c.condition), true, s)
    case Finished(Ok(result), s1) =>
      if result.flow.Normal? && Stops(c.isWhile, result) then Finished(Ok(last), s1.(status := last.code))
      else OutcomeOf(w, RunCommand(c), sup, s)
    case _ => OutcomeOf(w, RunCommand(c), sup, s)
  }

  lemma EnterWhile(w: World, c: Command, sup: bool, s: Shell)
    requires c.WhileClause?
    ensures Enter(w, RunCommand(c), sup, s) == NextTest(c.isWhile, c.condition, c.body, SUCCESS, sup, s)
  {
  }

  /** One test of the condition. */
  ghost function Tested(w: World, c: Command, last: ExecutionResult, sup: bool, s: Shell): Outcome
    requires c.WhileClause?
  {
    match OutcomeOf(w, RunList(c.condition), true, s)
    case OutOfFuel => OutOfFuel
    case Finished(Err(f), s1) => Finished(Err(f), s1)
    case Finished(Ok(result), s1) =>
      if !result.flow.Normal? then Finished(Ok(Left(result)), s1.(status := result.code))
      else if Stops(c.isWhile, result) then Finished(Ok(last), s1.(status := last.code))
      else
        match OutcomeOf(w, RunList(c.body), sup, s1.(status := result.code))
        case OutOfFuel => OutOfFuel
        case Finished(Err(f), s2) => Finished(Err(f), s2)
        case Finished(Ok(turn), s2) =>
          if TurnsOn(turn) then Again(w, c, turn.(flow := Normal), sup, s2)
          else Finished(Ok(Left(turn)), s2.(status := turn.code))
  }

  lemma TestIs(w: World, c: Command, last: ExecutionResult, sup: bool, r: Answer, s: Shell)
    requires c.WhileClause?
    ensures Leave(w, WhileCondition(c.isWhile, c.condition, c.body, last, sup), r, s)
            == match r
               case Err(_) => Done(r, s)
               case Ok(result) =>
                 if !result.flow.Normal? then Done(Ok(Left(result)), s.(status := result.code))
                 else if Stops(c.isWhile, result) then Done(Ok(last), s.(status := last.code))
                 else Call(RunList(c.body), sup, s.(status := result.code), WhileBody(c.isWhile, c.condition, c.body, sup))
  {
  }

  lemma TurnIs(w: World, c: Command, sup: bool, r: Answer, s: Shell)
    requires c.WhileClause?
    ensures Leave(w, WhileBody(c.isWhile, c.condition, c.body, sup), r, s)
            == match r
               case Err(_) => Done(r, s)
               case Ok(turn) =>
                 if TurnsOn(turn) then NextTest(c.isWhile, c.condition, c.body, turn.(flow := Normal), sup, s)
                 else Done(Ok(Left(turn)), s.(status := turn.code))
  {
  }

  /** What the body gave last matters only if the loop ends at this test. */
  lemma AgainIs(w: World, c: Command, last: ExecutionResult, sup: bool, s: Shell)
    requires c.WhileClause?
    ensures Value(w, NextTest(c.isWhile, c.condition, c.body, last, sup, s)) == Again(w, c, last, sup, s)
  {
    hide Value, Enter, Drive, Leave;
    EnterWhile(w, c, sup, s);
    CallIs(w, RunList(c.condition), true, s, WhileCondition(c.isWhile, c.condition, c.body, last, sup));
    CallIs(w, RunList(c.condition), true, s, WhileCondition(c.isWhile, c.condition, c.body, SUCCESS, sup));
    var o := OutcomeOf(w, RunList(c.condition), true, s);
    if o.Finished? {
      TestIs(w, c, last, sup, o.result, o.shell);
      TestIs(w, c, SUCCESS, sup, o.result, o.shell);
      DoneIs(w, Ok(last), o.shell.(status := last.code));
    }
  }

  /** A loop tests its condition with errexit suppressed and runs its body as long as the test calls for
      it; it ends with the code of the last run of its body, or with 0 if there was none. */
  lemma WhileIs(w: World, c: Command, sup: bool, s: Shell)
    requires c.WhileClause?
    ensures OutcomeOf(w, RunCommand(c), sup, s) == Tested(w, c, SUCCESS, sup, s)
  {
    hide Value, Enter, Drive, Leave, Again;
    EnterWhile(w, c, sup, s);
    CallIs(w, RunList(c.condition), true, s, WhileCondition(c.isWhile, c.condition, c.body, SUCCESS, sup));
    var o := OutcomeOf(w, RunList(c.condition), true, s);
    if o.Finished? {
      TestIs(w, c, SUCCESS, sup, o.result, o.shell);
      var m := Leave(w, WhileCondition(c.isWhile, c.condition, c.body, SUCCESS, sup), o.result, o.shell);
      if m.Done? {
        DoneIs(w, m.result, m.shell);
      } else {
        CallIs(w, RunList(c.body), sup, m.shell, m.frame);
        var turn := OutcomeOf(w, RunList(c.body), sup, m.shell);
        if turn.Finished? {
          TurnIs(w, c, sup, turn.result, turn.shell);
          DoneIs(w, turn.result, turn.shell);
          if turn.result.Ok? {
            AgainIs(w, c, turn.result.value.(flow := Normal), sup, turn.shell);
            DoneIs(w, Ok(Left(turn.result.value)), turn.shell.(status := turn.result.value.code));
          }
        }
      }
    }
  }

  /** A loop has a turn for each time its condition calls for one: with the shells in which it is
      tested, it ends in the last of them. */
  ghost predicate IsTurn(w: World, c: Command, sup: bool, s: Shell, s': Shell, code: ExitCode)
    requires c.WhileClause?
  {
    var test := OutcomeOf(w, RunList(c.condition), true, s);
    && test.Finished? && test.result.Ok? && test.result.value.flow.Normal? && !Stops(c.isWhile, test.result.value)
    && var turn := OutcomeOf(w, RunList(c.body), sup, test.shell.(status := test.result.value.code));
       turn.Finished? && turn.result == Ok(ExecutionResult(Normal, code)) && turn.shell == s'
  }

  lemma {:induction false} AgainTurns(w: World, c: Command, sup: bool, shells: seq<Shell>, codes: seq<ExitCode>, last: ExecutionResult)
    requires c.WhileClause? && |shells| == |codes| + 1
    requires forall k :: 0 <= k < |codes| ==> IsTurn(w, c, sup, shells[k], shells[k + 1], codes[k])
    ensures Again(w, c, last, sup, shells[0])
            == Again(w, c, if codes == [] then last else ExecutionResult(Normal, codes[|codes| - 1]), sup, shells[|codes|])
    decreases |codes|
  {
    hide OutcomeOf, Stops;
    if codes != [] {
      assert IsTurn(w, c, sup, shells[0], shells[1], codes[0]);
      WhileIs(w, c, sup, shells[0]);
      forall k | 0 <= k < |codes[1..]|
        ensures IsTurn(w, c, sup, shells[1..][k], shells[1..][k + 1], codes[1..][k])
      {
        assert IsTurn(w, c, sup, shells[k + 1], shells[k + 2], codes[k + 1]);
      }
      AgainTurns(w, c, sup, shells[1..], codes[1..], ExecutionResult(Normal, codes[0]));
    }
  }

  /** So a loop ends normally after just as many turns as its condition calls for. */
  lemma WhileTurns(w: World, c: Command, sup: bool, shells: seq<Shell>, codes: seq<ExitCode>)
    requires c.WhileClause? && |shells| == |codes| + 1
    requires forall k :: 0 <= k < |codes| ==> IsTurn(w, c, sup, shells[k], shells[k + 1], codes[k])
    requires var test := OutcomeOf(w, RunList(c.condition), true, shells[|codes|]);
             test.Finished? && test.result.Ok? && test.result.value.flow.Normal? && Stops(c.isWhile, test.result.value)
    ensures var code: ExitCode := if codes == [] then 0 else codes[|codes| - 1];
            OutcomeOf(w, RunCommand(c), sup, shells[0])
            == Finished(Ok(ExecutionResult(Normal, code)), OutcomeOf(w, RunList(c.condition), true, shells[|codes|]).shell.(status := code))
  {
    hide OutcomeOf, Stops, IsTurn;
    AgainTurns(w, c, sup, shells, codes, SUCCESS);
    AtStart(w, c, sup, shells[0]);
  }

  lemma AtStart(w: World, c: Command, sup: bool, s: Shell)
    requires c.WhileClause?
    ensures OutcomeOf(w, RunCommand(c), sup, s) == Again(w, c, SUCCESS, sup, s)
  {
    hide Value, Drive;
    EnterWhile(w, c, sup, s);
    AgainIs(w, c, SUCCESS, sup, s);
  }

  /** A turn of the body for each value in order, up to the first that does not let the loop go on. */
  ghost function EachValue(w: World, variable: string, values: seq<string>, body: CompoundList, last: ExitCode, sup: bool,
                           s: Shell): Outcome
    decreases |values|
  {
    if values == [] then Finished(Ok(ExecutionResult(Normal, last)), s.(status := last))
    else
      match E.Updated(s.env, variable, values[0], E.Anywhere, E.Global, false)
      case Err(_) => Finished(Err(Failure(GENERAL_ERROR, false)), s)
      case Ok(env) =>
        match OutcomeOf(w, RunList(body), sup, s.(env := env))
        case OutOfFuel => OutOfFuel
        case Finished(Err(f), s1) => Finished(Err(f), s1)
        case Finished(Ok(turn), s1) =>
          if TurnsOn(turn) then EachValue(w, variable, values[1..], body, turn.code, sup, s1)
          else Finished(Ok(Left(turn)), s1.(status := turn.code))
  }

  lemma ValueTurnIs(w: World, variable: string, values: seq<string>, body: CompoundList, sup: bool, r: Answer, s: Shell)
    ensures Leave(w, ForBody(variable, values, body, sup), r, s)
            == match r
               case Err(_) => Done(r, s)
               case Ok(turn) =>
                 if TurnsOn(turn) then NextValue(variable, values, body, turn.(flow := Normal), sup, s)
                 else Done(Ok(Left(turn)), s.(status := turn.code))
  {
  }

  lemma {:induction false} NextValueIs(w: World, variable: string, values: seq<string>, body: CompoundList, last: ExitCode,
                                       sup: bool, s: Shell)
    ensures Value(w, NextValue(variable, values, body, ExecutionResult(Normal, last), sup, s))
            == EachValue(w, variable, values, body, last, sup, s)
    decreases |values|
  {
    hide Value, OutcomeOf, Drive, Leave;
    var m := NextValue(variable, values, body, ExecutionResult(Normal, last), sup, s);
    if m.Done? {
      DoneIs(w, m.result, m.shell);
    } else {
      CallIs(w, RunList(body), sup, m.shell, m.frame);
      var o := OutcomeOf(w, RunList(body), sup, m.shell);
      if o.Finished? {
        ValueTurnIs(w, variable, values[1..], body, sup, o.result, o.shell);
        DoneIs(w, o.result, o.shell);
        if o.result.Ok? {
          var turn := o.result.value;
          DoneIs(w, Ok(Left(turn)), o.shell.(status := turn.code));
          if TurnsOn(turn) {
            NextValueIs(w, variable, values[1..], body, turn.code, sup, o.shell);
          }
        }
      }
    }
  }

  /** A `for` runs its body for the words it expands to, or for the positional parameters. */
  lemma ForIs(w: World, variable: string, values: Option<seq<string>>, body: CompoundList, sup: bool, s: Shell)
    ensures OutcomeOf(w, RunCommand(ForClause(variable, values, body)), sup, s)
            == match values
               case None => EachValue(w, variable, s.args, body, 0, sup, s)
               case Some(words) =>
                 var e := w.expandWords(words, sup, s);
                 match e.value
                 case Err(f) => Finished(Err(f), e.shell)
                 case Ok(expanded) => EachValue(w, variable, expanded, body, 0, sup, e.shell)
  {
    hide Value, Drive, EachValue;
    if values.None? {
      NextValueIs(w, variable, s.args, body, 0, sup, s);
    } else {
      var e := w.expandWords(values.value, sup, s);
      if e.value.Ok? {
        NextValueIs(w, variable, e.value.value, body, 0, sup, e.shell);
      } else {
        DoneIs(w, Err(e.value.error), e.shell);
      }
    }
  }

  /** `(( ))` succeeds exactly if its value is not 0. */
  lemma ArithmeticIs(w: World, expr: string, sup: bool, s: Shell)
    ensures var reply := w.evaluate(expr, sup, s);
            OutcomeOf(w, RunCommand(Arithmetic(expr)), sup, s)
            == match reply.value
               case Err(f) => Finished(Err(f), reply.shell)
               case Ok(n) =>
                 var code: ExitCode := if n == 0 then 1 else 0;
                 Finished(Ok(ExecutionResult(Normal, code)), reply.shell.(status := code))
  {
    hide Value, Drive;
    var m := Enter(w, RunCommand(Arithmetic(expr)), sup, s);
    DoneIs(w, m.result, m.shell);
  }

  /** What an expression in an arithmetic `for` gives; one that is not there or is empty is true. */
  function TestValue(w: World, test: Option<string>, sup: bool, s: Shell): Reply<int> {
    if test.None? || test.value == "" then Reply(Ok(1), s) else w.evaluate(test.value, sup, s)
  }

  /** The next round, or the end with the code of the last run of the body. */
  ghost function NextRounds(w: World, c: Command, last: ExitCode, sup: bool, s: Shell): Outcome
    requires c.ArithmeticFor?
  {
    var test := TestValue(w, c.test, sup, s);
    if test.value == Ok(0) then Finished(Ok(ExecutionResult(Normal, last)), test.shell.(status := last))
    else OutcomeOf(w, RunCommand(c.(initializer := None)), sup, s)
  }

  lemma RoundIs(w: World, c: Command, sup: bool, r: Answer, s: Shell)
    requires c.ArithmeticFor?
    ensures Leave(w, ArithmeticBody(c.test, c.updater, c.body, sup), r, s)
            == match r
               case Err(_) => Done(r, s)
               case Ok(turn) =>
                 if !TurnsOn(turn) then Done(Ok(Left(turn)), s.(status := turn.code))
                 else
                   var reply := if c.updater.None? then Reply(Ok(0), s) else w.evaluate(c.updater.value, sup, s);
                   match reply.value
                   case Err(f) => Done(Err(f), reply.shell)
                   case Ok(_) => NextRound(w, c.test, c.updater, c.body, turn.(flow := Normal), sup, reply.shell)
  {
  }

  lemma EnterRounds(w: World, c: Command, sup: bool, s: Shell)
    requires c.ArithmeticFor? && c.initializer.None?
    ensures Enter(w, RunCommand(c), sup, s) == NextRound(w, c.test, c.updater, c.body, SUCCESS, sup, s)
  {
  }

  lemma NextRoundIs(w: World, c: Command, last: ExecutionResult, sup: bool, s: Shell)
    requires c.ArithmeticFor?
    ensures var test := TestValue(w, c.test, sup, s);
            NextRound(w, c.test, c.updater, c.body, last, sup, s)
            == match test.value
               case Err(f) => Done(Err(f), test.shell)
               case Ok(n) =>
                 if n == 0 then Done(Ok(last), test.shell.(status := last.code))
                 else Call(RunList(c.body), sup, test.shell, ArithmeticBody(c.test, c.updater, c.body, sup))
  {
  }

  lemma NextRoundsIs(w: World, c: Command, last: ExitCode, sup: bool, s: Shell)
    requires c.ArithmeticFor?
    ensures Value(w, NextRound(w, c.test, c.updater, c.body, ExecutionResult(Normal, last), sup, s))
            == NextRounds(w, c, last, sup, s)
  {
    hide Value, Drive, Enter, NextRound, TestValue;
    EnterRounds(w, c.(initializer := None), sup, s);
    NextRoundIs(w, c, ExecutionResult(Normal, last), sup, s);
    NextRoundIs(w, c, SUCCESS, sup, s);
    var m := NextRound(w, c.test, c.updater, c.body, ExecutionResult(Normal, last), sup, s);
    if m.Done? {
      DoneIs(w, m.result, m.shell);
    }
  }

  /** The initializer is evaluated once. */
  lemma ArithmeticForIs(w: World, c: Command, sup: bool, s: Shell)
    requires c.ArithmeticFor? && c.initializer.Some?
    ensures var reply := w.evaluate(c.initializer.value, sup, s);
            OutcomeOf(w, RunCommand(c), sup, s)
            == match reply.value
               case Err(f) => Finished(Err(f), reply.shell)
               case Ok(_) => OutcomeOf(w, RunCommand(c.(initializer := None)), sup, reply.shell)
  {
    hide Value, Drive, NextRound;
    var reply := w.evaluate(c.initializer.value, sup, s);
    EnterRounds(w, c.(initializer := None), sup, reply.shell);
    if reply.value.Err? {
      DoneIs(w, Err(reply.value.error), reply.shell);
    }
  }

  /** Then come the test, the body and the updater in turn, as long as the test is not 0. */
  lemma RoundsAre(w: World, c: Command, sup: bool, s: Shell)
    requires c.ArithmeticFor? && c.initializer.None?
    ensures var test := TestValue(w, c.test, sup, s);
            OutcomeOf(w, RunCommand(c), sup, s)
            == match test.value
               case Err(f) => Finished(Err(f), test.shell)
               case Ok(n) =>
                 if n == 0 then Finished(Ok(SUCCESS), test.shell.(status := 0))
                 else
                   match OutcomeOf(w, RunList(c.body), sup, test.shell)
                   case OutOfFuel => OutOfFuel
                   case Finished(Err(f), s1) => Finished(Err(f), s1)
                   case Finished(Ok(turn), s1) =>
                     if !TurnsOn(turn) then Finished(Ok(Left(turn)), s1.(status := turn.code))
                     else
                       var reply := if c.updater.None? then Reply(Ok(0), s1) else w.evaluate(c.updater.value, sup, s1);
                       match reply.value
                       case Err(f) => Finished(Err(f), reply.shell)
                       case Ok(_) => NextRounds(w, c, turn.code, sup, reply.shell)
  {
    hide Value, Drive, Enter, Leave, NextRound, NextRounds, TestValue;
    EnterRounds(w, c, sup, s);
    NextRoundIs(w, c, SUCCESS, sup, s);
    var m := NextRound(w, c.test, c.updater, c.body, SUCCESS, sup, s);
    if m.Done? {
      DoneIs(w, m.result, m.shell);
    } else {
      CallIs(w, RunList(c.body), sup, m.shell, m.frame);
      var o := OutcomeOf(w, RunList(c.body), sup, m.shell);
      if o.Finished? {
        RoundIs(w, c, sup, o.result, o.shell);
        var next := Leave(w, m.frame, o.result, o.shell);
        if o.result.Ok? && TurnsOn(o.result.value) {
          var reply := if c.updater.None? then Reply(Ok(0), o.shell) else w.evaluate(c.updater.value, sup, o.shell);
          NextRoundsIs(w, c, o.result.value.code, sup, reply.shell);
          if reply.value.Err? {
            DoneIs(w, Err(reply.value.error), reply.shell);
          }
        } else {
          DoneIs(w, next.result, next.shell);
        }
      }
    }
  }

  // ----- Pipelines and subshells ----------------------------------------------------------------

  function Inverted(bang: bool, r: ExecutionResult): ExecutionResult {
    if bang then r.(code := if r.code == 0 then 1 else 0) else r
  }

  /** Errexit makes an exit of a failure that is neither suppressed nor negated. */
  function Exiting(r: ExecutionResult, ignored: bool, s: Shell): ExecutionResult {
    if r.flow.Normal? && r.code != 0 && !ignored && s.options.errexit then r.(flow := ExitShell) else r
  }

  /** The handler for ERR runs behind an unsuppressed failure, unless it is running already; in functions
      and subshells it needs errtrace. What it comes to does not matter unless it is an error, and the
      status is kept over it. */
  ghost function Handled(w: World, r: ExecutionResult, ignored: bool, s: Shell): Outcome {
    if r.code != 0 && !ignored && s.errTrap.Some? && !s.inErrTrap && (s.options.errtrace || (s.callDepth == 0 && s.subshells == 0))
    then
      match OutcomeOf(w, RunProgram(s.errTrap.value), false, s.(inErrTrap := true))
      case OutOfFuel => OutOfFuel
      case Finished(handled, s1) =>
        var s2 := s1.(inErrTrap := false, status := r.code);
        if handled.Err? then Finished(handled, s2) else Finished(Ok(Exiting(r, false, s2)), s2)
    else Finished(Ok(Exiting(r, ignored, s)), s)
  }

  lemma PipelineEndIs(w: World, p: Pipeline, sup: bool, r: Answer, s: Shell)
    ensures var ignored := sup || p.bang;
            Value(w, Leave(w, PipelineEnd(p.bang, ignored), r, s))
            == match r
               case Err(f) => Finished(Err(f), s)
               case Ok(result) => Handled(w, Inverted(p.bang, result), ignored, s.(status := Inverted(p.bang, result).code))
  {
    hide Value, Enter, Drive;
    var ignored := sup || p.bang;
    var m := Leave(w, PipelineEnd(p.bang, ignored), r, s);
    if m.Done? {
      DoneIs(w, m.result, m.shell);
    } else {
      CallIs(w, m.task, m.sup, m.shell, m.frame);
      var o := OutcomeOf(w, m.task, m.sup, m.shell);
      if o.Finished? {
        var last := Leave(w, m.frame, o.result, o.shell);
        DoneIs(w, last.result, last.shell);
      }
    }
  }

  /** A negation suppresses errexit in its command and turns the code around. */
  lemma PipelineIs(w: World, p: Pipeline, sup: bool, s: Shell)
    ensures var ignored := sup || p.bang;
            OutcomeOf(w, RunPipeline(p), sup, s)
            == match OutcomeOf(w, RunCommand(p.command), ignored, s)
               case OutOfFuel => OutOfFuel
               case Finished(Err(f), s1) => Finished(Err(f), s1)
               case Finished(Ok(result), s1) =>
                 Handled(w, Inverted(p.bang, result), ignored, s1.(status := Inverted(p.bang, result).code))
  {
    hide Value, Drive, Leave, Handled, EnterCommand;
    var ignored := sup || p.bang;
    CallIs(w, RunCommand(p.command), ignored, s, PipelineEnd(p.bang, ignored));
    var o := OutcomeOf(w, RunCommand(p.command), ignored, s);
    if o.Finished? {
      PipelineEndIs(w, p, sup, o.result, o.shell);
    }
  }

  /** Of a subshell, which starts outside of every handler, only the code and what is outside of shells
      come out. */
  lemma SubshellIs(w: World, list: CompoundList, sup: bool, s: Shell)
    ensures OutcomeOf(w, RunCommand(Subshell(list)), sup, s)
            == match OutcomeOf(w, RunList(list), sup, s.(subshells := s.subshells + 1, inErrTrap := false))
               case OutOfFuel => OutOfFuel
               case Finished(r, s1) =>
                 Finished(Ok(ExecutionResult(Normal, if r.Ok? then r.value.code else r.error.code)), s.(outside := s1.outside))
  {
    hide Value, Drive;
    CallIs(w, RunList(list), sup, Cloned(s), SubshellEnd(s, sup));
    var o := OutcomeOf(w, RunList(list), sup, Cloned(s));
    if o.Finished? {
      var m := Leave(w, SubshellEnd(s, sup), o.result, o.shell);
      DoneIs(w, m.result, m.shell);
    }
  }
}
