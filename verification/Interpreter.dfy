/** The interpreter as methods that change one shell in place, loop by loop as in
    brush-core/src/interp.rs and brush-core/src/commands.rs, each proved to do what the
    corresponding nested run does. */
module Interpreter {
  import opened Wrappers
  import opened Results
  import opened Interp
  import E = Environment

  /** Nothing if the fuel does not suffice. */
  type Answer = Option<Result<ExecutionResult, Failure>>

  /** The answer and the shell are those of an outcome. */
  predicate Gives(o: Outcome, answer: Answer, s: Shell) {
    match o
    case OutOfFuel => answer.None?
    case Finished(r, s') => answer == Some(r) && s == s'
  }

  /** One nested run inside a construct. */
  lemma CallGives(w: World, fuel: nat, m: Move, answer: Answer, s: Shell)
    requires m.Call? && fuel > 0 && Gives(Run(w, fuel - 1, m.task, m.sup, m.shell), answer, s)
    ensures Drive(w, fuel, m) == After(w, fuel - 1, m.frame, answer, s)
  {
    hide Enter, Leave;
  }

  /** What a waiting construct makes of the answer of its nested run. */
  function After(w: World, fuel: nat, f: Frame, answer: Answer, s: Shell): Outcome {
    if answer.None? then OutOfFuel else Drive(w, fuel, Leave(w, f, answer.value, s))
  }

  lemma FunctionTurn(w: World, f: Frame, r: Result<ExecutionResult, Failure>, s: Shell)
    requires f.FunctionEnd?
    ensures Leave(w, f, r, s) == LeaveFunction(f, r, s)
  {
  }

  lemma ProgramTurn(w: World, fuel: nat, f: Frame, answer: Answer, s: Shell)
    requires f.ProgramRest?
    ensures After(w, fuel, f, answer, s)
            == if answer.None? then OutOfFuel
               else Drive(w, fuel, NextProgram(f.program, Settled(answer.value, s), f.sup,
                                               s.(status := Settled(answer.value, s).code)))
  {
  }

  lemma ListTurn(w: World, fuel: nat, f: Frame, answer: Answer, s: Shell)
    requires f.ListRest?
    ensures After(w, fuel, f, answer, s)
            == if answer.None? then OutOfFuel
               else if answer.value.Err? then Finished(answer.value, s)
               else Drive(w, fuel, NextItem(f.list, answer.value.value, f.sup, s.(status := answer.value.value.code)))
  {
  }

  lemma PipelineTurn(w: World, fuel: nat, f: Frame, answer: Answer, s: Shell)
    requires f.AndOrRest?
    ensures After(w, fuel, f, answer, s)
            == if answer.None? then OutOfFuel
               else if answer.value.Err? then Finished(answer.value, s)
               else Drive(w, fuel, NextPipeline(f.additional, answer.value.value, f.sup, s))
  {
  }

  lemma TestTurn(w: World, fuel: nat, f: Frame, answer: Answer, s: Shell)
    requires f.WhileCondition?
    ensures After(w, fuel, f, answer, s)
            == if answer.None? then OutOfFuel
               else if answer.value.Err? then Finished(answer.value, s)
               else Drive(w, fuel, LeaveTest(f, answer.value.value, s))
  {
  }

  lemma BranchTurn(w: World, fuel: nat, f: Frame, answer: Answer, s: Shell)
    requires f.IfCondition?
    ensures After(w, fuel, f, answer, s)
            == if answer.None? then OutOfFuel
               else if answer.value.Err? || !answer.value.value.IsNormalFlow() then Finished(answer.value, s)
               else if answer.value.value.IsSuccess() then Drive(w, fuel, NextItem(f.thenBranch, SUCCESS, f.sup, s))
               else Drive(w, fuel, NextElse(f.elses, f.sup, s))
  {
  }

  /** What the end of a loop's body comes to: an error, the end of the loop, or its next turn. */
  function BodyTurn(w: World, fuel: nat, answer: Answer, s: Shell, next: ExecutionResult -> Move): Outcome {
    if answer.None? then OutOfFuel
    else if answer.value.Err? then Finished(answer.value, s)
    else
      var (last, over) := AfterBody(answer.value.value);
      if over then Finished(Ok(last), s.(status := last.code)) else Drive(w, fuel, next(last))
  }

  lemma ForTurn(w: World, fuel: nat, f: Frame, answer: Answer, s: Shell)
    requires f.ForBody?
    ensures After(w, fuel, f, answer, s)
            == BodyTurn(w, fuel, answer, s, last => NextValue(f.variable, f.values, f.body, last, f.sup, s))
  {
  }

  lemma WhileTurn(w: World, fuel: nat, f: Frame, answer: Answer, s: Shell)
    requires f.WhileBody?
    ensures After(w, fuel, f, answer, s)
            == BodyTurn(w, fuel, answer, s, last => NextTest(f.isWhile, f.condition, f.body, last, f.sup, s))
  {
  }

  /** In an arithmetic `for` the updater comes before the next turn. */
  lemma RoundTurn(w: World, fuel: nat, f: Frame, answer: Answer, s: Shell)
    requires f.ArithmeticBody?
    ensures var reply := Effect(w, f.updater, f.sup, s);
            After(w, fuel, f, answer, s)
            == BodyTurn(w, fuel, answer, s, last =>
                          if reply.value.Err? then Done(Err(reply.value.error), reply.shell)
                          else NextRound(w, f.test, f.updater, f.body, last, f.sup, reply.shell))
  {
  }

  class ShellInterpreter {
    const w: World
    var env: E.Stack
    var status: ExitCode
    var options: Options
    var errTrap: Option<Program>
    var inErrTrap: bool
    var callDepth: nat
    var subshells: nat
    var args: seq<string>
    var funcs: map<string, Command>
    var outside: seq<string>

    function State(): Shell
      reads this
    {
      Shell(env, status, options, errTrap, inErrTrap, callDepth, subshells, args, funcs, outside)
    }

    constructor (world: World, s: Shell)
      ensures w == world && State() == s
    {
      w := world;
      env, status, options, errTrap, inErrTrap := s.env, s.status, s.options, s.errTrap, s.inErrTrap;
      callDepth, subshells, args, funcs, outside := s.callDepth, s.subshells, s.args, s.funcs, s.outside;
    }

    method Install(s: Shell)
      modifies this
      ensures State() == s
    {
      env, status, options, errTrap, inErrTrap := s.env, s.status, s.options, s.errTrap, s.inErrTrap;
      callDepth, subshells, args, funcs, outside := s.callDepth, s.subshells, s.args, s.funcs, s.outside;
    }

    // ----- Lists, and-or lists, pipelines -------------------------------------------------------

    method ExecuteProgram(program: Program, sup: bool, fuel: nat) returns (answer: Answer)
      modifies this
      ensures Gives(Run(w, fuel, RunProgram(program), sup, old(State())), answer, State())
      decreases fuel, 3
    {
      hide EnterCommand, Leave;
      var result: ExecutionResult, k: nat, left: nat := SUCCESS, 0, fuel;
      while k < |program|
        invariant k <= |program| && left <= fuel && result.IsNormalFlow()
        invariant Run(w, fuel, RunProgram(program), sup, old(State()))
                  == Drive(w, left, NextProgram(program[k..], result, sup, State()))
      {
        if left == 0 {
          return None;
        }
        ghost var m := NextProgram(program[k..], result, sup, State());
        var one := ExecuteList(program[k], sup, left - 1);
        CallGives(w, left, m, one, State());
        ProgramTurn(w, left - 1, m.frame, one, State());
        if one.None? {
          return None;
        }
        result := Settled(one.value, State());
        status := result.code;
        assert program[k..][1..] == program[k + 1..];
        k, left := k + 1, left - 1;
        if !result.IsNormalFlow() {
          break;
        }
      }
      answer := Some(Ok(result));
    }

    method ExecuteList(list: CompoundList, sup: bool, fuel: nat) returns (answer: Answer)
      modifies this
      ensures Gives(Run(w, fuel, RunList(list), sup, old(State())), answer, State())
      decreases fuel, 0
    {
      hide EnterCommand, Leave;
      var result: ExecutionResult, rest, left: nat := SUCCESS, list, fuel;
      while rest.Item?
        invariant left <= fuel && result.IsNormalFlow()
        invariant Run(w, fuel, RunList(list), sup, old(State())) == Drive(w, left, NextItem(rest, result, sup, State()))
        decreases rest
      {
        if left == 0 {
          return None;
        }
        ghost var m := NextItem(rest, result, sup, State());
        var one := ExecuteAndOr(rest.first, sup, left - 1);
        CallGives(w, left, m, one, State());
        ListTurn(w, left - 1, m.frame, one, State());
        if one.None? || one.value.Err? {
          return one;
        }
        result := one.value.value;
        status := result.code;
        rest, left := rest.rest, left - 1;
        if !result.IsNormalFlow() {
          break;
        }
      }
      answer := Some(Ok(result));
    }

    method ExecuteAndOr(list: AndOrList, sup: bool, fuel: nat) returns (answer: Answer)
      modifies this
      ensures Gives(Run(w, fuel, RunAndOr(list), sup, old(State())), answer, State())
      decreases fuel, 0
    {
      hide EnterCommand, Leave;
      if fuel == 0 {
        return None;
      }
      ghost var first := Enter(w, RunAndOr(list), sup, State());
      answer := ExecutePipeline(list.first, sup || !list.additional.End?, fuel - 1);
      CallGives(w, fuel, first, answer, State());
      PipelineTurn(w, fuel - 1, first.frame, answer, State());
      if answer.None? || answer.value.Err? {
        return;
      }
      answer := ExecuteAdditional(list.additional, answer.value.value, sup, fuel - 1);
    }

    method ExecuteAdditional(additional: Additional, first: ExecutionResult, sup: bool, fuel: nat) returns (answer: Answer)
      modifies this
      ensures Gives(Drive(w, fuel, NextPipeline(additional, first, sup, old(State()))), answer, State())
      decreases fuel, 1
    {
      hide Enter, Leave;
      var result, rest, left: nat := first, additional, fuel;
      while !rest.End?
        invariant left <= fuel
        invariant Drive(w, fuel, NextPipeline(additional, first, sup, old(State())))
                  == Drive(w, left, NextPipeline(rest, result, sup, State()))
        decreases rest
      {
        if !result.IsNormalFlow() {
          break;
        }
        if rest.And? != result.IsSuccess() {
          rest := rest.rest;
          continue;
        }
        if left == 0 {
          return None;
        }
        ghost var m := NextPipeline(rest, result, sup, State());
        answer := ExecutePipeline(rest.next, sup || !rest.rest.End?, left - 1);
        CallGives(w, left, m, answer, State());
        PipelineTurn(w, left - 1, m.frame, answer, State());
        if answer.None? || answer.value.Err? {
          return;
        }
        result, rest, left := answer.value.value, rest.rest, left - 1;
      }
      answer := Some(Ok(result));
    }

    method ExecutePipeline(p: Pipeline, sup: bool, fuel: nat) returns (answer: Answer)
      modifies this
      ensures Gives(Run(w, fuel, RunPipeline(p), sup, old(State())), answer, State())
      decreases fuel, 0
    {
      hide EnterCommand;
      if fuel == 0 {
        return None;
      }
      var inner := sup || p.bang;
      ghost var m := Enter(w, RunPipeline(p), sup, State());
      answer := ExecuteCommand(p.command, inner, fuel - 1);
      CallGives(w, fuel, m, answer, State());
      if answer.None? || answer.value.Err? {
        return;
      }
      var result := answer.value.value;
      if p.bang {
        result := result.(code := if result.IsSuccess() then 1 else 0);
      }
      status := result.code;
      if !result.IsSuccess() && !inner && !p.bang && Delivers(State()) {
        var handled := InvokeErrTrap(inner, fuel - 1, result);
        if handled.None? || handled.value.Err? {
          return handled;
        }
      }
      answer := Some(Ok(WithErrexit(result, inner, p.bang, State())));
    }

    /** The status is afterwards what it was before. */
    method InvokeErrTrap(sup: bool, fuel: nat, ghost result: ExecutionResult) returns (answer: Answer)
      requires Delivers(State())
      modifies this
      ensures var s := old(State());
              var o := Drive(w, fuel, Call(RunProgram(s.errTrap.value), sup, s.(inErrTrap := true), TrapEnd(s.status, result, sup)));
              if answer.None? || answer.value.Err? then Gives(o, answer, State())
              else o == Finished(Ok(WithErrexit(result, sup, false, State())), State())
      decreases fuel, 0
    {
      if fuel == 0 {
        return None;
      }
      var saved := status;
      inErrTrap := true;
      ghost var m := Call(RunProgram(errTrap.value), sup, State(), TrapEnd(saved, result, sup));
      answer := ExecuteProgram(errTrap.value, sup, fuel - 1);
      CallGives(w, fuel, m, answer, State());
      inErrTrap := false;
      status := saved;
    }

    // ----- Compound commands --------------------------------------------------------------------

    method ExecuteCommand(c: Command, sup: bool, fuel: nat) returns (answer: Answer)
      modifies this
      ensures Gives(Run(w, fuel, RunCommand(c), sup, old(State())), answer, State())
      decreases fuel, 2
    {
      match c
      case Simple(assignments, words) => answer := ExecuteSimple(assignments, words, sup, fuel);
      case BraceGroup(list) => answer := ExecuteList(list, sup, fuel);
      case Subshell(list) => answer := ExecuteSubshell(list, sup, fuel);
      case ForClause(_, _, _) => answer := ExecuteFor(c, sup, fuel);
      case IfClause(_, _, _) => answer := ExecuteIf(c, sup, fuel);
      case WhileClause(_, _, _) => answer := ExecuteWhile(c, sup, fuel);
      case Arithmetic(expr) =>
        var reply := w.evaluate(expr, sup, State());
        Install(reply.shell);
        match reply.value {
          case Err(f) => answer := Some(Err(f));
          case Ok(n) =>
            status := if n != 0 then 0 else 1;
            answer := Some(Ok(ExecutionResult(Normal, status)));
        }
      case ArithmeticFor(_, _, _, _) => answer := ExecuteArithmeticFor(c, sup, fuel);
      case FunctionDefinition(name, body) =>
        if options.posix && name in w.builtins && w.builtins[name].special {
          return Some(Err(Failure(INVALID_USAGE, true)));
        }
        funcs := funcs[name := body];
        status := 0;
        answer := Some(Ok(SUCCESS));
    }

    method ExecuteSubshell(list: CompoundList, sup: bool, fuel: nat) returns (answer: Answer)
      modifies this
      ensures Gives(Run(w, fuel, RunCommand(Subshell(list)), sup, old(State())), answer, State())
      decreases fuel, 1
    {
      if fuel == 0 {
        return None;
      }
      var parent := State();
      subshells := subshells + 1;
      inErrTrap := false;
      ghost var m := Enter(w, RunCommand(Subshell(list)), sup, parent);
      var inner := ExecuteList(list, sup, fuel - 1);
      CallGives(w, fuel, m, inner, State());
      if inner.None? {
        return None;
      }
      var result := Settled(inner.value, State());
      Install(parent.(outside := outside));
      answer := Some(Ok(ExecutionResult(Normal, result.code)));
    }

    method ExecuteFor(c: Command, sup: bool, fuel: nat) returns (answer: Answer)
      requires c.ForClause?
      modifies this
      ensures Gives(Run(w, fuel, RunCommand(c), sup, old(State())), answer, State())
      decreases fuel, 1
    {
      var values := args;
      if c.values.Some? {
        var e := w.expandWords(c.values.value, sup, State());
        Install(e.shell);
        if e.value.Err? {
          return Some(Err(e.value.error));
        }
        values := e.value.value;
      }
      answer := ExecuteForEach(c, values, sup, fuel);
    }

    method ExecuteForEach(c: Command, expanded: seq<string>, sup: bool, fuel: nat) returns (answer: Answer)
      requires c.ForClause?
      modifies this
      ensures Gives(Drive(w, fuel, NextValue(c.variable, expanded, c.body, SUCCESS, sup, old(State()))), answer, State())
      decreases fuel, 0
    {
      hide Enter, Leave;
      var values := expanded;
      var result: ExecutionResult, left: nat := SUCCESS, fuel;
      while values != []
        invariant left <= fuel
        invariant Drive(w, fuel, NextValue(c.variable, expanded, c.body, SUCCESS, sup, old(State())))
                  == Drive(w, left, NextValue(c.variable, values, c.body, result, sup, State()))
        decreases |values|
      {
        var updated := E.Updated(env, c.variable, values[0], E.Anywhere, E.Global, false);
        if updated.Err? {
          return Some(Err(Failure(GENERAL_ERROR, false)));
        }
        if left == 0 {
          return None;
        }
        ghost var m := NextValue(c.variable, values, c.body, result, sup, State());
        env := updated.value;
        var one := ExecuteList(c.body, sup, left - 1);
        CallGives(w, left, m, one, State());
        ForTurn(w, left - 1, m.frame, one, State());
        if one.None? || one.value.Err? {
          return one;
        }
        result, left, values := one.value.value, left - 1, values[1..];
        if result.IsReturnOrExit() {
          break;
        }
        var isBreak := result.flow.BreakLoop?;
        result := result.(flow := Decremented(result.flow));
        if isBreak || result.flow.ContinueLoop? {
          break;
        }
      }
      status := result.code;
      answer := Some(Ok(result));
    }

    method ExecuteWhile(c: Command, sup: bool, fuel: nat) returns (answer: Answer)
      requires c.WhileClause?
      modifies this
      ensures Gives(Run(w, fuel, RunCommand(c), sup, old(State())), answer, State())
      decreases fuel, 1
    {
      hide Leave;
      var result: ExecutionResult, left: nat := SUCCESS, fuel;
      while true
        invariant left <= fuel
        invariant Run(w, fuel, RunCommand(c), sup, old(State()))
                  == Drive(w, left, NextTest(c.isWhile, c.condition, c.body, result, sup, State()))
        decreases left
      {
        var over := ExecuteTest(c, result, sup, left);
        if over.Some? {
          return over.value;
        }
        if left == 1 {
          return None;
        }
        ghost var m := Call(RunList(c.body), sup, State(), WhileBody(c.isWhile, c.condition, c.body, sup));
        var one := ExecuteList(c.body, sup, left - 2);
        CallGives(w, left - 1, m, one, State());
        WhileTurn(w, left - 2, m.frame, one, State());
        if one.None? || one.value.Err? {
          return one;
        }
        result, left := one.value.value, left - 2;
        if result.IsReturnOrExit() {
          break;
        }
        var isBreak := result.flow.BreakLoop?;
        result := result.(flow := Decremented(result.flow));
        if isBreak || result.flow.ContinueLoop? {
          break;
        }
      }
      status := result.code;
      answer := Some(Ok(result));
    }

    /** One run of the condition: nothing if the body is to run now, or else how the loop ends. */
    method ExecuteTest(c: Command, last: ExecutionResult, sup: bool, fuel: nat) returns (over: Option<Answer>)
      requires c.WhileClause?
      modifies this
      ensures var o := Drive(w, fuel, NextTest(c.isWhile, c.condition, c.body, last, sup, old(State())));
              match over
              case Some(answer) => Gives(o, answer, State())
              case None =>
                fuel > 0
                && o == Drive(w, fuel - 1, Call(RunList(c.body), sup, State(), WhileBody(c.isWhile, c.condition, c.body, sup)))
      decreases fuel, 0
    {
      hide Enter, Leave;
      if fuel == 0 {
        return Some(None);
      }
      ghost var m := NextTest(c.isWhile, c.condition, c.body, last, sup, State());
      var tested := ExecuteList(c.condition, true, fuel - 1);
      CallGives(w, fuel, m, tested, State());
      TestTurn(w, fuel - 1, m.frame, tested, State());
      if tested.None? || tested.value.Err? {
        return Some(tested);
      }
      var result := tested.value.value;
      status := result.code;
      if !result.IsNormalFlow() {
        return Some(Some(Ok(result.(flow := Decremented(result.flow)))));
      }
      if result.IsSuccess() != c.isWhile {
        status := last.code;
        return Some(Some(Ok(last)));
      }
      over := None;
    }

    method ExecuteArithmeticFor(c: Command, sup: bool, fuel: nat) returns (answer: Answer)
      requires c.ArithmeticFor?
      modifies this
      ensures Gives(Run(w, fuel, RunCommand(c), sup, old(State())), answer, State())
      decreases fuel, 1
    {
      var failed := Evaluate(c.initializer, sup);
      if failed.Some? {
        return Some(Err(failed.value));
      }
      answer := ExecuteRounds(c, sup, fuel);
    }

    method ExecuteRounds(c: Command, sup: bool, fuel: nat) returns (answer: Answer)
      requires c.ArithmeticFor?
      modifies this
      ensures Gives(Drive(w, fuel, NextRound(w, c.test, c.updater, c.body, SUCCESS, sup, old(State()))), answer, State())
      decreases fuel, 0
    {
      hide Enter, Leave;
      var result: ExecutionResult, left: nat := SUCCESS, fuel;
      while true
        invariant left <= fuel
        invariant Drive(w, fuel, NextRound(w, c.test, c.updater, c.body, SUCCESS, sup, old(State())))
                  == Drive(w, left, NextRound(w, c.test, c.updater, c.body, result, sup, State()))
        decreases left
      {
        var goesOn := EvaluateTest(c.test, sup);
        if goesOn.Err? {
          return Some(Err(goesOn.error));
        }
        if !goesOn.value {
          break;
        }
        if left == 0 {
          return None;
        }
        ghost var m := Call(RunList(c.body), sup, State(), ArithmeticBody(c.test, c.updater, c.body, sup));
        var one := ExecuteList(c.body, sup, left - 1);
        CallGives(w, left, m, one, State());
        RoundTurn(w, left - 1, m.frame, one, State());
        if one.None? || one.value.Err? {
          return one;
        }
        result, left := one.value.value, left - 1;
        if result.IsReturnOrExit() {
          break;
        }
        var isBreak := result.flow.BreakLoop?;
        result := result.(flow := Decremented(result.flow));
        if isBreak || result.flow.ContinueLoop? {
          break;
        }
        var failed := Evaluate(c.updater, sup);
        if failed.Some? {
          return Some(Err(failed.value));
        }
      }
      status := result.code;
      answer := Some(Ok(result));
    }

    method EvaluateTest(test: Option<string>, sup: bool) returns (goesOn: Result<bool, Failure>)
      modifies this
      ensures Reply(goesOn, State()) == TestOf(w, test, sup, old(State()))
    {
      if test.None? || test.value == "" {
        return Ok(true);
      }
      var reply := w.evaluate(test.value, sup, State());
      Install(reply.shell);
      goesOn := match reply.value
                case Err(f) => Err(f)
                case Ok(n) => Ok(n != 0);
    }

    /** Evaluates an optional expression for its effect. */
    method Evaluate(expr: Option<string>, sup: bool) returns (failed: Option<Failure>)
      modifies this
      ensures State() == Effect(w, expr, sup, old(State())).shell
      ensures match Effect(w, expr, sup, old(State())).value
              case Ok(_) => failed == None
              case Err(f) => failed == Some(f)
    {
      if expr.None? {
        return None;
      }
      var reply := w.evaluate(expr.value, sup, State());
      Install(reply.shell);
      failed := if reply.value.Err? then Some(reply.value.error) else None;
    }

    method ExecuteIf(c: Command, sup: bool, fuel: nat) returns (answer: Answer)
      requires c.IfClause?
      modifies this
      ensures Gives(Run(w, fuel, RunCommand(c), sup, old(State())), answer, State())
      decreases fuel, 1
    {
      hide Leave, EnterSimple, EnterFor, EnterArithmetic, EnterArithmeticFor, Define;
      if fuel == 0 {
        return None;
      }
      ghost var m := Enter(w, RunCommand(c), sup, State());
      var tested := ExecuteList(c.condition, true, fuel - 1);
      CallGives(w, fuel, m, tested, State());
      BranchTurn(w, fuel - 1, m.frame, tested, State());
      if tested.None? || tested.value.Err? || !tested.value.value.IsNormalFlow() {
        return tested;
      }
      var left: nat := fuel - 1;
      if tested.value.value.IsSuccess() {
        answer := ExecuteList(c.thenBranch, sup, left);
        return;
      }
      var elses := c.elses;
      while elses.ElseClause?
        invariant left < fuel
        invariant Run(w, fuel, RunCommand(c), sup, old(State())) == Drive(w, left, NextElse(elses, sup, State()))
        decreases elses
      {
        if elses.condition.None? {
          answer := ExecuteList(elses.body, sup, left);
          return;
        }
        if left == 0 {
          return None;
        }
        m := NextElse(elses, sup, State());
        tested := ExecuteList(elses.condition.value, true, left - 1);
        CallGives(w, left, m, tested, State());
        BranchTurn(w, left - 1, m.frame, tested, State());
        if tested.None? || tested.value.Err? || !tested.value.value.IsNormalFlow() {
          return tested;
        }
        left := left - 1;
        if tested.value.value.IsSuccess() {
          answer := ExecuteList(elses.body, sup, left);
          return;
        }
        elses := elses.rest;
      }
      status := 0;
      answer := Some(Ok(SUCCESS));
    }

    // ----- Simple commands ----------------------------------------------------------------------

    method ApplyAssignment(a: Assignment, prefix: bool, sup: bool) returns (r: Result<(), Failure>, setStatus: bool)
      modifies this
      ensures Expansion(r, setStatus, State()) == Assign(w, a, prefix, sup, old(State()))
    {
      var e := w.expandValue(a.value, sup, State());
      Install(e.shell);
      setStatus := e.setStatus;
      if e.value.Err? {
        return Err(e.value.error), setStatus;
      }
      var written := Written(env, a.name, e.value.value, prefix, options.allexport);
      if written.Err? {
        return Err(written.error), setStatus;
      }
      env := written.value;
      r := Ok(());
    }

    method ApplyAssignments(assignments: seq<Assignment>, prefix: bool, sup: bool)
      returns (r: Result<(), Failure>, setStatus: bool)
      modifies this
      ensures Expansion(r, setStatus, State()) == AssignAll(w, assignments, prefix, sup, old(State()))
    {
      setStatus := false;
      var k := 0;
      while k < |assignments|
        invariant k <= |assignments|
        invariant var rest := AssignAll(w, assignments[k..], prefix, sup, State());
                  AssignAll(w, assignments, prefix, sup, old(State())) == rest.(setStatus := setStatus || rest.setStatus)
      {
        assert assignments[k..][1..] == assignments[k + 1..];
        var one, setOne := ApplyAssignment(assignments[k], prefix, sup);
        setStatus := setStatus || setOne;
        if one.Err? {
          return one, setStatus;
        }
        k := k + 1;
      }
      r := Ok(());
    }

    method ExecuteSimple(assignments: seq<Assignment>, words: seq<string>, sup: bool, fuel: nat) returns (answer: Answer)
      modifies this
      ensures Gives(Run(w, fuel, RunCommand(Simple(assignments, words)), sup, old(State())), answer, State())
      decreases fuel, 1
    {
      var e := w.expandWords(words, sup, State());
      Install(e.shell);
      if e.value.Err? {
        return Some(Err(e.value.error));
      }
      if e.value.value != [] {
        answer := ExecuteInScope(assignments, e.value.value, sup, fuel);
        return;
      }
      var r, setStatus := ApplyAssignments(assignments, false, sup);
      if r.Err? {
        return Some(Err(r.error));
      }
      env := WithLastArg(env, "");
      if !e.setStatus && !setStatus {
        status := 0;
      }
      answer := Some(Ok(ExecutionResult(Normal, status)));
    }

    /** A command in a scope of its own. */
    method ExecuteInScope(assignments: seq<Assignment>, words: seq<string>, sup: bool, fuel: nat) returns (answer: Answer)
      requires words != []
      modifies this
      ensures Gives(Drive(w, fuel, Interp.ExecuteCommand(w, assignments, words, sup, old(State()))), answer, State())
      decreases fuel, 0, 2
    {
      env := Pushed(env, E.Command);
      var prefix, _ := ApplyAssignments(assignments, true, sup);
      if prefix.Err? {
        env := Popped(env);
        return Some(Ok(IntoResult(prefix.error, State())));
      }
      env := WithBashCommand(env, Joined(words));
      answer := DispatchCommand(words, sup, fuel);
    }

    method DispatchCommand(words: seq<string>, sup: bool, fuel: nat) returns (answer: Answer)
      requires words != []
      modifies this
      ensures Gives(Drive(w, fuel, Dispatch(w, words, sup, old(State()))), answer, State())
      decreases fuel, 0, 1
    {
      var name := CommandName(w, words);
      match Resolve(w, name, State())
      case Builtin(b) => answer := ExecuteViaBuiltin(b, words, sup);
      case ShellFunction(body) => answer := ExecuteViaFunction(body, words, sup, fuel);
      case External => answer := ExecuteViaExternal(name, words);
    }

    /** Sets `_` and takes off the command's scope. */
    method PostExecute(r: Result<ExecutionResult, Failure>, lastArg: string) returns (answer: Answer)
      modifies this`env
      ensures answer.Some? && Done(answer.value, State()) == LeaveScope(r, lastArg, old(State()))
    {
      env := WithLastArg(env, lastArg);
      env := Popped(env);
      answer := Some(Ok(Settled(r, State())));
    }

    method ExecuteViaBuiltin(b: Registration, words: seq<string>, sup: bool) returns (answer: Answer)
      modifies this
      ensures answer.Some? && Done(answer.value, State()) == RunBuiltin(b, words, sup, old(State()))
    {
      var fatal := b.special && options.posix;
      var reply := b.run(words, sup, State());
      Install(reply.shell);
      var r := if reply.value.Err? && fatal then Err(reply.value.error.(fatal := true)) else reply.value;
      answer := PostExecute(r, LastArg(words));
    }

    method ExecuteViaExternal(name: string, words: seq<string>) returns (answer: Answer)
      requires words != []
      modifies this
      ensures answer.Some? && Done(answer.value, State()) == RunExternal(w, name, words, old(State()))
    {
      var path := if '/' in name then Some(name) else w.findInPath(name, State());
      if path.None? {
        answer := PostExecute(Err(Failure(NOT_FOUND, false)), LastArg(words));
        return;
      }
      var spawned := w.spawn(path.value, words, State());
      outside := spawned.outside;
      var r := match spawned.code
               case Ok(code) => Ok(ExecutionResult(Normal, code))
               case Err(f) => Err(f);
      answer := PostExecute(r, LastArg(words));
    }

    method ExecuteViaFunction(body: Command, words: seq<string>, sup: bool, fuel: nat) returns (answer: Answer)
      requires words != []
      modifies this
      ensures Gives(Drive(w, fuel, EnterFunction(body, words, sup, old(State()))), answer, State())
      decreases fuel, 0, 0
    {
      hide Enter, Leave, LeaveFunction, LeaveScope;
      if options.maxCallDepth.Some? && callDepth >= options.maxCallDepth.value {
        answer := PostExecute(Err(Failure(GENERAL_ERROR, false)), LastArg(words));
        return;
      }
      if fuel == 0 {
        return None;
      }
      ghost var m := EnterFunction(body, words, sup, State());
      var saved := args;
      EnterCall(words);
      var called := ExecuteCommand(body, sup, fuel - 1);
      CallGives(w, fuel, m, called, State());
      if called.None? {
        return None;
      }
      FunctionTurn(w, m.frame, called.value, State());
      var r := LeaveCall(called.value, saved);
      answer := PostExecute(r, LastArg(words));
    }

    method EnterCall(words: seq<string>)
      requires words != []
      modifies this
      ensures var s := old(State());
              State() == s.(env := Pushed(s.env, E.Local), callDepth := s.callDepth + 1, args := words[1..])
    {
      callDepth := callDepth + 1;
      args := words[1..];
      env := Pushed(env, E.Local);
    }

    /** A call stack that is out of step with the scopes is left as it is. */
    method LeaveCall(result: Result<ExecutionResult, Failure>, saved: seq<string>) returns (r: Result<ExecutionResult, Failure>)
      modifies this
      ensures forall lastArg, sup ::
                LeaveFunction(FunctionEnd(saved, lastArg, sup), result, old(State())) == LeaveScope(r, lastArg, State())
    {
      if env == [] || !env[|env| - 1].scope.Local? {
        env := Popped(env);
        return Err(Failure(GENERAL_ERROR, false));
      }
      env := Popped(env);
      callDepth := if callDepth > 0 then callDepth - 1 else 0;
      args := saved;
      r := FunctionResult(result);
    }
  }
}
