/** The interpreter for compound lists, and-or lists, pipelines of one command and compound
    commands (brush-core/src/interp.rs), with simple commands and function calls
    (brush-core/src/commands.rs). What a construct does is cut at the points where it runs a
    nested construct: `Enter` is what happens before the first nested run, `Leave` is what
    happens after one, given the frame that was waiting for it. */
module Interp {
  import opened Wrappers
  import opened Results
  import E = Environment

  // ----- Programs -------------------------------------------------------------------------------

  datatype Assignment = Assignment(name: string, value: string)

  datatype CompoundList = Nothing | Item(first: AndOrList, rest: CompoundList)

  datatype AndOrList = AndOrList(first: Pipeline, additional: Additional)

  datatype Additional = End | And(next: Pipeline, rest: Additional) | Or(next: Pipeline, rest: Additional)

  datatype Pipeline = Pipeline(bang: bool, command: Command)

  datatype Command =
    | Simple(assignments: seq<Assignment>, words: seq<string>)
    | BraceGroup(list: CompoundList)
    | Subshell(list: CompoundList)
    | ForClause(variable: string, values: Option<seq<string>>, body: CompoundList)
    | IfClause(condition: CompoundList, thenBranch: CompoundList, elses: Elses)
    | WhileClause(isWhile: bool, condition: CompoundList, body: CompoundList)
    | Arithmetic(expr: string)
    | ArithmeticFor(initializer: Option<string>, test: Option<string>, updater: Option<string>, body: CompoundList)
    | FunctionDefinition(name: string, definition: Command)

  datatype Elses = NoElse | ElseClause(condition: Option<CompoundList>, body: CompoundList, rest: Elses)

  type Program = seq<CompoundList>

  // ----- The shell and the world ----------------------------------------------------------------

  datatype Options = Options(errexit: bool, errtrace: bool, posix: bool, interactive: bool, allexport: bool,
                             maxCallDepth: Option<nat>)

  /** `outside` is all that a subshell shares with its parent: files, processes, output. */
  datatype Shell = Shell(
    env: E.Stack,
    status: ExitCode,
    options: Options,
    errTrap: Option<Program>,
    inErrTrap: bool,
    callDepth: nat,
    subshells: nat,
    args: seq<string>,
    funcs: map<string, Command>,
    outside: seq<string>)

  datatype Reply<+T> = Reply(value: Result<T, Failure>, shell: Shell)

  /** The outcome of an expansion; `setStatus` tells whether a command substitution in it set
      the status. */
  datatype Expansion<+T> = Expansion(value: Result<T, Failure>, setStatus: bool, shell: Shell)

  datatype Registration = Registration(special: bool, disabled: bool,
                                       run: (seq<string>, bool, Shell) -> Reply<ExecutionResult>)

  /** An external command only sees the shell; all it changes is outside. */
  datatype Spawned = Spawned(code: Result<ExitCode, Failure>, outside: seq<string>)

  /** What the interpreter calls and this model does not look into. Each is told whether
      errexit is suppressed, since it may run commands of its own. */
  datatype World = World(
    expandWords: (seq<string>, bool, Shell) -> Expansion<seq<string>>,
    expandValue: (string, bool, Shell) -> Expansion<string>,
    evaluate: (string, bool, Shell) -> Reply<int>,
    builtins: map<string, Registration>,
    findInPath: (string, Shell) -> Option<string>,
    spawn: (string, seq<string>, Shell) -> Spawned)

  // ----- Machine --------------------------------------------------------------------------------

  /** A nested run. */
  datatype Task =
    | RunProgram(program: Program)
    | RunList(list: CompoundList)
    | RunAndOr(andOr: AndOrList)
    | RunPipeline(pipeline: Pipeline)
    | RunCommand(command: Command)

  /** What waits for a nested run; `sup` is the suppress_errexit flag of the waiting construct. */
  datatype Frame =
    | ProgramRest(program: Program, sup: bool)
    | ListRest(list: CompoundList, sup: bool)
    | AndOrRest(additional: Additional, sup: bool)
    | PipelineEnd(bang: bool, sup: bool)
    | TrapEnd(status: ExitCode, result: ExecutionResult, sup: bool)
    | SubshellEnd(parent: Shell, sup: bool)
    | ForBody(variable: string, values: seq<string>, body: CompoundList, sup: bool)
    | WhileCondition(isWhile: bool, condition: CompoundList, body: CompoundList, last: ExecutionResult, sup: bool)
    | WhileBody(isWhile: bool, condition: CompoundList, body: CompoundList, sup: bool)
    | ArithmeticBody(test: Option<string>, updater: Option<string>, body: CompoundList, sup: bool)
    | IfCondition(thenBranch: CompoundList, elses: Elses, sup: bool)
    | FunctionEnd(args: seq<string>, lastArg: string, sup: bool)

  datatype Move =
    | Done(result: Result<ExecutionResult, Failure>, shell: Shell)
    | Call(task: Task, sup: bool, shell: Shell, frame: Frame)

  function Completed(result: ExecutionResult, s: Shell): Move { Done(Ok(result), s) }

  /** The end of a construct that sets the status to its own result. */
  function Ended(result: ExecutionResult, s: Shell): Move {
    Done(Ok(result), s.(status := result.code))
  }

  /** An error becomes a result; a fatal one ends the shell. */
  function IntoResult(f: Failure, s: Shell): ExecutionResult {
    ExecutionResult(if f.fatal && !s.options.interactive then ExitShell else Normal, f.code)
  }

  function Settled(r: Result<ExecutionResult, Failure>, s: Shell): ExecutionResult {
    match r
    case Ok(result) => result
    case Err(f) => IntoResult(f, s)
  }

  // ----- Lists, and-or lists, pipelines ---------------------------------------------------------

  function NextProgram(program: Program, last: ExecutionResult, sup: bool, s: Shell): Move {
    if program == [] || !last.IsNormalFlow() then Completed(last, s)
    else Call(RunList(program[0]), sup, s, ProgramRest(program[1..], sup))
  }

  function NextItem(list: CompoundList, last: ExecutionResult, sup: bool, s: Shell): Move {
    if list.Nothing? || !last.IsNormalFlow() then Completed(last, s)
    else Call(RunAndOr(list.first), sup, s, ListRest(list.rest, sup))
  }

  /** The next pipeline that is not short-circuited. */
  function NextPipeline(additional: Additional, last: ExecutionResult, sup: bool, s: Shell): Move {
    if additional.End? || !last.IsNormalFlow() then Completed(last, s)
    else if additional.And? != last.IsSuccess() then NextPipeline(additional.rest, last, sup, s)
    else Call(RunPipeline(additional.next), sup || !additional.rest.End?, s, AndOrRest(additional.rest, sup))
  }

  /** Whether a handler for ERR would run. */
  predicate Delivers(s: Shell) {
    s.errTrap.Some? && !s.inErrTrap && ((s.callDepth == 0 && s.subshells == 0) || s.options.errtrace)
  }

  function WithErrexit(result: ExecutionResult, sup: bool, bang: bool, s: Shell): ExecutionResult {
    if !sup && !bang && s.options.errexit && !result.IsSuccess() && result.IsNormalFlow()
    then result.(flow := ExitShell)
    else result
  }

  function LeavePipeline(bang: bool, sup: bool, result: ExecutionResult, s: Shell): Move {
    var final := if bang then result.(code := if result.IsSuccess() then 1 else 0) else result;
    var s' := s.(status := final.code);
    if !final.IsSuccess() && !sup && !bang && Delivers(s')
    then Call(RunProgram(s'.errTrap.value), sup, s'.(inErrTrap := true), TrapEnd(s'.status, final, sup))
    else Completed(WithErrexit(final, sup, bang, s'), s')
  }

  // ----- Loops and branches ---------------------------------------------------------------------

  /** What the end of a loop body means: the result with one level used up, and whether the
      loop is over. */
  function AfterBody(result: ExecutionResult): (ExecutionResult, bool) {
    if result.IsReturnOrExit() then (result, true)
    else
      var next := result.(flow := Decremented(result.flow));
      (next, result.flow.BreakLoop? || next.flow.ContinueLoop?)
  }

  function NextValue(variable: string, values: seq<string>, body: CompoundList, last: ExecutionResult, sup: bool,
                     s: Shell): Move
  {
    if values == [] then Ended(last, s)
    else
      match E.Updated(s.env, variable, values[0], E.Anywhere, E.Global, false)
      case Err(_) => Done(Err(Failure(GENERAL_ERROR, false)), s)
      case Ok(env) => Call(RunList(body), sup, s.(env := env), ForBody(variable, values[1..], body, sup))
  }

  function NextTest(isWhile: bool, condition: CompoundList, body: CompoundList, last: ExecutionResult, sup: bool,
                    s: Shell): Move
  {
    Call(RunList(condition), true, s, WhileCondition(isWhile, condition, body, last, sup))
  }

  function LeaveTest(f: Frame, result: ExecutionResult, s: Shell): Move
    requires f.WhileCondition?
  {
    var s' := s.(status := result.code);
    if !result.IsNormalFlow() then Ended(result.(flow := Decremented(result.flow)), s')
    else if result.IsSuccess() != f.isWhile then Ended(f.last, s')
    else Call(RunList(f.body), f.sup, s', WhileBody(f.isWhile, f.condition, f.body, f.sup))
  }

  /** An empty test is true. */
  function TestOf(w: World, test: Option<string>, sup: bool, s: Shell): Reply<bool> {
    if test == None || test.value == "" then Reply(Ok(true), s)
    else
      var reply := w.evaluate(test.value, sup, s);
      match reply.value
      case Err(f) => Reply(Err(f), reply.shell)
      case Ok(n) => Reply(Ok(n != 0), reply.shell)
  }

  function NextRound(w: World, test: Option<string>, updater: Option<string>, body: CompoundList,
                     last: ExecutionResult, sup: bool, s: Shell): Move
  {
    var reply := TestOf(w, test, sup, s);
    match reply.value
    case Err(f) => Done(Err(f), reply.shell)
    case Ok(goesOn) =>
      if goesOn then Call(RunList(body), sup, reply.shell, ArithmeticBody(test, updater, body, sup))
      else Ended(last, reply.shell)
  }

  /** Evaluates an optional expression for its effect. */
  function Effect(w: World, expr: Option<string>, sup: bool, s: Shell): Reply<int> {
    if expr.None? then Reply(Ok(0), s) else w.evaluate(expr.value, sup, s)
  }

  function LeaveRound(w: World, f: Frame, result: ExecutionResult, s: Shell): Move
    requires f.ArithmeticBody?
  {
    var (last, over) := AfterBody(result);
    if over then Ended(last, s)
    else
      var reply := Effect(w, f.updater, f.sup, s);
      match reply.value
      case Err(e) => Done(Err(e), reply.shell)
      case Ok(_) => NextRound(w, f.test, f.updater, f.body, last, f.sup, reply.shell)
  }

  function NextElse(elses: Elses, sup: bool, s: Shell): Move {
    match elses
    case NoElse => Ended(SUCCESS, s)
    case ElseClause(None, body, _) => NextItem(body, SUCCESS, sup, s)
    case ElseClause(Some(condition), body, rest) => Call(RunList(condition), true, s, IfCondition(body, rest, sup))
  }

  function LeaveIf(f: Frame, result: ExecutionResult, s: Shell): Move
    requires f.IfCondition?
  {
    if !result.IsNormalFlow() then Completed(result, s)
    else if result.IsSuccess() then NextItem(f.thenBranch, SUCCESS, f.sup, s)
    else NextElse(f.elses, f.sup, s)
  }

  // ----- Assignments ----------------------------------------------------------------------------

  /** Writes an expanded value. A prefix assignment writes to the scope of its command, or to an
      outer command's scope if that is where the name is visible, and exports. */
  function Written(env: E.Stack, name: string, value: string, prefix: bool, allexport: bool): Result<E.Stack, Failure> {
    var found := E.Lookup(env, name, E.Anywhere);
    if found.Some? && (!prefix || env[found.value].scope.Command?) then
      if env[found.value].vars[name].readonly then Err(Failure(GENERAL_ERROR, false))
      else Ok(E.SetIn(env, found.value, name, E.Assigned(env[found.value].vars[name], value, prefix || allexport)))
    else
      match E.Added(env, name, E.Variable(E.Str(value), prefix || allexport, false),
                    if prefix then E.Command else E.Global, false)
      case Err(_) => Err(Failure(GENERAL_ERROR, false))
      case Ok(env') => Ok(env')
  }

  function Assign(w: World, a: Assignment, prefix: bool, sup: bool, s: Shell): Expansion<()> {
    var e := w.expandValue(a.value, sup, s);
    match e.value
    case Err(f) => Expansion(Err(f), e.setStatus, e.shell)
    case Ok(value) =>
      match Written(e.shell.env, a.name, value, prefix, e.shell.options.allexport)
      case Err(f) => Expansion(Err(f), e.setStatus, e.shell)
      case Ok(env) => Expansion(Ok(()), e.setStatus, e.shell.(env := env))
  }

  /** Several assignments from left to right, up to the first that fails. */
  function AssignAll(w: World, assignments: seq<Assignment>, prefix: bool, sup: bool, s: Shell): Expansion<()> {
    if assignments == [] then Expansion(Ok(()), false, s)
    else
      var e := Assign(w, assignments[0], prefix, sup, s);
      if e.value.Err? then e
      else
        var rest := AssignAll(w, assignments[1..], prefix, sup, e.shell);
        rest.(setStatus := e.setStatus || rest.setStatus)
  }

  // ----- Simple commands ------------------------------------------------------------------------

  /** Recording the last argument of a command in `_`. */
  function WithLastArg(env: E.Stack, lastArg: string): E.Stack {
    var v := E.Read(env, "_", E.Anywhere);
    if v.Some? && v.value.readonly then env
    else
      match E.Added(env, "_", E.Variable(E.Str(lastArg), false, false), E.Global, false)
      case Ok(env') => env'
      case Err(_) => env
  }

  function WithBashCommand(env: E.Stack, text: string): E.Stack {
    match E.Updated(env, "BASH_COMMAND", text, E.Anywhere, E.Global, false)
    case Ok(env') => env'
    case Err(_) => env
  }

  function Joined(words: seq<string>): string {
    if words == [] then "" else if |words| == 1 then words[0] else words[0] + " " + Joined(words[1..])
  }

  function Pushed(env: E.Stack, scope: E.Scope): E.Stack { env + [E.Frame(scope, map[])] }

  /** The frame goes whatever its kind is. */
  function Popped(env: E.Stack): E.Stack {
    if env == [] then env else env[..|env| - 1]
  }

  /** The end of a command in its own scope: `_` is set, the scope goes, an error becomes a
      result. */
  function LeaveScope(r: Result<ExecutionResult, Failure>, lastArg: string, s: Shell): Move {
    var s' := s.(env := Popped(WithLastArg(s.env, lastArg)));
    Completed(Settled(r, s'), s')
  }

  /** A registered name of two words takes precedence over its first word. */
  function CommandName(w: World, args: seq<string>): string
    requires args != []
  {
    if |args| >= 2 && args[0] + " " + args[1] in w.builtins then args[0] + " " + args[1] else args[0]
  }

  function LastArg(args: seq<string>): string {
    if args == [] then "" else args[|args| - 1]
  }

  /** What a command name stands for. */
  datatype Target = Builtin(registration: Registration) | ShellFunction(body: Command) | External

  function Resolve(w: World, name: string, s: Shell): Target {
    if s.options.posix && name in w.builtins && !w.builtins[name].disabled && w.builtins[name].special
    then Builtin(w.builtins[name])
    else if name in s.funcs then ShellFunction(s.funcs[name])
    else if name in w.builtins && !w.builtins[name].disabled then Builtin(w.builtins[name])
    else External
  }

  function RunBuiltin(b: Registration, args: seq<string>, sup: bool, s: Shell): Move {
    var reply := b.run(args, sup, s);
    var r := if reply.value.Err? && b.special && s.options.posix then Err(reply.value.error.(fatal := true))
             else reply.value;
    LeaveScope(r, LastArg(args), reply.shell)
  }

  function RunExternal(w: World, name: string, args: seq<string>, s: Shell): Move {
    var path := if '/' in name then Some(name) else w.findInPath(name, s);
    match path
    case None => LeaveScope(Err(Failure(NOT_FOUND, false)), LastArg(args), s)
    case Some(file) =>
      var spawned := w.spawn(file, args, s);
      var r := match spawned.code
               case Ok(code) => Ok(ExecutionResult(Normal, code))
               case Err(f) => Err(f);
      LeaveScope(r, LastArg(args), s.(outside := spawned.outside))
  }

  function EnterFunction(body: Command, args: seq<string>, sup: bool, s: Shell): Move
    requires args != []
  {
    if s.options.maxCallDepth.Some? && s.callDepth >= s.options.maxCallDepth.value
    then LeaveScope(Err(Failure(GENERAL_ERROR, false)), LastArg(args), s)
    else Call(RunCommand(body), sup,
              s.(env := Pushed(s.env, E.Local), callDepth := s.callDepth + 1, args := args[1..]),
              FunctionEnd(s.args, LastArg(args), sup))
  }

  /** A function takes a return for itself and lets no signal to a loop out. */
  function FunctionResult(r: Result<ExecutionResult, Failure>): Result<ExecutionResult, Failure> {
    if r.Err? then r
    else if r.value.flow.BreakLoop? || r.value.flow.ContinueLoop? then Err(Failure(UNIMPLEMENTED, false))
    else if r.value.flow.ReturnFromFunctionOrScript? then Ok(r.value.(flow := Normal))
    else r
  }

  /** Back in the caller, with the caller's arguments. */
  function Returned(args: seq<string>, s: Shell): Shell {
    s.(env := Popped(s.env), callDepth := if s.callDepth > 0 then s.callDepth - 1 else 0, args := args)
  }

  function LeaveFunction(f: Frame, r: Result<ExecutionResult, Failure>, s: Shell): Move
    requires f.FunctionEnd?
  {
    if s.env == [] || !s.env[|s.env| - 1].scope.Local?
    then LeaveScope(Err(Failure(GENERAL_ERROR, false)), f.lastArg, s.(env := Popped(s.env)))
    else LeaveScope(FunctionResult(r), f.lastArg, Returned(f.args, s))
  }

  function Dispatch(w: World, args: seq<string>, sup: bool, s: Shell): Move
    requires args != []
  {
    var name := CommandName(w, args);
    match Resolve(w, name, s)
    case Builtin(b) => RunBuiltin(b, args, sup, s)
    case ShellFunction(body) => EnterFunction(body, args, sup, s)
    case External => RunExternal(w, name, args, s)
  }

  /** A command with words: its own scope, its prefix assignments, and what its name stands for. */
  function ExecuteCommand(w: World, assignments: seq<Assignment>, args: seq<string>, sup: bool, s: Shell): Move
    requires args != []
  {
    var e := AssignAll(w, assignments, true, sup, s.(env := Pushed(s.env, E.Command)));
    match e.value
    case Err(f) =>
      var s' := e.shell.(env := Popped(e.shell.env));
      Completed(IntoResult(f, s'), s')
    case Ok(_) => Dispatch(w, args, sup, e.shell.(env := WithBashCommand(e.shell.env, Joined(args))))
  }

  /** No command: the assignments are for the shell itself. */
  function AssignOnly(w: World, assignments: seq<Assignment>, setStatus: bool, sup: bool, s: Shell): Move {
    var e := AssignAll(w, assignments, false, sup, s);
    match e.value
    case Err(f) => Done(Err(f), e.shell)
    case Ok(_) =>
      var s' := e.shell.(env := WithLastArg(e.shell.env, ""),
                         status := if setStatus || e.setStatus then e.shell.status else 0);
      Completed(ExecutionResult(Normal, s'.status), s')
  }

  function EnterSimple(w: World, assignments: seq<Assignment>, words: seq<string>, sup: bool, s: Shell): Move {
    var e := w.expandWords(words, sup, s);
    match e.value
    case Err(f) => Done(Err(f), e.shell)
    case Ok(args) =>
      if args == [] then AssignOnly(w, assignments, e.setStatus, sup, e.shell)
      else ExecuteCommand(w, assignments, args, sup, e.shell)
  }

  // ----- Entering and leaving -------------------------------------------------------------------

  function EnterFor(w: World, variable: string, values: Option<seq<string>>, body: CompoundList, sup: bool, s: Shell): Move {
    if values.None? then NextValue(variable, s.args, body, SUCCESS, sup, s)
    else
      var e := w.expandWords(values.value, sup, s);
      match e.value
      case Err(f) => Done(Err(f), e.shell)
      case Ok(expanded) => NextValue(variable, expanded, body, SUCCESS, sup, e.shell)
  }

  function EnterArithmetic(w: World, expr: string, sup: bool, s: Shell): Move {
    var reply := w.evaluate(expr, sup, s);
    match reply.value
    case Err(f) => Done(Err(f), reply.shell)
    case Ok(n) => Ended(ExecutionResult(Normal, if n != 0 then 0 else 1), reply.shell)
  }

  function EnterArithmeticFor(w: World, c: Command, sup: bool, s: Shell): Move
    requires c.ArithmeticFor?
  {
    var reply := Effect(w, c.initializer, sup, s);
    match reply.value
    case Err(f) => Done(Err(f), reply.shell)
    case Ok(_) => NextRound(w, c.test, c.updater, c.body, SUCCESS, sup, reply.shell)
  }

  /** In POSIX mode a function cannot take the name of a special builtin. */
  function Define(w: World, name: string, body: Command, s: Shell): Move {
    if s.options.posix && name in w.builtins && w.builtins[name].special
    then Done(Err(Failure(INVALID_USAGE, true)), s)
    else Ended(SUCCESS, s.(funcs := s.funcs[name := body]))
  }

  /** A subshell starts as a copy that is in no trap handler. */
  function Cloned(s: Shell): Shell { s.(subshells := s.subshells + 1, inErrTrap := false) }

  function EnterCommand(w: World, c: Command, sup: bool, s: Shell): Move {
    match c
    case Simple(assignments, words) => EnterSimple(w, assignments, words, sup, s)
    case BraceGroup(list) => NextItem(list, SUCCESS, sup, s)
    case Subshell(list) => Call(RunList(list), sup, Cloned(s), SubshellEnd(s, sup))
    case ForClause(variable, values, body) => EnterFor(w, variable, values, body, sup, s)
    case IfClause(condition, thenBranch, elses) => Call(RunList(condition), true, s, IfCondition(thenBranch, elses, sup))
    case WhileClause(isWhile, condition, body) => NextTest(isWhile, condition, body, SUCCESS, sup, s)
    case Arithmetic(expr) => EnterArithmetic(w, expr, sup, s)
    case ArithmeticFor(_, _, _, _) => EnterArithmeticFor(w, c, sup, s)
    case FunctionDefinition(name, body) => Define(w, name, body, s)
  }

  function Enter(w: World, task: Task, sup: bool, s: Shell): Move {
    match task
    case RunProgram(program) => NextProgram(program, SUCCESS, sup, s)
    case RunList(list) => NextItem(list, SUCCESS, sup, s)
    case RunAndOr(list) => Call(RunPipeline(list.first), sup || !list.additional.End?, s, AndOrRest(list.additional, sup))
    case RunPipeline(p) => Call(RunCommand(p.command), sup || p.bang, s, PipelineEnd(p.bang, sup || p.bang))
    case RunCommand(c) => EnterCommand(w, c, sup, s)
  }

  function LeaveProgram(f: Frame, r: Result<ExecutionResult, Failure>, s: Shell): Move
    requires f.ProgramRest?
  {
    var result := Settled(r, s);
    NextProgram(f.program, result, f.sup, s.(status := result.code))
  }

  /** Only the exit code comes out of a subshell. */
  function LeaveSubshell(f: Frame, r: Result<ExecutionResult, Failure>, s: Shell): Move
    requires f.SubshellEnd?
  {
    Completed(ExecutionResult(Normal, Settled(r, s).code), f.parent.(outside := s.outside))
  }

  /** The handler's own result is not looked at, and the status is what it was before. */
  function LeaveTrap(f: Frame, r: Result<ExecutionResult, Failure>, s: Shell): Move
    requires f.TrapEnd?
  {
    var s' := s.(inErrTrap := false, status := f.status);
    match r
    case Err(e) => Done(Err(e), s')
    case Ok(_) => Completed(WithErrexit(f.result, f.sup, false, s'), s')
  }

  function LeaveForBody(f: Frame, result: ExecutionResult, s: Shell): Move
    requires f.ForBody?
  {
    var (last, over) := AfterBody(result);
    if over then Ended(last, s) else NextValue(f.variable, f.values, f.body, last, f.sup, s)
  }

  function LeaveWhileBody(f: Frame, result: ExecutionResult, s: Shell): Move
    requires f.WhileBody?
  {
    var (last, over) := AfterBody(result);
    if over then Ended(last, s) else NextTest(f.isWhile, f.condition, f.body, last, f.sup, s)
  }

  /** Four frames look at errors; the others pass them on. */
  function Leave(w: World, f: Frame, r: Result<ExecutionResult, Failure>, s: Shell): Move {
    if f.ProgramRest? then LeaveProgram(f, r, s)
    else if f.SubshellEnd? then LeaveSubshell(f, r, s)
    else if f.TrapEnd? then LeaveTrap(f, r, s)
    else if f.FunctionEnd? then LeaveFunction(f, r, s)
    else if r.Err? then Done(r, s)
    else LeaveOk(w, f, r.value, s)
  }

  predicate CatchesErrors(f: Frame) { f.ProgramRest? || f.SubshellEnd? || f.TrapEnd? || f.FunctionEnd? }

  function LeaveOk(w: World, f: Frame, result: ExecutionResult, s: Shell): Move
    requires !CatchesErrors(f)
  {
    match f
    case ListRest(list, sup) => NextItem(list, result, sup, s.(status := result.code))
    case AndOrRest(additional, sup) => NextPipeline(additional, result, sup, s)
    case PipelineEnd(bang, sup) => LeavePipeline(bang, sup, result, s)
    case ForBody(_, _, _, _) => LeaveForBody(f, result, s)
    case WhileCondition(_, _, _, _, _) => LeaveTest(f, result, s)
    case WhileBody(_, _, _, _) => LeaveWhileBody(f, result, s)
    case ArithmeticBody(_, _, _, _) => LeaveRound(w, f, result, s)
    case IfCondition(_, _, _) => LeaveIf(f, result, s)
  }

  // ----- Whole runs -----------------------------------------------------------------------------

  datatype Outcome = OutOfFuel | Finished(result: Result<ExecutionResult, Failure>, shell: Shell)

  /** Carries a move through. Every nested run uses up one unit of fuel. */
  function Drive(w: World, fuel: nat, m: Move): Outcome {
    match m
    case Done(r, s) => Finished(r, s)
    case Call(task, sup, s, frame) =>
      if fuel == 0 then OutOfFuel
      else
        match Drive(w, fuel - 1, Enter(w, task, sup, s))
        case OutOfFuel => OutOfFuel
        case Finished(r, s') => Drive(w, fuel - 1, Leave(w, frame, r, s'))
  }

  lemma DriveCall(w: World, fuel: nat, m: Move, o: Outcome)
    requires m.Call? && fuel > 0 && Drive(w, fuel - 1, Enter(w, m.task, m.sup, m.shell)) == o
    ensures Drive(w, fuel, m)
            == if o.OutOfFuel? then o else Drive(w, fuel - 1, Leave(w, m.frame, o.result, o.shell))
  {
  }

  function Run(w: World, fuel: nat, task: Task, sup: bool, s: Shell): Outcome {
    Drive(w, fuel, Enter(w, task, sup, s))
  }
}
