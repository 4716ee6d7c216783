/** What a run asks of the world: the expansions, builtins, searches and processes that it really
    gets to, and the shells in which it does. Conditions on a run are conditions on these and on
    nothing that the run does not use. */
module Requests {
  import opened Wrappers
  import opened Results
  import opened Interp
  import E = Environment

  /** A function definition asks whether its name is free. */
  datatype Request =
    | Words(words: seq<string>, sup: bool, shell: Shell)
    | Value(text: string, sup: bool, shell: Shell)
    | Expression(expr: string, sup: bool, shell: Shell)
    | BuiltinCall(name: string, args: seq<string>, sup: bool, shell: Shell)
    | PathSearch(name: string, shell: Shell)
    | Spawning(file: string, args: seq<string>, shell: Shell)
    | Definition(name: string, shell: Shell)

  // ----- Commands -------------------------------------------------------------------------------

  function OfAssignments(w: World, assignments: seq<Assignment>, prefix: bool, sup: bool, s: Shell): set<Request> {
    if assignments == [] then {}
    else
      var e := Assign(w, assignments[0], prefix, sup, s);
      {Value(assignments[0].value, sup, s)}
      + if e.value.Err? then {} else OfAssignments(w, assignments[1..], prefix, sup, e.shell)
  }

  function OfExternal(w: World, name: string, args: seq<string>, s: Shell): set<Request> {
    var path := if '/' in name then Some(name) else w.findInPath(name, s);
    (if '/' in name then {} else {PathSearch(name, s)})
    + if path.None? then {} else {Spawning(path.value, args, s)}
  }

  function OfDispatch(w: World, args: seq<string>, sup: bool, s: Shell): set<Request>
    requires args != []
  {
    var name := CommandName(w, args);
    match Resolve(w, name, s)
    case Builtin(_) => {BuiltinCall(name, args, sup, s)}
    case ShellFunction(_) => {}
    case External => OfExternal(w, name, args, s)
  }

  function OfCommand(w: World, assignments: seq<Assignment>, args: seq<string>, sup: bool, s: Shell): set<Request>
    requires args != []
  {
    var s' := s.(env := Pushed(s.env, E.Command));
    var e := AssignAll(w, assignments, true, sup, s');
    OfAssignments(w, assignments, true, sup, s')
    + if e.value.Err? then {}
      else OfDispatch(w, args, sup, e.shell.(env := WithBashCommand(e.shell.env, Joined(args))))
  }

  function OfSimple(w: World, assignments: seq<Assignment>, words: seq<string>, sup: bool, s: Shell): set<Request> {
    var e := w.expandWords(words, sup, s);
    {Words(words, sup, s)}
    + if e.value.Err? then {}
      else if e.value.value == [] then OfAssignments(w, assignments, false, sup, e.shell)
      else OfCommand(w, assignments, e.value.value, sup, e.shell)
  }

  function OfTest(test: Option<string>, sup: bool, s: Shell): set<Request> {
    if test == None || test.value == "" then {} else {Expression(test.value, sup, s)}
  }

  function OfEffect(expr: Option<string>, sup: bool, s: Shell): set<Request> {
    if expr.None? then {} else {Expression(expr.value, sup, s)}
  }

  /** The updater or the initializer of an arithmetic `for`, and the test behind it. */
  function OfRound(w: World, expr: Option<string>, test: Option<string>, sup: bool, s: Shell): set<Request> {
    var reply := Effect(w, expr, sup, s);
    OfEffect(expr, sup, s) + if reply.value.Err? then {} else OfTest(test, sup, reply.shell)
  }

  function OfEnterCommand(w: World, c: Command, sup: bool, s: Shell): set<Request> {
    match c
    case Simple(assignments, words) => OfSimple(w, assignments, words, sup, s)
    case ForClause(_, Some(values), _) => {Words(values, sup, s)}
    case Arithmetic(expr) => {Expression(expr, sup, s)}
    case ArithmeticFor(initializer, test, _, _) => OfRound(w, initializer, test, sup, s)
    case FunctionDefinition(name, _) => {Definition(name, s)}
    case _ => {}
  }

  function OfEnter(w: World, task: Task, sup: bool, s: Shell): set<Request> {
    if task.RunCommand? then OfEnterCommand(w, task.command, sup, s) else {}
  }

  function OfLeave(w: World, f: Frame, r: Result<ExecutionResult, Failure>, s: Shell): set<Request> {
    if f.ArithmeticBody? && r.Ok? && !AfterBody(r.value).1 then OfRound(w, f.updater, f.test, f.sup, s) else {}
  }

  // ----- Whole runs -----------------------------------------------------------------------------

  function OfDrive(w: World, fuel: nat, m: Move): set<Request> {
    match m
    case Done(_, _) => {}
    case Call(task, sup, s, frame) =>
      if fuel == 0 then {}
      else
        OfEnter(w, task, sup, s)
        + OfDrive(w, fuel - 1, Enter(w, task, sup, s))
        + match Drive(w, fuel - 1, Enter(w, task, sup, s))
          case OutOfFuel => {}
          case Finished(r, s') => OfLeave(w, frame, r, s') + OfDrive(w, fuel - 1, Leave(w, frame, r, s'))
  }

  /** All that a run asks for. */
  function OfRun(w: World, fuel: nat, task: Task, sup: bool, s: Shell): set<Request> {
    OfEnter(w, task, sup, s) + OfDrive(w, fuel, Enter(w, task, sup, s))
  }

  // ----- Nothing else matters -------------------------------------------------------------------

  /** Two worlds with the same names for builtins. */
  ghost predicate SameNames(w: World, v: World) {
    && w.builtins.Keys == v.builtins.Keys
    && forall name | name in w.builtins ::
         w.builtins[name].special == v.builtins[name].special && w.builtins[name].disabled == v.builtins[name].disabled
  }

  predicate SameReply(w: World, v: World, q: Request) {
    match q
    case Words(words, sup, s) => w.expandWords(words, sup, s) == v.expandWords(words, sup, s)
    case Value(text, sup, s) => w.expandValue(text, sup, s) == v.expandValue(text, sup, s)
    case Expression(expr, sup, s) => w.evaluate(expr, sup, s) == v.evaluate(expr, sup, s)
    case BuiltinCall(name, args, sup, s) =>
      name in w.builtins && name in v.builtins ==> w.builtins[name].run(args, sup, s) == v.builtins[name].run(args, sup, s)
    case PathSearch(name, s) => w.findInPath(name, s) == v.findInPath(name, s)
    case Spawning(file, args, s) => w.spawn(file, args, s) == v.spawn(file, args, s)
    case Definition(_, _) => true
  }

  ghost predicate SameReplies(w: World, v: World, requests: set<Request>) {
    SameNames(w, v) && forall q | q in requests :: SameReply(w, v, q)
  }

  lemma {:induction false} AssignmentsNeed(w: World, v: World, assignments: seq<Assignment>, prefix: bool, sup: bool, s: Shell)
    requires SameReplies(w, v, OfAssignments(w, assignments, prefix, sup, s))
    ensures AssignAll(v, assignments, prefix, sup, s) == AssignAll(w, assignments, prefix, sup, s)
  {
    if assignments != [] {
      assert SameReply(w, v, Value(assignments[0].value, sup, s));
      var e := Assign(w, assignments[0], prefix, sup, s);
      if e.value.Ok? {
        AssignmentsNeed(w, v, assignments[1..], prefix, sup, e.shell);
      }
    }
  }

  lemma DispatchNeeds(w: World, v: World, args: seq<string>, sup: bool, s: Shell)
    requires args != [] && SameReplies(w, v, OfDispatch(w, args, sup, s))
    ensures Dispatch(v, args, sup, s) == Dispatch(w, args, sup, s)
  {
    hide LeaveScope;
    var name := CommandName(w, args);
    match Resolve(w, name, s)
    case Builtin(_) => assert SameReply(w, v, BuiltinCall(name, args, sup, s));
    case ShellFunction(_) =>
    case External =>
      assert '/' in name || SameReply(w, v, PathSearch(name, s));
      var path := if '/' in name then Some(name) else w.findInPath(name, s);
      assert path.None? || SameReply(w, v, Spawning(path.value, args, s));
  }

  lemma SimpleNeeds(w: World, v: World, assignments: seq<Assignment>, words: seq<string>, sup: bool, s: Shell)
    requires SameReplies(w, v, OfSimple(w, assignments, words, sup, s))
    ensures EnterSimple(v, assignments, words, sup, s) == EnterSimple(w, assignments, words, sup, s)
  {
    hide Dispatch, OfDispatch, OfAssignments, AssignAll;
    var e := w.expandWords(words, sup, s);
    assert SameReply(w, v, Words(words, sup, s));
    if e.value.Ok? {
      if e.value.value == [] {
        AssignmentsNeed(w, v, assignments, false, sup, e.shell);
      } else {
        var s' := e.shell.(env := Pushed(e.shell.env, E.Command));
        AssignmentsNeed(w, v, assignments, true, sup, s');
        var g := AssignAll(w, assignments, true, sup, s');
        if g.value.Ok? {
          DispatchNeeds(w, v, e.value.value, sup, g.shell.(env := WithBashCommand(g.shell.env, Joined(e.value.value))));
        }
      }
    }
  }

  lemma RoundNeeds(w: World, v: World, expr: Option<string>, test: Option<string>, sup: bool, s: Shell)
    requires SameReplies(w, v, OfRound(w, expr, test, sup, s))
    ensures Effect(v, expr, sup, s) == Effect(w, expr, sup, s)
    ensures var reply := Effect(w, expr, sup, s);
            reply.value.Ok? ==> TestOf(v, test, sup, reply.shell) == TestOf(w, test, sup, reply.shell)
  {
    var reply := Effect(w, expr, sup, s);
    assert expr.None? || SameReply(w, v, Expression(expr.value, sup, s));
    assert reply.value.Err? || test == None || test.value == "" || SameReply(w, v, Expression(test.value, sup, reply.shell));
  }

  lemma EnterNeeds(w: World, v: World, task: Task, sup: bool, s: Shell)
    requires SameReplies(w, v, OfEnter(w, task, sup, s))
    ensures Enter(v, task, sup, s) == Enter(w, task, sup, s)
  {
    hide EnterSimple, OfSimple, OfRound, Effect, TestOf;
    if task.RunCommand? {
      match task.command
      case Simple(assignments, words) => SimpleNeeds(w, v, assignments, words, sup, s);
      case ForClause(_, Some(values), _) => assert SameReply(w, v, Words(values, sup, s));
      case Arithmetic(expr) => assert SameReply(w, v, Expression(expr, sup, s));
      case ArithmeticFor(initializer, test, _, _) => RoundNeeds(w, v, initializer, test, sup, s);
      case _ =>
    }
  }

  lemma LeaveNeeds(w: World, v: World, f: Frame, r: Result<ExecutionResult, Failure>, s: Shell)
    requires SameReplies(w, v, OfLeave(w, f, r, s))
    ensures Leave(v, f, r, s) == Leave(w, f, r, s)
  {
    hide OfRound, Effect, TestOf, LeaveScope;
    if f.ArithmeticBody? && r.Ok? && !AfterBody(r.value).1 {
      RoundNeeds(w, v, f.updater, f.test, f.sup, s);
    }
  }

  lemma {:induction false} DriveNeeds(w: World, v: World, fuel: nat, m: Move)
    requires SameReplies(w, v, OfDrive(w, fuel, m))
    ensures Drive(v, fuel, m) == Drive(w, fuel, m)
    decreases fuel
  {
    hide Enter, Leave, OfEnter, OfLeave, SameReply;
    if m.Call? && fuel > 0 {
      var inner := Enter(w, m.task, m.sup, m.shell);
      EnterNeeds(w, v, m.task, m.sup, m.shell);
      DriveNeeds(w, v, fuel - 1, inner);
      var o := Drive(w, fuel - 1, inner);
      if o.Finished? {
        LeaveNeeds(w, v, m.frame, o.result, o.shell);
        DriveNeeds(w, v, fuel - 1, Leave(w, m.frame, o.result, o.shell));
      }
    }
  }

  /** A run is determined by the replies to what it asks for: a world that gives it the same
      replies runs it to the same outcome, whatever else differs. */
  lemma RunNeedsItsRequestsOnly(w: World, v: World, fuel: nat, task: Task, sup: bool, s: Shell)
    requires SameReplies(w, v, OfRun(w, fuel, task, sup, s))
    ensures Run(v, fuel, task, sup, s) == Run(w, fuel, task, sup, s)
  {
    hide Enter, Drive, OfEnter, OfDrive, SameReply;
    EnterNeeds(w, v, task, sup, s);
    DriveNeeds(w, v, fuel, Enter(w, task, sup, s));
  }
}
