/** What the name of a command stands for (brush-core/src/commands.rs:366-448 and 751-800,
    brush-core/src/interp.rs:1130-1425). */
module Commands {
  import opened Wrappers
  import opened Results
  import opened Interp
  import opened Meaning
  import E = Environment

  /** A simple command comes to the look-up of its name: its words have been expanded, to some at least,
      and its prefix assignments have been made in a scope of its own. */
  ghost predicate LooksUp(w: World, assignments: seq<Assignment>, words: seq<string>, sup: bool, s: Shell, args: seq<string>,
                          s1: Shell)
  {
    var e := w.expandWords(words, sup, s);
    && e.value == Ok(args) && args != []
    && var a := AssignAll(w, assignments, true, sup, e.shell.(env := Pushed(e.shell.env, E.Command)));
       a.value.Ok? && s1 == a.shell.(env := WithBashCommand(a.shell.env, Joined(args)))
  }

  /** The name is the first word, or the first two if a builtin is registered under both, enabled or not. */
  predicate IsNamed(w: World, args: seq<string>, name: string) {
    if |args| > 1 && args[0] + " " + args[1] in w.builtins then name == args[0] + " " + args[1] else args != [] && name == args[0]
  }

  predicate IsEnabled(w: World, name: string) { name in w.builtins && !w.builtins[name].disabled }

  /** In POSIX mode a special builtin comes before a function. */
  predicate IsFunction(w: World, name: string, s: Shell) {
    name in s.funcs && !(s.options.posix && IsEnabled(w, name) && w.builtins[name].special)
  }

  predicate IsBuiltin(w: World, name: string, s: Shell) { IsEnabled(w, name) && !IsFunction(w, name, s) }

  lemma EnterIs(w: World, assignments: seq<Assignment>, words: seq<string>, sup: bool, s: Shell, args: seq<string>, s1: Shell)
    requires LooksUp(w, assignments, words, sup, s, args, s1)
    ensures Enter(w, RunCommand(Simple(assignments, words)), sup, s) == Dispatch(w, args, sup, s1)
  {
  }

  /** Where the limit of calls allows it, the body of a function is entered exactly if the name stands for
      that function; with the other words as arguments, in a scope of its own. */
  lemma FunctionIff(w: World, assignments: seq<Assignment>, words: seq<string>, sup: bool, s: Shell, args: seq<string>,
                    name: string, s1: Shell, body: Command)
    requires LooksUp(w, assignments, words, sup, s, args, s1) && IsNamed(w, args, name)
    requires s1.options.maxCallDepth.Some? ==> s1.callDepth < s1.options.maxCallDepth.value
    ensures var m := Enter(w, RunCommand(Simple(assignments, words)), sup, s);
            && ((m.Call? && m.frame.FunctionEnd? && m.task == RunCommand(body))
                <==> IsFunction(w, name, s1) && s1.funcs[name] == body)
            && (m.Call? ==>
                  && m.shell == s1.(env := s1.env + [E.Frame(E.Local, map[])], callDepth := s1.callDepth + 1, args := args[1..])
                  && m.frame == FunctionEnd(s1.args, args[|args| - 1], sup))
  {
    hide WithBashCommand, AssignAll;
    EnterIs(w, assignments, words, sup, s, args, s1);
  }

  /** After the definition of a function, the next command of that name enters its body, as long as what
      the command expands to changes neither functions nor POSIX mode. */
  lemma DefinedIsCalled(w: World, name: string, body: Command, words: seq<string>, sup: bool, s: Shell, s': Shell,
                        args: seq<string>, s1: Shell)
    requires OutcomeOf(w, RunCommand(FunctionDefinition(name, body)), sup, s) == Finished(Ok(SUCCESS), s')
    requires LooksUp(w, [], words, sup, s', args, s1) && IsNamed(w, args, name)
    requires s1.funcs == s'.funcs && s1.options == s'.options
    requires s1.options.maxCallDepth.Some? ==> s1.callDepth < s1.options.maxCallDepth.value
    ensures var m := Enter(w, RunCommand(Simple([], words)), sup, s'); m.Call? && m.frame.FunctionEnd? && m.task == RunCommand(body)
  {
    hide LooksUp, Value;
    DefinitionIs(w, name, body, sup, s);
    FunctionIff(w, [], words, sup, s', args, name, s1, body);
  }

  /** In POSIX mode, the name of a special builtin cannot be given to a function, and trying it is fatal. */
  lemma DefinitionIs(w: World, name: string, body: Command, sup: bool, s: Shell)
    ensures OutcomeOf(w, RunCommand(FunctionDefinition(name, body)), sup, s)
            == if s.options.posix && name in w.builtins && w.builtins[name].special
               then Finished(Err(Failure(INVALID_USAGE, true)), s)
               else Finished(Ok(SUCCESS), s.(funcs := s.funcs[name := body], status := 0))
  {
    hide Value;
    var m := Enter(w, RunCommand(FunctionDefinition(name, body)), sup, s);
    DoneIs(w, m.result, m.shell);
  }

  /** The shell that a command leaves: the last argument is recorded, and the command's scope is gone. */
  function Behind(args: seq<string>, s: Shell): Shell
    requires args != []
  {
    var env := WithLastArg(s.env, args[|args| - 1]);
    s.(env := if env == [] then env else env[..|env| - 1])
  }

  function AsResult(f: Failure, s: Shell): ExecutionResult {
    ExecutionResult(if f.fatal && !s.options.interactive then ExitShell else Normal, f.code)
  }

  /** Else an enabled builtin is the one that runs; a failure of a special one is fatal in POSIX mode. */
  lemma BuiltinIs(w: World, assignments: seq<Assignment>, words: seq<string>, sup: bool, s: Shell, args: seq<string>,
                  name: string, s1: Shell)
    requires LooksUp(w, assignments, words, sup, s, args, s1) && IsNamed(w, args, name) && IsBuiltin(w, name, s1)
    ensures var reply := w.builtins[name].run(args, sup, s1);
            var s2 := Behind(args, reply.shell);
            var fatal := w.builtins[name].special && s1.options.posix;
            OutcomeOf(w, RunCommand(Simple(assignments, words)), sup, s)
            == match reply.value
               case Ok(result) => Finished(Ok(result), s2)
               case Err(f) => Finished(Ok(AsResult(f.(fatal := f.fatal || fatal), s2)), s2)
  {
    hide WithBashCommand, AssignAll, Value, WithLastArg;
    EnterIs(w, assignments, words, sup, s, args, s1);
    var m := Dispatch(w, args, sup, s1);
    DoneIs(w, m.result, m.shell);
  }

  /** Else a program is run, by its path or by the search for its name; if none is found, the code is 127. */
  lemma ExternalIs(w: World, assignments: seq<Assignment>, words: seq<string>, sup: bool, s: Shell, args: seq<string>,
                   name: string, s1: Shell)
    requires LooksUp(w, assignments, words, sup, s, args, s1) && IsNamed(w, args, name)
    requires !IsFunction(w, name, s1) && !IsBuiltin(w, name, s1)
    ensures var found := w.findInPath(name, s1);
            var path := if '/' in name || found.None? then name else found.value;
            var spawned := w.spawn(path, args, s1);
            OutcomeOf(w, RunCommand(Simple(assignments, words)), sup, s)
            == if '/' !in name && found.None? then Finished(Ok(ExecutionResult(Normal, 127)), Behind(args, s1))
               else
                 var s2 := Behind(args, s1.(outside := spawned.outside));
                 match spawned.code
                 case Ok(code) => Finished(Ok(ExecutionResult(Normal, code)), s2)
                 case Err(f) => Finished(Ok(AsResult(f, s2)), s2)
  {
    hide WithBashCommand, AssignAll, Value, WithLastArg;
    EnterIs(w, assignments, words, sup, s, args, s1);
    var m := Dispatch(w, args, sup, s1);
    DoneIs(w, m.result, m.shell);
  }

  /** What a call comes to, when its body leaves the scope of the call on top: a return is its normal end, a
      signal to loops is an error, and the caller has its arguments back. */
  lemma CallComesTo(w: World, assignments: seq<Assignment>, words: seq<string>, sup: bool, s: Shell, args: seq<string>,
                    name: string, s1: Shell)
    requires LooksUp(w, assignments, words, sup, s, args, s1) && IsNamed(w, args, name) && IsFunction(w, name, s1)
    requires s1.options.maxCallDepth.Some? ==> s1.callDepth < s1.options.maxCallDepth.value
    ensures var inside := s1.(env := s1.env + [E.Frame(E.Local, map[])], callDepth := s1.callDepth + 1, args := args[1..]);
            match OutcomeOf(w, RunCommand(s1.funcs[name]), sup, inside)
            case OutOfFuel => OutcomeOf(w, RunCommand(Simple(assignments, words)), sup, s) == OutOfFuel
            case Finished(r, s2) =>
              s2.env != [] && s2.env[|s2.env| - 1].scope.Local? && s2.callDepth > 0 ==>
                var s3 := Behind(args, s2.(env := s2.env[..|s2.env| - 1], callDepth := s2.callDepth - 1, args := s1.args));
                OutcomeOf(w, RunCommand(Simple(assignments, words)), sup, s)
                == match r
                   case Err(f) => Finished(Ok(AsResult(f, s3)), s3)
                   case Ok(result) =>
                     match result.flow
                     case Normal => Finished(Ok(result), s3)
                     case ReturnFromFunctionOrScript => Finished(Ok(ExecutionResult(Normal, result.code)), s3)
                     case ExitShell => Finished(Ok(result), s3)
                     case _ => Finished(Ok(ExecutionResult(Normal, 99)), s3)
  {
    hide WithBashCommand, AssignAll, Value, Drive, WithLastArg;
    FunctionIff(w, assignments, words, sup, s, args, name, s1, s1.funcs[name]);
    var m := Enter(w, RunCommand(Simple(assignments, words)), sup, s);
    CallIs(w, m.task, sup, m.shell, m.frame);
    var o := OutcomeOf(w, m.task, sup, m.shell);
    if o.Finished? {
      var last := Leave(w, m.frame, o.result, o.shell);
      DoneIs(w, last.result, last.shell);
    }
  }

  /** Beyond the limit of calls, a function is not entered. */
  lemma TooDeep(w: World, assignments: seq<Assignment>, words: seq<string>, sup: bool, s: Shell, args: seq<string>,
                name: string, s1: Shell)
    requires LooksUp(w, assignments, words, sup, s, args, s1) && IsNamed(w, args, name) && IsFunction(w, name, s1)
    requires s1.options.maxCallDepth.Some? && s1.callDepth >= s1.options.maxCallDepth.value
    ensures OutcomeOf(w, RunCommand(Simple(assignments, words)), sup, s)
            == Finished(Ok(ExecutionResult(Normal, GENERAL_ERROR)), Behind(args, s1))
  {
    hide WithBashCommand, AssignAll, Value, WithLastArg;
    EnterIs(w, assignments, words, sup, s, args, s1);
    var m := Dispatch(w, args, sup, s1);
    DoneIs(w, m.result, m.shell);
  }

  /** Words that do not expand are an error; where a prefix assignment fails, the command is not looked up
      and its scope goes. */
  lemma NotLookedUp(w: World, assignments: seq<Assignment>, words: seq<string>, sup: bool, s: Shell)
    ensures var e := w.expandWords(words, sup, s);
            var a := AssignAll(w, assignments, true, sup, e.shell.(env := Pushed(e.shell.env, E.Command)));
            var popped := a.shell.(env := if a.shell.env == [] then [] else a.shell.env[..|a.shell.env| - 1]);
            match e.value
            case Err(f) => OutcomeOf(w, RunCommand(Simple(assignments, words)), sup, s) == Finished(Err(f), e.shell)
            case Ok(args) =>
              args != [] && a.value.Err? ==>
                OutcomeOf(w, RunCommand(Simple(assignments, words)), sup, s)
                == Finished(Ok(AsResult(a.value.error, popped)), popped)
  {
    hide WithBashCommand, AssignAll, Value, WithLastArg, Dispatch, AssignOnly;
    var m := Enter(w, RunCommand(Simple(assignments, words)), sup, s);
    if m.Done? {
      DoneIs(w, m.result, m.shell);
    }
  }

  /** With no word left there is no command: the assignments are for the shell, the last argument is empty,
      and the status is 0 unless a command substitution has set it. */
  lemma NoCommandIs(w: World, assignments: seq<Assignment>, words: seq<string>, sup: bool, s: Shell)
    requires w.expandWords(words, sup, s).value == Ok([])
    ensures var e := w.expandWords(words, sup, s);
            var a := AssignAll(w, assignments, false, sup, e.shell);
            OutcomeOf(w, RunCommand(Simple(assignments, words)), sup, s)
            == match a.value
               case Err(f) => Finished(Err(f), a.shell)
               case Ok(_) =>
                 var code: ExitCode := if e.setStatus || a.setStatus then a.shell.status else 0;
                 Finished(Ok(ExecutionResult(Normal, code)), a.shell.(env := WithLastArg(a.shell.env, ""), status := code))
  {
    hide AssignAll, Value, WithLastArg;
    var m := Enter(w, RunCommand(Simple(assignments, words)), sup, s);
    DoneIs(w, m.result, m.shell);
  }
}
