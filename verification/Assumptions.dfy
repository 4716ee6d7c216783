/** What the interpreter's lemmas take as given of builtins, expansions and the calls of a run holds
    together, in a world in which expansion has effects; and what they rule out otherwise does
    happen. */
module Assumptions {
  import opened Wrappers
  import opened Results
  import opened Interp
  import E = Environment
  import opened Requests
  import Scopes
  import Suppression
  import Survival

  lemma HoldTogether(requests: set<Request>)
    ensures Scopes.KeepsShape(Suppression.NOISY)
    ensures Suppression.AllIndifferent(Suppression.NOISY, requests) && Survival.NoneAsks(Suppression.NOISY, requests)
    ensures exists words, s: Shell :: Suppression.NOISY.expandWords(words, true, s).shell != s
  {
    Suppression.NoisyIsIndifferent(requests);
    var s := Suppression.TRAPPED;
    assert |Suppression.NOISY.expandWords([], true, s).shell.outside| == 1;
  }

  // ----- Exits that are asked for do happen -----------------------------------------------------

  const EXITING: World := Suppression.NOISY.(
    expandWords := (words: seq<string>, sup, s) => Expansion(Ok(words), false, s),
    builtins := map["exit" := Registration(true, false, (args, sup, s) => Reply(Ok(ExecutionResult(ExitShell, 3)), s))])

  const ASKING: CompoundList := Item(AndOrList(Pipeline(false, Simple([], ["exit"])), End), Nothing)

  lemma ExitIsCalled(s: Shell)
    requires s == Suppression.TRAPPED
    ensures EnterSimple(EXITING, [], ["exit"], true, s) == Completed(ExecutionResult(ExitShell, 3), s)
  {
    var inScope := s.(env := Pushed(s.env, E.Command));
    assert E.Lookup(inScope.env, "BASH_COMMAND", E.Anywhere) == None;
    assert WithBashCommand(inScope.env, "exit") == inScope.env;
    assert WithLastArg(inScope.env, "exit") == inScope.env;
    assert Popped(inScope.env) == s.env;
    assert CommandName(EXITING, ["exit"]) == "exit";
  }

  lemma AskedExitHappens()
    ensures Run(EXITING, 4, RunList(ASKING), true, Suppression.TRAPPED).Finished?
    ensures !Survival.Stays(Run(EXITING, 4, RunList(ASKING), true, Suppression.TRAPPED).result)
  {
    hide EnterSimple;
    var w, s := EXITING, Suppression.TRAPPED;
    var r := Ok(ExecutionResult(ExitShell, 3));
    ExitIsCalled(s);
    Suppression.CallIs(w, 2, Enter(w, RunPipeline(ASKING.first.first), true, s), r, s);
    Suppression.CallIs(w, 3, Enter(w, RunAndOr(ASKING.first), true, s), r, s.(status := 3));
    Suppression.CallIs(w, 4, Enter(w, RunList(ASKING), true, s), r, s.(status := 3));
  }

  /** `if exit; then ...` ends the shell, and something that the condition called asked for it. */
  lemma ConditionCanExit()
    ensures var w, s := EXITING, Suppression.TRAPPED;
            && Enter(w, RunCommand(IfClause(ASKING, Nothing, NoElse)), false, s)
               == Call(RunList(ASKING), true, s, IfCondition(Nothing, NoElse, false))
            && Run(w, 4, RunList(ASKING), true, s).Finished?
            && !Survival.Stays(Run(w, 4, RunList(ASKING), true, s).result)
            && exists q <- OfRun(w, 4, RunList(ASKING), true, s) :: Survival.AsksForExit(w, q)
  {
    hide Run, OfRun, Survival.AsksForExit;
    var w, s := EXITING, Suppression.TRAPPED;
    var m := Call(RunList(ASKING), true, s, IfCondition(Nothing, NoElse, false));
    AskedExitHappens();
    Survival.ConditionExitsOnlyIfAsked(w, 4, RunCommand(IfClause(ASKING, Nothing, NoElse)), false, m.frame, Ok(SUCCESS), s, m);
  }
}
