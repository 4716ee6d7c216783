# marsh: a verified model

This project models the logic of marsh, a bash-compatible shell whose jobs run as transactions in
snapshots of one seed tree, and proves properties of it with Dafny 4.11. `dafny verify dfyconfig.toml`
checks all of it. Nothing in it runs marsh.

Nine pieces are modelled, each in the modules named:

1. **Transactions** (`Trees`, `Files`, `Replay`, `Links`, `Commit`, `Recovery`, `Incidents`,
   `Transactions`, `Serial`): the difference of two trees and its application in a file system with
   links; the write-ahead log, with what a restart makes of it after a crash at any point, also a crash
   of the restart itself; and the staleness check of concurrent jobs. A merge is atomic under every
   crash exactly if its removals can be carried out again, and every history of concurrent jobs is
   serial.
2. **The interpreter** (`Results`, `Interp`, `Machine`, `Interpreter`): compound lists, and-or lists,
   pipelines of one command, compound commands, simple commands, prefix assignments, functions, the
   ERR trap. `Interp` cuts each construct at the points where it runs a nested one: `Enter` is what
   comes before the first nested run, `Leave` what comes after one. From these come nested runs with
   fuel (`Drive`) and a machine with a stack of waiting frames (`Machine`), proved to agree;
   `Interpreter` is a class whose methods change one shell in place, with the loops of the source,
   proved against the nested runs.
3. **What the interpreter does and keeps** (`Meaning`, `Commands`, `Requests`, `Signals`, `ControlFlow`, `Exits`, `Suppression`,
   `Survival`, `Scopes`, `Prefix`): what each construct comes to in terms of its parts, and what a
   command name stands for; how far `break`, `continue`, `return`, `exit` and errexit reach,
   with negations and ERR handlers on the way; what `suppress_errexit` means, as a property of one
   run and of what that run calls; the balance of scopes, call depth and trap handlers in every
   reachable configuration; where prefix assignments go.
4. **Arithmetic** (`Arithmetic`, `Operators`, `Evaluator`, `Wrapping`, `Decimal`): evaluation with side
   effects that reads the text of variables as expressions again, the laws of the operators, and
   exponentiation by squaring.
5. **The environment** (`Environment`): a stack of scopes with four lookup policies.
6. **Expansion** (`Expansion`, `Substring`): field splitting and `${x:offset:length}`.
7. **Quoting** (`Escape`, `Decoding`, `Quote`, `AnsiC`): the printers, the escape decoder, and both against each
   other.
8. **Scanners** (`Getopts`, `Read`, `Completion`): `getopts`, `read` and the completion tokenizer.
9. **History** (`History`, `Search`, `HistoryFile`): the store, the filtered cursor and the text format.

`Wrappers` holds `Option` and `Result`. `Assumptions` shows that what the lemmas of piece 3 take as given
of builtins, expansions and calls holds together, and that a condition does exit when it asks for it;
`Incidents.IncidentsFit` shows disks on which the merges of `Incidents` fit.

## Where the code is not what one would expect

These are facts about the code, each proved; the model follows the code.

- Recovery is not idempotent when a merge turns a directory into a file: if everything is applied but
  the end is not logged, the replayed removal of `d/f` runs through the file `d`, which is an error
  other than "not found", and no restart gets through (`Recovery.RecoverableIff`).
- When a merge turns the directory `d` into a link, the replayed removal of `d/f` follows the link. If
  it leads to nothing, or to what the merge itself brings, as after `mv d e; ln -s e d`, that is
  harmless (`Recovery.RecoverableIff`, `Incidents.MovedDirectoryRecovers`). If it leads to another
  directory of the seed, by its name or by its absolute path, the restart succeeds and has removed a
  file that the merge never touched (`Incidents.RestartLosesFile`). If it leads to a directory outside
  the seed, the seed ends right, and a file outside is gone (`Incidents.RestartLosesForeignFile`). If
  it leads back into the snapshot, the source of a later move can be taken, and the new content is gone
  (`Incidents.RestartLosesSource`). If it leads to a file, no restart gets through
  (`Incidents.RestartMeetsFile`). `Recovery.CrashIsAtomicIff` is the exact condition, for all trees,
  links and crashes.
- Files are copied with a call that takes regular files only, so a merge that writes a fifo, a socket or
  a device can neither be carried out nor recovered (`Links.MergeIsExactIff`, `Recovery.RecoverableIff`).
- The hash in the log covers content and not the mode, and a replay without the snapshot is without
  effect only if each removed path leads to nothing in the new tree (`Links.ReplayIsIdleIff`).
- A job that writes is refused as soon as any path it left alone has been changed by another merge
  (`Serial.DisjointWritersConflict`); the user documentation says so too.
- `continue` in the condition of a `while` ends that loop (`ControlFlow.ContinueResumesLoop`).
- A negation changes the code of a signal that goes through it: `! { exit 3; }` leaves with 0, and a
  loop that `! break` ends has status 1 (`Exits.ExitUnwinds`, `ControlFlow.BreakEndsLoops`).
- Suppression also keeps the ERR handler from running, so it is not the same as errexit being off
  (`Suppression.HandlerTellsApart`).
- Inside a function that was called with `X=1`, a prefix assignment `X=2 command` writes the scope of
  the function call and outlives the command (`Prefix.AssignmentOutlivesCommand`).
- `${x:offset:length}` measures strings in bytes and walks characters (`Substring.StringLawIffAscii`),
  and the largest array subscript cannot be selected (`Substring.SparseLawIffBelowMax`).
- Setting OPTIND to 1 in the middle of the first word does not start over (`Getopts.RestartReadsAllIff`),
  and dashes among option letters change what a cluster means (`Getopts.ClusterReportsIff`).
- An element assigned through a negative subscript that counts back to a gap is not the one read back
  (`Arithmetic.ElementAssignedIsRead`).
- In an ANSI-C quotation a brace behind `\x41` is taken into the escape (`Decoding.BraceIsTaken`).
- An ANSI-C quotation can merge an octal escape with a digit that follows it (`AnsiC.AnsiCRoundTrip`).
  A word that starts with `#` can be printed without quotes, as can a newline when ANSI-C quotations
  are avoided for it, and then neither reads back (`AnsiC.QuoteRoundTrip`).
- `read` is meant to join the remaining fields for its last variable with a space, but never more than
  one field remains (`Read.AssignToNamedVariables`).
- `Environment`: the count of entries is not lowered when a scope is popped, so it is an upper bound
  only. `History`: replacing an item may store one whose own id differs from the id it is stored under.
- The comment at brush-core/src/shell.rs:310-313 says that `_` is never exported. That holds because
  the environment's own flag for exporting on modification is never set; the option is a separate flag.

## Model

| member | source | states |
|---|---|---|
| Trees.DiffTrees | shellmux/src/diff.rs:67-97 | lists just the paths that are gone, deepest first, then just those that are new or differ, shallowest first, each once |
| Links.MergeIsExactIff | shellmux/src/diff.rs:67-97 | applied to the old tree, in this order, the differences give the new tree, for all pairs of trees, if and only if none of what is written is a fifo, socket or device; and nothing outside the seed changes |
| Replay.CarryIff | shellmux/src/wal.rs:10-12 | from whatever crashes have left, applying the differences again gives the new tree if and only if the removals go through and, wherever links lead them, leave each path of the new tree in the seed or in the snapshot, and every file outside the two as it was; outside the seed nothing changes but what the removals take |
| Links.SinglesSuffice | shellmux/src/wal.rs:155-169 | it is enough that each removal by itself, on each tree that a crash may leave in whatever order writes are lost, goes through and takes only what differs, and nothing outside |
| Links.AsideIsSound | shellmux/src/wal.rs:155-169 | so it is where a directory that becomes a link leads by names to nothing, or to what is new or changed itself, and no directory becomes a file |
| Commit.Storage.Replay | shellmux/src/commit.rs:268-300 | applies the records in order up to the first that fails; a move whose source is gone is done already if the seed has its content |
| Commit.Storage.Apply | shellmux/src/commit.rs:107-145 | the whole batch is in the log before the seed changes, the records are applied to the seed in order, and the end is logged only then; what the seed becomes is in Recovery.ApplyCloses |
| Commit.Storage.Recover | shellmux/src/commit.rs:159-260 | every frame is checked before anything is replayed; abandons incomplete batches, replays and closes unfinished ones, restores missing history entries |
| Commit.MarkLastIs | shellmux/src/commit.rs:186-195 | an end marks the last transaction of its number, and nothing else |
| Recovery.CrashIsNear | shellmux/src/commit.rs:260-300 | whatever the merge and any number of cut or failed restarts did, each path of the seed is as before, as after, or gone, and the snapshot has nothing new |
| Recovery.CrashIsAtomicIff | shellmux/src/commit.rs:1-13 | at each stage at which a merge and the restarts after it can be cut short, a restart leaves either the whole merge, with every file outside the seed and the snapshot as it was, or the files and the history as they were, and the log with nothing left to do, if and only if the removals are sound on the files as they are by then: they go through and leave what the new tree still needs and what is outside |
| Recovery.CrashSafeIff | shellmux/src/commit.rs:1-13 | so a merge is atomic under every sequence of crashes, its own and those of restarts, if and only if what each of them leaves is sound |
| Recovery.SinglesRecover | shellmux/src/wal.rs:155-169 | which holds if each removal by itself takes only what differs, and nothing outside, unless something cannot be copied |
| Recovery.RecoverableIff | shellmux/src/wal.rs:155-169 | where directories that become links lead by names to nothing, or to what is new or changed itself, that is if and only if no directory becomes a file and nothing is written that cannot be copied; a file leaves a log that no restart gets through |
| Incidents.RestartLosesFile | shellmux/src/wal.rs:155-169 | a directory becomes a link to another, by name or by absolute path: the restart succeeds, remembers the merge, and a file that the merge did not touch is gone |
| Incidents.RestartLosesForeignFile | shellmux/src/wal.rs:155-169 | a directory becomes a link to one outside the seed: the restart succeeds, remembers the merge, the seed is the new tree, and a file of that directory is gone |
| Incidents.RestartLosesSource | shellmux/src/commit.rs:283-300 | a directory becomes a link into the snapshot: the restart takes the source of a later move, and cannot complete the merge |
| Incidents.RestartMeetsFile | shellmux/src/wal.rs:155-169 | a directory becomes a link to a file anywhere: the restart fails |
| Incidents.MovedDirectoryRecovers | shellmux/src/wal.rs:155-169 | a directory is moved and a link left in its place: every crash can be recovered from |
| Recovery.CutIsStage | shellmux/src/commit.rs:211-254 | a restart that is cut short after any number of its writes, the next half done, or that fails, leaves the disk at a stage of the same merge |
| Recovery.CleanRecovers | shellmux/src/commit.rs:211-260 | a restart with nothing to do changes nothing |
| Recovery.RunIsAtomic | shellmux/src/commit.rs:147-158 | a merge that is recoverable, cut short anywhere, with any number of restarts after it cut short anywhere too: the restart that gets through leaves all of it or nothing, and no file outside the seed and the snapshot changed |
| Recovery.SessionIsAtomic | shellmux/src/commit.rs:147-158 | over every sequence of merges and crashes, with any number of restarts cut short in between, and whatever happens to snapshots and other files between two merges: each last restart succeeds, the history lists exactly the merges logged in full, once and in order, and the seed is the snapshot of the last of them |
| Recovery.FirstSessionIsAtomic | shellmux/src/commit.rs:159-165 | so from an empty log on, that is all that history and seed say |
| Recovery.SessionGoesOn | shellmux/src/mux.rs:598-603 | each next merge needs to fit only the seed and the history that the session has come to, with a snapshot taken then |
| Recovery.ApplyCloses | shellmux/src/commit.rs:107-145 | a merge that fits and writes nothing that cannot be copied goes through without a crash, ends with its batch closed in the log, and the seed is the snapshot's tree with every file elsewhere as it was |
| Recovery.BatchIs | shellmux/src/commit.rs:205-260 | what a restart makes of any batch in the log, by the number of operations that it declares and has: refused, abandoned, carried out or only remembered; one from an older version that declares none has to have its end |
| Links.ReplayWithoutSnapshotIff | shellmux/src/commit.rs:260-300 | a merge carried out in full whose snapshot is gone is replayed without effect on any file if and only if its removals are without effect |
| Links.ReplayIsIdleIff | shellmux/src/wal.rs:155-169 | where links lead by names as above, that is if and only if no directory became a file, nothing else became a directory, and the links lead to nothing in the new tree |
| Files.RemoveLeavesNoneEmpty | shellmux/src/wal.rs:172-192 | a removal takes the directories that it leaves empty off the way to the removed path, and not the root |
| Files.DownAndUp | shellmux/src/wal.rs:155-169 | where the way of a link goes down into a directory and up again, it is as if it had not |
| Files.DoneAlreadyIff | shellmux/src/commit.rs:283-300 | a move whose source is gone is taken as done if and only if its destination has the recorded content, and changes nothing |
| Transactions.Authority.CheckEvents | shellmux/src/authority.rs:45-65 | each event is judged after the history and those before it in the command that were granted; the history grows by just the granted ones, the others are listed, and there are none of these if and only if each event is granted after all those before it |
| Transactions.NoDenialIff | shellmux/src/authority.rs:35-45 | so a command is granted as a whole if and only if it is granted event by event, each seeing those before it |
| Transactions.Authority.Differences | shellmux/src/mux.rs:1019-1030 | the paths to be written are those in which the live seed and the snapshot differ, none if nothing was opened for writing, and writing them makes the seed the snapshot |
| Transactions.Authority.Conclude | shellmux/src/mux.rs:958-1090 | a command is refused as stale or denied without any trace, or merged; denied if and only if it is neither unchanged nor stale and one of its events is not granted after all those before it |
| Transactions.Authority.RecordCommit | shellmux/src/mux.rs:1194-1218 | the seed, the sequence number, and the number as the generation of each written path and no other |
| Serial.CommitIsSerial | shellmux/src/mux.rs:1042-1060 | a command that is merged does to the seed what it would have done had it run on the seed as it is now, for every command whose writes depend on what it was seen to read |
| Serial.EveryRunIsSerial | shellmux/src/mux.rs:745-755 | however jobs overlap, the seed in the end is what the merged commands make of the first seed one after the other |
| Serial.SessionIsSerial | shellmux/src/mux.rs:745-755 | so for every session from its start on |
| Serial.WriterIsFreshIff | shellmux/src/mux.rs:1383-1411 | a job that writes is not stale if and only if nothing it depends on has moved on and everything else that has is by now as the job has it |
| Serial.DisjointWritersConflict | shellmux/src/mux.rs:1019-1046 | a change to a path the job left alone makes it stale, even if neither read nor wrote what the other wrote |
| Serial.LoadedIsMerged | shellmux/src/history.rs:222-246 | a restart rebuilds from the history the generations and the number that the merge left |
| Machine.NestedRunIsMachineRun | brush-core/src/interp.rs:215-224 | a task has an outcome in nested runs if and only if the machine with explicit frames comes to rest with the same outcome |
| Machine.FuelIsEnough | brush-core/src/interp.rs:215-224 | more fuel does not change the outcome of a run that ended |
| Interpreter.ShellInterpreter.ExecuteProgram | brush-core/src/interp.rs:236-269 | the in-place program loop does what the nested run of the program does |
| Interpreter.ShellInterpreter.ExecuteList | brush-core/src/interp.rs:271-305 | so for compound lists |
| Interpreter.ShellInterpreter.ExecuteAndOr | brush-core/src/interp.rs:339-392 | so for and-or lists |
| Interpreter.ShellInterpreter.ExecuteAdditional | brush-core/src/interp.rs:355-391 | so for the members behind the first, short-circuited ones skipped |
| Interpreter.ShellInterpreter.ExecutePipeline | brush-core/src/interp.rs:395-447 | so for pipelines of one command, with negation, the ERR trap and errexit |
| Interpreter.ShellInterpreter.InvokeErrTrap | brush-core/src/shell/traps.rs:37-88 | the handler runs, its own result is dropped and the status is what it was |
| Interpreter.ShellInterpreter.ExecuteCommand | brush-core/src/interp.rs:683-735 | so for compound commands and function definitions |
| Interpreter.ShellInterpreter.ExecuteSubshell | brush-core/src/interp.rs:692-713 | so for subshells |
| Interpreter.ShellInterpreter.ExecuteFor | brush-core/src/interp.rs:823-843 | so for `for`, with the words expanded or the positional parameters |
| Interpreter.ShellInterpreter.ExecuteForEach | brush-core/src/interp.rs:840-885 | so for its loop over the values |
| Interpreter.ShellInterpreter.ExecuteIf | brush-core/src/interp.rs:956-1007 | so for `if` with its `elif` and `else` branches |
| Interpreter.ShellInterpreter.ExecuteWhile | brush-core/src/interp.rs:1009-1064 | so for `while` and `until` |
| Interpreter.ShellInterpreter.ExecuteTest | brush-core/src/interp.rs:1028-1046 | one run of the condition ends the loop or leaves the body to be run |
| Interpreter.ShellInterpreter.ExecuteArithmeticFor | brush-core/src/interp.rs:1087-1096 | so for the arithmetic `for`, from its initializer on |
| Interpreter.ShellInterpreter.ExecuteRounds | brush-core/src/interp.rs:1098-1127 | so for its rounds |
| Interpreter.ShellInterpreter.ExecuteSimple | brush-core/src/interp.rs:1172-1364 | so for simple commands with and without a command word |
| Interpreter.ShellInterpreter.ApplyAssignments | brush-core/src/interp.rs:1379-1391 | assigns from left to right up to the first failure |
| Interpreter.ShellInterpreter.ExecuteViaFunction | brush-core/src/commands.rs:535-562 | so for function calls, with the caller's arguments, depth and scopes back behind them |
| Meaning.OutcomeIff | brush-core/src/interp.rs:236-269 | a construct has an outcome if and only if some amount of fuel brings its run to it |
| Meaning.ProgramIs | brush-core/src/interp.rs:236-269 | complete commands run in order, errors become results, and the first that does not end normally ends all |
| Meaning.ListIs | brush-core/src/interp.rs:271-305 | the items run in order up to the first error or signal, and the status is that of the last |
| Meaning.BraceGroupIs | brush-core/src/interp.rs:683-736 | a brace group is its list |
| Meaning.AndOrListIs | brush-core/src/interp.rs:339-393 | and-or lists associate to the left: with one more member, a list is the one before it, run suppressed, and then that member if and only if it ended normally and with what the operator calls for |
| Meaning.SingleMemberIs | brush-core/src/interp.rs:339-393 | and a list of one member is that member |
| Meaning.PipelineIs | brush-core/src/interp.rs:395-475 | negation turns the code around and suppresses errexit; behind an unsuppressed failure comes the handler for ERR, and then errexit |
| Meaning.SubshellIs | brush-core/src/interp.rs:683-736 | a subshell runs its list in a copy outside of handlers, and only the code comes out |
| Meaning.IfIs | brush-core/src/interp.rs:956-1007 | success of the suppressed condition calls for the first branch, failure for the rest, which is an `if` again |
| Meaning.WhileIs | brush-core/src/interp.rs:1009-1065 | the body runs as long as the suppressed condition succeeds, or fails for `until`; with the levels that signals use up |
| Meaning.WhileTurns | brush-core/src/interp.rs:1009-1065 | so a loop has just as many turns as its condition calls for, and the code of the last |
| Meaning.ForIs | brush-core/src/interp.rs:823-887 | a turn for each word that the list expands to, or for each positional parameter, in order |
| Meaning.ArithmeticIs | brush-core/src/interp.rs:1067-1085 | `(( ))` succeeds if and only if its value is not 0 |
| Meaning.ArithmeticForIs | brush-core/src/interp.rs:1087-1128 | the initializer is evaluated once, before all else |
| Meaning.RoundsAre | brush-core/src/interp.rs:1087-1128 | then test, body and updater in turn, as long as the test is not 0; an empty one is not |
| Commands.FunctionIff | brush-core/src/commands.rs:366-422 | below the limit of calls a body is entered if and only if it is defined under the command's name, and no special builtin comes before it in POSIX mode; with the other words as arguments, in a scope of its own |
| Commands.DefinedIsCalled | brush-core/src/interp.rs:1130-1170 | after its definition, the next command of that name enters the body |
| Commands.DefinitionIs | brush-core/src/interp.rs:1130-1170 | in POSIX mode the name of a special builtin is refused |
| Commands.CallComesTo | brush-core/src/commands.rs:751-800 | a return is the normal end of a call, a signal to loops an error, and the caller has its arguments, depth and scopes back |
| Commands.TooDeep | brush-core/src/commands.rs:751-800 | beyond the limit a function is not entered |
| Commands.BuiltinIs | brush-core/src/commands.rs:395-428 | else an enabled builtin is the one that runs, under the first two words if they are registered; failures of special ones are fatal in POSIX mode |
| Commands.ExternalIs | brush-core/src/commands.rs:424-448 | else a program is run, by its path or by the search for it, with code 127 if there is none |
| Commands.NotLookedUp | brush-core/src/interp.rs:1172-1425 | words that do not expand are an error, and a prefix assignment that fails ends the command with its scope |
| Commands.NoCommandIs | brush-core/src/interp.rs:1172-1425 | without words the assignments are for the shell |
| Requests.RunNeedsItsRequestsOnly | brush-core/src/interp.rs:215-224 | a run is determined by the replies to what it asks of expansions, builtins, path search and processes: a world that gives it the same replies runs it to the same outcome |
| Signals.Unwinds | brush-core/src/interp.rs:395-447 | whatever ERR handlers do on the way, a signal, return or exit arrives with the levels that the loops on the way used up and the code that the negations made of it, and every construct on the way has taken its scopes, depths and flags with it |
| ControlFlow.BreakEndsLoops | brush-core/src/interp.rs:1047-1058 | `break n` inside d >= n loops ends exactly the n innermost and goes on as after a loop that ended with status 0, or 1 after an odd number of negations inside it |
| ControlFlow.ContinueResumesLoop | brush-core/src/interp.rs:1034-1058 | `continue n` ends exactly n - 1 loops and goes on with the n-th as if its body had ended with that status, or ends it too if the signal comes out of its condition |
| ControlFlow.TooManyLevels | brush-core/src/results.rs:223-241 | with d < n loops around, both end all d and level n - 1 - d survives |
| ControlFlow.BoundaryTakesSignal | brush-core/src/commands.rs:787-795 | what then gets to the end of a subshell is dropped there, and at the end of a function it is error 99 of the call, from any depth of loops and past any ERR handler |
| Exits.ExitUnwinds | brush-core/src/results.rs:85-91 | an exit ends every construct and function call up to the innermost subshell, one step for each, keeps its code but for negations, and leaves the scopes of that subshell |
| Exits.ExitUnwindsPastHandlers | brush-core/src/interp.rs:432-445 | so it does past ERR handlers that run on its way |
| Exits.FailureIsExit | brush-core/src/interp.rs:432-445 | a pipeline that fails where nothing suppresses errexit is an exit with its code if and only if errexit is on when the ERR handler, if there is one, has run |
| Exits.FailureExits | brush-core/src/interp.rs:432-445 | and as such it ends all that is around it, past ERR handlers too |
| Exits.FailureSteps | brush-core/src/interp.rs:432-445 | so without a handler, in one step for each construct |
| Exits.ReturnSteps | brush-core/src/commands.rs:774-800 | a return ends the loops and lists of its function and no more, one step for each, keeps its code but for negations, and the caller goes on with its own arguments, call depth and scopes |
| Exits.ReturnEndsFunction | brush-core/src/commands.rs:774-800 | so it does past ERR handlers that run on its way |
| Exits.SubshellIsIsolated | brush-core/src/interp.rs:692-713 | whatever runs in a subshell, the parent goes on normally in the shell it was in |
| Suppression.SuppressedIsErrexitOff | brush-core/src/interp.rs:347-447 | for all programs and shells, a suppressed run ends as a run with errexit off and without an ERR handler, with the same result and the same shell but for these two, unless something that this run calls looks at the two or turns them on |
| Suppression.WithoutHandlerItIsErrexitAlone | brush-core/src/interp.rs:444-446 | so where no ERR handler is set, as a run with errexit off |
| Suppression.HandlerTellsApart | brush-core/src/interp.rs:429-440 | with an ERR handler the two differ from a run with errexit off alone: a concrete list and shell |
| Survival.ConditionExitsOnlyIfAsked | brush-core/src/interp.rs:347-384 | if the run of a condition of if, while or until, of an and-or member but the last, or in a negated pipeline comes back with an exit, then something that this run called asked for one, whatever the options are |
| Scopes.ExecuteCommandStays | brush-core/src/commands.rs:365-592 | every path of a command with words pops exactly the scope pushed for it: builtin, function, external, not found, failed prefix assignment |
| Scopes.AlwaysBalanced | brush-core/src/interp.rs:1377-1411 | in every reachable configuration the scopes are those of the start and two for each call in progress, and the depths and the handler flag are those of the frames |
| Scopes.RunKeepsShape | brush-core/src/commands.rs:751-800 | a run that ends, however it ends, leaves the scopes, depths and handler flag as it found them |
| Scopes.HandlerNeverNests | brush-core/src/shell/traps.rs:42-47 | the ERR handler never runs inside itself, and the call depth is the number of calls in progress |
| Prefix.StaysInsideIff | brush-core/src/interp.rs:1632-1660 | a prefix assignment leaves everything below its command's scope as it is, for every value, if and only if the name is not visible in an outer command's scope, or readonly there |
| Prefix.AssignAllIs | brush-core/src/interp.rs:1379-1391 | if no name is visible in an outer command's scope, all prefix assignments succeed and write the command's scope only |
| Prefix.ExternalLeavesNoTrace | brush-core/src/commands.rs:564-591 | an external command sees its prefix assignments as exported variables and leaves only `_` and BASH_COMMAND changed |
| Prefix.AssignmentOutlivesCommand | brush-core/src/interp.rs:1632-1660 | otherwise the outer binding keeps the new value after the command |
| Prefix.PlainAssignmentIsUpdate | brush-core/src/interp.rs:1535-1690 | an assignment that is no prefix writes the scope where the name is visible, or else the global one |
| Prefix.AssignAllSplits | brush-core/src/interp.rs:1172-1425 | assignments are made from left to right up to the first that fails |
| Prefix.LastArgIsKept | brush-core/src/shell.rs:299-320 | the last argument goes to the global `_`, unless the visible one is readonly |
| Prefix.BashCommandIsRead | brush-core/src/commands.rs:264-280 | BASH_COMMAND holds the words of the command, unless it is readonly |
| Prefix.JoinedIs | brush-core/src/commands.rs:264-280 | with a space between each two |
| Arithmetic.ChainLimit | brush-core/src/arithmetic.rs:195-233 | a chain of references that ends in a number gives it if and only if it has no more than 1024 links |
| Arithmetic.ChainIsFollowed | brush-core/src/arithmetic.rs:195-233 | each reference costs one level, from any depth |
| Arithmetic.CycleReachesLimit | brush-core/src/arithmetic.rs:195-233 | when the variables of a set hold only references into the set, each evaluates to RecursionLimitExceeded and nothing changes |
| Arithmetic.PureKeepsEnvironment | brush-core/src/arithmetic.rs:132-174 | an expression without assignments whose variables hold none either changes no variable |
| Arithmetic.StepLaws | brush-core/src/arithmetic.rs:332-362 | `++x` is `x += 1`, `x++` is that with the step taken back, wrap-around included, and so for `--` |
| Arithmetic.AssignedIsRead | brush-core/src/arithmetic.rs:364-401 | what was assigned evaluates to the same value if and only if it is not negative or the depth limit is not yet reached |
| Arithmetic.ElementAssignedIsRead | brush-core/src/arithmetic.rs:364-401 | an element reads as what was assigned to it if and only if its subscript is not negative, or counts back to an element that was there, or is the -1 of a new array, or the one behind has the same text |
| Arithmetic.ElementAssignKeepsOthers | brush-core/src/arithmetic.rs:383-401 | the other elements stay, and a string that becomes an array is its element 0 |
| Arithmetic.ElementZeroIs | brush-core/src/arithmetic.rs:200-212 | element 0 is the value itself, and so is any other of a string that is not positive |
| Arithmetic.UnsetIs | brush-core/src/arithmetic.rs:176-193 | a variable that is not set is an error under nounset, and else as good as empty |
| Operators.OperandsDecide | brush-core/src/arithmetic.rs:240-280 | the left operand is evaluated first, and beyond the logical operators only the two values matter |
| Operators.Trichotomy | brush-core/src/arithmetic.rs:314-319 | of less, equal and greater exactly one holds, and the other comparisons are their negations |
| Operators.LessIsTransitive | brush-core/src/arithmetic.rs:314-319 | less is transitive |
| Operators.NextIsGreater | brush-core/src/arithmetic.rs:309-314 | one more is greater, but for the largest number, behind which comes the smallest |
| Operators.SumLaws | brush-core/src/arithmetic.rs:309-311 | addition counts up, with wrap-around, and subtraction undoes it |
| Operators.ProductLaws | brush-core/src/arithmetic.rs:286-295 | multiplication adds up, exponentiation multiplies up, and a negative exponent is an error |
| Operators.DivisionLaws | brush-core/src/arithmetic.rs:296-308 | quotient and remainder make up the number, and the remainder is smaller than the divisor, with the sign of the number; 0 is an error |
| Operators.ShiftLaws | brush-core/src/arithmetic.rs:312-313 | a shift by one more doubles, or halves and rounds down, and six bits of the distance count |
| Operators.BitLaws | brush-core/src/arithmetic.rs:320-322 | `&`, `|` and `^` work in each place by itself |
| Operators.SignIs | brush-core/src/arithmetic.rs:235-249 | of the operand of a sign only the value matters |
| Operators.SignLaws | brush-core/src/arithmetic.rs:235-249 | `-a` is `0 - a`, `~a` is `-1 - a`, `!a` is `a == 0`; a comma gives its right operand |
| Operators.LogicIsConditional | brush-core/src/arithmetic.rs:258-280 | `&&` and `||` are conditionals whose other branch is not evaluated |
| Operators.ConditionalIs | brush-core/src/arithmetic.rs:132-174 | one branch is evaluated, by whether the condition is 0 |
| Operators.CompoundIs | brush-core/src/arithmetic.rs:132-174 | `x op= y` is `x = x op y` |
| Evaluator.ArithmeticEvaluator.EvalExpr | brush-core/src/arithmetic.rs:132-174 | the in-place evaluator computes the value and the environment of the reference evaluation, which terminates by (1024 minus depth, size) |
| Evaluator.ArithmeticEvaluator.ApplyBinaryOp | brush-core/src/arithmetic.rs:251-330 | so for binary operators; `&&` and `||` skip their right operand if the left decides |
| Evaluator.ArithmeticEvaluator.ApplyUnaryAssignmentOp | brush-core/src/arithmetic.rs:332-362 | so for increments and decrements |
| Evaluator.ArithmeticEvaluator.DerefLvalue | brush-core/src/arithmetic.rs:195-233 | so for variables and array elements |
| Evaluator.ArithmeticEvaluator.AssignTo | brush-core/src/arithmetic.rs:364-401 | so for assignments |
| Wrapping.WrappingPow | brush-core/src/arithmetic.rs:410-423 | is the signed 64-bit representative of the power for every base and exponent, in at most 64 rounds |
| Environment.ShellEnvironment.GetUsingPolicy | brush-core/src/env.rs:367-409 | finds what the recursive lookup of the policy finds |
| Environment.ShellEnvironment.IterUsingPolicy | brush-core/src/env.rs:178-227 | has a name with a variable if and only if a search for the name by the same policy gives that variable |
| Environment.VisibleIsFound | brush-core/src/env.rs:178-227 | the visible map and the search agree on every name from every point of the stack down |
| Environment.LookupIs | brush-core/src/env.rs:367-409 | each policy finds the topmost variable of the name in its scopes; the one for the current function looks into the topmost local scope only |
| Environment.CurrentFunctionIs | brush-core/src/env.rs:305-332 | the scope of the current function is the local one with no other above it |
| Environment.ShellEnvironment.PushScope | brush-core/src/env.rs:122-124 | an empty scope on top |
| Environment.ShellEnvironment.PopScope | brush-core/src/env.rs:131-142 | the top scope goes whatever its kind; another kind than expected is an error |
| Environment.ShellEnvironment.Add | brush-core/src/env.rs:546-568 | creates the variable in the topmost scope of the kind, or is an error and changes nothing |
| Environment.ShellEnvironment.UpdateOrAdd | brush-core/src/env.rs:471-498 | assigns where the policy finds the name, else creates it; readonly variables stay |
| Environment.ShellEnvironment.UnsetVariable | brush-core/src/env.rs:305-332 | removes the visible variable, or leaves a placeholder in the current function's scope |
| Environment.ReadAfterUpdate | brush-core/src/env.rs:471-498 | after an assignment the same policy reads the new value, except where the scope created in is not one it looks into |
| Environment.AttributesStay | brush-core/src/env.rs:471-498 | an assignment leaves attributes and the other elements of an array; a new variable is exported only where assignments export |
| Environment.UpdateKeepsOthers | brush-core/src/env.rs:471-498 | no other name reads differently by any policy |
| Environment.ReadAfterUnset | brush-core/src/env.rs:305-332 | unsetting uncovers the next binding below, except in the current function, where the name stays unset |
| Expansion.SplitFields | brush-core/src/expansion.rs:915-953 | one field for each group between IFS characters, in which splittable pieces hold none and unsplittable pieces are whole |
| Expansion.SplitKeepsContent | brush-core/src/expansion.rs:915-953 | no field without pieces, and all unsplittable pieces and non-IFS characters in order |
| Expansion.SplitIsUnique | brush-core/src/expansion.rs:915-953 | the specification admits one result only |
| Expansion.SplitIsIdempotent | brush-core/src/expansion.rs:915-953 | splitting again changes nothing |
| Substring.PolymorphicSubslice | brush-core/src/expansion.rs:249-335 | the characters [index, end) with their tags, without empty pieces or fields, or the fields [index, end) |
| Substring.Substring | brush-core/src/expansion.rs:1427-1514 | the slice at the positions that offset and length select, with `$0` in front for `$@` and `$*`; `end - index` does not underflow |
| Substring.StringLawIffAscii | brush-core/src/expansion.rs:414-427 | for all offsets and lengths a string is sliced as the list of its characters if and only if all of them are single bytes |
| Substring.PositionalLaw | brush-core/src/expansion.rs:1436-1449 | `${@:offset:length}` begins with `$0` for offset 0 and for the negative one that reaches as far, with `$n` for offset n, and else counts back from the last parameter, for all offsets and lengths |
| Substring.ElementListLaw | brush-core/src/expansion.rs:1427-1514 | every other list without subscripts is sliced by position for all offsets and lengths |
| Substring.SparseArrayLaw | brush-core/src/expansion.rs:126-160 | a sparse array gives the first `length` elements with subscript at least the offset |
| Substring.SparseLawIffBelowMax | brush-core/src/expansion.rs:126-136 | for all offsets and lengths, if and only if the largest subscript is not in use |
| Escape.ExpandBackslashEscapes | brush-core/src/escape.rs:25-262 | the decoding loop computes the expansion in both modes, with the cut at NUL |
| Decoding.HexDecodes | brush-core/src/escape.rs:125-174 | one or two hexadecimal digits of a byte decode to it, unless a brace follows in an ANSI-C quotation |
| Decoding.BracedDecodes | brush-core/src/escape.rs:125-174 | digits in braces count with those before them, the last byte of their number is written, and beyond 32 bits there is an error |
| Decoding.BraceIsTaken | brush-core/src/escape.rs:125-174 | a brace that opens behind `\x41` is no plain character |
| Decoding.JunkDecodes | brush-core/src/escape.rs:125-174 | braces that do not begin with a digit are a NUL byte |
| Decoding.NoDigitsDecode | brush-core/src/escape.rs:125-174 | without digits or braces there is no escape |
| Decoding.UnicodeDecodes | brush-core/src/escape.rs:175-228 | up to four or eight digits of a code point decode to its UTF-8 encoding; what is no code point leaves the backslash and the letter |
| Decoding.EncodingReadsBack | brush-core/src/escape.rs:175-228 | that encoding (RFC 3629, section 3) reads back as the code point, and is the shortest |
| Decoding.ScalarsAreChars | brush-core/src/escape.rs:175-228 | the code points that have an encoding are the characters |
| Decoding.OctalDecodes | brush-core/src/escape.rs:104-124 | `\0` and up to three octal digits are a byte, or an error if they are more |
| Decoding.ControlDecodes | brush-core/src/escape.rs:47-93 | `\c` and an ASCII character, of either case, are the control character with its lowest five bits |
| Decoding.SpecialControls | brush-core/src/escape.rs:47-93 | `\c?` is DEL, and for `echo` `\c` ends all output |
| Decoding.ControlBackslash | brush-core/src/escape.rs:55-68 | a backslash behind `\c` may be doubled |
| Decoding.NamedDecode | brush-core/src/escape.rs:45-100 | the named characters decode in both modes |
| Decoding.OthersDecode | brush-core/src/escape.rs:101-103 | quotes and the question mark lose their backslash in ANSI-C quotations only, and characters without a meaning keep it |
| Decoding.NulEndsQuotation | brush-core/src/escape.rs:258-267 | an ANSI-C quotation ends at the first NUL byte, and for `echo` nothing is cut off |
| Quote.BackslashEscapeString | brush-core/src/escape.rs:350-366 | the backslash form |
| Quote.SingleQuoteString | brush-core/src/escape.rs:368-396 | the single-quoted form, with each quote between two quotations |
| Quote.DoubleQuoteString | brush-core/src/escape.rs:398-413 | the double-quoted form |
| Quote.AnsiCQuoteString | brush-core/src/escape.rs:416-444 | the ANSI-C form |
| Quote.QuotedSpells | brush-core/src/escape.rs:295-413 | quote removal (sections 2.2 and 2.6.7 of the POSIX.1-2017 Shell Command Language) gives the string back for all modes and options, and no character that needs escaping is left unquoted |
| Quote.SpecialsAreEscaped | brush-core/src/escape.rs:447-475 | the characters that section 2.2 of the POSIX.1-2017 Shell Command Language has quoted are escaped, but for `#`, `~`, `=` and `%` |
| Quote.QuoteString | brush-core/src/escape.rs:295-322 | the form that the options and the string call for; unless it is an ANSI-C quotation, quote removal gives the string back |
| AnsiC.AnsiCRoundTrip | brush-core/src/escape.rs:416-442 | decoding the body of an ANSI-C quotation gives the string back if and only if it has no NUL and no low octal escape before an octal digit |
| AnsiC.BodyDecodes | brush-core/src/escape.rs:25-262 | what every such body decodes to otherwise |
| AnsiC.BodyIsClosed | brush-core/src/escape.rs:416-442 | the quotation ends where its printer ended it |
| AnsiC.QuoteRoundTrip | brush-core/src/escape.rs:295-322 | what is printed under any options reads back as one word that is the string if and only if it is no ANSI-C quotation of the strings above, and what is printed bare has no newline and does not start with `#` |
| Getopts.ParseOptionSpec | brush-builtins/src/getopts.rs:51-81 | the option characters with their arguments: the colon behind the first place of a character counts |
| Getopts.Getopts.Execute | brush-builtins/src/getopts.rs:100-153 | one call: the next report, and the variables it leaves |
| Getopts.Getopts.ParseNextOption | brush-builtins/src/getopts.rs:161-277 | the next option at a position inside or at the start of a word |
| Getopts.OneLetterIs | brush-builtins/src/getopts.rs:161-320 | what a word of one letter reports: unknown, without argument, with the next word as argument, or with none left, by whether errors are silent |
| Getopts.OptionsEnd | brush-builtins/src/getopts.rs:161-200 | options end behind `--`, and in front of any other word that is none |
| Getopts.OptindStaysInRange | brush-builtins/src/getopts.rs:161-277 | over all calls from any state on, however OPTIND was set, it stays within 1 and the number of arguments plus 1 and never goes back |
| Getopts.CallsReadWords | brush-builtins/src/getopts.rs:100-277 | repeated calls end, report exactly the options that the words spell, each once and in order, and leave OPTIND behind the words used |
| Getopts.RestartReadsAllIff | brush-builtins/src/getopts.rs:110-135 | for a first word whose letters take no argument, setting OPTIND to 1 starts over if and only if it was not 1 with a place kept inside the first word other than its first letter |
| Getopts.RestartReads | brush-builtins/src/getopts.rs:110-135 | what it reads in each of the two cases, for any words |
| Getopts.ClusterReportsIff | brush-builtins/src/getopts.rs:161-277 | wherever a parse has come to the start of a word, `-abc` is reported as `-a -b -c` if and only if no dash is among the letters (or the only letter is one) |
| Getopts.AttachedReportsIff | brush-builtins/src/getopts.rs:280-320 | and `-pVALUE` as `-p VALUE`, for VALUE not empty, if and only if p is not a dash |
| Read.SplitLineByIfs | brush-builtins/src/read.rs:655-721 | the scanning loop gives the fields of the trimmed line in this sense, and none if it is empty |
| Read.FieldCount | brush-builtins/src/read.rs:646-721 | a limit k gives at most max(1, k) fields |
| Read.EarlyFields | brush-builtins/src/read.rs:655-721 | the fields before the k-th hold no IFS character |
| Read.LastField | brush-builtins/src/read.rs:655-721 | the k-th field is a suffix of the trimmed line |
| Read.SplitRebuilds | brush-builtins/src/read.rs:655-721 | with delimiters between them the fields are the text; a delimiter is a whole run of IFS whitespace or one other IFS character, in front of a limited last field with the whitespace behind it; only that field holds IFS characters; and a field is missing at the end exactly where an empty one would stand behind a delimiter that is not whitespace |
| Read.FieldsAreUnique | brush-builtins/src/read.rs:655-721 | no other list of fields meets this for the same line and limit |
| Read.FieldsKeepContent | brush-builtins/src/read.rs:655-721 | the non-IFS characters of the fields are those of the line, in order |
| Read.TrimShape | brush-builtins/src/read.rs:655-670 | trimming takes off the IFS whitespace at both ends and no more |
| Read.AssignToNamedVariables | brush-builtins/src/read.rs:197-268 | one value for each name, in order: the fields in this sense for as many as there are names, or the line itself with `-N`, and empty where they run out |
| Completion.TokenizeByDelimiters | brush-core/src/completion.rs:1408-1496 | non-empty, disjoint, increasing slices with exactly the unquoted, unescaped whitespace delimiters between them, each a longest run of delimiters or of other characters |
| Completion.OutsideIsGap | brush-core/src/completion.rs:1408-1496 | a position lies in a token if and only if it is not such a delimiter |
| Completion.TokenizationIsUnique | brush-core/src/completion.rs:1408-1496 | the input and the delimiters determine the tokens |
| Completion.QuotedIsWord | brush-core/src/completion.rs:1408-1496 | a quote in front of a token takes everything up to the next of its kind into it |
| Completion.EscapedIsWord | brush-core/src/completion.rs:1408-1496 | a backslash takes the next character into a token, outside quotes and within double ones |
| Completion.UnquotedIs | brush-core/src/completion.rs:1408-1496 | elsewhere delimiters are what they are, and a quote within a token opens nothing |
| History.HistoryStore.AddItem | brush-core/src/history.rs:131-141 | the item goes to the end under the next id, which is used up |
| History.HistoryStore.RemoveNthItem | brush-core/src/history.rs:108-123 | the n-th item goes from the list and the map, if there is one |
| History.HistoryStore.DeleteItemById | brush-core/src/history.rs:149-159 | the id goes from the list and the map |
| History.HistoryStore.UpdateById | brush-core/src/history.rs:97-105 | the item under the id is replaced if there is one |
| History.HistoryStore.ClearAll | brush-core/src/history.rs:162-166 | nothing is left, and ids go on from where they were |
| History.EveryRunIsValid | brush-core/src/history.rs:97-166 | over every sequence of operations the ids stay strictly increasing, are the keys of the map and lie below the next id |
| History.RemoveTakesOut | brush-core/src/history.rs:108-129 | removing the n-th item, or deleting by its id, takes out just that item |
| Search.AnswerIsCut | brush-core/src/history.rs:413-503 | a search yields the matching items in the order of its direction, cut to a limit that is not negative |
| Search.MatchesIff | brush-core/src/history.rs:315-375 | a filter matches if and only if its text stands in the line where the filter says: in front, at the end, anywhere, or all over |
| Search.BoundsPartition | brush-core/src/history.rs:315-345 | the bounds are exclusive: of the items before, at and after an id or a time, one leaves those before and the other those after |
| Search.Cursor.Next | brush-core/src/history.rs:465-503 | one step of the cursor: the first item of what remains, and the rest |
| Search.FilterReversed | brush-core/src/history.rs:413-503 | going backward yields the same items in the opposite order |
| HistoryFile.Flush | brush-core/src/history.rs:177-216 | the text of the selected items, and which items count as saved |
| HistoryFile.Import | brush-core/src/history.rs:33-75 | the entries of the lines, numbered from 0 |
| HistoryFile.FileRoundTrip | brush-core/src/history.rs:33-75 | what is written in full with timestamps reads back as the same lines if and only if none holds a newline, starts with `#` or ends in a carriage return, and then with timestamps cut to seconds |

## Left out

- marsh: the execution of commands under a tracer, the translation of traces to events, the git policy's rules, reader trees of bypassed commands, reconciliation with git, and the terminal and network front ends; the policy is a parameter.
- Trees.DiffTrees: ties in depth are in no particular order, and an inode identity that proves a file unchanged is not modelled, because it only saves reading; empty directories are no part of a tree, as in the source.
- Files: permissions, mount points and other I/O errors than the ones named, and the temporaries of interrupted writes, are left out. The paths of the seed and of the snapshots run through no link.
- Recovery.CrashSafeIff: what has been written reaches the disk in the order of the writes. Links.SinglesSuffice and Links.AsideIsSound hold for losses in any order.
- Files.Put: copying a fifo opens it first, which waits for a writer; the model has an error there, as for sockets and devices, which cannot be opened.
- Recovery.CrashIsAtomicIff: what the log and the history hold is kept apart from the files; their files stand among those elsewhere, so a removal that is led to them is not sound, but it is not seen to empty them. Outside the seed, files are compared and not directories that are empty.
- Transactions.Authority.Conclude: takes the application of a merge to succeed; when it does is in Links.MergeIsExactIff, and what is left if it does not, in Recovery.
- Serial.CommitIsSerial: takes it as given that a command's writes depend only on the paths among its events and git reads, and that a command that opened nothing for writing wrote nothing.
- Transactions: `Unchanged` is the source's commit without a sequence number; its reads are not checked there either.
- Interp: asynchronous lists, pipelines of several commands, redirections, `case`, extended tests, coprocesses, aliases, `set -n`, tracing, the DEBUG trap, pipefail, array and appending assignments; each is either I/O or a construct that passes results on like those modelled.
- Interp: expansion, arithmetic, builtins, path search and spawning are parameters, told whether errexit is suppressed; the set of builtins does not change.
- Interpreter.ShellInterpreter.ExecuteList: the fuel bounds the nested runs; the methods return nothing when it runs out, and FuelIsEnough shows that it changes no outcome.
- Scopes.AlwaysBalanced: builtins and expansions are taken to leave the kinds of the scopes, the depths and the handler flag as they found them.
- Getopts.RestartReadsAllIff: for a first word with a letter that takes an argument, only RestartReads is stated; the rest of a word read again can happen to spell the same.
- Prefix.ExternalLeavesNoTrace: for values that are expanded already and names other than `_` and BASH_COMMAND, which every command sets.
- Arithmetic: the parser is a parameter; array subscripts are natural numbers; associative arrays, dynamic variables and integer attributes are left out.
- Environment: variables hold nothing, a string or a sparse array; tracing, case conversion and nameref attributes are left out.
- Substring: strings are sequences of characters whose UTF-8 widths are counted; invalid UTF-8 is left out.
- Escape: text is valid UTF-8.
- AnsiC.QuoteRoundTrip: reading back is recognizing one word and removing its quotes; tilde and other expansions of what is printed bare are left out.
- Getopts: messages under OPTERR are left out; the number of arguments is below 2^31 - 1, because OPTIND is read back as a 32-bit integer.
- Read: reading from a terminal, timeouts and arrays are left out; IFS is a set of characters.
- HistoryFile.Import: the range of representable times is a parameter.
- History: item ids are unbounded; the source uses 64 bits.
- Search.AnswerIsCut: for no more items than a signed 64-bit word can count.
- HistoryFile.FileRoundTrip: for items with timestamps that the import accepts.
- Completion: the two other tokenizers, candidate generation and ranking are left out.
