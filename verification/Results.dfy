/** What a command hands back to the construct around it (brush-core/src/results.rs), and what
    the break and continue builtins hand back. */
module Results {

  type ExitCode = n: nat | n < 256

  datatype Flow =
    | Normal
    | BreakLoop(levels: nat)
    | ContinueLoop(levels: nat)
    | ReturnFromFunctionOrScript
    | ExitShell

  datatype ExecutionResult = ExecutionResult(flow: Flow, code: ExitCode) {
    predicate IsNormalFlow() { flow.Normal? }

    predicate IsReturnOrExit() { flow.ReturnFromFunctionOrScript? || flow.ExitShell? }

    predicate IsSuccess() { code == 0 }
  }

  const SUCCESS := ExecutionResult(Normal, 0)

  const GENERAL_ERROR: ExitCode := 1
  const INVALID_USAGE: ExitCode := 2
  const UNIMPLEMENTED: ExitCode := 99
  const NOT_FOUND: ExitCode := 127

  /** Leaving one loop uses up one level; a signal at level 0 has then done its work. */
  function Decremented(flow: Flow): Flow {
    match flow
    case BreakLoop(levels) => if levels == 0 then Normal else BreakLoop(levels - 1)
    case ContinueLoop(levels) => if levels == 0 then Normal else ContinueLoop(levels - 1)
    case _ => flow
  }

  /** The builtins `break n` and `continue n`; n is a signed byte. */
  function BreakResult(n: int): ExecutionResult
    requires -128 <= n < 128
  {
    if n <= 0 then ExecutionResult(Normal, INVALID_USAGE) else ExecutionResult(BreakLoop(n - 1), 0)
  }

  function ContinueResult(n: int): ExecutionResult
    requires -128 <= n < 128
  {
    if n <= 0 then ExecutionResult(Normal, INVALID_USAGE) else ExecutionResult(ContinueLoop(n - 1), 0)
  }

  /** An error; a fatal one ends a shell that is not interactive. */
  datatype Failure = Failure(code: ExitCode, fatal: bool)
}
