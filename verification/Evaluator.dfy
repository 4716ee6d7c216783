/** The arithmetic evaluator as methods that change the environment in place
    (brush-core/src/arithmetic.rs:125-403), each proved to compute what the functions in
    `Arithmetic` say. */
module Evaluator {
  import opened Wrappers
  import opened Decimal
  import opened Environment
  import opened Wrapping
  import opened Arithmetic

  /** A binary operator in terms of what its operands give. */
  lemma BinaryIs(sh: Shell, op: BinaryOperator, a: Expr, b: Expr, env: Stack, depth: nat, l: Outcome)
    requires depth <= MAX_VARIABLE_DEREF_DEPTH && l == Eval(sh, a, env, depth)
    ensures EvalBinary(sh, op, a, b, env, depth)
            == if l.value.Err? then l
               else if op.LogicalAnd? && l.value.value == 0 then Outcome(Ok(0), l.env)
               else if op.LogicalOr? && l.value.value != 0 then Outcome(Ok(1), l.env)
               else
                 var r := Eval(sh, b, l.env, depth);
                 if r.value.Err? then r
                 else if op.LogicalAnd? || op.LogicalOr? then Outcome(Ok(Truth(r.value.value != 0)), r.env)
                 else Outcome(ApplyBinary(op, l.value.value, r.value.value), r.env)
  {
    hide Eval, ApplyBinary;
  }

  /** A step in terms of what its variable gives. */
  lemma StepIs(sh: Shell, step: Arithmetic.Step, t: Target, env: Stack, depth: nat, d: Outcome)
    requires depth <= MAX_VARIABLE_DEREF_DEPTH && d == Deref(sh, t, env, depth)
    ensures Eval(sh, UnaryAssignment(step, t), env, depth)
            == if d.value.Err? then d
               else
                 var up := step.PrefixIncrement? || step.PostfixIncrement?;
                 var s := Assign(sh, t, Wrap(if up then d.value.value + 1 else d.value.value - 1), d.env, depth);
                 if s.value.Ok? && (step.PostfixIncrement? || step.PostfixDecrement?) then Outcome(d.value, s.env) else s
  {
    hide Deref, Assign, Wrap;
  }

  class ArithmeticEvaluator {
    const sh: Shell
    var env: Stack

    constructor (shell: Shell, stack: Stack)
      ensures sh == shell && env == stack
    {
      sh, env := shell, stack;
    }

    method EvalExpr(e: Expr, depth: nat) returns (r: Result<I64, EvalError>)
      requires depth <= MAX_VARIABLE_DEREF_DEPTH
      modifies this
      ensures Outcome(r, env) == Eval(sh, e, old(env), depth)
      decreases MAX_VARIABLE_DEREF_DEPTH - depth, Size(e), 1
    {
      match e
      case Literal(n) => r := Ok(n);
      case Reference(t) => r := DerefLvalue(t, depth);
      case Unary(op, a) =>
        r := EvalExpr(a, depth);
        if r.Ok? {
          r := Ok(ApplyUnary(op, r.value));
        }
      case Binary(op, a, b) => r := ApplyBinaryOp(op, a, b, depth);
      case Conditional(c, a, b) =>
        r := EvalExpr(c, depth);
        if r.Ok? {
          if r.value != 0 {
            r := EvalExpr(a, depth);
          } else {
            r := EvalExpr(b, depth);
          }
        }
      case Assignment(t, a) =>
        r := EvalExpr(a, depth);
        if r.Ok? {
          r := AssignTo(t, r.value, depth);
        }
      case UnaryAssignment(step, t) => r := ApplyUnaryAssignmentOp(step, t, depth);
      case BinaryAssignment(op, t, a) =>
        r := ApplyBinaryOp(op, Reference(t), a, depth);
        if r.Ok? {
          r := AssignTo(t, r.value, depth);
        }
    }

    /** `&&` and `||` evaluate their right operand only if the left one does not decide. */
    method ApplyBinaryOp(op: BinaryOperator, a: Expr, b: Expr, depth: nat) returns (r: Result<I64, EvalError>)
      requires depth <= MAX_VARIABLE_DEREF_DEPTH
      modifies this
      ensures Outcome(r, env) == EvalBinary(sh, op, a, b, old(env), depth)
      decreases MAX_VARIABLE_DEREF_DEPTH - depth, Size(a) + Size(b), 2
    {
      hide ApplyBinary, Eval, EvalBinary;
      var left := EvalExpr(a, depth);
      BinaryIs(sh, op, a, b, old(env), depth, Outcome(left, env));
      if left.Err? {
        return left;
      }
      if op.LogicalAnd? && left.value == 0 {
        return Ok(0);
      }
      if op.LogicalOr? && left.value != 0 {
        return Ok(1);
      }
      var right := EvalExpr(b, depth);
      if right.Err? {
        return right;
      }
      if op.LogicalAnd? || op.LogicalOr? {
        return Ok(Truth(right.value != 0));
      }
      r := ApplyOperator(op, left.value, right.value);
    }

    method ApplyOperator(op: BinaryOperator, left: I64, right: I64) returns (r: Result<I64, EvalError>)
      requires op != LogicalAnd && op != LogicalOr
      ensures r == ApplyBinary(op, left, right)
    {
      hide Power, Wrap;
      if op.Pow? && right >= 0 {
        var power, _ := WrappingPow(left, right);
        return Ok(power);
      }
      r := ApplyBinary(op, left, right);
    }

    /** A step that cannot be stored fails, whichever value it would give. */
    method ApplyUnaryAssignmentOp(step: Arithmetic.Step, t: Target, depth: nat) returns (r: Result<I64, EvalError>)
      requires depth <= MAX_VARIABLE_DEREF_DEPTH
      modifies this
      ensures Outcome(r, env) == Eval(sh, UnaryAssignment(step, t), old(env), depth)
      decreases MAX_VARIABLE_DEREF_DEPTH - depth, TargetSize(t), 3
    {
      hide Eval, Deref, Assign, Wrap;
      var value := DerefLvalue(t, depth);
      StepIs(sh, step, t, old(env), depth, Outcome(value, env));
      if value.Err? {
        return value;
      }
      var n: int := value.value;
      var newValue := Wrap(if step.PrefixIncrement? || step.PostfixIncrement? then n + 1 else n - 1);
      r := AssignTo(t, newValue, depth);
      if r.Ok? && (step.PostfixIncrement? || step.PostfixDecrement?) {
        r := value;
      }
    }

    method DerefLvalue(t: Target, depth: nat) returns (r: Result<I64, EvalError>)
      requires depth <= MAX_VARIABLE_DEREF_DEPTH
      modifies this
      ensures Outcome(r, env) == Deref(sh, t, old(env), depth)
      decreases MAX_VARIABLE_DEREF_DEPTH - depth, TargetSize(t), 2
    {
      var text: Result<string, EvalError>;
      match t {
        case Var(name) => text := VariableText(sh.options, name, env);
        case Element(name, index) =>
          var i := EvalExpr(index, depth);
          if i.Err? {
            return i;
          }
          text := ElementText(name, i.value, env);
      }
      if text.Err? {
        return Err(text.error);
      }
      var parsed := sh.parse(text.value);
      if parsed.None? {
        return Err(ParseError);
      }
      if parsed.value.Literal? {
        return Ok(parsed.value.n);
      }
      if depth + 1 > MAX_VARIABLE_DEREF_DEPTH {
        return Err(RecursionLimitExceeded);
      }
      r := EvalExpr(parsed.value, depth + 1);
    }

    method AssignTo(t: Target, n: I64, depth: nat) returns (r: Result<I64, EvalError>)
      requires depth <= MAX_VARIABLE_DEREF_DEPTH
      modifies this
      ensures Outcome(r, env) == Assign(sh, t, n, old(env), depth)
      decreases MAX_VARIABLE_DEREF_DEPTH - depth, TargetSize(t), 2
    {
      match t
      case Var(name) =>
        var updated := Updated(env, name, ShowInt(n), Anywhere, Global, sh.options.autoExport);
        if updated.Err? {
          return Err(FailedToUpdateEnvironment);
        }
        env := updated.value;
        r := Ok(n);
      case Element(name, index) =>
        var i := EvalExpr(index, depth);
        if i.Err? {
          return i;
        }
        var o := AssignElement(sh.options, name, i.value, n, env);
        env := o.env;
        r := o.value;
    }
  }
}
