/** The arithmetic evaluator (brush-core/src/arithmetic.rs). It reads the text of a variable as
    an expression again, so that how deep it goes depends on the environment; the parser is a
    parameter. */
module Arithmetic {
  import opened Wrappers
  import opened Decimal
  import opened Environment
  import opened Wrapping

  const MAX_VARIABLE_DEREF_DEPTH: nat := 1024

  datatype Target = Var(name: string) | Element(name: string, index: Expr)

  datatype UnaryOperator = UnaryPlus | UnaryMinus | BitwiseNot | LogicalNot

  datatype BinaryOperator =
    | Pow | Multiply | Divide | Modulo | Comma | Add | Subtract | ShiftLeft | ShiftRight
    | LessThan | LessThanOrEqualTo | GreaterThan | GreaterThanOrEqualTo | Equals | NotEquals
    | BitwiseAnd | BitwiseXor | BitwiseOr | LogicalAnd | LogicalOr

  datatype Step = PrefixIncrement | PrefixDecrement | PostfixIncrement | PostfixDecrement

  datatype Expr =
    | Literal(n: I64)
    | Reference(target: Target)
    | Unary(unop: UnaryOperator, operand: Expr)
    | Binary(op: BinaryOperator, left: Expr, right: Expr)
    | Conditional(condition: Expr, thenExpr: Expr, elseExpr: Expr)
    | Assignment(target: Target, value: Expr)
    | UnaryAssignment(step: Step, target: Target)
    | BinaryAssignment(op: BinaryOperator, target: Target, value: Expr)

  datatype EvalError =
    | DivideByZero | NegativeExponent | FailedToAccessArray | FailedToUpdateEnvironment
    | ParseError | ExpandingUnsetVariable | RecursionLimitExceeded

  type Parser = string -> Option<Expr>

  datatype Options = Options(nounset: bool, autoExport: bool)

  datatype Shell = Shell(parse: Parser, options: Options)

  /** What evaluation gives, and the environment it leaves, also when it fails. */
  datatype Outcome = Outcome(value: Result<I64, EvalError>, env: Stack)

  function TargetSize(t: Target): nat {
    match t
    case Var(_) => 1
    case Element(_, index) => 1 + Size(index)
  }

  function Size(e: Expr): nat {
    match e
    case Literal(_) => 1
    case Reference(t) => 1 + TargetSize(t)
    case Unary(_, a) => 1 + Size(a)
    case Binary(_, a, b) => 1 + Size(a) + Size(b)
    case Conditional(c, a, b) => 1 + Size(c) + Size(a) + Size(b)
    case Assignment(t, a) => 1 + TargetSize(t) + Size(a)
    case UnaryAssignment(_, t) => 1 + TargetSize(t)
    case BinaryAssignment(_, t, a) => 2 + TargetSize(t) + Size(a)
  }

  // ----- Variables ------------------------------------------------------------------------------

  /** The text of a variable; one that is not set is an error under `nounset`, else empty. */
  function VariableText(options: Options, name: string, env: Stack): Result<string, EvalError> {
    match Read(env, name, Anywhere)
    case Some(v) =>
      if !v.value.Unset? then Ok(Scalar(v.value).GetOr(""))
      else if options.nounset then Err(ExpandingUnsetVariable) else Ok("")
    case None => if options.nounset then Err(ExpandingUnsetVariable) else Ok("")
  }

  /** The place of an element; a negative subscript counts back from the number of elements. */
  function Key(elements: map<nat, string>, index: int): Option<nat> {
    var k := if index < 0 then index + |elements| else index;
    if k < 0 then None else Some(k)
  }

  /** A string is its own element 0, and so is any subscript that is not a natural number. */
  function ElementText(name: string, index: int, env: Stack): Result<string, EvalError> {
    match Read(env, name, Anywhere)
    case None => Ok("")
    case Some(v) =>
      match v.value
      case Unset => Ok("")
      case Str(s) => if index <= 0 then Ok(s) else Ok("")
      case Indexed(elements) =>
        match Key(elements, index)
        case None => Err(FailedToAccessArray)
        case Some(k) => Ok(if k in elements then elements[k] else "")
  }

  function AssignVariable(options: Options, name: string, n: I64, env: Stack): Outcome {
    match Updated(env, name, ShowInt(n), Anywhere, Global, options.autoExport)
    case Err(_) => Outcome(Err(FailedToUpdateEnvironment), env)
    case Ok(stack) => Outcome(Ok(n), stack)
  }

  /** A variable that is not an array becomes one; a string stays as its element 0. */
  function AsElements(v: Variable): Result<map<nat, string>, EvalError> {
    match v.value
    case Unset => if v.readonly then Err(FailedToUpdateEnvironment) else Ok(map[])
    case Str(s) => Ok(map[0 := s])
    case Indexed(elements) => Ok(elements)
  }

  function AssignElement(options: Options, name: string, index: int, n: I64, env: Stack): Outcome {
    match Lookup(env, name, Anywhere)
    case None =>
      var v := Variable(Indexed(map[if index < 0 then 0 else index := ShowInt(n)]), false, false);
      (match Added(env, name, v, Global, options.autoExport)
       case Err(_) => Outcome(Err(FailedToUpdateEnvironment), env)
       case Ok(stack) => Outcome(Ok(n), stack))
    case Some(i) =>
      var v := env[i].vars[name];
      match AsElements(v)
      case Err(e) => Outcome(Err(e), env)
      case Ok(elements) =>
        match Key(elements, index)
        case None => Outcome(Err(FailedToUpdateEnvironment), SetIn(env, i, name, v.(value := Indexed(elements))))
        case Some(k) => Outcome(Ok(n), SetIn(env, i, name, v.(value := Indexed(elements[k := ShowInt(n)]))))
  }

  // ----- Operators ------------------------------------------------------------------------------

  function Truth(b: bool): I64 {
    if b then 1 else 0
  }

  function ApplyUnary(op: UnaryOperator, n: I64): I64 {
    match op
    case UnaryPlus => n
    case UnaryMinus => Wrap(-(n as int))
    case BitwiseNot => -1 - n
    case LogicalNot => Truth(n == 0)
  }

  /** The operators that always evaluate both operands. */
  function ApplyBinary(op: BinaryOperator, a: I64, b: I64): Result<I64, EvalError>
    requires op != LogicalAnd && op != LogicalOr
  {
    match op
    case Pow => if b >= 0 then Ok(Wrap(Power(a, b))) else Err(NegativeExponent)
    case Multiply => Ok(Wrap(a * b))
    case Divide => if b == 0 then Err(DivideByZero) else Ok(Wrap(TruncDiv(a, b)))
    case Modulo => if b == 0 then Err(DivideByZero) else Ok(Wrap(a - b * TruncDiv(a, b)))
    case Comma => Ok(b)
    case Add => Ok(Wrap(a + b))
    case Subtract => Ok(Wrap(a - b))
    case ShiftLeft => Ok(Wrap(a * Power(2, b % 64)))
    case ShiftRight => PowerPositive(b % 64); Ok(Wrap(a / Power(2, b % 64)))
    case LessThan => Ok(Truth(a < b))
    case LessThanOrEqualTo => Ok(Truth(a <= b))
    case GreaterThan => Ok(Truth(a > b))
    case GreaterThanOrEqualTo => Ok(Truth(a >= b))
    case Equals => Ok(Truth(a == b))
    case NotEquals => Ok(Truth(a != b))
    case BitwiseAnd => Ok(BitAnd(a, b))
    case BitwiseXor => Ok(BitXor(a, b))
    case BitwiseOr => Ok(BitOr(a, b))
  }

  lemma {:induction false} PowerPositive(e: nat)
    ensures Power(2, e) > 0
  {
    if e > 0 {
      PowerPositive(e - 1);
    }
  }

  // ----- Evaluation -----------------------------------------------------------------------------

  /** Every recursive call is deeper, or on a smaller expression at the same depth. */
  function Eval(sh: Shell, e: Expr, env: Stack, depth: nat): Outcome
    requires depth <= MAX_VARIABLE_DEREF_DEPTH
    decreases MAX_VARIABLE_DEREF_DEPTH - depth, Size(e), 1
  {
    match e
    case Literal(n) => Outcome(Ok(n), env)
    case Reference(t) => Deref(sh, t, env, depth)
    case Unary(op, a) =>
      var r := Eval(sh, a, env, depth);
      if r.value.Err? then r else Outcome(Ok(ApplyUnary(op, r.value.value)), r.env)
    case Binary(op, a, b) => EvalBinary(sh, op, a, b, env, depth)
    case Conditional(c, a, b) =>
      var r := Eval(sh, c, env, depth);
      if r.value.Err? then r
      else if r.value.value != 0 then Eval(sh, a, r.env, depth)
      else Eval(sh, b, r.env, depth)
    case Assignment(t, a) =>
      var r := Eval(sh, a, env, depth);
      if r.value.Err? then r else Assign(sh, t, r.value.value, r.env, depth)
    case UnaryAssignment(step, t) =>
      var r := Deref(sh, t, env, depth);
      if r.value.Err? then r
      else
        var up := step.PrefixIncrement? || step.PostfixIncrement?;
        var n := Wrap(if up then r.value.value + 1 else r.value.value - 1);
        var s := Assign(sh, t, n, r.env, depth);
        if s.value.Err? || step.PrefixIncrement? || step.PrefixDecrement? then s
        else Outcome(Ok(r.value.value), s.env)
    case BinaryAssignment(op, t, a) =>
      var r := EvalBinary(sh, op, Reference(t), a, env, depth);
      if r.value.Err? then r else Assign(sh, t, r.value.value, r.env, depth)
  }

  function EvalBinary(sh: Shell, op: BinaryOperator, a: Expr, b: Expr, env: Stack, depth: nat): Outcome
    requires depth <= MAX_VARIABLE_DEREF_DEPTH
    decreases MAX_VARIABLE_DEREF_DEPTH - depth, Size(a) + Size(b), 2
  {
    var l := Eval(sh, a, env, depth);
    if l.value.Err? then l
    else if op == LogicalAnd && l.value.value == 0 then Outcome(Ok(0), l.env)
    else if op == LogicalOr && l.value.value != 0 then Outcome(Ok(1), l.env)
    else
      var r := Eval(sh, b, l.env, depth);
      if r.value.Err? then r
      else if op == LogicalAnd || op == LogicalOr then Outcome(Ok(Truth(r.value.value != 0)), r.env)
      else Outcome(ApplyBinary(op, l.value.value, r.value.value), r.env)
  }

  function Deref(sh: Shell, t: Target, env: Stack, depth: nat): Outcome
    requires depth <= MAX_VARIABLE_DEREF_DEPTH
    decreases MAX_VARIABLE_DEREF_DEPTH - depth, TargetSize(t), 2
  {
    match t
    case Var(name) => EvalText(sh, VariableText(sh.options, name, env), env, depth)
    case Element(name, index) =>
      var i := Eval(sh, index, env, depth);
      if i.value.Err? then i else EvalText(sh, ElementText(name, i.value.value, i.env), i.env, depth)
  }

  /** The text of a variable is an expression. A literal cannot recurse, so it costs no depth. */
  function EvalText(sh: Shell, text: Result<string, EvalError>, env: Stack, depth: nat): Outcome
    requires depth <= MAX_VARIABLE_DEREF_DEPTH
    decreases MAX_VARIABLE_DEREF_DEPTH - depth, 0, 0
  {
    match text
    case Err(e) => Outcome(Err(e), env)
    case Ok(s) =>
      match sh.parse(s)
      case None => Outcome(Err(ParseError), env)
      case Some(parsed) =>
        if parsed.Literal? then Outcome(Ok(parsed.n), env)
        else if depth + 1 > MAX_VARIABLE_DEREF_DEPTH then Outcome(Err(RecursionLimitExceeded), env)
        else Eval(sh, parsed, env, depth + 1)
  }

  function Assign(sh: Shell, t: Target, n: I64, env: Stack, depth: nat): Outcome
    requires depth <= MAX_VARIABLE_DEREF_DEPTH
    decreases MAX_VARIABLE_DEREF_DEPTH - depth, TargetSize(t), 2
  {
    match t
    case Var(name) => AssignVariable(sh.options, name, n, env)
    case Element(name, index) =>
      var i := Eval(sh, index, env, depth);
      if i.value.Err? then i else AssignElement(sh.options, name, i.value.value, n, i.env)
  }

  lemma EvalVariable(sh: Shell, name: string, env: Stack, depth: nat)
    requires depth <= MAX_VARIABLE_DEREF_DEPTH
    ensures Eval(sh, Reference(Var(name)), env, depth)
            == EvalText(sh, VariableText(sh.options, name, env), env, depth)
  {
    assert Eval(sh, Reference(Var(name)), env, depth) == Deref(sh, Var(name), env, depth);
  }

  // ----- Chains of references -------------------------------------------------------------------

  /** The name holds text that is just a reference to the next name. */
  ghost predicate RefersTo(sh: Shell, env: Stack, name: string, next: string) {
    && VariableText(sh.options, name, env).Ok?
    && sh.parse(VariableText(sh.options, name, env).value) == Some(Reference(Var(next)))
  }

  lemma FollowReference(sh: Shell, env: Stack, name: string, next: string, depth: nat)
    requires depth <= MAX_VARIABLE_DEREF_DEPTH && RefersTo(sh, env, name, next)
    ensures Eval(sh, Reference(Var(name)), env, depth)
            == if depth == MAX_VARIABLE_DEREF_DEPTH then Outcome(Err(RecursionLimitExceeded), env)
               else Eval(sh, Reference(Var(next)), env, depth + 1)
  {
    EvalVariable(sh, name, env, depth);
  }

  ghost predicate Chain(sh: Shell, env: Stack, names: seq<string>) {
    |names| > 1 ==> RefersTo(sh, env, names[0], names[1]) && Chain(sh, env, names[1..])
  }

  /** A chain is followed one level deeper for each name, until the limit is reached. */
  lemma {:induction false} ChainIsFollowed(sh: Shell, env: Stack, names: seq<string>, depth: nat)
    requires |names| >= 1 && Chain(sh, env, names) && depth <= MAX_VARIABLE_DEREF_DEPTH
    ensures Eval(sh, Reference(Var(names[0])), env, depth)
            == if depth + |names| - 1 > MAX_VARIABLE_DEREF_DEPTH then Outcome(Err(RecursionLimitExceeded), env)
               else Eval(sh, Reference(Var(names[|names| - 1])), env, depth + |names| - 1)
    decreases |names|
  {
    if |names| > 1 {
      FollowReference(sh, env, names[0], names[1], depth);
      if depth < MAX_VARIABLE_DEREF_DEPTH {
        ChainIsFollowed(sh, env, names[1..], depth + 1);
      }
    }
  }

  /** A chain that ends in a number gives that number exactly when it has no more than 1024
      links; a longer one is an error. The environment stays as it was. */
  lemma ChainLimit(sh: Shell, env: Stack, names: seq<string>, n: I64)
    requires |names| >= 1 && Chain(sh, env, names)
    requires VariableText(sh.options, names[|names| - 1], env).Ok?
    requires sh.parse(VariableText(sh.options, names[|names| - 1], env).value) == Some(Literal(n))
    ensures Eval(sh, Reference(Var(names[0])), env, 0)
            == Outcome(if |names| - 1 <= MAX_VARIABLE_DEREF_DEPTH then Ok(n) else Err(RecursionLimitExceeded), env)
  {
    ChainIsFollowed(sh, env, names, 0);
    if |names| - 1 <= MAX_VARIABLE_DEREF_DEPTH {
      EvalVariable(sh, names[|names| - 1], env, |names| - 1);
    }
  }

  ghost predicate RefersInto(sh: Shell, env: Stack, name: string, names: set<string>) {
    exists next :: next in names && RefersTo(sh, env, name, next)
  }

  ghost predicate Closed(sh: Shell, env: Stack, names: set<string>) {
    forall name :: name in names ==> RefersInto(sh, env, name, names)
  }

  /** Names that only refer to each other: every evaluation runs into the limit, and leaves the
      environment as it was. */
  lemma {:induction false} CycleReachesLimit(sh: Shell, env: Stack, names: set<string>, name: string, depth: nat)
    requires Closed(sh, env, names)
    requires name in names && depth <= MAX_VARIABLE_DEREF_DEPTH
    ensures Eval(sh, Reference(Var(name)), env, depth) == Outcome(Err(RecursionLimitExceeded), env)
    decreases MAX_VARIABLE_DEREF_DEPTH - depth
  {
    assert RefersInto(sh, env, name, names);
    var next :| next in names && RefersTo(sh, env, name, next);
    FollowReference(sh, env, name, next, depth);
    if depth < MAX_VARIABLE_DEREF_DEPTH {
      CycleReachesLimit(sh, env, names, next, depth + 1);
    }
  }

  // ----- Expressions that assign nothing --------------------------------------------------------

  predicate PureTarget(t: Target) {
    t.Element? ==> Pure(t.index)
  }

  predicate Pure(e: Expr) {
    match e
    case Literal(_) => true
    case Reference(t) => PureTarget(t)
    case Unary(_, a) => Pure(a)
    case Binary(_, a, b) => Pure(a) && Pure(b)
    case Conditional(c, a, b) => Pure(c) && Pure(a) && Pure(b)
    case Assignment(_, _) => false
    case UnaryAssignment(_, _) => false
    case BinaryAssignment(_, _, _) => false
  }

  ghost predicate PureText(sh: Shell, s: string) {
    sh.parse(s).Some? ==> Pure(sh.parse(s).value)
  }

  /** No text that evaluation may read from the environment assigns anything. */
  ghost predicate PureTexts(sh: Shell, env: Stack) {
    && (forall name :: VariableText(sh.options, name, env).Ok? ==> PureText(sh, VariableText(sh.options, name, env).value))
    && (forall name, i :: ElementText(name, i, env).Ok? ==> PureText(sh, ElementText(name, i, env).value))
  }

  /** Evaluating an expression without assignments, whose variables hold none either, changes
      no variable, however far the evaluation goes through their texts. */
  lemma {:induction false} PureKeepsEnvironment(sh: Shell, e: Expr, env: Stack, depth: nat)
    requires depth <= MAX_VARIABLE_DEREF_DEPTH && Pure(e) && PureTexts(sh, env)
    ensures Eval(sh, e, env, depth).env == env
    decreases MAX_VARIABLE_DEREF_DEPTH - depth, Size(e), 1
  {
    match e
    case Literal(_) =>
    case Reference(t) => PureDerefKeeps(sh, t, env, depth);
    case Unary(_, a) => PureKeepsEnvironment(sh, a, env, depth);
    case Binary(_, a, b) =>
      PureKeepsEnvironment(sh, a, env, depth);
      PureKeepsEnvironment(sh, b, env, depth);
    case Conditional(c, a, b) =>
      PureKeepsEnvironment(sh, c, env, depth);
      PureKeepsEnvironment(sh, a, env, depth);
      PureKeepsEnvironment(sh, b, env, depth);
  }

  lemma {:induction false} PureDerefKeeps(sh: Shell, t: Target, env: Stack, depth: nat)
    requires depth <= MAX_VARIABLE_DEREF_DEPTH && PureTarget(t) && PureTexts(sh, env)
    ensures Deref(sh, t, env, depth).env == env
    decreases MAX_VARIABLE_DEREF_DEPTH - depth, TargetSize(t), 2
  {
    match t
    case Var(name) =>
      PureTextKeeps(sh, VariableText(sh.options, name, env), env, depth);
    case Element(name, index) =>
      PureKeepsEnvironment(sh, index, env, depth);
      var i := Eval(sh, index, env, depth);
      if i.value.Ok? {
        PureTextKeeps(sh, ElementText(name, i.value.value, env), env, depth);
      }
  }

  lemma {:induction false} PureTextKeeps(sh: Shell, text: Result<string, EvalError>, env: Stack, depth: nat)
    requires depth <= MAX_VARIABLE_DEREF_DEPTH && PureTexts(sh, env)
    requires text.Ok? ==> PureText(sh, text.value)
    ensures EvalText(sh, text, env, depth).env == env
    decreases MAX_VARIABLE_DEREF_DEPTH - depth, 0, 0
  {
    if text.Ok? && sh.parse(text.value).Some? && depth < MAX_VARIABLE_DEREF_DEPTH {
      PureKeepsEnvironment(sh, sh.parse(text.value).value, env, depth + 1);
    }
  }

  // ----- Laws of the assignment operators -------------------------------------------------------

  /** An assignment that succeeds gives the number that it stored. */
  lemma AssignGivesValue(sh: Shell, t: Target, n: I64, env: Stack, depth: nat)
    requires depth <= MAX_VARIABLE_DEREF_DEPTH
    ensures Assign(sh, t, n, env, depth).value.Ok? ==> Assign(sh, t, n, env, depth).value.value == n
  {
  }

  /** A step by one is taken as the operator says. */
  lemma CompoundIsPlain(sh: Shell, op: BinaryOperator, t: Target, env: Stack, depth: nat)
    requires depth <= MAX_VARIABLE_DEREF_DEPTH && (op == Add || op == Subtract)
    ensures var r := Deref(sh, t, env, depth);
            Eval(sh, BinaryAssignment(op, t, Literal(1)), env, depth)
            == if r.value.Err? then r
               else Assign(sh, t, Stepped(op, r.value.value), r.env, depth)
  {
    var r := Deref(sh, t, env, depth);
    assert Eval(sh, Reference(t), env, depth) == r;
    assert Eval(sh, Literal(1), r.env, depth) == Outcome(Ok(1), r.env);
    assert EvalBinary(sh, op, Reference(t), Literal(1), env, depth)
        == if r.value.Err? then r else Outcome(ApplyBinary(op, r.value.value, 1), r.env);
  }

  function Stepped(op: BinaryOperator, n: I64): I64 {
    Wrap(if op == Add then n + 1 else n - 1)
  }

  lemma StepBack(n: I64)
    ensures Stepped(Subtract, Stepped(Add, n)) == n && Stepped(Add, Stepped(Subtract, n)) == n
  {
    assert Stepped(Add, n) == if n == TWO_63 - 1 then -TWO_63 else n + 1;
    assert Stepped(Subtract, n) == if n == -TWO_63 then TWO_63 - 1 else n - 1;
  }

  /** Taking a step after an expression. */
  lemma BinaryWithOne(sh: Shell, op: BinaryOperator, e: Expr, env: Stack, depth: nat)
    requires depth <= MAX_VARIABLE_DEREF_DEPTH && (op == Add || op == Subtract)
    ensures var l := Eval(sh, e, env, depth);
            Eval(sh, Binary(op, e, Literal(1)), env, depth)
            == if l.value.Err? then l else Outcome(Ok(Stepped(op, l.value.value)), l.env)
  {
    var l := Eval(sh, e, env, depth);
    assert Eval(sh, Binary(op, e, Literal(1)), env, depth) == EvalBinary(sh, op, e, Literal(1), env, depth);
    assert Eval(sh, Literal(1), l.env, depth) == Outcome(Ok(1), l.env);
  }

  /** What a postfix step does, with its new value named. */
  lemma PostfixIs(sh: Shell, op: BinaryOperator, t: Target, env: Stack, depth: nat)
    requires depth <= MAX_VARIABLE_DEREF_DEPTH && (op == Add || op == Subtract)
    ensures var r := Deref(sh, t, env, depth);
            Eval(sh, UnaryAssignment(if op == Add then PostfixIncrement else PostfixDecrement, t), env, depth)
            == if r.value.Err? then r
               else
                 var s := Assign(sh, t, Stepped(op, r.value.value), r.env, depth);
                 if s.value.Err? then s else Outcome(Ok(r.value.value), s.env)
  {
    hide Deref, Assign, Wrap;
  }

  lemma PostfixIsStepBack(sh: Shell, op: BinaryOperator, t: Target, env: Stack, depth: nat)
    requires depth <= MAX_VARIABLE_DEREF_DEPTH && (op == Add || op == Subtract)
    ensures var back := if op == Add then Subtract else Add;
            Eval(sh, UnaryAssignment(if op == Add then PostfixIncrement else PostfixDecrement, t), env, depth)
            == Eval(sh, Binary(back, BinaryAssignment(op, t, Literal(1)), Literal(1)), env, depth)
  {
    hide Eval, Deref, Assign, Stepped;
    var r := Deref(sh, t, env, depth);
    var compound := BinaryAssignment(op, t, Literal(1));
    CompoundIsPlain(sh, op, t, env, depth);
    PostfixIs(sh, op, t, env, depth);
    BinaryWithOne(sh, if op == Add then Subtract else Add, compound, env, depth);
    if r.value.Ok? {
      AssignGivesValue(sh, t, Stepped(op, r.value.value), r.env, depth);
      StepBack(r.value.value);
    }
  }

  lemma PrefixIsCompound(sh: Shell, op: BinaryOperator, t: Target, env: Stack, depth: nat)
    requires depth <= MAX_VARIABLE_DEREF_DEPTH && (op == Add || op == Subtract)
    ensures Eval(sh, UnaryAssignment(if op == Add then PrefixIncrement else PrefixDecrement, t), env, depth)
            == Eval(sh, BinaryAssignment(op, t, Literal(1)), env, depth)
  {
    hide Deref, Assign, Wrap;
    CompoundIsPlain(sh, op, t, env, depth);
  }

  /** `++x` and `--x` are `x += 1` and `x -= 1`; `x++` and `x--` give the value before that,
      which is what taking the step back from the new value gives, wrap-around included. */
  lemma StepLaws(sh: Shell, t: Target, env: Stack, depth: nat)
    requires depth <= MAX_VARIABLE_DEREF_DEPTH
    ensures Eval(sh, UnaryAssignment(PrefixIncrement, t), env, depth)
            == Eval(sh, BinaryAssignment(Add, t, Literal(1)), env, depth)
    ensures Eval(sh, UnaryAssignment(PrefixDecrement, t), env, depth)
            == Eval(sh, BinaryAssignment(Subtract, t, Literal(1)), env, depth)
    ensures Eval(sh, UnaryAssignment(PostfixIncrement, t), env, depth)
            == Eval(sh, Binary(Subtract, BinaryAssignment(Add, t, Literal(1)), Literal(1)), env, depth)
    ensures Eval(sh, UnaryAssignment(PostfixDecrement, t), env, depth)
            == Eval(sh, Binary(Add, BinaryAssignment(Subtract, t, Literal(1)), Literal(1)), env, depth)
  {
    PrefixIsCompound(sh, Add, t, env, depth);
    PrefixIsCompound(sh, Subtract, t, env, depth);
    PostfixIsStepBack(sh, Add, t, env, depth);
    PostfixIsStepBack(sh, Subtract, t, env, depth);
  }

  /** The parser reads a printed number as that number: a literal, or a minus and a literal. */
  ghost predicate ReadsNumber(parse: Parser, n: I64) {
    parse(ShowInt(n)) == Some(if n >= 0 then Literal(n) else Unary(UnaryMinus, Literal(Wrap(-(n as int)))))
  }

  ghost predicate ReadsNumbers(parse: Parser) {
    forall n: I64 :: ReadsNumber(parse, n)
  }

  lemma NegativeIsRead(sh: Shell, n: I64, env: Stack, depth: nat)
    requires n < 0 && depth <= MAX_VARIABLE_DEREF_DEPTH
    ensures Eval(sh, Unary(UnaryMinus, Literal(Wrap(-(n as int)))), env, depth) == Outcome(Ok(n), env)
  {
    var literal: I64 := Wrap(-(n as int));
    assert Eval(sh, Literal(literal), env, depth) == Outcome(Ok(literal), env);
    assert Wrap(-(literal as int)) == n;
  }

  /** The text of a number evaluates to the number; the sign takes one more level. */
  lemma NumberTextIsRead(sh: Shell, n: I64, env: Stack, depth: nat)
    requires depth <= MAX_VARIABLE_DEREF_DEPTH && ReadsNumbers(sh.parse)
    ensures EvalText(sh, Ok(ShowInt(n)), env, depth)
            == Outcome(if n >= 0 || depth < MAX_VARIABLE_DEREF_DEPTH then Ok(n) else Err(RecursionLimitExceeded), env)
  {
    assert ReadsNumber(sh.parse, n);
    if n < 0 && depth < MAX_VARIABLE_DEREF_DEPTH {
      NegativeIsRead(sh, n, env, depth + 1);
    }
  }

  lemma AssignedText(options: Options, name: string, n: I64, env: Stack)
    requires AssignVariable(options, name, n, env).value.Ok?
    ensures VariableText(options, name, AssignVariable(options, name, n, env).env) == Ok(ShowInt(n))
  {
    ReadAfterUpdate(env, name, ShowInt(n), Anywhere, Global, options.autoExport);
  }

  /** What an assignment stored, a later reference evaluates to, unless the number is negative
      and the limit has been reached: reading its sign takes one more level. */
  lemma AssignedIsRead(sh: Shell, name: string, value: Expr, env: Stack, depth: nat)
    requires depth <= MAX_VARIABLE_DEREF_DEPTH && ReadsNumbers(sh.parse)
    requires Eval(sh, Assignment(Var(name), value), env, depth).value.Ok?
    ensures var r := Eval(sh, Assignment(Var(name), value), env, depth);
            Eval(sh, Reference(Var(name)), r.env, depth) == r
            <==> r.value.value >= 0 || depth < MAX_VARIABLE_DEREF_DEPTH
  {
    var a := Eval(sh, value, env, depth);
    var r := AssignVariable(sh.options, name, a.value.value, a.env);
    assert Eval(sh, Assignment(Var(name), value), env, depth) == r by {
      assert Assign(sh, Var(name), a.value.value, a.env, depth) == r;
    }
    AssignedText(sh.options, name, a.value.value, a.env);
    EvalVariable(sh, name, r.env, depth);
    NumberTextIsRead(sh, a.value.value, r.env, depth);
  }

  /** The elements that a variable has for an assignment to one of them. */
  function ElementsOf(name: string, env: Stack): Option<map<nat, string>> {
    match Lookup(env, name, Anywhere)
    case None => None
    case Some(i) =>
      match AsElements(env[i].vars[name])
      case Err(_) => None
      case Ok(elements) => Some(elements)
  }

  lemma SizeWith(m: map<nat, string>, k: nat, s: string)
    ensures |m[k := s]| == if k in m then |m| else |m| + 1
  {
    assert m[k := s].Keys == m.Keys + {k};
    assert k in m ==> m[k := s].Keys == m.Keys;
    assert |m[k := s]| == |m[k := s].Keys| && |m| == |m.Keys|;
  }

  lemma AfterElementSet(name: string, env: Stack, i: nat, v: Variable, index: int)
    requires Lookup(env, name, Anywhere) == Some(i) && v.value.Indexed?
    ensures ElementText(name, index, SetIn(env, i, name, v))
            == match Key(v.value.elements, index)
               case None => Err(FailedToAccessArray)
               case Some(k) => Ok(if k in v.value.elements then v.value.elements[k] else "")
  {
    FindDependsOn(env, SetIn(env, i, name, v), name, Anywhere, |env|, 0);
  }

  lemma AfterElementAdded(name: string, env: Stack, v: Variable, index: int, autoExport: bool)
    requires Lookup(env, name, Anywhere) == None && v.value.Indexed? && Added(env, name, v, Global, autoExport).Ok?
    ensures ElementText(name, index, Added(env, name, v, Global, autoExport).value)
            == match Key(v.value.elements, index)
               case None => Err(FailedToAccessArray)
               case Some(k) => Ok(if k in v.value.elements then v.value.elements[k] else "")
  {
    var i := Topmost(env, Global).value;
    FindCreated(env, i, name, v.(exported := v.exported || autoExport), Anywhere, |env|, 0);
  }

  /** An element reads as the number assigned to it exactly if its subscript is not negative, or counts
      back to an element that was there before, or is the -1 of a new array: assigning to a gap makes one
      element more, and then the same subscript counts back to the place behind. */
  lemma ElementAssignedIsRead(options: Options, name: string, index: int, n: I64, env: Stack)
    requires AssignElement(options, name, index, n, env).value.Ok?
    ensures var before := ElementsOf(name, env);
            ElementText(name, index, AssignElement(options, name, index, n, env).env) == Ok(ShowInt(n))
            <==> match before
                 case None => index >= -1
                 case Some(elements) =>
                   var k := index + |elements|;
                   index >= 0 || k in elements || (k + 1 in elements && elements[k + 1] == ShowInt(n))
  {
    hide Lookup, Added, SetIn, Find;
    match Lookup(env, name, Anywhere)
    case None =>
      var v := Variable(Indexed(map[if index < 0 then 0 else index := ShowInt(n)]), false, false);
      AfterElementAdded(name, env, v, index, options.autoExport);
    case Some(i) =>
      var v := env[i].vars[name];
      var elements := AsElements(v).value;
      var k := Key(elements, index).value;
      AfterElementSet(name, env, i, v.(value := Indexed(elements[k := ShowInt(n)])), index);
      SizeWith(elements, k, ShowInt(n));
      NotEmpty(n);
  }

  lemma NotEmpty(n: int)
    ensures ShowInt(n) != ""
  {
  }

  /** Assigning to an element leaves the others, and a string that becomes an array is its element 0. */
  lemma ElementAssignKeepsOthers(options: Options, name: string, index: int, n: I64, env: Stack, other: nat)
    requires AssignElement(options, name, index, n, env).value.Ok?
    requires match ElementsOf(name, env)
             case None => other != index && (index < 0 ==> other > 0)
             case Some(elements) => other != if index < 0 then index + |elements| else index
    ensures ElementText(name, other, AssignElement(options, name, index, n, env).env) == ElementText(name, other, env)
  {
    hide Lookup, Added, SetIn, Find;
    match Lookup(env, name, Anywhere)
    case None =>
      var v := Variable(Indexed(map[if index < 0 then 0 else index := ShowInt(n)]), false, false);
      AfterElementAdded(name, env, v, other, options.autoExport);
    case Some(i) =>
      var v := env[i].vars[name];
      var elements := AsElements(v).value;
      AfterElementSet(name, env, i, v.(value := Indexed(elements[Key(elements, index).value := ShowInt(n)])), other);
  }

  /** Element 0 of what has a value is that value itself, and so is any other of a string that is not
      positive. */
  lemma ElementZeroIs(sh: Shell, name: string, i: I64, env: Stack, depth: nat)
    requires depth <= MAX_VARIABLE_DEREF_DEPTH
    requires var v := Read(env, name, Anywhere); v.Some? && (v.value.value.Str? || (v.value.value.Indexed? && i == 0))
    ensures i <= 0 ==> Eval(sh, Reference(Element(name, Literal(i))), env, depth) == Eval(sh, Reference(Var(name)), env, depth)
    ensures i > 0 ==> Eval(sh, Reference(Element(name, Literal(i))), env, depth) == EvalText(sh, Ok(""), env, depth)
  {
    hide EvalText;
    EvalVariable(sh, name, env, depth);
    assert Eval(sh, Literal(i), env, depth) == Outcome(Ok(i), env);
    assert Eval(sh, Reference(Element(name, Literal(i))), env, depth) == Deref(sh, Element(name, Literal(i)), env, depth);
  }

  /** A variable that is not there or holds nothing is an error under nounset, and else as good as empty. */
  lemma UnsetIs(sh: Shell, name: string, env: Stack, depth: nat)
    requires depth <= MAX_VARIABLE_DEREF_DEPTH
    requires var v := Read(env, name, Anywhere); v.None? || v.value.value.Unset?
    ensures Eval(sh, Reference(Var(name)), env, depth)
            == if sh.options.nounset then Outcome(Err(ExpandingUnsetVariable), env) else EvalText(sh, Ok(""), env, depth)
  {
    EvalVariable(sh, name, env, depth);
  }
}
