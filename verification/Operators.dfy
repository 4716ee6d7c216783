/** What the operators of arithmetic compute, in terms of each other
    (brush-core/src/arithmetic.rs:175-193 and 235-330). */
module Operators {
  import opened Wrappers
  import opened Decimal
  import opened Wrapping
  import opened Arithmetic

  predicate IsLogical(op: BinaryOperator) { op == LogicalAnd || op == LogicalOr }

  /** The value of an operator on two numbers. */
  function Of(sh: Shell, op: BinaryOperator, a: I64, b: I64): Result<I64, EvalError> {
    Eval(sh, Binary(op, Literal(a), Literal(b)), [], 0).value
  }

  /** The same, where it has a value. */
  predicate Gives(sh: Shell, op: BinaryOperator, a: I64, b: I64, n: I64) { Of(sh, op, a, b) == Ok(n) }

  lemma OnLiterals(sh: Shell, op: BinaryOperator, a: I64, b: I64)
    requires !IsLogical(op)
    ensures Of(sh, op, a, b) == ApplyBinary(op, a, b)
  {
    hide ApplyBinary;
    assert Eval(sh, Literal(a), [], 0) == Outcome(Ok(a), []) && Eval(sh, Literal(b), [], 0) == Outcome(Ok(b), []);
    assert Eval(sh, Binary(op, Literal(a), Literal(b)), [], 0) == EvalBinary(sh, op, Literal(a), Literal(b), [], 0);
  }

  /** On expressions, the left operand is evaluated first, and only the two values matter. */
  lemma OperandsDecide(sh: Shell, op: BinaryOperator, x: Expr, y: Expr, env: Environment.Stack, depth: nat)
    requires !IsLogical(op) && depth <= MAX_VARIABLE_DEREF_DEPTH
    ensures var l := Eval(sh, x, env, depth);
            Eval(sh, Binary(op, x, y), env, depth)
            == if l.value.Err? then l
               else
                 var r := Eval(sh, y, l.env, depth);
                 if r.value.Err? then r else Outcome(Of(sh, op, l.value.value, r.value.value), r.env)
  {
    hide ApplyBinary;
    var l := Eval(sh, x, env, depth);
    assert Eval(sh, Binary(op, x, y), env, depth) == EvalBinary(sh, op, x, y, env, depth);
    if l.value.Ok? {
      var r := Eval(sh, y, l.env, depth);
      if r.value.Ok? {
        OnLiterals(sh, op, l.value.value, r.value.value);
      }
    }
  }

  // ----- Comparison -----------------------------------------------------------------------------

  /** Of less, equal and greater exactly one holds, and the other comparisons are their negations. */
  lemma Trichotomy(sh: Shell, a: I64, b: I64)
    ensures [Of(sh, LessThan, a, b), Of(sh, Equals, a, b), Of(sh, GreaterThan, a, b)]
            in {[Ok(1), Ok(0), Ok(0)], [Ok(0), Ok(1), Ok(0)], [Ok(0), Ok(0), Ok(1)]}
    ensures Of(sh, GreaterThan, a, b) == Of(sh, LessThan, b, a)
    ensures Gives(sh, LessThanOrEqualTo, a, b, 1) <==> Gives(sh, GreaterThan, a, b, 0)
    ensures Gives(sh, LessThanOrEqualTo, a, b, 0) <==> Gives(sh, GreaterThan, a, b, 1)
    ensures Gives(sh, GreaterThanOrEqualTo, a, b, 1) <==> Gives(sh, LessThan, a, b, 0)
    ensures Gives(sh, GreaterThanOrEqualTo, a, b, 0) <==> Gives(sh, LessThan, a, b, 1)
    ensures Gives(sh, NotEquals, a, b, 1) <==> Gives(sh, Equals, a, b, 0)
    ensures Gives(sh, NotEquals, a, b, 0) <==> Gives(sh, Equals, a, b, 1)
  {
    hide Of;
    OnLiterals(sh, LessThan, a, b);
    OnLiterals(sh, LessThan, b, a);
    OnLiterals(sh, Equals, a, b);
    OnLiterals(sh, GreaterThan, a, b);
    OnLiterals(sh, LessThanOrEqualTo, a, b);
    OnLiterals(sh, GreaterThanOrEqualTo, a, b);
    OnLiterals(sh, NotEquals, a, b);
  }

  lemma LessIsTransitive(sh: Shell, a: I64, b: I64, c: I64)
    requires Gives(sh, LessThan, a, b, 1) && Gives(sh, LessThan, b, c, 1)
    ensures Gives(sh, LessThan, a, c, 1)
  {
    hide Of;
    OnLiterals(sh, LessThan, a, b);
    OnLiterals(sh, LessThan, b, c);
    OnLiterals(sh, LessThan, a, c);
  }

  /** One more is more, below the largest number; behind that comes the smallest. */
  lemma NextIsGreater(sh: Shell, a: I64)
    ensures var next := Of(sh, Add, a, 1);
            next.Ok? && Gives(sh, LessThan, a, next.value, if a < I64_MAX then 1 else 0)
    ensures a == I64_MAX ==> Gives(sh, Add, a, 1, -I64_MAX - 1)
  {
    hide Of;
    OnLiterals(sh, Add, a, 1);
    OnLiterals(sh, LessThan, a, Of(sh, Add, a, 1).value);
  }

  // ----- Sums and products ----------------------------------------------------------------------

  lemma SumIs(sh: Shell, a: I64, b: I64)
    ensures Of(sh, Add, a, b) == Ok(Wrap(a + b)) && Of(sh, Subtract, a, b) == Ok(Wrap(a - b))
  {
    hide Of;
    OnLiterals(sh, Add, a, b);
    OnLiterals(sh, Subtract, a, b);
  }

  /** Addition counts up, with wrap-around, and subtraction undoes it. */
  lemma SumLaws(sh: Shell, a: I64, b: I64)
    ensures Gives(sh, Add, a, 0, a)
    ensures var next, sum := Of(sh, Add, b, 1), Of(sh, Add, a, b);
            next.Ok? && sum.Ok? && Of(sh, Add, a, next.value) == Of(sh, Add, sum.value, 1)
    ensures var difference := Of(sh, Subtract, a, b);
            difference.Ok? && Gives(sh, Add, difference.value, b, a)
  {
    hide Of, Wrap;
    WrapOfI64(a);
    SumIs(sh, a, 0);
    SumIs(sh, b, 1);
    SumIs(sh, a, b);
    SumIs(sh, a, Wrap(b + 1));
    SumIs(sh, Wrap(a + b), 1);
    SumIs(sh, Wrap(a - b), b);
    WrapSum(b + 1, a);
    WrapSum(a + b, 1);
    WrapSum(a - b, b);
  }

  lemma ProductIs(sh: Shell, a: I64, b: I64)
    ensures Of(sh, Multiply, a, b) == Ok(Wrap(a * b))
    ensures Of(sh, Pow, a, b) == if b >= 0 then Ok(Wrap(Power(a, b))) else Err(NegativeExponent)
  {
    hide Of;
    OnLiterals(sh, Multiply, a, b);
    OnLiterals(sh, Pow, a, b);
  }

  lemma OneFactorMore(a: int, b: int)
    ensures Wrap(a * Wrap(b + 1)) == Wrap(Wrap(a * b) + a)
  {
    hide Wrap;
    WrapProduct(b + 1, a);
    Commute(Wrap(b + 1), a);
    WrapSum(a * b, a);
    assert (b + 1) * a == a * b + a;
  }

  /** Multiplication adds up, and exponentiation multiplies up; a negative exponent is an error. */
  lemma ProductLaws(sh: Shell, a: I64, b: I64)
    ensures Gives(sh, Multiply, a, 0, 0) && Gives(sh, Pow, a, 0, 1)
    ensures var next, product := Of(sh, Add, b, 1), Of(sh, Multiply, a, b);
            next.Ok? && product.Ok? && Of(sh, Multiply, a, next.value) == Of(sh, Add, product.value, a)
    ensures 0 <= b < I64_MAX ==>
              var power := Of(sh, Pow, a, b);
              power.Ok? && Of(sh, Pow, a, b + 1) == Of(sh, Multiply, power.value, a)
    ensures b < 0 ==> Of(sh, Pow, a, b) == Err(NegativeExponent)
  {
    hide Of, Wrap, Power;
    WrapOfI64(0);
    WrapOfI64(1);
    ProductIs(sh, a, 0);
    assert a * 0 == 0;
    PowerStep(a, 0);
    ProductIs(sh, a, b);
    SumIs(sh, b, 1);
    ProductIs(sh, a, Wrap(b + 1));
    SumIs(sh, Wrap(a * b), a);
    OneFactorMore(a, b);
    if 0 <= b < I64_MAX {
      ProductIs(sh, a, b + 1);
      PowerStep(a, b);
      ProductIs(sh, Wrap(Power(a, b)), a);
      WrapProduct(Power(a, b), a);
      Commute(a, Power(a, b));
    }
  }

  lemma PowerStep(a: int, b: nat)
    ensures Power(a, b + 1) == a * Power(a, b) && Power(a, 0) == 1
  {
  }

  function Magnitude(n: int): int { if n < 0 then -n else n }

  lemma QuotientIs(sh: Shell, a: I64, b: I64)
    ensures b == 0 ==> Of(sh, Divide, a, b) == Of(sh, Modulo, a, b) == Err(DivideByZero)
    ensures b != 0 ==> Of(sh, Divide, a, b) == Ok(Wrap(TruncDiv(a, b))) && Of(sh, Modulo, a, b) == Ok(Wrap(a - b * TruncDiv(a, b)))
  {
    hide Of, TruncDiv;
    OnLiterals(sh, Divide, a, b);
    OnLiterals(sh, Modulo, a, b);
  }

  lemma RemainderIs(a: int, b: int)
    requires b != 0
    ensures var m := a - b * TruncDiv(a, b);
            && -Magnitude(b) < m < Magnitude(b)
            && (a >= 0 ==> m >= 0) && (a <= 0 ==> m <= 0)
  {
    var n := Magnitude(a);
    DivMod(n, b);
    assert b * -(n / b) == -(b * (n / b)) by { Negate(b, n / b); }
  }

  lemma DivMod(n: int, b: int)
    requires b != 0
    ensures n == b * (n / b) + n % b && 0 <= n % b < Magnitude(b)
  {
  }

  lemma Negate(a: int, b: int)
    ensures a * -b == -(a * b)
  {
  }

  lemma MadeUp(a: int, b: int, q: int)
    ensures Wrap(Wrap(Wrap(q) * b) + (a - b * q)) == Wrap(a)
  {
    hide Wrap;
    WrapProduct(q, b);
    WrapSum(q * b, a - b * q);
    Commute(q, b);
  }

  /** Quotient and remainder make up the number; the remainder is smaller than the divisor and has the sign
      of the number. Dividing by 0 is an error. */
  lemma DivisionLaws(sh: Shell, a: I64, b: I64)
    ensures b == 0 ==> Of(sh, Divide, a, b) == Of(sh, Modulo, a, b) == Err(DivideByZero)
    ensures b != 0 ==>
              var q, m := Of(sh, Divide, a, b), Of(sh, Modulo, a, b);
              && q.Ok? && m.Ok? && -Magnitude(b) < m.value < Magnitude(b)
              && (a >= 0 ==> m.value >= 0) && (a <= 0 ==> m.value <= 0)
              && var product := Of(sh, Multiply, q.value, b);
                 product.Ok? && Gives(sh, Add, product.value, m.value, a)
  {
    hide Of, Wrap, TruncDiv, Magnitude;
    QuotientIs(sh, a, b);
    if b != 0 {
      var q := TruncDiv(a, b);
      var m := a - b * q;
      RemainderIs(a, b);
      assert -I64_MAX - 1 <= m <= I64_MAX by { RemainderIsSmall(a, b); }
      WrapOfI64(m);
      WrapOfI64(a);
      ProductIs(sh, Wrap(q), b);
      SumIs(sh, Wrap(Wrap(q) * b), m);
      MadeUp(a, b, q);
    }
  }

  lemma RemainderIsSmall(a: I64, b: I64)
    requires b != 0
    ensures -I64_MAX - 1 <= a - b * TruncDiv(a, b) <= I64_MAX
  {
    RemainderIs(a, b);
  }

  // ----- Shifts ---------------------------------------------------------------------------------

  /** Division by 2^n, rounded down. */
  function Halved(a: int, n: nat): int { PowerPositive(n); a / Power(2, n) }

  lemma LeftShiftIs(sh: Shell, a: I64, n: I64)
    ensures Of(sh, ShiftLeft, a, n) == Ok(Wrap(a * Power(2, n % 64)))
  {
    hide Of;
    OnLiterals(sh, ShiftLeft, a, n);
  }

  lemma RightShiftIs(sh: Shell, a: I64, n: I64)
    ensures -I64_MAX - 1 <= Halved(a, n % 64) <= I64_MAX && Of(sh, ShiftRight, a, n) == Ok(Halved(a, n % 64))
  {
    hide Of, Power, Wrap;
    PowerPositive(n % 64);
    OnLiterals(sh, ShiftRight, a, n);
    DivIsSmaller(a, Power(2, n % 64));
    WrapOfI64(Halved(a, n % 64));
  }

  lemma HalvedStep(a: int, n: nat)
    ensures Halved(a, n + 1) == Halved(a, n) / 2 == Halved(a / 2, n)
    ensures Halved(a, 0) == a
  {
    hide Power;
    PowerPositive(n);
    PowerStep(2, n);
    DivTwice(a, Power(2, n));
    assert a / 1 == a;
  }

  lemma Multiple(d: int, k: int)
    requires d > 0
    ensures k >= 1 ==> d * k >= d && d * k >= k
    ensures k <= -1 ==> d * k <= -d
    ensures k <= 0 ==> d * k <= k
  {
  }

  lemma DivIs(n: int, d: int, q: int, r: int)
    requires d > 0 && n == d * q + r && 0 <= r < d
    ensures n / d == q && n % d == r
  {
    var q', r' := n / d, n % d;
    DivMod(n, d);
    assert d * (q - q') == r' - r by { assert d * (q - q') == d * q - d * q'; }
    Multiple(d, q - q');
  }

  lemma DivTwice(n: int, d: int)
    requires d > 0
    ensures 2 * d > 0 && n / (2 * d) == n / d / 2 == n / 2 / d
  {
    var q, r := n / d, n % d;
    assert 2 * d * (q / 2) + (d * (q % 2) + r) == n by {
      assert 2 * d * (q / 2) == d * (2 * (q / 2));
      assert d * (2 * (q / 2)) + d * (q % 2) == d * (2 * (q / 2) + q % 2);
    }
    assert 0 <= d * (q % 2) <= d by { assert q % 2 == 0 || q % 2 == 1; }
    DivIs(n, 2 * d, q / 2, d * (q % 2) + r);
    var h := n / 2;
    assert 2 * d * (h / d) + (2 * (h % d) + n % 2) == n by { assert 2 * d * (h / d) == 2 * (d * (h / d)); }
    DivIs(n, 2 * d, h / d, 2 * (h % d) + n % 2);
  }

  lemma DivIsSmaller(a: I64, d: int)
    requires d > 0
    ensures -I64_MAX - 1 <= a / d <= I64_MAX
  {
    var q := a / d;
    DivMod(a, d);
    Multiple(d, q);
    Multiple(d, q + 1);
    assert d * (q + 1) == d * q + d;
  }

  lemma LeftShiftLaw(sh: Shell, a: I64, n: I64)
    requires 0 <= n < 63
    ensures var left := Of(sh, ShiftLeft, a, n); left.Ok? && Of(sh, ShiftLeft, a, n + 1) == Of(sh, Multiply, left.value, 2)
  {
    hide Of, Wrap, Power;
    LeftShiftIs(sh, a, n);
    LeftShiftIs(sh, a, n + 1);
    PowerStep(2, n);
    var d := Power(2, n);
    ProductIs(sh, Wrap(a * d), 2);
    WrapProduct(a * d, 2);
    Commute(2, d);
    Associate(a, d, 2);
  }

  /** A shift to the left by one more doubles, with wrap-around; a shift to the right by one more halves and
      rounds down; and only the lowest six bits of the distance count. */
  lemma ShiftLaws(sh: Shell, a: I64, n: I64)
    ensures Gives(sh, ShiftLeft, a, 0, a) && Gives(sh, ShiftRight, a, 0, a)
    ensures 0 <= n < 63 ==>
              var left, right := Of(sh, ShiftLeft, a, n), Of(sh, ShiftRight, a, n);
              && left.Ok? && Of(sh, ShiftLeft, a, n + 1) == Of(sh, Multiply, left.value, 2)
              && right.Ok? && Of(sh, ShiftRight, a, n + 1) == Ok(right.value / 2)
    ensures n <= I64_MAX - 64 ==>
              Of(sh, ShiftLeft, a, n + 64) == Of(sh, ShiftLeft, a, n) && Of(sh, ShiftRight, a, n + 64) == Of(sh, ShiftRight, a, n)
  {
    hide Of, Wrap, Power, Halved;
    PowerStep(2, 0);
    WrapOfI64(a);
    LeftShiftIs(sh, a, 0);
    assert a * 1 == a;
    RightShiftIs(sh, a, 0);
    HalvedStep(a, 0);
    if n <= I64_MAX - 64 {
      LeftShiftIs(sh, a, n);
      LeftShiftIs(sh, a, n + 64);
      RightShiftIs(sh, a, n);
      RightShiftIs(sh, a, n + 64);
      assert (n + 64) % 64 == n % 64;
    }
    if 0 <= n < 63 {
      LeftShiftLaw(sh, a, n);
      RightShiftIs(sh, a, n);
      RightShiftIs(sh, a, n + 1);
      HalvedStep(a, n);
    }
  }

  // ----- Bits -----------------------------------------------------------------------------------

  /** The bit in place `i`: whether the number shifted that far is odd. */
  predicate Bit(sh: Shell, n: I64, i: nat)
    requires i < 64
  {
    var shifted := Of(sh, ShiftRight, n, i);
    shifted.Ok? && shifted.value % 2 == 1
  }

  predicate Odd(n: int) { n % 2 == 1 }

  lemma BitIs(sh: Shell, n: I64, i: nat)
    requires i < 64
    ensures Bit(sh, n, i) <==> Odd(Halved(n, i))
  {
    hide Of, Halved;
    RightShiftIs(sh, n, i);
  }

  lemma {:induction false} BitwiseBit(f: (bool, bool) -> bool, a: int, b: int, n: nat, i: nat)
    requires i < n
    ensures Odd(Halved(Bitwise(f, a, b, n), i)) <==> f(Odd(Halved(a, i)), Odd(Halved(b, i)))
    decreases i
  {
    hide Halved;
    var all := Bitwise(f, a, b, n);
    assert all / 2 == Bitwise(f, a / 2, b / 2, n - 1);
    if i == 0 {
      HalvedStep(all, 0);
      HalvedStep(a, 0);
      HalvedStep(b, 0);
    } else {
      BitwiseBit(f, a / 2, b / 2, n - 1, i - 1);
      HalvedStep(all, i - 1);
      HalvedStep(a, i - 1);
      HalvedStep(b, i - 1);
    }
  }

  /** Wrapping keeps the lower 64 bits. */
  lemma {:induction false} MultipleKeepsBit(n: int, k: int, m: nat, i: nat)
    requires i < m
    ensures Odd(Halved(n + k * Power(2, m), i)) <==> Odd(Halved(n, i))
    decreases i
  {
    hide Halved, Power;
    var all := n + k * Power(2, m);
    PowerStep(2, m - 1);
    var half := k * Power(2, m - 1);
    assert k * Power(2, m) == 2 * half by { Factors(k, Power(2, m - 1)); }
    assert all / 2 == n / 2 + half && Odd(all) == Odd(n);
    HalvedStep(all, 0);
    HalvedStep(n, 0);
    if i > 0 {
      MultipleKeepsBit(n / 2, k, m - 1, i - 1);
      HalvedStep(all, i - 1);
      HalvedStep(n, i - 1);
    }
  }

  lemma Factors(k: int, e: int)
    ensures k * (2 * e) == 2 * (k * e)
  {
  }

  lemma WrapKeepsBit(n: int, i: nat)
    requires i < 64
    ensures Odd(Halved(Wrap(n), i)) <==> Odd(Halved(n, i))
  {
    hide Wrap, Power, Halved;
    var k := WrapDifference(n);
    PowersOfTwo();
    MultipleKeepsBit(n, k, 64, i);
  }

  lemma BitwiseIs(sh: Shell, f: (bool, bool) -> bool, a: I64, b: I64, i: nat)
    requires i < 64
    ensures Bit(sh, Wrap(Bitwise(f, a, b, 64)), i) <==> f(Bit(sh, a, i), Bit(sh, b, i))
  {
    hide Wrap, Halved, Bitwise, Bit;
    BitIs(sh, a, i);
    BitIs(sh, b, i);
    BitIs(sh, Wrap(Bitwise(f, a, b, 64)), i);
    WrapKeepsBit(Bitwise(f, a, b, 64), i);
    BitwiseBit(f, a, b, 64, i);
  }

  /** `&`, `|` and `^` work in each place by itself. */
  lemma BitLaws(sh: Shell, a: I64, b: I64, i: nat)
    requires i < 64
    ensures var both, one, differ := Of(sh, BitwiseAnd, a, b), Of(sh, BitwiseOr, a, b), Of(sh, BitwiseXor, a, b);
            && both.Ok? && (Bit(sh, both.value, i) <==> Bit(sh, a, i) && Bit(sh, b, i))
            && one.Ok? && (Bit(sh, one.value, i) <==> Bit(sh, a, i) || Bit(sh, b, i))
            && differ.Ok? && (Bit(sh, differ.value, i) <==> Bit(sh, a, i) != Bit(sh, b, i))
  {
    hide Of, Wrap, Bitwise, Bit;
    OnLiterals(sh, BitwiseAnd, a, b);
    OnLiterals(sh, BitwiseOr, a, b);
    OnLiterals(sh, BitwiseXor, a, b);
    BitwiseIs(sh, (p, q) => p && q, a, b, i);
    BitwiseIs(sh, (p, q) => p || q, a, b, i);
    BitwiseIs(sh, (p, q) => p != q, a, b, i);
  }

  // ----- Other operators ------------------------------------------------------------------------

  function Sign(sh: Shell, op: UnaryOperator, a: I64): Result<I64, EvalError> { Eval(sh, Unary(op, Literal(a)), [], 0).value }

  lemma SignIs(sh: Shell, op: UnaryOperator, x: Expr, env: Environment.Stack, depth: nat)
    requires depth <= MAX_VARIABLE_DEREF_DEPTH
    ensures var r := Eval(sh, x, env, depth);
            Eval(sh, Unary(op, x), env, depth) == if r.value.Err? then r else Outcome(Sign(sh, op, r.value.value), r.env)
  {
    var r := Eval(sh, x, env, depth);
    if r.value.Ok? {
      assert Eval(sh, Literal(r.value.value), [], 0) == Outcome(Ok(r.value.value), []);
    }
  }

  lemma OnLiteral(sh: Shell, op: UnaryOperator, a: I64)
    ensures Sign(sh, op, a) == Ok(ApplyUnary(op, a))
  {
    assert Eval(sh, Literal(a), [], 0) == Outcome(Ok(a), []);
  }

  /** `-a` is `0 - a`, `~a` is `-1 - a`, `!a` is `a == 0`, and a comma gives its right operand. */
  lemma SignLaws(sh: Shell, a: I64, b: I64)
    ensures Sign(sh, UnaryPlus, a) == Ok(a) && Sign(sh, UnaryMinus, a) == Of(sh, Subtract, 0, a)
    ensures Sign(sh, BitwiseNot, a) == Of(sh, Subtract, -1, a)
    ensures Sign(sh, LogicalNot, a) == Of(sh, Equals, a, 0)
    ensures Gives(sh, Comma, a, b, b)
  {
    hide Of, Sign;
    OnLiteral(sh, UnaryPlus, a);
    OnLiteral(sh, UnaryMinus, a);
    OnLiteral(sh, BitwiseNot, a);
    OnLiteral(sh, LogicalNot, a);
    OnLiterals(sh, Subtract, 0, a);
    OnLiterals(sh, Subtract, -1, a);
    OnLiterals(sh, Equals, a, 0);
    OnLiterals(sh, Comma, a, b);
  }

  lemma TruthIs(sh: Shell, y: Expr, env: Environment.Stack, depth: nat)
    requires depth <= MAX_VARIABLE_DEREF_DEPTH
    ensures var r := Eval(sh, y, env, depth);
            Eval(sh, Conditional(y, Literal(1), Literal(0)), env, depth)
            == if r.value.Err? then r else Outcome(Ok(Truth(r.value.value != 0)), r.env)
  {
    var r := Eval(sh, y, env, depth);
    assert Eval(sh, Literal(1), r.env, depth) == Outcome(Ok(1), r.env);
    assert Eval(sh, Literal(0), r.env, depth) == Outcome(Ok(0), r.env);
  }

  /** `&&` and `||` are conditionals whose other branch is not evaluated. */
  lemma LogicIsConditional(sh: Shell, x: Expr, y: Expr, env: Environment.Stack, depth: nat)
    requires depth <= MAX_VARIABLE_DEREF_DEPTH
    ensures Eval(sh, Binary(LogicalAnd, x, y), env, depth)
            == Eval(sh, Conditional(x, Conditional(y, Literal(1), Literal(0)), Literal(0)), env, depth)
    ensures Eval(sh, Binary(LogicalOr, x, y), env, depth)
            == Eval(sh, Conditional(x, Literal(1), Conditional(y, Literal(1), Literal(0))), env, depth)
  {
    hide ApplyBinary;
    var l := Eval(sh, x, env, depth);
    TruthIs(sh, y, l.env, depth);
    assert Eval(sh, Literal(1), l.env, depth) == Outcome(Ok(1), l.env);
    assert Eval(sh, Literal(0), l.env, depth) == Outcome(Ok(0), l.env);
    assert Eval(sh, Binary(LogicalAnd, x, y), env, depth) == EvalBinary(sh, LogicalAnd, x, y, env, depth);
    assert Eval(sh, Binary(LogicalOr, x, y), env, depth) == EvalBinary(sh, LogicalOr, x, y, env, depth);
  }

  /** A conditional evaluates its first branch if the condition is not 0, and else its second, and no more. */
  lemma ConditionalIs(sh: Shell, c: Expr, x: Expr, y: Expr, env: Environment.Stack, depth: nat)
    requires depth <= MAX_VARIABLE_DEREF_DEPTH
    ensures var r := Eval(sh, c, env, depth);
            Eval(sh, Conditional(c, x, y), env, depth)
            == if r.value.Err? then r
               else if Of(sh, NotEquals, r.value.value, 0) == Ok(1) then Eval(sh, x, r.env, depth)
               else Eval(sh, y, r.env, depth)
  {
    hide Of;
    var r := Eval(sh, c, env, depth);
    if r.value.Ok? {
      OnLiterals(sh, NotEquals, r.value.value, 0);
    }
  }

  /** `x op= y` is `x = x op y`. */
  lemma CompoundIs(sh: Shell, op: BinaryOperator, t: Target, x: Expr, env: Environment.Stack, depth: nat)
    requires depth <= MAX_VARIABLE_DEREF_DEPTH
    ensures Eval(sh, BinaryAssignment(op, t, x), env, depth) == Eval(sh, Assignment(t, Binary(op, Reference(t), x)), env, depth)
  {
    hide ApplyBinary, Assign, Deref;
    assert Eval(sh, Binary(op, Reference(t), x), env, depth) == EvalBinary(sh, op, Reference(t), x, env, depth);
  }
}
