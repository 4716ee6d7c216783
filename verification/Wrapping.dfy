/** 64-bit machine arithmetic, and exponentiation by squaring in it
    (brush-core/src/arithmetic.rs). */
module Wrapping {
  import opened Decimal

  const TWO_63: int := 0x8000_0000_0000_0000
  const TWO_64: int := 0x1_0000_0000_0000_0000

  /** The signed 64-bit number with the same lower 64 bits. */
  function Wrap(n: int): (w: I64)
    ensures (n - w) % TWO_64 == 0
  {
    (n + TWO_63) % TWO_64 - TWO_63
  }

  function Power(b: int, e: nat): int {
    if e == 0 then 1 else b * Power(b, e - 1)
  }

  /** Division that rounds toward zero. */
  function TruncDiv(a: int, b: int): int
    requires b != 0
  {
    if a >= 0 then a / b else -((-a) / b)
  }

  /** The lowest `n` bits, each from the two bits in its place; a negative number goes on with ones. */
  function Bitwise(f: (bool, bool) -> bool, a: int, b: int, n: nat): int
    decreases n
  {
    if n == 0 then 0 else 2 * Bitwise(f, a / 2, b / 2, n - 1) + if f(a % 2 == 1, b % 2 == 1) then 1 else 0
  }

  function BitAnd(a: I64, b: I64): I64 { Wrap(Bitwise((p, q) => p && q, a, b, 64)) }

  function BitOr(a: I64, b: I64): I64 { Wrap(Bitwise((p, q) => p || q, a, b, 64)) }

  function BitXor(a: I64, b: I64): I64 { Wrap(Bitwise((p, q) => p != q, a, b, 64)) }

  // ----- Wrapping and multiplication ------------------------------------------------------------

  lemma WrapShift(n: int, k: int)
    ensures Wrap(n + k * TWO_64) == Wrap(n)
  {
    assert n + k * TWO_64 + TWO_63 == (n + TWO_63) + k * TWO_64;
    ModShift(n + TWO_63, k);
  }

  lemma ModShift(n: int, k: int)
    ensures (n + k * TWO_64) % TWO_64 == n % TWO_64
  {
    var q, r := n / TWO_64, n % TWO_64;
    assert n + k * TWO_64 == (q + k) * TWO_64 + r;
  }

  /** The multiple of 2^64 that wrapping takes away. */
  lemma WrapDifference(n: int) returns (k: int)
    ensures Wrap(n) == n + k * TWO_64
  {
    k := -((n + TWO_63) / TWO_64);
  }

  lemma WrapOfI64(n: I64)
    ensures Wrap(n) == n
  {
  }

  /** Summands may be wrapped before a sum is. */
  lemma WrapSum(x: int, y: int)
    ensures Wrap(Wrap(x) + y) == Wrap(x + y)
  {
    var k := WrapDifference(x);
    WrapShift(x + y, k);
  }

  /** Factors may be wrapped before a product is. */
  lemma WrapProduct(a: int, b: int)
    ensures Wrap(Wrap(a) * b) == Wrap(a * b)
  {
    var k := WrapDifference(a);
    assert (a + k * TWO_64) * b == a * b + (k * b) * TWO_64;
    WrapShift(a * b, k * b);
  }

  lemma EqualFactors(a: int, p: int, q: int)
    requires Wrap(p) == Wrap(q)
    ensures Wrap(a * p) == Wrap(a * q)
  {
    WrapProduct(p, a);
    WrapProduct(q, a);
    Commute(p, a);
    Commute(q, a);
  }

  lemma Commute(a: int, b: int)
    ensures a * b == b * a
  {
  }

  lemma Associate(a: int, b: int, c: int)
    ensures (a * b) * c == a * (b * c)
  {
  }

  lemma {:induction false} PowerOfWrapped(b: int, e: nat)
    ensures Wrap(Power(Wrap(b), e)) == Wrap(Power(b, e))
  {
    if e > 0 {
      PowerOfWrapped(b, e - 1);
      WrapProduct(b, Power(Wrap(b), e - 1));
      EqualFactors(b, Power(Wrap(b), e - 1), Power(b, e - 1));
    }
  }

  lemma {:induction false} PowerOfSquare(b: int, n: nat)
    ensures Power(b * b, n) == Power(b, 2 * n)
  {
    if n > 0 {
      PowerOfSquare(b, n - 1);
      PowerTwice(b, 2 * n - 2);
    }
  }

  lemma PowerTwice(b: int, n: nat)
    ensures Power(b, n + 2) == (b * b) * Power(b, n)
  {
    assert Power(b, n + 2) == b * Power(b, n + 1) == b * (b * Power(b, n));
    Associate(b, b, Power(b, n));
  }

  lemma OddRound(result: int, base: int, squared: int, half: int)
    requires Wrap(squared) == Wrap(half)
    ensures Wrap(Wrap(result * base) * squared) == Wrap(result * (base * half))
  {
    WrapProduct(result * base, squared);
    EqualFactors(result * base, squared, half);
    Associate(result, base, half);
  }

  lemma SquaredPower(base: int, e: nat)
    ensures Wrap(Power(Wrap(base * base), e / 2)) == Wrap(Power(base, 2 * (e / 2)))
    ensures Power(base, e) == if e % 2 == 1 then base * Power(base, 2 * (e / 2)) else Power(base, 2 * (e / 2))
  {
    PowerOfWrapped(base * base, e / 2);
    PowerOfSquare(base, e / 2);
    assert e % 2 == 1 ==> e - 1 == 2 * (e / 2);
  }

  /** One round: an odd exponent puts one factor into the result. */
  lemma SquareRound(result: int, base: int, e: nat, result': int, base': int)
    requires e > 0
    requires result' == if e % 2 == 1 then Wrap(result * base) else result
    requires base' == Wrap(base * base)
    ensures Wrap(result' * Power(base', e / 2)) == Wrap(result * Power(base, e))
  {
    SquaredPower(base, e);
    if e % 2 == 1 {
      OddRound(result, base, Power(base', e / 2), Power(base, 2 * (e / 2)));
    } else {
      EqualFactors(result, Power(base', e / 2), Power(base, 2 * (e / 2)));
    }
  }

  /** The power still to be multiplied in, and the rounds that it can take. */
  ghost predicate Going(b: int, e: nat, result: int, base: int, exponent: int, rounds: nat) {
    && exponent >= 0
    && Wrap(result * Power(base, exponent)) == Wrap(Power(b, e))
    && rounds <= 64
    && exponent < Power(2, 64 - rounds)
  }

  lemma GoingStart(b: int, e: nat)
    requires e < TWO_64
    ensures Going(b, e, 1, b, e, 0)
  {
    PowersOfTwo();
    assert 1 * Power(b, e) == Power(b, e);
  }

  lemma GoingOn(b: int, e: nat, result: int, base: int, exponent: int, rounds: nat)
    requires Going(b, e, result, base, exponent, rounds) && exponent > 0
    ensures Going(b, e, if exponent % 2 == 1 then Wrap(result * base) else result, Wrap(base * base),
                  exponent / 2, rounds + 1)
  {
    assert rounds < 64 by { assert Power(2, 0) == 1; }
    assert exponent / 2 < Power(2, 64 - (rounds + 1));
    SquareRound(result, base, exponent, if exponent % 2 == 1 then Wrap(result * base) else result, Wrap(base * base));
  }

  lemma GoingEnd(b: int, e: nat, result: I64, base: int, rounds: nat)
    requires Going(b, e, result, base, 0, rounds)
    ensures result == Wrap(Power(b, e)) && rounds <= 64
  {
    assert result * Power(base, 0) == result;
    WrapOfI64(result);
  }

  method SquareAndMultiply(ghost b: int, ghost e: nat, result: I64, base: I64, exponent: nat, ghost rounds: nat)
    returns (result': I64, base': I64, exponent': nat)
    requires Going(b, e, result, base, exponent, rounds) && exponent > 0
    ensures Going(b, e, result', base', exponent', rounds + 1) && exponent' < exponent
  {
    GoingOn(b, e, result, base, exponent, rounds);
    result' := if exponent % 2 == 1 then Wrap(result * base) else result;
    base' := Wrap(base * base);
    exponent' := exponent / 2;
  }

  /** The signed 64-bit representative of b^e, in at most 64 rounds for a 64-bit exponent. */
  method WrappingPow(b: I64, e: nat) returns (result: I64, ghost rounds: nat)
    requires e < TWO_64
    ensures result == Wrap(Power(b, e))
    ensures rounds <= 64
  {
    result := 1;
    var base, exponent := b, e;
    rounds := 0;
    GoingStart(b, e);
    while exponent > 0
      invariant Going(b, e, result, base, exponent, rounds)
    {
      result, base, exponent := SquareAndMultiply(b, e, result, base, exponent, rounds);
      rounds := rounds + 1;
    }
    GoingEnd(b, e, result, base, rounds);
  }

  lemma PowersOfTwo()
    ensures Power(2, 64) == TWO_64
  {
    PowerOfSquare(2, 32);
    PowerOfSquare(4, 16);
    PowerOfSquare(16, 8);
    PowerOfSquare(256, 4);
    PowerOfSquare(0x1_0000, 2);
    PowerOfSquare(0x1_0000_0000, 1);
    assert Power(TWO_64, 1) == TWO_64 * Power(TWO_64, 0);
  }
}
