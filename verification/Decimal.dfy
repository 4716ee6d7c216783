/** Decimal text of 64-bit integers, as the standard formatter prints it and the standard
    parser reads it. */
module Decimal {
  import opened Wrappers

  const I64_MAX: int := 0x7FFF_FFFF_FFFF_FFFF

  /** A signed 64-bit integer. */
  type I64 = x: int | -I64_MAX - 1 <= x <= I64_MAX

  function Digit(d: nat): char
    requires d < 10
  {
    ('0' as int + d) as char
  }

  function ShowNat(n: nat): (s: string)
    ensures s != ""
  {
    if n < 10 then [Digit(n)] else ShowNat(n / 10) + [Digit(n % 10)]
  }

  function ShowInt(n: int): string {
    if n < 0 then "-" + ShowNat(-n) else ShowNat(n)
  }

  predicate IsDigit(c: char) {
    '0' <= c <= '9'
  }

  function Value(c: char): (d: nat)
    requires IsDigit(c)
    ensures d < 10
  {
    c as int - '0' as int
  }

  function ReadNat(s: string): (r: Option<int>)
    ensures r.Some? ==> r.value >= 0
  {
    if s == "" then None
    else
      var c, init := s[|s| - 1], s[..|s| - 1];
      if !IsDigit(c) then None
      else if init == "" then Some(Value(c))
      else
        match ReadNat(init)
        case None => None
        case Some(n) => Some(10 * n + Value(c))
  }

  /** A decimal 64-bit integer with an optional sign. */
  function ReadI64(s: string): Option<int> {
    var negative := s != "" && s[0] == '-';
    var digits := if s != "" && (s[0] == '-' || s[0] == '+') then s[1..] else s;
    match ReadNat(digits)
    case None => None
    case Some(n) =>
      var v := if negative then -n else n;
      if -I64_MAX - 1 <= v <= I64_MAX then Some(v) else None
  }

  lemma {:induction false} ReadShown(n: nat)
    ensures ReadNat(ShowNat(n)) == Some(n) && ShowNat(n) != ""
    ensures forall i :: 0 <= i < |ShowNat(n)| ==> IsDigit(ShowNat(n)[i])
  {
    if n >= 10 {
      ReadShown(n / 10);
      assert (ShowNat(n / 10) + [Digit(n % 10)])[..|ShowNat(n / 10)|] == ShowNat(n / 10);
    }
  }

  /** A printed number is read back, and holds digits and a sign only. */
  lemma ReadShownInt(n: int)
    requires -I64_MAX - 1 <= n <= I64_MAX
    ensures ReadI64(ShowInt(n)) == Some(n)
    ensures forall i :: 0 <= i < |ShowInt(n)| ==> IsDigit(ShowInt(n)[i]) || ShowInt(n)[i] == '-'
    ensures ShowInt(n) != ""
  {
    hide ReadNat, ShowNat;
    if n < 0 {
      ReadShown(-n);
      var digits := ShowNat(-n);
      assert ShowInt(n) == ['-'] + digits && (['-'] + digits)[1..] == digits;
    } else {
      ReadShown(n);
      var digits := ShowNat(n);
      assert IsDigit(digits[0]);
    }
  }
}
