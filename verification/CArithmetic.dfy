// C integer arithmetic that differs from Dafny's.

module CArithmetic {

  // Values of an unsigned 32-bit word.
  const TWO_TO_THE_32: int := 0x1_0000_0000

  // C's "a / 2" on signed operands: the quotient is truncated toward zero,
  // whereas Dafny's division rounds toward minus infinity.
  function HalfTowardZero(a: int): (h: int)
    ensures a >= 0 ==> 0 <= a - 2 * h <= 1
    ensures a <= 0 ==> -1 <= a - 2 * h <= 0
  {
    if a >= 0 then a / 2 else -((-a) / 2)
  }

  function Min(a: int, b: int): int {
    if a < b then a else b
  }

  function Max(a: int, b: int): int {
    if a < b then b else a
  }

  function Clamp(lo: int, x: int, hi: int): int {
    if x > hi then hi else if x < lo then lo else x
  }

  // Quotient and remainder are determined by what they satisfy.
  lemma DivUnique(x: nat, m: nat, q: nat, r: nat)
    requires m > 0 && r < m && x == m * q + r
    ensures x / m == q && x % m == r
  {
    var d := x / m - q;
    assert m * d == r - x % m;
    assert (d >= 1 ==> m * d >= m) && (d <= -1 ==> m * d <= 0 - m);
  }

  ghost predicate IsDivision(x: nat, m: nat, q: nat, r: nat) {
    r < m && x == m * q + r
  }

  lemma Divide(x: nat, m: nat) returns (q: nat, r: nat)
    requires m > 0
    ensures IsDivision(x, m, q, r) && q == x / m && r == x % m
  {
    q, r := x / m, x % m;
  }

  function Pow(b: nat, k: nat): (p: nat)
    ensures b > 0 ==> p > 0
  {
    if k == 0 then 1 else b * Pow(b, k - 1)
  }
}
