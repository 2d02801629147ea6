/** The C integer operators the sources rely on: division truncates toward
    zero and the remainder takes the sign of the dividend; and its smallest types. */
module CInt {

  function Abs(a: int): nat {
    if a < 0 then -a else a
  }

  function Max(a: int, b: int): int {
    if a < b then b else a
  }

  function Min(a: int, b: int): int {
    if a < b then a else b
  }

  /** `a / b` in C, for a positive divisor. */
  function Div(a: int, b: int): int
    requires 0 < b
  {
    if a < 0 then -((-a) / b) else a / b
  }

  /** `a % b` in C, for a positive divisor. */
  function Mod(a: int, b: int): int
    requires 0 < b
  {
    if a < 0 then -((-a) % b) else a % b
  }

  type byte = b: int | 0 <= b < 256

  /** A value stored in a signed char. */
  function Char(n: int): int {
    (n + 128) % 256 - 128
  }

  // ------------------------------------------------------ products and quotients

  lemma DivBounds(a: nat, d: nat)
    requires d > 0
    ensures a / d * d <= a < a / d * d + d
  {}

  lemma MulStep(x: int, y: int, d: nat)
    ensures x < y ==> x * d + d <= y * d
    ensures x <= y ==> x * d <= y * d
  {
    assert x * d + d == (x + 1) * d;
    MulLe(x + 1, y, d);
    MulLe(x, y, d);
  }

  lemma MulLe(x: int, y: int, d: nat)
    ensures x <= y ==> x * d <= y * d
  {
    assert (y - x) * d == y * d - x * d;
    if x <= y { assert 0 <= (y - x) * d; }
  }

  lemma DivUnique(a: nat, d: nat, q: int)
    requires d > 0 && q * d <= a < q * d + d
    ensures a / d == q
  {
    DivBounds(a, d);
    MulStep(q, a / d, d);
    MulStep(a / d, q, d);
  }

  lemma DivMonotone(a: nat, b: nat, d: nat)
    requires d > 0 && a <= b
    ensures a / d <= b / d
  {
    DivBounds(a, d);
    DivBounds(b, d);
    MulStep(b / d, a / d, d);
  }

  lemma SquareGrows(x: nat, y: nat)
    ensures x <= y ==> x * x <= y * y
    ensures x < y ==> (x + 1) * (x + 1) <= y * y && x * x < y * y
  {
    MulStep(x, y, x);
    MulStep(x, y, y);
    MulStep(x + 1, y, x + 1);
    MulStep(x + 1, y, y);
  }
}
