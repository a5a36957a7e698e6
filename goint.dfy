/** Go's integer division. */
module GoInt {
  /** Go's `a / b`, which truncates toward zero (Dafny's rounds down). */
  function Quo(a: int, b: int): int
    requires b > 0
  {
    if a >= 0 then a / b else -((-a) / b)
  }

  /** The quotient lies within one `b` of `a`, on the side of zero. */
  lemma QuoBounds(a: int, b: int)
    requires b > 0
    ensures a >= 0 ==> 0 <= Quo(a, b) * b <= a < Quo(a, b) * b + b
    ensures a < 0 ==> Quo(a, b) * b - b < a <= Quo(a, b) * b <= 0
  {
    var n := if a >= 0 then a else -a;
    assert n == (n / b) * b + n % b;
    if a < 0 {
      assert Quo(a, b) * b == -((n / b) * b);
    }
  }
}
