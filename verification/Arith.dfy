/** Division and remainder, one step at a time. */
module Arith {

  lemma MulGap(i: int, j: int, size: nat)
    requires i < j
    ensures (i + 1) * size <= j * size
    ensures (i + 1) * size == i * size + size
  {
    var k: nat := j - i - 1;
    assert k * size >= 0;
    assert j * size == (i + 1 + k) * size == (i + 1) * size + k * size;
  }

  /** A number has one quotient and one remainder. */
  lemma DivModUnique(a: int, b: nat, q: int, r: int)
    requires b > 0 && a == q * b + r && 0 <= r < b
    ensures a / b == q && a % b == r
  {
    var q' := a / b;
    assert a == q' * b + a % b;
    if q < q' {
      MulGap(q, q', b);
    }
    if q' < q {
      MulGap(q', q, b);
    }
  }
}
