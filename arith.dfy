/** Facts about integer multiplication and division shared by the other modules. */
module Arith {

  lemma MulMonotonic(n: int, x: int, y: int)
    requires n > 0 && x <= y
    ensures n * x <= n * y
  {
    var d := y - x;
    assert n * y == n * x + n * d;
  }

  /** Euclidean remainder is determined by any quotient-remainder decomposition. */
  lemma DivModUnique(a: int, n: int, q: int, r: int)
    requires n > 0 && 0 <= r < n && a == n * q + r
    ensures a % n == r
  {
    var q0 := a / n;
    assert a == n * q0 + a % n;
    if q0 < q {
      MulMonotonic(n, q0 + 1, q);
      assert false;
    } else if q < q0 {
      MulMonotonic(n, q + 1, q0);
      assert false;
    }
  }
}
