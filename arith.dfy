/** Facts about Euclidean division that the solver does not find on its own. */
module Arith {
  /** Euclidean division is unique: a quotient and a remainder in `[0, m)` that
      rebuild `a` are Dafny's `/` and `%`. */
  lemma DivModUnique(a: int, m: int, k: int, t: int)
    requires m > 0 && 0 <= t < m && a == k * m + t
    ensures a % m == t && a / m == k
  {
    var q, s := a / m, a % m;
    assert (k - q) * m == k * m - q * m;
    if k > q {
      MulAtLeast(k - q, m);
    } else if k < q {
      MulAtLeast(q - k, m);
    }
  }

  lemma {:induction false} MulAtLeast(x: int, m: int)
    requires x >= 1 && m > 0
    ensures x * m >= m
    decreases x
  {
    if x > 1 {
      MulAtLeast(x - 1, m);
      assert x * m == (x - 1) * m + m;
    }
  }

  /** One more multiple of `m`. */
  lemma MulSucc(k: int, m: int)
    ensures (k + 1) * m == k * m + m
  {
  }
}
