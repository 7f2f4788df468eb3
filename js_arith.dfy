/** JavaScript integer arithmetic that differs from Dafny's. */
module JsArith {

  /** `p % q` as JavaScript evaluates it on integral operands with q > 0.
      JavaScript truncates the quotient toward zero, so the remainder takes
      the sign of the dividend; Dafny's own `%` is Euclidean. */
  function Rem(p: int, q: int): (r: int)
    requires q > 0
    ensures -q < r < q
    ensures p >= 0 ==> 0 <= r && r == p % q
    ensures p <= 0 ==> r <= 0
  {
    if p >= 0 then p % q else -((-p) % q)
  }

  /** Truncation is symmetric about zero: negating the dividend negates the
      remainder (Dafny's Euclidean `%` lacks this). */
  lemma RemOdd(p: int, q: int)
    requires q > 0
    ensures Rem(-p, q) == -Rem(p, q)
  {
  }
}
