/** The modulus that `actualizarModuloDesdeN` derives from the count n. */
module Modulus {
  import opened Wrappers

  /** The smallest modulus the page ever derives. */
  const MinModulus := 16

  function Pow2(k: nat): (p: nat)
    ensures p >= 1
  {
    if k == 0 then 1 else 2 * Pow2(k - 1)
  }

  lemma {:induction false} Pow2Monotone(i: nat, j: nat)
    requires i <= j
    ensures Pow2(i) <= Pow2(j)
    decreases j
  {
    if i < j {
      Pow2Monotone(i, j - 1);
    }
  }

  /** g = ceil(log2 n): the least exponent with 2^g >= n, found by halving
      n (rounding up) instead of through floating-point logarithms. */
  function CeilLog2(n: int): (g: nat)
    requires n > 0
    ensures Pow2(g) >= n
    ensures g > 0 ==> Pow2(g - 1) < n
    decreases n
  {
    if n == 1 then 0 else 1 + CeilLog2((n + 1) / 2)
  }

  /** m = max(2^g, 16) for a positive count; a count that is not a positive
      number leaves the modulus field as it was (`None`). */
  function ModulusFor(n: Option<int>): (m: Option<nat>)
    ensures m.Some? <==> n.Some? && n.value > 0
  {
    if n.Some? && n.value > 0 then
      var p := Pow2(CeilLog2(n.value));
      Some(if p > MinModulus then p else MinModulus)
    else None
  }

  /** No power of two that reaches n is below 2^(ceil(log2 n)). */
  lemma CeilLog2IsLeast(n: int, k: nat)
    requires n > 0
    requires Pow2(k) >= n
    ensures Pow2(CeilLog2(n)) <= Pow2(k)
  {
    var g := CeilLog2(n);
    if k < g {
      Pow2Monotone(k, g - 1);
      assert false;
    }
    Pow2Monotone(g, k);
  }

  /** The derived modulus is a power of two, at least n and at least 16, and
      no smaller power of two is both. */
  lemma ModulusIsLeastPowerOfTwo(n: int)
    requires n > 0
    ensures var m := ModulusFor(Some(n)).value;
      && (exists g: nat :: Pow2(g) == m)
      && m >= n && m >= MinModulus
      && forall k: nat :: Pow2(k) >= n && Pow2(k) >= MinModulus ==> m <= Pow2(k)
  {
    var g := CeilLog2(n);
    var m := ModulusFor(Some(n)).value;
    assert Pow2(4) == MinModulus by {
      assert Pow2(2) == 4;
    }
    var w: nat := if Pow2(g) > MinModulus then g else 4;
    assert Pow2(w) == m;
    forall k: nat | Pow2(k) >= n && Pow2(k) >= MinModulus
      ensures m <= Pow2(k)
    {
      CeilLog2IsLeast(n, k);
    }
  }

  /** A modulus derived from an acceptable count passes the modulus guard of
      `generarLCG` and leaves room for n distinct states. */
  lemma DerivedModulusFitsCount(n: int)
    requires n > 0
    ensures ModulusFor(Some(n)).value > 1
    ensures ModulusFor(Some(n)).value >= n
  {
  }
}
