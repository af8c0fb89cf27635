/** Definitions and facts shared by the modules: optional values and real arithmetic. */
module Common {

  datatype Option<+T> = None | Some(value: T)

  function Abs(x: real): real { if x < 0.0 then -x else x }

  function Max(a: real, b: real): real { if a < b then b else a }

  function Min(a: real, b: real): real { if b < a then b else a }

  /** x clamped from above, then from below. */
  function Limit(lo: real, hi: real, x: real): real
  {
    Max(lo, Min(hi, x))
  }

  lemma MulMono(k: real, x: real, y: real)
    requires k >= 0.0 && x <= y
    ensures k * x <= k * y
  {
    assert k * (y - x) >= 0.0;
  }

  /** The product is named so that a square keeps its sign as a fact about a name. */
  lemma PositiveProduct(a: real, b: real, p: real)
    requires a > 0.0 && b > 0.0 && p == a * b
    ensures p > 0.0
  {
    assert a * b > 0.0;
  }

  lemma QuotientIs(p: real, d: real, q: real)
    requires d > 0.0 && q * d == p
    ensures p / d == q
  {
  }
}
