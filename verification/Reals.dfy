/** Small real-number helpers; `f64` is modelled by `real` throughout. */
module Reals {
  function Max(a: real, b: real): real {
    if a < b then b else a
  }

  function Min(a: real, b: real): real {
    if b < a then b else a
  }

  function Abs(a: real): real {
    if a < 0.0 then -a else a
  }

  /** `x` held inside `[lo, hi]`. */
  function Clamp(x: real, lo: real, hi: real): real {
    if x < lo then lo else if hi < x then hi else x
  }

  function Total(xs: seq<real>): real {
    if xs == [] then 0.0 else Total(xs[..|xs| - 1]) + xs[|xs| - 1]
  }

  /** Two to an integer power. */
  function Pow2(k: int): (r: real)
    ensures r > 0.0
    decreases if k < 0 then -k else k
  {
    if k == 0 then 1.0
    else if k > 0 then 2.0 * Pow2(k - 1)
    else Pow2(k + 1) / 2.0
  }
}
