/** Products of reals behind a name, with the few laws the proofs use. */
module Reals {

  /** Equal factors give equal products, whatever the arithmetic solver makes of the product. */
  function Times(x: real, y: real): real {
    x * y
  }

  lemma TimesLess(x: real, y: real, z: real)
    requires x < y && z > 0.0
    ensures Times(x, z) < Times(y, z)
    ensures Times(z, x) < Times(z, y)
  {}

  lemma TimesScaled(c: real, x: real, p: real, q: real, r: real)
    requires x == Times(p, q) && r == c * q
    ensures c * x == Times(p, r)
  {}

  lemma TimesDistributes(x: real, y: real, w: real)
    ensures Times(x + y, w) == Times(x, w) + Times(y, w)
    ensures Times(w, x + y) == Times(w, x) + Times(w, y)
    ensures Times(w, 0.0) == 0.0
  {}
}
