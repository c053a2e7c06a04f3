/** Facts about products that the solver should not have to find. */
module Arithmetic {

  lemma OrderedProducts(a: int, b: int, w: int)
    requires a <= b && w >= 0
    ensures a * w <= b * w
  {}
}
