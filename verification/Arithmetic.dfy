/** Powers of two and minima, for shifts and caps. */
module Arithmetic {

  function PowerOfTwo(n: nat): nat {
    if n == 0 then 1 else 2 * PowerOfTwo(n - 1)
  }

  function Min(a: nat, b: nat): nat {
    if a < b then a else b
  }
}
