/** Small arithmetic helpers shared by the modules. */
module Numeric {

  function Min(a: int, b: int): int { if a <= b then a else b }
}
