/** Small counting helpers shared by the coroutine models. */
module Counts {
  function Min(a: int, b: int): int
  {
    if a <= b then a else b
  }

  /** How many times `for (i = 0; i < n; i++)` runs: the non-negative
      part of `n`. */
  function Goal(n: int): nat
  {
    if n > 0 then n else 0
  }
}
