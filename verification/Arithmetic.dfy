/** The smaller and the larger of two numbers. */
module Arithmetic {

  function Min(a: int, b: int): int { if a <= b then a else b }

  function Max(a: int, b: int): int { if a >= b then a else b }

  function RealMin(a: real, b: real): real { if a <= b then a else b }

  function RealMax(a: real, b: real): real { if a >= b then a else b }
}
