/** The smaller of two numbers, which deadlines and output bounds are made of. */
module Bounds {
  function Min(a: int, b: int): (m: int)
    ensures m <= a && m <= b && (m == a || m == b)
  {
    if a <= b then a else b
  }
}
