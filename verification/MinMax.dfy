/** The larger and the smaller of two numbers. */
module MinMax {

  function Max(a: int, b: int): int {
    if b > a then b else a
  }

  function Min(a: int, b: int): int {
    if a < b then a else b
  }
}
