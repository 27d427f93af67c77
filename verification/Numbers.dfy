/** Python's min and max, which prefer their first argument on ties. */
module Numbers {

  function Min(a: real, b: real): real {
    if b < a then b else a
  }

  function Max(a: int, b: int): int {
    if a < b then b else a
  }

  /** The larger of a number and a lower bound. */
  function AtLeast(n: int, low: nat): nat {
    if n < low then low else n
  }

}
