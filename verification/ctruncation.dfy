/** Integer division as C defines it: the quotient truncates toward zero and the
    remainder takes the sign of the dividend. */
module CTruncation {

  function Div(a: int, b: int): int
    requires b > 0
  {
    if a >= 0 then a / b else -(-a / b)
  }

  function Mod(a: int, b: int): int
    requires b > 0
  {
    a - b * Div(a, b)
  }
}
