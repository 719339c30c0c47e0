module Numbers {

  function Abs(x: int): nat {
    if x < 0 then -x else x
  }

  function Max(a: int, b: int): int {
    if a >= b then a else b
  }

  function Min(a: int, b: int): int {
    if a <= b then a else b
  }
}
