/** Small functions that several parts share. */
module Common {

  function Min(a: int, b: int): int { if a < b then a else b }

  function Max(a: int, b: int): int { if a < b then b else a }

  function AtLeastZero(n: int): nat { if n < 0 then 0 else n }

  function Tally(b: bool): nat { if b then 1 else 0 }
}
