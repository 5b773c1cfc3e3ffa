/** 32-bit words, and what else numbers need everywhere. */
module Words {
  const WORD_LIMIT := 0x1_0000_0000
  const SIGNED_LIMIT := 0x8000_0000

  function Wrapped(n: int): nat {
    n % WORD_LIMIT
  }

  /** A word read as a signed one. */
  function Signed(n: int): int {
    if Wrapped(n) < SIGNED_LIMIT then Wrapped(n) else Wrapped(n) - WORD_LIMIT
  }

  predicate IsSigned(n: int) {
    -SIGNED_LIMIT <= n < SIGNED_LIMIT
  }

  function Pow2(n: nat): (p: nat)
    ensures p > 0
  {
    if n == 0 then 1 else 2 * Pow2(n - 1)
  }

  function Least(a: nat, b: nat): nat {
    if a < b then a else b
  }

  function Greatest(a: nat, b: nat): nat {
    if a < b then b else a
  }
}
