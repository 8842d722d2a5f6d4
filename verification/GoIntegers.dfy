/** Go's fixed-width integers, where their width can be observed. */
module GoIntegers {

  const TWO31 := 0x8000_0000
  const TWO32 := 0x1_0000_0000
  const TWO63 := 0x8000_0000_0000_0000
  const TWO64 := 0x1_0000_0000_0000_0000

  predicate Int32(x: int) { -TWO31 <= x < TWO31 }

  predicate Int64(x: int) { -TWO63 <= x < TWO63 }

  function Wrap32(x: int): int { (x + TWO31) % TWO32 - TWO31 }

  function Wrap64(x: int): int { (x + TWO63) % TWO64 - TWO63 }

  /** The sum of two int32 values wraps at most once. */
  lemma Wrap32Once(x: int)
    requires -TWO32 <= x < TWO32
    ensures Wrap32(x) == if x < -TWO31 then x + TWO32 else if x >= TWO31 then x - TWO32 else x
  {
  }

  /** Division truncated towards zero, for a positive divisor. */
  function GoDiv(x: int, y: int): int
    requires y > 0
  {
    if x >= 0 then x / y else -(-x / y)
  }

  lemma DivAtMost(x: int, y: int, c: int)
    requires y > 0 && c >= 0 && x <= c * y
    ensures GoDiv(x, y) <= c
  {
    if x >= 0 {
      assert x / y <= (c * y) / y == c;
    }
  }
}
