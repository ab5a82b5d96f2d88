/** Go's 64-bit integers, with their wrap-around. */
module MachineInts {

  type int64 = x: int | -0x8000_0000_0000_0000 <= x < 0x8000_0000_0000_0000
  type uint64 = x: int | 0 <= x < 0x1_0000_0000_0000_0000

  const MAX_INT: int64 := 0x7FFF_FFFF_FFFF_FFFF

  /** Two's complement reading of the low 64 bits. */
  function ToInt64(x: int): int64 {
    var low := x % 0x1_0000_0000_0000_0000;
    if low < 0x8000_0000_0000_0000 then low else low - 0x1_0000_0000_0000_0000
  }

  function ToUint64(x: int): uint64 { x % 0x1_0000_0000_0000_0000 }

  /** Subtraction, wrapping around. */
  function Sub64(a: int64, b: int64): int64 { ToInt64(a as int - b as int) }

  /** A difference out of range comes back 2^64 away. */
  lemma Sub64Is(a: int64, b: int64)
    ensures var d: int := a as int - b as int;
            Sub64(a, b) == if d >= 0x8000_0000_0000_0000 then d - 0x1_0000_0000_0000_0000
                           else if d < -0x8000_0000_0000_0000 then d + 0x1_0000_0000_0000_0000
                           else d
  {
  }

  /** What is left of a number that is `r` away from a multiple of 2^64. */
  lemma ToInt64IsResidue(x: int, k: int, r: int64)
    requires x == k * 0x1_0000_0000_0000_0000 + r
    ensures ToInt64(x) == r
  {
    if r >= 0 {
      assert x % 0x1_0000_0000_0000_0000 == r;
    } else {
      assert x == (k - 1) * 0x1_0000_0000_0000_0000 + (r + 0x1_0000_0000_0000_0000);
      assert x % 0x1_0000_0000_0000_0000 == r + 0x1_0000_0000_0000_0000;
    }
  }

  /** The largest integer times another. */
  lemma LargestProductWraps(n: int64)
    requires n > 0
    ensures ToInt64(n * 0x7FFF_FFFF_FFFF_FFFF) == if n % 2 == 0 then -n else 0x8000_0000_0000_0000 - n
  {
    ToInt64IsResidue(n * 0x7FFF_FFFF_FFFF_FFFF, n / 2, if n % 2 == 0 then -n else 0x8000_0000_0000_0000 - n);
  }

  /** An unsigned value survives conversion to a signed one exactly when it is below 2^63. */
  lemma ReadingBackIff(x: int)
    requires 0 <= x < 0x1_0000_0000_0000_0000
    ensures ToInt64(ToUint64(x)) == x <==> x < 0x8000_0000_0000_0000
  {
  }

  /** A product beyond the signed range loses at least 2^64. */
  lemma WrapsDown(x: int)
    requires x >= 0x8000_0000_0000_0000
    ensures ToInt64(x) <= x - 0x1_0000_0000_0000_0000
  {
  }
}
