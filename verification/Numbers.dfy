/** Go's fixed-width integers and the arithmetic facts the pool and ledger proofs share. */
module Numbers {
  const TWO_64: nat := 0x1_0000_0000_0000_0000

  type u64 = n: nat | n < TWO_64

  /** Go's uint64 addition: wraps silently. */
  function Add64(a: u64, b: u64): u64 {
    (a + b) % TWO_64
  }

  /** 1 when the uint64 sum of x and y wraps, else 0. */
  function Carry(x: u64, y: u64): nat {
    if TWO_64 <= x + y then 1 else 0
  }

  lemma Add64Carries(x: u64, y: u64)
    ensures Add64(x, y) == x + y - TWO_64 * Carry(x, y)
  {
  }

  /** Go's uint64 subtraction: wraps silently. */
  function Sub64(a: u64, b: u64): u64 {
    (a - b) % TWO_64
  }

  lemma Sub64IsExact(a: u64, b: u64)
    requires b <= a
    ensures Sub64(a, b) == a - b
  {
  }

  /** Go's conversion of a big or wide integer to uint64: keeps the low 64 bits. */
  function Low64(n: int): u64 {
    n % TWO_64
  }

  lemma Low64Absorbs(a: int, b: int)
    ensures Low64(Low64(a) + b) == Low64(a + b)
  {
  }

  lemma Low64Fixes(n: nat)
    ensures Low64(n) == n <==> n < TWO_64
  {
  }

  /** a and b differ by a multiple of 2^64. */
  ghost predicate SameModulo64(a: int, b: int) {
    exists k: int :: a == b + TWO_64 * k
  }

  /** A number occurring in an int64 field that is only ever incremented. */
  function NextI64(t: int): int {
    if t == 0x7FFF_FFFF_FFFF_FFFF then -0x8000_0000_0000_0000 else t + 1
  }

  function Min(a: nat, b: nat): nat {
    if a < b then a else b
  }

  lemma MulLe(a: int, b: int, c: int)
    requires a <= b && 0 <= c
    ensures a * c <= b * c
  {
  }

  /** Cancelling a positive factor from a strict inequality. */
  lemma MulLtCancel(a: int, b: int, c: int)
    requires 0 < c && a * c < b * c
    ensures a < b
  {
    if b <= a {
      MulLe(b, a, c);
    }
  }

  lemma MulLeCancel(a: int, b: int, c: int)
    requires 0 < c && a * c <= b * c
    ensures a <= b
  {
    if b < a {
      MulLe(b + 1, a, c);
    }
  }

  /** a * b / d rounded down, in unbounded integers. */
  function MulDiv(a: nat, b: nat, d: nat): nat
    requires 0 < d
  {
    a * b / d
  }

  lemma MulDivFloor(a: nat, b: nat, d: nat)
    requires 0 < d
    ensures MulDiv(a, b, d) * d <= a * b < (MulDiv(a, b, d) + 1) * d
  {
  }

  /** The rounded quotient is the greatest q with q * d <= a * b. */
  lemma MulDivIsGreatest(a: nat, b: nat, d: nat, q: nat)
    requires 0 < d
    ensures q <= MulDiv(a, b, d) <==> q * d <= a * b
  {
    hide MulDiv;
    MulDivFloor(a, b, d);
    if q <= MulDiv(a, b, d) {
      MulLe(q, MulDiv(a, b, d), d);
    } else {
      MulLe(MulDiv(a, b, d) + 1, q, d);
    }
  }

  lemma MulDivLe(a: nat, b: nat, d: nat)
    requires 0 < d && a <= d
    ensures MulDiv(a, b, d) <= b
  {
    MulDivFloor(a, b, d);
    MulLe(a, d, b);
    MulLeCancel(MulDiv(a, b, d), b, d);
  }
}
