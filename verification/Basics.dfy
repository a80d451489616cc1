/** Small shared types: optional values, 32-bit counters, decimal text. */
module Basics {

  datatype Option<+T> = None | Some(value: T)

  const U32_MODULUS: nat := 0x1_0000_0000

  /** The values of an unsigned 32-bit counter. */
  type U32 = x: nat | x < U32_MODULUS

  /** `+= 1` on an unsigned 32-bit counter: it wraps in a release build. */
  function Increment(x: U32): U32 {
    (x + 1) % U32_MODULUS
  }

  function Max(a: nat, b: nat): nat {
    if a < b then b else a
  }

  /** The decimal digits of `n`, most significant first. */
  function Decimal(n: nat): (s: string)
    ensures |s| > 0
    ensures forall i :: 0 <= i < |s| ==> '0' <= s[i] <= '9'
  {
    var last := ['0' + (n % 10) as char];
    if n < 10 then last else Decimal(n / 10) + last
  }
}
