/** Fixed-width integer arithmetic as the C++ source performs it, over Dafny's unbounded `nat`. */
module Arith {

  /** 2^32: the modulus of `uint32_t` arithmetic. */
  const U32: nat := 0x1_0000_0000

  /** 2^16. */
  const U16: nat := 0x1_0000

  /** `r` is what converting `n` to `uint32_t` yields: below 2^32, congruent to `n` modulo
      2^32, and `n` itself when it fits. */
  predicate Truncated32(n: nat, r: nat)
  {
    && r < U32
    && (n - r) % U32 == 0
    && (n < U32 ==> r == n)
  }

  /** Conversion of an unbounded value to `uint32_t`: wrap-around modulo 2^32. */
  function Wrap32(n: nat): (r: nat)
    ensures r < U32
    ensures n < U32 ==> r == n
    ensures (n - r) % U32 == 0
    ensures Truncated32(n, r)
  {
    n % U32
  }

  /** Truncating a factor to 32 bits before a 32-bit product does not change the product. */
  lemma {:induction false} Wrap32Mul(a: nat, b: nat)
    ensures Wrap32(Wrap32(a) * b) == Wrap32(a * b)
  {
    var q, w := a / U32, Wrap32(a);
    assert a * b == w * b + (q * b) * U32 by {
      assert a == q * U32 + w;
    }
    ModAddMultiple(w * b, q * b);
  }

  /** Adding a multiple of 2^32 does not change the value modulo 2^32. */
  lemma {:induction false} ModAddMultiple(x: nat, m: nat)
    ensures (x + m * U32) % U32 == x % U32
  {
    var q, w := x / U32, x % U32;
    assert x + m * U32 == (q + m) * U32 + w;
  }

  /** Conversion of an unbounded value to `uint16_t`: wrap-around modulo 2^16. */
  function Wrap16(n: nat): (r: nat)
    ensures r < U16
    ensures n < U16 ==> r == n
    ensures (n - r) % U16 == 0
  {
    n % U16
  }

  /** `z >> i` on an unsigned value: i successive halvings, each dropping the low bit. */
  function Shr(z: nat, i: nat): nat
  {
    if i == 0 then z else Shr(z, i - 1) / 2
  }

  /** Shifting further never yields a larger value. */
  lemma {:induction false} ShrAntitone(z: nat, i: nat, j: nat)
    requires i <= j
    ensures Shr(z, j) <= Shr(z, i)
    decreases j - i
  {
    if i < j {
      ShrAntitone(z, i, j - 1);
    }
  }

  /** The group count the source computes for a compute dispatch over `extent` items in
      groups of `groupSize`: `(extent + groupSize - 1) / groupSize`, evaluated in uint32. */
  function GroupCount(extent: nat, groupSize: nat): nat
    requires groupSize > 0
  {
    Wrap32(extent + groupSize - 1) / groupSize
  }

  /** When the rounding addition does not wrap, the group count is the ceiling of
      extent / groupSize: the groups cover the extent, and one group fewer would not. */
  lemma {:induction false} GroupCountIsCeiling(extent: nat, groupSize: nat)
    requires groupSize > 0
    requires extent + groupSize - 1 < U32
    ensures GroupCount(extent, groupSize) * groupSize >= extent
    ensures (GroupCount(extent, groupSize) - 1) * groupSize < extent
  {
    var n := extent + groupSize - 1;
    var q := n / groupSize;
    var r := n % groupSize;
    assert Wrap32(n) == n;
    assert n == q * groupSize + r;
    assert (q - 1) * groupSize == q * groupSize - groupSize;
  }

  /** Products of naturals are monotone in both factors. */
  lemma {:induction false} MulMonotone(a: nat, b: nat, c: nat, d: nat)
    requires a <= c && b <= d
    ensures a * b <= c * d
  {
    assert a * b <= c * b;
    assert c * b <= c * d;
  }

  /** Search for the least p >= start with p * p >= n; every value below `start` is too small. */
  function CeilSqrtFrom(n: nat, start: nat): (p: nat)
    requires start == 0 || (start - 1) * (start - 1) < n
    ensures p >= start
    ensures p * p >= n
    ensures p == 0 || (p - 1) * (p - 1) < n
    decreases n + 1 - start
  {
    if start * start >= n then start
    else
      assert start <= n by {
        if start > n {
          MulMonotone(1, n, start, start);
        }
      }
      CeilSqrtFrom(n, start + 1)
  }

  /** `ceil(sqrt(n))` on integers: the least p with p * p >= n. */
  function CeilSqrt(n: nat): (p: nat)
    ensures p * p >= n
    ensures forall q: nat :: q * q >= n ==> p <= q
  {
    var p := CeilSqrtFrom(n, 0);
    forall q: nat | q * q >= n
      ensures p <= q
    {
      if q < p {
        MulMonotone(q, q, p - 1, p - 1);
      }
    }
    p
  }

}
