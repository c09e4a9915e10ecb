/** Fixed-width integers of the source, its saturating counter increment, and the
    Option datatype used throughout. */
module Machine {
  const U32_MAX := 0xFFFF_FFFF
  const U64_MAX := 0xFFFF_FFFF_FFFF_FFFF
  const I32_MIN := -0x8000_0000
  const I32_MAX := 0x7FFF_FFFF

  type U8 = n: int | 0 <= n < 0x100
  type U32 = n: int | 0 <= n <= U32_MAX
  type U64 = n: int | 0 <= n <= U64_MAX
  type I32 = n: int | I32_MIN <= n <= I32_MAX

  datatype Option<+T> = None | Some(value: T)

  /** `saturating_add(1)` on a `u64` counter. */
  function Inc(n: U64): (r: U64)
  {
    if n < U64_MAX then n + 1 else n
  }

  /** `checked_add_i32_u32`: the sum if it is still an `i32`. */
  function CheckedAdd(value: I32, delta: U32): (r: Option<I32>)
  {
    if value + delta <= I32_MAX then Some(value + delta) else None
  }

  function Min(a: int, b: int): int { if a < b then a else b }

  function Max(a: int, b: int): int { if a < b then b else a }

  // Products of two variables: every proof below goes through these few facts.

  lemma MulNonNegative(a: nat, b: nat)
    ensures 0 <= a * b
  {
  }

  lemma MulMonotone(a: int, b: int, p: nat)
    requires a <= b
    ensures a * p <= b * p
  {
    MulNonNegative(b - a, p);
    assert (b - a) * p == b * p - a * p;
  }

  lemma MulSuccessor(a: int, p: int)
    ensures (a + 1) * p == a * p + p
  {
  }

  lemma DivModDefinition(k: nat, p: nat)
    requires p > 0
    ensures k == k / p * p + k % p && 0 <= k / p && 0 <= k % p < p
  {
  }
}
