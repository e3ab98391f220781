/** The fixed-width integers of the Rust sources. */
module MachineInts {
  const U32_MAX: nat := 0xFFFF_FFFF
  const U64_MAX: nat := 0xFFFF_FFFF_FFFF_FFFF
  const I64_MAX: int := 0x7FFF_FFFF_FFFF_FFFF
  const I64_MIN: int := -0x8000_0000_0000_0000

  type byte = n: nat | n < 256
  type u32 = n: nat | n <= U32_MAX
  type u64 = n: nat | n <= U64_MAX
  type i64 = n: int | I64_MIN <= n <= I64_MAX

  function Saturate(n: int): i64 {
    if n > I64_MAX then I64_MAX else if n < I64_MIN then I64_MIN else n
  }

  // ---------- Division ----------

  lemma DivModIs(x: int, m: nat, k: int, r: nat)
    requires r < m && x == m * k + r
    ensures x / m == k && x % m == r
  {
    var d, e := x / m, x % m;
    assert x == m * d + e;
    if d < k {
      MulGap(m, d, k);
    } else if k < d {
      MulGap(m, k, d);
    }
  }

  lemma MulGap(m: nat, a: int, b: int)
    requires a < b
    ensures m * a + m <= m * b
  {
    assert m * (b - a - 1) >= 0;
    assert m * b == m * a + m + m * (b - a - 1);
  }
}
