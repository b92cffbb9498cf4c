/** Machine integer types of the daemon: `usize` ids and lengths, `i32` samples. */
module Native {

  const USIZE_COUNT: int := 0x1_0000_0000_0000_0000
  const I32_MIN: int := -0x8000_0000
  const I32_MAX: int := 0x7fff_ffff
  const I32_COUNT: int := 0x1_0000_0000

  /** A 64-bit unsigned machine word (the daemon runs on a 64-bit target). */
  type usize = x: int | 0 <= x < USIZE_COUNT

  /** A signed 32-bit audio sample. */
  type i32 = x: int | I32_MIN <= x <= I32_MAX

  /** Two's-complement wrap-around of an integer into `i32`, as a release build's `+=` does. */
  function WrapI32(x: int): (r: i32)
    ensures I32_MIN <= x <= I32_MAX ==> r == x
    ensures (x - r) % I32_COUNT == 0
  {
    (x - I32_MIN) % I32_COUNT + I32_MIN
  }

  /** Wrapping an intermediate sum does not change the wrapped total: `+=` with wrap-around
      accumulates exactly the wrapped mathematical sum. */
  lemma WrapAddWrap(x: int, y: int)
    ensures WrapI32(WrapI32(x) + y) == WrapI32(x + y)
  {
    var q := (x - I32_MIN) / I32_COUNT;
    assert WrapI32(x) == x - q * I32_COUNT;
    ModShift(x + y - I32_MIN, q);
  }

  lemma ModShift(a: int, q: int)
    ensures (a - q * I32_COUNT) % I32_COUNT == a % I32_COUNT
  {
    var r := a % I32_COUNT;
    var d := a / I32_COUNT;
    assert a == d * I32_COUNT + r;
    assert a - q * I32_COUNT == (d - q) * I32_COUNT + r;
  }

  lemma MulAtLeast(m: int, d: int)
    requires m > 0 && d >= 1
    ensures m * d >= m
  {
    assert m * d == m + m * (d - 1);
  }

  /** Quotient and remainder are the only ones: `n == m * q + r` with `0 <= r < m` fixes both. */
  lemma DivModUnique(n: int, m: int, q: int, r: int)
    requires m > 0 && 0 <= r < m && n == m * q + r
    ensures n / m == q && n % m == r
  {
    var q', r' := n / m, n % m;
    assert n == m * q' + r';
    if q' > q {
      assert m * (q' - q) == m * q' - m * q;
      MulAtLeast(m, q' - q);
    } else if q' < q {
      assert m * (q - q') == m * q - m * q';
      MulAtLeast(m, q - q');
    }
  }
}
