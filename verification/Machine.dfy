/** Two's-complement integer widths of the release build. */
module Machine {
  const TWO31: int := 0x8000_0000
  const TWO63: int := 0x8000_0000_0000_0000
  const TWO64: int := 0x1_0000_0000_0000_0000

  const I64_MIN: int := -TWO63
  const I64_MAX: int := TWO63 - 1
  const I32_MIN: int := -TWO31
  const I32_MAX: int := TWO31 - 1
  const USIZE_MAX: int := TWO64 - 1

  type i32 = n: int | -0x8000_0000 <= n < 0x8000_0000

  /**
  Two's complement with a sign bit worth `half`: the one integer in the signed
  range that differs from `n` by a multiple of `2 * half`.
  */
  function Wrap(n: int, half: int): (r: int)
    requires half > 0
    ensures -half <= r < half
    ensures -half <= n < half ==> r == n
    decreases if -half <= n < half then 0 else if n < 0 then -n else n
  {
    if n >= half then Wrap(n - 2 * half, half)
    else if n < -half then Wrap(n + 2 * half, half)
    else n
  }

  /** Release-build `i64` arithmetic. */
  function Wrap64(n: int): (r: int)
    ensures I64_MIN <= r <= I64_MAX
    ensures I64_MIN <= n <= I64_MAX ==> r == n
  {
    Wrap(n, TWO63)
  }

  /** `as i32` of a wider integer. */
  function Wrap32(n: int): (r: i32)
    ensures I32_MIN <= n <= I32_MAX ==> r == n
  {
    Wrap(n, TWO31)
  }

  /** `as usize` of an `i32`: the sign is extended to 64 bits. */
  function AsUsize(n: i32): (r: nat)
    ensures r <= USIZE_MAX
    ensures 0 <= n ==> r == n
    ensures n < 0 ==> r >= TWO63
  {
    if n < 0 then n + TWO64 else n
  }

  function WrappingAddUsize(a: nat, b: nat): nat
    requires a <= USIZE_MAX && b <= USIZE_MAX
  {
    if a + b <= USIZE_MAX then a + b else a + b - TWO64
  }

  function SaturatingAddUsize(a: nat, b: nat): (r: nat)
    ensures r <= USIZE_MAX
    ensures a <= USIZE_MAX ==> a <= r <= a + b
  {
    if a + b <= USIZE_MAX then a + b else USIZE_MAX
  }

  lemma {:induction false} WrapIgnoresPeriods(n: int, half: int)
    requires half > 0
    ensures Wrap(n + 2 * half, half) == Wrap(n, half)
    decreases if n < -half then -n else 0
  {
    if n < -half {
    } else if n < half {
    } else {
    }
  }

  /** Reducing a summand first changes nothing. */
  lemma {:induction false} WrapAbsorbs(a: int, b: int, half: int)
    requires half > 0
    ensures Wrap(Wrap(a, half) + b, half) == Wrap(a + b, half)
    decreases if -half <= a < half then 0 else if a < 0 then -a else a
  {
    hide Wrap;
    if a >= half {
      var nearer := a - 2 * half;
      assert nearer + 2 * half == a && nearer + b + 2 * half == a + b;
      WrapIgnoresPeriods(nearer, half);
      WrapAbsorbs(nearer, b, half);
      WrapIgnoresPeriods(nearer + b, half);
    } else if a < -half {
      var nearer := a + 2 * half;
      assert a + b + 2 * half == nearer + b;
      WrapIgnoresPeriods(a, half);
      WrapAbsorbs(nearer, b, half);
      WrapIgnoresPeriods(a + b, half);
    }
  }
}
