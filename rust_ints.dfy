// Rust integer conventions the benchmarks rely on: `as i32` casts, `/`
// truncating toward zero, and panics as an explicit outcome.

module RustInts {

  const I32_MAX: int := 0x7fff_ffff
  const I32_MIN: int := -0x8000_0000

  /** The result of a computation that may panic (a division by zero, say). */
  datatype Outcome<T> = Done(value: T) | Panic

  /** `n as i32` for a `usize`: the low 32 bits, read as two's complement. */
  function AsI32(n: nat): (r: int)
    ensures I32_MIN <= r <= I32_MAX
    ensures n <= I32_MAX ==> r == n
    ensures r == 0 <==> n % 0x1_0000_0000 == 0
  {
    var w := n % 0x1_0000_0000;
    if w > I32_MAX then w - 0x1_0000_0000 else w
  }

  /** Rust's `/` on integers: the quotient truncated toward zero. */
  function TruncDiv(a: int, b: int): (q: int)
    requires b != 0
    ensures b > 0 && a >= 0 ==> q * b <= a < q * b + b
    ensures b > 0 && a < 0 ==> q * b - b < a <= q * b
  {
    if a >= 0 then
      if b > 0 then a / b else -(a / -b)
    else
      if b > 0 then -((-a) / b) else (-a) / (-b)
  }
}
