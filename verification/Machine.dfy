/** Integer widths and the time scale: instants and durations are nanoseconds. */
module Machine {
  const TWO_63: int := 0x8000_0000_0000_0000
  const TWO_64: int := 0x1_0000_0000_0000_0000

  const SECOND: int := 1_000_000_000
  const HOUR: int := 3600 * SECOND

  type Byte = n: int | 0 <= n < 256
  type UInt64 = n: int | 0 <= n < TWO_64
  type Int64 = n: int | -TWO_63 <= n < TWO_63

  /** Two's-complement truncation to 64 bits, as Go's int and time.Duration perform it. */
  function Wrap64(n: int): (w: Int64)
    ensures (w - n) % TWO_64 == 0
  {
    var m := n % TWO_64;
    assert m == n - TWO_64 * (n / TWO_64);
    if m < TWO_63 then
      assert (m - n) % TWO_64 == 0 by { MultipleOf(-(n / TWO_64)); }
      m
    else
      assert (m - TWO_64 - n) % TWO_64 == 0 by { MultipleOf(-(n / TWO_64) - 1); }
      m - TWO_64
  }

  lemma MultipleOf(k: int)
    ensures (TWO_64 * k) % TWO_64 == 0
  {
  }

  /** time.Time.Unix: whole seconds, rounded towards the past. */
  function Unix(instant: int): int {
    instant / SECOND
  }
}
