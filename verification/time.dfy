/** Instants are counted in .NET `DateTime` ticks (units of 100 ns since
    0001-01-01). The clock itself is not modelled: every operation that reads
    `DateTime.Today` or `DateTime.Now` takes the value as a parameter. */
module Time {

  type Instant = int

  /** Ticks in one day, the amount `DateTime.AddDays(1)` adds. */
  const DAY: int := 864_000_000_000

  /** A midnight value, as `DateTime.Today` returns. */
  predicate IsMidnight(t: Instant) {
    t >= 0 && t % DAY == 0
  }

  /** The midnight that starts the day of `t`: `DateTime.Date`. */
  function Date(t: Instant): (d: Instant)
    requires t >= 0
    ensures IsMidnight(d)
    ensures d <= t < d + DAY
  {
    t - t % DAY
  }
}
