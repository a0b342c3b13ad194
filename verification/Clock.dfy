/** Instants in nanoseconds on a clock that never goes back. */
module Clock {
  type Instant = int

  const SECOND: nat := 1_000_000_000
  const HOUR: nat := 3_600_000_000_000
  const DAY: nat := 86_400_000_000_000
}
