/** Durations in nanoseconds, as Go counts them. */
module Units {
  const SECOND := 1_000_000_000
  const HOUR := 3600 * SECOND

  function Min(a: int, b: int): int { if a <= b then a else b }
}
