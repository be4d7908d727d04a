/**
  Durations as Go's time package represents them: a count of nanoseconds
  held in a signed 64-bit integer.
 */
module GoTime {

  /** Nanoseconds in one second (`time.Second`). */
  const Second: int := 1_000_000_000

  /** Nanoseconds in one minute (`time.Minute`). */
  const Minute: int := 60 * Second
}
