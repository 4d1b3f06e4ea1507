/** Instants and durations, as the program's time values behave.

    An instant is an integer count of nanoseconds. Instant 0 stands for the zero
    time, which the program compares like any other instant and reads as "has not
    come" where a field is optional. Every instant a run records is above 0.
 */
module Instants {
  type Instant = int
  type Duration = int

  const ZERO: Instant := 0

  const MILLISECOND: Duration := 1_000_000
  const SECOND: Duration := 1_000 * MILLISECOND

  /** What a target declares. */
  datatype Timeouts = Timeouts(settle: Duration, stable: Duration, delete: Duration)

  /** The later of two instants, the first where they are equal. */
  function Later(a: Instant, b: Instant): (r: Instant)
    ensures r == a || r == b
    ensures a <= r && b <= r
  {
    if b > a then b else a
  }
}
