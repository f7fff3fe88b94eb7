/** Clock ticks.  The system clock counts nanoseconds; calendars count seconds. */
module Clock {

  // Clock ticks per second; time points and durations are whole ticks.
  const TICKS := 1_000_000_000

  // duration_cast to seconds and to_time_t: towards zero.
  function WholeSeconds(t: int): int {
    if t >= 0 then t / TICKS else -(-t / TICKS)
  }

  /** The whole second next to t on the side of zero. */
  lemma WholeSecondsIsNearZero(t: int)
    ensures t >= 0 ==> WholeSeconds(t) * TICKS <= t < (WholeSeconds(t) + 1) * TICKS
    ensures t < 0 ==> (WholeSeconds(t) - 1) * TICKS < t <= WholeSeconds(t) * TICKS
  {
  }

  // The last whole second at or before t, and the first at or after it.
  function SecondBefore(t: int): int {
    t / TICKS
  }

  function SecondAfter(t: int): int {
    -(-t / TICKS)
  }

  lemma SecondsAround(t: int, s: int)
    ensures s <= SecondBefore(t) <==> s * TICKS <= t
    ensures SecondAfter(t) <= s <==> t <= s * TICKS
  {
  }
}
