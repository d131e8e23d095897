/** Milliseconds, as in UnixMilli, in a zone with a fixed offset of whole minutes. */
module Clock {
  const SECOND := 1_000
  const MINUTE := 60_000

  /** The start of the minute that contains t. */
  function MinuteOf(t: int): int {
    t - t % MINUTE
  }

  lemma InMinute(t: int, minute: int)
    requires MinuteOf(minute) == minute
    ensures MinuteOf(t) == minute <==> minute <= t < minute + MINUTE
  {
  }
}
