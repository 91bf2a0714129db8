/** Go durations: 64-bit counts of nanoseconds, whose products wrap around. */
module Durations {
  import opened Text

  const NANOSECONDS_PER_SECOND := 1_000_000_000
  const SECONDS_PER_DAY := 86_400
  const MAX_RETENTION_DAYS := 106_751

  function Wrap64(n: int): int {
    (n - INT64_MIN) % 0x1_0000_0000_0000_0000 + INT64_MIN
  }

  predicate IsInt32(n: int) {
    -0x8000_0000 <= n <= 0x7fff_ffff
  }

  /** `durationDays`: days times an hour, times 24, wrapping at each product. */
  function DurationDays(days: int): int {
    Wrap64(Wrap64(days * (3600 * NANOSECONDS_PER_SECOND)) * 24)
  }

  function DurationSeconds(seconds: int): int {
    Wrap64(seconds * NANOSECONDS_PER_SECOND)
  }

  lemma WrapIsIdentity(n: int)
    ensures Wrap64(n) == n <==> INT64_MIN <= n <= INT64_MAX
  {
  }

  lemma WrapForgetsMultiples(n: int, k: int)
    ensures Wrap64(n + k * 0x1_0000_0000_0000_0000) == Wrap64(n)
  {
  }

  /** Wrapping early makes no difference to the final product. */
  lemma WrapOnce(days: int)
    ensures DurationDays(days) == Wrap64(days * (SECONDS_PER_DAY * NANOSECONDS_PER_SECOND))
  {
    var hours := days * (3600 * NANOSECONDS_PER_SECOND);
    var k := (hours - INT64_MIN) / 0x1_0000_0000_0000_0000;
    assert Wrap64(hours) == hours - k * 0x1_0000_0000_0000_0000;
    WrapForgetsMultiples(hours * 24, -24 * k);
    assert Wrap64(hours) * 24 == hours * 24 + (-24 * k) * 0x1_0000_0000_0000_0000;
  }

  /** A number of days is represented exactly up to about 292 years, and never beyond. */
  lemma DaysAreExact(days: int)
    requires IsInt32(days)
    ensures DurationDays(days) == days * (SECONDS_PER_DAY * NANOSECONDS_PER_SECOND) <==>
            -MAX_RETENTION_DAYS <= days <= MAX_RETENTION_DAYS
  {
    WrapOnce(days);
    WrapIsIdentity(days * (SECONDS_PER_DAY * NANOSECONDS_PER_SECOND));
  }

  /** Every 32-bit number of seconds is represented exactly. */
  lemma SecondsAreExact(seconds: int)
    requires IsInt32(seconds)
    ensures DurationSeconds(seconds) == seconds * NANOSECONDS_PER_SECOND
  {
    WrapIsIdentity(seconds * NANOSECONDS_PER_SECOND);
  }
}
