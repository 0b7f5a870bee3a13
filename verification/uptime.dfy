/**
  Process uptime in whole seconds.

  Timestamps are seconds since the epoch; Python floats are abstracted as
  `real`. Python's `int()` on a float truncates toward zero, which `Trunc`
  models explicitly (it differs from `.Floor` for negative values).
 */
module Uptime {
  import opened Wrappers

  /** Python's `int(x)` for a float `x`: truncation toward zero. */
  function Trunc(x: real): (r: int)
    ensures 0.0 <= x ==> 0 <= r && r as real <= x < r as real + 1.0
    ensures x < 0.0 ==> r <= 0 && r as real - 1.0 < x <= r as real
  {
    if x >= 0.0 then x.Floor else -((-x).Floor)
  }

  /** Truncation never decreases as its argument grows. */
  lemma TruncMonotone(x: real, y: real)
    requires x <= y
    ensures Trunc(x) <= Trunc(y)
  {
  }

  /** `uptime` of the platform-backed variant: the current time and the
      process creation time are each truncated to whole seconds and then
      subtracted. The result is non-negative whenever the clock reads no
      earlier than the creation time, and for epoch timestamps (non-negative)
      it lies strictly within one second of the exact elapsed time. */
  function PsUtilUptime(now: real, created: real): (r: int)
    ensures created <= now ==> r >= 0
    ensures 0.0 <= created && 0.0 <= now ==> now - created - 1.0 < r as real < now - created + 1.0
  {
    Trunc(now) - Trunc(created)
  }

  /** Uptime never decreases as the clock advances. */
  lemma PsUtilUptimeMonotone(now: real, later: real, created: real)
    requires now <= later
    ensures PsUtilUptime(now, created) <= PsUtilUptime(later, created)
  {
  }

  /** Truncate-then-subtract is not subtract-then-truncate: 10.25 and 9.75
      give an uptime of 1 although only half a second elapsed. */
  lemma TruncateThenSubtract()
    ensures PsUtilUptime(10.25, 9.75) == 1
    ensures Trunc(10.25 - 9.75) == 0
  {
  }

  /** `uptime` of the null variant. `ctime` is the change time of the process'
      own entry in the process filesystem, or `None` when that entry does not
      exist or cannot be read; then the result is 0. Otherwise the elapsed
      time is computed first and truncated afterwards. */
  function DummyUptime(now: real, ctime: Option<real>): (r: int)
    ensures ctime.None? ==> r == 0
    ensures ctime.Some? && ctime.value <= now ==> 0 <= r && r as real <= now - ctime.value < r as real + 1.0
  {
    match ctime
    case None => 0
    case Some(c) => Trunc(now - c)
  }

  /** Null-variant uptime never decreases as the clock advances. */
  lemma DummyUptimeMonotone(now: real, later: real, ctime: Option<real>)
    requires now <= later
    ensures DummyUptime(now, ctime) <= DummyUptime(later, ctime)
  {
  }
}
