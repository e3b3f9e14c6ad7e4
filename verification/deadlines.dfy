/** The deadline predicates `isOverdue` and `isImminent`, over an explicit
    current time in milliseconds instead of the system clock. */
module Deadlines {
  import opened Wrappers

  /** Twenty-four hours in milliseconds: the window in which a deadline is imminent. */
  const DayMillis: int := 24 * 60 * 60 * 1000

  /** The deadline is set and already in the past. */
  predicate IsOverdue(deadline: Option<int>, now: int)
    ensures deadline.None? ==> !IsOverdue(deadline, now)
    ensures IsOverdue(deadline, now) ==> !IsImminent(deadline, now)
  {
    deadline.Some? && deadline.value < now
  }

  /** The deadline is set, still ahead, and at most a day away. */
  predicate IsImminent(deadline: Option<int>, now: int)
    ensures IsImminent(deadline, now) <==> deadline.Some? && now < deadline.value <= now + 86_400_000
  {
    deadline.Some? && var diff := deadline.value - now; diff > 0 && diff <= DayMillis
  }

  /** A set deadline is overdue exactly when it lies strictly before `now`. */
  lemma OverdueWindow(d: int, now: int)
    ensures IsOverdue(Some(d), now) <==> d < now
  {
  }

  /** A deadline equal to `now` raises neither flag: the two windows leave it out. */
  lemma DeadlineNowNoFlags(now: int)
    ensures !IsOverdue(Some(now), now) && !IsImminent(Some(now), now)
  {
  }
}
