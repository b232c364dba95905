/** Calendar dates, counted in days. */
module Calendar {

  /** Days since 1970-01-01. */
  type Day = int

  /** `Date.prototype.getDay`: 0 is Sunday, 6 is Saturday (1970-01-01 was
      a Thursday). */
  function Weekday(d: Day): (w: int)
    ensures 0 <= w < 7
  {
    (d + 4) % 7
  }

  lemma WeekdayRepeats(d: Day)
    ensures Weekday(d + 7) == Weekday(d)
    ensures Weekday(d + 1) == (Weekday(d) + 1) % 7
  {
  }
}
