/**
 * Calendar arithmetic on instants (integer milliseconds since
 * 1970-01-01T00:00:00Z), read in UTC: the date, the day of the week, the hour
 * of the day and the Monday that starts the week.
 */
module Calendar {

  const MsPerHour: int := 3_600_000
  const MsPerDay: int := 86_400_000

  /** 2024-01-01, a Monday, as a day number. */
  const NewYear2024: int := 19723

  /** The date of instant t, as a day number (days since 1970-01-01). */
  function DayOf(t: int): (d: int)
    ensures d * MsPerDay <= t < d * MsPerDay + MsPerDay
  {
    t / MsPerDay
  }

  /** A later instant never falls on an earlier date. */
  lemma DayOfMonotone(s: int, t: int)
    requires s <= t
    ensures DayOf(s) <= DayOf(t)
  {
  }

  /** Day of the week of day number d: 0 is Sunday, 6 is Saturday; day 0 (1970-01-01) was a Thursday. */
  function Weekday(d: int): (w: int)
    ensures 0 <= w <= 6
  {
    (d + 4) % 7
  }

  /** The weekdays cycle: the day after a Saturday is a Sunday. */
  lemma WeekdayNext(d: int)
    ensures Weekday(d + 1) == (Weekday(d) + 1) % 7
  {
  }

  /** EXTRACT(DOW FROM t). */
  function DayOfWeek(t: int): (w: int)
    ensures 0 <= w <= 6
  {
    Weekday(DayOf(t))
  }

  /** EXTRACT(HOUR FROM t): the hour of its date that t falls in. */
  function HourOf(t: int): (h: int)
    ensures 0 <= h <= 23
    ensures DayOf(t) * MsPerDay + h * MsPerHour <= t < DayOf(t) * MsPerDay + (h + 1) * MsPerHour
  {
    (t % MsPerDay) / MsPerHour
  }

  /** DATE_TRUNC('week', t)::DATE: the Monday on or before the date of t. */
  function WeekStart(t: int): (w: int)
    ensures w <= DayOf(t) < w + 7
    ensures Weekday(w) == 1
  {
    DayOf(t) - (DayOf(t) + 3) % 7
  }

  /** The week start is the only Monday within the six days before the date of t. */
  lemma WeekStartUnique(t: int, w: int)
    requires Weekday(w) == 1 && w <= DayOf(t) < w + 7
    ensures w == WeekStart(t)
  {
  }

  /** A later instant never falls in an earlier week. */
  lemma WeekStartMonotone(s: int, t: int)
    requires s <= t
    ensures WeekStart(s) <= WeekStart(t)
  {
    var a, b := DayOf(s), DayOf(t);
    assert a <= b;
    assert WeekStart(s) == 7 * ((a + 3) / 7) - 3;
    assert WeekStart(t) == 7 * ((b + 3) / 7) - 3;
    assert (a + 3) / 7 <= (b + 3) / 7;
  }

  /**
   * The conventions pinned to the calendar: 1970-01-01 was a Thursday,
   * 2024-01-01 a Monday and 2024-01-07 a Sunday; at noon on 2024-01-07 the
   * day of the week is 0 and the week began on Monday 2024-01-01.
   */
  lemma CalendarAnchors()
    ensures Weekday(0) == 4
    ensures DayOf(1_704_067_200_000) == NewYear2024 && Weekday(NewYear2024) == 1
    ensures DayOf(1_704_628_800_000) == NewYear2024 + 6 && HourOf(1_704_628_800_000) == 12
    ensures DayOfWeek(1_704_628_800_000) == 0
    ensures WeekStart(1_704_628_800_000) == NewYear2024
  {
  }
}
