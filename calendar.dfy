/**
 * Calendar days as integers. A `Day` counts days since 1 January 1970 in the
 * device's local calendar, so the date-library helpers the views use become
 * arithmetic: `isSameDay(a, b)` is `a == b`, `subDays(d, n)` is `d - n`,
 * `getDay()` is `Weekday` and `format(d, 'EEE')` is `ShortWeekdayName`.
 */
module Calendar {

  type Day = int

  /** The weekday headers of the calendar grid and the short names `format(d, 'EEE')` yields. */
  const WEEKDAY_LABELS: seq<string> := ["Sun", "Mon", "Tue", "Wed", "Thu", "Fri", "Sat"]

  /** `getDay()`: 0 is Sunday. Day 0 (1 January 1970) was a Thursday. */
  function Weekday(d: Day): (w: nat)
    ensures w < |WEEKDAY_LABELS|
  {
    (d + 4) % 7
  }

  function ShortWeekdayName(d: Day): (name: string)
    ensures name in WEEKDAY_LABELS
  {
    WEEKDAY_LABELS[Weekday(d)]
  }

  /** Walking k days forward moves k columns forward in a seven-column week grid. */
  lemma WeekdayAdvances(d: Day, k: nat)
    ensures Weekday(d + k) == (Weekday(d) + k) % 7
  {
    var q := (d + 4) / 7;
    assert d + 4 == 7 * q + Weekday(d);
    assert d + k + 4 == 7 * q + (Weekday(d) + k);
  }

  /** The day one week later falls on the same weekday. */
  lemma WeekdayPeriodic(d: Day)
    ensures Weekday(d + 7) == Weekday(d)
    ensures ShortWeekdayName(d + 7) == ShortWeekdayName(d)
  {
    WeekdayAdvances(d, 7);
  }
}
