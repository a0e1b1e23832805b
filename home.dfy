/**
 * The derived values of the home screen: today's entry and the month calendar
 * (a first-match lookup per day), the daily quote, and the day streak.
 */
module Home {
  import opened Calendar
  import opened Types
  import opened Constants

  // ---------------------------------------------------------------------------
  // Day lookup: `entries.find(e => isSameDay(e.date, day))`
  // ---------------------------------------------------------------------------

  /** The first entry, in collection order, logged on `day`; None when there is none. */
  function FindEntryForDay(entries: seq<MoodEntry>, day: Day): (r: Option<MoodEntry>)
    ensures r.None? <==> forall i :: 0 <= i < |entries| ==> entries[i].date != day
    ensures r.Some? ==> r.value in entries && r.value.date == day
    ensures r.Some? ==> exists i :: 0 <= i < |entries| && entries[i] == r.value
                                   && forall j :: 0 <= j < i ==> entries[j].date != day
  {
    if |entries| == 0 then None
    else if entries[0].date == day then Some(entries[0])
    else
      var rest := FindEntryForDay(entries[1..], day);
      if rest.Some? then
        ghost var i :| 0 <= i < |entries[1..]| && entries[1..][i] == rest.value
                       && forall j :: 0 <= j < i ==> entries[1..][j].date != day;
        assert entries[i + 1] == rest.value;
        assert forall j :: 0 <= j < i + 1 ==> entries[j].date != day by {
          forall j | 0 <= j < i + 1 ensures entries[j].date != day {
            if j > 0 { assert entries[j] == entries[1..][j - 1]; }
          }
        }
        rest
      else rest
  }

  // ---------------------------------------------------------------------------
  // Month calendar
  // ---------------------------------------------------------------------------

  /** One day cell: its date, the mood shown in it and whether it is highlighted as today. */
  datatype CalendarCell = CalendarCell(date: Day, entry: Option<MoodEntry>, isCurrentDay: bool)

  /** `padding` empty cells, then one cell per day of the month, laid out in seven columns. */
  datatype MonthGrid = MonthGrid(padding: nat, cells: seq<CalendarCell>)

  /**
   * The calendar of the month that starts on `monthStart` and has `monthLength`
   * days: the month's first weekday gives the number of empty leading cells,
   * and every day's cell shows that day's first entry.
   */
  function BuildMonthGrid(entries: seq<MoodEntry>, monthStart: Day, monthLength: nat, today: Day): (g: MonthGrid)
    ensures g.padding == Weekday(monthStart) && g.padding < 7
    ensures |g.cells| == monthLength
    ensures forall k :: 0 <= k < |g.cells| ==>
              && g.cells[k].date == monthStart + k
              && (g.padding + k) % 7 == Weekday(g.cells[k].date)
              && g.cells[k].entry == FindEntryForDay(entries, g.cells[k].date)
              && (g.cells[k].isCurrentDay <==> g.cells[k].date == today)
  {
    var cells := seq(monthLength, k requires 0 <= k < monthLength =>
                       CalendarCell(monthStart + k, FindEntryForDay(entries, monthStart + k), monthStart + k == today));
    assert forall k :: 0 <= k < monthLength ==> (Weekday(monthStart) + k) % 7 == Weekday(cells[k].date) by {
      forall k | 0 <= k < monthLength ensures (Weekday(monthStart) + k) % 7 == Weekday(cells[k].date) {
        WeekdayAdvances(monthStart, k);
      }
    }
    MonthGrid(Weekday(monthStart), cells)
  }

  // ---------------------------------------------------------------------------
  // Daily quote: `INITIAL_QUOTES[new Date().getDate() % INITIAL_QUOTES.length]`
  // ---------------------------------------------------------------------------

  /** The quote shown on day `dayOfMonth` of a month (1 to 31). */
  function QuoteIndex(dayOfMonth: nat): (i: nat)
    ensures i < |INITIAL_QUOTES|
  {
    dayOfMonth % |INITIAL_QUOTES|
  }

  function DailyQuote(dayOfMonth: nat): (q: string)
    ensures q in INITIAL_QUOTES
  {
    INITIAL_QUOTES[QuoteIndex(dayOfMonth)]
  }

  /** Each next day of the month shows the next quote, cycling through all of them. */
  lemma QuoteRotates(dayOfMonth: nat)
    ensures QuoteIndex(dayOfMonth + 1) == (QuoteIndex(dayOfMonth) + 1) % |INITIAL_QUOTES|
    ensures QuoteIndex(dayOfMonth + |INITIAL_QUOTES|) == QuoteIndex(dayOfMonth)
  {
    var q := dayOfMonth / 4;
    assert dayOfMonth == 4 * q + QuoteIndex(dayOfMonth);
    assert dayOfMonth + 4 == 4 * (q + 1) + QuoteIndex(dayOfMonth);
  }

  // ---------------------------------------------------------------------------
  // Streak: specification
  // ---------------------------------------------------------------------------

  /** The days on which at least one entry was logged. */
  function DaySet(entries: seq<MoodEntry>): (days: set<Day>)
    ensures forall e :: e in entries ==> e.date in days
  {
    set e | e in entries :: e.date
  }

  lemma {:induction false} DaySetSize(entries: seq<MoodEntry>)
    ensures |DaySet(entries)| <= |entries|
  {
    if |entries| > 0 {
      DaySetSize(entries[1..]);
      assert DaySet(entries) == DaySet(entries[1..]) + {entries[0].date} by {
        assert forall e :: e in entries ==> e == entries[0] || e in entries[1..];
      }
    }
  }

  /** The day of the newest entry. */
  function NewestDay(entries: seq<MoodEntry>): (d: Day)
    requires |entries| > 0
    ensures d in DaySet(entries)
    ensures forall e :: e in entries ==> e.date <= d
  {
    if |entries| == 1 then entries[0].date
    else
      var rest := NewestDay(entries[1..]);
      assert forall e :: e in entries ==> e == entries[0] || e in entries[1..];
      if entries[0].date >= rest then entries[0].date else rest
  }

  /** A logged day that no entry is newer than is the newest entry's day. */
  lemma NewestDayIs(entries: seq<MoodEntry>, d: Day)
    requires d in DaySet(entries)
    requires forall e :: e in entries ==> e.date <= d
    ensures |entries| > 0 && NewestDay(entries) == d
  {
  }

  /** The number of consecutive days d, d - 1, d - 2, ... that are all in `days`. */
  function RunLength(days: set<Day>, d: Day): (n: nat)
    decreases days
  {
    if d in days then 1 + RunLength(days - {d}, d - 1) else 0
  }

  /**
   * The day streak: zero without entries, zero unless the newest entry is on
   * `today` or the day before, and otherwise the number of consecutive days,
   * from the newest entry's day backward, that each have an entry.
   */
  function Streak(entries: seq<MoodEntry>, today: Day): (streak: nat)
    ensures streak <= |entries|
  {
    if |entries| == 0 then 0
    else
      var newest := NewestDay(entries);
      DaySetSize(entries);
      RunLengthBound(DaySet(entries), newest);
      if newest == today || newest == today - 1 then RunLength(DaySet(entries), newest) else 0
  }

  /** The k days d, d - 1, ..., d - k + 1 are all in `days`, and the day d - k is not. */
  ghost predicate RunEndsAt(days: set<Day>, d: Day, k: nat)
  {
    && (forall x :: d - k < x <= d ==> x in days)
    && d - k !in days
  }

  /** RunLength counts exactly the run: every day of it is present, the day before it is not. */
  lemma {:induction false} RunLengthIsRun(days: set<Day>, d: Day)
    ensures RunEndsAt(days, d, RunLength(days, d))
    decreases days
  {
    if d in days {
      RunLengthIsRun(days - {d}, d - 1);
    }
  }

  /** A run of present days that ends at an absent day has exactly RunLength days. */
  lemma RunLengthUnique(days: set<Day>, d: Day, k: nat)
    requires RunEndsAt(days, d, k)
    ensures RunLength(days, d) == k
  {
    RunLengthIsRun(days, d);
  }

  lemma {:induction false} RunLengthBound(days: set<Day>, d: Day)
    ensures RunLength(days, d) <= |days|
    decreases days
  {
    if d in days {
      RunLengthBound(days - {d}, d - 1);
    }
  }

  /**
   * The streak is zero when there are no entries or the newest one is older
   * than yesterday; otherwise it is the length, at least one, of the unbroken
   * run of logged days that ends at the newest entry's day.
   */
  lemma StreakMeaning(entries: seq<MoodEntry>, today: Day)
    ensures |entries| == 0 ==> Streak(entries, today) == 0
    ensures |entries| > 0 && NewestDay(entries) != today && NewestDay(entries) != today - 1
            ==> Streak(entries, today) == 0
    ensures |entries| > 0 && (NewestDay(entries) == today || NewestDay(entries) == today - 1) ==>
              && Streak(entries, today) >= 1
              && RunEndsAt(DaySet(entries), NewestDay(entries), Streak(entries, today))
  {
    if |entries| > 0 {
      var days, newest := DaySet(entries), NewestDay(entries);
      RunLengthIsRun(days, newest);
      if newest == today || newest == today - 1 {
        assert Streak(entries, today) == RunLength(days, newest);
      }
    }
  }

  /** The streak depends only on which days have entries, not on how many or in what order. */
  lemma StreakDependsOnlyOnDays(a: seq<MoodEntry>, b: seq<MoodEntry>, today: Day)
    requires DaySet(a) == DaySet(b)
    ensures Streak(a, today) == Streak(b, today)
  {
    if |a| > 0 {
      assert a[0].date in DaySet(b);
    }
    if |b| > 0 {
      assert b[0].date in DaySet(a);
    }
    if |a| > 0 && |b| > 0 {
      assert NewestDay(a) in DaySet(b);
      assert NewestDay(b) in DaySet(a);
    }
  }

  /** Logging a second mood on an already-logged day never changes the streak. */
  lemma DuplicateDayKeepsStreak(entries: seq<MoodEntry>, e: MoodEntry, today: Day)
    requires exists x :: x in entries && x.date == e.date
    ensures Streak(entries + [e], today) == Streak(entries, today)
  {
    assert DaySet(entries + [e]) == DaySet(entries) by {
      assert forall x :: x in entries + [e] ==> x in entries || x == e;
    }
    StreakDependsOnlyOnDays(entries + [e], entries, today);
  }

  /** Entries on today, yesterday and the day before, and nothing older: a streak of 3. */
  lemma StreakOfThreeDays(e0: MoodEntry, e1: MoodEntry, e2: MoodEntry, today: Day)
    requires e0.date == today && e1.date == today - 1 && e2.date == today - 2
    ensures Streak([e0, e1, e2], today) == 3
  {
    var entries := [e0, e1, e2];
    var days := DaySet(entries);
    assert e0 in entries && e1 in entries && e2 in entries;
    assert forall x :: x in entries ==> x == e0 || x == e1 || x == e2;
    NewestDayIs(entries, today);
    forall x | today - 3 < x <= today ensures x in days {
      assert x == e0.date || x == e1.date || x == e2.date;
    }
    RunLengthUnique(days, today, 3);
  }

  /** Two entries today and one yesterday: duplicates neither inflate nor break the streak. */
  lemma StreakIgnoresSameDayDuplicates(e0: MoodEntry, e1: MoodEntry, e2: MoodEntry, today: Day)
    requires e0.date == today && e1.date == today && e2.date == today - 1
    ensures Streak([e0, e1, e2], today) == 2
  {
    var entries := [e0, e1, e2];
    var days := DaySet(entries);
    assert e0 in entries && e2 in entries;
    assert forall x :: x in entries ==> x == e0 || x == e1 || x == e2;
    NewestDayIs(entries, today);
    forall x | today - 2 < x <= today ensures x in days {
      assert x == e0.date || x == e2.date;
    }
    RunLengthUnique(days, today, 2);
  }

  /** Entries today and two days ago: the missing day breaks the streak after 1. */
  lemma StreakStopsAtGap(e0: MoodEntry, e1: MoodEntry, today: Day)
    requires e0.date == today && e1.date == today - 2
    ensures Streak([e0, e1], today) == 1
  {
    var entries := [e0, e1];
    var days := DaySet(entries);
    assert e0 in entries;
    assert forall x :: x in entries ==> x == e0 || x == e1;
    NewestDayIs(entries, today);
    RunLengthUnique(days, today, 1);
  }

  // ---------------------------------------------------------------------------
  // Streak: the computation (`calculateStreak`)
  // ---------------------------------------------------------------------------

  /** Newest first: no entry is newer than the one before it. */
  predicate NewestFirst(s: seq<MoodEntry>)
  {
    |s| <= 1 || (s[0].date >= s[1].date && NewestFirst(s[1..]))
  }

  /** In a newest-first list, an entry is never newer than any entry before it. */
  lemma {:induction false} NewestFirstOrdered(s: seq<MoodEntry>, i: nat, j: nat)
    requires NewestFirst(s) && i <= j < |s|
    ensures s[i].date >= s[j].date
    decreases j
  {
    if 0 < i {
      NewestFirstOrdered(s[1..], i - 1, j - 1);
    } else if 0 < j {
      NewestFirstOrdered(s[1..], 0, j - 1);
    }
  }

  /** Places `e` before the first entry of `s` that is not newer than it. */
  function Insert(e: MoodEntry, s: seq<MoodEntry>): (r: seq<MoodEntry>)
    requires NewestFirst(s)
    ensures NewestFirst(r)
    ensures multiset(r) == multiset(s) + multiset{e}
    ensures |r| == |s| + 1 && (r[0] == e || (|s| > 0 && r[0] == s[0]))
  {
    if |s| == 0 || e.date >= s[0].date then
      assert ([e] + s)[1..] == s;
      [e] + s
    else
      assert s == [s[0]] + s[1..];
      var tail := Insert(e, s[1..]);
      assert ([s[0]] + tail)[1..] == tail;
      [s[0]] + tail
  }

  /**
   * `[...entries].sort((a, b) => b.date.getTime() - a.date.getTime())`: a
   * sorted copy, newest first, stable among entries of one day.
   */
  function SortNewestFirst(entries: seq<MoodEntry>): (r: seq<MoodEntry>)
    ensures NewestFirst(r)
    ensures multiset(r) == multiset(entries)
  {
    if |entries| == 0 then []
    else
      assert entries == [entries[0]] + entries[1..];
      Insert(entries[0], SortNewestFirst(entries[1..]))
  }

  /** A reordering logs the same days, and the head of the sorted copy is the newest entry. */
  lemma SortedCopyFacts(entries: seq<MoodEntry>, sorted: seq<MoodEntry>)
    requires |entries| > 0
    requires multiset(sorted) == multiset(entries) && NewestFirst(sorted)
    ensures |sorted| > 0
    ensures DaySet(sorted) == DaySet(entries)
    ensures sorted[0].date == NewestDay(entries)
  {
    assert |sorted| == |multiset(sorted)| == |entries|;
    assert forall x :: x in sorted <==> x in entries by {
      forall x ensures x in sorted <==> x in entries {
        assert x in sorted <==> x in multiset(sorted);
        assert x in entries <==> x in multiset(entries);
      }
    }
    var newest := NewestDay(entries);
    var top :| top in entries && top.date == newest;
    var j :| 0 <= j < |sorted| && sorted[j] == top;
    NewestFirstOrdered(sorted, 0, j);
    assert sorted[0] in entries;
  }

  /** Where the walk meets an entry older than the cursor, no entry at all is on the cursor day. */
  lemma GapIsUnlogged(sorted: seq<MoodEntry>, i: nat, cursor: Day)
    requires NewestFirst(sorted)
    requires i < |sorted| && sorted[i].date < cursor
    requires forall j :: 0 <= j < i ==> sorted[j].date > cursor
    ensures forall j :: 0 <= j < |sorted| ==> sorted[j].date != cursor
  {
    forall j | i <= j < |sorted| ensures sorted[j].date < cursor {
      NewestFirstOrdered(sorted, i, j);
    }
  }

  /** When the newest entry is older than yesterday, the streak is zero. */
  lemma StaleNewestMeansNoStreak(entries: seq<MoodEntry>, sorted: seq<MoodEntry>, today: Day)
    requires |entries| > 0
    requires multiset(sorted) == multiset(entries) && NewestFirst(sorted)
    requires |sorted| > 0 && sorted[0].date != today && sorted[0].date != today - 1
    ensures Streak(entries, today) == 0
  {
    SortedCopyFacts(entries, sorted);
  }

  /**
   * Where the walk stops, each of the counted days from the newest entry's day
   * backward has an entry at the recorded position and no entry is on the
   * cursor day: the count is the streak.
   */
  lemma WalkCountsStreak(entries: seq<MoodEntry>, sorted: seq<MoodEntry>, today: Day, counted: seq<nat>)
    requires |entries| > 0
    requires multiset(sorted) == multiset(entries) && NewestFirst(sorted)
    requires |sorted| > 0 && (sorted[0].date == today || sorted[0].date == today - 1)
    requires forall k :: 0 <= k < |counted| ==> counted[k] < |sorted| && sorted[counted[k]].date == sorted[0].date - k
    requires forall j :: 0 <= j < |sorted| ==> sorted[j].date != sorted[0].date - |counted|
    ensures |counted| == Streak(entries, today)
  {
    SortedCopyFacts(entries, sorted);
    WitnessedRun(sorted, sorted[0].date, counted);
    RunLengthUnique(DaySet(sorted), sorted[0].date, |counted|);
  }

  /** Days with an entry at a recorded position, followed by a day with no entry, form a run. */
  lemma WitnessedRun(sorted: seq<MoodEntry>, anchor: Day, counted: seq<nat>)
    requires forall k :: 0 <= k < |counted| ==> counted[k] < |sorted| && sorted[counted[k]].date == anchor - k
    requires forall j :: 0 <= j < |sorted| ==> sorted[j].date != anchor - |counted|
    ensures RunEndsAt(DaySet(sorted), anchor, |counted|)
  {
    forall x | anchor - |counted| < x <= anchor ensures x in DaySet(sorted) {
      assert sorted[counted[anchor - x]] in sorted;
    }
  }

  /**
   * The home screen's streak counter: sorts a copy of the entries newest
   * first, anchors on today or yesterday, then walks the copy, counting one
   * day per match and moving the cursor back a day, skipping further entries
   * of an already-counted day and stopping at the first gap.
   */
  method CalculateStreak(entries: seq<MoodEntry>, today: Day) returns (streak: nat)
    ensures streak == Streak(entries, today)
  {
    if |entries| == 0 {
      return 0;
    }
    var sorted := SortNewestFirst(entries);
    assert |sorted| == |entries| by {
      assert |multiset(sorted)| == |multiset(entries)|;
    }
    streak := 0;

    var hasToday := sorted[0].date == today;
    var hasYesterday := sorted[0].date == today - 1;
    if !hasToday && !hasYesterday {
      StaleNewestMeansNoStreak(entries, sorted, today);
      return 0;
    }

    var currentDate := if hasToday then today else today - 1;
    ghost var anchor := currentDate;
    ghost var counted: seq<nat> := [];  // where in `sorted` each counted day was matched, newest first

    for i := 0 to |sorted|
      invariant streak == |counted| && currentDate == anchor - streak
      invariant forall k :: 0 <= k < |counted| ==> counted[k] < |sorted| && sorted[counted[k]].date == anchor - k
      invariant forall j :: 0 <= j < i ==> sorted[j].date > currentDate
    {
      var entry := sorted[i];
      if entry.date == currentDate {
        counted := counted + [i];
        streak := streak + 1;
        currentDate := currentDate - 1;
      } else if entry.date > currentDate {
        // Several entries on one day: that day is already counted.
        continue;
      } else {
        // A day without an entry ends the streak.
        GapIsUnlogged(sorted, i, currentDate);
        break;
      }
    }
    WalkCountsStreak(entries, sorted, today, counted);
  }
}
