# SoulFlow mood journal — verified model of the derived values

SoulFlow is a single-user mood journal. The user logs one mood per day. The
app seeds itself with random mock entries, and every screen derives its
figures from the in-memory list of entries. This project models those
derivations in Dafny and proves what they compute:

- **Home screen** (`home.dfy`, module `Home`):
  - today's entry and the month calendar, each a first-match lookup per day;
  - the number of empty cells before the first day of the month;
  - the quote of the day;
  - the day streak. The streak counter `calculateStreak` is modelled as a
    method with the source's loop (`continue` for a same-day entry, `break`
    at a gap). It is proved equal to the specification function `Streak`.
- **Statistics screen** (`statistics.dfy`, module `Statistics`):
  - the last seven days and their bar-chart points;
  - the trend line, where an empty day is a gap;
  - the mood counts. The `reduce` that builds them is a method over a map
    and its key order. It is proved equal to the specification `MoodCounts`.
  - the pie slices.
- **App shell** (`app.dfy`, module `App`):
  - logging a mood, which replaces today's entries;
  - the active theme with its fallback;
  - the mock-data generator. It is a method with the source's loop, proved
    equal to the function `MockData`.
- **Configuration** (`constants.dfy`): the mood, theme and quote tables.
- **Records** (`types.dfy`): the entry and configuration records.
- **Dates** (`calendar.dfy`): calendar days as integers.

Dates are calendar days. A `Day` counts days since 1 January 1970 in the
device's local calendar, which gives these correspondences:

| date-library call | model |
|---|---|
| `isSameDay(a, b)` | `a == b` |
| `subDays(d, n)` | `d - n` |
| `getDay()` | `Weekday` (0 is Sunday) |
| `format(d, 'EEE')` | `ShortWeekdayName` |

The streak loop compares full timestamps in `entry.date > currentDate`. It
does so only after the same-day test has failed. For an entry on a different
day, that comparison agrees with comparing the days, so the day-level model
is exact.

When the newest entry is dated after today, neither `hasToday` nor
`hasYesterday` holds (views/Home.tsx:171-174), so the streak is 0 even if
today also has an entry. The model does the same.

## Model

| member | source | states |
|---|---|---|
| Constants.Mood | constants.ts:3-10 | Each mood kind's configuration has that kind. Its score lies between 2 and 10. Labels, emoji, colours and scores are the table's. |
| Constants.AllMoodsComplete | types.ts:8-15 | `Object.values(MoodType)` lists every mood kind exactly once. |
| Constants.MoodLabelsDistinct | constants.ts:3-10 | Two kinds with the same label are the same kind, so labels can key chart slices. |
| Constants.ThemesWellFormed | constants.ts:12-17 | The theme table is non-empty, so the `THEMES[0]` fallback exists. No two themes share an id. |
| Calendar.Weekday | views/Home.tsx:58 | `getDay()`: a column index 0 (Sunday) to 6. `WeekdayAdvances` relates the weekdays of different days. |
| Calendar.WeekdayAdvances | views/Home.tsx:51-58 | Moving k days forward moves k columns forward in the Sunday-first seven-column grid. |
| Calendar.WeekdayPeriodic | views/Home.tsx:51-58 | A day and the day a week later have the same weekday and the same short name. |
| Calendar.ShortWeekdayName | views/Statistics.tsx:27 | The short weekday name is one of the seven column headers. |
| Home.FindEntryForDay | views/Home.tsx:22 | None exactly when no entry is on the day. Otherwise the result is an entry on that day with no entry of that day before it. |
| Home.BuildMonthGrid | views/Home.tsx:56-64 | Padding is the first day's weekday, which is below 7. There is one cell per day of the month, in order. Each cell sits in its weekday's column, shows that day's first entry, and is highlighted exactly when it is today. |
| Home.QuoteIndex | views/Home.tsx:26 | The quote index is a valid index into the quote table. |
| Home.DailyQuote | views/Home.tsx:27 | The daily quote is one of the configured quotes. |
| Home.QuoteRotates | views/Home.tsx:26-27 | The next day of the month shows the next quote. Four days later the same quote returns. |
| Home.NewestDay | views/Home.tsx:166-171 | The newest entry's day is a logged day, and no entry is newer. |
| Home.RunLengthIsRun | views/Home.tsx:178-189 | Every day of the counted run has an entry. The day just before the run has none. |
| Home.Streak | views/Home.tsx:163-191 | The reference definition `CalculateStreak` is proved against. It counts the run of logged days ending at the newest entry's day, and never exceeds the number of entries. `StreakMeaning` characterises it in full. |
| Home.StreakMeaning | views/Home.tsx:163-191 | The streak is 0 with no entries and 0 when the newest entry is neither today nor yesterday. Otherwise it is at least 1. It is then exactly the unbroken run of logged days ending at the newest entry's day, and the day before that run has no entry. |
| Home.StreakDependsOnlyOnDays | views/Home.tsx:178-189 | Two journals that log the same set of days have the same streak. |
| Home.DuplicateDayKeepsStreak | views/Home.tsx:182-184 | A further entry on an already-logged day leaves the streak unchanged. |
| Home.StreakOfThreeDays | views/Home.tsx:163-191 | One entry each on today, yesterday and the day before gives a streak of 3. |
| Home.StreakIgnoresSameDayDuplicates | views/Home.tsx:178-189 | Two entries today and one yesterday give a streak of 2. |
| Home.StreakStopsAtGap | views/Home.tsx:185-188 | Entries today and two days ago give a streak of 1. |
| Home.SortNewestFirst | views/Home.tsx:166 | The sorted copy is newest first and is a permutation of the entries. |
| Home.GapIsUnlogged | views/Home.tsx:185-188 | When the walk meets an entry older than the cursor, no entry at all is on the cursor day. |
| Home.CalculateStreak | views/Home.tsx:163-191 | The loop's count is exactly `Streak` for every list of entries and every today. |
| Statistics.Last7Days | views/Statistics.tsx:14-15 | There are seven consecutive days, oldest first, ending today. |
| Statistics.EntriesOn | views/Statistics.tsx:18 | It keeps exactly the entries of the given day, in their order. |
| Statistics.FirstOfDayIsFound | views/Statistics.tsx:18-25 | The first of a day's filtered entries is the entry the calendar lookup finds for that day. The filtered list is empty exactly when the lookup finds none. |
| Statistics.DayPoint | views/Statistics.tsx:17-31 | One day's bar takes its score, colour and label from the mood of the day's first entry. An empty day gives score 0, colour `#333` and an empty label. The bar also carries the day's short name. |
| Statistics.WeekData | views/Statistics.tsx:17-32 | There are seven points. Each carries its day's short weekday name. A day with an entry has its first entry's mood score, colour and label. An empty day has score 0, colour `#333` and an empty label. |
| Statistics.TrendData | views/Statistics.tsx:36 | There is one trend point per bar, with the same day name. |
| Statistics.TrendGapsAreEmptyDays | views/Statistics.tsx:36 | A trend point is a gap exactly when its day has no entry. Otherwise it holds the score of the day's first entry's mood. |
| Statistics.CountOf | views/Statistics.tsx:39-42 | A mood's count is at most the number of entries, and positive exactly when some entry has that mood. |
| Statistics.MoodsInOrder | views/Statistics.tsx:44 | The keys are exactly the moods that occur, each once. |
| Statistics.MoodsInFirstSeenOrder | views/Statistics.tsx:39-44 | Keys are in order of first occurrence. Wherever a mood occurs, every key listed before it occurred earlier. |
| Statistics.MoodCounts | views/Statistics.tsx:39-44 | There is one pair per mood that occurs, each mood once and at most six. Each pair's count is that mood's number of entries, at least 1. `MoodsInFirstSeenOrder` gives the key order. |
| Statistics.TallyMoods | views/Statistics.tsx:39-42 | The accumulator's key order and counts equal `MoodCounts`: each present mood, in first-occurrence order, with its number of entries. |
| Statistics.CountsAddUpToEntries | views/Statistics.tsx:39-42 | The counts add up to the number of entries, so each entry is counted once. |
| Statistics.PieData | views/Statistics.tsx:44-48 | There is one slice per count, in the same order. `PieSlicesAreMoodCounts` states each slice's name, value and colour. |
| Statistics.PieSlicesAreMoodCounts | views/Statistics.tsx:44-48 | There is one slice per present mood, in key order and at most six. Each slice has the mood's label and colour and the mood's count, which is at least 1. Slice names are distinct. |
| App.NewEntry | App.tsx:44-49 | The new entry is dated now and carries the chosen mood, the note and the id. `AddEntryLookups` shows it becomes today's entry. |
| App.OnOtherDays | App.tsx:51 | It keeps exactly the entries not on the given day, in their order. Together with that day's entries it accounts for every entry. |
| App.HandleAddEntry | App.tsx:43-53 | The new entry comes first. Every other element is an earlier entry of another day. Entries of other days all stay, in their order, and the length is as computed. |
| App.AddEntryLookups | App.tsx:43-53 | After logging, today's lookup gives the new entry. Every other day's lookup is unchanged. |
| App.FilterKeepsLookup | App.tsx:51 | Removing one day's entries does not change the lookup of any other day. |
| App.FindTheme | App.tsx:55 | It finds the first theme with the id, or None exactly when no theme has it. |
| App.ActiveTheme | App.tsx:55 | The active theme is a configured theme: the one with the stored id, or the first theme when no id matches. |
| App.MockEntry | App.tsx:19-28 | Draw `i`'s entry is dated `i` days before today. It carries the drawn id, the table mood at the drawn index, and the fixed note. |
| App.MockData | App.tsx:12-31 | There is at most one entry per draw. Dates fall in the covered days, strictly newest first. |
| App.MockEntriesComeFromDraws | App.tsx:17-28 | Each mock entry is dated `today - i` and carries draw `i`'s id and mood, for a draw `i` that is not a skip. |
| App.UnskippedDaysHaveEntries | App.tsx:17-28 | Every day whose draw is not a skip has its mock entry. |
| App.GenerateMockData | App.tsx:12-31 | The loop over 20 days produces exactly `MockData`, so at most 20 entries. |

## Left out

- Rendering is not part of this model: JSX, styling, animation, the chart
  library, and the Jar, Settings and BottomNav views.
- The view switch and React state hooks are not modelled. `handleAddEntry`
  returns the new list instead of calling `setEntries`. The initial
  `useEffect` load is the caller's call of `GenerateMockData`.
- Clock and time zones: `new Date()` is the parameter `today` (or `now`).
  Timestamps become local calendar days. Time of day, daylight-saving shifts
  and the order of entries within one day are not modelled.
- The home screen keeps the displayed month in a `currentDate` state captured
  at mount. The model takes the month's first day and length as parameters
  (`startOfMonth`, `endOfMonth`, `eachDayOfInterval`). The highlight and the
  streak use the same `today`.
- Home.BuildMonthGrid: does not require the month length to lie between 28
  and 31, because the month boundaries come from the date library, which is
  not part of this model.
- Randomness is a parameter. The `Math.random() > 0.8` skip test becomes a
  boolean per day, and its probability is not modelled. The random mood
  index becomes a number below 6. The base-36 random id becomes an id
  string.
- `Array.prototype.sort` is modelled as a stable insertion sort by day.
  Every proof about the streak walk holds for any newest-first permutation,
  and the result depends only on the set of logged days.
- The note text that the home screen's mood picker builds (string
  concatenation and `toLowerCase`) is not modelled.
- Emoji icons are kept as table data. No derivation uses them.
