/**
 * The app shell's own logic: seeding the journal with mock entries, replacing
 * today's entry when a mood is logged, and picking the active theme.
 */
module App {
  import opened Calendar
  import opened Types
  import opened Constants
  import Home
  import Statistics

  // ---------------------------------------------------------------------------
  // Logging a mood: `handleAddEntry`
  // ---------------------------------------------------------------------------

  /** `entries.filter(e => e.date.toDateString() !== day.toDateString())`. */
  function OnOtherDays(entries: seq<MoodEntry>, day: Day): (r: seq<MoodEntry>)
    ensures forall e :: e in r <==> e in entries && e.date != day
    ensures |r| + |Statistics.EntriesOn(entries, day)| == |entries|
    ensures IsSubsequence(r, entries)
  {
    if |entries| == 0 then []
    else
      assert forall e :: e in entries <==> e == entries[0] || e in entries[1..];
      var rest := OnOtherDays(entries[1..], day);
      if entries[0].date != day then
        assert ([entries[0]] + rest)[1..] == rest;
        [entries[0]] + rest
      else
        rest
  }

  /** The entry `handleAddEntry` creates; the random id and the clock are parameters. */
  function NewEntry(mood: MoodType, note: string, id: string, now: Day): (e: MoodEntry)
    ensures e.date == now && e.mood == mood && e.note == note && e.id == id
  {
    MoodEntry(id, now, mood, note)
  }

  /**
   * `handleAddEntry`: every entry of the current day is dropped and the new
   * entry is put in front; entries of other days stay, in their order.
   */
  function HandleAddEntry(entries: seq<MoodEntry>, mood: MoodType, note: string, id: string, now: Day): (r: seq<MoodEntry>)
    ensures |r| == |entries| - |Statistics.EntriesOn(entries, now)| + 1
    ensures r[0] == NewEntry(mood, note, id, now)
    ensures forall i :: 1 <= i < |r| ==> r[i].date != now
    ensures forall e :: e in r[1..] <==> e in entries && e.date != now
    ensures IsSubsequence(r[1..], entries)
  {
    var filtered := OnOtherDays(entries, now);
    assert ([NewEntry(mood, note, id, now)] + filtered)[1..] == filtered;
    assert forall i :: 1 <= i < |filtered| + 1 ==> ([NewEntry(mood, note, id, now)] + filtered)[i] in filtered;
    [NewEntry(mood, note, id, now)] + filtered
  }

  /**
   * After logging, today's cell and today's entry show the new mood, and every
   * other day's lookup gives the same entry as before.
   */
  lemma {:induction false} AddEntryLookups(entries: seq<MoodEntry>, mood: MoodType, note: string, id: string, now: Day, day: Day)
    ensures var after := HandleAddEntry(entries, mood, note, id, now);
            Home.FindEntryForDay(after, day)
              == if day == now then Some(NewEntry(mood, note, id, now)) else Home.FindEntryForDay(entries, day)
  {
    if day != now {
      FilterKeepsLookup(entries, now, day);
    }
  }

  lemma {:induction false} FilterKeepsLookup(entries: seq<MoodEntry>, removed: Day, day: Day)
    requires day != removed
    ensures Home.FindEntryForDay(OnOtherDays(entries, removed), day) == Home.FindEntryForDay(entries, day)
  {
    if |entries| > 0 {
      FilterKeepsLookup(entries[1..], removed, day);
      if entries[0].date != removed {
        assert ([entries[0]] + OnOtherDays(entries[1..], removed))[1..] == OnOtherDays(entries[1..], removed);
      }
    }
  }

  // ---------------------------------------------------------------------------
  // Theme: `THEMES.find(t => t.id === themeId) || THEMES[0]`
  // ---------------------------------------------------------------------------

  /** The first theme with the given id, if any. */
  function FindTheme(themes: seq<Theme>, id: string): (r: Option<Theme>)
    ensures r.None? <==> forall i :: 0 <= i < |themes| ==> themes[i].id != id
    ensures r.Some? ==> r.value in themes && r.value.id == id
    ensures r.Some? ==> exists i :: 0 <= i < |themes| && themes[i] == r.value
                                   && forall j :: 0 <= j < i ==> themes[j].id != id
  {
    if |themes| == 0 then None
    else if themes[0].id == id then Some(themes[0])
    else
      var rest := FindTheme(themes[1..], id);
      assert forall i :: 1 <= i < |themes| ==> themes[i] == themes[1..][i - 1];
      if rest.Some? then
        ghost var i :| 0 <= i < |themes[1..]| && themes[1..][i] == rest.value
                       && forall j :: 0 <= j < i ==> themes[1..][j].id != id;
        assert themes[i + 1] == rest.value;
        assert forall j :: 0 <= j < i + 1 ==> themes[j].id != id by {
          forall j | 0 <= j < i + 1 ensures themes[j].id != id {
            if j > 0 { assert themes[j] == themes[1..][j - 1]; }
          }
        }
        rest
      else rest
  }

  /** The theme whose id is `themeId`, falling back to the first theme when no theme has it. */
  function ActiveTheme(themeId: string): (t: Theme)
    ensures t in THEMES
    ensures forall i :: 0 <= i < |THEMES| && THEMES[i].id == themeId ==> t == THEMES[i]
    ensures (forall i :: 0 <= i < |THEMES| ==> THEMES[i].id != themeId) ==> t == THEMES[0]
  {
    ThemesWellFormed();
    match FindTheme(THEMES, themeId)
    case Some(theme) => theme
    case None => THEMES[0]
  }

  // ---------------------------------------------------------------------------
  // Mock data: `generateMockData`
  // ---------------------------------------------------------------------------

  /** The number of past days, counting today, that the mock data covers. */
  const MOCK_DAYS: nat := 20

  const MOCK_NOTE: string := "Auto-generated note"

  /** `Math.floor(Math.random() * moods.length)`: an index into ALL_MOODS. */
  type MoodPick = i: nat | i < 6

  /**
   * The random numbers one iteration of the mock-data loop draws: whether the
   * day is skipped (`Math.random() > 0.8`), the mood picked, and the id.
   */
  datatype Draw = Draw(skipDay: bool, moodPick: MoodPick, id: string)

  /** The mock entry for the day `i` days before `today`: a mood of the table, the fixed note. */
  function MockEntry(today: Day, i: nat, draw: Draw): (e: MoodEntry)
    ensures e.date == today - i && e.id == draw.id && e.note == MOCK_NOTE
    ensures e.mood in ALL_MOODS && e.mood == ALL_MOODS[draw.moodPick]
  {
    MoodEntry(draw.id, today - i, ALL_MOODS[draw.moodPick], MOCK_NOTE)
  }

  /**
   * The mock entries for draws `draws`, where draw `i` belongs to the day `i`
   * days before `today`: at most one per draw, strictly newest first, all
   * within the covered days.
   */
  function MockData(today: Day, draws: seq<Draw>): (data: seq<MoodEntry>)
    ensures |data| <= |draws|
    ensures forall k :: 0 <= k < |data| ==> today - |draws| < data[k].date <= today
    ensures forall j, k :: 0 <= j < k < |data| ==> data[j].date > data[k].date
  {
    if |draws| == 0 then []
    else
      var n := |draws| - 1;
      var earlier := MockData(today, draws[..n]);
      if draws[n].skipDay then earlier else earlier + [MockEntry(today, n, draws[n])]
  }

  /** `e` is the entry drawn for its own day, and that day's draw is not a skip. */
  ghost predicate FromOwnDraw(today: Day, draws: seq<Draw>, e: MoodEntry)
  {
    var i := today - e.date;
    0 <= i < |draws| && !draws[i].skipDay && e == MockEntry(today, i, draws[i])
  }

  /** Each mock entry is the entry of its own day's draw. */
  lemma {:induction false} MockEntriesComeFromDraws(today: Day, draws: seq<Draw>)
    ensures forall e :: e in MockData(today, draws) ==> FromOwnDraw(today, draws, e)
  {
    if |draws| > 0 {
      var n := |draws| - 1;
      var earlier := MockData(today, draws[..n]);
      MockEntriesComeFromDraws(today, draws[..n]);
      forall e | e in MockData(today, draws) ensures FromOwnDraw(today, draws, e) {
        if e in earlier {
          assert FromOwnDraw(today, draws[..n], e);
          assert draws[..n][today - e.date] == draws[today - e.date];
        }
      }
    }
  }

  /** Every day whose draw is not a skip has its mock entry. */
  lemma {:induction false} UnskippedDaysHaveEntries(today: Day, draws: seq<Draw>)
    ensures forall i :: 0 <= i < |draws| && !draws[i].skipDay ==> MockEntry(today, i, draws[i]) in MockData(today, draws)
  {
    if |draws| > 0 {
      var n := |draws| - 1;
      UnskippedDaysHaveEntries(today, draws[..n]);
      forall i | 0 <= i < n && !draws[i].skipDay ensures MockEntry(today, i, draws[i]) in MockData(today, draws) {
        assert draws[..n][i] == draws[i];
      }
    }
  }

  /**
   * `generateMockData`: walks the last MOCK_DAYS days from today backward,
   * skipping the days whose draw says so and logging one entry with the drawn
   * mood and id on each other day.
   */
  method GenerateMockData(today: Day, draws: seq<Draw>) returns (data: seq<MoodEntry>)
    requires |draws| == MOCK_DAYS
    ensures data == MockData(today, draws)
    ensures |data| <= MOCK_DAYS
  {
    data := [];
    for i := 0 to MOCK_DAYS
      invariant data == MockData(today, draws[..i])
    {
      assert draws[..i + 1][..i] == draws[..i] && draws[..i + 1][i] == draws[i];
      if draws[i].skipDay {
        continue;
      }
      var date := today - i;
      var moods := ALL_MOODS;
      var randomMood := moods[draws[i].moodPick];
      data := data + [MoodEntry(draws[i].id, date, randomMood, MOCK_NOTE)];
    }
    assert draws[..MOCK_DAYS] == draws;
  }
}
