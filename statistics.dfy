/**
 * The data behind the statistics screen: the score of each of the last seven
 * days (bar chart), the same series with empty days as gaps (line chart), and
 * how often each mood was logged (pie chart).
 */
module Statistics {
  import opened Calendar
  import opened Types
  import opened Constants
  import Home

  // ---------------------------------------------------------------------------
  // The week series
  // ---------------------------------------------------------------------------

  /** `last7Days`: the seven days that end today, oldest first. */
  function Last7Days(today: Day): (days: seq<Day>)
    ensures |days| == 7
    ensures days[6] == today
    ensures forall i :: 0 <= i < 6 ==> days[i + 1] == days[i] + 1
    ensures forall i :: 0 <= i < 7 ==> today - 7 < days[i] <= today
  {
    seq(7, i requires 0 <= i < 7 => today - (6 - i))
  }

  /** `entries.filter(e => isSameDay(e.date, day))`: the day's entries, in their order. */
  function EntriesOn(entries: seq<MoodEntry>, day: Day): (r: seq<MoodEntry>)
    ensures |r| <= |entries|
    ensures forall e :: e in r <==> e in entries && e.date == day
    ensures IsSubsequence(r, entries)
  {
    if |entries| == 0 then []
    else
      assert forall e :: e in entries <==> e == entries[0] || e in entries[1..];
      var rest := EntriesOn(entries[1..], day);
      if entries[0].date == day then
        assert ([entries[0]] + rest)[1..] == rest;
        [entries[0]] + rest
      else
        rest
  }

  /** One bar of the week chart: weekday name, score, bar colour and mood label. */
  datatype WeekPoint = WeekPoint(day: string, score: int, moodColor: string, labelText: string)

  /** The bar of `day`, built from the first of that day's entries. */
  function DayPoint(entries: seq<MoodEntry>, day: Day): (p: WeekPoint)
    ensures ShowsFirstEntry(p, day, Home.FindEntryForDay(entries, day))
  {
    FirstOfDayIsFound(entries, day);
    var dayEntries := EntriesOn(entries, day);
    if |dayEntries| > 0 then
      var config := Mood(dayEntries[0].mood);
      WeekPoint(ShortWeekdayName(day), config.score, config.color, config.labelText)
    else
      WeekPoint(ShortWeekdayName(day), 0, NO_ENTRY_COLOR, "")
  }

  /** `weekData`: one bar per day of `Last7Days(today)`, in the same order. */
  function WeekData(entries: seq<MoodEntry>, today: Day): (week: seq<WeekPoint>)
    ensures |week| == 7
    ensures forall i :: 0 <= i < 7 ==>
              ShowsFirstEntry(week[i], Last7Days(today)[i], Home.FindEntryForDay(entries, Last7Days(today)[i]))
  {
    var days := Last7Days(today);
    seq(7, i requires 0 <= i < 7 => DayPoint(entries, days[i]))
  }

  /**
   * A bar shows `day`'s weekday name and takes score, colour and label from the
   * mood configuration of `found`, or is a zero-score neutral bar without a
   * label when the day has no entry.
   */
  ghost predicate ShowsFirstEntry(p: WeekPoint, day: Day, found: Option<MoodEntry>)
  {
    && p.day == ShortWeekdayName(day)
    && match found
       case Some(e) =>
         p.score == Mood(e.mood).score && p.moodColor == Mood(e.mood).color && p.labelText == Mood(e.mood).labelText
       case None =>
         p.score == 0 && p.moodColor == NO_ENTRY_COLOR && p.labelText == ""
  }

  /** The first entry of a day's filtered list is the entry `find` returns for that day. */
  lemma {:induction false} FirstOfDayIsFound(entries: seq<MoodEntry>, day: Day)
    ensures |EntriesOn(entries, day)| > 0 <==> Home.FindEntryForDay(entries, day).Some?
    ensures |EntriesOn(entries, day)| > 0 ==> EntriesOn(entries, day)[0] == Home.FindEntryForDay(entries, day).value
  {
    if |entries| > 0 {
      FirstOfDayIsFound(entries[1..], day);
    }
  }

  /** One point of the trend line; a day without a score is a gap (`null`). */
  datatype TrendPoint = TrendPoint(day: string, score: Option<int>)

  /** `trendData`: the week series with a zero score turned into a gap. */
  function TrendData(week: seq<WeekPoint>): (trend: seq<TrendPoint>)
    ensures |trend| == |week|
    ensures forall i :: 0 <= i < |week| ==> trend[i].day == week[i].day
  {
    seq(|week|, i requires 0 <= i < |week| =>
          TrendPoint(week[i].day, if week[i].score == 0 then None else Some(week[i].score)))
  }

  /**
   * On the trend line exactly the days without an entry are gaps: since every
   * mood scores at least 2, a zero score can only come from an empty day, and
   * every other day keeps the score of its first entry's mood.
   */
  lemma TrendGapsAreEmptyDays(entries: seq<MoodEntry>, today: Day, i: nat)
    requires i < 7
    ensures var trend, day := TrendData(WeekData(entries, today)), Last7Days(today)[i];
            && |trend| == 7
            && trend[i].day == ShortWeekdayName(day)
            && (trend[i].score.None? <==> forall e :: e in entries ==> e.date != day)
            && (trend[i].score.Some? ==>
                  trend[i].score.value == Mood(Home.FindEntryForDay(entries, day).value.mood).score)
  {
    var day := Last7Days(today)[i];
    var found := Home.FindEntryForDay(entries, day);
    if found.Some? {
      assert found.value in entries;
    } else {
      assert forall e :: e in entries ==> e.date != day by {
        forall e | e in entries ensures e.date != day {
          var j :| 0 <= j < |entries| && entries[j] == e;
        }
      }
    }
  }

  // ---------------------------------------------------------------------------
  // Mood distribution
  // ---------------------------------------------------------------------------

  /** The number of entries logged with mood `m`. */
  function CountOf(entries: seq<MoodEntry>, m: MoodType): (n: nat)
    ensures n <= |entries|
    ensures n > 0 <==> exists i :: 0 <= i < |entries| && entries[i].mood == m
  {
    if |entries| == 0 then 0
    else
      var earlier := entries[..|entries| - 1];
      assert forall i :: 0 <= i < |earlier| ==> earlier[i] == entries[i];
      CountOf(earlier, m) + if entries[|entries| - 1].mood == m then 1 else 0
  }

  /** The kinds of mood present, each once, in the order of their first occurrence. */
  function MoodsInOrder(entries: seq<MoodEntry>): (kinds: seq<MoodType>)
    ensures forall m :: m in kinds <==> CountOf(entries, m) > 0
    ensures forall i, j :: 0 <= i < j < |kinds| ==> kinds[i] != kinds[j]
  {
    if |entries| == 0 then []
    else
      var earlier := MoodsInOrder(entries[..|entries| - 1]);
      var m := entries[|entries| - 1].mood;
      if m in earlier then earlier else earlier + [m]
  }

  /**
   * Keys come in order of first occurrence: wherever a mood occurs, every mood
   * listed before it has already occurred earlier in the entries.
   */
  lemma {:induction false} MoodsInFirstSeenOrder(entries: seq<MoodEntry>, i: nat, j: nat, p: nat)
    requires i < j < |MoodsInOrder(entries)|
    requires p < |entries| && entries[p].mood == MoodsInOrder(entries)[j]
    ensures exists q :: 0 <= q < p && entries[q].mood == MoodsInOrder(entries)[i]
  {
    var n := |entries| - 1;
    var earlier := entries[..n];
    var before := MoodsInOrder(earlier);
    var kinds := MoodsInOrder(entries);
    assert kinds[i] == before[i];
    if p < n {
      assert earlier[p] == entries[p];
      if j < |before| {
        MoodsInFirstSeenOrder(earlier, i, j, p);
        var q :| 0 <= q < p && earlier[q].mood == before[i];
        assert entries[q] == earlier[q];
      } else {
        // The last key is new with the last entry, so it cannot occur earlier.
        assert false;
      }
    } else {
      assert CountOf(earlier, kinds[i]) > 0;
      var q :| 0 <= q < n && earlier[q].mood == kinds[i];
      assert entries[q] == earlier[q];
    }
  }

  /**
   * `Object.entries(moodCounts)`: every mood present with its number of
   * entries, in the order the mood was first added as a key.
   */
  function MoodCounts(entries: seq<MoodEntry>): (counts: seq<(MoodType, nat)>)
    ensures |counts| == |MoodsInOrder(entries)| <= |ALL_MOODS|
    ensures forall k :: 0 <= k < |counts| ==> counts[k].1 == CountOf(entries, counts[k].0) >= 1
    ensures forall i, j :: 0 <= i < j < |counts| ==> counts[i].0 != counts[j].0
  {
    var kinds := MoodsInOrder(entries);
    DistinctKindsAtMostSix(kinds);
    seq(|kinds|, k requires 0 <= k < |kinds| => (kinds[k], CountOf(entries, kinds[k])))
  }

  /** Adding an entry raises its mood's count by one and leaves the other counts. */
  lemma CountOfAppend(entries: seq<MoodEntry>, e: MoodEntry)
    ensures forall x :: CountOf(entries + [e], x) == CountOf(entries, x) + if e.mood == x then 1 else 0
  {
    assert (entries + [e])[..|entries|] == entries;
  }

  /** The same for one more element of a prefix. */
  lemma CountOfLonger(entries: seq<MoodEntry>, i: nat)
    requires i < |entries|
    ensures forall x :: CountOf(entries[..i + 1], x) == CountOf(entries[..i], x) + if entries[i].mood == x then 1 else 0
  {
    assert entries[..i + 1] == entries[..i] + [entries[i]];
    CountOfAppend(entries[..i], entries[i]);
  }

  /**
   * The `moodCounts` reduce: one pass over the entries that bumps the count of
   * each entry's mood in an accumulator object, adding the mood as a new key
   * (after all existing keys) the first time it is seen.
   */
  method TallyMoods(entries: seq<MoodEntry>) returns (counts: seq<(MoodType, nat)>)
    ensures counts == MoodCounts(entries)
  {
    var acc: map<MoodType, nat> := map[];
    var keys: seq<MoodType> := [];  // the accumulator's keys in insertion order
    for i := 0 to |entries|
      invariant keys == MoodsInOrder(entries[..i])
      invariant forall m :: m in acc <==> m in keys
      invariant forall m :: m in acc ==> acc[m] == CountOf(entries[..i], m)
    {
      assert entries[..i + 1][..i] == entries[..i];
      CountOfLonger(entries, i);
      var mood := entries[i].mood;
      var previous := if mood in acc then acc[mood] else 0;
      if mood !in acc {
        keys := keys + [mood];
      }
      acc := acc[mood := previous + 1];
    }
    TallyIsMoodCounts(entries, keys, acc);
    counts := ObjectEntries(keys, acc);
  }

  /** `Object.entries(acc)`: each key, in insertion order, with its value. */
  function ObjectEntries(keys: seq<MoodType>, acc: map<MoodType, nat>): (pairs: seq<(MoodType, nat)>)
    requires forall m :: m in keys ==> m in acc
    ensures |pairs| == |keys|
    ensures forall k :: 0 <= k < |keys| ==> pairs[k] == (keys[k], acc[keys[k]])
  {
    seq(|keys|, k requires 0 <= k < |keys| => (keys[k], acc[keys[k]]))
  }

  /** The accumulator after the whole pass holds exactly the mood counts, keys in order. */
  lemma TallyIsMoodCounts(entries: seq<MoodEntry>, keys: seq<MoodType>, acc: map<MoodType, nat>)
    requires keys == MoodsInOrder(entries[..|entries|])
    requires forall m :: m in acc <==> m in keys
    requires forall m :: m in acc ==> acc[m] == CountOf(entries[..|entries|], m)
    ensures forall m :: m in keys ==> m in acc
    ensures ObjectEntries(keys, acc) == MoodCounts(entries)
  {
    assert entries[..|entries|] == entries;
  }

  /** The sum of the counts. */
  function Total(counts: seq<(MoodType, nat)>): (sum: nat)
  {
    if |counts| == 0 then 0 else Total(counts[..|counts| - 1]) + counts[|counts| - 1].1
  }

  lemma {:induction false} TotalOfUpdate(counts: seq<(MoodType, nat)>, k: nat, v: nat)
    requires k < |counts|
    ensures Total(counts[k := (counts[k].0, v)]) + counts[k].1 == Total(counts) + v
    decreases |counts|
  {
    var n := |counts| - 1;
    var updated := counts[k := (counts[k].0, v)];
    if k < n {
      assert updated[..n] == counts[..n][k := (counts[k].0, v)];
      TotalOfUpdate(counts[..n], k, v);
    } else {
      assert updated[..n] == counts[..n];
    }
  }

  /** Adding an entry of a mood already counted updates that mood's count in place. */
  lemma CountsAfterKnownMood(entries: seq<MoodEntry>, e: MoodEntry, k: nat)
    requires k < |MoodsInOrder(entries)| && MoodsInOrder(entries)[k] == e.mood
    ensures MoodCounts(entries + [e]) == MoodCounts(entries)[k := (e.mood, CountOf(entries + [e], e.mood))]
  {
    MoodsInOrderAppend(entries, e);
    CountOfAppend(entries, e);
  }

  /** An entry adds its mood as the last key, unless the mood is already a key. */
  lemma MoodsInOrderAppend(entries: seq<MoodEntry>, e: MoodEntry)
    ensures MoodsInOrder(entries + [e])
              == if e.mood in MoodsInOrder(entries) then MoodsInOrder(entries) else MoodsInOrder(entries) + [e.mood]
  {
    assert (entries + [e])[..|entries|] == entries;
  }

  /** Adding an entry of a mood not yet counted appends that mood with count one. */
  lemma CountsAfterNewMood(entries: seq<MoodEntry>, e: MoodEntry)
    requires e.mood !in MoodsInOrder(entries)
    ensures MoodCounts(entries + [e]) == MoodCounts(entries) + [(e.mood, 1)]
  {
    MoodsInOrderAppend(entries, e);
    CountOfAppend(entries, e);
  }

  /** Every entry is counted exactly once: the counts add up to the number of entries. */
  lemma {:induction false} CountsAddUpToEntries(entries: seq<MoodEntry>)
    ensures Total(MoodCounts(entries)) == |entries|
  {
    if |entries| > 0 {
      var earlier, e := entries[..|entries| - 1], entries[|entries| - 1];
      assert entries == earlier + [e];
      CountsAddUpToEntries(earlier);
      var before, kinds := MoodCounts(earlier), MoodsInOrder(earlier);
      if e.mood in kinds {
        var k :| 0 <= k < |kinds| && kinds[k] == e.mood;
        CountsAfterKnownMood(earlier, e, k);
        CountOfAppend(earlier, e);
        TotalOfUpdate(before, k, CountOf(entries, e.mood));
      } else {
        CountsAfterNewMood(earlier, e);
        assert (before + [(e.mood, 1)])[..|before|] == before;
      }
    }
  }

  /** One slice of the mood pie: mood label, count and mood colour. */
  datatype PieSlice = PieSlice(name: string, value: nat, color: string)

  /** `pieData`: one slice per counted mood, in the same order. */
  function PieData(counts: seq<(MoodType, nat)>): (pie: seq<PieSlice>)
    ensures |pie| == |counts|
  {
    seq(|counts|, i requires 0 <= i < |counts| =>
          PieSlice(Mood(counts[i].0).labelText, counts[i].1, Mood(counts[i].0).color))
  }

  lemma {:induction false} DistinctKindsAtMostSix(kinds: seq<MoodType>)
    requires forall i, j :: 0 <= i < j < |kinds| ==> kinds[i] != kinds[j]
    ensures |kinds| <= |ALL_MOODS|
  {
    var present := set m | m in kinds;
    DistinctSize(kinds);
    var all := {Joy, Calm, Sad, Anger, Fear, Disgust};
    assert present <= all;
    assert |all| == 6;
    assert all == present + (all - present);
    assert |all| == |present| + |all - present|;
  }

  lemma {:induction false} DistinctSize(kinds: seq<MoodType>)
    requires forall i, j :: 0 <= i < j < |kinds| ==> kinds[i] != kinds[j]
    ensures |set m | m in kinds| == |kinds|
  {
    if |kinds| > 0 {
      DistinctSize(kinds[1..]);
      assert (set m | m in kinds) == (set m | m in kinds[1..]) + {kinds[0]};
      assert kinds[0] !in kinds[1..];
    }
  }

  /**
   * The pie has one slice per mood that occurs, labelled and coloured by that
   * mood, whose value is the mood's count (so at least 1); no mood occurs
   * twice, so slice names are unique, and there are at most six slices.
   */
  lemma PieSlicesAreMoodCounts(entries: seq<MoodEntry>)
    ensures var pie, kinds := PieData(MoodCounts(entries)), MoodsInOrder(entries);
            && |pie| == |kinds| <= |ALL_MOODS|
            && (forall m :: CountOf(entries, m) > 0 <==> m in kinds)
            && (forall i :: 0 <= i < |pie| ==>
                  && pie[i].name == Mood(kinds[i]).labelText
                  && pie[i].color == Mood(kinds[i]).color
                  && pie[i].value == CountOf(entries, kinds[i]) >= 1)
            && (forall i, j :: 0 <= i < j < |pie| ==> pie[i].name != pie[j].name)
  {
    var pie, kinds := PieData(MoodCounts(entries)), MoodsInOrder(entries);
    DistinctKindsAtMostSix(kinds);
    forall i, j | 0 <= i < j < |pie| ensures pie[i].name != pie[j].name {
      MoodLabelsDistinct(kinds[i], kinds[j]);
    }
  }
}
