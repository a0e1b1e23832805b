/** The records the mood journal works on. */
module Types {
  import opened Calendar

  datatype Option<+T> = None | Some(value: T)

  /** The six mood categories, in the declaration order `Object.values(MoodType)` yields. */
  datatype MoodType = Joy | Calm | Sad | Anger | Fear | Disgust

  /** One row of the mood configuration table; `kind` and `labelText` are the source's `type` and `label` fields. */
  datatype MoodConfig = MoodConfig(kind: MoodType, labelText: string, icon: string, color: string, score: int)

  /** One logged mood. Only the calendar day of `date` matters to the journal. */
  datatype MoodEntry = MoodEntry(id: string, date: Day, mood: MoodType, note: string)

  datatype Theme = Theme(id: string, name: string, bgImage: string, accentColor: string)

  /** `a` can be obtained from `b` by deleting elements, keeping the rest in order. */
  ghost predicate IsSubsequence(a: seq<MoodEntry>, b: seq<MoodEntry>)
    decreases |b|
  {
    || |a| == 0
    || (&& |b| > 0
        && ((a[0] == b[0] && IsSubsequence(a[1..], b[1..])) || IsSubsequence(a, b[1..])))
  }
}
