/** The static configuration tables every view looks things up in. */
module Constants {
  import opened Types

  /** `MOODS[m]`: display configuration of mood kind `m`. */
  function Mood(m: MoodType): (c: MoodConfig)
    ensures c.kind == m
    ensures 2 <= c.score <= 10
  {
    match m
    case Joy => MoodConfig(Joy, "Joy", "\U{1F63A}", "#FCD34D", 10)
    case Calm => MoodConfig(Calm, "Calm", "\U{1F638}", "#6EE7B7", 8)
    case Sad => MoodConfig(Sad, "Sad", "\U{1F63F}", "#93C5FD", 4)
    case Anger => MoodConfig(Anger, "Anger", "\U{1F63E}", "#F87171", 2)
    case Fear => MoodConfig(Fear, "Fear", "\U{1F640}", "#C4B5FD", 3)
    case Disgust => MoodConfig(Disgust, "Disgust", "\U{1F63D}", "#86EFAC", 5)
  }

  /** `Object.values(MoodType)`: every mood kind once, in declaration order. */
  const ALL_MOODS: seq<MoodType> := [Joy, Calm, Sad, Anger, Fear, Disgust]

  const THEMES: seq<Theme> := [
    Theme("starry", "Starry Night",
          "https://images.unsplash.com/photo-1534233650905-52b821935d27?q=80&w=1000&auto=format&fit=crop", "#A78BFA"),
    Theme("sunset", "Sunset Dream",
          "https://images.unsplash.com/photo-1495616811223-4d98c6e9d869?q=80&w=1000&auto=format&fit=crop", "#F472B6"),
    Theme("ocean", "Deep Ocean",
          "https://images.unsplash.com/photo-1505118380757-91f5f5632de0?q=80&w=1000&auto=format&fit=crop", "#60A5FA"),
    Theme("forest", "Mystic Forest",
          "https://images.unsplash.com/photo-1448375240586-dfd8d395ea6c?q=80&w=1000&auto=format&fit=crop", "#34D399")
  ]

  const INITIAL_QUOTES: seq<string> := [
    "Keep your face always toward the sunshine\U{2014}and shadows will fall behind you.",
    "You are enough just as you are.",
    "Every day may not be good, but there's something good in every day.",
    "Believe you can and you're halfway there."
  ]

  /** Neutral bar colour of a day without an entry. */
  const NO_ENTRY_COLOR: string := "#333"

  /** ALL_MOODS lists every kind exactly once. */
  lemma AllMoodsComplete(m: MoodType)
    ensures m in ALL_MOODS
    ensures forall i, j :: 0 <= i < j < |ALL_MOODS| ==> ALL_MOODS[i] != ALL_MOODS[j]
  {
  }

  /** Labels identify their mood kind, so they can serve as unique chart keys. */
  lemma MoodLabelsDistinct(a: MoodType, b: MoodType)
    ensures Mood(a).labelText == Mood(b).labelText ==> a == b
  {
  }

  /** The `THEMES[0]` fallback is always defined, and at most one theme has a given id. */
  lemma ThemesWellFormed()
    ensures |THEMES| > 0
    ensures forall i, j :: 0 <= i < j < |THEMES| ==> THEMES[i].id != THEMES[j].id
  {
  }
}
