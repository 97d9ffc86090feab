/** The journal's entities as values: an entry as stored and listed, the draft the
    form hands to the page, and the abstract calendar day of a timestamp. */
module JournalTypes {

  datatype Option<T> = None | Some(value: T)

  /** A journal entry. `date` is the creation instant in milliseconds since the epoch;
      `mood` and `tags` are optional, as in the stored JSON objects. */
  datatype Entry = Entry(
    id: string,
    title: string,
    content: string,
    date: int,
    mood: Option<string>,
    tags: Option<seq<string>>)

  /** What the entry form submits: no id and no date yet. */
  datatype Draft = Draft(
    title: string,
    content: string,
    mood: Option<string>,
    tags: Option<seq<string>>)

  /** Milliseconds in 24 hours. */
  const MsPerDay: int := 86400000

  /** Local calendar day of a timestamp, as a day number. `tz` is the local offset from
      UTC in milliseconds. Dafny's `/` floors for a positive divisor, so instants before
      the epoch fall on the right day too. This day number stands for both the
      `yyyy-MM-dd` string and the `toDateString()` string of the same instant. */
  function DayOf(ts: int, tz: int): int
  {
    (ts + tz) / MsPerDay
  }

  lemma DayOfMonotone(a: int, b: int, tz: int)
    requires a <= b
    ensures DayOf(a, tz) <= DayOf(b, tz)
  {
  }

  /** Moving an instant back by 24 hours moves it to the previous calendar day
      (stepping a date back one day, under a fixed offset). */
  lemma DayOfPreviousDay(ts: int, tz: int)
    ensures DayOf(ts - MsPerDay, tz) == DayOf(ts, tz) - 1
  {
  }

  /** An instant at least two whole days later lies at least two calendar days later. */
  lemma DayOfTwoDaysLater(a: int, b: int, tz: int)
    requires b - a >= 2 * MsPerDay
    ensures DayOf(b, tz) - DayOf(a, tz) >= 2
  {
    DayOfMonotone(a + 2 * MsPerDay, b, tz);
    assert DayOf(a + 2 * MsPerDay, tz) == DayOf(a, tz) + 2;
  }

  /** JavaScript truthiness of `entry.mood`: present and not the empty string. */
  predicate HasMood(e: Entry)
  {
    e.mood.Some? && e.mood.value != ""
  }

  /** An entry's tags, or none when it has no tag list. */
  function TagsOf(e: Entry): seq<string>
  {
    if e.tags.Some? then e.tags.value else []
  }
}
