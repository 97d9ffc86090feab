/** The daily-writing streak: how many consecutive calendar days, ending at the day of
    the newest entry, have at least one entry. */
module Streak {
  import opened JournalTypes

  /** The walk of `calculateDailyStreak` checks at most 99 days before the newest one,
      so a streak never exceeds 100. */
  const MaxStreak: nat := 100

  ghost predicate NewestFirst(s: seq<Entry>)
  {
    forall i, j :: 0 <= i < j < |s| ==> s[i].date >= s[j].date
  }

  /** Places `e` in front of the first entry that is strictly older, so that among entries
      with equal dates the earlier input position stays first. */
  function Insert(e: Entry, s: seq<Entry>): (r: seq<Entry>)
    ensures |r| == |s| + 1
    ensures multiset(r) == multiset(s) + multiset{e}
    ensures r[0] == if s == [] || s[0].date <= e.date then e else s[0]
    decreases |s|
  {
    if s == [] || s[0].date <= e.date then [e] + s
    else
      assert s == [s[0]] + s[1..];
      [s[0]] + Insert(e, s[1..])
  }

  lemma {:induction false} InsertKeepsOrder(e: Entry, s: seq<Entry>)
    requires NewestFirst(s)
    ensures NewestFirst(Insert(e, s))
    decreases |s|
  {
    if !(s == [] || s[0].date <= e.date) {
      var rest := Insert(e, s[1..]);
      InsertKeepsOrder(e, s[1..]);
      assert rest[0].date <= s[0].date;
      var r := [s[0]] + rest;
      forall i, j | 0 <= i < j < |r|
        ensures r[i].date >= r[j].date
      {
        if i > 0 {
          assert r[i] == rest[i - 1] && r[j] == rest[j - 1];
        } else {
          assert r[j] == rest[j - 1];
          assert rest[0].date >= rest[j - 1].date;
        }
      }
    }
  }

  /** The sorted copy `calculateDailyStreak` makes, newest first by date: a stable
      sort, newest first; the caller's list is a value and is left as it was. */
  function SortNewestFirst(es: seq<Entry>): (r: seq<Entry>)
    ensures |r| == |es|
    ensures multiset(r) == multiset(es)
    decreases |es|
  {
    if es == [] then []
    else
      assert es == [es[0]] + es[1..];
      Insert(es[0], SortNewestFirst(es[1..]))
  }

  /** The sorted copy is ordered newest first. */
  lemma {:induction false} SortedNewestFirst(es: seq<Entry>)
    ensures NewestFirst(SortNewestFirst(es))
    decreases |es|
  {
    if es != [] {
      SortedNewestFirst(es[1..]);
      InsertKeepsOrder(es[0], SortNewestFirst(es[1..]));
    }
  }

  /** The newest entry date: the date of some entry, and no entry is newer.
      (`NewestOfSorted` shows that the sorted copy puts it first.) */
  function MostRecentDate(es: seq<Entry>): (r: int)
    requires es != []
    ensures exists i :: 0 <= i < |es| && es[i].date == r
    ensures forall i :: 0 <= i < |es| ==> es[i].date <= r
    decreases |es|
  {
    if |es| == 1 then es[0].date
    else
      var rest := MostRecentDate(es[1..]);
      assert forall i :: 1 <= i < |es| ==> es[i] == es[1..][i - 1];
      if es[0].date >= rest then es[0].date else rest
  }

  /** The first entry of the sorted copy carries the newest date. */
  lemma NewestOfSorted(es: seq<Entry>)
    requires es != []
    ensures SortNewestFirst(es)[0].date == MostRecentDate(es)
  {
    var sorted := SortNewestFirst(es);
    SortedNewestFirst(es);
    assert sorted[0] in multiset(es);
    var i :| 0 <= i < |es| && es[i].date == MostRecentDate(es);
    assert es[i] in multiset(sorted);
    var j :| 0 <= j < |sorted| && sorted[j] == es[i];
    assert j == 0 || sorted[0].date >= sorted[j].date;
  }

  /** The keys of `datesWithEntries`: the calendar days that have at least one entry. */
  function DaysWithEntries(es: seq<Entry>, tz: int): set<int>
  {
    set e | e in es :: DayOf(e.date, tz)
  }

  /** How many of the days `d, d - 1, d - 2, ...` in a row have entries, looking at no
      more than `steps` of them. */
  function WalkBack(days: set<int>, d: int, steps: nat): (n: nat)
    ensures n <= steps
    ensures forall k :: d - n < k <= d ==> k in days
    ensures n < steps ==> d - n !in days
    decreases steps
  {
    if steps == 0 || d !in days then 0 else 1 + WalkBack(days, d - 1, steps - 1)
  }

  lemma NewestDayHasEntry(es: seq<Entry>, tz: int)
    requires es != []
    ensures DayOf(MostRecentDate(es), tz) in DaysWithEntries(es, tz)
  {
    var i :| 0 <= i < |es| && es[i].date == MostRecentDate(es);
    assert es[i] in es;
  }

  /** The staleness test: more than one whole 24-hour period has passed since the
      newest entry, counted by flooring the elapsed time in days. Dafny's `/` floors
      for a positive divisor. */
  predicate IsStale(newest: int, now: int)
  {
    (now - newest) / MsPerDay > 1
  }

  /** The streak shown after `calculateDailyStreak(entries)` runs at instant `now`:
      zero without entries or when the newest is stale, else the newest entry's day
      followed by the run of earlier days that have entries, up to the cap. */
  function StreakOf(es: seq<Entry>, now: int, tz: int): nat
  {
    if es == [] then 0
    else
      var newest := MostRecentDate(es);
      if IsStale(newest, now) then 0
      else 1 + WalkBack(DaysWithEntries(es, tz), DayOf(newest, tz) - 1, MaxStreak - 1)
  }

  /** A non-zero streak `k` means the `k` calendar days ending at the newest entry's day
      all have entries and, unless the cap was reached, the day before them has none. */
  lemma StreakOfMeaning(es: seq<Entry>, now: int, tz: int)
    ensures es == [] ==> StreakOf(es, now, tz) == 0
    ensures es != [] && IsStale(MostRecentDate(es), now) ==> StreakOf(es, now, tz) == 0
    ensures es != [] && !IsStale(MostRecentDate(es), now) ==>
      var r := StreakOf(es, now, tz);
      && 1 <= r <= MaxStreak
      && (forall k :: DayOf(MostRecentDate(es), tz) - r < k <= DayOf(MostRecentDate(es), tz) ==>
            k in DaysWithEntries(es, tz))
      && (r < MaxStreak ==> DayOf(MostRecentDate(es), tz) - r !in DaysWithEntries(es, tz))
  {
    if es != [] {
      NewestDayHasEntry(es, tz);
    }
  }

  /** `calculateDailyStreak`: sort a copy, test staleness, collect the days with
      entries, then step back one day at a time while the previous day has an entry. */
  method CalculateDailyStreak(journalEntries: seq<Entry>, now: int, tz: int) returns (streak: nat)
    ensures streak == StreakOf(journalEntries, now, tz)
  {
    if |journalEntries| == 0 {
      return 0;
    }
    var sortedEntries := SortNewestFirst(journalEntries);
    var mostRecentDate := sortedEntries[0].date;
    NewestOfSorted(journalEntries);
    if (now - mostRecentDate) / MsPerDay > 1 {
      return 0;
    }
    var datesWithEntries := CollectDays(sortedEntries, tz);
    SameDays(journalEntries, sortedEntries, tz);
    streak := CountBack(datesWithEntries, mostRecentDate, tz);
  }

  /** The loop of `calculateDailyStreak`: starting at the newest entry's date with a
      streak of 1, move back 24 hours at a time, at most 99 times, while the previous
      calendar day has an entry. */
  method CountBack(datesWithEntries: set<int>, mostRecentDate: int, tz: int) returns (streak: nat)
    ensures streak == 1 + WalkBack(datesWithEntries, DayOf(mostRecentDate, tz) - 1, MaxStreak - 1)
  {
    streak := 1;
    var currentDate := mostRecentDate;
    ghost var start := DayOf(mostRecentDate, tz);
    for i := 1 to MaxStreak
      invariant streak == i
      invariant DayOf(currentDate, tz) == start - (i - 1)
      invariant 1 + WalkBack(datesWithEntries, start - 1, MaxStreak - 1)
        == streak + WalkBack(datesWithEntries, DayOf(currentDate, tz) - 1, MaxStreak - i)
    {
      var prevDate := currentDate - MsPerDay;
      DayOfPreviousDay(currentDate, tz);
      if DayOf(prevDate, tz) in datesWithEntries {
        streak := streak + 1;
        currentDate := prevDate;
      } else {
        assert WalkBack(datesWithEntries, DayOf(currentDate, tz) - 1, MaxStreak - i) == 0;
        break;
      }
    }
  }

  /** The reduce that marks `datesWithEntries[day] = true` for every entry. */
  method CollectDays(entries: seq<Entry>, tz: int) returns (days: set<int>)
    ensures days == DaysWithEntries(entries, tz)
  {
    days := {};
    for k := 0 to |entries|
      invariant days == DaysWithEntries(entries[..k], tz)
    {
      assert entries[..k + 1] == entries[..k] + [entries[k]];
      days := days + {DayOf(entries[k].date, tz)};
    }
    assert entries[..|entries|] == entries;
  }

  lemma SameDays(a: seq<Entry>, b: seq<Entry>, tz: int)
    requires multiset(a) == multiset(b)
    ensures DaysWithEntries(a, tz) == DaysWithEntries(b, tz)
  {
    forall e | e in a ensures e in b {
      assert e in multiset(a);
    }
    forall e | e in b ensures e in a {
      assert e in multiset(b);
    }
  }

  /** An entry on a day that already has one, and no newer than the newest, leaves the
      streak as it was: several entries on one day count once. */
  lemma SameDayEntryCountsOnce(es: seq<Entry>, e: Entry, now: int, tz: int)
    requires es != []
    requires e.date <= MostRecentDate(es)
    requires DayOf(e.date, tz) in DaysWithEntries(es, tz)
    ensures StreakOf([e] + es, now, tz) == StreakOf(es, now, tz)
  {
    var es' := [e] + es;
    assert es' == [e] + es;
    var n, n' := MostRecentDate(es), MostRecentDate(es');
    var i :| 0 <= i < |es| && es[i].date == n;
    assert es'[i + 1] == es[i];
    var i' :| 0 <= i' < |es'| && es'[i'].date == n';
    if i' > 0 {
      assert es'[i'] == es[i' - 1];
    }
    assert n == n';
    assert DaysWithEntries(es', tz) == DaysWithEntries(es, tz) by {
      forall x | x in es' ensures DayOf(x.date, tz) in DaysWithEntries(es, tz) {
        if x != e {
          assert x in es;
        }
      }
    }
  }

  /** The reset is never premature: a stale newest entry lies at least two calendar days
      before `now`. */
  lemma StaleMeansCalendarGap(es: seq<Entry>, now: int, tz: int)
    requires es != [] && IsStale(MostRecentDate(es), now)
    ensures DayOf(now, tz) - DayOf(MostRecentDate(es), tz) >= 2
  {
    var n := MostRecentDate(es);
    assert now - n >= 2 * MsPerDay;
    DayOfTwoDaysLater(n, now, tz);
  }

  /** A newest entry made today or yesterday never reads as stale (nor does one dated in
      the future: its elapsed time is negative). */
  lemma TodayOrYesterdayIsFresh(newest: int, now: int, tz: int)
    requires DayOf(now, tz) - DayOf(newest, tz) <= 1
    ensures !IsStale(newest, now)
  {
    if now - newest >= 2 * MsPerDay {
      DayOfTwoDaysLater(newest, now, tz);
    }
  }

  /** The test counts 24-hour periods, not calendar days: an entry written at 23:00 two
      calendar days before a visit at 00:30 still gives a streak of 1. */
  lemma ElapsedPeriodsNotCalendarDays()
    ensures var e := Entry("1", "Late", "written just before midnight", 23 * 3600000, None, None);
      var now := 2 * MsPerDay + 30 * 60000;
      DayOf(now, 0) - DayOf(e.date, 0) == 2 && StreakOf([e], now, 0) == 1
  {
    var e := Entry("1", "Late", "written just before midnight", 23 * 3600000, None, None);
    var now := 2 * MsPerDay + 30 * 60000;
    assert MostRecentDate([e]) == e.date;
    assert DaysWithEntries([e], 0) == {0};
    assert WalkBack({0}, -1, MaxStreak - 1) == 0;
  }

  /** Entries today and yesterday, none earlier: a streak of 2. */
  lemma TodayAndYesterday(today: Entry, yesterday: Entry, now: int, tz: int)
    requires DayOf(today.date, tz) == DayOf(now, tz)
    requires DayOf(yesterday.date, tz) == DayOf(now, tz) - 1
    ensures StreakOf([today, yesterday], now, tz) == 2
  {
    var d := DayOf(now, tz);
    if yesterday.date > today.date {
      DayOfMonotone(today.date, yesterday.date, tz);
    }
    var es := [today, yesterday];
    var n := MostRecentDate(es);
    assert n == today.date;
    TodayOrYesterdayIsFresh(n, now, tz);
    var days := DaysWithEntries(es, tz);
    assert days == {d, d - 1};
    assert WalkBack(days, d - 2, MaxStreak - 3) == 0;
  }
}
