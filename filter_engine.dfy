/** The page's filtered view of its entries: search text, tags (any of), moods and an
    exact calendar day, applied one after the other as `filter` calls. */
module FilterEngine {
  import opened JournalTypes
  import opened SeqUtil

  /** The page's four filter state fields. An empty text or empty selection switches
      that dimension off; `date` is the day picked in the calendar, if any. */
  datatype Filters = Filters(
    searchQuery: string,
    tags: seq<string>,
    moods: seq<string>,
    date: Option<int>)

  const NoFilters := Filters("", [], [], None)

  /** `toLowerCase()` on the ASCII letters. */
  function Lower(s: string): (r: string)
    ensures |r| == |s|
    ensures forall i :: 0 <= i < |s| ==> r[i] == if 'A' <= s[i] <= 'Z' then (s[i] - 'A' + 'a') as char else s[i]
  {
    if s == [] then []
    else
      var c := s[0];
      [if 'A' <= c <= 'Z' then (c - 'A' + 'a') as char else c] + Lower(s[1..])
  }

  predicate StartsWith(s: string, prefix: string)
  {
    |prefix| <= |s| && s[..|prefix|] == prefix
  }

  /** String `includes`: `needle` occurs at some position of `haystack`. */
  predicate Includes(haystack: string, needle: string)
  {
    exists i :: 0 <= i <= |haystack| && StartsWith(haystack[i..], needle)
  }

  predicate MatchesSearch(e: Entry, query: string)
  {
    Includes(Lower(e.title), Lower(query)) || Includes(Lower(e.content), Lower(query))
  }

  /** The tag test of `getFilteredEntries`: the entry has tags and at least one of them
      is selected. */
  predicate MatchesTags(e: Entry, selected: seq<string>)
  {
    e.tags.Some? && exists t :: t in e.tags.value && t in selected
  }

  /** The mood test of `getFilteredEntries`: the entry has a non-empty mood and it is
      selected; an entry without a mood never passes. */
  predicate MatchesMoods(e: Entry, selected: seq<string>)
  {
    HasMood(e) && e.mood.value in selected
  }

  predicate MatchesDay(e: Entry, date: int, tz: int)
  {
    DayOf(e.date, tz) == DayOf(date, tz)
  }

  function SearchFilter(query: string): Entry -> bool { e => MatchesSearch(e, query) }
  function TagFilter(selected: seq<string>): Entry -> bool { e => MatchesTags(e, selected) }
  function MoodFilter(selected: seq<string>): Entry -> bool { e => MatchesMoods(e, selected) }
  function DayFilter(date: int, tz: int): Entry -> bool { e => MatchesDay(e, date, tz) }

  /** `getFilteredEntries`: each dimension that is switched on narrows the list further. */
  function GetFilteredEntries(entries: seq<Entry>, f: Filters, tz: int): seq<Entry>
  {
    var bySearch := if f.searchQuery != "" then Keep(entries, SearchFilter(f.searchQuery)) else entries;
    var byTags := if |f.tags| > 0 then Keep(bySearch, TagFilter(f.tags)) else bySearch;
    var byMoods := if |f.moods| > 0 then Keep(byTags, MoodFilter(f.moods)) else byTags;
    if f.date.Some? then Keep(byMoods, DayFilter(f.date.value, tz)) else byMoods
  }

  /** An entry passes when it passes every dimension that is switched on. */
  predicate Matches(e: Entry, f: Filters, tz: int)
  {
    && (f.searchQuery != "" ==> MatchesSearch(e, f.searchQuery))
    && (|f.tags| > 0 ==> MatchesTags(e, f.tags))
    && (|f.moods| > 0 ==> MatchesMoods(e, f.moods))
    && (f.date.Some? ==> MatchesDay(e, f.date.value, tz))
  }

  /** Reference definition: one pass keeping the entries that match all dimensions. */
  function SelectMatching(entries: seq<Entry>, f: Filters, tz: int): seq<Entry>
    decreases |entries|
  {
    if entries == [] then []
    else (if Matches(entries[0], f, tz) then [entries[0]] else []) + SelectMatching(entries[1..], f, tz)
  }

  lemma GetFilteredEntriesConcat(a: seq<Entry>, b: seq<Entry>, f: Filters, tz: int)
    ensures GetFilteredEntries(a + b, f, tz) == GetFilteredEntries(a, f, tz) + GetFilteredEntries(b, f, tz)
  {
    var s1a := if f.searchQuery != "" then Keep(a, SearchFilter(f.searchQuery)) else a;
    var s1b := if f.searchQuery != "" then Keep(b, SearchFilter(f.searchQuery)) else b;
    if f.searchQuery != "" {
      KeepConcat(a, b, SearchFilter(f.searchQuery));
    }
    var s2a := if |f.tags| > 0 then Keep(s1a, TagFilter(f.tags)) else s1a;
    var s2b := if |f.tags| > 0 then Keep(s1b, TagFilter(f.tags)) else s1b;
    if |f.tags| > 0 {
      KeepConcat(s1a, s1b, TagFilter(f.tags));
    }
    var s3a := if |f.moods| > 0 then Keep(s2a, MoodFilter(f.moods)) else s2a;
    var s3b := if |f.moods| > 0 then Keep(s2b, MoodFilter(f.moods)) else s2b;
    if |f.moods| > 0 {
      KeepConcat(s2a, s2b, MoodFilter(f.moods));
    }
    if f.date.Some? {
      KeepConcat(s3a, s3b, DayFilter(f.date.value, tz));
    }
  }

  /** A filter step that may be switched off. */
  function Narrow(s: seq<Entry>, active: bool, p: Entry -> bool): seq<Entry>
  {
    if active then Keep(s, p) else s
  }

  /** A list holding `e` alone when `present`, and empty otherwise. */
  predicate AtMost(s: seq<Entry>, e: Entry, present: bool)
  {
    |s| <= 1 && (|s| == 1 <==> present) && (|s| == 1 ==> s[0] == e)
  }

  lemma NarrowAtMost(s: seq<Entry>, active: bool, p: Entry -> bool, e: Entry, before: bool)
    requires AtMost(s, e, before)
    ensures AtMost(Narrow(s, active, p), e, before && (active ==> p(e)))
  {
    KeepShort(s, p);
  }

  /** On a one-entry list, four optional steps keep the entry exactly when it passes
      every step that is switched on. */
  lemma NarrowSingle(e: Entry, a1: bool, p1: Entry -> bool, a2: bool, p2: Entry -> bool,
                     a3: bool, p3: Entry -> bool, a4: bool, p4: Entry -> bool)
    ensures Narrow(Narrow(Narrow(Narrow([e], a1, p1), a2, p2), a3, p3), a4, p4)
      == if (a1 ==> p1(e)) && (a2 ==> p2(e)) && (a3 ==> p3(e)) && (a4 ==> p4(e)) then [e] else []
  {
    var s1 := Narrow([e], a1, p1);
    NarrowAtMost([e], a1, p1, e, true);
    var s2 := Narrow(s1, a2, p2);
    NarrowAtMost(s1, a2, p2, e, a1 ==> p1(e));
    var s3 := Narrow(s2, a3, p3);
    NarrowAtMost(s2, a3, p3, e, (a1 ==> p1(e)) && (a2 ==> p2(e)));
    var r := Narrow(s3, a4, p4);
    NarrowAtMost(s3, a4, p4, e, (a1 ==> p1(e)) && (a2 ==> p2(e)) && (a3 ==> p3(e)));
    if |r| == 1 {
      assert r == [r[0]];
    }
  }

  lemma GetFilteredEntriesSingle(e: Entry, f: Filters, tz: int)
    ensures GetFilteredEntries([e], f, tz) == if Matches(e, f, tz) then [e] else []
  {
    var day := if f.date.Some? then f.date.value else 0;
    NarrowSingle(e, f.searchQuery != "", SearchFilter(f.searchQuery), |f.tags| > 0, TagFilter(f.tags),
                 |f.moods| > 0, MoodFilter(f.moods), f.date.Some?, DayFilter(day, tz));
  }

  /** The chain of filters is their conjunction: it keeps, in order, exactly the
      entries that pass every active dimension. */
  lemma {:induction false} FilterIsConjunction(entries: seq<Entry>, f: Filters, tz: int)
    ensures GetFilteredEntries(entries, f, tz) == SelectMatching(entries, f, tz)
    decreases |entries|
  {
    if entries == [] {
    } else {
      assert entries == [entries[0]] + entries[1..];
      GetFilteredEntriesConcat([entries[0]], entries[1..], f, tz);
      GetFilteredEntriesSingle(entries[0], f, tz);
      FilterIsConjunction(entries[1..], f, tz);
    }
  }

  /** The reference selection is an order-preserving subsequence ... */
  lemma {:induction false} SelectMatchingIsSubsequence(entries: seq<Entry>, f: Filters, tz: int)
    ensures IsSubsequence(SelectMatching(entries, f, tz), entries)
    decreases |entries|
  {
    if entries != [] {
      var rest := SelectMatching(entries[1..], f, tz);
      SelectMatchingIsSubsequence(entries[1..], f, tz);
      if Matches(entries[0], f, tz) {
        assert ([entries[0]] + rest)[1..] == rest;
      } else {
        assert SelectMatching(entries, f, tz) == rest;
      }
    }
  }

  /** ... holding every matching entry as often as the input does, and nothing else. */
  lemma {:induction false} SelectMatchingCounts(entries: seq<Entry>, f: Filters, tz: int, e: Entry)
    ensures multiset(SelectMatching(entries, f, tz))[e] == if Matches(e, f, tz) then multiset(entries)[e] else 0
    decreases |entries|
  {
    if entries != [] {
      assert entries == [entries[0]] + entries[1..];
      SelectMatchingCounts(entries[1..], f, tz, e);
    }
  }

  /** What the filtered view promises, dimension by dimension. */
  lemma FilteredEntriesMeaning(entries: seq<Entry>, f: Filters, tz: int)
    ensures IsSubsequence(GetFilteredEntries(entries, f, tz), entries)
    ensures f == NoFilters ==> GetFilteredEntries(entries, f, tz) == entries
    ensures forall e :: e in GetFilteredEntries(entries, f, tz) <==> e in entries && Matches(e, f, tz)
    ensures forall e :: e in GetFilteredEntries(entries, f, tz) && f.searchQuery != "" ==>
      Includes(Lower(e.title), Lower(f.searchQuery)) || Includes(Lower(e.content), Lower(f.searchQuery))
    ensures forall e :: e in GetFilteredEntries(entries, f, tz) && |f.tags| > 0 ==>
      e.tags.Some? && exists t :: t in e.tags.value && t in f.tags
    ensures forall e :: e in GetFilteredEntries(entries, f, tz) && |f.moods| > 0 ==>
      e.mood.Some? && e.mood.value != "" && e.mood.value in f.moods
    ensures forall e :: e in GetFilteredEntries(entries, f, tz) && f.date.Some? ==>
      DayOf(e.date, tz) == DayOf(f.date.value, tz)
  {
    FilterIsConjunction(entries, f, tz);
    SelectMatchingIsSubsequence(entries, f, tz);
    var r := GetFilteredEntries(entries, f, tz);
    forall e
      ensures e in r <==> e in entries && Matches(e, f, tz)
    {
      SelectMatchingCounts(entries, f, tz, e);
      assert e in r <==> multiset(r)[e] > 0;
      assert e in entries <==> multiset(entries)[e] > 0;
    }
    if f == NoFilters {
      assert forall e :: Matches(e, f, tz);
      NoFiltersSelectsAll(entries, f, tz);
    }
  }

  lemma {:induction false} NoFiltersSelectsAll(entries: seq<Entry>, f: Filters, tz: int)
    requires forall e :: Matches(e, f, tz)
    ensures SelectMatching(entries, f, tz) == entries
    decreases |entries|
  {
    if entries != [] {
      NoFiltersSelectsAll(entries[1..], f, tz);
    }
  }

  lemma LowerIdempotent(s: string)
    ensures Lower(Lower(s)) == Lower(s)
  {
    var l := Lower(s);
    forall i | 0 <= i < |l|
      ensures Lower(l)[i] == l[i]
    {
      assert !('A' <= l[i] <= 'Z');
    }
  }

  /** Search ignores case on both sides: changing the case of the query, or of the
      entry's title and content, keeps the outcome. */
  lemma SearchIgnoresCase(e: Entry, query: string)
    ensures MatchesSearch(e, Lower(query)) <==> MatchesSearch(e, query)
    ensures MatchesSearch(e.(title := Lower(e.title), content := Lower(e.content)), query)
      <==> MatchesSearch(e, query)
  {
    LowerIdempotent(query);
    LowerIdempotent(e.title);
    LowerIdempotent(e.content);
  }

  /** A query is found in the title it spells, whatever the case of either. */
  lemma SearchFindsTitle(e: Entry, query: string)
    requires Lower(query) == Lower(e.title)
    ensures MatchesSearch(e, query)
  {
    var t := Lower(e.title);
    assert t[0..][..|t|] == t;
  }

  /** Two selections with the same members give the same view. */
  lemma {:induction false} SameMembersSameSelection(entries: seq<Entry>, f: Filters, g: Filters, tz: int)
    requires f.searchQuery == g.searchQuery && f.date == g.date
    requires |f.tags| > 0 <==> |g.tags| > 0
    requires |f.moods| > 0 <==> |g.moods| > 0
    requires forall t :: t in f.tags <==> t in g.tags
    requires forall m :: m in f.moods <==> m in g.moods
    ensures SelectMatching(entries, f, tz) == SelectMatching(entries, g, tz)
    decreases |entries|
  {
    if entries != [] {
      assert Matches(entries[0], f, tz) == Matches(entries[0], g, tz);
      SameMembersSameSelection(entries[1..], f, g, tz);
    }
  }

  /** `toggleMoodFilter` applied twice to the same mood leaves the filtered view as it was,
      whatever the order the selection ends up in. */
  lemma ToggleMoodTwiceSameView(entries: seq<Entry>, f: Filters, mood: string, tz: int)
    ensures GetFilteredEntries(entries, f.(moods := Toggle(Toggle(f.moods, mood), mood)), tz)
      == GetFilteredEntries(entries, f, tz)
  {
    var once := Toggle(f.moods, mood);
    var g := f.(moods := Toggle(once, mood));
    ToggleEffect(f.moods, mood);
    ToggleEffect(once, mood);
    assert forall m :: m in g.moods <==> m in f.moods;
    if mood in f.moods {
      assert mood in g.moods;
    } else {
      ToggleTwiceFromAbsent(f.moods, mood);
    }
    assert |g.moods| > 0 <==> |f.moods| > 0 by {
      if |f.moods| > 0 {
        assert f.moods[0] in g.moods;
      }
      if |g.moods| > 0 {
        assert g.moods[0] in f.moods;
      }
    }
    FilterIsConjunction(entries, f, tz);
    FilterIsConjunction(entries, g, tz);
    SameMembersSameSelection(entries, f, g, tz);
  }
}
