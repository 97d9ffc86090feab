/** The indexes the journal page derives from its entry list when it loads: the
    distinct tags (merged with the default suggestions), the distinct moods, and the
    number of entries per calendar day. */
module IndexBuilder {
  import opened JournalTypes
  import opened SeqUtil

  /** The tag suggestions the page starts with. */
  const DefaultTags: seq<string> := ["personal", "work", "ideas", "health", "fitness", "food", "travel"]

  lemma DefaultTagsDistinct()
    ensures NoDuplicates(DefaultTags)
  {
  }

  // ---------------------------------------------------------------- tags

  /** Every tag of every entry, entry by entry, in list order (duplicates kept). */
  function TagOccurrences(es: seq<Entry>): seq<string>
    decreases |es|
  {
    if es == [] then [] else TagOccurrences(es[..|es| - 1]) + TagsOf(es[|es| - 1])
  }

  lemma {:induction false} TagOccurrencesMembership(es: seq<Entry>, t: string)
    ensures t in TagOccurrences(es) <==> exists e :: e in es && t in TagsOf(e)
    decreases |es|
  {
    if es != [] {
      var init, last := es[..|es| - 1], es[|es| - 1];
      assert es == init + [last];
      TagOccurrencesMembership(init, t);
      if t in TagOccurrences(es) && t !in TagOccurrences(init) {
        assert t in TagsOf(last) && last in es;
      }
      if exists e :: e in es && t in TagsOf(e) {
        var e :| e in es && t in TagsOf(e);
        if e != last {
          assert e in init;
        }
      }
    }
  }

  /** The reduce at the start of loading: for each entry, push each of its tags that
      the accumulator does not include yet. */
  method ExtractTags(entries: seq<Entry>) returns (acc: seq<string>)
    ensures acc == AppendAbsent([], TagOccurrences(entries))
  {
    acc := [];
    for i := 0 to |entries|
      invariant acc == AppendAbsent([], TagOccurrences(entries[..i]))
    {
      assert entries[..i + 1][..i] == entries[..i];
      AppendAbsentConcat([], TagOccurrences(entries[..i]), TagsOf(entries[i]));
      acc := PushAbsent(acc, TagsOf(entries[i]));
    }
    assert entries[..|entries|] == entries;
  }

  /** The extracted tags: each tag used by some entry exactly once, nothing else, in the
      order in which the tags first occur. */
  lemma ExtractedTagsMeaning(entries: seq<Entry>)
    ensures NoDuplicates(AppendAbsent([], TagOccurrences(entries)))
    ensures forall t :: t in AppendAbsent([], TagOccurrences(entries)) <==>
      exists e :: e in entries && t in TagsOf(e)
    ensures InFirstOccurrenceOrder(AppendAbsent([], TagOccurrences(entries)), TagOccurrences(entries))
  {
    var occ := TagOccurrences(entries);
    AppendAbsentProperties([], occ);
    AppendAbsentFirstOccurrenceOrder(occ);
    forall t
      ensures t in AppendAbsent([], occ) <==> exists e :: e in entries && t in TagsOf(e)
    {
      TagOccurrencesMembership(entries, t);
    }
  }

  /** The tag merge on load: when some tags were extracted, the current list followed by
      the extracted tags, de-duplicated; otherwise the current list unchanged. */
  function MergeTags(current: seq<string>, extracted: seq<string>): seq<string>
  {
    if |extracted| > 0 then AppendAbsent([], current + extracted) else current
  }

  /** Merging into the defaults keeps the defaults as a prefix, adds each extracted tag
      that is not a default, never duplicates, and leaves the defaults alone when
      nothing was extracted. */
  lemma MergeDefaultTags(extracted: seq<string>)
    ensures MergeTags(DefaultTags, extracted) == AppendAbsent(DefaultTags, extracted)
    ensures NoDuplicates(MergeTags(DefaultTags, extracted))
    ensures |DefaultTags| <= |MergeTags(DefaultTags, extracted)|
    ensures MergeTags(DefaultTags, extracted)[..|DefaultTags|] == DefaultTags
    ensures forall t :: t in MergeTags(DefaultTags, extracted) <==> t in DefaultTags || t in extracted
    ensures extracted == [] ==> MergeTags(DefaultTags, extracted) == DefaultTags
  {
    DefaultTagsDistinct();
    AppendAbsentConcat([], DefaultTags, extracted);
    AppendAbsentOfDistinct(DefaultTags);
    AppendAbsentProperties(DefaultTags, extracted);
  }

  /** When no entry has a tag, the tag list stays the defaults. */
  lemma UntaggedEntriesKeepDefaults(entries: seq<Entry>)
    requires forall e :: e in entries ==> TagsOf(e) == []
    ensures MergeTags(DefaultTags, AppendAbsent([], TagOccurrences(entries))) == DefaultTags
  {
    var occ := TagOccurrences(entries);
    AppendAbsentProperties([], occ);
    if occ != [] {
      TagOccurrencesMembership(entries, occ[0]);
      assert false;
    }
  }

  // ---------------------------------------------------------------- moods

  /** The recorded (truthy) mood of every entry, in list order. */
  function MoodOccurrences(es: seq<Entry>): seq<string>
    decreases |es|
  {
    if es == [] then []
    else
      var last := es[|es| - 1];
      MoodOccurrences(es[..|es| - 1]) + if HasMood(last) then [last.mood.value] else []
  }

  lemma {:induction false} MoodOccurrencesMembership(es: seq<Entry>, m: string)
    ensures m in MoodOccurrences(es) <==> exists e :: e in es && HasMood(e) && e.mood.value == m
    decreases |es|
  {
    if es != [] {
      var init, last := es[..|es| - 1], es[|es| - 1];
      assert es == init + [last];
      MoodOccurrencesMembership(init, m);
      if m in MoodOccurrences(es) && m !in MoodOccurrences(init) {
        assert HasMood(last) && last.mood.value == m && last in es;
      }
      if exists e :: e in es && HasMood(e) && e.mood.value == m {
        var e :| e in es && HasMood(e) && e.mood.value == m;
        if e != last {
          assert e in init;
        }
      }
    }
  }

  /** The reduce that collects moods: an entry's mood is pushed when it is present, not
      empty and not collected yet. */
  method ExtractMoods(entries: seq<Entry>) returns (acc: seq<string>)
    ensures acc == AppendAbsent([], MoodOccurrences(entries))
  {
    acc := [];
    for i := 0 to |entries|
      invariant acc == AppendAbsent([], MoodOccurrences(entries[..i]))
    {
      assert entries[..i + 1][..i] == entries[..i];
      var e := entries[i];
      if HasMood(e) && !(e.mood.value in acc) {
        acc := acc + [e.mood.value];
      }
      AppendAbsentConcat([], MoodOccurrences(entries[..i]), if HasMood(e) then [e.mood.value] else []);
    }
    assert entries[..|entries|] == entries;
  }

  /** The mood merge on load: when some moods were extracted, they replace the current
      list, de-duplicated; otherwise the current list stays. */
  function MergeMoods(current: seq<string>, extracted: seq<string>): seq<string>
  {
    if |extracted| > 0 then AppendAbsent([], extracted) else current
  }

  /** The mood list after loading holds each recorded mood exactly once; entries with an
      absent or empty mood contribute nothing. */
  lemma ExtractedMoodsMeaning(entries: seq<Entry>)
    ensures MergeMoods([], AppendAbsent([], MoodOccurrences(entries))) == AppendAbsent([], MoodOccurrences(entries))
    ensures NoDuplicates(AppendAbsent([], MoodOccurrences(entries)))
    ensures forall m :: m in AppendAbsent([], MoodOccurrences(entries)) <==>
      exists e :: e in entries && HasMood(e) && e.mood.value == m
  {
    var moods := AppendAbsent([], MoodOccurrences(entries));
    AppendAbsentProperties([], MoodOccurrences(entries));
    AppendAbsentOfDistinct(moods);
    forall m
      ensures m in moods <==> exists e :: e in entries && HasMood(e) && e.mood.value == m
    {
      MoodOccurrencesMembership(entries, m);
    }
  }

  // ---------------------------------------------------------------- the page's lists

  /** A tag list that describes `es`: the defaults first, each tag once, holding exactly
      the defaults and the tags some entry carries. */
  ghost predicate TagIndexFor(tags: seq<string>, es: seq<Entry>)
  {
    && NoDuplicates(tags)
    && |DefaultTags| <= |tags| && tags[..|DefaultTags|] == DefaultTags
    && (forall t :: t in tags <==> t in DefaultTags || t in TagOccurrences(es))
  }

  /** A mood list that describes `es`: each recorded mood exactly once. */
  ghost predicate MoodIndexFor(moods: seq<string>, es: seq<Entry>)
  {
    NoDuplicates(moods) && forall m :: m in moods <==> m in MoodOccurrences(es)
  }

  lemma TagOccurrencesPrepend(e: Entry, es: seq<Entry>, t: string)
    ensures t in TagOccurrences([e] + es) <==> t in TagsOf(e) || t in TagOccurrences(es)
  {
    TagOccurrencesMembership([e] + es, t);
    TagOccurrencesMembership(es, t);
    if t in TagOccurrences([e] + es) {
      var x :| x in [e] + es && t in TagsOf(x);
      if x != e {
        assert x in es;
      }
    }
  }

  lemma MoodOccurrencesPrepend(e: Entry, es: seq<Entry>, m: string)
    ensures m in MoodOccurrences([e] + es) <==> (HasMood(e) && e.mood.value == m) || m in MoodOccurrences(es)
  {
    MoodOccurrencesMembership([e] + es, m);
    MoodOccurrencesMembership(es, m);
    if m in MoodOccurrences([e] + es) {
      var x :| x in [e] + es && HasMood(x) && x.mood.value == m;
      if x != e {
        assert x in es;
      }
    }
  }

  /** What loading computes describes the loaded entries. */
  lemma LoadedTagIndex(entries: seq<Entry>)
    ensures TagIndexFor(MergeTags(DefaultTags, AppendAbsent([], TagOccurrences(entries))), entries)
  {
    var extracted := AppendAbsent([], TagOccurrences(entries));
    MergeDefaultTags(extracted);
    forall t ensures t in extracted <==> t in TagOccurrences(entries) {
      AppendAbsentProperties([], TagOccurrences(entries));
    }
  }

  lemma LoadedMoodIndex(entries: seq<Entry>)
    ensures MoodIndexFor(MergeMoods([], AppendAbsent([], MoodOccurrences(entries))), entries)
  {
    var extracted := AppendAbsent([], MoodOccurrences(entries));
    ExtractedMoodsMeaning(entries);
    forall m ensures m in extracted <==> m in MoodOccurrences(entries) {
      AppendAbsentProperties([], MoodOccurrences(entries));
    }
  }

  lemma EmptyIndexes()
    ensures TagIndexFor(DefaultTags, [])
    ensures MoodIndexFor([], [])
  {
    DefaultTagsDistinct();
  }

  /** Adding an entry in front: appending its unseen tags keeps the tag list describing
      the longer entry list, and so does appending its mood when it is new. */
  lemma PrependTagIndex(tags: seq<string>, e: Entry, es: seq<Entry>)
    requires TagIndexFor(tags, es)
    ensures TagIndexFor(if TagsOf(e) != [] then AppendAbsent(tags, TagsOf(e)) else tags, [e] + es)
  {
    var next := if TagsOf(e) != [] then AppendAbsent(tags, TagsOf(e)) else tags;
    AppendAbsentProperties(tags, TagsOf(e));
    assert next[..|DefaultTags|] == next[..|tags|][..|DefaultTags|];
    forall t ensures t in next <==> t in DefaultTags || t in TagOccurrences([e] + es) {
      TagOccurrencesPrepend(e, es, t);
    }
  }

  lemma PrependMoodIndex(moods: seq<string>, e: Entry, es: seq<Entry>)
    requires MoodIndexFor(moods, es)
    ensures MoodIndexFor(if HasMood(e) && e.mood.value !in moods then moods + [e.mood.value] else moods, [e] + es)
  {
    forall m ensures m in (if HasMood(e) && e.mood.value !in moods then moods + [e.mood.value] else moods)
      <==> m in MoodOccurrences([e] + es)
    {
      MoodOccurrencesPrepend(e, es, m);
    }
  }

  // ---------------------------------------------------------------- calendar counts

  /** Number of entries whose local calendar day is `d`. */
  function CountOnDay(es: seq<Entry>, tz: int, d: int): nat
    decreases |es|
  {
    if es == [] then 0
    else CountOnDay(es[..|es| - 1], tz, d) + if DayOf(es[|es| - 1].date, tz) == d then 1 else 0
  }

  /** `m` holds a key for exactly the days that have entries, with their number. */
  ghost predicate CountsMatch(m: map<int, nat>, es: seq<Entry>, tz: int)
  {
    forall d :: (d in m <==> CountOnDay(es, tz, d) > 0) && (d in m ==> m[d] == CountOnDay(es, tz, d))
  }

  /** One more entry on day `d`: its count goes up by one, starting from zero when the
      day has no key yet. */
  function Bump(m: map<int, nat>, d: int): (r: map<int, nat>)
    ensures d in r && r[d] == (if d in m then m[d] else 0) + 1
    ensures forall k :: k != d ==> (k in r <==> k in m) && (k in r ==> r[k] == m[k])
  {
    m[d := (if d in m then m[d] else 0) + 1]
  }

  /** The forEach that fills the calendar map. */
  method BuildCalendar(entries: seq<Entry>, tz: int) returns (m: map<int, nat>)
    ensures CountsMatch(m, entries, tz)
  {
    m := map[];
    for i := 0 to |entries|
      invariant CountsMatch(m, entries[..i], tz)
    {
      assert entries[..i + 1][..i] == entries[..i];
      m := Bump(m, DayOf(entries[i].date, tz));
    }
    assert entries[..|entries|] == entries;
  }

  lemma {:induction false} CountOnDayConcat(a: seq<Entry>, b: seq<Entry>, tz: int, d: int)
    ensures CountOnDay(a + b, tz, d) == CountOnDay(a, tz, d) + CountOnDay(b, tz, d)
    decreases |b|
  {
    if b == [] {
      assert a + b == a;
    } else {
      assert (a + b)[..|a + b| - 1] == a + b[..|b| - 1];
      CountOnDayConcat(a, b[..|b| - 1], tz, d);
    }
  }

  /** Prepending an entry dated on day `d` bumps exactly day `d` of a matching map. */
  lemma BumpAfterPrepend(m: map<int, nat>, e: Entry, es: seq<Entry>, tz: int)
    requires CountsMatch(m, es, tz)
    ensures CountsMatch(Bump(m, DayOf(e.date, tz)), [e] + es, tz)
  {
    forall d
      ensures CountOnDay([e] + es, tz, d) == CountOnDay(es, tz, d) + if DayOf(e.date, tz) == d then 1 else 0
    {
      CountOnDayConcat([e], es, tz, d);
      assert [e][..0] == [];
    }
  }

  /** `Σ_{k in ks} m[k]` */
  function SumAt(m: map<int, nat>, ks: seq<int>): nat
    requires forall i :: 0 <= i < |ks| ==> ks[i] in m
    decreases |ks|
  {
    if ks == [] then 0 else m[ks[0]] + SumAt(m, ks[1..])
  }

  /** `Σ_{k in ks} CountOnDay(es, k)` */
  function SumCounts(es: seq<Entry>, tz: int, ks: seq<int>): nat
    decreases |ks|
  {
    if ks == [] then 0 else CountOnDay(es, tz, ks[0]) + SumCounts(es, tz, ks[1..])
  }

  function Occurrences(ks: seq<int>, x: int): nat
    decreases |ks|
  {
    if ks == [] then 0 else (if ks[0] == x then 1 else 0) + Occurrences(ks[1..], x)
  }

  lemma {:induction false} OccurrencesOfDistinct(ks: seq<int>, x: int)
    requires NoDuplicates(ks)
    ensures Occurrences(ks, x) == if x in ks then 1 else 0
    decreases |ks|
  {
    if ks != [] {
      assert ks == [ks[0]] + ks[1..];
      OccurrencesOfDistinct(ks[1..], x);
    }
  }

  lemma {:induction false} SumCountsAppend(es: seq<Entry>, e: Entry, tz: int, ks: seq<int>)
    ensures SumCounts(es + [e], tz, ks) == SumCounts(es, tz, ks) + Occurrences(ks, DayOf(e.date, tz))
    decreases |ks|
  {
    assert (es + [e])[..|es|] == es;
    if ks != [] {
      SumCountsAppend(es, e, tz, ks[1..]);
    }
  }

  lemma {:induction false} SumCountsCovering(es: seq<Entry>, tz: int, ks: seq<int>)
    requires NoDuplicates(ks)
    requires forall e :: e in es ==> DayOf(e.date, tz) in ks
    ensures SumCounts(es, tz, ks) == |es|
    decreases |es|
  {
    if es == [] {
      SumCountsEmpty(tz, ks);
    } else {
      var init, last := es[..|es| - 1], es[|es| - 1];
      assert es == init + [last];
      assert last in es;
      forall e | e in init
        ensures DayOf(e.date, tz) in ks
      {
        assert e in es;
      }
      SumCountsCovering(init, tz, ks);
      SumCountsAppend(init, last, tz, ks);
      OccurrencesOfDistinct(ks, DayOf(last.date, tz));
    }
  }

  lemma {:induction false} SumCountsEmpty(tz: int, ks: seq<int>)
    ensures SumCounts([], tz, ks) == 0
    decreases |ks|
  {
    if ks != [] {
      SumCountsEmpty(tz, ks[1..]);
    }
  }

  lemma {:induction false} SumAtIsSumCounts(m: map<int, nat>, es: seq<Entry>, tz: int, ks: seq<int>)
    requires CountsMatch(m, es, tz)
    requires forall i :: 0 <= i < |ks| ==> ks[i] in m
    ensures SumAt(m, ks) == SumCounts(es, tz, ks)
    decreases |ks|
  {
    if ks != [] {
      SumAtIsSumCounts(m, es, tz, ks[1..]);
    }
  }

  /** Every entry is counted on its own day. */
  lemma EntryCountedOnItsDay(entries: seq<Entry>, tz: int, i: nat)
    requires i < |entries|
    ensures CountOnDay(entries, tz, DayOf(entries[i].date, tz)) > 0
  {
    var before, after := entries[..i + 1], entries[i + 1..];
    assert entries == before + after;
    assert before[..i] == entries[..i];
    CountOnDayConcat(before, after, tz, DayOf(entries[i].date, tz));
  }

  /** The per-day counts add up to the number of entries: summing the map over any
      duplicate-free listing of its keys gives `|entries|`. */
  lemma CalendarTotal(m: map<int, nat>, entries: seq<Entry>, tz: int, ks: seq<int>)
    requires CountsMatch(m, entries, tz)
    requires NoDuplicates(ks)
    requires forall i :: 0 <= i < |ks| ==> ks[i] in m
    requires forall k :: k in m ==> k in ks
    ensures SumAt(m, ks) == |entries|
  {
    forall e | e in entries
      ensures DayOf(e.date, tz) in ks
    {
      var i :| 0 <= i < |entries| && entries[i] == e;
      EntryCountedOnItsDay(entries, tz, i);
    }
    SumAtIsSumCounts(m, entries, tz, ks);
    SumCountsCovering(entries, tz, ks);
  }
}
