/** The journal page's state and its handlers: loading from storage on mount,
    adding an entry, and the filter controls. The page keeps its derived indexes (tag
    list, mood list, per-day counts, streak) next to the entry list and updates them
    step by step; `IndexesAgree` says they always describe the current entries. */
module JournalPage {
  import opened JournalTypes
  import opened SeqUtil
  import opened IndexBuilder
  import opened Streak
  import opened FilterEngine

  /** What reading the `journalEntries` key yields: the decoded entry list (dates turned
      back into timestamps), or a value the decoder rejects. */
  datatype StoredEntries = Decodes(items: seq<Entry>) | Malformed

  /** The prompt condition: never shown, shown more than three days ago, or no entries. */
  predicate PromptDue(lastPromptDate: Option<int>, now: int, entryCount: nat)
  {
    lastPromptDate.None? || now - lastPromptDate.value > 3 * MsPerDay || entryCount == 0
  }

  /** The mount effect evaluates the condition against the initial, empty entry list, so
      the prompt is shown on every mount. */
  lemma PromptShownOnEveryMount(lastPromptDate: Option<int>, now: int)
    ensures PromptDue(lastPromptDate, now, 0)
  {
  }

  /** The entry `handleAddEntry` stores: the draft's fields, stamped with a fresh id and
      the current instant as its date. */
  function WithMetadata(draft: Draft, id: string, now: int): Entry
  {
    Entry(id, draft.title, draft.content, now, draft.mood, draft.tags)
  }

  /** The page's derived lists describe `entries`: the tag list is the defaults followed
      by the other used tags, each once; the mood list holds each recorded mood once; the
      calendar counts entries per day. */
  ghost predicate IndexesDescribe(allTags: seq<string>, allMoods: seq<string>, calendar: map<int, nat>,
                                  entries: seq<Entry>, tz: int)
  {
    TagIndexFor(allTags, entries) && MoodIndexFor(allMoods, entries) && CountsMatch(calendar, entries, tz)
  }

  /** What `handleAddEntry` does to the three derived lists keeps them describing the
      longer entry list. */
  lemma AddingKeepsIndexes(allTags: seq<string>, allMoods: seq<string>, calendar: map<int, nat>,
                           e: Entry, entries: seq<Entry>, tz: int)
    requires IndexesDescribe(allTags, allMoods, calendar, entries, tz)
    ensures IndexesDescribe(
      if e.tags.Some? && |e.tags.value| > 0 then AppendAbsent(allTags, e.tags.value) else allTags,
      if e.mood.Some? && e.mood.value != "" && e.mood.value !in allMoods then allMoods + [e.mood.value] else allMoods,
      Bump(calendar, DayOf(e.date, tz)),
      [e] + entries, tz)
  {
    PrependTagIndex(allTags, e, entries);
    PrependMoodIndex(allMoods, e, entries);
    BumpAfterPrepend(calendar, e, entries, tz);
  }

  /** What `handleAddEntry` does to the page's lists, from `entries`, `allTags`,
      `allMoods` and `calendar` to their primed successors: the stamped entry is
      prepended, the entry's tags not yet listed are appended to the tag list, its mood
      is appended when non-empty and new, today's count goes up by one, and the streak
      is that of the longer list. */
  ghost predicate AddsEntry(entries: seq<Entry>, allTags: seq<string>, allMoods: seq<string>,
                            calendar: map<int, nat>, newEntry: Draft, id: string, now: int, tz: int,
                            entries': seq<Entry>, allTags': seq<string>, allMoods': seq<string>,
                            calendar': map<int, nat>, streak': nat)
  {
    && entries' == [WithMetadata(newEntry, id, now)] + entries
    && allTags' == (if newEntry.tags.Some? && |newEntry.tags.value| > 0
                    then AppendAbsent(allTags, newEntry.tags.value) else allTags)
    && allMoods' == (if newEntry.mood.Some? && newEntry.mood.value != "" && newEntry.mood.value !in allMoods
                     then allMoods + [newEntry.mood.value] else allMoods)
    && calendar' == Bump(calendar, DayOf(now, tz))
    && streak' == StreakOf(entries', now, tz)
  }

  /** The values `handleAddEntry` computes from the page's current lists. */
  method AddToIndexes(allTags: seq<string>, allMoods: seq<string>, calendarEntries: map<int, nat>,
                      entries: seq<Entry>, tz: int, newEntry: Draft, id: string, now: int)
    returns (updatedEntries: seq<Entry>, tags: seq<string>, moods: seq<string>, calendar: map<int, nat>, streak: nat)
    requires IndexesDescribe(allTags, allMoods, calendarEntries, entries, tz)
    ensures AddsEntry(entries, allTags, allMoods, calendarEntries, newEntry, id, now, tz,
                      updatedEntries, tags, moods, calendar, streak)
    ensures IndexesDescribe(tags, moods, calendar, updatedEntries, tz)
  {
    var entryWithMetadata := WithMetadata(newEntry, id, now);
    updatedEntries := [entryWithMetadata] + entries;
    tags := allTags;
    if newEntry.tags.Some? && |newEntry.tags.value| > 0 {
      tags := PushAbsent(tags, newEntry.tags.value);
    }
    moods := allMoods;
    if newEntry.mood.Some? && newEntry.mood.value != "" && !(newEntry.mood.value in moods) {
      moods := moods + [newEntry.mood.value];
    }
    calendar := Bump(calendarEntries, DayOf(now, tz));
    AddingKeepsIndexes(allTags, allMoods, calendarEntries, entryWithMetadata, entries, tz);
    streak := CalculateDailyStreak(updatedEntries, now, tz);
  }

  class Page {
    /** The local time-zone offset used for every calendar day. */
    const tz: int
    /** The `journalEntries` slot of local storage; `None` when nothing is stored. */
    var storedEntries: Option<StoredEntries>
    /** The `lastJournalPromptDate` slot of local storage. */
    var lastPromptDate: Option<int>

    var entries: seq<Entry>
    var searchQuery: string
    var selectedTags: seq<string>
    var selectedMoods: seq<string>
    var showPrompt: bool
    var dailyStreak: nat
    var allTags: seq<string>
    var allMoods: seq<string>
    var selectedDate: Option<int>
    var calendarEntries: map<int, nat>

    /** The derived indexes describe the current entries. */
    ghost predicate IndexesAgree()
      reads this
    {
      IndexesDescribe(allTags, allMoods, calendarEntries, entries, tz)
    }

    function CurrentFilters(): Filters
      reads this
    {
      Filters(searchQuery, selectedTags, selectedMoods, selectedDate)
    }

    /** `filteredEntries`, the filtered view the page computes on every render. */
    function FilteredEntries(): seq<Entry>
      reads this
    {
      GetFilteredEntries(entries, CurrentFilters(), tz)
    }

    /** The page's initial state followed by its mount effect: read the stored entries;
        if they decode, take them and derive the tag list, the mood list, the calendar
        counts and the streak; if they are missing or do not decode, stay empty. Then
        show the writing prompt and record when. */
    constructor Mount(saved: Option<StoredEntries>, savedPromptDate: Option<int>, now: int, tz: int)
      ensures this.tz == tz && storedEntries == saved
      ensures saved.Some? && saved.value.Decodes? ==>
        && entries == saved.value.items
        && allTags == MergeTags(DefaultTags, AppendAbsent([], TagOccurrences(entries)))
        && allMoods == MergeMoods([], AppendAbsent([], MoodOccurrences(entries)))
      ensures !(saved.Some? && saved.value.Decodes?) ==>
        entries == [] && allTags == DefaultTags && allMoods == [] && calendarEntries == map[]
      ensures dailyStreak == StreakOf(entries, now, tz)
      ensures IndexesAgree()
      ensures CurrentFilters() == NoFilters
      ensures showPrompt && lastPromptDate == Some(now)
    {
      var loaded: seq<Entry> := [];
      var tags := DefaultTags;
      var moods: seq<string> := [];
      var calendar: map<int, nat> := map[];
      var streak: nat := 0;
      if saved.Some? && saved.value.Decodes? {
        var parsedEntries := saved.value.items;
        loaded := parsedEntries;

        var tagsFromEntries := ExtractTags(parsedEntries);
        tags := MergeTags(tags, tagsFromEntries);
        LoadedTagIndex(parsedEntries);

        var moodsFromEntries := ExtractMoods(parsedEntries);
        moods := MergeMoods(moods, moodsFromEntries);
        LoadedMoodIndex(parsedEntries);

        calendar := BuildCalendar(parsedEntries, tz);
        streak := CalculateDailyStreak(parsedEntries, now, tz);
      } else {
        EmptyIndexes();
      }

      // The effect's closure still sees the initial, empty `entries`.
      var entriesSeenByEffect: seq<Entry> := [];
      var prompt := PromptDue(savedPromptDate, now, |entriesSeenByEffect|);

      this.tz := tz;
      storedEntries := saved;
      entries := loaded;
      searchQuery := "";
      selectedTags := [];
      selectedMoods := [];
      dailyStreak := streak;
      allTags := tags;
      allMoods := moods;
      selectedDate := None;
      calendarEntries := calendar;
      showPrompt := prompt;
      lastPromptDate := if prompt then Some(now) else savedPromptDate;
    }

    /** `handleAddEntry`: stamp the draft, prepend it, write the list through to storage,
        merge its tags and mood into the lists, count it on today's date, and recompute
        the streak. */
    method AddEntry(newEntry: Draft, id: string, now: int)
      requires IndexesAgree()
      modifies this`entries, this`storedEntries, this`allTags, this`allMoods, this`calendarEntries, this`dailyStreak
      ensures AddsEntry(old(entries), old(allTags), old(allMoods), old(calendarEntries), newEntry, id, now, tz,
                        entries, allTags, allMoods, calendarEntries, dailyStreak)
      ensures storedEntries == Some(Decodes(entries))
      ensures IndexesAgree()
    {
      entries, allTags, allMoods, calendarEntries, dailyStreak :=
        AddToIndexes(allTags, allMoods, calendarEntries, entries, tz, newEntry, id, now);
      storedEntries := Some(Decodes(entries));
    }

    /** `toggleMoodFilter`: drop the mood from the selection when it is there, append it
        otherwise; nothing else changes. */
    method ToggleMoodFilter(mood: string)
      modifies this`selectedMoods
      ensures selectedMoods == Toggle(old(selectedMoods), mood)
      ensures forall m :: m in selectedMoods <==> if m == mood then mood !in old(selectedMoods) else m in old(selectedMoods)
      ensures NoDuplicates(old(selectedMoods)) ==> NoDuplicates(selectedMoods)
    {
      ToggleEffect(selectedMoods, mood);
      if NoDuplicates(selectedMoods) {
        ToggleKeepsNoDuplicates(selectedMoods, mood);
      }
      selectedMoods := Toggle(selectedMoods, mood);
    }

    /** The calendar's `onSelect`: the picked day (or none) becomes the date filter, and the
        view then holds only entries of that day. */
    method SelectDate(date: Option<int>)
      modifies this`selectedDate
      ensures selectedDate == date
      ensures date.Some? ==> forall e :: e in FilteredEntries() ==> DayOf(e.date, tz) == DayOf(date.value, tz)
    {
      selectedDate := date;
      FilteredEntriesMeaning(entries, CurrentFilters(), tz);
    }

    /** `clearFilters`: no tags, no moods, empty search, no date; the view then shows every
        entry. */
    method ClearFilters()
      modifies this`selectedTags, this`selectedMoods, this`searchQuery, this`selectedDate
      ensures CurrentFilters() == NoFilters
      ensures FilteredEntries() == entries
    {
      selectedTags := [];
      selectedMoods := [];
      searchQuery := "";
      selectedDate := None;
      FilteredEntriesMeaning(entries, CurrentFilters(), tz);
    }
  }
}
