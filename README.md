# Journal data layer of Trackify, in Dafny

This project models the in-memory logic of Trackify's journal. That logic lives in three React files:

- the journal page (`src/pages/JournalPage.tsx`);
- the entry form (`src/components/journal/JournalEntryForm.tsx`);
- the entry list (`src/components/journal/JournalEntryList.tsx`).

The page's job:

- On mount it loads the saved entries and derives four indexes from them: the tag list (merged with seven default tags), the mood list, a per-day entry count for the calendar, and the daily-writing streak.
- When the form submits an entry, the page prepends it, writes the list back to storage and updates every index.
- It computes a filtered view of the entries: search text, any-of tags, moods and one calendar day, all combined with AND.

The form validates two length rules, keeps a tag selection and a mood, and assembles the draft it submits. The list has its own single-tag filter and colours each entry by its mood.

How the model is built:

- `JournalTypes`. Entries and drafts are datatypes.
  - Timestamps are integer milliseconds.
  - A calendar day is `DayOf(ts, tz) = (ts + tz) / 86400000`, where `tz` is a fixed local offset.
  - One day number stands for both the `yyyy-MM-dd` string and the `toDateString()` string of an instant.
- `SeqUtil`. The array idioms the code is made of:
  - `filter` is `Keep`;
  - the `includes`-guarded `push` and `new Set(...)` are `AppendAbsent`, computed by the loop `PushAbsent`;
  - the remove-or-append toggle is `Toggle`.
- `IndexBuilder`. The loading loops (tags, moods, calendar) are methods. The tag and mood loops are proved equal to specification functions, whose facts are separate lemmas; the calendar loop is proved to build a map satisfying `CountsMatch`, which fixes each day's count to the number of entries on that day.
  - The page's derived lists are tied to the entries by `TagIndexFor`, `MoodIndexFor` and `CountsMatch`.
- `Streak`. `calculateDailyStreak` is a method with its loop. It is proved equal to the function `StreakOf`, and `StreakOfMeaning` says what that number means.
- `FilterEngine`. `getFilteredEntries` is a function, as in the source: a chain of filters.
  - It is proved equal to the one-pass reference selection `SelectMatching`.
  - Its guarantees are stated dimension by dimension.
- `MoodOptions`. The ten mood options and the `find(...)?.color || ''` lookup that both components use.
- `EntryList`. The list's tag filter and the badge click that toggles it.
- `EntryForm`. The length rules, the draft assembly, and a class `JournalEntryForm` whose methods update `selectedTags`, `mood` and `newTag`.
- `JournalPage`. A class `Page` holds the page's state fields, the two storage slots (`journalEntries` and `lastJournalPromptDate`) and the time-zone offset.
  - Its constructor `Mount` is the initial state followed by the mount effect.
  - `AddEntry`, `ToggleMoodFilter`, `SelectDate` and `ClearFilters` are the handlers.
  - Every state the page reaches keeps `IndexesAgree`: the tag list, the mood list and the calendar counts describe the current entries.

The clock (`Date.now()`, `new Date()`) becomes the parameter `now`. The generated id becomes the parameter `id`. Storage is a field that holds the decoded entry list, or `Malformed` when decoding fails.

## Model

| member | source | states |
|---|---|---|
| `JournalTypes.DayOfMonotone` | src/pages/JournalPage.tsx:76 | a later instant never falls on an earlier calendar day |
| `JournalTypes.DayOf` | src/pages/JournalPage.tsx:76 | the calendar day of an instant under a fixed offset; `DayOfMonotone` and `DayOfPreviousDay` state its properties |
| `JournalTypes.DayOfPreviousDay` | src/pages/JournalPage.tsx:111-112 | moving an instant back 24 hours moves it to the previous calendar day |
| `JournalTypes.DayOfTwoDaysLater` | src/pages/JournalPage.tsx:101 | an instant at least two whole days later lies at least two calendar days later |
| `SeqUtil.Keep` | src/pages/JournalPage.tsx:143-148 | `filter` keeps each element that passes as often as the input has it, drops every other, and never grows the list |
| `SeqUtil.KeepIsSubsequence` | src/pages/JournalPage.tsx:143-148 | what `filter` keeps is an order-preserving subsequence of its input |
| `SeqUtil.KeepMembership` | src/pages/JournalPage.tsx:143-148 | an element is in the filtered list exactly when it is in the input and passes |
| `SeqUtil.KeepConcat` | src/pages/JournalPage.tsx:143-148 | filtering a concatenation is concatenating the filtered parts |
| `SeqUtil.Toggle` | src/components/journal/JournalEntryForm.tsx:132 | the remove-or-append selection toggle (also at src/pages/JournalPage.tsx:154); its meaning is stated by `ToggleEffect` and the twice-toggle lemmas |
| `SeqUtil.ToggleEffect` | src/components/journal/JournalEntryForm.tsx:131-133 | toggling a selected item removes every copy of it and keeps the others in order; toggling an unselected one appends it at the end; membership flips for that item only |
| `SeqUtil.ToggleTwiceFromAbsent` | src/components/journal/JournalEntryForm.tsx:132 | toggling an unselected item twice restores the selection exactly |
| `SeqUtil.ToggleTwiceFromPresent` | src/components/journal/JournalEntryForm.tsx:132 | toggling a selected item twice moves it to the end; on a duplicate-free selection the multiset of items is unchanged |
| `SeqUtil.ToggleKeepsNoDuplicates` | src/components/journal/JournalEntryForm.tsx:132 | a toggle keeps a duplicate-free selection duplicate-free |
| `SeqUtil.RemoveAllKeepsNoDuplicates` | src/pages/JournalPage.tsx:154 | removing every copy of an item keeps a duplicate-free list duplicate-free |
| `SeqUtil.AppendAbsent` | src/pages/JournalPage.tsx:127 | the guarded push of each new element (also at line 61); its meaning is stated by `AppendAbsentProperties` and `AppendAbsentFirstOccurrenceOrder` |
| `SeqUtil.PushAbsent` | src/pages/JournalPage.tsx:126-127 | the `includes`-guarded push loop computes `AppendAbsent` |
| `SeqUtil.AppendAbsentProperties` | src/pages/JournalPage.tsx:125-129 | the old list stays a prefix, the result holds exactly the old and the new elements, and duplicate-freedom is kept |
| `SeqUtil.AppendAbsentConcat` | src/pages/JournalPage.tsx:60-63 | pushing two lists one after the other is pushing their concatenation |
| `SeqUtil.AppendAbsentOfDistinct` | src/pages/JournalPage.tsx:71 | de-duplicating (`new Set`) a duplicate-free list changes nothing |
| `SeqUtil.AppendAbsentFirstOccurrenceOrder` | src/pages/JournalPage.tsx:60-63 | de-duplication keeps elements in the order in which they first occur |
| `SeqUtil.FirstIndex` | src/pages/JournalPage.tsx:61 | the position found holds the element and no earlier position does |
| `IndexBuilder.DefaultTagsDistinct` | src/pages/JournalPage.tsx:45 | the seven default tags are distinct |
| `IndexBuilder.TagOccurrencesMembership` | src/pages/JournalPage.tsx:60-63 | a tag occurs in the entries' tag lists exactly when some entry carries it |
| `IndexBuilder.ExtractTags` | src/pages/JournalPage.tsx:60-63 | the reduce over entries and their tags computes the de-duplicated tag occurrences |
| `IndexBuilder.ExtractedTagsMeaning` | src/pages/JournalPage.tsx:60-63 | the extracted tags are each tag that some entry uses, exactly once, in first-occurrence order |
| `IndexBuilder.MergeTags` | src/pages/JournalPage.tsx:64 | the tag merge on load, applied only when some tags were extracted; its meaning is stated by `MergeDefaultTags` |
| `IndexBuilder.MergeDefaultTags` | src/pages/JournalPage.tsx:45-64 | the merged tag list keeps the defaults as a prefix, has no duplicates, holds exactly the defaults and the extracted tags, and is the defaults when nothing was extracted |
| `IndexBuilder.UntaggedEntriesKeepDefaults` | src/pages/JournalPage.tsx:64 | when no entry has tags the tag list stays the defaults |
| `IndexBuilder.MoodOccurrencesMembership` | src/pages/JournalPage.tsx:67-70 | a mood occurs in the list of recorded moods exactly when some entry has that non-empty mood |
| `IndexBuilder.ExtractMoods` | src/pages/JournalPage.tsx:67-70 | the mood reduce computes the de-duplicated recorded moods |
| `IndexBuilder.MergeMoods` | src/pages/JournalPage.tsx:71 | the mood merge on load, replacing the list only when some moods were extracted; its meaning is stated by `ExtractedMoodsMeaning` |
| `IndexBuilder.ExtractedMoodsMeaning` | src/pages/JournalPage.tsx:67-71 | the mood list holds each non-empty mood of some entry exactly once; entries without a mood contribute nothing |
| `IndexBuilder.LoadedTagIndex` | src/pages/JournalPage.tsx:59-64 | the tag list computed on load describes the loaded entries |
| `IndexBuilder.LoadedMoodIndex` | src/pages/JournalPage.tsx:66-71 | the mood list computed on load describes the loaded entries |
| `IndexBuilder.EmptyIndexes` | src/pages/JournalPage.tsx:45-46 | the initial tag and mood lists describe the empty entry list |
| `IndexBuilder.PrependTagIndex` | src/pages/JournalPage.tsx:125-129 | appending a new entry's unseen tags keeps the tag list describing the longer entry list |
| `IndexBuilder.PrependMoodIndex` | src/pages/JournalPage.tsx:131 | appending a new entry's mood when it is non-empty and new keeps the mood list describing the longer entry list |
| `IndexBuilder.Bump` | src/pages/JournalPage.tsx:77 | the day's count goes up by exactly one (from zero when absent), and every other day keeps its key and count |
| `IndexBuilder.BuildCalendar` | src/pages/JournalPage.tsx:74-78 | the forEach builds a map with a key for exactly the days that have entries, each holding the number of entries on that day |
| `IndexBuilder.CountOnDayConcat` | src/pages/JournalPage.tsx:74-78 | the per-day count of a concatenation is the sum of the parts' counts |
| `IndexBuilder.BumpAfterPrepend` | src/pages/JournalPage.tsx:133-134 | bumping the new entry's day keeps the counts matching the longer entry list |
| `IndexBuilder.EntryCountedOnItsDay` | src/pages/JournalPage.tsx:75-77 | every entry is counted on its own day |
| `IndexBuilder.CalendarTotal` | src/pages/JournalPage.tsx:74-78 | the per-day counts sum to the number of entries |
| `Streak.Insert` | src/pages/JournalPage.tsx:97 | inserting into the sorted copy adds exactly that entry, and it goes first when nothing is newer |
| `Streak.InsertKeepsOrder` | src/pages/JournalPage.tsx:97 | inserting keeps a newest-first list newest first |
| `Streak.SortNewestFirst` | src/pages/JournalPage.tsx:97 | the sorted copy is a permutation of the entries |
| `Streak.SortedNewestFirst` | src/pages/JournalPage.tsx:97 | the sorted copy is ordered newest first |
| `Streak.MostRecentDate` | src/pages/JournalPage.tsx:98 | the newest date is the date of some entry and no entry is newer |
| `Streak.NewestOfSorted` | src/pages/JournalPage.tsx:97-98 | the first entry of the sorted copy carries the newest date |
| `Streak.DaysWithEntries` | src/pages/JournalPage.tsx:105-108 | the set of calendar days that have at least one entry; `CollectDays` computes it |
| `Streak.WalkBack` | src/pages/JournalPage.tsx:110-115 | the walk counts a run of consecutive days that all have entries, never more than its step budget, and stops early only at a day without entries |
| `Streak.NewestDayHasEntry` | src/pages/JournalPage.tsx:105-108 | the newest entry's day is among the days with entries |
| `Streak.IsStale` | src/pages/JournalPage.tsx:101 | more than one whole 24-hour period since the newest entry; related to calendar days by `StaleMeansCalendarGap` and `ElapsedPeriodsNotCalendarDays` |
| `Streak.StreakOf` | src/pages/JournalPage.tsx:95-116 | the streak as a function of the entries and the instant; `CalculateDailyStreak` is proved to compute it and `StreakOfMeaning` states what it means |
| `Streak.StreakOfMeaning` | src/pages/JournalPage.tsx:95-116 | the streak is 0 without entries or when the newest is stale; otherwise 1 <= k <= 100, the k days ending at the newest entry's day all have entries, and, below 100, the day before them has none |
| `Streak.CalculateDailyStreak` | src/pages/JournalPage.tsx:94-117 | the method (sort, staleness test, day set, walk) returns `StreakOf` of its input |
| `Streak.CountBack` | src/pages/JournalPage.tsx:103-115 | the loop from a streak of 1 returns 1 plus the walk back from the previous day with 99 steps |
| `Streak.CollectDays` | src/pages/JournalPage.tsx:105-108 | the reduce marks exactly the days that have entries |
| `Streak.SameDays` | src/pages/JournalPage.tsx:97-108 | the day set of the sorted copy is that of the entries |
| `Streak.SameDayEntryCountsOnce` | src/pages/JournalPage.tsx:105-114 | a further entry on a day that already has one, and no newer than the newest, leaves the streak unchanged |
| `Streak.StaleMeansCalendarGap` | src/pages/JournalPage.tsx:101 | a reset happens only when the newest entry is at least two calendar days before now |
| `Streak.TodayOrYesterdayIsFresh` | src/pages/JournalPage.tsx:101 | a newest entry made today or yesterday, or dated in the future, is never stale |
| `Streak.ElapsedPeriodsNotCalendarDays` | src/pages/JournalPage.tsx:101 | the test counts 24-hour periods: an entry two calendar days back, 25.5 hours old, still gives a streak of 1 |
| `Streak.TodayAndYesterday` | src/pages/JournalPage.tsx:101-115 | entries today and yesterday and none before give a streak of 2 |
| `FilterEngine.Lower` | src/pages/JournalPage.tsx:143 | lower-casing keeps the length and maps each ASCII upper-case letter to its lower-case one, leaving every other character alone |
| `FilterEngine.MatchesSearch` | src/pages/JournalPage.tsx:143 | the search test: the lower-cased query occurs in the lower-cased title or content; `SearchIgnoresCase` and `SearchFindsTitle` state its case behaviour |
| `FilterEngine.MatchesTags` | src/pages/JournalPage.tsx:144 | the tag test: the entry has tags and one of them is selected |
| `FilterEngine.MatchesMoods` | src/pages/JournalPage.tsx:145 | the mood test: the entry has a non-empty mood and it is selected |
| `FilterEngine.MatchesDay` | src/pages/JournalPage.tsx:146-148 | the day test: the entry lies on the selected calendar day |
| `FilterEngine.GetFilteredEntries` | src/pages/JournalPage.tsx:141-151 | the chain of the four optional filters; `FilterIsConjunction` ties it to the one-pass selection and `FilteredEntriesMeaning` states what it keeps |
| `FilterEngine.GetFilteredEntriesConcat` | src/pages/JournalPage.tsx:141-151 | filtering a concatenation is concatenating the filtered parts |
| `FilterEngine.NarrowAtMost` | src/pages/JournalPage.tsx:142-149 | one optional filter step keeps a list of at most one given entry exactly when that entry passes |
| `FilterEngine.NarrowSingle` | src/pages/JournalPage.tsx:142-149 | four optional filter steps on a single entry keep it exactly when it passes every active step |
| `FilterEngine.GetFilteredEntriesSingle` | src/pages/JournalPage.tsx:141-151 | a single entry is kept exactly when it matches every active filter |
| `FilterEngine.FilterIsConjunction` | src/pages/JournalPage.tsx:141-151 | the filter chain equals the one-pass selection of the entries that match every active dimension |
| `FilterEngine.SelectMatchingIsSubsequence` | src/pages/JournalPage.tsx:141-151 | the selection is an order-preserving subsequence of the entries |
| `FilterEngine.SelectMatchingCounts` | src/pages/JournalPage.tsx:141-151 | the selection holds each matching entry as often as the input does and nothing else |
| `FilterEngine.FilteredEntriesMeaning` | src/pages/JournalPage.tsx:141-151 | the view is an order-preserving subsequence and equals the input with no filters; an entry is in it iff it is an input entry that matches; each kept entry contains the search text (case-insensitively) in its title or content, has a selected tag, has a non-empty selected mood, and lies on the selected day, whenever that dimension is on |
| `FilterEngine.NoFiltersSelectsAll` | src/pages/JournalPage.tsx:142-150 | when every entry matches, the selection is the whole list |
| `FilterEngine.LowerIdempotent` | src/pages/JournalPage.tsx:143 | lower-casing twice is lower-casing once |
| `FilterEngine.SearchIgnoresCase` | src/pages/JournalPage.tsx:143 | changing the case of the query, or of an entry's title and content, keeps the search outcome |
| `FilterEngine.SearchFindsTitle` | src/pages/JournalPage.tsx:143 | a query that spells the title, in any case, finds the entry |
| `FilterEngine.SameMembersSameSelection` | src/pages/JournalPage.tsx:144-145 | tag and mood selections with the same members select the same entries |
| `FilterEngine.ToggleMoodTwiceSameView` | src/pages/JournalPage.tsx:154 | toggling a mood filter twice leaves the filtered view unchanged |
| `MoodOptions.FindOption` | src/components/journal/JournalEntryList.tsx:67 | `find` returns the index of the first option with that value, or nothing when no option has it |
| `MoodOptions.MoodStyle` | src/components/journal/JournalEntryList.tsx:66-68 | the style is the colour of the first option with the mood's value, and the empty string for an absent or unknown mood |
| `MoodOptions.SelectedMoodStyle` | src/components/journal/JournalEntryForm.tsx:148 | the lookup on the ten options, also the list's at src/components/journal/JournalEntryList.tsx:66-68; `UnknownMoodHasNoStyle` and `KnownMoodStyles` state its results |
| `MoodOptions.UnknownMoodHasNoStyle` | src/components/journal/JournalEntryForm.tsx:148 | a mood that is none of the ten values gets no colour |
| `MoodOptions.OptionValuesDistinct` | src/components/journal/JournalEntryForm.tsx:45-56 | the ten option values are distinct |
| `MoodOptions.KnownMoodStyles` | src/components/journal/JournalEntryList.tsx:46-68 | each option's value selects that option's own colour |
| `EntryList.HasTag` | src/components/journal/JournalEntryList.tsx:70 | the list's filter test: the entry has tags and the active tag is one of them |
| `EntryList.FilteredEntries` | src/components/journal/JournalEntryList.tsx:70 | with no filter tag the list is the input; with one it is an order-preserving subsequence holding exactly the entries tagged with it, each as often as in the input |
| `EntryList.ClickTag` | src/components/journal/JournalEntryList.tsx:81 | clicking the active tag clears the filter, clicking another tag makes it the active one |
| `EntryList.ClickTagTwice` | src/components/journal/JournalEntryList.tsx:81 | a second click on a newly activated tag switches the filter off, and a click on another tag replaces it |
| `EntryList.UntaggedHidden` | src/components/journal/JournalEntryList.tsx:70 | entries without tags are never shown while a tag filter is active |
| `EntryForm.Utf16Length` | src/components/journal/JournalEntryForm.tsx:29-30 | JavaScript's string length: one UTF-16 code unit per character and two per astral character; it equals the character count exactly when no character is astral |
| `EntryForm.Validate` | src/components/journal/JournalEntryForm.tsx:28-31 | no errors iff the title is at least 2 UTF-16 code units long and the content at least 10; each error is reported exactly when its rule fails |
| `EntryForm.LengthsCountCodeUnits` | src/components/journal/JournalEntryForm.tsx:29-30 | a one-emoji title and a five-emoji content pass the rules, and a one-letter title does not |
| `EntryForm.AssembleEntry` | src/components/journal/JournalEntryForm.tsx:119-123 | the submitted draft; `AssembleEntryRecoversForm` states how it carries the form's state |
| `EntryForm.AssembleEntryRecoversForm` | src/components/journal/JournalEntryForm.tsx:119-123 | title and content pass through; tags are the selection when non-empty, else absent; the mood is the mood when non-empty, else absent |
| `EntryForm.AddTagKeepsNoDuplicates` | src/components/journal/JournalEntryForm.tsx:136-137 | adding a tag that passes the guard keeps the selection duplicate-free |
| `EntryForm.JournalEntryForm.constructor` | src/components/journal/JournalEntryForm.tsx:104-111 | the form starts with no tags selected, no mood and an empty new-tag input |
| `EntryForm.JournalEntryForm.SetMood` | src/components/journal/JournalEntryForm.tsx:165 | the mood select sets the mood and nothing else |
| `EntryForm.JournalEntryForm.SetNewTag` | src/components/journal/JournalEntryForm.tsx:227 | the new-tag input sets the typed text and nothing else |
| `EntryForm.JournalEntryForm.ToggleTag` | src/components/journal/JournalEntryForm.tsx:131-133 | the selection becomes its toggle, stays duplicate-free, and nothing else changes |
| `EntryForm.JournalEntryForm.AddNewTag` | src/components/journal/JournalEntryForm.tsx:135-140 | a non-empty, unsuggested, unselected tag is appended and the input cleared; otherwise nothing changes; the selection stays duplicate-free |
| `EntryForm.JournalEntryForm.HandleSubmit` | src/components/journal/JournalEntryForm.tsx:118-129 | values failing the length rules (on UTF-16 lengths) are refused with their errors and change nothing; valid ones yield the assembled draft and reset the selection and the mood |
| `EntryForm.JournalEntryForm.ReceiveAvailableTags` | src/pages/JournalPage.tsx:221 | a re-render passes the page's current tag list as the suggestions and changes only them |
| `JournalPage.PromptDue` | src/pages/JournalPage.tsx:88 | the prompt condition: never shown, shown more than three days ago, or no entries |
| `JournalPage.WithMetadata` | src/pages/JournalPage.tsx:120 | the stored entry: the draft's fields with the given id and the current instant as date; `AddsEntry` puts it first in the list |
| `JournalPage.PromptShownOnEveryMount` | src/pages/JournalPage.tsx:88 | the prompt condition, read against the initial empty entry list, always holds |
| `JournalPage.AddingKeepsIndexes` | src/pages/JournalPage.tsx:125-134 | the tag, mood and calendar updates of adding an entry keep the indexes describing the longer list |
| `JournalPage.AddToIndexes` | src/pages/JournalPage.tsx:119-136 | the new entry is stamped and prepended, the tags and mood are merged, today's count is bumped, the streak is that of the new list, and the indexes describe the new list |
| `JournalPage.Page.Mount` | src/pages/JournalPage.tsx:39-92 | entries that decode are loaded with their tag list, mood list, calendar and streak; nothing stored, or data that does not parse, leaves everything empty; the indexes agree, no filter is on, and the prompt is shown and its date recorded |
| `JournalPage.Page.AddEntry` | src/pages/JournalPage.tsx:119-136 | the entry is prepended, the list is written to storage, tags and mood are merged, today's count rises by one, the streak is recomputed, and the indexes still agree |
| `JournalPage.Page.ToggleMoodFilter` | src/pages/JournalPage.tsx:154 | the mood selection becomes its toggle, membership flips for that mood only, and duplicate-freedom is kept |
| `JournalPage.Page.SelectDate` | src/pages/JournalPage.tsx:243 | the picked day becomes the date filter, and every entry then in view lies on that day |
| `JournalPage.Page.ClearFilters` | src/pages/JournalPage.tsx:155 | every filter is off and the view shows every entry |

## Left out

- Rendering is not modelled: JSX, tabs, badges, the calendar widget, toasts, `useIsMobile`, the templates and `applyTemplate`. They display things or copy constants into form fields.
- Storage is not modelled as JSON. `localStorage` and `JSON.parse` with the date reviver are replaced by a slot holding either the decoded entry list or `Malformed`. Data that does not parse (`Malformed`) leaves the page empty, as the `catch` does when `JSON.parse` throws. `JSON.stringify` on the write is the identity on that slot.
- `JournalPage.Page.Mount`: decoded entries are well-typed (every date a number, every tag list a list), so the model has no case where parsing succeeds and a later step of the mount effect throws. In the source such data (an entry with a missing or unparseable date, which makes the calendar's date formatting throw, or tags that are not an array) lands in the same `catch` after the entries were set: the entries are kept, the indexes are set only as far as the effect got, and the calendar and streak stay empty and 0. Stored JSON that parses to something other than an array (`null`, `{}`) is also set as the entries before the tag extraction throws; with `null` the page's render then fails on `entries.length`.
- `JournalPage.Page.AddEntry`: the write to storage is assumed to succeed. In the source a throwing `localStorage.setItem` (a full quota) stops `handleAddEntry` after the entries were set, so the tag list, mood list, calendar and streak are not updated and no longer describe the entries.
- Time zones are not modelled beyond a fixed offset. `format(..., 'yyyy-MM-dd')` and `toDateString()` are the day number `DayOf` under that offset, with no daylight-saving changes. `setDate(getDate() - 1)` is a step back of 24 hours.
- `Streak.StaleMeansCalendarGap` holds for the fixed-offset day only. Across a daylight-saving change the source can reset a streak whose newest entry is on yesterday's date: a 25-hour day lets 48 hours pass between an entry and a visit one calendar day later.
- `Streak.TodayOrYesterdayIsFresh` holds for the fixed-offset day only, for the same reason: in the source an entry on yesterday's date can be 48 hours old across a 25-hour day, and so read as stale.
- `toLowerCase()` lower-cases the ASCII letters only. Unicode case mapping is not modelled.
- The prompt's display is partly left out. The prompt condition is modelled, evaluated as written against the initial empty entry list, so it always holds on mount. The dismiss button, the prompt timer and the `Math.random` choice of prompt text are left out.
- The page's entries tab is a placeholder comment in this source, so nothing sets `searchQuery` or `selectedTags`, and nothing calls `toggleMoodFilter` or `clearFilters`; the filtered view is computed on every render but not displayed. The model keeps `toggleMoodFilter` and `clearFilters` as the page defines them, and starts the search text and tag selection empty.
- The page imports `JournalEntryList` but renders none, so `EntryList` models that component on its own, not as part of the page.
- The active tab is not modelled: `setActiveTab` (after adding an entry, in `handleViewCalendar` and in the date picker's `onSelect`) only switches the visible tab. `SelectDate` models the rest of `onSelect`. The prompt's dismiss button is left out with the prompt display.
- `form.reset()`, `onDelete` and the react-hook-form/zod machinery are left out. The two length rules are modelled in `Validate`, and `HandleSubmit` applies them. The page passes no `onDelete`.
- `vite.config.ts` is build configuration and is not part of this model.
- The spread `...newEntry` in `handleAddEntry` could override `id` and `date`. The form never sends them, so a `Draft` has neither field.
- `SeqUtil.ToggleTwiceFromPresent`: toggling a selected item twice does not restore the selection exactly; it moves the item to the end. The twice-toggle property is therefore proved exactly for an absent item, and as multiset equality for a present one in a duplicate-free selection.
  - For the page's filter view that order does not matter, so `ToggleMoodTwiceSameView` proves the view is unchanged either way.
- Staleness follows line 101 of the page, which counts whole 24-hour periods, not calendar days. An entry two calendar days old can still be fresh (`ElapsedPeriodsNotCalendarDays`).
