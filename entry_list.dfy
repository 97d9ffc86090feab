/** The entry list's own single-tag filter: clicking a tag badge shows only the entries
    carrying that tag, clicking it again shows all. */
module EntryList {
  import opened JournalTypes
  import opened SeqUtil

  /** The list's filter test: the entry has tags and one of them is `tag`. */
  function HasTag(tag: string): Entry -> bool
  {
    (e: Entry) => e.tags.Some? && tag in e.tags.value
  }

  /** `filteredEntries`: all entries with no active tag, else those tagged with it. */
  function FilteredEntries(entries: seq<Entry>, filterTag: string): (r: seq<Entry>)
    ensures filterTag == "" ==> r == entries
    ensures filterTag != "" ==> IsSubsequence(r, entries)
    ensures filterTag != "" ==> forall e :: multiset(r)[e] ==
                                  (if e.tags.Some? && filterTag in e.tags.value then multiset(entries)[e] else 0)
  {
    if filterTag != "" then
      KeepIsSubsequence(entries, HasTag(filterTag));
      Keep(entries, HasTag(filterTag))
    else entries
  }

  /** A click on a tag badge: the active tag switches the filter off, any other tag
      becomes the active one. */
  function ClickTag(filterTag: string, tag: string): (next: string)
    ensures filterTag == tag ==> next == ""
    ensures filterTag != tag ==> next == tag
  {
    if filterTag == tag then "" else tag
  }

  /** After a click at most the clicked tag is active; a second click on it switches the
      filter off, and a click on a different tag replaces the active one. */
  lemma ClickTagTwice(filterTag: string, tag: string)
    requires filterTag != tag
    ensures ClickTag(ClickTag(filterTag, tag), tag) == ""
    ensures forall other :: other != tag ==> ClickTag(ClickTag(filterTag, tag), other) == other
  {
  }

  /** Entries without tags are never shown while a tag filter is active. */
  lemma UntaggedHidden(entries: seq<Entry>, filterTag: string, e: Entry)
    requires filterTag != "" && e.tags.None?
    ensures e !in FilteredEntries(entries, filterTag)
  {
    KeepMembership(entries, HasTag(filterTag), e);
  }
}
