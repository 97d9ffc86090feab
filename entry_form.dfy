/** The entry form: its two length rules, its tag and mood selection state, and the
    draft it hands to the page on submit. */
module EntryForm {
  import opened JournalTypes
  import opened SeqUtil

  const MinTitleLength: nat := 2
  const MinContentLength: nat := 10

  datatype FieldError = TitleTooShort | ContentTooShort

  /** Whether a character lies outside the Basic Multilingual Plane, where UTF-16 needs a
      surrogate pair for it. */
  predicate Astral(c: char)
  {
    c as int >= 0x1_0000
  }

  /** A string's JavaScript `length`: the number of UTF-16 code units, one per
      character and two for each astral character. */
  function Utf16Length(s: string): (n: nat)
    ensures |s| <= n <= 2 * |s|
    ensures n == |s| <==> forall i :: 0 <= i < |s| ==> !Astral(s[i])
    decreases |s|
  {
    if s == [] then 0
    else
      assert forall i :: 1 <= i < |s| ==> s[1..][i - 1] == s[i];
      (if Astral(s[0]) then 2 else 1) + Utf16Length(s[1..])
  }

  /** The schema's two rules, on JavaScript lengths: `title` at least 2 code units,
      `content` at least 10. */
  function Validate(title: string, content: string): (errors: seq<FieldError>)
    ensures errors == [] <==> Utf16Length(title) >= MinTitleLength && Utf16Length(content) >= MinContentLength
    ensures TitleTooShort in errors <==> Utf16Length(title) < MinTitleLength
    ensures ContentTooShort in errors <==> Utf16Length(content) < MinContentLength
  {
    (if Utf16Length(title) < MinTitleLength then [TitleTooShort] else [])
      + (if Utf16Length(content) < MinContentLength then [ContentTooShort] else [])
  }

  /** A single emoji is a title of length 2, so it passes the title rule, and five of
      them pass the content rule; one basic letter does not. */
  lemma LengthsCountCodeUnits()
    ensures Validate("\U{1F600}", "\U{1F600}\U{1F600}\U{1F600}\U{1F600}\U{1F600}") == []
    ensures Validate("a", "0123456789") == [TitleTooShort]
  {
    assert Utf16Length("\U{1F600}") == 2;
  }

  /** `completeEntry`: the typed values, the selection when non-empty, the mood when
      non-empty. */
  function AssembleEntry(title: string, content: string, selectedTags: seq<string>, mood: string): Draft
  {
    Draft(title, content,
      if mood != "" then Some(mood) else None,
      if |selectedTags| > 0 then Some(selectedTags) else None)
  }

  /** The draft carries the form's state faithfully: title and content unchanged, and the
      selection and mood recoverable, with "nothing chosen" sent as absent rather than as
      an empty list or empty string. */
  lemma AssembleEntryRecoversForm(title: string, content: string, selectedTags: seq<string>, mood: string)
    ensures var d := AssembleEntry(title, content, selectedTags, mood);
      && d.title == title && d.content == content
      && (if d.tags.Some? then d.tags.value else []) == selectedTags
      && (if d.mood.Some? then d.mood.value else "") == mood
      && (d.tags.Some? ==> |d.tags.value| > 0)
      && (d.mood.Some? ==> d.mood.value != "")
  {
  }

  /** `addNewTag`'s guard: the typed tag is new to both the suggestions and the selection. */
  predicate CanAddTag(newTag: string, availableTags: seq<string>, selectedTags: seq<string>)
  {
    newTag != "" && newTag !in availableTags && newTag !in selectedTags
  }

  lemma AddTagKeepsNoDuplicates(newTag: string, availableTags: seq<string>, selectedTags: seq<string>)
    requires NoDuplicates(selectedTags)
    requires CanAddTag(newTag, availableTags, selectedTags)
    ensures NoDuplicates(selectedTags + [newTag])
  {
  }

  class JournalEntryForm {
    /** The suggestions passed in by the page (`availableTags`, default empty); the page
        passes its current tag list on every render. */
    var availableTags: seq<string>
    var selectedTags: seq<string>
    var mood: string
    var newTag: string

    constructor (availableTags: seq<string>)
      ensures this.availableTags == availableTags
      ensures selectedTags == [] && mood == "" && newTag == ""
    {
      this.availableTags := availableTags;
      selectedTags := [];
      mood := "";
      newTag := "";
    }

    /** A re-render with a new `availableTags` prop: the suggestions change, the form's
        own state stays. */
    method ReceiveAvailableTags(tags: seq<string>)
      modifies this`availableTags
      ensures availableTags == tags
    {
      availableTags := tags;
    }

    /** The mood select's `onValueChange`. */
    method SetMood(value: string)
      modifies this`mood
      ensures mood == value
      ensures selectedTags == old(selectedTags) && newTag == old(newTag)
    {
      mood := value;
    }

    /** The new-tag input's `onChange`. */
    method SetNewTag(value: string)
      modifies this`newTag
      ensures newTag == value
      ensures selectedTags == old(selectedTags) && mood == old(mood)
    {
      newTag := value;
    }

    /** `toggleTag`: see `SeqUtil.Toggle` and its lemmas for what it does to the selection. */
    method ToggleTag(tag: string)
      modifies this`selectedTags
      ensures selectedTags == Toggle(old(selectedTags), tag)
      ensures NoDuplicates(old(selectedTags)) ==> NoDuplicates(selectedTags)
      ensures mood == old(mood) && newTag == old(newTag)
    {
      if NoDuplicates(selectedTags) {
        ToggleKeepsNoDuplicates(selectedTags, tag);
      }
      selectedTags := Toggle(selectedTags, tag);
    }

    /** `addNewTag`: append the typed tag and clear the input, only when it is non-empty,
        not a suggestion and not selected yet; otherwise change nothing. */
    method AddNewTag()
      modifies this`selectedTags, this`newTag
      ensures CanAddTag(old(newTag), availableTags, old(selectedTags)) ==>
        selectedTags == old(selectedTags) + [old(newTag)] && newTag == ""
      ensures !CanAddTag(old(newTag), availableTags, old(selectedTags)) ==>
        selectedTags == old(selectedTags) && newTag == old(newTag)
      ensures NoDuplicates(old(selectedTags)) ==> NoDuplicates(selectedTags)
      ensures mood == old(mood)
    {
      if newTag != "" && !(newTag in availableTags) && !(newTag in selectedTags) {
        selectedTags := selectedTags + [newTag];
        newTag := "";
      }
    }

    /** `handleSubmit` behind the schema: invalid values are refused with their errors and
        change nothing; valid ones yield the assembled draft and reset the selection and
        the mood. */
    method HandleSubmit(title: string, content: string) returns (submitted: Option<Draft>, errors: seq<FieldError>)
      modifies this`selectedTags, this`mood
      ensures errors == Validate(title, content)
      ensures submitted.Some? <==> Utf16Length(title) >= MinTitleLength && Utf16Length(content) >= MinContentLength
      ensures submitted.Some? ==> submitted.value == AssembleEntry(title, content, old(selectedTags), old(mood))
      ensures submitted.Some? ==> selectedTags == [] && mood == ""
      ensures submitted.None? ==> selectedTags == old(selectedTags) && mood == old(mood)
      ensures newTag == old(newTag)
    {
      errors := Validate(title, content);
      if errors != [] {
        return None, errors;
      }
      submitted := Some(AssembleEntry(title, content, selectedTags, mood));
      selectedTags := [];
      mood := "";
    }
  }
}
