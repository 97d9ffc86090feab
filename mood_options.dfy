/** The ten mood options offered by the entry form and used by the entry list to
    colour an entry, and the colour lookup both components do on them. */
module MoodOptions {
  import opened JournalTypes

  /** A mood option's value and its style classes (the emoji is display only). */
  datatype MoodOption = MoodOption(value: string, color: string)

  const Options: seq<MoodOption> := [
    MoodOption("Happy", "bg-green-500/20 text-green-700 dark:bg-green-500/30 dark:text-green-400"),
    MoodOption("Good", "bg-blue-500/20 text-blue-700 dark:bg-blue-500/30 dark:text-blue-400"),
    MoodOption("Calm", "bg-indigo-500/20 text-indigo-700 dark:bg-indigo-500/30 dark:text-indigo-400"),
    MoodOption("Neutral", "bg-gray-500/20 text-gray-700 dark:bg-gray-500/30 dark:text-gray-400"),
    MoodOption("Tired", "bg-purple-500/20 text-purple-700 dark:bg-purple-500/30 dark:text-purple-400"),
    MoodOption("Anxious", "bg-yellow-500/20 text-yellow-700 dark:bg-yellow-500/30 dark:text-yellow-400"),
    MoodOption("Sad", "bg-blue-700/20 text-blue-900 dark:bg-blue-700/30 dark:text-blue-300"),
    MoodOption("Angry", "bg-red-500/20 text-red-700 dark:bg-red-500/30 dark:text-red-400"),
    MoodOption("Grateful", "bg-amber-500/20 text-amber-700 dark:bg-amber-500/30 dark:text-amber-400"),
    MoodOption("Excited", "bg-pink-500/20 text-pink-700 dark:bg-pink-500/30 dark:text-pink-400")
  ]

  /** Array `find` on the option values, as the index of the first match. */
  function FindOption(options: seq<MoodOption>, mood: string): (r: Option<nat>)
    ensures r.Some? ==> r.value < |options| && options[r.value].value == mood
    ensures r.Some? ==> forall j :: 0 <= j < r.value ==> options[j].value != mood
    ensures r.None? ==> forall j :: 0 <= j < |options| ==> options[j].value != mood
    decreases |options|
  {
    if options == [] then None
    else if options[0].value == mood then Some(0)
    else match FindOption(options[1..], mood)
      case None => None
      case Some(k) => Some(k + 1)
  }

  /** The colour lookup `selectedMoodStyle` over a list of options: the
      colour of the first option whose value is the mood, and the empty string for an
      absent or unknown mood. */
  function MoodStyle(options: seq<MoodOption>, mood: Option<string>): (style: string)
    ensures mood.None? ==> style == ""
    ensures mood.Some? && (forall j :: 0 <= j < |options| ==> options[j].value != mood.value) ==> style == ""
    ensures forall i :: 0 <= i < |options| && mood == Some(options[i].value)
                        && (forall j :: 0 <= j < i ==> options[j].value != options[i].value)
                        ==> style == options[i].color
  {
    match mood
    case None => ""
    case Some(m) =>
      match FindOption(options, m)
      case None => ""
      case Some(i) => if options[i].color != "" then options[i].color else ""
  }

  /** The form's `selectedMoodStyle` value and the list's `selectedMoodStyle` function,
      on the ten options. */
  function SelectedMoodStyle(mood: Option<string>): string
  {
    MoodStyle(Options, mood)
  }

  /** A mood that is not one of the option values gets no colour. */
  lemma UnknownMoodHasNoStyle(mood: string)
    requires forall j :: 0 <= j < |Options| ==> Options[j].value != mood
    ensures SelectedMoodStyle(Some(mood)) == ""
  {
  }

  /** The option values are distinct ... */
  lemma OptionValuesDistinct()
    ensures forall i, j :: 0 <= i < j < |Options| ==> Options[i].value != Options[j].value
  {
    var v := seq(|Options|, k requires 0 <= k < |Options| => Options[k].value);
    assert v == ["Happy", "Good", "Calm", "Neutral", "Tired", "Anxious", "Sad", "Angry", "Grateful", "Excited"];
  }

  /** ... so every option's value selects that option's own colour. */
  lemma KnownMoodStyles(i: nat)
    requires i < |Options|
    ensures SelectedMoodStyle(Some(Options[i].value)) == Options[i].color
  {
    OptionValuesDistinct();
  }
}
