/** The multi-select drop-down: the "Select All"/"Deselect All" row, one checkbox
    per option, and the text shown in the closed control. */
module AppMultiSelect {
  import opened Wrappers
  import opened SeqFacts
  import opened Strings

  /** `allSelected`: a count comparison against a non-empty option list. */
  function AllSelected(options: seq<string>, value: seq<string>): bool {
    |options| > 0 && |value| == |options|
  }

  /** When the selection is made of distinct options, the count comparison means
      every option is selected. */
  lemma AllSelectedMeansEveryOption(options: seq<string>, value: seq<string>)
    requires NoDup(options) && NoDup(value)
    requires forall v :: v in value ==> v in options
    ensures AllSelected(options, value) <==> |options| > 0 && forall o :: o in options ==> o in value
  {
    if |options| > 0 && forall o :: o in options ==> o in value {
      SameElementsSameLength(options, value);
    }
    if AllSelected(options, value) {
      SameCountCovers(value, options);
    }
  }

  /** The selection the header row emits on mouse-down: empty when all are
      selected, otherwise every option in option order. */
  function SelectAllResult(options: seq<string>, value: seq<string>): (r: seq<string>)
    ensures AllSelected(options, value) ==> r == []
    ensures !AllSelected(options, value) ==> r == options
  {
    if AllSelected(options, value) then [] else options
  }

  /** Pressing the header row twice from "not all" selects everything, then clears. */
  lemma SelectAllTwice(options: seq<string>, value: seq<string>)
    requires options != [] && !AllSelected(options, value)
    ensures SelectAllResult(options, value) == options
    ensures AllSelected(options, SelectAllResult(options, value))
    ensures SelectAllResult(options, SelectAllResult(options, value)) == []
  {
  }

  /** The header row's text. */
  function HeaderLabel(options: seq<string>, value: seq<string>): (r: string)
    ensures r == "Deselect All" <==> AllSelected(options, value)
    ensures r == "Select All" <==> !AllSelected(options, value)
  {
    if AllSelected(options, value) then "Deselect All" else "Select All"
  }

  /** Each option's checkbox. */
  function OptionChecked(value: seq<string>, option: string): bool {
    option in value
  }

  /** After the header row, every option's checkbox agrees with the header. */
  lemma CheckboxesFollowHeader(options: seq<string>, value: seq<string>, o: string)
    requires o in options
    ensures OptionChecked(SelectAllResult(options, value), o) <==> !AllSelected(options, value)
  {
  }

  /** The closed control shows the placeholder in italics, or a summary text. */
  datatype Display = Placeholder(text: string) | Summary(text: string)

  /** The default placeholder. */
  const DefaultPlaceholder: string := "Select..."

  /** `renderValue`: the placeholder when nothing is selected; the first two values
      joined by ", ", followed by " +k more" when k further values exist. */
  function RenderValue(selected: seq<string>, placeholder: Option<string>): (d: Display)
    ensures selected == [] ==> d == Placeholder(placeholder.GetOr(DefaultPlaceholder))
    ensures |selected| == 1 ==> d == Summary(selected[0])
    ensures |selected| == 2 ==> d == Summary(selected[0] + ", " + selected[1])
    ensures |selected| > 2 ==>
      d == Summary(selected[0] + ", " + selected[1] + " +" + NatToString(|selected| - 2) + " more")
  {
    if |selected| == 0 then Placeholder(placeholder.GetOr(DefaultPlaceholder))
    else
      var first2 := Join(selected[..if |selected| < 2 then |selected| else 2], ", ");
      var extra := |selected| - 2;
      if extra > 0 then Summary(first2 + " +" + IntToString(extra) + " more") else Summary(first2)
  }

  /** The "+k more" count reads back as the number of values left out of the text. */
  lemma MoreCountReadsBack(selected: seq<string>)
    requires |selected| > 2
    ensures var t := RenderValue(selected, None).text;
      var head := selected[0] + ", " + selected[1] + " +";
      |head| <= |t| && t[..|head|] == head && LeadingNumber(t[|head|..]) == |selected| - 2
  {
    var t := RenderValue(selected, None).text;
    var head := selected[0] + ", " + selected[1] + " +";
    assert t == head + (NatToString(|selected| - 2) + " more");
    assert t[|head|..] == NatToString(|selected| - 2) + " more";
    LeadingNumberOfLabel(|selected| - 2, " more");
  }
}
