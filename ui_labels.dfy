/** Text built from counts and step numbers: `${n} location(s) selected`,
    `${n} selected`, `${n} state(s)`, `${n} province(s)` and `Step c of t`. */
module UiLabels {
  import opened Strings

  /** `${n} ${noun}` with an "s" unless n is exactly 1, then `suffix`. */
  function Counted(n: nat, noun: string, suffix: string): (r: string)
    requires noun != []
    ensures LeadingNumber(r) == n
  {
    var tail := " " + noun + (if n != 1 then "s" else "") + suffix;
    LeadingNumberOfLabel(n, tail);
    NatToString(n) + tail
  }

  /** The singular form is used for exactly one, and for no other count (zero included). */
  lemma CountedSingularOnlyAtOne(n: nat, noun: string, suffix: string)
    requires noun != []
    ensures Counted(n, noun, suffix) == "1 " + noun + suffix <==> n == 1
  {
    assert NatToString(1) == "1";
    assert Counted(1, noun, suffix) == "1 " + noun + suffix;
    if Counted(n, noun, suffix) == "1 " + noun + suffix {
      assert LeadingNumber(Counted(n, noun, suffix)) == LeadingNumber(Counted(1, noun, suffix));
    }
  }

  /** The singular labels, spelled out. */
  lemma SingularTexts()
    ensures "1 " + "location" + " selected" == "1 location selected"
    ensures "1 " + "state" + "" == "1 state"
    ensures "1 " + "province" + "" == "1 province"
  {
  }

  /** Every count other than one takes the plural noun. */
  lemma CountedPlural(n: nat, noun: string, suffix: string)
    requires noun != [] && n != 1
    ensures Counted(n, noun, suffix) == NatToString(n) + " " + noun + "s" + suffix
  {
  }

  /** REGION_LABELS.LOCATIONS_SELECTED. */
  function LocationsSelected(n: nat): (r: string)
    ensures LeadingNumber(r) == n
  {
    Counted(n, "location", " selected")
  }

  /** "1 location selected" is the label of exactly one. */
  lemma LocationsSelectedSingular(n: nat)
    ensures LocationsSelected(n) == "1 location selected" <==> n == 1
  {
    CountedSingularOnlyAtOne(n, "location", " selected");
    SingularTexts();
  }

  /** REGION_LABELS.STATES_SELECTED. */
  function StatesSelected(n: nat): (r: string)
    ensures LeadingNumber(r) == n
  {
    Counted(n, "state", "")
  }

  /** "1 state" is the label of exactly one. */
  lemma StatesSelectedSingular(n: nat)
    ensures StatesSelected(n) == "1 state" <==> n == 1
  {
    CountedSingularOnlyAtOne(n, "state", "");
    SingularTexts();
  }

  /** REGION_LABELS.PROVINCES_SELECTED. */
  function ProvincesSelected(n: nat): (r: string)
    ensures LeadingNumber(r) == n
  {
    Counted(n, "province", "")
  }

  /** "1 province" is the label of exactly one. */
  lemma ProvincesSelectedSingular(n: nat)
    ensures ProvincesSelected(n) == "1 province" <==> n == 1
  {
    CountedSingularOnlyAtOne(n, "province", "");
    SingularTexts();
  }

  /** REGION_LABELS.SELECTED_COUNT. */
  function SelectedCount(n: nat): (r: string)
    ensures LeadingNumber(r) == n
    ensures |r| > 9 && r[|r| - 9..] == " selected"
  {
    LeadingNumberOfLabel(n, " selected");
    NatToString(n) + " selected"
  }

  /** BUTTON_LABELS.BACK, NEXT and SUBMIT. */
  const BackLabel: string := "Back"
  const NextLabel: string := "Next"
  const SubmitLabel: string := "Submit"

  /** STATUS_LABELS.ACTIVE and COMPLETE. */
  const ActiveCaption: string := "Active"
  const CompleteCaption: string := "Complete"

  /** PROGRESS_LABELS.STEP_OF and SIDEBAR_LABELS.STEP_OF (the two are the same text). */
  function StepOf(current: int, total: int): (r: string)
    ensures |r| > 5 && r[..5] == "Step "
  {
    "Step " + IntToString(current) + " of " + IntToString(total)
  }

  lemma StepOfShape(n: nat, total: int)
    ensures StepOf(n, total) == "Step " + (NatToString(n) + (" of " + IntToString(total)))
  {
  }

  /** Slicing a three-part concatenation gives back its parts. */
  lemma SliceParts(p: string, d: string, t: string)
    ensures (p + (d + t))[|p|..|p| + |d|] == d
    ensures (p + (d + t))[|p|..] == d + t
    ensures (p + (d + t))[|p| + |d|..] == t
  {
  }

  /**
   * The step indicator reads back: after "Step " comes the current step's
   * digits, the number read there is the current step, and the text ends
   * with " of " and the total.
   */
  lemma StepOfReadsBack(current: nat, total: int)
    ensures |StepOf(current, total)| >= 5 + |NatToString(current)|
    ensures StepOf(current, total)[5..5 + |NatToString(current)|] == NatToString(current)
    ensures LeadingNumber(StepOf(current, total)[5..]) == current
    ensures StepOf(current, total)[5 + |NatToString(current)|..] == " of " + IntToString(total)
  {
    var tail := " of " + IntToString(total);
    StepOfShape(current, total);
    SliceParts("Step ", NatToString(current), tail);
    LeadingNumberOfLabel(current, tail);
  }

  lemma PrefixCancel(p: string, x: string, y: string)
    requires p + x == p + y
    ensures x == y
  {
    assert x == (p + x)[|p|..];
  }

  /** The step indicator names its step: different steps give different text. */
  lemma StepOfNamesStep(a: nat, b: nat, total: int)
    requires StepOf(a, total) == StepOf(b, total)
    ensures a == b
  {
    var tail := " of " + IntToString(total);
    StepOfShape(a, total);
    StepOfShape(b, total);
    PrefixCancel("Step ", NatToString(a) + tail, NatToString(b) + tail);
    LeadingNumberOfLabel(a, tail);
    LeadingNumberOfLabel(b, tail);
  }
}
