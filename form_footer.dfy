/** The sticky footer: Back, the "Step c of t" indicator, and Next (Submit on the
    last step). */
module FormFooter {
  import opened StepConfig
  import opened CreateEventSlice
  import UiLabels

  /** What the footer shows for a step. */
  datatype Footer = Footer(backDisabled: bool, indicator: string, primaryLabel: string, forwardIcon: bool)

  function Render(current: int): (f: Footer)
    ensures f.backDisabled <==> current == 1
    ensures f.primaryLabel == UiLabels.SubmitLabel <==> current == TotalSteps
    ensures f.primaryLabel == UiLabels.SubmitLabel || f.primaryLabel == UiLabels.NextLabel
    ensures f.forwardIcon <==> f.primaryLabel == UiLabels.NextLabel
    ensures f.indicator == UiLabels.StepOf(current, TotalSteps)
  {
    var isFirst := current == 1;
    var isLast := current == TotalSteps;
    Footer(isFirst, UiLabels.StepOf(current, TotalSteps),
           if isLast then UiLabels.SubmitLabel else UiLabels.NextLabel, !isLast)
  }

  /** Back is disabled exactly where `prevStep` would not move. */
  lemma BackDisabledIffBackStays(current: int)
    requires InRange(current)
    ensures Render(current).backDisabled <==> PrevStepValue(current) == current
  {
  }

  /** The button reads Submit exactly where `nextStep` would not move, which is
      where the page submits instead. */
  lemma SubmitIffNextStays(current: int)
    requires InRange(current)
    ensures Render(current).primaryLabel == UiLabels.SubmitLabel <==> NextStepValue(current) == current
  {
  }

  /** Different steps show different indicators. */
  lemma IndicatorNamesStep(a: int, b: int)
    requires InRange(a) && InRange(b)
    requires Render(a).indicator == Render(b).indicator
    ensures a == b
  {
    UiLabels.StepOfNamesStep(a, b, TotalSteps);
  }
}
