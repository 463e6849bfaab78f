/** One step of the sidebar list: its badge variant, its style classes, its status
    caption, and the click/Enter handling. */
module StepNavItem {
  import opened Wrappers
  import opened StepConfig
  import UiLabels

  datatype Variant = Complete | Active | Inactive

  /** `isComplete ? 'complete' : isActive ? 'active' : 'inactive'`. */
  function VariantOf(id: int, current: int): (v: Variant)
    ensures v == Complete <==> id < current
    ensures v == Active <==> id == current
    ensures v == Inactive <==> id > current
  {
    if id < current then Complete else if id == current then Active else Inactive
  }

  /** The three state classes of the item (and of its label). */
  datatype Classes = Classes(active: bool, complete: bool, inactive: bool)

  function ClassesOf(id: int, current: int): (c: Classes)
    ensures c.active <==> VariantOf(id, current) == Active
    ensures c.complete <==> VariantOf(id, current) == Complete
    ensures c.inactive <==> VariantOf(id, current) == Inactive
  {
    var isActive := id == current;
    var isComplete := id < current;
    Classes(isActive, isComplete && !isActive, !isActive && !isComplete)
  }

  /** Exactly one class applies. */
  lemma OneClass(id: int, current: int)
    ensures var c := ClassesOf(id, current);
      (c.active && !c.complete && !c.inactive)
      || (!c.active && c.complete && !c.inactive)
      || (!c.active && !c.complete && c.inactive)
  {
  }

  /** The status captions shown under the label. */
  function Captions(id: int, current: int): (r: seq<string>)
    ensures |r| <= 1
    ensures UiLabels.ActiveCaption in r <==> id == current
    ensures UiLabels.CompleteCaption in r <==> id < current
  {
    (if id == current then [UiLabels.ActiveCaption] else [])
    + (if id < current then [UiLabels.CompleteCaption] else [])
  }

  datatype Input = Click | KeyDown(key: string)

  /** The step id handed to `onClick`, if the input triggers it. */
  function OnInput(id: int, input: Input): (r: Option<int>)
    ensures r.Some? <==> input.Click? || input.key == "Enter"
    ensures r.Some? ==> r.value == id
  {
    match input
    case Click => Some(id)
    case KeyDown(key) => if key == "Enter" then Some(id) else None
  }

  /** The sidebar's steps are numbered 1 to 5 in order. */
  lemma StepIds()
    ensures forall i :: 0 <= i < |Steps| ==> Steps[i].id == i + 1
  {
  }

  /** On any step of the wizard exactly one sidebar item is active, the ones before
      it are complete and the ones after it inactive. */
  lemma OneActiveItem(current: int)
    requires InRange(current)
    ensures forall i :: 0 <= i < |Steps| ==> (VariantOf(Steps[i].id, current) == Active <==> i == current - 1)
    ensures forall i :: 0 <= i < |Steps| ==> (VariantOf(Steps[i].id, current) == Complete <==> i < current - 1)
  {
    StepIds();
  }
}
