/** The wizard page: the handlers it hands to the layout and the sections, each a
    short sequence of store actions, and the rule that marks one section active. */
module CreateEventPage {
  import opened Wrappers
  import opened EventTypes
  import opened StepConfig
  import opened CreateEventSlice
  import CreateEventTemplate

  // ---------------------------------------------------------------------------
  // Navigation as a value
  // ---------------------------------------------------------------------------

  /** What the user can do to the current step: Next, Back, a sidebar click or a
      scroll-spy report (both a plain `setStep`), Close/Cancel, or any action that
      leaves the step alone (submitting, publishing, editing the form). */
  datatype NavEvent = Next | Back | Jump(target: int) | Reset | Other

  /** The current step after one event, as the page's handlers produce it. At the
      last step Next submits, which leaves the step where it is. */
  function StepAfter(current: int, e: NavEvent): int {
    match e
    case Next => if current < TotalSteps then NextStepValue(current) else current
    case Back => PrevStepValue(current)
    case Jump(target) => SetStepValue(current, target)
    case Reset => 1
    case Other => current
  }

  function StepsAfter(current: int, events: seq<NavEvent>): int {
    if events == [] then current
    else StepAfter(StepsAfter(current, events[..|events| - 1]), events[|events| - 1])
  }

  /** Whatever the user does, the wizard never leaves steps 1 to 5. */
  lemma {:induction false} NavigationStaysInRange(current: int, events: seq<NavEvent>)
    requires InRange(current)
    ensures InRange(StepsAfter(current, events))
  {
    if events != [] {
      NavigationStaysInRange(current, events[..|events| - 1]);
    }
  }

  /** Next moves one step forward except at the last step; delegating to submit
      there agrees with the reducer's own saturation. */
  lemma NextIsReducerNext(current: int)
    ensures StepAfter(current, Next) == NextStepValue(current)
  {
  }

  /** The sections' `isActive` flags, `currentStep === n` for n = 1..5: exactly
      the current step's section is active. */
  function ActiveFlags(current: int): (r: seq<bool>)
    ensures |r| == TotalSteps
    ensures InRange(current) ==> r[current - 1]
    ensures forall i :: 0 <= i < |r| && i != current - 1 ==> !r[i]
  {
    seq(TotalSteps, i requires 0 <= i < TotalSteps => current == i + 1)
  }

  // ---------------------------------------------------------------------------
  // The handlers
  // ---------------------------------------------------------------------------

  /** `handleFieldChange`. */
  method HandleFieldChange(store: EventStore, field: string, value: string)
    requires store.Valid() && field !in ListFields
    modifies store
    ensures store.Valid()
    ensures store.State() == old(store.State()).(fields := old(store.fields)[field := value], isDirty := true)
  {
    store.UpdateField(field, value);
  }

  /** `handleRegionChange`, the accordions' `onChange`. */
  method HandleRegionChange(store: EventStore, regionId: string, countryCode: string, checked: bool)
    requires store.Valid()
    modifies store
    ensures store.Valid()
    ensures store.State() == old(store.State()).(
      impactedRegions := ToggleRegionIn(old(store.impactedRegions), regionId, countryCode, checked),
      isDirty := true)
  {
    store.ToggleRegion(regionId, countryCode, checked);
  }

  /** `handlePerilToggle`. */
  method HandlePerilToggle(store: EventStore, peril: string)
    requires store.Valid()
    modifies store
    ensures store.Valid()
    ensures store.State() == old(store.State()).(perils := TogglePerilIn(old(store.perils), peril), isDirty := true)
  {
    store.TogglePeril(peril);
  }

  /** `handleAddSource`. */
  method HandleAddSource(store: EventStore, source: ExternalSource)
    requires store.Valid()
    modifies store
    ensures store.Valid()
    ensures store.State() == old(store.State()).(externalSources := old(store.externalSources) + [source], isDirty := true)
  {
    store.AddExternalSource(source);
  }

  /** `handleRemoveSource`. */
  method HandleRemoveSource(store: EventStore, id: string)
    requires store.Valid()
    modifies store
    ensures store.Valid()
    ensures store.State() == old(store.State()).(
      externalSources := RemoveSourceFrom(old(store.externalSources), id), isDirty := true)
  {
    store.RemoveExternalSource(id);
  }

  /** `handleSubmit`: raise the submitting flag, then lower it again; the form
      itself is untouched. */
  method HandleSubmit(store: EventStore)
    requires store.Valid()
    modifies store
    ensures store.Valid()
    ensures store.State() == old(store.State()).(isSubmitting := false)
  {
    store.SetSubmitting(true);
    store.SetSubmitting(false);
  }

  /** `handlePublish`: the same bracket around the publish step. */
  method HandlePublish(store: EventStore)
    requires store.Valid()
    modifies store
    ensures store.Valid()
    ensures store.State() == old(store.State()).(isSubmitting := false)
  {
    store.SetSubmitting(true);
    store.SetSubmitting(false);
  }

  /** `handleNext`: the next step, or a submit at the last step. */
  method HandleNext(store: EventStore)
    requires store.Valid()
    modifies store
    ensures store.Valid()
    ensures store.currentStep == StepAfter(old(store.currentStep), Next)
    ensures old(store.currentStep) < TotalSteps ==>
      store.State() == old(store.State()).(currentStep := old(store.currentStep) + 1)
    ensures old(store.currentStep) >= TotalSteps ==>
      store.State() == old(store.State()).(isSubmitting := false)
  {
    if store.currentStep < TotalSteps {
      store.NextStep();
    } else {
      HandleSubmit(store);
    }
  }

  /** `handleBack`: always `prevStep`, which stops at step 1. */
  method HandleBack(store: EventStore)
    requires store.Valid()
    modifies store
    ensures store.Valid()
    ensures store.currentStep == StepAfter(old(store.currentStep), Back)
    ensures store.State() == old(store.State()).(currentStep := PrevStepValue(old(store.currentStep)))
  {
    store.PrevStep();
  }

  /** `handleStepClick`: the sidebar may jump to any step, forward or back. */
  method HandleStepClick(store: EventStore, step: int)
    requires store.Valid()
    modifies store
    ensures store.Valid()
    ensures store.currentStep == StepAfter(old(store.currentStep), Jump(step))
    ensures store.State() == old(store.State()).(currentStep := SetStepValue(old(store.currentStep), step))
  {
    store.SetStep(step);
  }

  /** `onScrollStep`, fed by the scroll-spy: the same unrestricted `setStep`. */
  method HandleScrollStep(store: EventStore, step: int)
    requires store.Valid()
    modifies store
    ensures store.Valid()
    ensures store.currentStep == StepAfter(old(store.currentStep), Jump(step))
    ensures store.State() == old(store.State()).(currentStep := SetStepValue(old(store.currentStep), step))
  {
    store.SetStep(step);
  }

  /** One observer callback wired to the page: record the entries, and move to
      the reported step if there is one. */
  method OnScrollObserved(spy: CreateEventTemplate.ScrollSpy, store: EventStore, entries: seq<CreateEventTemplate.Entry>)
    requires spy.Valid() && store.Valid()
    modifies spy, store
    ensures spy.Valid() && store.Valid()
    ensures spy.order == CreateEventTemplate.OrderAfter(old(spy.order), entries)
    ensures spy.ratios == CreateEventTemplate.RatiosAfter(old(spy.ratios), entries)
    ensures var report := CreateEventTemplate.Report(spy.order, spy.ratios);
      store.State() == old(store.State()).(
        currentStep := if report.Some? then SetStepValue(old(store.currentStep), report.value)
                       else old(store.currentStep))
  {
    var report := spy.Observe(entries);
    if report.Some? {
      HandleScrollStep(store, report.value);
    }
  }

  /** `handleClose`: reset the form (then leave the page). */
  method HandleClose(store: EventStore)
    modifies store
    ensures store.Valid()
    ensures store.currentStep == StepAfter(old(store.currentStep), Reset)
    ensures store.State() == InitialState
  {
    store.ResetForm();
  }

  /** `handleCancel`: the same reset. */
  method HandleCancel(store: EventStore)
    modifies store
    ensures store.Valid()
    ensures store.currentStep == StepAfter(old(store.currentStep), Reset)
    ensures store.State() == InitialState
  {
    store.ResetForm();
  }
}
