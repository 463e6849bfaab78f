/** The wizard's store: the form being edited, the step the wizard is on and two
    flags. Each reducer is a method of EventStore that changes the fields in place;
    the value it leaves is given by a function of the old value, and the lemmas
    below those functions state what the reducers promise. */
module CreateEventSlice {
  import opened EventTypes
  import opened StepConfig
  import opened SeqFacts

  // ---------------------------------------------------------------------------
  // Impacted regions
  // ---------------------------------------------------------------------------

  /** `regions.findIndex((r) => r.region === regionId)`. */
  function FindRegionIndex(regions: seq<ImpactedLocation>, regionId: string): (idx: int)
    ensures -1 <= idx < |regions|
    ensures idx == -1 <==> forall i :: 0 <= i < |regions| ==> regions[i].region != regionId
    ensures 0 <= idx ==> regions[idx].region == regionId
    ensures 0 <= idx ==> forall i :: 0 <= i < idx ==> regions[i].region != regionId
  {
    if |regions| == 0 then -1
    else if regions[0].region == regionId then 0
    else
      var k := FindRegionIndex(regions[1..], regionId);
      if k == -1 then -1 else k + 1
  }

  /** The selected country codes of a region: its record's list, or none when the
      region has no record (`regionEntry?.countries ?? []`). */
  function CountriesOf(regions: seq<ImpactedLocation>, regionId: string): (codes: seq<string>)
    ensures (forall i :: 0 <= i < |regions| ==> regions[i].region != regionId) ==> codes == []
    ensures forall k :: 0 <= k < |regions| && regions[k].region == regionId
                          && (forall i :: 0 <= i < k ==> regions[i].region != regionId)
                        ==> codes == regions[k].countries
  {
    var idx := FindRegionIndex(regions, regionId);
    if idx == -1 then [] else regions[idx].countries
  }

  /** `codes.filter((c) => c !== code)`. */
  function Without(codes: seq<string>, code: string): (r: seq<string>)
    ensures forall c :: c in r <==> c in codes && c != code
    ensures |r| <= |codes|
    ensures code !in codes ==> r == codes
  {
    if codes == [] then []
    else if codes[0] == code then Without(codes[1..], code)
    else [codes[0]] + Without(codes[1..], code)
  }

  lemma {:induction false} WithoutKeepsNoDup(codes: seq<string>, code: string)
    requires NoDup(codes)
    ensures NoDup(Without(codes, code))
  {
    if codes != [] {
      WithoutKeepsNoDup(codes[1..], code);
      if codes[0] != code {
        assert codes[0] !in codes[1..];
        assert codes[0] !in Without(codes[1..], code);
      }
    }
  }

  /** Filtering out a code that occurs once shortens the list by one. */
  lemma {:induction false} WithoutLength(codes: seq<string>, code: string)
    requires NoDup(codes) && code in codes
    ensures |Without(codes, code)| == |codes| - 1
  {
    if codes[0] == code {
      assert code !in codes[1..];
    } else {
      WithoutLength(codes[1..], code);
    }
  }

  predicate UniqueRegions(regions: seq<ImpactedLocation>) {
    forall i, j :: 0 <= i < j < |regions| ==> regions[i].region != regions[j].region
  }

  predicate NonEmptyLists(regions: seq<ImpactedLocation>) {
    forall i :: 0 <= i < |regions| ==> regions[i].countries != []
  }

  predicate NoDuplicateCodes(regions: seq<ImpactedLocation>) {
    forall i :: 0 <= i < |regions| ==> NoDup(regions[i].countries)
  }

  /** At most one record per region, no empty country list, no code twice in a record. */
  predicate WellFormed(regions: seq<ImpactedLocation>) {
    UniqueRegions(regions) && NonEmptyLists(regions) && NoDuplicateCodes(regions)
  }

  /** The new region list after `toggleRegion({regionId, countryCode, checked})`. */
  function ToggleRegionIn(regions: seq<ImpactedLocation>, regionId: string, code: string, checked: bool)
    : seq<ImpactedLocation>
  {
    var idx := FindRegionIndex(regions, regionId);
    if checked then
      if idx == -1 then regions + [ImpactedLocation(regionId, [code])]
      else if code in regions[idx].countries then regions
      else regions[idx := regions[idx].(countries := regions[idx].countries + [code])]
    else if idx == -1 then regions
    else
      var rest := Without(regions[idx].countries, code);
      if rest == [] then regions[..idx] + regions[idx + 1..]
      else regions[idx := regions[idx].(countries := rest)]
  }

  /** With one record per region, a region's record is found wherever it sits. */
  lemma CountriesAt(regions: seq<ImpactedLocation>, k: nat)
    requires UniqueRegions(regions) && k < |regions|
    ensures CountriesOf(regions, regions[k].region) == regions[k].countries
  {
  }

  /** In a well-formed list a region has no selection exactly when it has no record:
      the component's empty state and the store agree. */
  lemma NoRecordIffEmpty(regions: seq<ImpactedLocation>, regionId: string)
    requires WellFormed(regions)
    ensures CountriesOf(regions, regionId) == [] <==> forall i :: 0 <= i < |regions| ==> regions[i].region != regionId
    ensures NoDup(CountriesOf(regions, regionId))
  {
    var idx := FindRegionIndex(regions, regionId);
    if idx != -1 {
      assert regions[idx].countries != [];
    }
  }

  lemma ToggleRegionKeepsWellFormed(
    regions: seq<ImpactedLocation>, regionId: string, code: string, checked: bool)
    requires WellFormed(regions)
    ensures WellFormed(ToggleRegionIn(regions, regionId, code, checked))
  {
    if checked {
      CheckKeepsWellFormed(regions, regionId, code);
    } else {
      UncheckKeepsWellFormed(regions, regionId, code);
    }
  }

  /** The checking half of `ToggleRegionKeepsWellFormed`. */
  lemma CheckKeepsWellFormed(regions: seq<ImpactedLocation>, regionId: string, code: string)
    requires WellFormed(regions)
    ensures WellFormed(ToggleRegionIn(regions, regionId, code, true))
  {
    var idx := FindRegionIndex(regions, regionId);
    if idx != -1 && code !in regions[idx].countries {
      var x := regions[idx].(countries := regions[idx].countries + [code]);
      NoDupAppend(regions[idx].countries, code);
      assert ToggleRegionIn(regions, regionId, code, true) == regions[idx := x];
      UpdateKeepsWellFormed(regions, idx, x);
    }
  }

  /** The unchecking half of `ToggleRegionKeepsWellFormed`. */
  lemma UncheckKeepsWellFormed(regions: seq<ImpactedLocation>, regionId: string, code: string)
    requires WellFormed(regions)
    ensures WellFormed(ToggleRegionIn(regions, regionId, code, false))
  {
    var idx := FindRegionIndex(regions, regionId);
    if idx != -1 {
      var rest := Without(regions[idx].countries, code);
      WithoutKeepsNoDup(regions[idx].countries, code);
      var r := ToggleRegionIn(regions, regionId, code, false);
      if rest == [] {
        assert r == regions[..idx] + regions[idx + 1..];
        RemoveKeepsWellFormed(regions, idx);
      } else {
        assert r == regions[idx := regions[idx].(countries := rest)];
        UpdateKeepsWellFormed(regions, idx, regions[idx].(countries := rest));
      }
    }
  }

  /** Dropping a record keeps the list well formed. */
  lemma RemoveKeepsWellFormed(regions: seq<ImpactedLocation>, idx: nat)
    requires WellFormed(regions) && idx < |regions|
    ensures WellFormed(regions[..idx] + regions[idx + 1..])
  {
    var r := regions[..idx] + regions[idx + 1..];
    assert forall i :: 0 <= i < |r| ==> r[i] == regions[if i < idx then i else i + 1];
  }

  /** Replacing a record's list by another non-empty list without repeats keeps
      the list well formed. */
  lemma UpdateKeepsWellFormed(regions: seq<ImpactedLocation>, idx: nat, x: ImpactedLocation)
    requires WellFormed(regions) && idx < |regions|
    requires x.region == regions[idx].region && x.countries != [] && NoDup(x.countries)
    ensures WellFormed(regions[idx := x])
  {
  }

  /** Checking a code adds it to the region's selection once: checking a code
      that is already selected changes nothing. */
  lemma CheckRegionSelection(regions: seq<ImpactedLocation>, regionId: string, code: string)
    requires WellFormed(regions)
    ensures var before := CountriesOf(regions, regionId);
      CountriesOf(ToggleRegionIn(regions, regionId, code, true), regionId)
        == if code in before then before else before + [code]
  {
    var idx := FindRegionIndex(regions, regionId);
    var r := ToggleRegionIn(regions, regionId, code, true);
    if idx == -1 {
      assert r[|regions|].region == regionId;
      assert forall i :: 0 <= i < |regions| ==> r[i] == regions[i];
    } else if code !in regions[idx].countries {
      assert r[idx].region == regionId;
      assert forall i :: 0 <= i < idx ==> r[i] == regions[i];
    }
  }

  /** Unchecking a code filters it out of the region's selection; the record goes
      once its list is empty. */
  lemma UncheckRegionSelection(regions: seq<ImpactedLocation>, regionId: string, code: string)
    requires WellFormed(regions)
    ensures CountriesOf(ToggleRegionIn(regions, regionId, code, false), regionId)
         == Without(CountriesOf(regions, regionId), code)
  {
    var idx := FindRegionIndex(regions, regionId);
    var r := ToggleRegionIn(regions, regionId, code, false);
    if idx != -1 {
      var rest := Without(regions[idx].countries, code);
      if rest == [] {
        assert forall i :: 0 <= i < |r| ==> r[i] == regions[if i < idx then i else i + 1];
        assert forall i :: 0 <= i < |r| ==> r[i].region != regionId;
      } else {
        assert r[idx].region == regionId;
        assert forall i :: 0 <= i < idx ==> r[i] == regions[i];
      }
    }
  }

  /** A record appended for another region does not hide or change a region's record. */
  lemma CountriesOfAppend(regions: seq<ImpactedLocation>, x: ImpactedLocation, other: string)
    requires x.region != other
    ensures CountriesOf(regions + [x], other) == CountriesOf(regions, other)
  {
    var r := regions + [x];
    var k := FindRegionIndex(regions, other);
    if k == -1 {
      assert forall i :: 0 <= i < |r| ==> r[i].region != other;
    } else {
      assert forall i :: 0 <= i <= k ==> r[i] == regions[i];
    }
  }

  /** Replacing another region's record in place leaves a region's selection alone. */
  lemma CountriesOfUpdate(regions: seq<ImpactedLocation>, idx: nat, x: ImpactedLocation, other: string)
    requires idx < |regions| && regions[idx].region == x.region && x.region != other
    ensures CountriesOf(regions[idx := x], other) == CountriesOf(regions, other)
  {
    var r := regions[idx := x];
    var k := FindRegionIndex(regions, other);
    if k == -1 {
      assert forall i :: 0 <= i < |r| ==> r[i].region != other;
    } else {
      assert r[k] == regions[k];
      assert forall i :: 0 <= i < k ==> r[i].region != other;
    }
  }

  /** Removing another region's record leaves a region's selection alone. */
  lemma CountriesOfRemove(regions: seq<ImpactedLocation>, idx: nat, other: string)
    requires idx < |regions| && regions[idx].region != other
    ensures CountriesOf(regions[..idx] + regions[idx + 1..], other) == CountriesOf(regions, other)
  {
    var r := regions[..idx] + regions[idx + 1..];
    assert forall i :: 0 <= i < |r| ==> r[i] == regions[if i < idx then i else i + 1];
    var k := FindRegionIndex(regions, other);
    if k == -1 {
      assert forall i :: 0 <= i < |r| ==> r[i].region != other;
    } else {
      var k' := if k < idx then k else k - 1;
      assert r[k'] == regions[k];
      assert forall i :: 0 <= i < k' ==> r[i].region != other;
    }
  }

  /** A toggle never alters the selection of another region. */
  lemma ToggleRegionOtherRegion(
    regions: seq<ImpactedLocation>, regionId: string, code: string, checked: bool, other: string)
    requires other != regionId
    ensures CountriesOf(ToggleRegionIn(regions, regionId, code, checked), other) == CountriesOf(regions, other)
  {
    if checked {
      CheckOtherRegion(regions, regionId, code, other);
    } else {
      UncheckOtherRegion(regions, regionId, code, other);
    }
  }

  /** The checking half of `ToggleRegionOtherRegion`. */
  lemma CheckOtherRegion(regions: seq<ImpactedLocation>, regionId: string, code: string, other: string)
    requires other != regionId
    ensures CountriesOf(ToggleRegionIn(regions, regionId, code, true), other) == CountriesOf(regions, other)
  {
    var idx := FindRegionIndex(regions, regionId);
    if idx == -1 {
      CountriesOfAppend(regions, ImpactedLocation(regionId, [code]), other);
    } else if code !in regions[idx].countries {
      CountriesOfUpdate(regions, idx, regions[idx].(countries := regions[idx].countries + [code]), other);
    }
  }

  /** The unchecking half of `ToggleRegionOtherRegion`. */
  lemma UncheckOtherRegion(regions: seq<ImpactedLocation>, regionId: string, code: string, other: string)
    requires other != regionId
    ensures CountriesOf(ToggleRegionIn(regions, regionId, code, false), other) == CountriesOf(regions, other)
  {
    var idx := FindRegionIndex(regions, regionId);
    if idx != -1 {
      var rest := Without(regions[idx].countries, code);
      var after := ToggleRegionIn(regions, regionId, code, false);
      if rest == [] {
        assert after == regions[..idx] + regions[idx + 1..];
        CountriesOfRemove(regions, idx, other);
      } else {
        assert after == regions[idx := regions[idx].(countries := rest)];
        CountriesOfUpdate(regions, idx, regions[idx].(countries := rest), other);
      }
    }
  }

  /** Adding a code twice equals adding it once. */
  lemma ToggleRegionAddIdempotent(regions: seq<ImpactedLocation>, regionId: string, code: string)
    ensures var once := ToggleRegionIn(regions, regionId, code, true);
      ToggleRegionIn(once, regionId, code, true) == once
  {
    var idx := FindRegionIndex(regions, regionId);
    var once := ToggleRegionIn(regions, regionId, code, true);
    if idx == -1 {
      assert once[|regions|].region == regionId;
      assert forall i :: 0 <= i < |regions| ==> once[i] == regions[i];
      assert FindRegionIndex(once, regionId) == |regions|;
    } else {
      assert once[idx].region == regionId;
      assert FindRegionIndex(once, regionId) == idx;
    }
  }

  /** A region without a record gains one at the end; removing from it changes nothing. */
  lemma ToggleRegionWithoutRecord(regions: seq<ImpactedLocation>, regionId: string, code: string)
    requires forall i :: 0 <= i < |regions| ==> regions[i].region != regionId
    ensures ToggleRegionIn(regions, regionId, code, true) == regions + [ImpactedLocation(regionId, [code])]
    ensures ToggleRegionIn(regions, regionId, code, false) == regions
  {
  }

  /** Checking a code in a region without a record and unchecking it again
      restores the region list. */
  lemma CheckThenUncheckRestores(regions: seq<ImpactedLocation>, regionId: string, code: string)
    requires forall i :: 0 <= i < |regions| ==> regions[i].region != regionId
    ensures ToggleRegionIn(ToggleRegionIn(regions, regionId, code, true), regionId, code, false) == regions
  {
    var once := ToggleRegionIn(regions, regionId, code, true);
    assert once[|regions|].region == regionId;
    assert forall i :: 0 <= i < |regions| ==> once[i] == regions[i];
    assert FindRegionIndex(once, regionId) == |regions|;
    assert once[..|regions|] == regions;
  }

  /** One checkbox change as the accordion emits it. */
  datatype RegionChange = RegionChange(regionId: string, code: string, checked: bool)

  /** The region list after dispatching the changes one after another. */
  function ApplyChanges(regions: seq<ImpactedLocation>, changes: seq<RegionChange>): seq<ImpactedLocation>
  {
    if changes == [] then regions
    else
      var last := changes[|changes| - 1];
      ToggleRegionIn(ApplyChanges(regions, changes[..|changes| - 1]), last.regionId, last.code, last.checked)
  }

  /** Any sequence of toggles keeps the region list well formed. */
  lemma {:induction false} ApplyChangesKeepsWellFormed(regions: seq<ImpactedLocation>, changes: seq<RegionChange>)
    requires WellFormed(regions)
    ensures WellFormed(ApplyChanges(regions, changes))
  {
    if changes != [] {
      var last := changes[|changes| - 1];
      ApplyChangesKeepsWellFormed(regions, changes[..|changes| - 1]);
      ToggleRegionKeepsWellFormed(ApplyChanges(regions, changes[..|changes| - 1]), last.regionId, last.code, last.checked);
    }
  }

  /** From the empty initial list, any sequence of toggles gives at most one record
      per region, no empty record and no repeated code. */
  lemma FromEmptyWellFormed(changes: seq<RegionChange>)
    ensures WellFormed(ApplyChanges([], changes))
  {
    ApplyChangesKeepsWellFormed([], changes);
  }

  /** Toggles that name other regions never alter a region's selection. */
  lemma {:induction false} ApplyChangesOtherRegions(
    regions: seq<ImpactedLocation>, changes: seq<RegionChange>, regionId: string)
    requires WellFormed(regions)
    requires forall i :: 0 <= i < |changes| ==> changes[i].regionId != regionId
    ensures CountriesOf(ApplyChanges(regions, changes), regionId) == CountriesOf(regions, regionId)
  {
    if changes != [] {
      var init := changes[..|changes| - 1];
      var last := changes[|changes| - 1];
      ApplyChangesOtherRegions(regions, init, regionId);
      ApplyChangesKeepsWellFormed(regions, init);
      ToggleRegionOtherRegion(ApplyChanges(regions, init), last.regionId, last.code, last.checked, regionId);
    }
  }

  lemma ApplyChangesAppend(regions: seq<ImpactedLocation>, changes: seq<RegionChange>, c: RegionChange)
    ensures ApplyChanges(regions, changes + [c])
         == ToggleRegionIn(ApplyChanges(regions, changes), c.regionId, c.code, c.checked)
  {
    assert (changes + [c])[..|changes|] == changes;
  }

  // ---------------------------------------------------------------------------
  // Perils
  // ---------------------------------------------------------------------------

  /** `list.indexOf(x)`. */
  function IndexOf(list: seq<string>, x: string): (idx: int)
    ensures -1 <= idx < |list|
    ensures idx == -1 <==> x !in list
    ensures 0 <= idx ==> list[idx] == x && x !in list[..idx]
  {
    if list == [] then -1
    else if list[0] == x then 0
    else
      var k := IndexOf(list[1..], x);
      if k == -1 then -1 else (assert list[..k + 1] == [list[0]] + list[1..][..k]; k + 1)
  }

  /** The new peril list after `togglePeril(peril)`: appended when absent, its
      first occurrence spliced out otherwise. */
  function TogglePerilIn(perils: seq<string>, peril: string): seq<string> {
    var idx := IndexOf(perils, peril);
    if idx == -1 then perils + [peril] else perils[..idx] + perils[idx + 1..]
  }

  /** With no repeated peril, a toggle flips exactly the toggled peril's membership. */
  lemma TogglePerilFlips(perils: seq<string>, peril: string)
    requires NoDup(perils)
    ensures NoDup(TogglePerilIn(perils, peril))
    ensures peril in TogglePerilIn(perils, peril) <==> peril !in perils
    ensures forall p :: p != peril ==> (p in TogglePerilIn(perils, peril) <==> p in perils)
  {
    var idx := IndexOf(perils, peril);
    if idx == -1 {
      NoDupAppend(perils, peril);
    } else {
      NoDupRemoveAt(perils, idx);
      var r := perils[..idx] + perils[idx + 1..];
      assert perils == perils[..idx] + [peril] + perils[idx + 1..];
      assert peril !in perils[idx + 1..];
    }
  }

  /** Toggling an absent peril twice restores the list. */
  lemma TogglePerilTwiceRestores(perils: seq<string>, peril: string)
    requires peril !in perils
    ensures TogglePerilIn(TogglePerilIn(perils, peril), peril) == perils
  {
    var once := perils + [peril];
    assert IndexOf(once, peril) == |perils|;
    assert once[..|perils|] == perils;
  }

  // ---------------------------------------------------------------------------
  // External sources
  // ---------------------------------------------------------------------------

  /** `sources.filter((s) => s.id !== id)`. */
  function RemoveSourceFrom(sources: seq<ExternalSource>, id: string): (r: seq<ExternalSource>)
    ensures forall s :: s in r <==> s in sources && s.id != id
    ensures |r| <= |sources|
    ensures (forall i :: 0 <= i < |sources| ==> sources[i].id != id) ==> r == sources
  {
    if sources == [] then []
    else if sources[0].id == id then RemoveSourceFrom(sources[1..], id)
    else [sources[0]] + RemoveSourceFrom(sources[1..], id)
  }

  /** Removal works piecewise: the kept entries stay in their original order. */
  lemma {:induction false} RemoveSourceFromConcat(a: seq<ExternalSource>, b: seq<ExternalSource>, id: string)
    ensures RemoveSourceFrom(a + b, id) == RemoveSourceFrom(a, id) + RemoveSourceFrom(b, id)
  {
    if a != [] {
      assert (a + b)[1..] == a[1..] + b;
      RemoveSourceFromConcat(a[1..], b, id);
    } else {
      assert a + b == b;
    }
  }

  /** Removing an id twice equals removing it once. */
  lemma {:induction false} RemoveSourceIdempotent(sources: seq<ExternalSource>, id: string)
    ensures RemoveSourceFrom(RemoveSourceFrom(sources, id), id) == RemoveSourceFrom(sources, id)
  {
  }

  /** A source just added is removed again by its id, and nothing else is touched. */
  lemma {:induction false} RemoveAddedSource(sources: seq<ExternalSource>, source: ExternalSource)
    requires forall i :: 0 <= i < |sources| ==> sources[i].id != source.id
    ensures RemoveSourceFrom(sources + [source], source.id) == sources
  {
    RemoveSourceFromConcat(sources, [source], source.id);
    assert RemoveSourceFrom([source], source.id) == RemoveSourceFrom([], source.id);
  }

  // ---------------------------------------------------------------------------
  // Steps
  // ---------------------------------------------------------------------------

  /** `setStep(target)`: applied only when 1 <= target <= TotalSteps. */
  function SetStepValue(current: int, target: int): (r: int)
    ensures InRange(target) ==> r == target
    ensures !InRange(target) ==> r == current
  {
    if 1 <= target <= TotalSteps then target else current
  }

  /** `nextStep()`: one forward, saturating at TotalSteps. */
  function NextStepValue(current: int): (r: int)
    ensures InRange(current) ==> InRange(r)
    ensures current < TotalSteps ==> r == current + 1
    ensures current >= TotalSteps ==> r == current
  {
    if current < TotalSteps then current + 1 else current
  }

  /** `prevStep()`: one back, saturating at 1. */
  function PrevStepValue(current: int): (r: int)
    ensures InRange(current) ==> InRange(r)
    ensures current > 1 ==> r == current - 1
    ensures current <= 1 ==> r == current
  {
    if current > 1 then current - 1 else current
  }

  /** Back undoes Next everywhere except on the last step. */
  lemma NextThenPrev(current: int)
    requires InRange(current) && current < TotalSteps
    ensures PrevStepValue(NextStepValue(current)) == current
  {
  }

  // ---------------------------------------------------------------------------
  // The store
  // ---------------------------------------------------------------------------

  /** A snapshot of the whole store state. */
  datatype FormState = FormState(
    impactedRegions: seq<ImpactedLocation>,
    perils: seq<string>,
    externalSources: seq<ExternalSource>,
    fields: map<string, string>,
    currentStep: int,
    isDirty: bool,
    isSubmitting: bool)

  const InitialState: FormState := FormState([], [], [], InitialFields, 1, false, false)

  /** What every reducer keeps: a step in range, a well-formed region list and no
      repeated peril. */
  predicate ValidState(s: FormState) {
    && InRange(s.currentStep)
    && WellFormed(s.impactedRegions)
    && NoDup(s.perils)
  }

  lemma InitialStateValid()
    ensures ValidState(InitialState)
  {
  }

  class EventStore {
    var impactedRegions: seq<ImpactedLocation>
    var perils: seq<string>
    var externalSources: seq<ExternalSource>
    var fields: map<string, string>
    var currentStep: int
    var isDirty: bool
    var isSubmitting: bool

    function State(): FormState
      reads this
    {
      FormState(impactedRegions, perils, externalSources, fields, currentStep, isDirty, isSubmitting)
    }

    ghost predicate Valid()
      reads this
    {
      ValidState(State())
    }

    constructor ()
      ensures Valid() && State() == InitialState
    {
      impactedRegions, perils, externalSources := [], [], [];
      fields := InitialFields;
      currentStep, isDirty, isSubmitting := 1, false, false;
    }

    /** `updateField({field, value})`: writes exactly the named field and marks the form dirty. */
    method UpdateField(field: string, value: string)
      requires Valid() && field !in ListFields
      modifies this
      ensures Valid()
      ensures State() == old(State()).(fields := old(fields)[field := value], isDirty := true)
    {
      fields := fields[field := value];
      isDirty := true;
    }

    /** `toggleRegion({regionId, countryCode, checked})`. */
    method ToggleRegion(regionId: string, countryCode: string, checked: bool)
      requires Valid()
      modifies this
      ensures Valid()
      ensures State() == old(State()).(
        impactedRegions := ToggleRegionIn(old(impactedRegions), regionId, countryCode, checked),
        isDirty := true)
    {
      ToggleRegionKeepsWellFormed(impactedRegions, regionId, countryCode, checked);
      var idx := FindRegionIndex(impactedRegions, regionId);
      if checked {
        if idx == -1 {
          impactedRegions := impactedRegions + [ImpactedLocation(regionId, [countryCode])];
        } else if countryCode !in impactedRegions[idx].countries {
          var entry := impactedRegions[idx];
          impactedRegions := impactedRegions[idx := entry.(countries := entry.countries + [countryCode])];
        }
      } else if idx != -1 {
        var entry := impactedRegions[idx];
        var remaining := Without(entry.countries, countryCode);
        impactedRegions := impactedRegions[idx := entry.(countries := remaining)];
        if |remaining| == 0 {
          impactedRegions := impactedRegions[..idx] + impactedRegions[idx + 1..];
        }
      }
      isDirty := true;
    }

    /** `togglePeril(peril)`. */
    method TogglePeril(peril: string)
      requires Valid()
      modifies this
      ensures Valid()
      ensures State() == old(State()).(perils := TogglePerilIn(old(perils), peril), isDirty := true)
    {
      TogglePerilFlips(perils, peril);
      var idx := IndexOf(perils, peril);
      if idx == -1 {
        perils := perils + [peril];
      } else {
        perils := perils[..idx] + perils[idx + 1..];
      }
      isDirty := true;
    }

    /** `setStep(target)`: leaves isDirty as it was. */
    method SetStep(target: int)
      requires Valid()
      modifies this
      ensures Valid()
      ensures State() == old(State()).(currentStep := SetStepValue(old(currentStep), target))
    {
      if 1 <= target <= TotalSteps {
        currentStep := target;
      }
    }

    /** `nextStep()`. */
    method NextStep()
      requires Valid()
      modifies this
      ensures Valid()
      ensures State() == old(State()).(currentStep := NextStepValue(old(currentStep)))
    {
      if currentStep < TotalSteps {
        currentStep := currentStep + 1;
      }
    }

    /** `prevStep()`. */
    method PrevStep()
      requires Valid()
      modifies this
      ensures Valid()
      ensures State() == old(State()).(currentStep := PrevStepValue(old(currentStep)))
    {
      if currentStep > 1 {
        currentStep := currentStep - 1;
      }
    }

    /** `addExternalSource(source)`: appends. */
    method AddExternalSource(source: ExternalSource)
      requires Valid()
      modifies this
      ensures Valid()
      ensures State() == old(State()).(externalSources := old(externalSources) + [source], isDirty := true)
    {
      externalSources := externalSources + [source];
      isDirty := true;
    }

    /** `removeExternalSource(id)`: drops every entry with that id. */
    method RemoveExternalSource(id: string)
      requires Valid()
      modifies this
      ensures Valid()
      ensures State() == old(State()).(externalSources := RemoveSourceFrom(old(externalSources), id), isDirty := true)
    {
      externalSources := RemoveSourceFrom(externalSources, id);
      isDirty := true;
    }

    /** `setSubmitting(flag)`: leaves isDirty as it was. */
    method SetSubmitting(flag: bool)
      requires Valid()
      modifies this
      ensures Valid()
      ensures State() == old(State()).(isSubmitting := flag)
    {
      isSubmitting := flag;
    }

    /** `resetForm()`: back to step 1, clean, not submitting, initial form data. */
    method ResetForm()
      modifies this
      ensures Valid()
      ensures State() == InitialState
    {
      impactedRegions, perils, externalSources := [], [], [];
      fields := InitialFields;
      currentStep, isDirty, isSubmitting := 1, false, false;
    }
  }
}
