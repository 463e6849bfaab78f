/** One expandable region row: the region checkbox (checked when every country
    is selected, indeterminate when some are), the "n selected" caption, one
    checkbox per country, and the aggregate toggle that issues one store toggle
    per country. */
module RegionAccordion {
  import opened Wrappers
  import opened SeqFacts
  import opened RegionData
  import opened EventTypes
  import opened CreateEventSlice
  import UiLabels

  /** `allSelected`: a count comparison, so a region without countries reads as
      all selected when it has no record. */
  function AllSelected(region: Region, selected: seq<ImpactedLocation>): bool {
    |CountriesOf(selected, region.id)| == |region.countries|
  }

  /** `someSelected`: the indeterminate flag. */
  function SomeSelected(region: Region, selected: seq<ImpactedLocation>): (r: bool)
    ensures r ==> !AllSelected(region, selected)
    ensures r <==> |CountriesOf(selected, region.id)| > 0 && !AllSelected(region, selected)
  {
    |CountriesOf(selected, region.id)| > 0 && !AllSelected(region, selected)
  }

  /** Every selected code of the region is one of its countries: what the
      accordion's own changes keep true. */
  predicate SelectionWithinRegion(region: Region, selected: seq<ImpactedLocation>) {
    forall c :: c in CountriesOf(selected, region.id) ==> c in CountryCodes(region)
  }

  /** A country checkbox is checked iff its code is among the region's selection. */
  function CountryChecked(region: Region, selected: seq<ImpactedLocation>, code: string): (r: bool)
    ensures r <==> code in CountriesOf(selected, region.id)
  {
    code in CountriesOf(selected, region.id)
  }

  /** The change a country checkbox emits: its region, its code, its new state. */
  function CountryChange(region: Region, country: Country, newChecked: bool): (c: RegionChange)
    ensures c.regionId == region.id && c.code == country.code && c.checked == newChecked
  {
    RegionChange(region.id, country.code, newChecked)
  }

  /** The "n selected" caption: shown only when at least one country is selected. */
  function SelectedCaption(region: Region, selected: seq<ImpactedLocation>): (r: Option<string>)
    ensures r.Some? <==> |CountriesOf(selected, region.id)| > 0
    ensures r.Some? ==> r.value == UiLabels.SelectedCount(|CountriesOf(selected, region.id)|)
  {
    var n := |CountriesOf(selected, region.id)|;
    if n > 0 then Some(UiLabels.SelectedCount(n)) else None
  }

  /** An uncheck for every country, in region order. */
  function UncheckEach(regionId: string, countries: seq<Country>): (r: seq<RegionChange>)
    ensures |r| == |countries|
    ensures forall i :: 0 <= i < |r| ==> r[i] == RegionChange(regionId, countries[i].code, false)
  {
    if countries == [] then []
    else UncheckEach(regionId, countries[..|countries| - 1])
         + [RegionChange(regionId, countries[|countries| - 1].code, false)]
  }

  /** The country codes not in `selected`, in region order. */
  function MissingCodes(countries: seq<Country>, selected: seq<string>): seq<string>
  {
    if countries == [] then []
    else
      var last := countries[|countries| - 1].code;
      MissingCodes(countries[..|countries| - 1], selected) + (if last in selected then [] else [last])
  }

  /** A check for every country not yet selected, in region order. */
  function CheckMissing(regionId: string, countries: seq<Country>, selected: seq<string>): seq<RegionChange>
  {
    if countries == [] then []
    else
      var last := countries[|countries| - 1].code;
      CheckMissing(regionId, countries[..|countries| - 1], selected)
        + (if last in selected then [] else [RegionChange(regionId, last, true)])
  }

  /** No missing code is already selected. */
  lemma {:induction false} MissingCodesOutsideSelection(countries: seq<Country>, selected: seq<string>)
    ensures forall c :: c in MissingCodes(countries, selected) ==> c !in selected
  {
    if countries != [] {
      MissingCodesOutsideSelection(countries[..|countries| - 1], selected);
    }
  }

  /** The checks are exactly one per missing code, in the same order. */
  lemma {:induction false} CheckMissingChecksMissing(regionId: string, countries: seq<Country>, selected: seq<string>)
    ensures |CheckMissing(regionId, countries, selected)| == |MissingCodes(countries, selected)|
    ensures forall i :: 0 <= i < |CheckMissing(regionId, countries, selected)| ==>
      CheckMissing(regionId, countries, selected)[i] == RegionChange(regionId, MissingCodes(countries, selected)[i], true)
  {
    if countries != [] {
      CheckMissingChecksMissing(regionId, countries[..|countries| - 1], selected);
    }
  }

  /** The changes `handleRegionToggle` emits, computed from the selection the row
      was rendered with. */
  function AggregateChanges(region: Region, selected: seq<ImpactedLocation>): seq<RegionChange> {
    if AllSelected(region, selected) then UncheckEach(region.id, region.countries)
    else CheckMissing(region.id, region.countries, CountriesOf(selected, region.id))
  }

  /** Every aggregate change names the row's own region. */
  lemma AggregateChangesNameRegion(region: Region, selected: seq<ImpactedLocation>)
    ensures forall i :: 0 <= i < |AggregateChanges(region, selected)| ==>
      AggregateChanges(region, selected)[i].regionId == region.id
  {
    CheckMissingChecksMissing(region.id, region.countries, CountriesOf(selected, region.id));
  }

  /** `handleRegionToggle`, with `onChange` bound to the page's region handler,
      which dispatches `toggleRegion`: one toggle per country, in order. */
  method HandleRegionToggle(store: EventStore, region: Region)
    requires store.Valid()
    modifies store
    ensures store.Valid()
    ensures var changes := AggregateChanges(region, old(store.impactedRegions));
      store.State() == old(store.State()).(
        impactedRegions := ApplyChanges(old(store.impactedRegions), changes),
        isDirty := old(store.isDirty) || changes != [])
  {
    var selectedCountries := CountriesOf(store.impactedRegions, region.id);
    if |selectedCountries| == |region.countries| {
      UncheckAll(store, region.id, region.countries);
    } else {
      CheckRemaining(store, region.id, region.countries, selectedCountries);
    }
  }

  /** The all-selected branch: `onChange(region.id, c.code, false)` for every country. */
  method UncheckAll(store: EventStore, regionId: string, countries: seq<Country>)
    requires store.Valid()
    modifies store
    ensures store.Valid()
    ensures var changes := UncheckEach(regionId, countries);
      store.State() == old(store.State()).(
        impactedRegions := ApplyChanges(old(store.impactedRegions), changes),
        isDirty := old(store.isDirty) || changes != [])
  {
    ghost var s0 := store.State();
    ghost var emitted: seq<RegionChange> := [];
    var i := 0;
    while i < |countries|
      invariant 0 <= i <= |countries|
      invariant store.Valid()
      invariant emitted == UncheckEach(regionId, countries[..i])
      invariant store.State() == s0.(impactedRegions := ApplyChanges(s0.impactedRegions, emitted),
                                     isDirty := s0.isDirty || emitted != [])
    {
      var change := RegionChange(regionId, countries[i].code, false);
      assert countries[..i + 1] == countries[..i] + [countries[i]];
      ApplyChangesAppend(s0.impactedRegions, emitted, change);
      store.ToggleRegion(regionId, countries[i].code, false);
      emitted := emitted + [change];
      i := i + 1;
    }
    assert countries[..i] == countries;
  }

  /** The other branch: `onChange(region.id, c.code, true)` for every country not in
      the selection the row was rendered with. */
  method CheckRemaining(store: EventStore, regionId: string, countries: seq<Country>, selected: seq<string>)
    requires store.Valid()
    modifies store
    ensures store.Valid()
    ensures var changes := CheckMissing(regionId, countries, selected);
      store.State() == old(store.State()).(
        impactedRegions := ApplyChanges(old(store.impactedRegions), changes),
        isDirty := old(store.isDirty) || changes != [])
  {
    ghost var s0 := store.State();
    ghost var emitted: seq<RegionChange> := [];
    var i := 0;
    while i < |countries|
      invariant 0 <= i <= |countries|
      invariant store.Valid()
      invariant emitted == CheckMissing(regionId, countries[..i], selected)
      invariant store.State() == s0.(impactedRegions := ApplyChanges(s0.impactedRegions, emitted),
                                     isDirty := s0.isDirty || emitted != [])
    {
      CheckMissingStep(regionId, countries, selected, i);
      var code := countries[i].code;
      if code !in selected {
        var change := RegionChange(regionId, code, true);
        ApplyChangesAppend(s0.impactedRegions, emitted, change);
        store.ToggleRegion(regionId, code, true);
        emitted := emitted + [change];
      }
      i := i + 1;
    }
    assert countries[..i] == countries;
  }

  /** One more country extends the changes by at most its own check. */
  lemma CheckMissingStep(regionId: string, countries: seq<Country>, selected: seq<string>, i: nat)
    requires i < |countries|
    ensures CheckMissing(regionId, countries[..i + 1], selected)
         == CheckMissing(regionId, countries[..i], selected)
          + (if countries[i].code in selected then [] else [RegionChange(regionId, countries[i].code, true)])
  {
    assert countries[..i + 1][..i] == countries[..i];
  }

  // ---------------------------------------------------------------------------
  // What the aggregate toggle does to the selection
  // ---------------------------------------------------------------------------

  /** Unchecking every country of a region removes exactly those codes. */
  lemma {:induction false} UncheckEachEffect(regions: seq<ImpactedLocation>, region: Region)
    requires WellFormed(regions)
    ensures WellFormed(ApplyChanges(regions, UncheckEach(region.id, region.countries)))
    ensures forall c :: c in CountriesOf(ApplyChanges(regions, UncheckEach(region.id, region.countries)), region.id)
                    <==> c in CountriesOf(regions, region.id) && c !in CountryCodes(region)
    decreases |region.countries|
  {
    ApplyChangesKeepsWellFormed(regions, UncheckEach(region.id, region.countries));
    if region.countries != [] {
      var init := region.(countries := region.countries[..|region.countries| - 1]);
      UncheckEachEffect(regions, init);
      UncheckOneMore(regions, region, init);
    }
  }

  /** The step of `UncheckEachEffect`: one more uncheck, for the last country. */
  lemma UncheckOneMore(regions: seq<ImpactedLocation>, region: Region, init: Region)
    requires WellFormed(regions) && region.countries != []
    requires init.id == region.id && init.countries == region.countries[..|region.countries| - 1]
    requires forall c :: c in CountriesOf(ApplyChanges(regions, UncheckEach(region.id, init.countries)), region.id)
                    <==> c in CountriesOf(regions, region.id) && c !in CountryCodes(init)
    ensures forall c :: c in CountriesOf(ApplyChanges(regions, UncheckEach(region.id, region.countries)), region.id)
                    <==> c in CountriesOf(regions, region.id) && c !in CountryCodes(region)
  {
    var last := region.countries[|region.countries| - 1].code;
    var before := UncheckEach(region.id, init.countries);
    var mid := ApplyChanges(regions, before);
    ApplyChangesKeepsWellFormed(regions, before);
    ApplyChangesAppend(regions, before, RegionChange(region.id, last, false));
    UncheckRegionSelection(mid, region.id, last);
    assert CountryCodes(region) == CountryCodes(init) + [last];
    RemoveOneMore(CountriesOf(regions, region.id), CountryCodes(init), last,
      CountriesOf(mid, region.id), CountriesOf(ApplyChanges(regions, UncheckEach(region.id, region.countries)), region.id));
  }

  /** The membership step of `UncheckEachEffect`: removing one more code. */
  lemma RemoveOneMore(base: seq<string>, removed: seq<string>, last: string, mid: seq<string>, after: seq<string>)
    requires forall c :: c in mid <==> c in base && c !in removed
    requires forall c :: c in after <==> c in mid && c != last
    ensures forall c :: c in after <==> c in base && c !in removed + [last]
  {
  }

  /** Checking the missing countries of a list appends them to the selection, in
      region order. */
  lemma {:induction false} CheckMissingEffect(
    regions: seq<ImpactedLocation>, regionId: string, countries: seq<Country>, selected: seq<string>)
    requires WellFormed(regions) && CountriesOf(regions, regionId) == selected
    requires NoDup(MissingCodes(countries, selected))
    ensures WellFormed(ApplyChanges(regions, CheckMissing(regionId, countries, selected)))
    ensures CountriesOf(ApplyChanges(regions, CheckMissing(regionId, countries, selected)), regionId)
         == selected + MissingCodes(countries, selected)
  {
    ApplyChangesKeepsWellFormed(regions, CheckMissing(regionId, countries, selected));
    if countries != [] {
      var init := countries[..|countries| - 1];
      var pre := MissingCodes(init, selected);
      assert NoDup(pre) by {
        assert pre == MissingCodes(countries, selected)[..|pre|];
      }
      CheckMissingEffect(regions, regionId, init, selected);
      if countries[|countries| - 1].code !in selected {
        CheckOneMore(regions, regionId, countries, selected);
      } else {
        assert CheckMissing(regionId, countries, selected) == CheckMissing(regionId, init, selected);
        assert MissingCodes(countries, selected) == pre;
      }
    }
  }

  /** The step of `CheckMissingEffect` where the last country is missing. */
  lemma CheckOneMore(
    regions: seq<ImpactedLocation>, regionId: string, countries: seq<Country>, selected: seq<string>)
    requires countries != [] && countries[|countries| - 1].code !in selected
    requires WellFormed(regions)
    requires NoDup(MissingCodes(countries, selected))
    requires var before := ApplyChanges(regions, CheckMissing(regionId, countries[..|countries| - 1], selected));
      CountriesOf(before, regionId) == selected + MissingCodes(countries[..|countries| - 1], selected)
    ensures CountriesOf(ApplyChanges(regions, CheckMissing(regionId, countries, selected)), regionId)
         == selected + MissingCodes(countries, selected)
  {
    var init := countries[..|countries| - 1];
    var last := countries[|countries| - 1].code;
    var pre := MissingCodes(init, selected);
    var before := CheckMissing(regionId, init, selected);
    var mid := ApplyChanges(regions, before);
    var change := RegionChange(regionId, last, true);
    assert CheckMissing(regionId, countries, selected) == before + [change];
    assert MissingCodes(countries, selected) == pre + [last];
    ApplyChangesKeepsWellFormed(regions, before);
    ApplyChangesAppend(regions, before, change);
    CheckRegionSelection(mid, regionId, last);
    forall k | 0 <= k < |pre|
      ensures pre[k] != last
    {
      assert MissingCodes(countries, selected)[k] == pre[k];
      assert MissingCodes(countries, selected)[|pre|] == last;
    }
    assert last !in selected + pre;
    AppendAssoc(selected, pre, [last]);
  }

  /** The missing codes are the region's codes outside the selection, each once. */
  lemma {:induction false} MissingCodesExact(region: Region, selected: seq<string>)
    requires DistinctCodes(region)
    ensures NoDup(MissingCodes(region.countries, selected))
    ensures forall c :: c in MissingCodes(region.countries, selected)
                    <==> c in CountryCodes(region) && c !in selected
    decreases |region.countries|
  {
    if region.countries != [] {
      var init := region.(countries := region.countries[..|region.countries| - 1]);
      var last := region.countries[|region.countries| - 1].code;
      MissingCodesExact(init, selected);
      assert CountryCodes(region) == CountryCodes(init) + [last];
      assert last !in CountryCodes(init);
    }
  }

  /** When every country is selected, the aggregate toggle unchecks them all and the
      region's record disappears. */
  lemma DeselectAllRemovesRecord(region: Region, regions: seq<ImpactedLocation>)
    requires WellFormed(regions)
    requires SelectionWithinRegion(region, regions)
    requires AllSelected(region, regions)
    ensures var after := ApplyChanges(regions, AggregateChanges(region, regions));
      forall i :: 0 <= i < |after| ==> after[i].region != region.id
  {
    var after := ApplyChanges(regions, AggregateChanges(region, regions));
    UncheckEachEffect(regions, region);
    var left := CountriesOf(after, region.id);
    NoMemberEmpty(left);
    NoRecordIffEmpty(after, region.id);
  }

  /** When not every country is selected (none or some), the aggregate toggle
      checks the missing ones after the current selection: an indeterminate region
      resolves to all selected. */
  lemma SelectRemainingSelectsAll(region: Region, regions: seq<ImpactedLocation>)
    requires WellFormed(regions) && DistinctCodes(region)
    requires SelectionWithinRegion(region, regions)
    requires !AllSelected(region, regions)
    ensures var after := ApplyChanges(regions, AggregateChanges(region, regions));
      && CountriesOf(after, region.id) == CountriesOf(regions, region.id)
                                          + MissingCodes(region.countries, CountriesOf(regions, region.id))
      && AllSelected(region, after)
      && forall c :: c in CountriesOf(after, region.id) <==> c in CountryCodes(region)
  {
    var selected := CountriesOf(regions, region.id);
    var after := ApplyChanges(regions, AggregateChanges(region, regions));
    MissingCodesExact(region, selected);
    CheckMissingEffect(regions, region.id, region.countries, selected);
    NoRecordIffEmpty(after, region.id);
    assert NoDup(CountryCodes(region));
    SameElementsSameLength(CountriesOf(after, region.id), CountryCodes(region));
  }

  /** Toggling the region checkbox twice, starting from no selection, leaves no
      record for the region and leaves the other regions alone. */
  lemma ToggleTwiceFromNone(region: Region, regions: seq<ImpactedLocation>)
    requires WellFormed(regions) && DistinctCodes(region)
    requires forall i :: 0 <= i < |regions| ==> regions[i].region != region.id
    ensures var once := ApplyChanges(regions, AggregateChanges(region, regions));
      var twice := ApplyChanges(once, AggregateChanges(region, once));
      && (forall i :: 0 <= i < |twice| ==> twice[i].region != region.id)
      && forall other :: other != region.id ==> CountriesOf(twice, other) == CountriesOf(regions, other)
  {
    var once := ApplyChanges(regions, AggregateChanges(region, regions));
    var twice := ApplyChanges(once, AggregateChanges(region, once));
    ApplyChangesKeepsWellFormed(regions, AggregateChanges(region, regions));
    if AllSelected(region, regions) {
      // a region without countries: nothing to toggle
      assert AggregateChanges(region, regions) == [] && once == regions;
      assert AggregateChanges(region, once) == [] && twice == regions;
    } else {
      SelectRemainingSelectsAll(region, regions);
      DeselectAllRemovesRecord(region, once);
    }
    forall other | other != region.id
      ensures CountriesOf(twice, other) == CountriesOf(regions, other)
    {
      AggregateChangesNameRegion(region, regions);
      AggregateChangesNameRegion(region, once);
      ApplyChangesOtherRegions(regions, AggregateChanges(region, regions), other);
      ApplyChangesOtherRegions(once, AggregateChanges(region, once), other);
    }
  }
}
