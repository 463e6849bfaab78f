/** Step 2 of the wizard: the chips that name every selected location, the
    "n locations selected" count and the peril chips. Codes are turned into labels
    by searching the region tree. */
module ImpactRegionsSection {
  import opened Wrappers
  import opened SeqFacts
  import opened Strings
  import opened RegionData
  import opened EventTypes
  import opened CreateEventSlice
  import UiLabels

  // ---------------------------------------------------------------------------
  // Resolving a stored code to a label
  // ---------------------------------------------------------------------------

  /** `countries.find((c) => c.code === code)`: the first country with the code. */
  function FindCountry(countries: seq<Country>, code: string): (r: Option<Country>)
    ensures r.None? <==> forall c :: c in countries ==> c.code != code
    ensures r.Some? ==> r.value in countries && r.value.code == code
  {
    if countries == [] then None
    else if countries[0].code == code then Some(countries[0])
    else FindCountry(countries[1..], code)
  }

  /** `find` stops at the first match. */
  lemma {:induction false} FindCountryFirst(countries: seq<Country>, i: nat)
    requires i < |countries|
    requires forall j :: 0 <= j < i ==> countries[j].code != countries[i].code
    ensures FindCountry(countries, countries[i].code) == Some(countries[i])
  {
    if i > 0 {
      assert countries[0].code != countries[i].code;
      FindCountryFirst(countries[1..], i - 1);
    }
  }

  /** `subRegions.find((s) => s.code === code)`: the first sub-region with the code. */
  function FindSubRegion(subRegions: seq<SubRegion>, code: string): (r: Option<SubRegion>)
    ensures r.None? <==> forall s :: s in subRegions ==> s.code != code
    ensures r.Some? ==> r.value in subRegions && r.value.code == code
  {
    if subRegions == [] then None
    else if subRegions[0].code == code then Some(subRegions[0])
    else FindSubRegion(subRegions[1..], code)
  }

  /** `find` stops at the first matching sub-region. */
  lemma {:induction false} FindSubRegionFirst(subRegions: seq<SubRegion>, i: nat)
    requires i < |subRegions|
    requires forall j :: 0 <= j < i ==> subRegions[j].code != subRegions[i].code
    ensures FindSubRegion(subRegions, subRegions[i].code) == Some(subRegions[i])
  {
    if i > 0 {
      assert subRegions[0].code != subRegions[i].code;
      FindSubRegionFirst(subRegions[1..], i - 1);
    }
  }

  /** A sub-region called `name`, with code `subCode`, listed under a country with
      code `countryCode` of the region. */
  predicate NamesSubRegion(region: Region, countryCode: string, subCode: string, name: string) {
    exists c :: c in region.countries && c.code == countryCode && c.subRegions.Some?
                && SubRegion(subCode, name) in c.subRegions.value
  }

  /** What one region contributes to a dashed code: the sub-region's name when the
      region's first country with that code has a sub-region list holding the
      sub-region code (`country?.subRegions` is truthy even for an empty list, which
      then simply has no match). */
  function SubRegionIn(region: Region, countryCode: string, subCode: string): (r: Option<string>)
    ensures r.Some? ==> NamesSubRegion(region, countryCode, subCode, r.value)
    ensures r.Some? <==>
      && FindCountry(region.countries, countryCode).Some?
      && FindCountry(region.countries, countryCode).value.subRegions.Some?
      && exists s :: s in FindCountry(region.countries, countryCode).value.subRegions.value && s.code == subCode
    ensures (forall c :: c in region.countries && c.code == countryCode ==> c.subRegions.None?) ==> r.None?
  {
    match FindCountry(region.countries, countryCode)
    case None => None
    case Some(country) =>
      if country.subRegions.None? then None
      else
        match FindSubRegion(country.subRegions.value, subCode)
        case None => None
        case Some(sr) =>
          assert SubRegion(subCode, sr.name) == sr;
          Some(sr.name)
  }

  /** The dashed-code search over the regions, in order, stopping at the first hit. */
  function SubRegionName(tree: seq<Region>, countryCode: string, subCode: string): (r: Option<string>)
    ensures r.None? <==> forall k :: 0 <= k < |tree| ==> SubRegionIn(tree[k], countryCode, subCode).None?
    ensures r.Some? ==> exists k :: 0 <= k < |tree| && NamesSubRegion(tree[k], countryCode, subCode, r.value)
  {
    if tree == [] then None
    else
      var here := SubRegionIn(tree[0], countryCode, subCode);
      if here.Some? then here
      else
        var r := SubRegionName(tree[1..], countryCode, subCode);
        assert forall k :: 0 < k < |tree| ==> tree[k] == tree[1..][k - 1];
        r
  }

  /** The first region that yields a sub-region name decides the dashed search. */
  lemma {:induction false} SubRegionNameFirst(tree: seq<Region>, countryCode: string, subCode: string, k: nat)
    requires k < |tree| && SubRegionIn(tree[k], countryCode, subCode).Some?
    requires forall j :: 0 <= j < k ==> SubRegionIn(tree[j], countryCode, subCode).None?
    ensures SubRegionName(tree, countryCode, subCode) == SubRegionIn(tree[k], countryCode, subCode)
  {
    if k > 0 {
      assert SubRegionIn(tree[0], countryCode, subCode).None?;
      assert tree[1..][k - 1] == tree[k];
      assert forall j :: 0 <= j < k - 1 ==> tree[1..][j] == tree[j + 1];
      SubRegionNameFirst(tree[1..], countryCode, subCode, k - 1);
    }
  }

  /** The plain-code search: the name of the first country with the code, scanning
      the regions in order. */
  function CountryName(tree: seq<Region>, code: string): (r: Option<string>)
    ensures r.None? <==> forall k, c :: 0 <= k < |tree| && c in tree[k].countries ==> c.code != code
    ensures r.Some? ==> exists k, c :: 0 <= k < |tree| && c in tree[k].countries && c.code == code && c.name == r.value
  {
    if tree == [] then None
    else
      var here := FindCountry(tree[0].countries, code);
      if here.Some? then Some(here.value.name)
      else
        var r := CountryName(tree[1..], code);
        assert forall k :: 0 < k < |tree| ==> tree[k] == tree[1..][k - 1];
        r
  }

  /** The country part and the sub-region part of a dashed code: the first two
      pieces of `code.split('-')`. */
  function DashParts(code: string): (r: (string, string))
    requires '-' in code
    ensures code == r.0 + "-" + AfterFirst(code, '-') && '-' !in r.0
    ensures r.1 <= AfterFirst(code, '-') && '-' !in r.1
  {
    SplitAtFirst(code, '-');
    (FirstPiece(code, '-'), FirstPiece(AfterFirst(code, '-'), '-'))
  }

  /** `resolveCode`, over any region tree: a dashed code becomes the name of a
      matching sub-region or stays as it is, never a country name; a plain code
      becomes the name of a country carrying it or stays as it is. */
  function ResolveIn(tree: seq<Region>, code: string): (r: string)
    ensures '-' in code ==>
      r == code || exists k :: 0 <= k < |tree| && NamesSubRegion(tree[k], DashParts(code).0, DashParts(code).1, r)
    ensures '-' !in code ==>
      r == code || exists k, c :: 0 <= k < |tree| && c in tree[k].countries && c.code == code && c.name == r
  {
    if '-' in code then
      var (cc, sc) := DashParts(code);
      SubRegionName(tree, cc, sc).GetOr(code)
    else
      CountryName(tree, code).GetOr(code)
  }

  /** `resolveCode` over the static region tree. */
  function ResolveCode(code: string): string {
    ResolveIn(Regions, code)
  }

  /** A plain code resolves to the name of the first country carrying it, scanning
      regions in order and countries in order. */
  lemma ResolvePlainCode(tree: seq<Region>, code: string, k: nat, i: nat)
    requires '-' !in code
    requires k < |tree| && i < |tree[k].countries| && tree[k].countries[i].code == code
    requires forall j, c :: 0 <= j < k && c in tree[j].countries ==> c.code != code
    requires forall j :: 0 <= j < i ==> tree[k].countries[j].code != code
    ensures ResolveIn(tree, code) == tree[k].countries[i].name
  {
    FindCountryFirst(tree[k].countries, i);
    CountryNameFirst(tree, code, k);
  }

  lemma {:induction false} CountryNameFirst(tree: seq<Region>, code: string, k: nat)
    requires k < |tree| && FindCountry(tree[k].countries, code).Some?
    requires forall j, c :: 0 <= j < k && c in tree[j].countries ==> c.code != code
    ensures CountryName(tree, code) == Some(FindCountry(tree[k].countries, code).value.name)
  {
    if k > 0 {
      assert FindCountry(tree[0].countries, code).None?;
      assert tree[1..][k - 1] == tree[k];
      CountryNameFirst(tree[1..], code, k - 1);
    }
  }

  /** A dashed code resolves to the name of the first sub-region with its
      sub-region part, under the first country with its country part, in the first
      region where that search succeeds. */
  lemma ResolveDashedCode(tree: seq<Region>, code: string, k: nat, i: nat, m: nat)
    requires '-' in code
    requires k < |tree| && i < |tree[k].countries|
    requires tree[k].countries[i].code == DashParts(code).0
    requires forall j :: 0 <= j < i ==> tree[k].countries[j].code != DashParts(code).0
    requires tree[k].countries[i].subRegions.Some?
    requires m < |tree[k].countries[i].subRegions.value|
    requires tree[k].countries[i].subRegions.value[m].code == DashParts(code).1
    requires forall j :: 0 <= j < m ==> tree[k].countries[i].subRegions.value[j].code != DashParts(code).1
    requires forall j :: 0 <= j < k ==> SubRegionIn(tree[j], DashParts(code).0, DashParts(code).1).None?
    ensures ResolveIn(tree, code) == tree[k].countries[i].subRegions.value[m].name
  {
    var (cc, sc) := DashParts(code);
    var subs := tree[k].countries[i].subRegions.value;
    FindCountryFirst(tree[k].countries, i);
    FindSubRegionFirst(subs, m);
    assert SubRegionIn(tree[k], cc, sc) == Some(subs[m].name);
    SubRegionNameFirst(tree, cc, sc, k);
  }

  /** `resolveCode` is total: a plain code that no country carries, and a dashed
      code whose country part no country carries, come back unchanged. */
  lemma UnknownCodeUnchanged(tree: seq<Region>, code: string)
    requires forall k, c :: 0 <= k < |tree| && c in tree[k].countries
                ==> c.code != (if '-' in code then DashParts(code).0 else code)
    ensures ResolveIn(tree, code) == code
  {
  }

  /** A tree in which no country lists sub-regions. */
  predicate NoSubRegions(tree: seq<Region>) {
    forall k, c :: 0 <= k < |tree| && c in tree[k].countries ==> c.subRegions.None?
  }

  /** Without sub-region lists every dashed code is shown as it is stored. */
  lemma DashedCodeUnresolved(tree: seq<Region>, code: string)
    requires NoSubRegions(tree) && '-' in code
    ensures ResolveIn(tree, code) == code
  {
  }

  /** The static tree has no sub-region lists, so every dashed code (a state or
      province code such as "US-CA") is shown verbatim. */
  lemma StaticDashedCodesVerbatim(code: string)
    requires '-' in code
    ensures ResolveCode(code) == code
  {
    StaticTreeHasNoSubRegions();
    DashedCodeUnresolved(Regions, code);
  }

  /** None of the static countries lists sub-regions. */
  lemma StaticTreeHasNoSubRegions()
    ensures NoSubRegions(Regions)
  {
    forall k, c | 0 <= k < |Regions| && c in Regions[k].countries
      ensures c.subRegions.None?
    {
      var i :| 0 <= i < |Regions[k].countries| && Regions[k].countries[i] == c;
    }
  }

  /** On the static tree: a country code shows its country's name, a state code
      shows as stored. */
  lemma StaticLabels()
    ensures ResolveCode("US") == "United States"
    ensures ResolveCode("US-CA") == "US-CA"
  {
    ResolvePlainCode(Regions, "US", 0, 0);
    StaticDashedCodesVerbatim("US-CA");
  }

  // ---------------------------------------------------------------------------
  // The selected codes and their count
  // ---------------------------------------------------------------------------

  /** `impactedRegions.flatMap((r) => r.countries)`. */
  function AllSelectedCodes(regions: seq<ImpactedLocation>): seq<string> {
    if regions == [] then []
    else AllSelectedCodes(regions[..|regions| - 1]) + regions[|regions| - 1].countries
  }

  /** `totalSelected`. */
  function TotalSelected(regions: seq<ImpactedLocation>): nat {
    |AllSelectedCodes(regions)|
  }

  /** Flattening distributes over concatenation: records keep their order. */
  lemma {:induction false} AllSelectedCodesConcat(a: seq<ImpactedLocation>, b: seq<ImpactedLocation>)
    ensures AllSelectedCodes(a + b) == AllSelectedCodes(a) + AllSelectedCodes(b)
    decreases |b|
  {
    if b != [] {
      var b' := b[..|b| - 1];
      assert (a + b)[..|a + b| - 1] == a + b';
      assert (a + b)[|a + b| - 1] == b[|b| - 1];
      AllSelectedCodesConcat(a, b');
      AppendAssoc(AllSelectedCodes(a), AllSelectedCodes(b'), b[|b| - 1].countries);
      assert AllSelectedCodes(a + b) == AllSelectedCodes(a + b') + b[|b| - 1].countries;
      assert AllSelectedCodes(b) == AllSelectedCodes(b') + b[|b| - 1].countries;
    } else {
      assert a + b == a;
    }
  }

  /** A code is among the flattened codes iff some record lists it. */
  lemma {:induction false} AllSelectedCodesMembership(regions: seq<ImpactedLocation>, c: string)
    ensures c in AllSelectedCodes(regions) <==> exists i :: 0 <= i < |regions| && c in regions[i].countries
  {
    if regions != [] {
      var init := regions[..|regions| - 1];
      AllSelectedCodesMembership(init, c);
      assert forall i :: 0 <= i < |init| ==> init[i] == regions[i];
    }
  }

  /** The count is the sum of the record lengths, so with non-empty records it is
      zero exactly when there is no record. */
  lemma {:induction false} NothingSelectedIffNoRecord(regions: seq<ImpactedLocation>)
    requires NonEmptyLists(regions)
    ensures TotalSelected(regions) == 0 <==> regions == []
  {
    if regions != [] {
      assert regions[|regions| - 1].countries != [];
    }
  }

  lemma {:induction false} TotalOfOne(x: ImpactedLocation)
    ensures AllSelectedCodes([x]) == x.countries
  {
    assert [x][..0] == [];
  }

  /** Replacing one record changes the count by the difference of the lists. */
  lemma TotalAfterUpdate(regions: seq<ImpactedLocation>, idx: nat, x: ImpactedLocation)
    requires idx < |regions|
    ensures TotalSelected(regions[idx := x]) + |regions[idx].countries| == TotalSelected(regions) + |x.countries|
  {
    var pre, post := regions[..idx], regions[idx + 1..];
    assert regions == pre + [regions[idx]] + post;
    assert regions[idx := x] == pre + [x] + post;
    AllSelectedCodesConcat(pre + [regions[idx]], post);
    AllSelectedCodesConcat(pre, [regions[idx]]);
    AllSelectedCodesConcat(pre + [x], post);
    AllSelectedCodesConcat(pre, [x]);
    TotalOfOne(x);
    TotalOfOne(regions[idx]);
  }

  /** Removing one record lowers the count by its list's length. */
  lemma TotalAfterRemove(regions: seq<ImpactedLocation>, idx: nat)
    requires idx < |regions|
    ensures TotalSelected(regions[..idx] + regions[idx + 1..]) + |regions[idx].countries| == TotalSelected(regions)
  {
    var pre, post := regions[..idx], regions[idx + 1..];
    assert regions == pre + [regions[idx]] + post;
    AllSelectedCodesConcat(pre + [regions[idx]], post);
    AllSelectedCodesConcat(pre, [regions[idx]]);
    AllSelectedCodesConcat(pre, post);
    TotalOfOne(regions[idx]);
  }

  /** Checking a country raises "n locations selected" by one unless it was
      already selected. */
  lemma TotalAfterCheck(regions: seq<ImpactedLocation>, regionId: string, code: string)
    requires WellFormed(regions)
    ensures TotalSelected(ToggleRegionIn(regions, regionId, code, true))
         == TotalSelected(regions) + (if code in CountriesOf(regions, regionId) then 0 else 1)
  {
    var idx := FindRegionIndex(regions, regionId);
    if idx == -1 {
      AllSelectedCodesConcat(regions, [ImpactedLocation(regionId, [code])]);
      TotalOfOne(ImpactedLocation(regionId, [code]));
    } else if code !in regions[idx].countries {
      TotalAfterUpdate(regions, idx, regions[idx].(countries := regions[idx].countries + [code]));
    }
  }

  /** Unchecking a country lowers the count by one if it was selected. */
  lemma TotalAfterUncheck(regions: seq<ImpactedLocation>, regionId: string, code: string)
    requires WellFormed(regions)
    ensures TotalSelected(ToggleRegionIn(regions, regionId, code, false)) + (if code in CountriesOf(regions, regionId) then 1 else 0)
         == TotalSelected(regions)
  {
    var idx := FindRegionIndex(regions, regionId);
    if idx != -1 {
      var rest := Without(regions[idx].countries, code);
      if code in regions[idx].countries {
        WithoutLength(regions[idx].countries, code);
      }
      if rest == [] {
        TotalAfterRemove(regions, idx);
      } else {
        TotalAfterUpdate(regions, idx, regions[idx].(countries := rest));
      }
    }
  }

  // ---------------------------------------------------------------------------
  // What the section shows
  // ---------------------------------------------------------------------------

  /** The "No regions selected yet" text is shown instead of chips. */
  function ShowsEmptyState(regions: seq<ImpactedLocation>): bool {
    TotalSelected(regions) == 0
  }

  /** One chip per selected code, in record order, each labelled by `resolveCode`. */
  function ChipLabels(regions: seq<ImpactedLocation>): (r: seq<string>)
    ensures |r| == TotalSelected(regions)
    ensures forall i :: 0 <= i < |r| ==> r[i] == ResolveCode(AllSelectedCodes(regions)[i])
  {
    var codes := AllSelectedCodes(regions);
    seq(|codes|, i requires 0 <= i < |codes| => ResolveCode(codes[i]))
  }

  /** The empty state and the chips exclude each other; in a well-formed list the
      empty state means no record at all. */
  lemma EmptyStateOrChips(regions: seq<ImpactedLocation>)
    requires WellFormed(regions)
    ensures ShowsEmptyState(regions) <==> ChipLabels(regions) == []
    ensures ShowsEmptyState(regions) <==> regions == []
  {
    NothingSelectedIffNoRecord(regions);
  }

  /** The count caption above the accordions. */
  function LocationsCaption(regions: seq<ImpactedLocation>): (r: string)
    ensures Strings.LeadingNumber(r) == TotalSelected(regions)
  {
    UiLabels.LocationsSelected(TotalSelected(regions))
  }

  /** A peril chip is drawn filled iff the peril is in the list. */
  function PerilSelected(perils: seq<string>, peril: string): bool {
    peril in perils
  }

  /** Clicking a peril chip flips its own filled state and no other chip's. */
  lemma PerilChipFlips(perils: seq<string>, peril: string)
    requires NoDup(perils)
    ensures PerilSelected(TogglePerilIn(perils, peril), peril) == !PerilSelected(perils, peril)
    ensures forall p :: p != peril ==> PerilSelected(TogglePerilIn(perils, peril), p) == PerilSelected(perils, p)
  {
    TogglePerilFlips(perils, peril);
  }
}
