# Create-event wizard: a Dafny model

This project models the core of a five-step wizard for recording a
catastrophe event. The wizard is a React page backed by a Redux slice.

- **Store.** The `createEvent` slice holds the form data, the current step and
  the dirty/submitting flags. Its reducers toggle country selections per region,
  toggle perils, add and remove external sources, and move between steps.
  `EventStore` is a class whose fields the reducers update in place.
- **Page.** The handlers the page passes to its sections and layout. The
  per-section `isActive` flags.
- **Scroll-spy.** The observer in the page template keeps the latest
  intersection ratio per step in insertion order and reports the most visible
  step. `ScrollSpy` is a class over that ordered map.
- **Region accordion.** The all/some/none checkbox state of one region. Its
  aggregate toggle is a loop of `toggleRegion` dispatches, modelled as a loop
  over the store.
- **Impact regions section.** `resolveCode` turns a stored code into a label.
  The section also computes the flattened list of selected codes, the chips,
  the empty state, the count caption and the peril chips.
- **Event identity section.** Sub-types follow the chosen event type. Changing
  the type clears the sub-type. Only the editable identity fields are written.
- **Deadlines section.** The team and area catalogues are filtered to the chosen
  ids, in catalogue order. A notification summary shows groups with counts, and
  a team's lead is the trimmed first name of its member list.
- **Smaller components.**
  - The footer: Back disabled on step 1, Submit on the last step, the
    "Step n of N" indicator.
  - The sidebar step item: complete/active/inactive, with Enter or a click
    selecting the step.
  - The multi-select: Select All/Deselect All, and the "a, b +k more" summary.
- **Constants.** The label builders of `uiLabels.ts` (counts with singular and
  plural nouns) and the static region, peril and event-type catalogues.

Each pure computation is a function. Each reducer and each handler that
dispatches is a method whose `ensures` gives the whole new store state as a
function of the old one. Lemmas about those functions carry the properties.

Notes on the source:

- **Sub-regions.** `resolveCode` reads `country?.subRegions`, but no country in
  the static `REGIONS` lists sub-regions. Every dashed code (`"US-CA"`) is
  therefore shown verbatim, which `ImpactRegionsSection.StaticDashedCodesVerbatim`
  proves. `Country` carries an optional sub-region list so that
  `ImpactRegionsSection.ResolveIn` models the search over any tree.
- **`setStep`.** The comment on `setStep` calls it back-navigation. It accepts
  any target from 1 to 5, and the page's sidebar handler and the scroll-spy both
  use it unchanged. The model follows the code.
- **Deadlines callbacks.** The deadlines section expects toggle callbacks for
  teams and areas and the fields `functionalTeams` and `executiveAreas`. Neither
  the page nor `EventFormData` supplies them. The model takes the catalogues and
  the chosen ids as parameters. It says what each card asks for, not which
  reducer would handle it.

## Model

| member | source | states |
|---|---|---|
| CreateEventSlice.FindRegionIndex | src/store/slices/createEventSlice.ts:43 | -1 exactly when no record carries the region id; otherwise the index of the first record that does |
| CreateEventSlice.Without | src/store/slices/createEventSlice.ts:55-57 | the filtered list holds exactly the codes other than the removed one, and is the list itself when the code is absent |
| CreateEventSlice.WithoutLength | src/store/slices/createEventSlice.ts:55-57 | in a list without repeats that contains the code, the filter removes exactly one entry |
| CreateEventSlice.NoRecordIffEmpty | src/store/slices/createEventSlice.ts:58-60 | in a well-formed list a region has no record iff its selection is empty, and a selection never repeats a code |
| CreateEventSlice.ToggleRegionKeepsWellFormed | src/store/slices/createEventSlice.ts:41-62 | toggling keeps one record per region, no empty country list and no repeated code |
| CreateEventSlice.CheckRegionSelection | src/store/slices/createEventSlice.ts:45-52 | checking appends the code to the region's selection, or leaves it unchanged when the code is already there |
| CreateEventSlice.UncheckRegionSelection | src/store/slices/createEventSlice.ts:53-61 | unchecking leaves the region's selection minus the code; a record left empty disappears |
| CreateEventSlice.ToggleRegionOtherRegion | src/store/slices/createEventSlice.ts:41-62 | a toggle never changes another region's selection |
| CreateEventSlice.ToggleRegionAddIdempotent | src/store/slices/createEventSlice.ts:45-52 | checking the same code twice equals checking it once |
| CreateEventSlice.ToggleRegionWithoutRecord | src/store/slices/createEventSlice.ts:45-62 | a region without a record gains one at the end holding the code; unchecking in such a region changes nothing |
| CreateEventSlice.CheckThenUncheckRestores | src/store/slices/createEventSlice.ts:45-62 | checking a code in a region without a record and unchecking it again restores the list |
| CreateEventSlice.ApplyChangesKeepsWellFormed | src/store/slices/createEventSlice.ts:41-62 | any sequence of toggles keeps the region list well-formed |
| CreateEventSlice.ApplyChangesOtherRegions | src/store/slices/createEventSlice.ts:41-62 | toggles aimed at other regions leave a region's selection unchanged |
| CreateEventSlice.IndexOf | src/store/slices/createEventSlice.ts:69 | -1 iff the peril is absent; otherwise the position of its first occurrence |
| CreateEventSlice.TogglePerilFlips | src/store/slices/createEventSlice.ts:67-76 | the toggled peril's membership flips, every other peril keeps its membership, and no peril is repeated |
| CreateEventSlice.TogglePerilTwiceRestores | src/store/slices/createEventSlice.ts:67-76 | toggling the same peril twice restores the list |
| CreateEventSlice.RemoveSourceFrom | src/store/slices/createEventSlice.ts:107-112 | keeps exactly the sources whose id differs, and the list itself when no source has the id |
| CreateEventSlice.RemoveSourceFromConcat | src/store/slices/createEventSlice.ts:107-112 | removing from a concatenation removes from each part, so order is kept |
| CreateEventSlice.RemoveSourceIdempotent | src/store/slices/createEventSlice.ts:107-112 | removing an id twice equals removing it once |
| CreateEventSlice.RemoveAddedSource | src/store/slices/createEventSlice.ts:101-112 | adding a source with a fresh id and then removing that id restores the list |
| CreateEventSlice.SetStepValue | src/store/slices/createEventSlice.ts:79-84 | an in-range target becomes the step; any other target leaves it unchanged |
| CreateEventSlice.NextStepValue | src/store/slices/createEventSlice.ts:87-91 | one step forward below the last step, unchanged at or past it, and never out of range |
| CreateEventSlice.PrevStepValue | src/store/slices/createEventSlice.ts:94-98 | one step back above step 1, unchanged at or below it, and never out of range |
| CreateEventSlice.NextThenPrev | src/store/slices/createEventSlice.ts:87-98 | Back undoes Next on every step but the last |
| CreateEventSlice.InitialStateValid | src/store/slices/createEventSlice.ts:14-19 | the initial state is on step 1 with an empty, well-formed selection |
| CreateEventSlice.EventStore.constructor | src/store/slices/createEventSlice.ts:14-19 | a new store holds the initial state |
| CreateEventSlice.EventStore.UpdateField | src/store/slices/createEventSlice.ts:27-34 | writes one string field, marks the form dirty, and changes nothing else |
| CreateEventSlice.EventStore.ToggleRegion | src/store/slices/createEventSlice.ts:37-64 | the region list becomes the toggled list, the form is dirty, and nothing else changes |
| CreateEventSlice.EventStore.TogglePeril | src/store/slices/createEventSlice.ts:67-76 | the peril list becomes the toggled list, the form is dirty, and nothing else changes |
| CreateEventSlice.EventStore.SetStep | src/store/slices/createEventSlice.ts:79-84 | moves to an in-range target and changes nothing else, not even the dirty flag |
| CreateEventSlice.EventStore.NextStep | src/store/slices/createEventSlice.ts:87-91 | advances the step as NextStepValue says and changes nothing else |
| CreateEventSlice.EventStore.PrevStep | src/store/slices/createEventSlice.ts:94-98 | moves back as PrevStepValue says and changes nothing else |
| CreateEventSlice.EventStore.AddExternalSource | src/store/slices/createEventSlice.ts:101-104 | appends the source, marks the form dirty, and changes nothing else |
| CreateEventSlice.EventStore.RemoveExternalSource | src/store/slices/createEventSlice.ts:107-112 | filters out the id, marks the form dirty, and changes nothing else |
| CreateEventSlice.EventStore.SetSubmitting | src/store/slices/createEventSlice.ts:115-117 | sets only the submitting flag |
| CreateEventSlice.EventStore.ResetForm | src/store/slices/createEventSlice.ts:120-122 | the whole state returns to the initial state |
| RegionAccordion.SomeSelected | src/components/molecules/RegionAccordion/index.tsx:25-26 | indeterminate iff some but not every country is selected; never together with the checked flag |
| RegionAccordion.CountryChecked | src/components/molecules/RegionAccordion/index.tsx:72 | a country box is checked iff its code is in the region's selection |
| RegionAccordion.CountryChange | src/components/molecules/RegionAccordion/index.tsx:73 | a country box emits its own region, its own code and its new checked state |
| RegionAccordion.SelectedCaption | src/components/molecules/RegionAccordion/index.tsx:58-62 | the "n selected" caption is shown iff at least one country is selected, and names that count |
| RegionAccordion.UncheckEach | src/components/molecules/RegionAccordion/index.tsx:30 | one uncheck per country of the region, in region order |
| RegionAccordion.MissingCodesOutsideSelection | src/components/molecules/RegionAccordion/index.tsx:32-34 | no missing code is already selected |
| RegionAccordion.CheckMissingChecksMissing | src/components/molecules/RegionAccordion/index.tsx:32-34 | one check per country not yet selected, in region order |
| RegionAccordion.AggregateChangesNameRegion | src/components/molecules/RegionAccordion/index.tsx:28-36 | every change the aggregate toggle emits names the row's own region |
| RegionAccordion.HandleRegionToggle | src/components/molecules/RegionAccordion/index.tsx:28-36 | the store ends as the aggregate changes applied one by one to the old region list; it is dirty iff it was or a change was made |
| RegionAccordion.UncheckAll | src/components/molecules/RegionAccordion/index.tsx:30 | the loop leaves the store as every uncheck applied in order |
| RegionAccordion.CheckRemaining | src/components/molecules/RegionAccordion/index.tsx:32-34 | the loop leaves the store as every check of a missing country applied in order |
| RegionAccordion.UncheckEachEffect | src/components/molecules/RegionAccordion/index.tsx:30 | unchecking every country removes exactly the region's codes from its selection and keeps the list well-formed |
| RegionAccordion.CheckMissingEffect | src/components/molecules/RegionAccordion/index.tsx:32-34 | checking the missing countries appends them to the selection in region order |
| RegionAccordion.MissingCodesExact | src/components/molecules/RegionAccordion/index.tsx:32-34 | the missing codes are the region's codes outside the selection, each once |
| RegionAccordion.DeselectAllRemovesRecord | src/components/molecules/RegionAccordion/index.tsx:29-30 | with every country selected, the toggle removes the region's record and keeps every other region |
| RegionAccordion.SelectRemainingSelectsAll | src/components/molecules/RegionAccordion/index.tsx:31-35 | otherwise the toggle appends the missing codes after the old selection, in region order, and ends with every country of the region selected |
| RegionAccordion.ToggleTwiceFromNone | src/components/molecules/RegionAccordion/index.tsx:28-36 | from no selection, two toggles leave no record for the region and every other region unchanged |
| ImpactRegionsSection.FindCountry | src/components/organisms/ImpactRegionsSection/index.tsx:21 | None iff no country has the code; otherwise a listed country with that code |
| ImpactRegionsSection.FindCountryFirst | src/components/organisms/ImpactRegionsSection/index.tsx:30 | the search returns the first country carrying the code |
| ImpactRegionsSection.FindSubRegion | src/components/organisms/ImpactRegionsSection/index.tsx:23 | None iff no sub-region has the code; otherwise a listed sub-region with that code |
| ImpactRegionsSection.FindSubRegionFirst | src/components/organisms/ImpactRegionsSection/index.tsx:23 | the search returns the first sub-region carrying the code |
| ImpactRegionsSection.SubRegionIn | src/components/organisms/ImpactRegionsSection/index.tsx:21-25 | a name is found iff the first country with the code has a sub-region list holding a sub-region with the sub-code; a found name belongs to such a sub-region |
| ImpactRegionsSection.SubRegionName | src/components/organisms/ImpactRegionsSection/index.tsx:20-26 | found iff some region yields a name; a found name names a sub-region of a matching country |
| ImpactRegionsSection.SubRegionNameFirst | src/components/organisms/ImpactRegionsSection/index.tsx:20-26 | the name comes from the first region that yields one |
| ImpactRegionsSection.CountryName | src/components/organisms/ImpactRegionsSection/index.tsx:29-32 | found iff some country carries the code; the result is the name of such a country |
| ImpactRegionsSection.DashParts | src/components/organisms/ImpactRegionsSection/index.tsx:19 | the first piece is the text before the first dash; the second is the start of the rest, up to the next dash |
| ImpactRegionsSection.ResolveIn | src/components/organisms/ImpactRegionsSection/index.tsx:17-34 | a dashed code becomes a matching sub-region's name or stays itself; a plain code becomes a matching country's name or stays itself |
| ImpactRegionsSection.ResolveDashedCode | src/components/organisms/ImpactRegionsSection/index.tsx:18-25 | a dashed code whose country part and sub-region part are both found resolves to exactly that sub-region's name (first matching country, first matching sub-region, first region that yields one) |
| ImpactRegionsSection.ResolvePlainCode | src/components/organisms/ImpactRegionsSection/index.tsx:29-32 | a plain code resolves to the name of the first country carrying it, scanning regions in order |
| ImpactRegionsSection.CountryNameFirst | src/components/organisms/ImpactRegionsSection/index.tsx:29-32 | the first region that has the code decides the name |
| ImpactRegionsSection.UnknownCodeUnchanged | src/components/organisms/ImpactRegionsSection/index.tsx:33 | a plain code that no country carries is shown as it is |
| ImpactRegionsSection.DashedCodeUnresolved | src/components/organisms/ImpactRegionsSection/index.tsx:27 | in a tree without sub-region lists, a dashed code is shown as it is |
| ImpactRegionsSection.StaticDashedCodesVerbatim | src/components/organisms/ImpactRegionsSection/index.tsx:18-28 | over the static regions, every dashed code is shown verbatim |
| ImpactRegionsSection.StaticLabels | src/components/organisms/ImpactRegionsSection/index.tsx:17-34 | over the static regions, "US" shows "United States" and "US-CA" shows "US-CA" |
| ImpactRegionsSection.AllSelectedCodesConcat | src/components/organisms/ImpactRegionsSection/index.tsx:50 | flattening a concatenation flattens each part, so record order is kept |
| ImpactRegionsSection.AllSelectedCodesMembership | src/components/organisms/ImpactRegionsSection/index.tsx:50 | a code is among the flattened codes iff some record lists it |
| ImpactRegionsSection.NothingSelectedIffNoRecord | src/components/organisms/ImpactRegionsSection/index.tsx:50-51 | with non-empty records the total is 0 iff there is no record |
| ImpactRegionsSection.TotalAfterUpdate | src/components/organisms/ImpactRegionsSection/index.tsx:51 | replacing one record changes the total by the difference of the list lengths |
| ImpactRegionsSection.TotalAfterRemove | src/components/organisms/ImpactRegionsSection/index.tsx:51 | removing one record lowers the total by its list's length |
| ImpactRegionsSection.TotalAfterCheck | src/components/organisms/ImpactRegionsSection/index.tsx:51 | checking a country raises the total by one unless it was already selected |
| ImpactRegionsSection.TotalAfterUncheck | src/components/organisms/ImpactRegionsSection/index.tsx:51 | unchecking a country lowers the total by one iff it was selected |
| ImpactRegionsSection.ChipLabels | src/components/organisms/ImpactRegionsSection/index.tsx:76-80 | one chip per selected code, in record order, labelled by resolveCode |
| ImpactRegionsSection.EmptyStateOrChips | src/components/organisms/ImpactRegionsSection/index.tsx:71-81 | the empty-state text shows iff there are no chips, iff the region list is empty |
| ImpactRegionsSection.LocationsCaption | src/components/organisms/ImpactRegionsSection/index.tsx:92 | the caption reads back as the number of selected locations |
| ImpactRegionsSection.PerilChipFlips | src/components/organisms/ImpactRegionsSection/index.tsx:115-121 | clicking a peril chip flips its own filled state and no other chip's |
| CreateEventTemplate.StoredStep | src/components/templates/CreateEventTemplate/index.tsx:55-56 | an entry is recorded iff its step is a number other than 0 |
| CreateEventTemplate.RecordKeepsOrder | src/components/templates/CreateEventTemplate/index.tsx:54-57 | recording keeps the ordered map consistent and never moves an already stored step; step 0 is never stored |
| CreateEventTemplate.LatestRatioWins | src/components/templates/CreateEventTemplate/index.tsx:54-57 | a step's stored ratio is that of its latest entry in the batch |
| CreateEventTemplate.UnreportedRatioKept | src/components/templates/CreateEventTemplate/index.tsx:54-57 | a step no entry names keeps its presence and its ratio |
| CreateEventTemplate.BestIndex | src/components/templates/CreateEventTemplate/index.tsx:60-67 | the scan ends on the first position holding the largest ratio, or on none when no ratio exceeds -1 |
| CreateEventTemplate.ReportCharacterized | src/components/templates/CreateEventTemplate/index.tsx:59-69 | a step is reported iff some ratio is positive; it is stored, maximal, and first in insertion order among equal ratios |
| CreateEventTemplate.NothingVisibleNoReport | src/components/templates/CreateEventTemplate/index.tsx:69 | when no ratio is positive, nothing is reported |
| CreateEventTemplate.ScrollSpy.constructor | src/components/templates/CreateEventTemplate/index.tsx:50 | a new observer map is empty |
| CreateEventTemplate.ScrollSpy.Set | src/components/templates/CreateEventTemplate/index.tsx:56 | sets the ratio; a new step goes last and an existing step keeps its place |
| CreateEventTemplate.ScrollSpy.BestStep | src/components/templates/CreateEventTemplate/index.tsx:60-69 | the loop's result is the specified report: a stored step with a positive, maximal ratio |
| CreateEventTemplate.ScrollSpy.Observe | src/components/templates/CreateEventTemplate/index.tsx:53-69 | the map ends as every usable entry recorded in order, and the report is taken from that map |
| CreateEventPage.NavigationStaysInRange | src/pages/CreateEventPage/index.tsx:62-85 | whatever sequence of Next, Back, sidebar or scroll jumps and resets, the step stays between 1 and 5 |
| CreateEventPage.ActiveFlags | src/pages/CreateEventPage/index.tsx:139-176 | five flags, and exactly the current step's section is active |
| CreateEventPage.HandleFieldChange | src/pages/CreateEventPage/index.tsx:41-46 | dispatches updateField: one field written, the form dirty, nothing else changed |
| CreateEventPage.HandleRegionChange | src/pages/CreateEventPage/index.tsx:48-53 | dispatches toggleRegion with the accordion's arguments |
| CreateEventPage.HandlePerilToggle | src/pages/CreateEventPage/index.tsx:55-60 | dispatches togglePeril |
| CreateEventPage.HandleNext | src/pages/CreateEventPage/index.tsx:62-68 | below the last step it advances; on the last step it submits, which leaves the form and the step as they were |
| CreateEventPage.HandleBack | src/pages/CreateEventPage/index.tsx:70 | dispatches prevStep, which stops at step 1 |
| CreateEventPage.HandleStepClick | src/pages/CreateEventPage/index.tsx:73-75 | the sidebar may move to any in-range step, forward or back |
| CreateEventPage.HandleScrollStep | src/pages/CreateEventPage/index.tsx:130 | a scroll-spy report is a plain setStep |
| CreateEventPage.OnScrollObserved | src/pages/CreateEventPage/index.tsx:130 | one observer callback records the entries and moves the store to the reported step, if any |
| CreateEventPage.HandleClose | src/pages/CreateEventPage/index.tsx:77-80 | the store returns to its initial state |
| CreateEventPage.HandleCancel | src/pages/CreateEventPage/index.tsx:82-85 | the store returns to its initial state |
| CreateEventPage.HandleAddSource | src/pages/CreateEventPage/index.tsx:95-98 | dispatches addExternalSource |
| CreateEventPage.HandleRemoveSource | src/pages/CreateEventPage/index.tsx:100-103 | dispatches removeExternalSource |
| CreateEventPage.HandlePublish | src/pages/CreateEventPage/index.tsx:105-113 | the submitting flag is raised and lowered again, so the store ends with it cleared and otherwise unchanged |
| CreateEventPage.HandleSubmit | src/pages/CreateEventPage/index.tsx:115-123 | the submitting flag is raised and lowered again, so the store ends with it cleared and otherwise unchanged |
| FormFooter.Render | src/components/organisms/FormFooter/index.tsx:17-38 | Back is disabled iff on step 1; the button reads Submit iff on the last step and Next otherwise; the arrow shows iff it reads Next; the indicator is "Step n of 5" |
| FormFooter.BackDisabledIffBackStays | src/components/organisms/FormFooter/index.tsx:27 | within range, Back is disabled exactly where prevStep would not move |
| FormFooter.SubmitIffNextStays | src/components/organisms/FormFooter/index.tsx:36 | within range, the button reads Submit exactly where nextStep would not move |
| FormFooter.IndicatorNamesStep | src/components/organisms/FormFooter/index.tsx:32 | two different steps never show the same indicator |
| StepNavItem.VariantOf | src/components/molecules/StepNavItem/index.tsx:16-18 | complete iff before the current step, active iff the current step, inactive iff after it |
| StepNavItem.ClassesOf | src/components/molecules/StepNavItem/index.tsx:26-30 | each class is applied iff its variant holds |
| StepNavItem.OneClass | src/components/molecules/StepNavItem/index.tsx:26-30 | exactly one of the three classes is applied |
| StepNavItem.Captions | src/components/molecules/StepNavItem/index.tsx:44-59 | at most one caption: "Active" iff the current step, "Complete" iff an earlier step |
| StepNavItem.OnInput | src/components/molecules/StepNavItem/index.tsx:24-25 | a click or the Enter key selects the item's own step; any other key does nothing |
| StepNavItem.StepIds | src/data/stepConfig.ts:3-9 | the step ids are 1 to 5 in order |
| StepNavItem.OneActiveItem | src/data/stepConfig.ts:3-11 | in the sidebar exactly the current step is active, and exactly the earlier ones are complete |
| AppMultiSelect.AllSelectedMeansEveryOption | src/components/atoms/AppMultiSelect/index.tsx:55 | for values without repeats drawn from the options, the count test means every option is selected |
| AppMultiSelect.SelectAllResult | src/components/atoms/AppMultiSelect/index.tsx:63-66 | the header clears the selection when everything is selected and selects every option otherwise |
| AppMultiSelect.SelectAllTwice | src/components/atoms/AppMultiSelect/index.tsx:63-66 | from a partial selection, one click selects all and a second clears it |
| AppMultiSelect.HeaderLabel | src/components/atoms/AppMultiSelect/index.tsx:104 | "Deselect All" iff everything is selected, "Select All" otherwise |
| AppMultiSelect.CheckboxesFollowHeader | src/components/atoms/AppMultiSelect/index.tsx:63-66 | after a header click each option's box is checked iff the header selected all |
| AppMultiSelect.RenderValue | src/components/atoms/AppMultiSelect/index.tsx:68-73 | the placeholder (by default "Select...") when empty; one or two values joined by ", "; beyond two, the first two followed by " +k more" |
| AppMultiSelect.MoreCountReadsBack | src/components/atoms/AppMultiSelect/index.tsx:70-72 | the "+k more" number reads back as the count of values not shown |
| EventIdentitySection.SubTypes | src/components/organisms/EventIdentitySection/index.tsx:40 | no sub-types for an empty or unknown type; the catalogue's list for a known one |
| EventIdentitySection.SubTypeDisabled | src/components/organisms/EventIdentitySection/index.tsx:130 | disabled iff no event type is chosen; a disabled select has no options, an enabled one on an offered type has some |
| EventIdentitySection.WritableFieldsAreStrings | src/components/organisms/EventIdentitySection/index.tsx:64-74 | status and id are read-only, and no editable field is list-valued |
| EventIdentitySection.AfterTypeChange | src/components/organisms/EventIdentitySection/index.tsx:116-119 | the type is set, the sub-type cleared, every other field kept, and the sub-type is consistent with the type |
| EventIdentitySection.IdentityEditsKeepConsistency | src/components/organisms/EventIdentitySection/index.tsx:83-207 | editing another field, or picking a listed sub-type or the empty placeholder item, keeps the sub-type consistent |
| EventIdentitySection.ChangeEventType | src/components/organisms/EventIdentitySection/index.tsx:116-119 | the two updateField dispatches leave the fields as AfterTypeChange says |
| EventIdentitySection.ChangeIdentityField | src/components/organisms/EventIdentitySection/index.tsx:83-207 | one editable field is written; status and id are untouched |
| DeadlinesTrackingSection.ChosenMembership | src/components/organisms/DeadlinesTrackingSection/index.tsx:34-40 | an entry is selected iff it is in the catalogue and its id is chosen |
| DeadlinesTrackingSection.ChosenInCatalogueOrder | src/components/organisms/DeadlinesTrackingSection/index.tsx:34-40 | the selected entries keep catalogue order, whatever the order of the chosen ids |
| DeadlinesTrackingSection.ChosenConcat | src/components/organisms/DeadlinesTrackingSection/index.tsx:34-40 | filtering a concatenated catalogue filters each part |
| DeadlinesTrackingSection.UnknownIdsIgnored | src/components/organisms/DeadlinesTrackingSection/index.tsx:34-40 | a chosen id that names no catalogue entry changes nothing |
| DeadlinesTrackingSection.ChosenExtremes | src/components/organisms/DeadlinesTrackingSection/index.tsx:34-40 | nothing chosen selects nothing; every id chosen selects the whole catalogue |
| DeadlinesTrackingSection.CheckedFlags | src/components/organisms/DeadlinesTrackingSection/index.tsx:137-145 | one flag per card, set iff the card's id is chosen |
| DeadlinesTrackingSection.CheckedCardsMatchSummary | src/components/organisms/DeadlinesTrackingSection/index.tsx:137-145 | as many cards are checked as the summary lists |
| DeadlinesTrackingSection.TeamCardChange | src/components/organisms/DeadlinesTrackingSection/index.tsx:146 | a team card asks to toggle its own team id |
| DeadlinesTrackingSection.AreaCardChange | src/components/organisms/DeadlinesTrackingSection/index.tsx:177 | an area card asks to toggle its own area id |
| DeadlinesTrackingSection.TeamLead | src/components/organisms/DeadlinesTrackingSection/index.tsx:225 | the lead holds no comma and has no whitespace at either end |
| DeadlinesTrackingSection.TeamLeadIsFirstName | src/components/organisms/DeadlinesTrackingSection/index.tsx:225 | the lead is a contiguous piece of the member list, inside its first comma-separated entry |
| DeadlinesTrackingSection.TeamLeadTrimsWhitespace | src/components/organisms/DeadlinesTrackingSection/index.tsx:225 | only whitespace of the first entry is cut off around the lead |
| DeadlinesTrackingSection.TeamLeadOfList | src/components/organisms/DeadlinesTrackingSection/index.tsx:225 | a list whose first entry is already trimmed names that entry, with or without further entries |
| DeadlinesTrackingSection.SummaryShape | src/components/organisms/DeadlinesTrackingSection/index.tsx:211-244 | the empty-state text shows iff no catalogue team and no catalogue area is chosen; otherwise each group shows iff one of its entries is chosen |
| DeadlinesTrackingSection.TeamGroupReadsBack | src/components/organisms/DeadlinesTrackingSection/index.tsx:217-229 | the team header's count reads back as the number of tags; each tag is the team's name and lead |
| DeadlinesTrackingSection.AreaGroupReadsBack | src/components/organisms/DeadlinesTrackingSection/index.tsx:231-243 | the area header's count reads back as the number of tags; each tag is the area's name and lead |
| UiLabels.Counted | src/constants/uiLabels.ts:174-177 | a count label reads back as its number |
| UiLabels.CountedSingularOnlyAtOne | src/constants/uiLabels.ts:174-177 | the singular noun appears iff the count is 1 |
| UiLabels.CountedPlural | src/constants/uiLabels.ts:174-177 | any other count takes the noun with an "s" |
| UiLabels.LocationsSelected | src/constants/uiLabels.ts:174 | reads back as n |
| UiLabels.LocationsSelectedSingular | src/constants/uiLabels.ts:174 | the label is "1 location selected" iff n is 1 |
| UiLabels.StatesSelected | src/constants/uiLabels.ts:176 | reads back as n |
| UiLabels.StatesSelectedSingular | src/constants/uiLabels.ts:176 | the label is "1 state" iff n is 1 |
| UiLabels.ProvincesSelected | src/constants/uiLabels.ts:177 | reads back as n |
| UiLabels.ProvincesSelectedSingular | src/constants/uiLabels.ts:177 | the label is "1 province" iff n is 1 |
| UiLabels.SelectedCount | src/constants/uiLabels.ts:175 | reads back as n and ends in " selected" |
| UiLabels.StepOf | src/constants/uiLabels.ts:164 | begins with "Step " |
| UiLabels.StepOfReadsBack | src/constants/uiLabels.ts:164 | after "Step " come the current step's digits, the number read there is the current step, and the rest is " of " followed by the total |
| UiLabels.StepOfNamesStep | src/constants/uiLabels.ts:164 | equal indicators name equal steps |
| Strings.NatToStringRoundTrip | src/constants/uiLabels.ts:174-177 | the decimal text of a count denotes that count |
| Strings.LeadingNumberOfLabel | src/constants/uiLabels.ts:174-177 | a label built as a number followed by non-digit text starts with that number |
| Strings.FirstPiece | src/components/organisms/DeadlinesTrackingSection/index.tsx:225 | the first piece of a split is a prefix without the separator, followed in the text by the separator when shorter |
| Strings.SplitAtFirst | src/components/organisms/ImpactRegionsSection/index.tsx:19 | cutting at the first separator loses nothing |
| Strings.SkipForward | src/components/organisms/DeadlinesTrackingSection/index.tsx:225 | the scan stops at the first non-whitespace position and passes only whitespace |
| Strings.SkipBackward | src/components/organisms/DeadlinesTrackingSection/index.tsx:225 | the scan stops after the last non-whitespace position and passes only whitespace |
| Strings.Trim | src/components/organisms/DeadlinesTrackingSection/index.tsx:225 | the trimmed text is the slice between the leading and trailing whitespace, and starts and ends with non-whitespace |
| Strings.TrimOfPrefix | src/components/organisms/DeadlinesTrackingSection/index.tsx:225 | trimming a prefix of a text yields a slice of that text |
| Strings.TrimOfPrefixCutsWhitespace | src/components/organisms/DeadlinesTrackingSection/index.tsx:225 | inside the prefix, only whitespace is cut off around the trimmed slice |
| RegionData.CountryCodes | src/data/regionData.ts:12-69 | the codes of a region's countries, in order |

## Left out

- Rendering: markup, MUI components, CSS classes and icons. Only the values the
  components compute from their props are modelled.
- The page's navigation to `/` after Close and Cancel, and the `console.info`
  calls of Save Draft, Export PDF, Publish and Submit. These are I/O. Save Draft
  and Export PDF only log, so they have no model.
- Asynchrony of `handlePublish` and `handleSubmit`: their `try`/`finally` is
  modelled as the two dispatches in sequence.
- The browser's `IntersectionObserver`: the root element, refs, thresholds and
  the timing of callbacks. A callback is modelled as receiving a batch of
  entries.
- `Number(dataset.step)` for non-integer numeric text. An entry's step is an
  integer, or None when the attribute is missing or not a number.
- CreateEventTemplate.ScrollSpy: ratios are `real`. Floating-point rounding of
  intersection ratios is not modelled.
- `stopPropagation` and `preventDefault` in the accordion and multi-select event
  handlers: they only affect browser event dispatch.
- The progress tracker's percentage and the sidebar's other presentational
  details, which are context, not core.
- `updateField` writing a list-valued key. The section handlers only write
  string fields. CreateEventSlice.EventStore.UpdateField therefore requires a
  field other than `impactedRegions`, `perils` and `externalSources`.
- The fields of `ExternalSource` other than `id`. They are not in the shown
  types and are carried as an opaque value.
- `EVENT_SUB_TYPES[type]` for a key inherited from `Object.prototype` (such as
  `"constructor"`). A plain JavaScript lookup would return a non-array there.
  EventIdentitySection.SubTypes models the lookup as a map, so such keys yield
  no sub-types.
- The business-groups select of the identity section. The page does not pass
  `onBusinessGroupsChange`, and the `BUSINESS_GROUPS` catalogue is not in the
  shown data.
- The deadlines section's other inputs: the track-immediately checkbox, the
  operational summary, the four deadline dates and the recipients. Each is a
  single `onChange` of a field missing from `EventFormData`.
- The team and area catalogues and the chosen-id lists. They are parameters
  because the shown data does not define them.
- DeadlinesTrackingSection.TeamCardChange and
  DeadlinesTrackingSection.AreaCardChange: the page passes no toggle callbacks,
  so only the requested toggle is modelled, not its effect on the store.
- `Array.prototype.includes` and `===` on strings: modelled as sequence
  membership and equality. There is no Unicode normalisation.
