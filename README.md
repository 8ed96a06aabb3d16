# Vehicle lifecycle CO2 comparison — a Dafny model

This project models the core of a small web application that compares new
vehicles by their lifecycle CO2 emissions: the CO2 of manufacturing plus the
tailpipe CO2 over the owner's expected distance. The model covers three parts.

- **The FastAPI backend.** It classifies each catalogue row's powertrain
  (EV, Plug-in Hybrid, Hybrid, Diesel, Petrol, Other). It maps the raw
  EPA vehicle class to a cleaned segment. It converts grams per mile to
  kilograms per kilometre and computes the lifetime distance. It serves the
  sorted segment catalogue (`/segments`). It builds the four ranked
  top-three lists of `/compare`: model years 2023–2026, petrol and diesel,
  EV, and hybrid. Each list keeps the newest row per make and model, ranks
  by total lifecycle CO2 ascending and keeps the first three.
- **The comparison form.** Its state is the three fields, the segment
  catalogue and an error text. It loads the catalogue once. Its change
  handlers coerce the number inputs (`parseFloat(..) || 0` and `|| 1`). Its
  submit handler checks the segment first and then both numbers.
- **The results page.** Its state is the results, the loading flag, the error
  text and the inputs of the last success. It goes through the
  submit/settle/dismiss transitions. It derives what is rendered: the
  sections, the "lowest" badge, the "Top Car CO2" summary value, the chart
  bars and the empty state.

Layout:

- `wrappers.dfy`: `Option` and `Result`.
- `text.dfy`: ASCII lower-casing, the substring test and string order.
- `collections.dfy`: a stable sort by a total preorder, keep-first
  de-duplication and filtering, with their properties.
- `classify.dfy`: `classify_powertrain` and `clean_segment`.
- `ranking.dfy`: the catalogue row, unit conversion and `get_top_3`.
- `api.dfy`: `/compare` and `/segments`.
- `input_form.dfy`: the form component, as a class.
- `home_page.dfy`: the page component, as a class, plus the render
  derivations.

Network calls are parameters. The form receives the outcome of the segment
request (`SegmentsOutcome`). The page receives the outcome of the comparison
request (`CompareOutcome`). The backend receives the loaded dataset as
`Option<seq<Row>>`.

Behaviours of the code worth knowing, which the model keeps:

- The page has no guard against a stale response from an earlier request.
  `Settle` applies whatever outcome arrives.
- "Try Again" clears the error and the results. It does not touch the
  loading flag.
- After a failed request the error panel and the "Ready to Compare?" empty
  state are on screen together, because both conditions hold.
- `/compare` accepts any segment text, including "Other". An unknown
  segment gives four empty lists, not an error.

## Model

| member | source | states |
|---|---|---|
| Text.Lower | backend/main.py:79-81 | lower-casing keeps the length and maps each character by `LowerChar` (ASCII letters shifted, others unchanged) |
| Text.LowerIdempotent | backend/main.py:106 | lower-casing an already lower-cased text changes nothing |
| Text.ContainsIffOccurs | backend/main.py:84 | the recursive `in` test holds exactly when the pattern occurs at some index of the text |
| Text.MinivanContainsVan | backend/main.py:123 | a text containing "minivan" contains "van" |
| Text.StrLessTransitive | backend/main.py:199-203 | the code-point order that `sorted` uses on strings is transitive |
| Text.StrLessTotal | backend/main.py:199-203 | any two different strings are ordered one way or the other |
| Text.StrLessIrreflexive | backend/main.py:199-203 | no string precedes itself |
| Text.StrLessAsymmetric | backend/main.py:199-203 | two strings never precede each other |
| Collections.SortBy | backend/main.py:70 | sorting is a permutation of its input (same length, same multiset) |
| Collections.SortBySorted | backend/main.py:70 | under a total preorder, sorting yields an ordered sequence |
| Collections.SortedFirstIsLeast | backend/main.py:70-71 | the first element of a sorted sequence is at most every element of the input |
| Collections.SortedPrefixBelow | backend/main.py:70-71 | an element of a sorted list outside its first n entries is at least every one of them |
| Collections.PermutationDistinct | backend/main.py:70 | a permutation of a sequence without repeats has no repeats |
| Collections.KeepFirst | backend/main.py:50 | every kept element comes from the input and has a key not yet seen |
| Collections.KeepFirstDistinctKeys | backend/main.py:50 | `drop_duplicates` leaves no two elements with the same key |
| Collections.KeepFirstCoversKeys | backend/main.py:50 | every key of the input is still represented after `drop_duplicates` |
| Collections.KeepFirstIsFirst | backend/main.py:50 | a kept element is the first occurrence of its key in the input (`keep="first"`) |
| Collections.Filter | backend/main.py:241 | a boolean mask keeps exactly the input rows that satisfy the predicate, and no more rows than the input has |
| Collections.FilterCons | backend/main.py:241 | the mask on a row followed by more rows keeps or drops that row, then masks the rest |
| Collections.FilterCount | backend/main.py:241 | every occurrence of a kept value stays and every occurrence of a dropped value goes |
| Collections.FilterAppend | backend/main.py:241 | the mask keeps the input order: masking a concatenation concatenates the masked pieces |
| Collections.FilterInsert | backend/main.py:47-50 | inserting an element never moves it past an element of its own tie class |
| Collections.SortByStable | backend/main.py:47-50 | the sort is stable: the elements of one tie class come out in input order |
| Classify.ElectricPrimaryFuelIsEv | backend/main.py:78-85 | the label is EV exactly when the lower-cased primary fuel contains "electricity" |
| Classify.PlugInBeforeSecondaryFuel | backend/main.py:87-89 | Plug-in Hybrid exactly when not EV and the lower-cased ATV type contains "plug-in", whatever the secondary fuel says |
| Classify.HybridExactly | backend/main.py:91-93 | Hybrid exactly when neither earlier test fires and the secondary fuel contains "electricity" |
| Classify.CombustionLabels | backend/main.py:95-103 | when no electric test fires, Diesel exactly when the primary fuel contains "diesel", and Petrol exactly when it contains "gasoline" but not "diesel" |
| Classify.ClassifyPowertrainIgnoresCase | backend/main.py:79-81 | classification does not depend on the letter case of the three fields |
| Classify.PowertrainNameInjective | backend/main.py:78-103 | different powertrains have different labels |
| Classify.SportUtilityFirst | backend/main.py:108-113 | a class mentioning "sport utility" is an SUV, small exactly when it mentions "small" |
| Classify.PickupBeforeVan | backend/main.py:115-120 | a non-SUV class mentioning "pickup" is a pickup, small exactly when it mentions "small", even if it also mentions "van" |
| Classify.MinivanTestRedundant | backend/main.py:123 | the van test `"van" in s or "minivan" in s` is equivalent to `"van" in s` |
| Classify.VanAfterPickup | backend/main.py:122-127 | a class reaching the van test is a cargo van exactly when it mentions "cargo", a passenger van otherwise |
| Classify.UnclassifiedExactly | backend/main.py:129-134 | "Other" exactly when none of "sport utility", "pickup", "van" or "special purpose" occurs |
| Classify.CleanSegmentIgnoresCase | backend/main.py:105-106 | segment cleaning does not depend on letter case |
| Classify.SegmentNameInjective | backend/main.py:105-134 | different segments have different display names |
| Classify.OtherNameOnlyForUnclassified | backend/main.py:133-134 | only the unclassified segment is named "Other" |
| Ranking.ConvertGpmToKgPerKm | backend/main.py:164-174 | the result times 1000 times 1.60934 gives back the grams per mile (zero included) |
| Ranking.ConvertGpmMonotone | backend/main.py:172-174 | zero maps to zero; the conversion is non-negative and monotone on non-negative input |
| Ranking.CarOf | backend/main.py:55-67 | a result keeps make, model and year; its manufacturing figure is the row's `total_manufacturing_co2_kg`; its use phase is the row's kg/km times the lifetime distance; its total is the sum of the two |
| Ranking.Cars | backend/main.py:54-68 | the per-row results, one per row, in row order |
| Ranking.NewestFirstTotalPreorder | backend/main.py:47-49 | the order make ascending, model ascending, year descending is total and transitive |
| Ranking.LatestFromInput | backend/main.py:47-50 | the newest-per-model rows are rows of the input |
| Ranking.LatestDistinctPairs | backend/main.py:47-50 | no make/model pair occurs twice after de-duplication |
| Ranking.LatestCoversPairs | backend/main.py:47-50 | every make/model pair of the input keeps a row |
| Ranking.LatestIsNewest | backend/main.py:46-50 | the kept row of a pair has the latest year among the input rows of that pair |
| Ranking.GetTop3 | backend/main.py:42-76 | the loop-and-sort implementation returns exactly the specification `Top3` |
| Ranking.RankedFromLatest | backend/main.py:52-71 | every ranked result is computed from a newest-per-model row |
| Ranking.Top3EmptyExactly | backend/main.py:43-44 | the list is empty exactly when the input frame is empty |
| Ranking.Top3Size | backend/main.py:71 | the list holds three results, or all of them when fewer models remain |
| Ranking.Top3FromInput | backend/main.py:54-68 | every result is computed from some input row |
| Ranking.Top3NewestYear | backend/main.py:46-50 | no input row of a listed make/model is newer than the listed year |
| Ranking.PermutedPairsDistinct | backend/main.py:70 | re-ordering results does not create repeated make/model pairs |
| Ranking.Top3DistinctPairs | backend/main.py:47-50 | no make/model appears twice in a list |
| Ranking.TotalLeTotalPreorder | backend/main.py:70 | ordering by total lifecycle CO2 is a total preorder |
| Ranking.Top3Ascending | backend/main.py:70-71 | the list is in ascending total lifecycle CO2 |
| Ranking.Top3Cheapest | backend/main.py:70-71 | every candidate model that was left out emits at least as much as every listed one |
| Ranking.Top3FirstIsMinimum | backend/main.py:70-71 | the first result is the minimum over all candidate models |
| Api.LifetimeKm | backend/main.py:238 | the lifetime distance is positive when mileage and years are |
| Api.RecentRange | backend/main.py:243-244 | the year mask holds exactly for 2023 to 2026 |
| Api.PetrolOrDieselByName | backend/main.py:250-251 | the label mask `isin(["Petrol","Diesel"])` selects exactly the Petrol and Diesel powertrains |
| Api.EvByName | backend/main.py:256-257 | comparing the `Powertrain` label with "EV" selects exactly the EV rows |
| Api.HybridByName | backend/main.py:261-262 | comparing the label with "Hybrid" selects exactly the Hybrid rows, never Plug-in Hybrid ones |
| Api.CompareVehicles | backend/main.py:211-272 | errors in order: 500 without data, then 400 for mileage, years, blank segment; success exactly when all pass, with the four ranked sections |
| Api.SectionDrawsFrom | backend/main.py:241-263 | each section's results come from rows of the requested segment that pass the section's mask |
| Api.OverallIsRecent | backend/main.py:243-247 | the overall section lists only cars of model years 2023–2026 from the segment |
| Api.PetrolDieselIsCombustion | backend/main.py:249-253 | the second section lists only Petrol or Diesel rows of the segment |
| Api.EvIsElectric | backend/main.py:255-258 | the EV section lists only rows classified EV |
| Api.HybridExcludesPlugIn | backend/main.py:260-263 | the hybrid section lists only Hybrid rows, never Plug-in Hybrid ones |
| Api.ListsAtMostThree | backend/main.py:247-263 | each of the four sections holds at most three cars |
| Api.NamedSegments | backend/main.py:200-201 | the names left are exactly the cleaned segments of some row, other than "Other" |
| Api.GetVehicleSegments | backend/main.py:193-208 | 500 exactly when no data; otherwise a sorted list without repeats, excluding "Other", of exactly the segments present |
| Api.SegmentListSorted | backend/main.py:199-203 | `sorted(unique(...))` is ordered and free of repeats |
| Api.SegmentListMembers | backend/main.py:199-203 | `sorted(unique(...))` keeps exactly the named segments |
| Text.StrLeTotalPreorder | backend/main.py:199 | string order is a total preorder |
| InputForm.MileageFromInput | frontend/app/components/InputForm.tsx:66 | NaN and zero become 0; other numbers pass unchanged; positive exactly when a positive number was entered |
| InputForm.YearsFromInput | frontend/app/components/InputForm.tsx:85 | NaN and zero become 1, never 0; not positive exactly when a negative number was entered |
| InputForm.Form.constructor | frontend/app/components/InputForm.tsx:13-17 | initial state: 50 km, 5 years, blank segment, empty catalogue, no error |
| InputForm.Form.FetchSegments | frontend/app/components/InputForm.tsx:19-34 | a loaded catalogue replaces the list and its first entry becomes the choice; a failure sets the load error and leaves the list empty; with an empty list the choice stays blank |
| InputForm.Form.HandleSubmit | frontend/app/components/InputForm.tsx:36-51 | blank segment reported first, then non-positive numbers; submits exactly when all pass, with the fields unchanged and the error cleared; never submits while the catalogue is empty |
| InputForm.Form.ChangeMileage | frontend/app/components/InputForm.tsx:66 | the mileage field becomes the coerced input; the form stays valid |
| InputForm.Form.ChangeYears | frontend/app/components/InputForm.tsx:85 | the years field becomes the coerced input; the form stays valid |
| InputForm.Form.ChangeSegment | frontend/app/components/InputForm.tsx:98-111 | choosing an option keeps the choice blank or in the catalogue |
| InputForm.Form.SubmitDisabled | frontend/app/components/InputForm.tsx:103-123 | submit and select are disabled exactly while loading or while the catalogue is empty |
| InputForm.Form.EmptyCatalogueNeverSubmits | frontend/app/components/InputForm.tsx:19-34 | with an empty or failed catalogue load the choice is blank and submit is disabled, whatever the numbers hold |
| HomePage.ErrorMessage | frontend/app/page.tsx:56 | the response's detail when present and non-empty, the generic failure text otherwise; never empty |
| HomePage.Home.constructor | frontend/app/page.tsx:28-35 | initial state: no results, not loading, no error, zero inputs |
| HomePage.Home.StartSubmit | frontend/app/page.tsx:42-44 | loading starts with results and error cleared |
| HomePage.Home.Settle | frontend/app/page.tsx:52-59 | a payload becomes the results and the inputs are recorded; a rejection sets the error message and keeps the old inputs; loading stops either way |
| HomePage.Home.HandleFormSubmit | frontend/app/page.tsx:37-61 | the whole submit: same end state as `Settle`, from any start |
| HomePage.Home.Dismiss | frontend/app/page.tsx:255-258 | "Try Again" clears error and results and keeps the loading flag; the empty state then shows unless loading |
| HomePage.Home.OnePanelAtATime | frontend/app/page.tsx:202-264 | while loading neither results, error nor empty state show; with results neither error nor empty state show; the error panel always shows together with the empty state |
| HomePage.ChartCars | frontend/app/page.tsx:209-214 | the chart bars are the four sections' cars, concatenated in section order |
| HomePage.ChartBlocks | frontend/app/page.tsx:209-214 | the bars split into the four sections exactly, in order |
| HomePage.TopCarCo2 | frontend/app/page.tsx:116 | the first overall car's total, or 0 when the list is empty |
| HomePage.BadgeOnCheapestRanked | frontend/app/page.tsx:136 | in a ranked list the card at index 0 costs no more than any other card |
| HomePage.LowestIsCheapest | frontend/app/page.tsx:116-193 | in a service response every section's badge is on its cheapest car and the summary value is the overall minimum |
| HomePage.SectionNonEmpty | frontend/app/page.tsx:125 | a section's list is non-empty exactly when the segment has a row passing its mask |
| HomePage.SectionShownIffCandidates | frontend/app/page.tsx:125-182 | each of the four sections is shown exactly when the segment has a row qualifying for it |
| HomePage.ChartAtMostTwelve | frontend/app/page.tsx:202-214 | a service response yields at most twelve chart bars |

## Left out

- Rounding: `round(x, 2)` on the three CO2 figures and on the lifetime distance is not modelled. Results carry exact values. The ranking uses the unrounded total in the source too, so the order is the same.
- The `_sort` key and its deletion: it only carries the unrounded total, which the model already keeps.
- Floating point: Python floats and JavaScript numbers are exact reals. Overflow, NaN and infinity in request bodies or the dataset are not modelled.
- Lower-casing: only ASCII letters are lowered. Python's `str.lower` covers all of Unicode.
- Sort stability: the model's sort is proved stable (`Collections.SortByStable`). Python's `list.sort` is stable. The pandas multi-column `sort_values` is assumed stable too, which decides which of two rows with the same make, model and year is kept.
- `load_dataset`: file access, CSV parsing, logging, the startup hook, CORS and the server runner are I/O. The model starts from the loaded rows and the two derived columns.
- `/segments`: the in-place re-sort of the global frame is not modelled, because `get_top_3` re-sorts its input.
- `/health`: not modelled; it only reports the dataset's size.
- Missing cells: `str(NaN)` gives "nan" in the classifier. The model takes the three fuel fields as text.
- HTTP client: request building and transport are left out. `CompareOutcome` and `SegmentsOutcome` stand for what the call returned. A 422 `detail` that is a list is not modelled: `detail` is text or absent.
- Concurrency: an earlier request resolving after a later one is not modelled. `HandleFormSubmit` is the submit with its request already resolved, and `StartSubmit` and `Settle` are the two halves.
- `console.error` calls, JSX markup, CSS, number formatting (`toLocaleString`), and the `ComparisonChart` and `CarCard` components.
- InputForm.Form.FetchSegments: it requires an empty catalogue because the effect runs once, on mount.
- HomePage.Home.Settle: it requires a request in flight, which `StartSubmit` establishes.
- InputForm.Form.HandleSubmit: it describes the submit handler only. The browser's constraint validation (`min="1" step="0.1"` on mileage, `min="0.5" step="0.5"` on years) can block the submit event before the handler runs, for example for a mileage of 0.5 or 12.34. So the model does not say which entries reach `onSubmit`.
