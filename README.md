# Road-incident map viewer: ordering and classification core

This project models the logic of a web map viewer for road incidents
("ocorrências") along the BR-101 highway. The rendering is Leaflet and React
and is not modelled. What is modelled is the logic that decides what the user sees:

- **Status classification.** A free-text status is classified three ways.
  - `getScore` gives the draw rank.
  - `getMarkerColor` gives the marker colour.
  - The popup's icon chain and the sidebar's card style and badge are the other classifiers.
  - Each is proved to agree with the score, or shown not to.
- **Draw order.** `sortedOcorrencias` sorts the occurrence layer so that the
  selected occurrence is drawn last (on top) and the others by score.
  The model proves this against a rank function. It is a stable sort, as
  `Array.prototype.sort` is.
- **Location popups.** `onEachFeature` groups the occurrences within 10⁻⁶
  degrees of a marker and sorts them newest first with `parseDate`. It builds
  the popup (title, count, one entry per record, the "active" flag, the 3D
  button) and registers the marker under the occurrence id. The popup opened
  for a selection and the fly-to target are modelled too.
- **Sidebar.** A stable sort of the history, newest first. It is proved to give
  the same order as the popups, and the sidebar renders one card per record.
- **Loading.** `loadAllData` fetches the four layer files and stores each
  under the part of its name before the first dot. It normalises the
  occurrence properties: keys carrying the spreadsheet prefix are copied to
  their short names, and the id falls back to `objectid`. It then extracts
  the history list.
- **New records.** The form gives the default fields and stamps the record
  with a `DD/MM/YYYY HH:MM` timestamp. Parsing that timestamp gives back the
  entered fields (`FormatParseRoundTrip`). The id is the largest numeric id
  plus one. The record is put first in the history and last in the layer.
- **App state.** The add / pick / save / close / select state machine of
  `App` is a class whose methods update its fields in place.

Modules:

| Module | Holds |
|---|---|
| `Wrappers` | `Option` |
| `Text` | `\d`, decimal digits, `trim`, `toLowerCase`, `startsWith`, `includes` |
| `JsValues` | JavaScript values, truthiness, `String(v)`, `parseInt` |
| `Records` | features and collections |
| `StableSort` | the stable sort, as a function and as an in-place array method |
| `Dates` | `parseDate`, once |
| `MapArea`, `Sidebar`, `DataLoader`, `OccurrenceForm`, `App` | one per source file |

The date constructor and `Date.parse` depend on the time zone. They are
passed in as a `Clock` value. Order facts that need the constructor to be
increasing take `Monotone(clock)` as a hypothesis. `Monotone` asks for
increase only between valid dates with four-digit years: `new Date` reads
the years 0 to 99 as 1900 to 1999, so no real clock is increasing over all
years. A stand-in clock that orders fields as a calendar does and makes
that century shift satisfies `Monotone` (`MonotoneSatisfiable`), so the
hypothesis can hold; it is not a real time zone. A daylight-saving gap
breaks `Monotone`.

Behaviours of the code worth knowing:

- The "same location" relation is not transitive (`NearNotTransitive`), so
  the popups do not partition the occurrences. Each marker lists its own
  neighbourhood (`ClusterExample`).
- A record without a status shows "Não informado" in the popup. The popup's
  chain then paints it red as pending (`PopupToneFollowsScore`). Its marker
  is grey and it scores 0.
- The sidebar's card style tests only "não resolvido" and "em andamento".
  So a "Pendente" record is red on the map but a plain card in the list
  (`PendingCardNotRed`).
- The sidebar's badge is overwritten by each test that matches, so
  "em andamento" beats "não resolvido", which beats "resolvido".
- `parseDate` is written out twice, in `MapArea.jsx` and in `Sidebar.jsx`.
  The two copies are identical, so it is defined once, as `Dates.ParseDate`.
- The popup's "active" flag compares the selection's id with each entry's
  id. With nothing selected, that id is `undefined`, so every entry without
  an id is flagged active (`ClusterPopupEntries`).
- With an empty history, `Math.max()` of no ids is `-Infinity`, so the new
  id is `-Infinity`. The model keeps that value (`NegInfinity`) rather than
  assume the history is non-empty. The next record after it gets id 1
  (`NewIdAfterNegInfinity`).

## Model

| member | source | states |
|---|---|---|
| MapArea.Score | src/components/MapArea.jsx:324-332 | the draw rank of any status is 0, 1 or 2 |
| MapArea.MarkerColor | src/components/MapArea.jsx:54-61 | the marker is one of the five colours; grey exactly when the status is absent or empty; red exactly when the lower-cased status is pending; amber, green and blue are completed by `MarkerColorFollowsScore` and `ResolvedGreenOtherwiseBlue` |
| MapArea.StatusLabel | src/components/MapArea.jsx:87 | the label is never empty, and a present status is shown as written |
| MapArea.PopupTone | src/components/MapArea.jsx:90-105 | icon and text colour always agree (warning and red, clock and amber, check and green), and the warning icon appears exactly for a pending label |
| MapArea.ScoreLevels | src/components/MapArea.jsx:324-332 | rank 2 exactly when the lower-cased status contains "não", "nao" or "pendente"; rank 1 exactly when it contains "em andamento" and none of those; an absent or empty status ranks 0 |
| MapArea.NotResolvedIsPending | src/components/MapArea.jsx:54-61 | any status containing "não resolvido" in any case ranks 2, draws red and gets the warning icon, although it also contains "resolvido" |
| MapArea.ResolvedScoresZero | src/components/MapArea.jsx:324-332 | "Resolvido" ranks 0 and draws green |
| MapArea.NotResolvedAboveResolved | src/components/MapArea.jsx:324-332 | "Não Resolvido" ranks 2, above "Resolvido" |
| MapArea.MarkerColorFollowsScore | src/components/MapArea.jsx:54-61 | for a present status the marker is red iff the rank is 2, amber iff it is 1, and green or blue iff it is 0 |
| MapArea.ResolvedGreenOtherwiseBlue | src/components/MapArea.jsx:54-61 | a present status that is neither pending nor in progress is green iff its lower-cased text contains "resolvido" and blue otherwise, and the popup shows the check icon for exactly those statuses (lines 90-105) |
| MapArea.PopupToneFollowsScore | src/components/MapArea.jsx:85-105 | for a present status the popup's warning icon appears iff the rank is 2 and the clock icon iff it is 1; a missing status shows "Não informado" in red although its marker is grey and it ranks 0 |
| MapArea.MarkerFillOwnOrSelected | src/components/MapArea.jsx:408-420 | the selected feature is coloured by the selection's status, every other feature by its own, and a selection equal to the feature changes nothing |
| MapArea.Cluster | src/components/MapArea.jsx:249-254 | the cluster is no longer than the layer and every member is near the marker |
| MapArea.ClusterMembers | src/components/MapArea.jsx:249-254 | a feature is in the cluster of a marker iff it is in the layer and within 10⁻⁶ degrees on both axes |
| MapArea.NearReflexiveSymmetric | src/components/MapArea.jsx:253 | the location test is reflexive and symmetric |
| MapArea.ClusterHasSelf | src/components/MapArea.jsx:249-254 | a marker's cluster contains the marker's own feature, so it is never empty |
| MapArea.ClusterPermutation | src/components/MapArea.jsx:249-254 | the cluster keeps every near feature with its full multiplicity and drops every other |
| MapArea.NearNotTransitive | src/components/MapArea.jsx:253 | three points each 7·10⁻⁷ apart: neighbours are near but the ends are not, so clusters are not a partition |
| MapArea.ClusterExample | src/components/MapArea.jsx:249-254 | two points 10⁻¹² apart share a cluster, and a point 0.1 degrees away is alone |
| MapArea.ClusterMembersNewestFirst | src/components/MapArea.jsx:249-292 | the sorted cluster is a permutation of the near features, is ordered by non-increasing `parseDate`, and keeps records with equal dates in layer order |
| MapArea.ClusterPopupEntries | src/components/MapArea.jsx:64-105 | the popup's count is the number of members, its title is the first (newest) member's `Local` or "Local", and each entry shows its member's status label and is active iff its id equals the selection's id |
| MapArea.Show3DIff | src/components/MapArea.jsx:152 | the 3D button shows iff some member's `objectid` is the number 414 or the string "414" |
| MapArea.StringOf414 | src/components/MapArea.jsx:152 | `String(v) === '414'` holds exactly for the number 414 and the string "414" |
| MapArea.DrawRank | src/components/MapArea.jsx:334-341 | the rank is 3 iff the feature is the selected one |
| MapArea.DrawCompare | src/components/MapArea.jsx:334-341 | the comparator's value lies between -2 and 2, is positive when its first feature is the selected one, and is 0 only for two unselected features of equal score |
| MapArea.DrawCompareIsRankOrder | src/components/MapArea.jsx:334-341 | the comparator's sign is that of the rank difference, except for two features both carrying the selected id, which each claim to come after the other |
| MapArea.SortedOccurrences | src/components/MapArea.jsx:319-347 | no layer gives none; otherwise the same header with the features stably sorted by draw rank |
| MapArea.DrawOrder | src/components/MapArea.jsx:334-341 | the sorted layer is a permutation of the layer; every selected feature comes after every other; the others are in non-decreasing score; equal ranks keep layer order |
| MapArea.Register | src/components/MapArea.jsx:243-246 | registering keeps every key and files the layer under the feature's id text when the id is truthy |
| MapArea.RegisterAll | src/components/MapArea.jsx:243-246 | registering a run of features never removes a key |
| MapArea.LastRegistrationWins | src/components/MapArea.jsx:243-246 | after the drawn features register, each truthy id text maps to the last feature carrying it; ids never registered keep their old entry |
| MapArea.PopupTarget | src/components/MapArea.jsx:38-47 | a popup opens only for a selection with a truthy id and only on a registered layer, and it always opens when that id's text is registered |
| MapArea.PopupTargetIsLastMatch | src/components/MapArea.jsx:38-47 | the popup opened for a selection with a truthy id is the last drawn feature whose id reads as the same text |
| MapArea.FlyTarget | src/components/MapArea.jsx:228-236 | a fly-to target is the position of a feature of the layer whose id equals the selection's |
| MapArea.FlyTargetFirstMatch | src/components/MapArea.jsx:228-236 | the fly-to position is that of the first feature whose id is strictly equal to the selection's, and there is none iff no feature matches |
| MapArea.Markers | src/components/MapArea.jsx:408-420 | one marker per drawn feature, in draw order, each with its fill colour |
| MapArea.Popups | src/components/MapArea.jsx:238-303 | one popup per drawn feature, in draw order, each the one `onEachFeature` builds for that feature (`PopupOf`: its cluster popup) |
| MapArea.NewestFirst | src/components/MapArea.jsx:257-292 | the copy is sorted stably by newest date first |
| MapArea.MapView.constructor | src/components/MapArea.jsx:214 | the marker registry starts empty |
| MapArea.MapView.OnEachFeature | src/components/MapArea.jsx:238-303 | registers the marker under a truthy id and returns the feature's cluster popup |
| MapArea.MapView.DrawNext | src/components/MapArea.jsx:238-246 | drawing the next feature extends the markers and popups by that feature's own and registers its marker, leaving everything as if the features so far had been drawn in order |
| MapArea.MapView.Render | src/components/MapArea.jsx:402-422 | draws every feature of the given list in order (the viewer passes the sorted layer): one marker and one cluster popup each, and the registry as all of them registered in that order |
| Sidebar.StatusStyle | src/components/Sidebar.jsx:33-39 | the card is slate exactly when the status is absent or empty, and red exactly when the lower-cased status contains "não resolvido" |
| Sidebar.StatusStyleOtherCases | src/components/Sidebar.jsx:33-39 | any other present status gets the amber card when it contains "em andamento" and the white card otherwise |
| Sidebar.StatusBadge | src/components/Sidebar.jsx:41-54 | the badge is none for an absent status; otherwise the colour of the last test that matches |
| Sidebar.RedBadgeOverridesGreen | src/components/Sidebar.jsx:44-47 | a "não resolvido" status also contains "resolvido", and its badge is red unless "em andamento" also occurs |
| Sidebar.RedCardIsPending | src/components/Sidebar.jsx:33-39 | every red card is a record that ranks 2 and draws red on the map |
| Sidebar.PendingCardNotRed | src/components/Sidebar.jsx:33-54 | "Pendente" draws red on the map but gets a plain card and the default badge |
| Sidebar.SortedHistory | src/components/Sidebar.jsx:57-85 | the copy is sorted stably by newest date first |
| Sidebar.HistoryNewestFirst | src/components/Sidebar.jsx:57-85 | the sorted history is a permutation of the history, with non-increasing `parseDate`, and records with equal dates keep their order |
| Sidebar.SameOrderAsPopup | src/components/Sidebar.jsx:58-84 | sorting features by date and then taking their properties gives the sidebar's order of those properties |
| Sidebar.Render | src/components/Sidebar.jsx:16-136 | the placeholder iff loading; otherwise the count is the history length and the cards are exactly the history's records, newest first |
| Dates.ParseDate | src/components/MapArea.jsx:259-286 | an absent, empty or zero value reads as 0; the other branches are stated by `ParseDateOfMatch` and `ParseDateFallback` |
| Dates.MinuteIndexIncreasing | src/components/MapArea.jsx:280 | the minute count of the stand-in clock, with the years 0 to 99 read as 1900 to 1999, increases with valid four-digit-year dates |
| Dates.MonotoneSatisfiable | src/components/MapArea.jsx:280 | the stand-in clock, at any offset, is `Monotone`, although it reads year 99 as 1999, so the hypothesis can hold |
| Dates.FindTimeLeftmost | src/components/MapArea.jsx:274 | the time scan reports the leftmost `H:M` match, and nothing iff no index matches |
| Dates.ParseDateOfMatch | src/components/MapArea.jsx:266-280 | a trimmed text that starts with a `D/M/YYYY` date reads as the local instant of those fields, with the month counted from 0, at the first time found or midnight |
| Dates.ParseDateBrazilian | src/components/MapArea.jsx:260-281 | "25/12/2024 14:30" reads as 25 December 2024 at 14:30 local time |
| Dates.ParseDateMidnight | src/components/MapArea.jsx:260-281 | " 1/2/2024 " is trimmed and reads as 1 February 2024 at midnight |
| Dates.ParseDateFallback | src/components/MapArea.jsx:283-285 | every truthy value whose trimmed text does not start with a `D/M/YYYY` date reads as `Date.parse` of that text, and 0 when that is NaN |
| Dates.ParseDateIso | src/components/MapArea.jsx:283-285 | an example of the fallback: "2024-12-25T14:30:00Z" goes to `Date.parse` |
| Dates.ParseDateUnknown | src/components/MapArea.jsx:260-285 | examples: the unparseable text "garbage", an empty text and `null` all read as 0 |
| JsValues.IdNumberOfNum | src/App.jsx:53 | the numeric id `parseInt(id)`, 0 when it does not parse, of a numeric id is the id |
| JsValues.ParseIntOfDecimal | src/App.jsx:53 | `parseInt` of the decimal text of an integer is that integer |
| StableSort.SortByPermutation | src/components/MapArea.jsx:334-341 | the sort is a permutation |
| StableSort.SortBySorted | src/components/MapArea.jsx:334-341 | the sort's result is ordered by the key |
| StableSort.SortByStable | src/components/MapArea.jsx:334-341 | elements with equal keys keep their order |
| StableSort.SortedUnique | src/components/Sidebar.jsx:57-85 | the sort's result is the only ordered sequence that keeps the order within equal keys |
| StableSort.SortByIdempotent | src/components/MapArea.jsx:334-341 | sorting an already sorted sequence again by the same key leaves it unchanged |
| StableSort.SortInPlace | src/components/Sidebar.jsx:57-85 | sorting an array in place leaves exactly the stable sort of its old contents |
| DataLoader.LayerName | src/utils/dataLoader.js:35 | the stored name is the part of the file name before the first dot |
| DataLoader.LayerNameOfBase | src/utils/dataLoader.js:35 | a dot-free base name with any extension gives back the base |
| DataLoader.LayerNames | src/utils/dataLoader.js:26-35 | the names of the four files |
| DataLoader.LayerNamesDistinct | src/utils/dataLoader.js:26-35 | the four names differ, and only the second file is the occurrence layer |
| DataLoader.Suffix | src/utils/dataLoader.js:46 | removing the prefix gives the short name that, prefixed, is the key |
| DataLoader.Normalized | src/utils/dataLoader.js:40-53 | the normalised keys are the old keys, the short names and the id; the id is the copied id if truthy, else `objectid` |
| DataLoader.NormalizeProps | src/utils/dataLoader.js:40-53 | for any key order, every key is kept and the short names and the id are added; keys not overwritten keep their value; without doubly prefixed keys the result is exactly `Normalized` |
| DataLoader.NormalizeIdempotent | src/utils/dataLoader.js:40-53 | when no key carries the prefix twice, normalising normalised properties changes nothing |
| DataLoader.NormalizeFeatures | src/utils/dataLoader.js:39-55 | same count and order of features, same coordinates, each feature's properties normalised |
| DataLoader.HistoryOrEmpty | src/utils/dataLoader.js:13-22 | a failed history fetch gives the empty list |
| DataLoader.LoadLayer | src/utils/dataLoader.js:38-57 | the occurrence layer is normalised when it was fetched; any other layer is stored as fetched |
| DataLoader.LoadLayers | src/utils/dataLoader.js:33-58 | one key per file name, each holding what the last file of that name gave |
| DataLoader.LoadAllData | src/utils/dataLoader.js:25-68 | the four layers, stored as fetched except the normalised occurrence layer; the history is that layer's properties, or the fetched history when the layer is missing |
| OccurrenceForm.Defaults | src/components/OccurrenceFormModal.jsx:6-13 | type "Novo Registro", status "Não Resolvido", empty description and km, place "Rodovia BR-101", and a date that is the first 16 characters of the current ISO time |
| OccurrenceForm.HandleSubmit | src/components/OccurrenceFormModal.jsx:17-37 | saves the fields with the formatted timestamp and the picked position, then resets the form to the defaults |
| OccurrenceForm.Pad2 | src/components/OccurrenceFormModal.jsx:21 | the padded field always has at least two characters; a field from 0 to 99 has exactly two; a non-negative field is all digits; a field from 0 to 9 gets a leading zero |
| OccurrenceForm.Format | src/components/OccurrenceFormModal.jsx:20-21 | the stamp of an invalid date is not read as a `D/M/YYYY` date, and the stamp of valid fields with a four-digit year has 16 characters |
| OccurrenceForm.Pad2Digits | src/components/OccurrenceFormModal.jsx:21 | a field below 100 padded to two characters is two digits that read back as the field |
| OccurrenceForm.YearDigits | src/components/OccurrenceFormModal.jsx:21 | a four-digit year is written as four digits that read back as the year |
| OccurrenceForm.FormatShape | src/components/OccurrenceFormModal.jsx:21 | the timestamp is 16 characters of the form `DD/MM/YYYY HH:MM`, each field reading back as entered |
| OccurrenceForm.FormatParseRoundTrip | src/components/OccurrenceFormModal.jsx:21 | `parseDate` of the timestamp of valid fields with a four-digit year is the local instant of exactly those fields |
| OccurrenceForm.FormatKeepsOrder | src/components/OccurrenceFormModal.jsx:21 | under a monotone clock a record stamped earlier, both with four-digit years, reads as strictly older and sorts after a later one |
| OccurrenceForm.LongYearMisread | src/components/OccurrenceFormModal.jsx:21 | a timestamp with a five-digit year reads back in the year of its first four digits |
| OccurrenceForm.InvalidDateFallsThrough | src/components/OccurrenceFormModal.jsx:21 | the "NaN/NaN/NaN NaN:NaN" stamp of an invalid date goes to `Date.parse` |
| OccurrenceForm.DefaultStatusPending | src/components/OccurrenceFormModal.jsx:8 | a record with the default status ranks 2 and draws red |
| App.Max | src/App.jsx:53 | the maximum is one of the numbers and bounds them all |
| App.NewId | src/App.jsx:53 | the new id is `-Infinity` exactly for an empty history, and otherwise a number above every record's numeric id |
| App.NewIdExceeds | src/App.jsx:53 | for a non-empty history the new id is a number above every record's numeric id and one more than one of them |
| App.NewIdFresh | src/App.jsx:53 | for a non-empty history no record already has the new id |
| App.NewIdOfMax | src/App.jsx:53 | when `m` is the largest numeric id, the new id is `m + 1` |
| App.NewIdExample | src/App.jsx:53 | ids 1, 3 and 7 give 8 |
| App.NewIdAfterNegInfinity | src/App.jsx:53 | after a record whose id is `-Infinity`, the next id is 1 |
| App.NewProperties | src/App.jsx:55-64 | the record has exactly the eight keys, the new id under both id keys, the form's status and the timestamp |
| App.AddFeature | src/App.jsx:71-90 | the feature is appended to the occurrence layer when it is loaded; every other layer, and all layers when it is missing, stay as they were |
| App.NewRecordPending | src/App.jsx:55-64 | a record saved with the default status ranks 2 |
| App.AppState.constructor | src/App.jsx:12-23 | empty layers, loading, no selection, empty history, not adding, modal closed, no coordinates, sidebar closed |
| App.AppState.InitData | src/App.jsx:29-37 | stores the layers, clears loading, replaces the history only with a non-empty one, and changes nothing else |
| App.AppState.Start | src/App.jsx:28-37 | after loading, loading is off, the layers are the four file names, every other layer is stored as fetched, the occurrence layer is normalised, the history is the occurrence layer's properties (or the fetched history when the layer is missing) unless that is empty, when the old history stays; nothing else changes |
| App.AppState.HandleAddClick | src/App.jsx:40-44 | toggles adding mode, clears the selection, closes the sidebar, and changes nothing else |
| App.AppState.HandleMapClick | src/App.jsx:46-50 | stores the point, opens the modal so that the form shows, leaves adding mode, and changes nothing else |
| App.AppState.MapClick | src/components/MapArea.jsx:201-208 | a click in adding mode picks the point as `handleMapClick` does; any other click changes nothing |
| App.AppState.HandleSaveOccurrence | src/App.jsx:52-91 | puts the new record first in the history and its point last in the occurrence layer, and changes nothing else |
| App.AppState.CloseModal | src/App.jsx:97 | closes the modal so that the form no longer shows, and changes nothing else |
| App.AppState.Submit | src/components/OccurrenceFormModal.jsx:17-37 | a submit from the shown form saves the stamped record at the picked point, closes the modal and resets the form; loading, selection, adding mode, coordinates and the sidebar stay as they were |
| App.AppState.Select | src/App.jsx:127-130 | selects the record and closes the sidebar, and changes nothing else |

Three helpers have no row because their callers' rows state them:
`Dates.MatchDate` is the `D/M/YYYY` regular expression of
src/components/MapArea.jsx:266, stated through `ParseDateOfMatch` and
`ParseDateFallback`; `JsValues.ParseIntText` is the `parseInt` of
src/App.jsx:53, stated through `ParseIntOfDecimal` and `IdNumberOfNum`;
`OccurrenceForm.Shown` is the modal's render gate of
src/components/OccurrenceFormModal.jsx:15, stated through
`AppState.HandleMapClick`, `AppState.CloseModal` and `AppState.Submit`.

## Left out

- Rendering is not modelled: Leaflet, React, the markup and CSS, the popup HTML string, the `sigla_adm` subtitle, the layer control and the base maps.
- The 3D model viewer and its modal are not modelled. Nor are the `window.trigger3DModal` global and the `is3DModalOpen` state. The model keeps only the condition under which the 3D button shows.
- `fetch`, JSON decoding and error logging are input to the model, not modelled. A fetch is a function from file name to an optional collection, and the failed fetch is `None`. The `Date.now()` cache-busting query string is not modelled.
- A fetched occurrence file without a `features` array is not modelled; every collection has a feature list.
- Every feature is modelled as a point `(lng, lat)`. Non-Point geometries are not modelled, nor is a missing (`null`) geometry. The source destructures `f.geometry.coordinates` for every occurrence feature (src/components/MapArea.jsx:232, 251-252), so a missing geometry throws inside `onEachFeature`, and a non-Point geometry is never near another feature. The contour, highway and flood layers are lines and polygons, not points; the model gives them the same point type, stores them as fetched and reads nothing from their geometry.
- The popup opens after a 500 ms `setTimeout`. The model keeps only which marker it opens (`PopupTarget`), not the delay.
- The map's fly-to animation and the mobile sidebar's drawer UI are not modelled.
- Time zones and calendar arithmetic are left out. `new Date(y, m, d, h, min)`, `Date.parse` and the getters of `new Date(formData.data)` are fields of the `Clock` parameter. Order results assume `Monotone(clock)`.
- `new Date().toISOString()` is the `nowIso` parameter. The default date is UTC time, which the `datetime-local` input shows as local time; that offset is not modelled.
- The form's per-field `onChange` editing is not modelled; a submit takes the current form fields as a value.
- Coordinates are exact reals, not floating-point numbers.
- Numeric ids are unbounded integers. `String(n)` for numbers of 10²¹ and more, fractions, and ids beyond 2⁵³ are not modelled.
- Statuses that are not strings are treated as absent. In the source, a truthy non-string status would throw at `toLowerCase`.
- `toLowerCase` is modelled for the ASCII and Latin-1 capitals only, which covers the Portuguese statuses.
- `Object.keys` order is left open: `NormalizeProps` holds for every order.
- DataLoader.NormalizeProps: the value each short key ends with is stated only when no key carries the prefix twice. When one does, the copy order can decide the value, and only the key set and the untouched keys are stated.
- Mutation of the fetched feature objects in place (`f.properties = newProps`) is modelled as building new values. Aliasing between the fetched data and the stored layer is not captured.
- MapArea.DrawOrder: when two features both carry the selected id, the source's comparator is inconsistent and `Array.prototype.sort` may order them any way. The model uses the stable sort by rank. `DrawCompareIsRankOrder` shows the inconsistency.
- Dates.Monotone: the range limits of `Date` (times beyond 8.64·10¹⁵ ms are NaN) are not modelled; the clock's fields return integers for every input.
- OccurrenceForm.FormatParseRoundTrip holds for years 1000 to 9999. Other years are not written as four digits. A five-digit year is misread (`LongYearMisread`).
