# ArtDataTable selection manager in Dafny

`ArtDataTable` is a React component. It shows the Art Institute of Chicago's
artworks in a paginated table, one page of `rows` records at a time. The
component keeps a cross-page selection: a map from artwork `id` to record,
which lives across page changes. This project models that selection manager
and proves what it guarantees. The manager has five parts:

- **Page reconciliation.** When a page arrives, the visible selection is
  recomputed. It is the page's records, in page order, whose id is a key of the
  persistent map (`PageSelection`).
- **Selection changes.** When the user ticks or clears checkboxes on the
  current page, the change is folded into the map. Page rows that are no
  longer selected are deleted. Every selected row is then set under its id.
  Keys off the page are untouched (`PageSelection`).
- **The bulk input.** The "select first N rows" box accepts only decimal
  digits. On submit the text is read with `parseInt(text, 10)`. The request is
  refused when the result is NaN, negative, or larger than the dataset's total
  (`BulkInput`).
- **The bulk walk.** An accepted count `num` replaces the map. Pages 1, 2, …
  are fetched while rows remain to select and the page index is at most
  `ceil(total / rows)`. Rows are set in (page, position) order. The walk stops
  at the first failed fetch and keeps what it has (`BulkWalk`).
- **Page arithmetic.** The paginator's row offset `first` becomes the 1-based
  page `first / rows + 1`. The walk's last page is `ceil(total / rows)`
  (`Paging`).

`ArtTable` puts the parts together.

- `ArtTable.ArtDataTable` is a class. Its fields are the component's state
  hooks.
- Each event handler is a method. It is specified by a pure transition on
  `TableState` snapshots: `AfterFetch`, `AfterPage`, `AfterSelectionChange`,
  `AfterInput`, `AfterToggleOverlay` and `AfterSubmit`.
- Lemmas about those transitions state what the component promises.

The network is a parameter. A `Source` maps a page index and a page size to
`Some(page)` or to `None` (a failed request). The toasts the component shows
are a sequence of `Notice` values.

Modules:

| file | module | contents |
|---|---|---|
| wrappers.dfy | `Wrappers` | `Option`, `Result` |
| artworks.dfy | `Artworks` | records, id sets, `SetAll` (a run of `Map.set` calls) and its lemmas |
| paging.dfy | `Paging` | offset to page, `ceil(total / rows)` |
| selection.dfy | `PageSelection` | reconciliation and the `onSelectionChange` update |
| bulk_input.dfy | `BulkInput` | the digit filter, `parseInt`, the submit checks |
| bulk_walk.dfy | `BulkWalk` | the walk as a state machine (`Run`), its lemmas, and the loop (`BulkSelect`) |
| table.dfy | `ArtTable` | component state, transitions, lemmas, and the class |

Two consequences of the code worth stating:

- A walk that stops at a failed page raises an error toast naming only that
  page (src/components/ArtDatatable.tsx:164). The success toast then still
  follows and reports `num - itemsToSelectCounter` (:175), the rows set before
  the failure. The model raises the same two notices (`WalkNotices`, then
  `SelectionUpdated`).
- Rows are taken in (page, position) order across page boundaries: with
  12-row pages, the first 25 rows are all 12 of page 1, all 12 of page 2 and
  the first row of page 3, as `BulkWalk.SelectFirstNSucceeds` states.

## Model

| member | source | states |
|---|---|---|
| Paging.CurrentPage | src/components/ArtDatatable.tsx:36 | for an offset on a page boundary the page is at least 1 and its first row is at offset `first` |
| Paging.CurrentPageOfOffset | src/components/ArtDatatable.tsx:172 | the page of a page's offset is that page again |
| Paging.LastPage | src/components/ArtDatatable.tsx:147 | `ceil(total / rows)`: the pages hold all `total` rows, and one page fewer would not |
| PageSelection.Reconciled | src/components/ArtDatatable.tsx:52-58 | the visible selection is no longer than the page |
| PageSelection.ReconciledMembers | src/components/ArtDatatable.tsx:52-58 | a row is visible exactly when it is on the page and its id is in the map |
| PageSelection.ReconciledIds | src/components/ArtDatatable.tsx:52-58 | the visible ids are the intersection of the page ids and the map's keys |
| PageSelection.ReconciledAppend | src/components/ArtDatatable.tsx:53-57 | reconciliation keeps page order: reconciling a concatenation is concatenating the reconciled parts |
| PageSelection.ReconcilePage | src/components/ArtDatatable.tsx:52-58 | the `forEach`/`push` loop computes exactly the reconciled selection |
| PageSelection.Applied | src/components/ArtDatatable.tsx:77-91 | selected ids are bound to a selected row with that id; unselected page ids are gone; every other key keeps its binding and no key is added |
| PageSelection.ApplySelectionChange | src/components/ArtDatatable.tsx:77-91 | the copy / delete loop / set loop yields exactly `Applied` |
| PageSelection.AppliedBindsSelected | src/components/ArtDatatable.tsx:86-88 | with distinct selected ids, each selected row is the value under its own id |
| PageSelection.AppliedOffPageUnchanged | src/components/ArtDatatable.tsx:80-88 | when the selection comes from the page, nothing off the page changes |
| PageSelection.AppliedIdempotent | src/components/ArtDatatable.tsx:73-92 | applying the same change for the same page twice gives the map of applying it once |
| PageSelection.ReturnToPageRestoresSelection | src/components/ArtDatatable.tsx:52-58 | re-reconciling the same page after a change shows exactly the page rows whose ids were selected |
| BulkInput.FilterInput | src/components/ArtDatatable.tsx:118-122 | the box takes the proposed text iff it is all digits, otherwise keeps its current text; a digit box stays a digit box |
| BulkInput.ParseIntDigits | src/components/ArtDatatable.tsx:127 | on digit strings `parseInt` is NaN for "" and the decimal value otherwise |
| BulkInput.ParseIntDecimal | src/components/ArtDatatable.tsx:127 | parsing a number's decimal spelling gives the number back |
| BulkInput.Decimal | src/components/ArtDatatable.tsx:127 | the decimal spelling of n is a nonempty digit string whose value is n |
| BulkInput.Validate | src/components/ArtDatatable.tsx:127-137 | accepted iff `parseInt` gives a number with 0 <= num <= total, and then the value is that number; refused as invalid iff NaN or negative |
| BulkInput.ValidateDigits | src/components/ArtDatatable.tsx:127-137 | for box contents: "" is invalid, a value above the total is too many, anything else is accepted as its decimal value |
| Artworks.SetAllKeys | src/components/ArtDatatable.tsx:154-161 | setting rows into a map adds exactly their ids to its keys |
| Artworks.SetAllValues | src/components/ArtDatatable.tsx:86-88 | keys not mentioned keep their values; each mentioned id is bound to a row of the sequence with that id |
| Artworks.SetAllAppend | src/components/ArtDatatable.tsx:147-168 | setting `a` then `b` is setting `a + b` (one map across pages) |
| Artworks.BuildMapContents | src/components/ArtDatatable.tsx:145-161 | a map built from rows has their ids as keys, each bound to one of those rows |
| Artworks.SetAllOverrides | src/components/ArtDatatable.tsx:86-88 | for the ids set, the result does not depend on the map set into |
| Artworks.SetAllDistinct | src/components/ArtDatatable.tsx:86-88 | with distinct ids every row ends up under its own id |
| Artworks.BuildMapSize | src/components/ArtDatatable.tsx:145-161 | with distinct ids the map built from n rows has exactly n entries |
| Artworks.HasIdIsIds | src/components/ArtDatatable.tsx:81 | `some(sel => sel.id === id)` holds iff the id is among the selection's ids |
| BulkWalk.RunBounds | src/components/ArtDatatable.tsx:143-168 | rows are only appended, one per decrement; the counter never grows; the page stays within 1..last+1; a failure names the page where the loop stopped, with rows still wanted |
| BulkWalk.SelectFirstNBounds | src/components/ArtDatatable.tsx:143-168 | 0 <= counter <= num; num - counter rows were set; at most ceil(total/rows) requests; num = 0 selects nothing and fetches nothing |
| BulkWalk.RunTakesPrefix | src/components/ArtDatatable.tsx:147-161 | when all pages arrive, the walk sets exactly the first `counter` rows of the remaining pages in order |
| BulkWalk.RunStopsAtFailure | src/components/ArtDatatable.tsx:147-167 | when page k fails first, the walk keeps exactly the rows of the pages before k and stops at k |
| BulkWalk.RunTakesPrefixUpTo | src/components/ArtDatatable.tsx:147-161 | when pages page..k arrive and hold at least `counter` rows, the walk sets exactly their first `counter` rows in order, ends with counter 0, and requests no page beyond k |
| BulkWalk.SelectFirstNSucceeds | src/components/ArtDatatable.tsx:140-168 | when pages 1..k arrive and hold at least `num` rows, the walk sets exactly the first `num` rows in (page, position) order, counter 0, no failure, at most k requests; later pages may fail without effect |
| BulkWalk.LoopStep | src/components/ArtDatatable.tsx:149-161 | a delivered page leaves the rest of the run unchanged and grows the map by the page's taken rows |
| BulkWalk.SelectFirstNAll | src/components/ArtDatatable.tsx:140-168 | asking for all `total` rows selects every row |
| BulkWalk.SelectFirstNMapSize | src/components/ArtDatatable.tsx:140-170 | when pages 1..k arrive with distinct ids and at least `num` rows, the new map has exactly `num` entries, each of the first `num` rows under its id |
| BulkWalk.SelectFirstNPartial | src/components/ArtDatatable.tsx:140-168 | if page k fails after pages 1..k-1 gave fewer than num rows: exactly those rows, count = their number < num, k requests |
| BulkWalk.PagesThrough | src/components/ArtDatatable.tsx:144-167 | the request log 1, 2, ..., n: strictly increasing from page 1, no page twice |
| BulkWalk.TakeFromPage | src/components/ArtDatatable.tsx:154-161 | the inner `for` loop sets the first `counter` rows of the page and decrements the counter once per row |
| BulkWalk.BulkSelect | src/components/ArtDatatable.tsx:143-168 | the `while` loop returns the map, counter and failed page of the state machine's run, and requests pages 1..Requests in order |
| ArtTable.FetchWith | src/components/ArtDatatable.tsx:40-66 | a fetch never touches the map, offset, size, input or overlay, and always ends loading |
| ArtTable.AfterPage | src/components/ArtDatatable.tsx:35-38 | the new offset and size are stored and the map is kept |
| ArtTable.FetchShowsPersistent | src/components/ArtDatatable.tsx:40-66 | a delivered page shows its rows, its total, and as selected exactly its rows in the map; a failed fetch keeps rows and selection and adds an error toast |
| ArtTable.PageKeepsValid | src/components/ArtDatatable.tsx:35-38 | paging keeps the state valid; reporting the same offset and size fetches nothing |
| ArtTable.SelectionSurvivesPaging | src/components/ArtDatatable.tsx:35-92 | change a page's selection, page away and come back: exactly the rows selected there show as selected |
| ArtTable.SelectionChangeIdempotent | src/components/ArtDatatable.tsx:73-92 | reporting the same selection twice leaves the state of reporting it once |
| ArtTable.InputKeepsValid | src/components/ArtDatatable.tsx:101-122 | the box only holds digits, and the header button empties it |
| ArtTable.SubmitRejects | src/components/ArtDatatable.tsx:127-137 | a refused count only adds a warning: "" as invalid, a count above the total as too many |
| ArtTable.SubmitReplacesMap | src/components/ArtDatatable.tsx:140-178 | an accepted count replaces the map by the walk's regardless of the old map; the success toast counts the rows set; the input is cleared and closed |
| ArtTable.SubmitShowsNewSelection | src/components/ArtDatatable.tsx:170-173 | after an accepted count with a successful refetch, the page shows as selected exactly its rows in the new map |
| ArtTable.SubmitSelectsCount | src/components/ArtDatatable.tsx:140-175 | when pages 1..k arrive with distinct ids and at least `num` rows, the new map has `num` entries, holds each of the first `num` rows, and the toasts added are the refetch's error if it fails and the report of `num` |
| ArtTable.SubmitKeepsValid | src/components/ArtDatatable.tsx:126-179 | submitting keeps the state valid |
| ArtTable.SubmitAsWrittenHidesNewSelection | src/components/ArtDatatable.tsx:172-173 | as written, a one-row dataset with "1" submitted gets the row into the map yet shows it unselected; as intended it shows selected |
| Artworks.SetAll | src/components/ArtDatatable.tsx:86-88 | definition: a run of `map.set(item.id, item)` calls in order; its properties are in `SetAllKeys`, `SetAllValues`, `SetAllAppend`, `SetAllOverrides`, `SetAllDistinct` |
| Artworks.BuildMap | src/components/ArtDatatable.tsx:145-161 | definition: `new Map()` followed by the `set` calls; its properties are in `BuildMapContents`, `BuildMapSize` |
| BulkInput.ParseInt | src/components/ArtDatatable.tsx:127 | definition of `parseInt(text, 10)`: optional sign, longest digit prefix, NaN without digits; its properties are in `ParseIntDigits`, `ParseIntDecimal` |
| BulkWalk.Advance | src/components/ArtDatatable.tsx:148-167 | definition of one iteration: a failed fetch stops at this page; a delivered page sets its first rows and moves on; its properties are in `RunBounds`, `RunTakesPrefix`, `RunStopsAtFailure` |
| BulkWalk.Run | src/components/ArtDatatable.tsx:147-168 | definition of the `while` loop run to its end; its properties are in `RunBounds`, `RunTakesPrefix`, `RunStopsAtFailure`, and `BulkSelect` is proved equal to it |
| BulkWalk.SelectFirstN | src/components/ArtDatatable.tsx:143-168 | definition of the walk from page 1 with an empty map and ceil(total/rows) as last page; its properties are in `SelectFirstNBounds`, `SelectFirstNSucceeds`, `SelectFirstNAll`, `SelectFirstNMapSize`, `SelectFirstNPartial` |
| ArtTable.AfterFetch | src/components/ArtDatatable.tsx:40-66 | definition: `fetchData` reconciling against the current map; its properties are in `FetchShowsPersistent` and the ensures of `FetchWith` |
| ArtTable.AfterSelectionChange | src/components/ArtDatatable.tsx:73-92 | definition: the table's selection is shown and folded into the map by `Applied`; its properties are in `SelectionChangeIdempotent`, `SelectionSurvivesPaging` |
| ArtTable.AfterInput | src/components/ArtDatatable.tsx:118-122 | definition: the box takes `FilterInput`; its properties are in `InputKeepsValid` and the ensures of `FilterInput` |
| ArtTable.AfterToggleOverlay | src/components/ArtDatatable.tsx:101-104 | definition: input cleared, overlay toggled; its properties are in `InputKeepsValid` |
| ArtTable.SubmitWith | src/components/ArtDatatable.tsx:126-179 | definition of the submit handler, parameterised by the map the refetch reconciles against; its properties are in `SubmitRejects`, `SubmitReplacesMap`, `SubmitShowsNewSelection`, `SubmitSelectsCount`, `SubmitKeepsValid` |
| ArtTable.WalkWith | src/components/ArtDatatable.tsx:140-178 | definition of the accepted branch: walk, refetch, success toast, clear and close; its properties are in `SubmitReplacesMap`, `SubmitShowsNewSelection`, `SubmitSelectsCount` |
| ArtTable.Walked | src/components/ArtDatatable.tsx:140-170 | definition of the state just after the walk: map replaced by the walk's, selection cleared, failure toasted; its properties are in `SubmitReplacesMap`, `SelectFirstNBounds` |
| ArtTable.AfterSubmit | src/components/ArtDatatable.tsx:126-179 | definition: submit with the refetch reconciling against the new map; its properties are in `SubmitRejects`, `SubmitReplacesMap`, `SubmitShowsNewSelection`, `SubmitSelectsCount`, `SubmitKeepsValid` |
| ArtTable.AfterSubmitAsWritten | src/components/ArtDatatable.tsx:172-173 | definition: submit as written, the refetch reconciling against the map of the click; its consequence is in `SubmitAsWrittenHidesNewSelection` |
| ArtTable.ArtDataTable.constructor | src/components/ArtDatatable.tsx:21-30 | the hooks' initial values |
| ArtTable.ArtDataTable.FetchData | src/components/ArtDatatable.tsx:40-66 | the state afterwards is `AfterFetch` of the state before, and it stays valid |
| ArtTable.ArtDataTable.Mount | src/components/ArtDatatable.tsx:35-38 | the first effect fetches the page `first` points at |
| ArtTable.ArtDataTable.OnPage | src/components/ArtDatatable.tsx:68-71 | the state afterwards is `AfterPage`, and it stays valid |
| ArtTable.ArtDataTable.OnSelectionChange | src/components/ArtDatatable.tsx:73-92 | the state afterwards is `AfterSelectionChange`, and it stays valid |
| ArtTable.ArtDataTable.OnInputChange | src/components/ArtDatatable.tsx:118-122 | the state afterwards is `AfterInput`, and it stays valid |
| ArtTable.ArtDataTable.ToggleOverlay | src/components/ArtDatatable.tsx:101-104 | the input is cleared and the overlay toggled |
| ArtTable.ArtDataTable.Submit | src/components/ArtDatatable.tsx:126-179 | the state afterwards is `AfterSubmit` (walk, then refetch against the new map), and it stays valid |
| ArtTable.ArtDataTable.SelectAndRefresh | src/components/ArtDatatable.tsx:140-178 | the accepted branch: walk, refetch against the new map, report, close |
| ArtTable.ArtDataTable.RunWalk | src/components/ArtDatatable.tsx:140-170 | the map becomes the walk's, the visible selection is cleared, a failure is reported; returns the walk's counter |

## Left out

- Rendering is not modelled. This covers the PrimeReact table, columns, header template, overlay panel and toasts. The overlay is a boolean. A toast is a `Notice` carrying its kind and its numbers, without severity, text or lifetime.
- The network and JSON decoding are not modelled. A request is a call to the `Source` parameter, and a failure is `None`: a non-ok status, a network exception, or a body that does not parse. The source is a fixed function, so a dataset that changes between requests is not modelled.
- ArtTable.FetchWith: a body that parses but lacks `pagination` or `data` throws only after part of the state was set (src/components/ArtDatatable.tsx:49-53): `data` or `totalRecords` is already replaced when the catch at :60-62 shows the error toast, and the visible selection is stale. The model treats such a body as a failure (`None`) that keeps the old rows and total.
- `console.error` logging is not modelled.
- React scheduling is not modelled. State updates are applied in order, as the handler makes them. Re-renders, batching and the order of awaits are not modelled. A page change made while a walk is still running is not modelled either, because the component does not coordinate the two.
- ArtTable.ArtDataTable.FetchData: it sets `loading` to true and then to false. Its contract states only the final state, so the loading indicator between the two is not observable.
- Paging.CurrentPage: it requires `first` to be a multiple of `rows`. The paginator reports only such offsets. A fractional page number, which JavaScript division would produce otherwise, is not modelled.
- BulkWalk.BulkSelect: it computes `ceil(total / rows)` once. The source recomputes it on every iteration, but from values that do not change during the walk.
- BulkInput.ParseInt: it does not skip leading whitespace; the input box admits only digit strings, so no whitespace reaches it.
- BulkInput.ParseInt: it returns the exact value of a digit string, whereas JavaScript rounds values above 2^53 to a double and gives `Infinity` for very long strings. Such strings do reach `parseInt`, since `/^\d*$/` puts no limit on length. Both the source and the model refuse them as too many rows (for any total below 2^53), so the decision is the same; only the number in the warning differs: exact in the model (`ValidateDigits`), rounded or `Infinity` in the source (:135).
- src/main.tsx and src/App.tsx are not part of this model. They only mount the component.

## Findings

| source | as written | input that shows it | evidently intended | confidence | as-written member | corrected member |
|---|---|---|---|---|---|---|
| src/components/ArtDatatable.tsx:172-173 | the submit handler refetches the current page with the `fetchData` of the render in which the button was clicked, which reconciles against the map of that moment, not the one just built | a dataset of one row with id "1", nothing selected, "1" submitted: the row goes into the map, but the refreshed page shows it unselected | the refreshed page is reconciled against the new map, so the current page shows the rows just selected | not executed; high, by the closure semantics of React function components | ArtTable.SubmitAsWrittenHidesNewSelection | ArtTable.SubmitShowsNewSelection |
