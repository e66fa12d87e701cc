# Workout admin page — a Dafny model of its client-side state logic

The admin application keeps an ordered list of scheduled workouts. Each workout has a
server-assigned `id`, five text fields (`name`, `location`, `mapsUrl`, `schedule`,
`eventType`) and an optional integer `sortOrder`. Its one page, `WorkoutsPage`, holds that
list together with a loading flag, the identifier and draft of the row being edited, a
creation form, and per-field error flags for both forms. This project models that page as
pure functions over immutable values. The functions cover:

- the sort applied to the fetched list;
- creating, deleting and saving rows;
- moving a row one place up or down, including the two sortOrder PUTs that announce the
  move to the server;
- field validation, and the form gate that enables the Create and Save buttons;
- the change, blur, edit and cancel transitions of the two forms.

Every network call becomes a parameter: the outcome the handler reacts to.

- `Response<T>` is either `Ok(body)` or `Failed`. A non-2xx status and a network error both
  land in the handler's `catch`, so they are modelled as one case.
- `FetchStatus` is either `NetworkError` or `Responded(ok)`. It is used for the two PUTs of a
  move. `Promise.all` rejects only on a network error, so an error status still counts as
  settled.

Modules:

- `Wrappers` (`wrappers.dfy`): `Option`, `Response`, `FetchStatus`.
- `Workouts` (`workout.dfy`): the `Workout` record, `SortKey` (`sortOrder ?? 0`), and the
  loosely typed `Form` and `ErrorFlags` objects.
- `Ordering` (`ordering.dfy`): the fetch-time stable sort and the proposed sortOrder for a
  new row.
- `ListOps` (`list_ops.dfy`): delete (filter by id) and save (map by id).
- `Reorder` (`reorder.dfy`): locating the row and its neighbour, the two PUT bodies, and the
  local update. It also holds a model of the server's stored sortOrder values, used to state
  what the two PUTs do.
- `Validation` (`validation.dfy`): `isValidUrl`, `isFieldValid`, `isValidForm`, and the
  change and blur updates of a draft and its flags.
- `Page` (`page.dfy`): the page state, one transition per handler, `Step` over an `Event`,
  and the invariants kept across events.

`new URL(url)` is the parameter `parses: string -> bool`. Only the `"https"` prefix test is
concrete.

## Model

| member | source | states |
|---|---|---|
| Ordering.SortByKey | apps/admin/app/page.tsx:55 | the fetched list, sorted by `sortOrder ?? 0`, is in non-decreasing key order and is a permutation of the response |
| Ordering.InsertKeepsSorted | apps/admin/app/page.tsx:55 | inserting a row into a sorted list, ahead of every row with a key at least its own, keeps the list sorted |
| Ordering.SortByKeyStable | apps/admin/app/page.tsx:55 | the sort is stable: for every key, the rows with that key keep their relative order |
| Ordering.MaxKey | apps/admin/app/page.tsx:218 | `Math.max` over the keys bounds every key and equals one of them |
| Ordering.NextSortOrder | apps/admin/app/page.tsx:217-219 | the proposed sortOrder is 0 for an empty list; otherwise it is strictly above every row's key and equals some row's key plus one |
| Ordering.NextSortOrderIgnoresOrder | apps/admin/app/page.tsx:217-219 | the proposal depends only on which rows exist, not on their order |
| Ordering.NextSortOrderFollowsKeys | apps/admin/app/page.tsx:217-219 | two lists with equal keys position by position get the same proposal |
| Ordering.AppendAtNextSortOrder | apps/admin/app/page.tsx:217-219 | a row numbered with the proposal and appended keeps a sorted list sorted, and the next proposal is one higher |
| ListOps.RemoveId | apps/admin/app/page.tsx:103 | after a delete no row has the id; every other row keeps its multiplicity; a missing id changes nothing |
| ListOps.RemoveIdDistributes | apps/admin/app/page.tsx:103 | a delete acts on each part of a concatenation separately, so surviving rows keep their relative order |
| ListOps.RemoveIdKeepsSorted | apps/admin/app/page.tsx:103 | a delete keeps a sorted list sorted |
| ListOps.RemoveIdKeepsUnique | apps/admin/app/page.tsx:103 | a delete keeps identifiers unique |
| ListOps.RemoveIdAddsNoId | apps/admin/app/page.tsx:103 | a delete never introduces an identifier |
| ListOps.ReplaceId | apps/admin/app/page.tsx:124-128 | a save keeps the length, puts the returned row at every position whose id is the editing id, and leaves all other positions alone |
| ListOps.ReplaceIdSingleRow | apps/admin/app/page.tsx:124-128 | with unique ids, a save changes exactly the one row with the editing id; with no editing id or an unknown one it changes nothing |
| ListOps.ReplaceIdKeepsUnique | apps/admin/app/page.tsx:124-128 | a save keeps ids unique when the returned row has the editing id |
| Reorder.FindIndex | apps/admin/app/page.tsx:139-142 | `find` plus `indexOf` gives the first position holding the id, or nothing when no row has it |
| Reorder.PlanReorder | apps/admin/app/page.tsx:139-166 | a move is a no-op exactly when the id is absent, or its first row is at index 0 moving up, or at the last index moving down; otherwise the first row with the id is exchanged with the row directly above (up) or below (down) it, the moved row is sent the neighbour's sortOrder and the neighbour is sent the moved row's |
| Reorder.PlanNoMoveCases | apps/admin/app/page.tsx:139-146 | a move is a no-op when the id is absent, when moving up from index 0, and (ids unique) when moving down from the last index |
| Reorder.PlanExchangeCases | apps/admin/app/page.tsx:142-166 | in every other case the row and its neighbour (index ±1) are exchanged; the moved row is sent the neighbour's sortOrder and the neighbour is sent the moved row's |
| Reorder.SwapAt | apps/admin/app/page.tsx:169-171 | exchanging two positions keeps the length and the multiset and leaves every other position alone |
| Reorder.HandleSortOrderChange | apps/admin/app/page.tsx:137-177 | the move as written: a no-op or a network failure leaves the list unchanged; once both PUTs settle, the two positions trade rows, each row keeping its own sortOrder field, and the result is a permutation |
| Reorder.SwapDespiteErrorStatus | apps/admin/app/page.tsx:151-173 | the local exchange happens even when the server answered both PUTs with an error status |
| Reorder.HandleSortOrderChangeCorrected | apps/admin/app/page.tsx:168-173 | corrected move: the rows trade places and trade sortOrder values, so every position keeps its sortOrder |
| Reorder.CorrectedMoveKeepsSorted | apps/admin/app/page.tsx:168-173 | the corrected move keeps a sorted list sorted |
| Reorder.AsWrittenMoveBreaksOrder | apps/admin/app/page.tsx:168-171 | with the code as written, a settled exchange of two rows with different keys in a sorted list leaves the list out of key order |
| Reorder.TwoRowMoveUpOrder | apps/admin/app/page.tsx:168-171 | with A(0) and B(1), moving B up leaves B before A out of key order as written, and in key order with the corrected move |
| Reorder.CorrectedMoveKeepsUnique | apps/admin/app/page.tsx:168-173 | the corrected move keeps ids unique |
| Reorder.ApplyPut | apps/admin/app/page.tsx:151-166 | the server side of one of these PUTs, whose item route passes the body's fields to a keyed update: a sortOrder-only body sets that row's stored value to the value sent, `null` included, and nothing else; for an unknown id nothing changes |
| Reorder.CorrectedMoveKeepsAgreement | apps/admin/app/page.tsx:151-173 | if both PUTs succeed, the corrected move leaves every local row carrying the value the server stores for it |
| Reorder.RejectedPutsKeepAgreement | apps/admin/app/page.tsx:151-173 | when the server rejects both PUTs with an error status, the store keeps its values and the as-written swap still leaves every row agreeing with it |
| Reorder.AsWrittenMoveBreaksAgreement | apps/admin/app/page.tsx:151-173 | with the code as written, exchanging two rows with different sortOrders leaves the page disagreeing with the server |
| Reorder.MoveKeepsNextSortOrder | apps/admin/app/page.tsx:217-219 | neither version of a move changes the sortOrder proposed for the next new row |
| Reorder.TwoRowMoveUp | apps/admin/app/page.tsx:137-173 | with A(0) and B(1), moving B up sends B the value 0 and A the value 1; the server then stores A=1 and B=0, and the page shows B, A |
| Reorder.StaleSortOrderCounterexample | apps/admin/app/page.tsx:151-173 | with A(0), B(1), C(2), moving C up twice with the code as written leaves A and B both stored with sortOrder 2 |
| Reorder.CorrectedSampleKeepsDistinct | apps/admin/app/page.tsx:151-173 | the same two moves with the corrected handler leave C=0, A=1, B=2 |
| Validation.IsValidUrl | apps/admin/app/page.tsx:186-192 | a URL is valid iff it parses and its first five characters are "https" |
| Validation.IsFieldValid | apps/admin/app/page.tsx:179-184 | an empty value is invalid for every field; any non-empty value is valid for fields other than `mapsUrl`; a `mapsUrl` is valid iff it parses and begins with "https" |
| Validation.MapsUrlExamples | apps/admin/app/page.tsx:186-192 | "https://example.com/x" is accepted when it parses; "http://example.com/x" and "" are rejected |
| Validation.SortOrderExempt | apps/admin/app/page.tsx:202-206 | the gate gives the same verdict whether or not `sortOrder` is present, whatever its value |
| Validation.IsValidForm | apps/admin/app/page.tsx:202-211 | the gate opens iff every key other than `sortOrder` holds a string that is valid for its field and whose flag is down, so one non-string, invalid or flagged key closes it; an open gate has no empty string outside `sortOrder` |
| Validation.MoreFlagsOnlyClose | apps/admin/app/page.tsx:210 | raising more error flags can only close the gate |
| Validation.Change | apps/admin/app/page.tsx:67-75 | a change event stores the typed string, sets the field's flag to false, and leaves every other key and flag unchanged |
| Validation.Blur | apps/admin/app/page.tsx:194-200 | after a blur event the field's flag equals `!isFieldValid`; other flags are unchanged |
| Validation.ChangeThenBlurDecidesField | apps/admin/app/page.tsx:194-210 | after typing a value and leaving the field, the gate passes that field iff the value is valid |
| Validation.InitialCreateFormRejected | apps/admin/app/page.tsx:39-46 | the creation form the page starts with keeps Create disabled |
| Validation.EditDraftAlwaysRejected | apps/admin/app/page.tsx:77-81 | a draft copied from a row includes its numeric `id`, so `isValidForm` rejects it whatever the flags |
| Validation.CorrectedGateAcceptsValidRow | apps/admin/app/page.tsx:202-211 | the corrected gate exempts `id` too; it accepts a fresh edit of a row with valid fields, and agrees with `isValidForm` on every form that has no `id` |
| Page.Loaded | apps/admin/app/page.tsx:50-65 | a fetched list is stored sorted and as a permutation of the response; success or failure, loading ends; nothing else changes |
| Page.NewWorkoutChange | apps/admin/app/page.tsx:67-70 | typing into the creation form sets the field (adding no other key) and clears its flag; every other key, every other flag and the rest of the page are unchanged |
| Page.EditChange | apps/admin/app/page.tsx:72-75 | typing into the edit draft sets the field (adding no other key) and clears its flag; every other key, every other flag and the rest of the page are unchanged |
| Page.FieldBlur | apps/admin/app/page.tsx:194-200 | a blur sets the chosen form's flag for the field to `!isFieldValid`; that form's other flags and the rest of the page are unchanged |
| Page.EditClick | apps/admin/app/page.tsx:77-81 | Edit records the row's id, makes the draft exactly the row's properties (id, the five text fields, and sortOrder, which is `null` when the row has none), and clears the draft flags |
| Page.CancelEdit | apps/admin/app/page.tsx:83-87 | Cancel clears the editing id, the draft and the draft flags |
| Page.Delete | apps/admin/app/page.tsx:93-107 | a successful delete removes exactly the rows with that id and keeps the others; a failed one changes nothing |
| Page.SaveEdit | apps/admin/app/page.tsx:109-135 | a successful save replaces only the rows with the editing id and keeps the length; it then clears the editing id and empties the draft, but keeps the draft error flags; a failed save changes nothing |
| Page.CreateBody | apps/admin/app/page.tsx:216-226 | the POST body is the creation form plus a sortOrder above every existing key, or 0 for an empty list |
| Page.Create | apps/admin/app/page.tsx:214-247 | a successful create appends the server's row after the existing ones and resets the form to five empty fields (no `sortOrder`); a failed one changes nothing |
| Page.Move | apps/admin/app/page.tsx:137-177 | a move (corrected) keeps the same ids and keeps every position's sortOrder; nothing but the list changes |
| Page.Step | apps/admin/app/page.tsx:49-247 | one event: only a completed fetch touches the loading flag (and ends loading); typing, blur, Edit and Cancel leave the list alone; fetch, delete and move change only the list and loading flag; a move permutes the ids |
| Page.InitialCannotCreate | apps/admin/app/page.tsx:39-46 | the page starts with Create disabled |
| Page.EditClickGate | apps/admin/app/page.tsx:77-81 | after Edit on a row with valid fields, Save is enabled under the corrected gate while the gate as written stays closed on the same draft |
| Page.MoveIdsPermuted | apps/admin/app/page.tsx:168-173 | the identifiers after a move are a permutation of those before |
| Page.PermutationKeepsUnique | apps/admin/app/page.tsx:55 | reordering a list with unique ids, as the fetch-time sort does, keeps ids unique |
| Page.AppendKeepsUnique | apps/admin/app/page.tsx:234 | appending a created row under a fresh id keeps ids unique |
| Page.AppendKeepsSorted | apps/admin/app/page.tsx:234 | appending a created row whose key is at least every key keeps the list sorted |
| Page.StepKeepsUniqueIds | apps/admin/app/page.tsx:49-247 | every event keeps ids unique, provided the server returns unique ids, a fresh id on create and the edited id on save |
| Page.StepKeepsSorted | apps/admin/app/page.tsx:49-247 | with the corrected move, every event except a successful save keeps the list sorted; a create does so when the returned key is at least every existing key |
| Page.EditThenCancelIsIdle | apps/admin/app/page.tsx:77-87 | Edit followed by Cancel returns an idle edit state to exactly where it was |

## Findings

| source | as written | input that shows it | evidently intended | confidence | as-written member | corrected member |
|---|---|---|---|---|---|---|
| apps/admin/app/page.tsx:168-173 | after the two PUTs, the local swap exchanges the rows' positions but not their `sortOrder` fields, so the next move of either row sends stale values | rows A(id 1, sortOrder 0), B(2, 1), C(3, 2); move C up twice; the server ends with A=2, B=2, C=0 | the local rows also exchange `sortOrder`, so the page keeps agreeing with the server (C=0, A=1, B=2) | high for the stale values sent; the stored outcome needs the item route to find the row from the URL's string id, so string ids, the opposite of what the next row needs, and at most one of the two rows holds as stated; not executed | Reorder.StaleSortOrderCounterexample | Reorder.CorrectedMoveKeepsAgreement |
| apps/admin/app/page.tsx:77-81 | Edit copies the whole row into the draft, numeric `id` included; `isValidForm` (lines 202-211) exempts only `sortOrder`, so the non-string `id` makes the gate fail and Save stays disabled | any row, e.g. `{id: 1, name: "A", …}`; after Edit the gate returns false | the gate also skips `id`, which the user never edits | medium, because it holds only if ids reach the page as numbers, as the page's `Workout` type declares, while the stored outcome of the row above needs string ids, so at most one of the two rows holds as stated; not executed | Validation.EditDraftAlwaysRejected | Validation.CorrectedGateAcceptsValidRow |

The page-level transitions use the corrected versions. `Page.Move` uses
`Reorder.HandleSortOrderChangeCorrected`, and `Page.CanSave` and `Page.CanCreate` use
`Validation.IsValidFormCorrected`. The as-written members stay in `Reorder` and
`Validation`, with their own lemmas.

## Left out

- The server handlers are not modelled, except for the effect of a sortOrder-only PUT on
  the stored value (`Reorder.ApplyPut`). The list route's POST drops the `sortOrder` the page
  sends (apps/admin/app/api/workouts/route.ts:17). So the model never assumes the created row
  carries the proposed number: that row is a parameter of `Page.Create`.
- `Page.StepKeepsSorted`: states nothing about a successful save. The server may return a
  row with any sortOrder, so a save can break the order. It also holds only for the
  corrected move that `Page.Step` uses: the move as written swaps positions without
  swapping sortOrder values, which breaks key order (`Reorder.AsWrittenMoveBreaksOrder`).
- `Reorder.ApplyPut`: assumes the item route's keyed update finds the row from the URL's
  `id`, which is a string (apps/admin/app/api/workouts/[id]/route.ts:5-11), so ids are
  strings. With a numeric id column every PUT fails with status 500 and nothing is
  stored, and the as-written move then still agrees with the store
  (`Reorder.RejectedPutsKeepAgreement`). It also assumes the sortOrder column accepts `null`. A row without a
  sortOrder reaches the page as `null`, and a move sends that `null` back, which the model
  stores. The database schema is not part of this model; if the column were required,
  that update would fail and the stored value would stay as it was.
- `apps/admin/prisma/seed.ts` is a one-time database write (sortOrder `i` for the i-th
  fixed row). It is not part of this model.
- `fetch`, JSON encoding, status handling and console logging are out. Each call is reduced
  to the outcome that gates the state update. The interleaving of the two concurrent PUTs of
  a move, and a partial failure where only one of them is stored, are out too.
  `Reorder.CorrectedMoveKeepsAgreement` assumes both PUTs were stored.
- `Page.Step` applies each event to the current state in one atomic step. In the page, a
  move reads the list captured at the click and writes it back with a plain
  `setWorkouts(updatedWorkouts)` once its PUTs settle (page.tsx lines 139-173), so a delete,
  save or create that completes while a move's PUTs are in flight is overwritten: with
  A, B, C, deleting A and then moving C up before the DELETE returns shows A, C, B again.
  Delete, save and create use `prev =>` updates and do not lose each other's changes. The
  proposed sortOrder of a create is likewise computed from the list at the click
  (page.tsx lines 217-218). These interleavings are not modelled.
- WHATWG URL parsing (`new URL`) is the parameter `parses`.
- React hooks, rendering, MUI components, the loading spinner and the `disabled` wiring of
  the buttons are out. The arrow buttons are disabled at the first and last row (page.tsx
  lines 423 and 429), so the handler's own bound checks are what the model states.
  `Page.CanCreate` and `Page.CanSave` name the gate the buttons would use.
- JavaScript numbers are doubles. Keys and identifiers are modelled as unbounded integers,
  which is exact up to 2^53. Spreading a very long list into `Math.max` is not modelled.
- `Page.SaveEdit` takes the editing id as `Option<int>`. With a null id the PUT goes to
  `/api/workouts/null` and fails; the model covers that through the outcome parameter.
