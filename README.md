# Seminar manager: a Dafny model of its collection logic

The application keeps a list of seminars (an integer `id` plus title, description,
date, time and photo URL) in one JSON file. This project models three parts of it:

- **The collection route** (`app/api/seminars/route.ts`). `getSeminarsData` is a
  fail-open load: a file that cannot be read or parsed counts as the empty collection.
  `GET` returns the loaded records. `POST` folds over the existing ids to find `maxId`,
  starting from 0, and overwrites the payload's id with `maxId + 1`. It then appends the
  payload, writes the file, and answers 201 with the stored record. The answer ignores
  whether the write succeeded.
- **The list view** (`components/SeminarsList.tsx`). The search keeps a record when the
  lower-cased query occurs in its lower-cased title or description. An empty query shows
  everything. A successful delete drops every record with the id, and a successful update
  replaces every record with the returned record's id. A failed call sets `error` and
  leaves the list unchanged. `loadSeminars` sets `loading` and clears `error` before the
  fetch, and it always ends with `loading` off.
- **The edit dialog** (`components/EditSeminarModal.tsx`). This is a three-step form.
  `nextStep` and `prevStep` move a step counter that never leaves 1..3. `handleChange`
  sets one field of `formData`. The footer shows the submit button only on the last step.
  A successful submit closes the dialog and returns to step 1. A failed submit shows an
  error and stays on the same step.

Files, one module each:

- `records.dfy`: `Records`, the `Seminar` record and `Option`.
- `builtins.dfy`: `Builtins`, the JavaScript operations the code relies on
  (`Array.prototype.filter`, `String.prototype.includes`, `String.prototype.toLowerCase`).
- `seminars_api.dfy`: `SeminarsApi`, the route.
- `seminars_list.dfy`: `ListView`, the list view.
- `edit_modal.dfy`: `EditModal`, the dialog.

External effects are parameters:

- The backing file is a `SeminarsFile` object. Its `document` is `Unreadable`,
  `Malformed` or `Parsed(records)`.
- The request body is an `Option<Seminar>`. `None` means the body is not JSON.
- Whether the file write succeeds is a boolean.
- The client's server calls are `Option` results (`None` when the call throws) or
  booleans.
- The edit dialog's `onUpdate` callback either resolves or rejects.

Two handlers change state before their `await`: `loadSeminars` and `handleSubmit`. Each
is split there. A `Begin…` method runs before the awaited call and an `End…` method runs
after it, and a composed method (`LoadSeminars`, `HandleSubmit`) does both in one step.
The other handlers change no state before their `await`: `handleDelete`, `handleUpdate`,
`GET` and `POST`. Each of them is one method that takes the awaited result as a parameter.

`getSeminarsData` catches every read and parse failure and returns `{ seminars: [] }`, so
`GET` answers 200 with an empty list. Its `catch` branch (route.ts:45-48) cannot be
reached for the documents modelled here.

The edit dialog's `onUpdate` is the list's `handleUpdate`, passed on by the card
component. `handleUpdate` catches its own failures and never rejects. In the assembled
application, a submit therefore always closes the dialog and resets the step. When the
update failed, the list shows its own error instead. The `EditSeminarModal` class models
the dialog against an arbitrary callback, so both of its outcomes stay reachable.

## Model

| member | source | states |
|---|---|---|
| Builtins.Filter | components/SeminarsList.tsx:37-41 | `filter` returns only elements that pass, and never more than it was given |
| Builtins.FilterIsSubsequence | components/SeminarsList.tsx:37-41 | the result of `filter` is an order-preserving subsequence of its input |
| Builtins.FilterCounts | components/SeminarsList.tsx:37-41 | every occurrence of a passing element is kept and every failing one dropped (exact multiplicities) |
| Builtins.FilterKeepsPassing | components/SeminarsList.tsx:58 | every element that passes appears in the result |
| Builtins.FilterAllKept | components/SeminarsList.tsx:36-42 | `filter` returns its input unchanged if and only if every element passes |
| Builtins.Includes | components/SeminarsList.tsx:38-40 | `includes` is true exactly when the part occurs at some index of the text |
| Builtins.LowerChar | components/SeminarsList.tsx:38-40 | a capital (A–Z, U+0410–U+042F, U+0401) becomes its lower-case partner, every other character is unchanged, and the result is never a capital |
| Builtins.ToLowerCase | components/SeminarsList.tsx:38-40 | `toLowerCase` keeps the length, leaves no capital, replaces each capital by its lower-case partner and keeps every other character |
| Builtins.ToLowerCaseIdempotent | components/SeminarsList.tsx:38-40 | lower-casing an already lower-cased string changes nothing |
| SeminarsApi.GetSeminarsData | app/api/seminars/route.ts:19-27 | an unreadable or unparsable file loads as the empty collection; a parsed one loads as its records |
| SeminarsApi.WriteSeminarsData | app/api/seminars/route.ts:30-38 | a successful write replaces the whole document with the data; a failed one leaves it and reports false |
| SeminarsApi.SeminarsData.Push | app/api/seminars/route.ts:61 | `push` appends the record at the end and changes nothing else |
| SeminarsApi.MaxIdFrom | app/api/seminars/route.ts:58 | the `reduce` step yields the largest of the accumulator and every id |
| SeminarsApi.MaxId | app/api/seminars/route.ts:58 | `maxId` is the maximum of 0 and all ids: at least 0, no id above it, equal to 0 or to some id, and 0 for an empty collection |
| SeminarsApi.NextId | app/api/seminars/route.ts:58-60 | the assigned id is at least 1, strictly above every stored id, and 1 for an empty collection |
| SeminarsApi.WithAssignedId | app/api/seminars/route.ts:60 | the stored record is the payload with its id, whatever it was, replaced by the assigned id |
| SeminarsApi.Get | app/api/seminars/route.ts:41-49 | `GET` answers 200 with the loaded records in stored order, or with the empty list when the file is unreadable or malformed |
| SeminarsApi.Post | app/api/seminars/route.ts:52-70 | a body that is not JSON yields 500 and no write; otherwise the answer is 201 with the payload under its new id, and the file (when the write succeeds) holds the old records followed by it; 201 is returned even when the write fails |
| SeminarsApi.MaxIdFromAppend | app/api/seminars/route.ts:58 | folding over one more record gives the larger of the previous result and that record's id |
| SeminarsApi.CreateRaisesMaxByOne | app/api/seminars/route.ts:58-61 | after a create the new record holds the maximum id, so consecutive creates get consecutive ids |
| SeminarsApi.CreateAppendsFreshRecord | app/api/seminars/route.ts:58-61 | a create grows the collection by one, keeps the earlier records in place, puts the new record last, and keeps ids distinct |
| SeminarsApi.FailOpenLoadStartsAtOne | app/api/seminars/route.ts:55-60 | over an unreadable or malformed file the collection is empty and the created record gets id 1 |
| SeminarsApi.NextIdAfterGap | app/api/seminars/route.ts:58-60 | a collection with ids 1 and 3 gives the next record id 4 |
| ListView.MatchesQuery | components/SeminarsList.tsx:38-40 | a record matches exactly when the lower-cased query occurs at some index of its lower-cased title or of its lower-cased description; the empty query matches every record |
| ListView.FilterByQuery | components/SeminarsList.tsx:36-42 | the empty query shows the fetched list itself; otherwise the shown list is no longer than the fetched one and every shown record matches the query |
| ListView.OtherThan | components/SeminarsList.tsx:58 | the delete filter keeps a record exactly when its id differs from the deleted id |
| ListView.WithoutId | components/SeminarsList.tsx:58 | no record left by the local delete has the deleted id |
| ListView.ReplaceById | components/SeminarsList.tsx:70 | the local update keeps the length and every id; records with the updated id become the updated record, all others are unchanged |
| ListView.EmptyQueryShowsAll | components/SeminarsList.tsx:36-42 | the empty query shows the fetched list unchanged, and filtering with it would too |
| ListView.SearchKeepsExactlyMatches | components/SeminarsList.tsx:36-42 | the shown list is an order-preserving subsequence of the fetched list, and a record is shown iff it was fetched and its lower-cased title or description includes the lower-cased query |
| ListView.SearchIgnoresQueryCase | components/SeminarsList.tsx:38-40 | a query and its lower-cased form show the same list |
| ListView.DeleteKeepsOthersInOrder | components/SeminarsList.tsx:58 | after a delete every record with another id is still shown, in the original order |
| ListView.DeleteMissingIdIsNoOp | components/SeminarsList.tsx:58 | deleting an id that no record has leaves the list unchanged |
| ListView.DeleteRemovesExactlyOne | components/SeminarsList.tsx:58 | with distinct ids, deleting a record's id removes exactly that record |
| ListView.UpdateMissingIdIsNoOp | components/SeminarsList.tsx:70 | an update whose id no record has leaves the list unchanged |
| ListView.UpdateIdempotent | components/SeminarsList.tsx:70 | applying the same update twice is applying it once |
| ListView.UpdateKeepsIds | components/SeminarsList.tsx:70 | an update keeps distinct ids distinct, and shows the updated record when its id was present |
| ListView.DeleteAfterUpdate | components/SeminarsList.tsx:54-75 | deleting an id after updating that id gives the same list as deleting it without the update |
| ListView.SeminarsList.constructor | components/SeminarsList.tsx:15-19 | a mounted list starts empty, loading and without error |
| ListView.SeminarsList.BeginLoad | components/SeminarsList.tsx:29-30 | `loadSeminars` first sets loading and clears the error |
| ListView.SeminarsList.EndLoad | components/SeminarsList.tsx:32-50 | after the fetch the list is the query-filtered data, or unchanged with the load error set; loading is off either way |
| ListView.SeminarsList.LoadSeminars | components/SeminarsList.tsx:27-51 | a whole load ends not loading, with the filtered data and no error, or with the old list and the load error |
| ListView.SeminarsList.SearchChanged | components/SeminarsList.tsx:22-24 | a new query reloads the list under that query |
| ListView.SeminarsList.HandleDelete | components/SeminarsList.tsx:54-63 | a successful delete drops the id locally; a failed one keeps the list and sets the delete error |
| ListView.SeminarsList.HandleUpdate | components/SeminarsList.tsx:66-75 | a successful update replaces by the returned record's id; a failed one keeps the list and sets the update error |
| EditModal.WithField | components/EditSeminarModal.tsx:38-44 | a field change sets the named field and leaves every other field and the id unchanged |
| EditModal.FieldEditLaws | components/EditSeminarModal.tsx:38-44 | re-entering a field's value changes nothing, the last of two edits to a field wins, and edits to different fields commute |
| EditModal.StepAfter | components/EditSeminarModal.tsx:64-74 | "next" adds one below the last step and "back" subtracts one above the first; otherwise the step stays, and it never leaves 1..3 |
| EditModal.NavigateStaysInRange | components/EditSeminarModal.tsx:64-74 | no sequence of "next"/"back" presses takes the step outside 1..3 |
| EditModal.NavigateBoundedByForwards | components/EditSeminarModal.tsx:64-74 | the step rises at most one per "next", so reaching the last step from step 1 takes at least two "next" presses |
| EditModal.BackUndoesNext | components/EditSeminarModal.tsx:64-74 | "back" undoes "next" below the last step, and "next" undoes "back" above the first |
| EditModal.FooterFor | components/EditSeminarModal.tsx:245-272 | "back" shows above step 1; the submit button shows exactly on the last step and "next" otherwise; the buttons are disabled while submitting |
| EditModal.EditSeminarModal.constructor | components/EditSeminarModal.tsx:31-35 | the form starts as a copy of the seminar, on step 1, idle, without error |
| EditModal.EditSeminarModal.HandleChange | components/EditSeminarModal.tsx:38-44 | `formData` becomes the old data with just the named field replaced |
| EditModal.EditSeminarModal.NextStep | components/EditSeminarModal.tsx:64-68 | the step moves up by one unless on the last step, and stays within 1..3 |
| EditModal.EditSeminarModal.PrevStep | components/EditSeminarModal.tsx:70-74 | the step moves down by one unless on the first step, and stays within 1..3 |
| EditModal.EditSeminarModal.BeginSubmit | components/EditSeminarModal.tsx:47-53 | submitting starts with `isSubmitting` on, the error cleared and `formData` handed to `onUpdate` |
| EditModal.EditSeminarModal.EndSubmit | components/EditSeminarModal.tsx:52-61 | on success the dialog closes and the step returns to 1; on failure the error is set and the step kept; `isSubmitting` ends off either way |
| EditModal.EditSeminarModal.HandleSubmit | components/EditSeminarModal.tsx:47-62 | a whole submit sends the form data, ends not submitting, and either closes on step 1 without error or keeps the step with the error set |

## Left out

- Reading and writing the file, `JSON.parse` and `JSON.stringify` are oracles. A successful write is taken to store exactly the records, so the next load reads them back.
- A write that fails part-way is not modelled. A failed write leaves the document as it was.
- A file that parses as JSON without holding a `seminars` array (`null`, `{}`, …) is not modelled. Such files lead the handlers into their 500 branches or into returning non-arrays.
- A request body that parses as JSON but is not a seminar-shaped object (an array, a number) is not modelled. The payload is always a `Seminar`, with any id.
- Ids are mathematical integers. JavaScript numbers (fractions, `NaN`, precision loss above 2^53) are not modelled.
- HTTP plumbing is reduced to the status code. `console` logging is not modelled.
- The item routes for fetch-by-id, replace and delete (app/api/seminars/[id]/route.ts) are not part of this model. The client's calls to them are oracles.
- The client data-access layer (lib/api.ts) is not modelled. Each of its calls becomes a success or failure input.
- Concurrency is not modelled. Each handler is one atomic step: there are no races between requests on the file and no stale `seminars` closures in the list's handlers.
- The timer that resets the step 300 ms after the dialog closes (components/EditSeminarModal.tsx:212) is not modelled.
- Builtins.LowerChar: lower-cases only A–Z and the basic Cyrillic capitals (U+0410–U+042F, U+0401). It is not the full Unicode `toLowerCase`, and strings are sequences of code points, not UTF-16 units.
- Rendering is not modelled: the loading skeleton, the error panel, the search headings, the progress bar, animation and theming. The footer buttons are the one exception (`FooterFor`).
- The Russian error messages become the constructors of `ListError` and `ModalError`.
- Implicit form submission (pressing Enter in an input on an earlier step) is a browser behaviour and is not modelled. `HandleSubmit`, like `handleSubmit`, does not check the step.
