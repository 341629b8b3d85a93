# DateSaver record store

A model of the record store inside the `DateSaver` component of a
save-the-date stationery site. Visitors fill in a form (title, occasion, date,
location, note, and an optional product bundle) and save it as a record. Saved
records are kept in a newest-first list in browser storage and can be removed
one by one. The bundle a form or a record refers to is looked up in the
product catalog by id.

The store is modelled as an immutable `State` with three parts: the form, the
saved list and a status flag (`Idle`, `Saved`, `Error`). Each user action is
a pure transition function. The nondeterministic inputs become parameters:

- the id from `crypto.randomUUID()` is an `id` argument of `Submit`;
- the clock reading from `Date.now()` is a `now` argument of `Submit`;
- the one storage read at start-up is a `StorageRead` value.

Modules:

- `Wrappers`: `Option`, used for the nullable `productId` and for lookups.
- `Catalog`: `Product` (id, name, price) and `Find`, the first-match lookup.
- `Records`: `Form`, `SavedDate`, `EmptyForm`, field updates, and `Remove`, the filter-by-id that deletion performs.
- `Store`: `State`, `Init`, `Edit`, `Select`, `Submit`, `Delete`, `Clear`, and the two product lookups.
- `Session`: action sequences, plus invariants over a whole session.

The source's `label` field is called `title` in the model, because `label` is
a reserved word in Dafny. The field selector keeps the name `Label`.

Behaviours of the code that the model keeps as they are:

- Start-up falls back to the empty list only in these cases: there is no
  window, reading storage throws, the item is missing or empty, or
  `JSON.parse` throws. A payload that parses is cast to the record list
  unchecked, so a payload of the wrong shape is not filtered out.
- Ids come from `crypto.randomUUID()` and are not checked against the list.
  Freshness is therefore the hypothesis `FreshIds` of the distinctness
  lemmas, not a guarantee.
- Deleting a record changes neither the form nor the status. Only edits,
  selections and clearing reset the status to idle.

## Model

| member | source | states |
|---|---|---|
| Catalog.Find | app/src/components/DateSaver.tsx:61-64 | The result is absent exactly when no catalog entry's id equals the reference, so a null reference never matches. Otherwise it is an entry with that id and no earlier entry matches: the first match. |
| Catalog.FindUnique | app/src/components/DateSaver.tsx:270 | If catalog ids are unique, a reference to an entry's id resolves to exactly that entry. |
| Records.SetField | app/src/components/DateSaver.tsx:66-68 | The spread update sets the chosen text field to the value and leaves the other four text fields and the product reference as they were. |
| Records.FormExtensionality | app/src/components/DateSaver.tsx:25-32 | A form is fully determined by its five text fields and its product reference, so the field-wise framing clauses pin down the whole form. |
| Records.Stamp | app/src/components/DateSaver.tsx:85-89 | A record built from a form carries exactly that form's six fields, plus the supplied id and timestamp. |
| Records.StampContent | app/src/components/DateSaver.tsx:12-21 | A record is its six form fields plus id and createdAt; splitting it and re-stamping gives the same record. |
| Records.Remove | app/src/components/DateSaver.tsx:95-97 | Every record whose id differs from the argument is kept with its multiplicity, every record with that id is dropped, and the result is an order-preserving subsequence of the input. |
| Records.RemoveMembers | app/src/components/DateSaver.tsx:96 | A record survives a delete iff it was present and has a different id, so the id set loses exactly the deleted id. |
| Records.RemoveUnique | app/src/components/DateSaver.tsx:96 | Any order-preserving selection that keeps exactly the records with a different id equals `Remove`, so `Remove`'s contract fully characterises the filter. |
| Records.RemoveAbsent | app/src/components/DateSaver.tsx:95-97 | Deleting an id that no record has leaves the list unchanged. |
| Records.RemoveIdempotent | app/src/components/DateSaver.tsx:95-97 | Deleting the same id twice gives the same list as deleting it once. |
| Records.RemoveKeepsDistinct | app/src/components/DateSaver.tsx:95-97 | If the ids in a list are distinct, they are still distinct after a delete. |
| Records.RemovePresentShrinksByOne | app/src/components/DateSaver.tsx:95-97 | In a list with distinct ids, deleting an id that is present removes exactly one record. |
| Store.Loaded | app/src/components/DateSaver.tsx:40-51 | The initial list is the decoded records when a non-empty payload parsed. With no window, a failing read, a missing or empty item, or a parse failure, it is empty. |
| Store.LoadedNonEmptyFromPayload | app/src/components/DateSaver.tsx:40-51 | A non-empty starting list only comes from a non-empty payload that decoded to exactly that list. Every other read outcome starts empty. |
| Store.ReloadRestoresList | app/src/components/DateSaver.tsx:45-47 | Assuming non-empty stored text decodes to a given list, the store starts from that list with a blank form and idle status. The decoding is taken as given. |
| Store.Init | app/src/components/DateSaver.tsx:39-52 | On mount the form is the empty form, the status is idle and the list is the loaded one. |
| Store.Edit | app/src/components/DateSaver.tsx:66-71 | Editing sets only the chosen field, leaves the other fields and the product reference unchanged, keeps the saved list, and sets status to idle. |
| Store.Select | app/src/components/DateSaver.tsx:73-76 | Selecting sets only the product reference (None means "decide later"), leaves all text fields unchanged, keeps the saved list, and sets status to idle. |
| Store.Submit | app/src/components/DateSaver.tsx:78-93 | Missing title or date: form and list unchanged, status error. Otherwise: list grows by one; its tail is the old list; its head carries the form's fields, the given id and the given time; form reset to empty; status saved. |
| Store.Delete | app/src/components/DateSaver.tsx:95-97 | The list keeps exactly the records whose id differs, in their original order; form and status are untouched. |
| Store.Clear | app/src/components/DateSaver.tsx:225-228 | Clearing empties every text field and the product reference and sets status to idle; the saved list is unchanged. |
| Store.ChosenProduct | app/src/components/DateSaver.tsx:61-64 | The bundle shown under the form is absent exactly when the reference is null or no catalog entry has that id. Otherwise it is the first catalog entry with that id. |
| Store.RecordProduct | app/src/components/DateSaver.tsx:270 | The bundle shown on a card is absent exactly when the record's reference is null or no catalog entry has that id. Otherwise it is the first catalog entry with that id. The record itself is not changed. |
| Store.SubmitSucceedsIff | app/src/components/DateSaver.tsx:80-92 | A submit sets status to saved iff title and date are both non-empty, and it changes the list under the same condition. |
| Store.SubmitAfterSaveFails | app/src/components/DateSaver.tsx:91 | After a successful submit, submitting again without edits fails and leaves the list unchanged, because the reset form has no title or date. |
| Store.DeleteUndoesSubmit | app/src/components/DateSaver.tsx:87-96 | Deleting the record a submit just created under a fresh id restores the previous list. Delete is the inverse of a successful submit. |
| Store.SubmitKeepsDistinct | app/src/components/DateSaver.tsx:87-90 | A submit given an id not already in the list keeps the ids pairwise distinct. |
| Store.EditSameValue | app/src/components/DateSaver.tsx:68 | Re-entering a field's current value leaves the form unchanged. |
| Store.EditTwice | app/src/components/DateSaver.tsx:68 | For two edits of the same field, the second value wins. |
| Store.EditsCommute | app/src/components/DateSaver.tsx:68 | Edits to two different fields commute. |
| Store.SelectThenSubmit | app/src/components/DateSaver.tsx:73-90 | A selected reference is stored verbatim in the next saved record. The card lookup resolves it to the matching entry (unique catalog ids), or to nothing when no entry has that id, and the stored reference is kept. |
| Session.StepKeepsDistinct | app/src/components/DateSaver.tsx:87-96 | Any single action keeps ids distinct, provided a submit's id is not already in use. |
| Session.RunKeepsDistinct | app/src/components/DateSaver.tsx:87-96 | If every submit in a session gets an id unused by the starting list and by earlier submits, the list never has two records with the same id. |
| Session.RunRecordsValid | app/src/components/DateSaver.tsx:80-90 | After any session, every record was either in the starting list or has a non-empty title and date. The guard applies at creation only. |
| Session.RunWithoutSubmitOrDelete | app/src/components/DateSaver.tsx:66-76 | Edits, selections and clears never change the saved list. |
| Session.ScenarioCreateRejectDelete | app/src/components/DateSaver.tsx:78-97 | Start from missing storage. A titled save gives one record with status saved. An untitled save still leaves one record, with status error. Deleting the first id empties the list. |
| Session.ScenarioMalformedStorage | app/src/components/DateSaver.tsx:44-50 | Storage text that fails to parse starts the store with an empty list and idle status. |

## Left out

- Rendering (JSX markup, CSS classes, the "New celebration" and "Date TBC" display fallbacks, the saved-count badge) is presentation only.
- The browser's own form validation is not modelled. The title and date inputs are marked `required` (lines 123 and 147), so the browser normally blocks the submit event while either is empty. The error branch of `Submit` (lines 80-83) is reached only when that validation does not run.
- The storage write-through (lines 54-59) is not modelled as separate state. The effect replaces the stored copy with the whole list on mount and after every change, so the stored copy equals `saved` after every write that succeeds. Because it also runs on mount, stored text that does not parse is overwritten with an empty array at start-up: the fallback erases the bad payload rather than ignoring it.
- A failing storage write is not modelled. `setItem` (line 58) can throw, for example when storage is full or blocked. Unlike the read, the write has no try/catch, so the error escapes the effect to React's error handling. That error handling removes the component instead of carrying on with a stale copy.
- Blocked or disabled storage is not modelled beyond the start-up read. `Init(ReadFails)` gives an empty, idle start, but the write on mount then throws in the same way, so that start does not survive the first render.
- `JSON.parse` and `JSON.stringify` are foreign library calls. A read is represented by its decoded outcome, and the serialisation round trip is not modelled.
- Store.Loaded: a payload that parses but is not an array of records is cast unchecked by the code. It cannot be represented in the typed model, so the model covers only a parse that yields records or one that throws.
- `crypto.randomUUID()` and `Date.now()` are nondeterministic foreign calls. They are parameters of `Submit`, and id freshness is a hypothesis of the distinctness lemmas.
- Store.Submit: assumes `crypto.randomUUID()` always returns an id. It exists only in secure contexts (HTTPS or localhost) and recent browsers. Elsewhere the call at line 87 throws a TypeError after the guard has passed and before lines 90-92 run. A valid submit then saves nothing, keeps the form and leaves the status as it was. React does not catch errors thrown in event handlers, so the component stays mounted and the click has no effect. The model always prepends the record and sets `Saved` when the guard passes.
- Locale date formatting (`toLocaleDateString`, `toLocaleString`) is locale-dependent library behaviour.
- React scheduling (`useState`, `useEffect`, `useMemo` timing and batching) is not modelled. Each handler is one atomic transition.
- Store.Edit: the field parameter of the source's change handler is typed over every form key, `productId` included. Only the five text inputs are wired to it, so the model's `Field` has those five, and the product reference changes only through `Select`.
- `Product` comes from a data module that is not part of this model. Only its `id`, `name` and `price` are kept.
- The page, product card, feature list and testimonials components are static rendering with no logic.
