# Groceries list — a Dafny model of its list state

The application is a single-page grocery list. Its `App` component holds an
ordered list of `{id, item, checked}` records, an add-item input, a search
input, a fetch-error message and a loading flag. The user can check an item,
delete it or add a new one. Each handler computes the next list, stores it at
once, and then sends one request to a REST backend. The request's outcome can
only set the error message. The page shows the records whose text contains
the search text, ignoring case, and a footer with the number of records.

This project models that logic as pure functions over immutable values:

- `seqs.dfy` (`Seqs`): the order-preserving `Filter` behind every array
  `filter` of the component, and the subsequence relation it satisfies.
- `text.dfy` (`Text`): ASCII lower-casing and the substring test of
  `includes`, proved to hold exactly when the pattern occurs at some position.
- `items.dfy` (`Items`): the `Item` record and the three list
  transformations (`Toggle`, `Delete`, `Add`). Also the PATCH body of the
  check handler, and the id invariant "ids strictly increase along the list".
  That invariant makes "last id + 1" a fresh id.
- `search.dfy` (`Search`): the search projection `Project`.
- `app.dfy` (`App`): the component state, one function per handler, the
  events of a session (`Step`, `Run`) and what the page renders (`Render`).
- `wrappers.dfy` (`Wrappers`): `Option`.

Where the code's behaviour may surprise:

- The submit guard rejects only the empty string. A text made of blanks is
  added.
- A new id is the last record's id plus one, not the largest id plus one.
  `NextIdIsMaxPlusOne` proves the two agree while ids increase, and
  `NextIdCanCollide` shows a list in another order where they do not.
- Deleting and then adding does not create duplicate ids in a list whose ids
  increase (`RunPreservesIds`). It can reuse the id of a deleted last record:
  when the last two ids are consecutive, the new record gets the deleted id
  (`AddReusesDeletedId`).
- Toggle negates `checked` on every record with the id, not only the first
  one.

Request outcomes are parameters. A mutation event carries the value its
request resolved to: `None` for success, `Some(message)` for an error. The
initial load is an event carrying its outcome: a list, a response that was
not ok, or a thrown error with its message. JavaScript truthiness is modelled
by `Truthy`: an empty message neither sets nor shows an error.

## Model

| member | source | states |
|---|---|---|
| Items.Toggle | src/App.js:56-60 | same length and order; every id and text kept; `checked` negated exactly on records with the id; other records identical |
| Items.ToggleTwice | src/App.js:56-60 | toggling the same id twice restores the list exactly |
| Items.ToggleAbsent | src/App.js:56-60 | toggling an id no record has leaves the list unchanged |
| Items.TogglePreservesIncreasing | src/App.js:56-60 | toggling keeps ids strictly increasing |
| Items.PatchCarriesNewValue | src/App.js:63-70 | the PATCH body carries the new `checked` of the first record with the id, which is the negation of its old flag |
| Items.PatchAbsent | src/App.js:63-70 | when no record has the id there is no record to build the PATCH body from |
| Items.PatchChecked | src/App.js:63-70 | a PATCH body exists exactly when some record has the id, and its value is the flag of a record with that id |
| Items.PatchPresent | src/App.js:63-70 | when some record has the id, the toggled list always yields a PATCH body |
| Items.Delete | src/App.js:78-80 | result is an order-preserving subsequence; no record with the id remains; every record with another id keeps its number of copies |
| Items.DeleteAbsent | src/App.js:78-80 | deleting an absent id leaves the list unchanged |
| Items.DeleteIdempotent | src/App.js:78-80 | deleting the same id twice equals deleting it once |
| Items.DeletePreservesIncreasing | src/App.js:78-80 | deleting keeps ids strictly increasing |
| Items.DeleteRemovesOne | src/App.js:78-80 | with increasing ids, deleting a present id shortens the list by exactly one |
| Items.Add | src/App.js:91-98 | one record appended after the unchanged prefix, unchecked, with the given text; on an empty list exactly `[{id:1, item, checked:false}]`; otherwise its id is the last id + 1; with increasing ids the new id exceeds every id and ids stay increasing |
| Items.NextIdIsMaxPlusOne | src/App.js:92 | with increasing ids, last id + 1 equals the largest id + 1 |
| Items.NextIdCanCollide | src/App.js:92 | in a list whose ids do not increase, last id + 1 can equal an id already present |
| Items.NextId | src/App.js:92 | 1 on an empty list, otherwise the last id + 1; with increasing ids larger than every id present, so no record has it |
| Items.AddReusesDeletedId | src/App.js:78-98 | with increasing ids whose last two are consecutive, deleting the last record and adding gives the new record the deleted id |
| Seqs.Filter | src/App.js:78-80 | the array filter: keeps, in order, every element that passes with all its copies, and nothing else |
| Items.IncreasingIdsAreUnique | src/App.js:92 | strictly increasing ids are pairwise distinct |
| Text.LowerChar | src/App.js:142-143 | upper-case ASCII letters map to their lower-case letter; nothing else changes; no upper-case letter remains |
| Text.Lower | src/App.js:142-143 | same length; each character lower-cased in place |
| Text.Contains | src/App.js:143 | the substring test holds exactly when the pattern occurs at some position of the text |
| Search.Project | src/App.js:140-144 | the displayed records are an order-preserving subsequence of the list: every record whose lower-cased text contains the lower-cased query, with all its copies, and no other |
| Search.Matches | src/App.js:141-143 | a record matches exactly when the lower-cased query occurs somewhere in its lower-cased text |
| Search.ProjectEmptyQuery | src/App.js:140-144 | an empty search shows the whole list in order |
| Search.ProjectIgnoresQueryCase | src/App.js:143 | queries that lower-case alike show the same records |
| Search.ProjectLowerQuery | src/App.js:143 | searching for the lower-cased query equals searching for the query |
| Search.ProjectIdempotent | src/App.js:140-144 | searching the shown records again with the same query shows the same records |
| Search.ProjectMilkExample | src/App.js:140-144 | "MILK" finds the record "Milk" |
| App.Load | src/App.js:36-43 | a received list replaces the items and clears the error; a not-ok response stores "Did not receive expected data" and a thrown error stores its message, keeping the items; both inputs are kept; loading ends in every case |
| App.HandleCheck | src/App.js:55-75 | the toggled list is stored; when the id is present a truthy result becomes the error; otherwise the error is kept; inputs and loading flag unchanged |
| App.HandleDelete | src/App.js:77-87 | the list without the id is stored; a truthy result becomes the error, any other keeps it; inputs and loading flag unchanged |
| App.AddItem | src/App.js:89-110 | the list extended by `Add` is stored; a truthy result becomes the error, any other keeps it; inputs and loading flag unchanged |
| App.RecordResult | src/App.js:74 | a truthy request result replaces the error; a null or empty result leaves it as it was |
| App.HandleSubmit | src/App.js:112-119 | an empty input changes nothing; any other input is added and the input is cleared |
| App.Step | src/App.js:30-119 | only the load ends loading; typing in either input never changes the list or the error |
| App.MutationNeverRollsBack | src/App.js:55-110 | a mutation stores the toggled, filtered or extended list whatever its request result (no rollback); the truthy result of a request that was sent becomes the error; a non-truthy result leaves the error unchanged |
| App.CheckAbsentChangesNothing | src/App.js:55-75 | checking an id no record has leaves the whole state unchanged, error included, because no PATCH body can be built |
| App.SubmitEmptyIsNoop | src/App.js:115 | submitting an empty input leaves the whole state unchanged |
| App.SubmitAddsExactlyOne | src/App.js:115-118 | submitting a non-empty input adds exactly one unchecked record with that text after the unchanged list, and clears the input |
| App.StepPreservesIds | src/App.js:55-119 | every event except loading a list whose ids do not increase keeps ids increasing |
| App.RunPreservesIds | src/App.js:55-119 | any session of such events from a list with increasing ids keeps ids increasing and unique |
| App.ErrorIsSticky | src/App.js:55-110 | once a truthy error is set, no event but a new load clears it |
| App.Render | src/App.js:136-150 | loading note while loading; the error text shown exactly when truthy; the list shown exactly when no truthy error and not loading, and then it is the search projection of the list; footer counts the whole list |
| App.RenderedContentIsSelection | src/App.js:138-150 | the shown records are an order-preserving subsequence of the list; with an empty search they are the whole list; the search text never changes the footer count |
| App.ScenarioAdd | src/App.js:112-119 | typing a non-empty text and submitting stores the list extended by `Add` |
| App.ScenarioCheck | src/App.js:55-61 | checking id 1 in `[Eggs(1), Milk(2)]` checks Eggs only |
| App.ScenarioRemove | src/App.js:77-81 | deleting id 1 from `[Eggs(1, checked), Milk(2)]` leaves `[Milk(2)]` |
| App.ScenarioSearch | src/App.js:138-150 | searching "mi" in `[Milk(2)]` shows `[Milk(2)]` |
| App.Scenario | src/App.js:55-150 | add "Eggs" and "Milk", check Eggs, delete it, search "mi": every intermediate list and the final display are as expected |

## Left out

- Rendering and hooks (`useState`, `useEffect`, JSX) and the other components:
  UI wiring with no list logic of its own. `Render` keeps only which parts
  of the page show and what they hold.
- `fetch`, `apiRequest`, URLs, HTTP methods, headers, JSON encoding and the
  one-second `setTimeout` before loading: I/O and foreign code. `apiRequest`
  is not part of this model. Its outcome is an `Option<string>` parameter of
  each mutation event. The load's outcome is a `LoadOutcome` parameter.
- Requests in flight at the same time, and handlers that run on a stale
  list: concurrency. Each event here runs to completion, and its request
  outcome is applied at once.
- When `handleCheck` gets an id no record has, reading `.checked` of
  `undefined` throws before any request is sent. The model keeps the
  (unchanged) list and leaves the error as it was. The uncaught exception
  itself is not modelled.
- Text.Lower: only ASCII letters are lower-cased. The Unicode case mapping
  of `toLowerCase` is not modelled.
- Ids are unbounded integers and `checked` is a boolean. Ids are
  JavaScript numbers in the code, exact only up to 2^53. Non-integer ids or
  ids of another type from the server are not modelled.
- Persistence to local storage: no such code is part of this model.
