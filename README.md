# Employee list filtering and batch status selection, in Dafny

This project models the logic of an employee-directory admin dashboard. The dashboard lists
employees from an HTTP backend, filters them by status and by name, and lets an administrator
select rows and activate or deactivate them in one batch request. The rest of the dashboard
is rendering, routing and library calls, and is not modelled.

The model follows the source file by file:

- `types.dfy` (module `Types`) holds `src/types.ts`. It has the employee record, its two
  statuses and the status filter (`'all-status'` or one status). It also holds `Option`,
  which stands for query data that may still be `undefined`.
- `text.dfy` (module `Text`) holds the string operations the code relies on. These are
  `toLowerCase` (ASCII only), `String.prototype.includes` (proved equal to "occurs at some
  index") and the decimal text of a count inside a template literal (proved injective by a
  parse-back round trip).
- `keyed_filter.dfy` (module `KeyedFilter`) holds what the three filter loops share. Each
  loop walks the employees in order, skips those a guard rejects, and pushes
  `{ key: employee.id, ...employee }` into a fresh array. The specification `FilterKeyed` is
  written once, for any guard. The lemmas about it are proved once too: subsequence and
  order (`Origins`), exact membership, key equals id, identity for a guard that keeps
  everything, idempotence, fusing two passes into one, and commutation.
- `filter_by_status.dfy` (module `StatusFilter`) and `filter_by_name.dfy` (module
  `NameFilter`) hold `filterByStatus` and `filterByName`. Each is a method with the
  source's loop, including its `continue`, proved equal to `FilterKeyed` with that file's
  guard. Beside it are lemmas for that filter's own promises.
- `employee_list.dfy` (module `EmployeeListView`) holds the list view as a class. It has
  the view state (status filter, search text, selected keys, loaded data), the setters that
  change it, the fused `dataSource` loop and the inline selection-bar condition. Lemmas
  prove that the fused loop equals `filterByName(filterByStatus(data || [], f), s)`, that
  the two filters commute, that the initial state shows every employee, and the test
  fixture's worked examples.
- `selection_bar.dfy` (module `SelectionBarView`) holds the `SelectionBar` component. The
  pure parts are functions: the render decision, the payloads, the outcome of a settled
  request and the message texts. The stateful mutation is a class with a state machine
  (idle, in flight, succeeded, failed). It records every notification shown, every
  invalidation of the `employees` query and every `onDelete` call. Its invariant says
  that the list is invalidated exactly once per success notification.

Sequences are values, so no filter can modify its input. This gives "the input array is not
modified" by construction.

## Model

| member | source | states |
|---|---|---|
| `Text.ToLowerCase` | src/functions/filterByName.ts:7 | the lower-cased string has the same length, each character lower-cased, and no upper-case ASCII letter is left |
| `Text.ToLowerCaseIdempotent` | src/functions/filterByName.ts:7 | lower-casing twice is lower-casing once |
| `Text.Includes` | src/functions/filterByName.ts:7 | `hay.includes(needle)` holds iff `needle` occurs in `hay` at some index |
| `Text.NatToString` | src/components/SelectionBar.tsx:36 | the count in a template literal is a non-empty string of decimal digits with no leading zero |
| `Text.DecimalRoundTrip` | src/components/SelectionBar.tsx:36 | reading the rendered digits back gives the count again |
| `Text.NatToStringInjective` | src/components/SelectionBar.tsx:36 | different counts render as different strings |
| `KeyedFilter.Keyed` | src/functions/filterByStatus.ts:10-13 | the pushed row has `key == id` and, with the key dropped, is exactly the input employee |
| `KeyedFilter.KeyedInjective` | src/functions/filterByStatus.ts:10-13 | distinct employees give distinct rows |
| `KeyedFilter.FilterKeyed` | src/functions/filterByStatus.ts:4-16 | the loop's result is never longer than the input, every row has `key == id`, and empty input gives empty output |
| `KeyedFilter.FilterKeyedSnoc` | src/functions/filterByStatus.ts:6-14 | one loop iteration either skips the record or appends its keyed row |
| `KeyedFilter.Origins` | src/functions/filterByStatus.ts:6-13 | the result is the subsequence of the input made of exactly the accepted records: strictly increasing positions, each accepted, each row the keyed record at that position, every accepted position present |
| `KeyedFilter.FilterKeyedMembership` | src/functions/filterByStatus.ts:6-13 | a keyed row is in the result iff its employee is in the input and the guard accepts it |
| `KeyedFilter.FilterKeyedRowsFromInput` | src/functions/filterByStatus.ts:10-13 | every result row has `key == id` and is an accepted input record with nothing else changed |
| `KeyedFilter.FilterKeyedKeepAll` | src/functions/filterByStatus.ts:7-13 | a guard that accepts everything returns every record, keyed, in input order |
| `KeyedFilter.FilterKeyedSameGuard` | src/functions/filterByName.ts:7 | guards that agree on every record give the same result |
| `KeyedFilter.FilterKeyedTwice` | src/EmployeeList.tsx:34-47 | filtering the rows of one pass by a second guard equals one pass with both guards |
| `KeyedFilter.FilterKeyedIdempotent` | src/functions/filterByStatus.ts:7-13 | applying the same filter to its own result returns that result unchanged |
| `KeyedFilter.FilterKeyedCommute` | src/EmployeeList.tsx:36-41 | two filters applied in either order give the same rows |
| `KeyedFilter.FilterKeyedPair` | src/functions/filterByStatus.ts:6-14 | the loop over two records keeps each one exactly when the guard accepts it |
| `StatusFilter.FilterByStatus` | src/functions/filterByStatus.ts:3-17 | the loop with its `continue` builds exactly the keyed subsequence of the records the status filter admits |
| `StatusFilter.AllStatusKeepsEverything` | src/functions/filterByStatus.ts:7-13 | with `'all-status'` the output is every input record keyed, so it has the same length and the same id sequence |
| `StatusFilter.OnlyStatusKeepsExactly` | src/functions/filterByStatus.ts:7-9 | with `'active'` or `'inactive'` a record is in the output iff its status equals the filter |
| `StatusFilter.ByStatusRows` | src/functions/filterByStatus.ts:6-13 | each output row has `key == id`, is an input record and has an admitted status |
| `StatusFilter.ByStatusIdempotent` | src/functions/filterByStatus.ts:7-13 | filtering the output again by the same status changes nothing |
| `NameFilter.FilterByName` | src/functions/filterByName.ts:3-17 | the loop with its `continue` builds exactly the keyed subsequence of the records the search text admits |
| `NameFilter.EmptySearchKeepsEverything` | src/functions/filterByName.ts:7 | an empty search text returns every record keyed, in input order |
| `NameFilter.NonEmptySearchKeepsExactly` | src/functions/filterByName.ts:7-9 | with a non-empty search text a record is kept iff the lower-cased search text occurs in the lower-cased name |
| `NameFilter.ByNameIgnoresCase` | src/functions/filterByName.ts:7 | two search texts with the same lower-case form select the same rows |
| `NameFilter.ByNameRows` | src/functions/filterByName.ts:10-13 | each output row has `key == id` and is an input record |
| `NameFilter.ByNameIdempotent` | src/functions/filterByName.ts:7-13 | searching the output again with the same text changes nothing |
| `EmployeeListView.EmployeeList.constructor` | src/EmployeeList.tsx:21-23 | the view starts with `'all-status'`, an empty search text and no selection |
| `EmployeeListView.EmployeeList.SetActiveFilter` | src/EmployeeList.tsx:108 | the radio group replaces the status filter |
| `EmployeeListView.EmployeeList.SetSearchText` | src/EmployeeList.tsx:103 | the search input replaces the search text |
| `EmployeeListView.EmployeeList.SetCheckedEmployees` | src/EmployeeList.tsx:130-134 | the table's row selection replaces the selected keys |
| `EmployeeListView.EmployeeList.ReceiveData` | src/EmployeeList.tsx:25-32 | the employees query replaces the loaded data |
| `EmployeeListView.EmployeeList.DataSource` | src/EmployeeList.tsx:34-47 | the fused loop over the loaded data (empty while undefined) yields the keyed records that pass both guards, in server order; absent data gives no rows |
| `EmployeeListView.EmployeeList.SelectionBar` | src/EmployeeList.tsx:120-122 | the inline bar is shown iff the selection is non-empty, and it shows exactly the selection's size |
| `EmployeeListView.FusedLoopIsComposition` | src/EmployeeList.tsx:34-47 | the fused loop gives the same rows as `filterByName(filterByStatus(data, f), s)` with undefined data read as empty |
| `EmployeeListView.StatusAndNameCommute` | src/EmployeeList.tsx:36-41 | status-then-name and name-then-status give the same rows, keys included |
| `EmployeeListView.DisplayMembership` | src/EmployeeList.tsx:36-41 | a record is a table row iff it is loaded and passes both the status guard and the name guard |
| `EmployeeListView.DisplayRowsAreKeyedRecords` | src/EmployeeList.tsx:43-46 | every table row has `key == id` and is a loaded record |
| `EmployeeListView.InitialStateShowsEverything` | src/EmployeeList.tsx:21-47 | in the initial state every loaded employee is a row, keyed, in server order |
| `EmployeeListView.FirstRender` | src/EmployeeList.tsx:21-47 | a freshly created view over loaded data shows every employee and no selection bar |
| `EmployeeListView.InlineBarMatchesComponent` | src/EmployeeList.tsx:120-126 | the list view's own inline bar (`EmployeeList.SelectionBar`) equals the selection bar component's render decision with no mutation running |
| `EmployeeListView.NameTwoMatchesOnlySecond` | src/functions/__tests__/filterByName.test.ts:43-71 | search `'name 2'` keeps `'Test Name 2'` and skips `'Test Name 1'`, ignoring case |
| `EmployeeListView.FixtureExamples` | src/__tests__/EmployeeList.test.tsx:105-144 | on the two-employee fixture: `'active'` leaves employee 1, `'inactive'` leaves employee 2, `'name 2'` leaves employee 2, and `'active'` with `'name 2'` leaves nothing |
| `SelectionBarView.SuccessTextDeterminesActionAndCount` | src/components/SelectionBar.tsx:36 | the success text says `activated` iff the payload status is active, and it names the count; no two different actions or counts give the same text |
| `SelectionBarView.ActivatedTwoText` | src/components/__tests__/SelectionBar.test.tsx:31-46 | for two employees the bar reads "2 employees selected" and activating them reads "Successfully activated 2 employees" |
| `SelectionBarView.RenderBar` | src/components/SelectionBar.tsx:62-71 | an empty selection renders nothing; otherwise the bar shows the selection's size, and Activate/Deactivate are loading exactly while a mutation runs |
| `SelectionBarView.OnSettled` | src/components/SelectionBar.tsx:34-45 | only `success == true` gives the success text and invalidates `employees`; `success == false` and a failed request give the same connection error and invalidate nothing |
| `SelectionBarView.SelectionBar.constructor` | src/components/SelectionBar.tsx:22-24 | a mounted bar is idle, has shown nothing and has invalidated nothing |
| `SelectionBarView.SelectionBar.View` | src/components/SelectionBar.tsx:62-71 | the bar is hidden iff nothing is selected; the count is the selection's size; the status buttons are loading iff the mutation is in flight |
| `SelectionBarView.SelectionBar.SetCheckedEmployees` | src/components/SelectionBar.tsx:22 | a re-render with a new selection keeps the mutation state |
| `SelectionBarView.SelectionBar.ClickStatusAction` | src/components/SelectionBar.tsx:48-71 | a click starts a mutation with `{ids: selection, status}` iff the bar is shown and no mutation is in flight, and otherwise changes nothing |
| `SelectionBarView.SelectionBar.ClickActivate` | src/components/SelectionBar.tsx:48-53 | Activate sends `{ids: selection, status: 'active'}` unless the bar is hidden or a mutation is in flight |
| `SelectionBarView.SelectionBar.ClickDeactivate` | src/components/SelectionBar.tsx:55-60 | Deactivate sends the same ids with `'inactive'` under the same conditions |
| `SelectionBarView.SelectionBar.ClickDelete` | src/components/SelectionBar.tsx:69 | Delete emits `onDelete` whenever the bar is shown, even while a mutation is in flight |
| `SelectionBarView.SelectionBar.Settle` | src/components/SelectionBar.tsx:34-45 | the request's end appends one notification as `OnSettled` decides, invalidates only on success, and leaves the mutation succeeded or failed with nothing retried; the invariant "one invalidation per success notification" is kept |
| `SelectionBarView.ActivateTwoEmployees` | src/components/__tests__/SelectionBar.test.tsx:37-46 | two selected, Activate, a successful response: exactly "Successfully activated 2 employees" is shown and the list is invalidated once |
| `SelectionBarView.DeactivateFailsThenRetriedByHand` | src/components/SelectionBar.tsx:40-71 | a second click while the request is in flight does not fire and leaves the pending Deactivate request in place; the failed request leaves the mutation failed, shows only the connection error and invalidates nothing; a new click afterwards fires a new request |

## Left out

- HTTP, JSON decoding and the data-fetching library are not modelled. The employee list
  arrives through `EmployeeList.ReceiveData`, and a status request's end arrives through
  `SelectionBar.Settle` as an abstract `MutationResult`.
- The list query's `onError` notification (src/EmployeeList.tsx:29-31) and the table's
  `loading` flag are not modelled. Both belong to the foreign query library.
- `src/hooks/useGetEmployees.ts`, `src/EmployeeForm.tsx`, `src/App.tsx` and
  `src/App.styles.ts` are not part of this model. They are a fetch wrapper, a form whose
  validation is library configuration, and static layout.
- JSX, table columns and tag colours (src/EmployeeList.tsx:49-140) are not modelled, apart
  from the selection-bar condition at line 120.
- Notifications are recorded as values in `toasts`. Showing them on screen is not modelled.
  Cache invalidation is recorded as a count in `employeesInvalidations`; the refetch it
  causes is not modelled.
- Text.ToLowerCase: only ASCII `A`-`Z` is lower-cased. JavaScript's full Unicode case
  mapping is not modelled, so `NameFilter` matches non-ASCII names by exact characters.
- The spread `{ key: employee.id, ...employee }` lets an input that already has a `key`
  keep it. Filter inputs are modelled as plain employees. When rows are passed on
  (`FusedLoopIsComposition`), they go as their employee part. Every row already has
  `key == id`, so the result is the same.
- SelectionBarView.SelectionBar.Settle: the success count is the number of ids sent. The
  source reads `checkedEmployees.length` inside `onSuccess`. The mutation is built with the
  callbacks current when `mutate` was called, so at that moment the two are equal. A model
  of a library that swapped callbacks mid-flight could report a later selection's size.
- SelectionBarView.SelectionBar.Settle requires a mutation in flight. The library calls
  `onSuccess`/`onError` only for a request that was made.
- The delete confirmation modal and edit navigation that the list view's tests mention
  (src/__tests__/EmployeeList.test.tsx:162-225) are not in the list view's source, so they
  are not modelled. `onDelete` is recorded only as a call count.
- The inline bar in src/EmployeeList.tsx:120-126 has buttons with no handlers. Only its
  visibility and count are modelled.
- The selection is not cleared when the data is refetched, in the source or in the model.
- `organization` is a free string in `src/types.ts`, and the tests use `'Branch'`. The
  model keeps it a `string` and does not restrict it to fixed values.
- An empty search still re-keys every record (src/functions/filterByName.ts:7-13): the
  result is every record, keyed, in order (`EmptySearchKeepsEverything`), not the input
  array itself.
