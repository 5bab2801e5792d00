# Task manager core, in Dafny

This project models the pure logic under a small React task manager. A task is a
record with an id, a title, a description, a status, a due date and an assignee.
The model covers six parts of it:

- **The task page's derived view** (`TasksPage`). The page first keeps the tasks
  that pass the status filter and the case-insensitive search. It then sorts them
  on one of four fields, ascending or descending, and cuts out a page of ten.
  The page state is the filter, the search, the sort and the page number, and the
  module covers the handlers that change it: clear filter, clear search, sort
  click, and the reset of an out-of-range page.
- **The page's dialogs** (`PageModals`). Four dialog flags and the selected
  task, driven by the table's view/edit/delete clicks, the create button,
  closing, and successful saves.
- **The mock store and the query cache** (`TaskStore`, `TaskCache`). The store
  supports fetch, create (prepend with a minted id), update by id and delete by
  id. Around each store operation runs the optimistic protocol: snapshot the
  cache, apply the same change speculatively, write the snapshot back on
  failure, and refetch once the operation settles.
- **The task dialog** (`TaskForm`, and `UiTaskForm` for the second copy of the
  component). It covers required-field validation, which depends on the mode,
  editing one field, the assignee picker with its name-only fallback, the reset
  effect, and saving.
- **The pagination bar** (`PaginationBar`). It has a visibility guard, a window
  of at most five consecutive page numbers, First/Previous/Next/Last with their
  targets and disabled states, and the "Showing X to Y of N" line.
- **Display decisions** (`TaskUtils`, `FilterSummaryView`, `TasksTableView`).
  These are status labels and badge variants, the sort icon, and the status and
  sort drop-down tables. They also cover when the filter summary and each of its
  badges and separators appear, the empty-table message, the choice between the
  empty row and task rows, and which field each header sorts by.

The remaining modules are shared pieces:

- `Strings`: ASCII lower-casing, substring search, ECMAScript trimming, a
  string order and decimal rendering.
- `Tasks`: the record and sort types.
- `Optional`: `undefined` values and `Array.prototype.find`.

Every value is an immutable datatype and every operation is a pure function.
React state updates are modelled as functions from the old state to the new one.

Two inputs become parameters:

- The clock reading `Date.now()`: `now`, `optimisticNow`.
- Whether the simulated store call throws: `fails`.

## Model

| member | source | states |
|---|---|---|
| Tasks.Parse | src/types/task.ts:1-5 | exactly the three stored codes are statuses, and each code recognises its own status |
| Optional.Find | src/components/tasks/TaskModal.tsx:98 | `find` returns nothing iff no element satisfies the predicate, and otherwise the first one that does |
| Strings.Lower | src/hooks/useTasksPage.ts:55-59 | lower-casing keeps the length and lower-cases each character on its own, leaving no upper-case letter |
| Strings.LowerIdempotent | src/hooks/useTasksPage.ts:55-59 | lower-casing twice is lower-casing once |
| Strings.IncludesIff | src/hooks/useTasksPage.ts:56-59 | `includes` holds iff the needle occurs at some position of the haystack |
| Strings.IncludesEmpty | src/hooks/useTasksPage.ts:56-59 | every string includes the empty string |
| Strings.TrimStart | src/components/tasks/TaskModal.tsx:84-85 | the result is a suffix, the prefix dropped is all whitespace, and the result is empty iff the input is all whitespace and otherwise starts with a non-whitespace character |
| Strings.TrimEnd | src/components/tasks/TaskModal.tsx:84-85 | the result is a prefix, the suffix dropped is all whitespace, and the result is empty iff the input is all whitespace and otherwise ends with a non-whitespace character |
| Strings.Trim | src/components/tasks/TaskModal.tsx:84-85 | the trimmed string occurs inside the input with only whitespace before and after it, has no whitespace at either end, and is empty iff the input is all whitespace |
| Strings.Quoted | src/components/tasks/FilterSummary.tsx:46 | the quoted text is the text with one double quote added at each end |
| Strings.Compare | src/hooks/useTasksPage.ts:76-82 | the string order gives -1, 0 or 1 |
| Strings.CompareAntisymmetric | src/hooks/useTasksPage.ts:76-82 | swapping the operands negates the comparison |
| Strings.CompareZeroIff | src/hooks/useTasksPage.ts:76-82 | two strings compare equal iff they are the same string |
| Strings.CompareTransitive | src/hooks/useTasksPage.ts:76-82 | "not after" is transitive |
| Strings.Decimal | src/hooks/useMockTasks.ts:277 | a rendered number is a non-empty run of digits, with a leading zero only for 0, whose decimal value is the number |
| Strings.DecimalInjective | src/hooks/useMockTasks.ts:277 | two numbers render the same iff they are equal |
| TaskUtils.StatusBadgeVariant | src/components/tasks/utils.tsx:6-17 | "warning" iff the status is pending, "success" iff it is completed, and no variant iff it is in progress or not a status at all |
| TaskUtils.StatusLabel | src/components/tasks/utils.tsx:19-30 | each status shows its name, and any other string shows as itself |
| TaskUtils.StatusLabelInjective | src/components/tasks/utils.tsx:19-30 | two statuses get the same label iff they are the same status |
| TaskUtils.SortIconFor | src/components/tasks/utils.tsx:37-44 | unsorted iff the field is not the active one, up iff it is active and ascending, down iff it is active and descending |
| TaskUtils.StatusOptionsAgree | src/components/tasks/utils.tsx:46-51 | the status drop-down starts with the empty "All Statuses" entry, then lists every status exactly once, labelled as the rest of the screen labels it |
| TaskUtils.SortOptionsCover | src/components/tasks/utils.tsx:53-58 | the sort drop-down offers each of the four fields exactly once |
| TaskUtils.SortLabel | src/components/tasks/FilterSummary.tsx:55 | the label found for a field is the text the sort drop-down pairs with it |
| TasksPage.FilterTasks | src/hooks/useTasksPage.ts:49-67 | with `Keeps` (`StatusMatches` and `SearchMatches`) as the filter callback, the filtered list is a subsequence of the tasks, contains each kept task as often as the input does and no other task, and holds only tasks passing the status filter and the search |
| TasksPage.FilterMembership | src/hooks/useTasksPage.ts:49-67 | a task is in the filtered list iff it is in the input and passes the status filter and the search |
| TasksPage.FilterByStatus | src/hooks/useTasksPage.ts:51 | with a non-empty status filter, every kept task has exactly that status string |
| TasksPage.FilterKeepsAll | src/hooks/useTasksPage.ts:49-67 | with no filter and no search, every task is kept in order |
| TasksPage.FilterIdempotent | src/hooks/useTasksPage.ts:49-67 | filtering a filtered list again with the same settings changes nothing |
| TasksPage.DateKey | src/hooks/useTasksPage.ts:80 | a due date has a numeric key iff it is an ISO YYYY-MM-DD date |
| TasksPage.DateKeyOrder | src/hooks/useTasksPage.ts:80 | one date's key is below another's iff its (year, month, day) is earlier, and keys are equal iff the dates are, so the due-date sort is chronological |
| TasksPage.ComparatorAntisymmetric | src/hooks/useTasksPage.ts:70-86 | for `Comparator`, the sort callback (the field comparison times the direction's sign), swapping two tasks negates the result, in both directions and on every field |
| TasksPage.ComparatorTransitive | src/hooks/useTasksPage.ts:70-86 | for `Comparator`, on tasks it can compare, "not after" is transitive, ascending and descending |
| TasksPage.Insert | src/hooks/useTasksPage.ts:70 | inserting a task adds exactly that task to the multiset |
| TasksPage.SortTasks | src/hooks/useTasksPage.ts:70-86 | the sorted list is a permutation of the filtered list |
| TasksPage.InsertSorted | src/hooks/useTasksPage.ts:70-86 | inserting a comparable task into a sorted list keeps it sorted |
| TasksPage.SortTasksSorted | src/hooks/useTasksPage.ts:70-86 | when every task is comparable, the sorted list is in comparator order, descending being the negated order |
| TasksPage.SortedSlice | src/hooks/useTasksPage.ts:92 | any slice of a sorted list is sorted |
| TasksPage.TotalPages | src/hooks/useTasksPage.ts:89 | the page count is the fewest pages of ten that hold all the tasks |
| TasksPage.ClampIndex | src/hooks/useTasksPage.ts:92 | a slice index resolves to a position within the list, unchanged when already within it |
| TasksPage.StartIndex | src/hooks/useTasksPage.ts:90 | on a page numbered from 1 the first index is not negative |
| TasksPage.PageBounds | src/hooks/useTasksPage.ts:89-92 | `Page`, the slice of the sorted list for page p, holds positions (p-1)*10 up to min(p*10, n): at most ten tasks, and at least one when p is a real page |
| TasksPage.PagesPrefix | src/hooks/useTasksPage.ts:89-92 | the first k pages laid end to end are the first min(10k, n) sorted tasks |
| TasksPage.PagesCover | src/hooks/useTasksPage.ts:89-92 | pages 1 to totalPages laid end to end give back the sorted list |
| TasksPage.PageOfIndex | src/hooks/useTasksPage.ts:89-92 | the task at position i is on page i/10+1, at position i%10 there |
| TasksPage.ClearFilter | src/hooks/useTasksPage.ts:28-33 | the status filter is emptied, the page becomes 1, and search and sort are kept |
| TasksPage.ClearSearch | src/hooks/useTasksPage.ts:35-38 | the search is emptied, the page becomes 1, and filter and sort are kept |
| TasksPage.SetStatusFilter | src/hooks/useTasksPage.ts:21 | only the status filter changes, and the page number is kept |
| TasksPage.SetSearchQuery | src/hooks/useTasksPage.ts:22 | only the search changes, and the page number is kept |
| TasksPage.SetCurrentPage | src/hooks/useTasksPage.ts:24 | only the page number changes |
| TasksPage.HandleSort | src/hooks/useTasksPage.ts:40-46 | the sort moves to the clicked field, descending iff that field was active and ascending and otherwise ascending, and the page becomes 1 |
| TasksPage.HandleSortAlternates | src/hooks/useTasksPage.ts:40-46 | two clicks on the same field give opposite directions |
| TasksPage.ResetOutOfRange | src/hooks/useTasksPage.ts:95-99 | a page past the last goes back to 1 when there are pages, and otherwise stays; a real page stays within range |
| TasksPage.Derive | src/hooks/useTasksPage.ts:49-92 | the sorted list is a permutation of the filtered one (no tasks while none are loaded), the page count is ceil(n/10), and the page is the slice at the start index |
| TasksPage.DeriveSound | src/hooks/useTasksPage.ts:49-92 | every shown task is an input task passing filter and search, at most ten are shown, and they are in sort order when every task is comparable |
| TasksPage.SettledPageNonEmpty | src/hooks/useTasksPage.ts:89-99 | once the reset effect has run on a non-empty result, the current page shows at least one task |
| PageModals.ViewClick | src/hooks/useTasksPage.ts:121-124 | the task is selected and the view flag raised, and no other flag changes |
| PageModals.EditClick | src/hooks/useTasksPage.ts:126-129 | the task is selected and the edit flag raised, and no other flag changes |
| PageModals.DeleteClick | src/hooks/useTasksPage.ts:131-134 | the task is selected and the delete flag raised, and no other flag changes |
| PageModals.OpenCreate | src/hooks/useTasksPage.ts:155-157 | the create flag is raised, and nothing else changes |
| PageModals.CloseModal | src/hooks/useTasksPage.ts:147-153 | every flag is lowered and the selection cleared |
| PageModals.CreateSucceeded | src/hooks/useTasksPage.ts:104-106 | only the create flag is lowered |
| PageModals.EditSucceeded | src/hooks/useTasksPage.ts:113-116 | the edit flag is lowered and the selection cleared, and nothing else changes |
| PageModals.DeleteSucceeded | src/hooks/useTasksPage.ts:139-142 | the delete flag is lowered and the selection cleared, and nothing else changes |
| PageModals.EditSubmission | src/hooks/useTasksPage.ts:110-112 | an update is sent iff a task is selected, and it carries the form |
| PageModals.DeleteSubmission | src/hooks/useTasksPage.ts:136-138 | a delete is sent iff a task is selected, and it carries that task's id |
| PageModals.RunKeepsOneOpen | src/hooks/useTasksPage.ts:121-157 | from a state with at most one dialog open, any run of page events (`Step` applied by `Run`) keeps at most one open, while clicks reach the page only with no dialog open |
| TaskStore.MintedId | src/hooks/useMockTasks.ts:277 | a minted id is a non-empty run of digits whose value is the clock reading |
| TaskStore.MintedIdInjective | src/hooks/useMockTasks.ts:277 | two creates mint the same id iff the clock read the same |
| TaskStore.FetchTasks | src/hooks/useMockTasks.ts:263-266 | the fetch returns the store's contents element for element |
| TaskStore.CreateTask | src/hooks/useMockTasks.ts:275-280 | the new task, with the given id, goes in front, the old store follows unchanged, and the ids gain exactly that id |
| TaskStore.CreateKeepsIdsUnique | src/hooks/useMockTasks.ts:277-278 | creating with a fresh id keeps ids unique |
| TaskStore.UpdateTask | src/hooks/useMockTasks.ts:304 | the length is kept, every position whose id matches holds the new task, and every other position is unchanged |
| TaskStore.UpdateAbsentIsNoop | src/hooks/useMockTasks.ts:304 | updating an absent id changes nothing |
| TaskStore.UpdateKeepsIds | src/hooks/useMockTasks.ts:304 | an update keeps the set of ids, and keeps unique ids unique |
| TaskStore.UpdateInstalls | src/hooks/useMockTasks.ts:304 | the updated task is in the store afterwards iff its id was there before |
| TaskStore.DeleteTask | src/hooks/useMockTasks.ts:329 | exactly the tasks with that id go, and the rest stay with their multiplicities and in order |
| TaskStore.DeleteAbsentIsNoop | src/hooks/useMockTasks.ts:329 | deleting an absent id changes nothing |
| TaskStore.DeleteIds | src/hooks/useMockTasks.ts:329 | the ids afterwards are the old ones without the deleted id |
| TaskStore.DeleteRemovesOne | src/hooks/useMockTasks.ts:329 | with unique ids, deleting a present id removes exactly one task, and ids stay unique |
| TaskCache.OptimisticId | src/hooks/useMockTasks.ts:285 | a placeholder id is "optimistic-" followed by digits whose value is the clock reading |
| TaskCache.OptimisticIdNotMinted | src/hooks/useMockTasks.ts:277-285 | a placeholder id never equals a minted id |
| TaskCache.OnMutate | src/hooks/useMockTasks.ts:281-339 | the snapshot is the cache as it was, and the new entry is the speculative change applied to it, an absent entry counting as empty |
| TaskCache.SetQueryData | src/hooks/useMockTasks.ts:291 | writing a list replaces the entry, and writing `undefined` leaves it |
| TaskCache.OnSettled | src/hooks/useMockTasks.ts:293-295 | after the refetch the cache holds the store |
| TaskCache.RollbackRestoresSnapshot | src/hooks/useMockTasks.ts:283-342 | when a list was cached, `OnError` with the snapshot restores exactly that list |
| TaskCache.RollbackWithoutSnapshot | src/hooks/useMockTasks.ts:283-292 | when nothing was cached, the write-back of the snapshot is ignored and the speculative list stays |
| TaskCache.OptimisticAgreesWithStore | src/hooks/useMockTasks.ts:284-337 | on a cache that mirrors the store, the speculative update and delete equal the store's, and the speculative create differs only in the new task's id |
| TaskCache.RunMutation | src/hooks/useMockTasks.ts:272-345 | a failed mutation leaves the store as it was; otherwise the store becomes the mutation applied to it; either way, once settled the cache equals the store |
| TaskForm.Validate | src/components/tasks/TaskModal.tsx:82-91 | a field has an error iff its check fails: title and description blank after trimming, due date or status empty, and assignee name empty outside view mode; each error has its field's message |
| TaskForm.ValidateRejectsBlank | src/components/tasks/TaskModal.tsx:84-85 | title and description are rejected iff they are all whitespace |
| TaskForm.PassesIff | src/components/tasks/TaskModal.tsx:82-91 | validation passes iff every required field is filled in for the mode |
| TaskForm.BlankFormErrors | src/components/tasks/TaskModal.tsx:55-91 | a blank form fails on title, description and due date, and on the assignee outside view mode, but never on its preset status |
| TaskForm.HandleChange | src/components/tasks/TaskModal.tsx:93-95 | the named field takes the value and every other field is unchanged |
| TaskForm.HandleChangeSameValue | src/components/tasks/TaskModal.tsx:93-95 | writing back the value a field already holds leaves the form as it was |
| TaskForm.HandleChangeOverrides | src/components/tasks/TaskModal.tsx:93-95 | a second change to the same field overrides the first |
| TaskForm.HandleChangeCommutes | src/components/tasks/TaskModal.tsx:93-95 | changes to two different fields give the same form in either order |
| TaskForm.ResolveAssignee | src/components/tasks/TaskModal.tsx:97-100 | the chosen person has the picked name, is an option when one has that name, and otherwise has no picture |
| TaskForm.PickAssignee | src/components/tasks/TaskModal.tsx:97-100 | only the assignee changes |
| TaskForm.HandleAssigneeChange | src/components/tasks/TaskModal.tsx:97-100 | on this dialog's list the picked name is kept, an offered name gives that option, an unknown one gives no picture, and nothing else changes |
| TaskForm.OfferedNamesResolve | src/components/tasks/TaskModal.tsx:97-100 | when option names are distinct, each offered name resolves to its own option |
| TaskForm.AssigneeOptionsDistinct | src/components/tasks/TaskModal.tsx:28-52 | no two offered people share a name |
| TaskForm.ResetForm | src/components/tasks/TaskModal.tsx:67-80 | the form shows the given task, a blank form when creating without one, and is otherwise kept |
| TaskForm.HandleSave | src/components/tasks/TaskModal.tsx:102-106 | the errors shown are the validation result, and the form is handed over iff validation passes and there is a callback |
| UiTaskForm.UiOptionsArePrefix | src/ui/components/tasks/TaskModal.tsx:24-29 | the short assignee list is the first four entries of the long one |
| UiTaskForm.InitialState | src/ui/components/tasks/TaskModal.tsx:32-41 | the dialog mounts untouched, without errors, showing the task or a blank form |
| UiTaskForm.HandleUiChange | src/ui/components/tasks/TaskModal.tsx:69-72 | only the named field changes, and the form is marked touched |
| UiTaskForm.HandleUiAssigneeChange | src/ui/components/tasks/TaskModal.tsx:74-81 | on the four-entry list the picked name is kept, an offered name gives that option, an unknown one gives no picture, only the assignee changes, and the form is marked touched |
| UiTaskForm.ResetUiForm | src/ui/components/tasks/TaskModal.tsx:43-56 | the reset effect sets the form as the other copy does and keeps the touched flag and the errors |
| UiTaskForm.HandleUiSave | src/ui/components/tasks/TaskModal.tsx:58-87 | this copy validates with the same five checks, and the form is handed over iff they pass and there is a callback |
| PaginationBar.WindowSize | src/components/tasks/Pagination.tsx:51 | there are min(5, totalPages) numbered buttons |
| PaginationBar.PageNumbers | src/components/tasks/Pagination.tsx:51-61 | the numbers are consecutive real pages and include the current page when it is real, with the current page in the middle away from the ends |
| PaginationBar.WindowShapes | src/components/tasks/Pagination.tsx:51-61 | the window is 1..total, 1..5, total-4..total, or current-2..current+2, according to the four cases |
| PaginationBar.Render | src/components/tasks/Pagination.tsx:21-93 | nothing is drawn iff there is at most one page; otherwise "Showing" starts at start+1 and never passes the task count, First and Previous are disabled iff on page 1, Next and Last iff on the last page, the arrow targets stay in range, and exactly the current page's button is active |
| PaginationBar.DisabledIffNoMove | src/components/tasks/Pagination.tsx:35-90 | on a real page an arrow is disabled iff its target is the current page, and an enabled one moves by exactly one page |
| PaginationBar.OneActiveButton | src/components/tasks/Pagination.tsx:66 | on a real page exactly one numbered button is active |
| PaginationBar.ShowingCountsPage | src/components/tasks/Pagination.tsx:27 | on a real page the "Showing X to Y" range is exactly the tasks on the page |
| PaginationBar.ShowingCountsView | src/components/tasks/Pagination.tsx:27 | the same holds for the bar the page draws from its derived view |
| FilterSummaryView.SortActiveIff | src/components/tasks/FilterSummary.tsx:27 | the sort part of `HasActiveFilters` holds iff the sort is not due date ascending |
| FilterSummaryView.ArrowFor | src/components/tasks/FilterSummary.tsx:56 | the arrow points up iff the sort is ascending |
| FilterSummaryView.Summarize | src/components/tasks/FilterSummary.tsx:27-63 | nothing is drawn iff `HasActiveFilters` fails, that is, iff there is no filter, no search and the default sort; otherwise each badge shows iff its setting is active, each separator iff a badge precedes its own, and the page indicator iff there is more than one page |
| FilterSummaryView.SeparatorsBetweenBadges | src/components/tasks/FilterSummary.tsx:33-58 | a drawn summary has a badge, and a bullet stands between neighbouring badges and nowhere else |
| FilterSummaryView.SortBadgeNamesField | src/components/tasks/FilterSummary.tsx:50-58 | the sort badge shows the sort drop-down's text for the field |
| FilterSummaryView.CountsConsistent | src/components/tasks/FilterSummary.tsx:60 | the passing count never exceeds the total, and equals it with no filter and no search |
| TasksTableView.EmptyStateMessage | src/components/tasks/TasksTable.tsx:34-43 | every empty-table message starts with "No tasks found" |
| TasksTableView.EmptyStateMessageBare | src/components/tasks/TasksTable.tsx:34-43 | the bare message appears iff neither a status filter nor a search is set |
| TasksTableView.EmptyStateMessageMentions | src/components/tasks/TasksTable.tsx:35-40 | the message names the status label when a filter is set and quotes the search when one is set |
| TasksTableView.Initial | src/components/tasks/TasksTable.tsx:128 | the avatar initial is the first character of the name, or empty iff the name is |
| TasksTableView.RenderBody | src/components/tasks/TasksTable.tsx:99-188 | the empty row appears iff there are no tasks; otherwise there is one row per task, in order, keyed by id and showing its status label and badge |
| TasksTableView.RowKeysDistinct | src/components/tasks/TasksTable.tsx:99-101 | row keys are distinct iff the task ids are |
| TasksTableView.EmptyRowIffNothingMatches | src/components/tasks/TasksTable.tsx:179-188 | on a settled page the empty row appears iff no task passes the filter and the search |
| TasksTableView.SortFieldOf | src/components/tasks/TasksTable.tsx:52-91 | every header has a sort button except description and actions |
| TasksTableView.HeaderIcon | src/components/tasks/TasksTable.tsx:57-91 | a header shows a sort icon iff it sorts, and the icon is its field's |
| TasksTableView.HeaderDispatch | src/components/tasks/TasksTable.tsx:52-91 | each sort field has exactly one header, whose title is the sort drop-down's text for it |
| TasksTableView.HeaderClickShowsArrow | src/components/tasks/TasksTable.tsx:52-91 | after a header click that header shows an arrow and every other sortable header shows the unsorted icon |

## Left out

- React scheduling (`useState`, `useEffect` timing), `cancelQueries`, and the timing of `invalidateQueries`. Only their net effect on the state is modelled.
- The 400 ms simulated latency and overlapping in-flight mutations. These are asynchronous and their ordering is not defined.
- The seed data of the mock store (src/hooks/useMockTasks.ts:6-260). The store is a parameter.
- `formatDate` (src/components/tasks/utils.tsx:32-35). It depends on locale formatting and `Date`. A row shows the due date as stored.
- Markup, CSS, avatar images and icon components. Icons and badge variants are enum values.
- Strings.Compare: stands in for `localeCompare` with a lexicographic order on characters. The model proves only the properties the sort needs: antisymmetry, transitivity, and zero iff equal. The locale collation is not modelled.
- Strings.Lower: lower-cases ASCII letters only. `toLowerCase` also folds non-ASCII letters, so the search model is exact for ASCII text only.
- A Dafny `string` is a sequence of Unicode scalar values, while JavaScript strings are sequences of UTF-16 code units. The two agree outside the astral planes. TasksTableView.Initial returns a whole astral character where `charAt(0)` returns half of a surrogate pair, and lengths and positions differ the same way.
- TasksPage.DateKey: treats only `YYYY-MM-DD` with month 1-12 and day 1-31 as a date. Any other string, which `new Date` may parse or turn into NaN, compares as 0, as NaN does in the sort. TasksPage.SortTasksSorted therefore requires every due date to parse when sorting by due date. The day is not bounded by the month: "2024-02-31" gets a key between February 28 and March 1. V8 rolls such a date over to March 2, and other engines give NaN, so for those dates the model's order may differ from the browser's.
- TasksPage.SortTasks: models `Array.prototype.sort` as a stable insertion sort. Stability is not stated as a property.
- TaskStore.CreateTask: takes the new id as a parameter. `Date.now()` does not promise a fresh id, so freshness is a precondition of TaskStore.CreateKeepsIdsUnique rather than a guarantee.
- TaskCache.RollbackWithoutSnapshot: with nothing cached before the mutation, the source's rollback writes `undefined`, which the query client ignores. The model keeps this behaviour, so the speculative list stays until the refetch.
- TaskCache.RunMutation: does not model a failing refetch.
- PageModals.RunKeepsOneOpen: holds only because `Step` ignores view, edit, delete and create clicks while a dialog is open. The handlers themselves (src/hooks/useTasksPage.ts:121-134, 155-157) have no such guard: two clicks in a row would raise two flags. The model assumes what the screen arranges, that an open dialog's overlay covers the page, so its clicks do not reach the table or the create button.
- PageModals.EditSubmission: the source sends `{...selectedTask, ...taskData}`. The dialog always submits a whole task, so the merge equals the form.
- TaskForm.HandleChange: requires the value to fit the key (a person for the assignee, text otherwise). The source's `any` is not modelled.
- TasksPage.SetStatusFilter and TasksPage.SetSearchQuery keep the page number, as the raw setters do (src/hooks/useTasksPage.ts:199-200). The page passes them straight to the filter controls, and only `clearFilter`, `clearSearch` and `handleSort` return to page 1. A page left out of range is later brought back by TasksPage.ResetOutOfRange.
- The `touched` flag of the second dialog is recorded but never read by the source, so no property depends on it.
- Error and loading props of the dialogs, and the markup of `src/app/page.tsx`, `TaskFilters.tsx`, `DeleteTaskModal.tsx` and `Select.tsx`.
