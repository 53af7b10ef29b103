# User table: state machine, sort toggle and pagination

This project models the `UserTable` component of a small single-page
application. The component fetches a list of user records from a remote
endpoint and shows them in a table, five rows per page. A toggle sorts the
rows by name. Buttons step to the previous or next page or pick a page by
number. Another button re-fetches the list.

Once React and the HTTP client are stripped away, what remains is a small
state machine over five fields:
- `users`: the rows in display order.
- `originalUsers`: the rows in the order of the last successful fetch.
- `loading`.
- `currentPage`: numbered from 1.
- `sortDirection`: `""`, `"asc"` or `"desc"`.

The table also derives values from that state on every render: the slice of
the current page, the page count and which buttons are disabled.

- `users.dfy` (module `Users`): the user record and the name comparator, an
  abstract three-way comparison whose "at most zero" is a total preorder. It
  also holds the sort: a copy of the list, sorted in place by an insertion
  sort that stands in for the engine's array sort.
- `pagination.dfy` (module `Pagination`): the pure derivations. It holds the
  array `slice` operation with its clamping of negative and oversized
  positions, the page slice, the page count `ceil(n / 5)` and the disabled
  predicates of the buttons. It also holds the page moves of the previous and
  next buttons.
- `user_table.dfy` (module `UserTableState`): the class `UserTable`, with
  the five fields and the handlers as methods, and four client methods for
  the multi-step scenarios.

The model keeps two quirks of the code, because the code does them:
- The current page is never re-clamped when a re-fetch returns fewer rows, so
  the object invariant does not bound `currentPage` by the page count.
- On page 1 of an empty list the next button is enabled but does nothing.

## Model

| member | source | states |
|---|---|---|
| `Users.SortedCopy` | src/components/UserTable.tsx:64 | `[...users].sort(byName)`: the result is sorted by name under any comparator that is a total preorder, and it is a permutation (same multiset) of the input |
| `Users.SortInPlace` | src/components/UserTable.tsx:64 | the in-place array sort leaves the array sorted by name and a permutation of its old contents |
| `Pagination.JsSlice` | src/components/UserTable.tsx:77 | `slice(start, end)` returns at most the whole list. For `0 <= start <= end` it is the window `start..end` clamped to the length. For `0 <= end <= start` it is empty |
| `Pagination.PageSlice` | src/components/UserTable.tsx:76-77 | the current page holds at most 5 rows, all taken from `users`. For page `p >= 1` it is `users[min((p-1)*5, n) .. min((p-1)*5+5, n)]` |
| `Pagination.PageCount` | src/components/UserTable.tsx:90 | `Math.ceil(n / 5)` is the least `r` with `5 * r >= n`, and it is 0 exactly for an empty list |
| `Pagination.StartIndex` | src/components/UserTable.tsx:76 | the index of a page's first row is a multiple of 5, and it is non-negative exactly for pages numbered from 1 |
| `UserTableState.UserTable.CurrentUsers` | src/components/UserTable.tsx:77 | the rows of the current page: at most 5 rows of `users`, and (for a page `>= 1`) empty exactly when the page lies beyond the last one |
| `UserTableState.UserTable.TotalPages` | src/components/UserTable.tsx:90 | the page count of the current rows is 0 exactly when there are no rows, and reading pages 1..totalPages shows every row once, in order |
| `Pagination.PagesUpToIsPrefix` | src/components/UserTable.tsx:76-77 | concatenating the slices of pages 1..k gives exactly the first `min(5k, n)` rows |
| `Pagination.PagesReassembleUsers` | src/components/UserTable.tsx:76-90 | concatenating the slices of pages 1..totalPages gives back `users` exactly, so no row is lost or repeated |
| `Pagination.PageSizes` | src/components/UserTable.tsx:76-90 | every page before the last has exactly 5 rows. The last page has the remaining 1 to 5 rows. A page beyond the last is empty |
| `Pagination.TwelveUsersMakeThreePages` | src/components/UserTable.tsx:76-90 | 12 rows give 3 pages: rows 1-5, 6-10 and 11-12. Page 4 is empty |
| `Pagination.PageButtons` | src/components/UserTable.tsx:161-169 | one page button per page; the button at position `i` (labelled `i + 1`) is disabled exactly when `i + 1` is the current page |
| `Pagination.PageButtonsDisableCurrentPage` | src/components/UserTable.tsx:161-169 | one button per page. At most one is disabled. One is disabled exactly when the current page is among `1..totalPages`, and it is that page's button |
| `Pagination.PreviousDisabled` | src/components/UserTable.tsx:158 | the previous button is disabled on page 1, and there "previous" would leave the page unchanged |
| `Pagination.NextDisabled` | src/components/UserTable.tsx:172 | the next button is disabled when the current page equals the page count, and there "next" would leave the page unchanged |
| `Pagination.PreviousPage` | src/components/UserTable.tsx:84-86 | "previous" gives the same page or the one before, and from a page `>= 1` never goes below 1 |
| `Pagination.NextPage` | src/components/UserTable.tsx:94-96 | "next" gives the same page or the one after, and a move never passes the page count |
| `Pagination.PreviousPageSpec` | src/components/UserTable.tsx:83-87 | from a page `>= 1`, "previous" moves back exactly one page and stays `>= 1`. It leaves the page alone exactly when the button is disabled (`currentPage == 1`, line 158) |
| `Pagination.NextPageSpec` | src/components/UserTable.tsx:93-97 | "next" moves forward exactly one page and never beyond `totalPages`. It does nothing when disabled (`currentPage == totalPages`, line 172). It is enabled yet does nothing exactly when the page lies beyond `totalPages` |
| `Pagination.NextOnEmptyListIsEnabledNoOp` | src/components/UserTable.tsx:172 | with no rows there are 0 pages, and on page 1 the next button is enabled but does nothing |
| `UserTableState.UserTable.constructor` | src/components/UserTable.tsx:20-28 | the initial state: no rows, loading, page 1, no sort direction, and the one name comparator the toggle will use. The invariant holds |
| `UserTableState.UserTable.BeginFetch` | src/components/UserTable.tsx:39-40 | starting a fetch raises `loading` and changes nothing else |
| `UserTableState.UserTable.CompleteFetch` | src/components/UserTable.tsx:41-53 | a response sets both `users` and `originalUsers` to the data. A failure leaves both unchanged. `loading` is false afterwards either way. `currentPage` and `sortDirection` are untouched |
| `UserTableState.UserTable.HandleSort` | src/components/UserTable.tsx:57-67 | from `"asc"`: `users := originalUsers` and the direction becomes `""`. Otherwise `users` becomes a permutation of itself sorted by name under the table's fixed comparator and the direction becomes `"asc"`. `originalUsers`, the page and `loading` are unchanged. The invariant (direction never `"desc"`, `users` a permutation of `originalUsers`, page `>= 1`) is kept |
| `UserTableState.UserTable.HandleFetchLatest` | src/components/UserTable.tsx:70-73 | clears the sort direction and starts a fetch. The current page and the rows are not touched |
| `UserTableState.UserTable.HandlePagination` | src/components/UserTable.tsx:80 | selects the given page and changes nothing else |
| `UserTableState.UserTable.HandlePrevious` | src/components/UserTable.tsx:83-87 | the new page is `PreviousPage` of the old one. The page is unchanged exactly when the previous button is disabled. Nothing else changes, and the page stays `>= 1` |
| `UserTableState.UserTable.HandleNextPage` | src/components/UserTable.tsx:93-97 | the new page is `NextPage(old page, totalPages)`. It is unchanged exactly when the old page is at or beyond `totalPages`. Nothing else changes |
| `UserTableState.ToggleTwiceAfterRefetch` | src/components/UserTable.tsx:46-73 | after a successful re-fetch, toggling the sort twice shows exactly the fetched order again, with no sort direction |
| `UserTableState.RefetchShrinkKeepsStalePage` | src/components/UserTable.tsx:70-90 | on page 3 of 3, a re-fetch returning 3 rows leaves 1 page. The current page stays 3, and the current page shows no rows |
| `UserTableState.FailedRefetchKeepsSortedRows` | src/components/UserTable.tsx:49-73 | a failed re-fetch while sorted clears the direction but keeps the sorted rows and `originalUsers` |
| `UserTableState.ToggleAfterFailedRefetchSortsAgain` | src/components/UserTable.tsx:57-73 | after such a failed re-fetch the next toggle sorts the rows again (sorted by name, a permutation of the rows before) and sets the direction back to `"asc"`, instead of restoring the fetched order |

## Left out

- The HTTP GET and its fixed URL (src/components/UserTable.tsx:42-44): network I/O. Only its outcome is modelled, as `Fetched(data)` or `FetchFailed`, passed to `CompleteFetch`.
- The `useEffect` that fetches on mount (src/components/UserTable.tsx:34-36): it is `BeginFetch` followed later by `CompleteFetch`.
- `console.error` on failure (src/components/UserTable.tsx:50): diagnostic output with no effect on state.
- Overlapping fetches and the async interleaving of a fetch with user events: concurrency. `BeginFetch` and `CompleteFetch` may be called in any order, and the last completion wins, as in the code.
- The locale rules of `localeCompare` and the engine's own sorting algorithm: library code. The comparator is a constant of the table object, given to its constructor and required to be a total preorder. The sort is an insertion sort promising only "sorted and a permutation".
- Users.SortedCopy: does not state the stability of the engine's sort (rows with equal names keep their relative order), because only "sorted and a permutation" is assumed of the library sort.
- UserTableState.UserTable.HandlePagination: requires `pageNumber >= 1`. The only callers are the page buttons, which pass `index + 1` for `index` in `0..totalPages-1`.
- Rendering: the loading placeholder, table rows, the address template, arrow images and styles (src/components/UserTable.tsx:99-181). The `loading` flag is modelled, but what it hides is not.
- src/App.tsx: it only renders a heading and mounts the table.
- Numbers are unbounded integers. A JavaScript number would lose precision only far beyond any list this table can hold.
