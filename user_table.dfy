/**
 * The state of the user table component and the handlers that change it:
 * fetch start and completion, the sort toggle, re-fetch and page navigation.
 */
module UserTableState {
  import opened Users
  import opened Pagination

  /** The sort state: `""`, `"asc"` or `"desc"`. Only the first two are ever assigned. */
  datatype SortDirection = Unsorted | Ascending | Descending

  /** What the remote GET of the user list ends with. */
  datatype FetchOutcome = Fetched(data: seq<User>) | FetchFailed

  class UserTable {
    /** The rows in display order. */
    var users: seq<User>
    /** The rows in the order of the last successful fetch. */
    var originalUsers: seq<User>
    var loading: bool
    var currentPage: int
    var sortDirection: SortDirection
    /** The one name comparator every sort toggle uses. */
    const compare: Comparator

    /**
     * What every handler keeps: pages count from 1, no handler ever selects
     * a descending sort, and the displayed rows are a rearrangement of the
     * fetched ones. The current page is NOT bounded by the page count: it is
     * never re-clamped when a re-fetch shrinks the list. The comparator is a
     * total preorder on names.
     */
    ghost predicate Valid()
      reads this
    {
      && currentPage >= 1
      && sortDirection != Descending
      && multiset(users) == multiset(originalUsers)
      && IsNameOrder(compare)
    }

    /**
     * The rows of the current page: at most five rows of `users`, and none
     * when the current page lies beyond the last one.
     */
    function CurrentUsers(): (r: seq<User>)
      reads this
      ensures |r| <= UsersPerPage
      ensures forall k :: 0 <= k < |r| ==> r[k] in users
      ensures 1 <= currentPage ==> (r == [] <==> currentPage > TotalPages())
    {
      if 1 <= currentPage then PageSizes(users, currentPage); PageSlice(users, currentPage)
      else PageSlice(users, currentPage)
    }

    /**
     * The number of pages for the current rows: zero exactly when there are
     * no rows, and reading pages `1..r` in order shows every row once.
     */
    function TotalPages(): (r: nat)
      reads this
      ensures r == 0 <==> users == []
      ensures PagesUpTo(users, r) == users
    {
      PagesReassembleUsers(users);
      PageCount(|users|)
    }

    /** The state at mount: no rows, loading, on page 1, unsorted. */
    constructor (compare: Comparator)
      requires IsNameOrder(compare)
      ensures Valid()
      ensures this.compare == compare
      ensures users == [] && originalUsers == []
      ensures loading && currentPage == 1 && sortDirection == Unsorted
    {
      this.compare := compare;
      users := [];
      originalUsers := [];
      loading := true;
      currentPage := 1;
      sortDirection := Unsorted;
    }

    /** The synchronous start of a fetch: the loading flag is raised. */
    method BeginFetch()
      requires Valid()
      modifies this
      ensures Valid()
      ensures loading
      ensures users == old(users) && originalUsers == old(originalUsers)
      ensures currentPage == old(currentPage) && sortDirection == old(sortDirection)
    {
      loading := true;
    }

    /**
     * The end of a fetch. A response replaces both the displayed and the
     * original rows; a failure keeps both. Either way loading ends, and the
     * page and the sort direction are left as they were.
     */
    method CompleteFetch(outcome: FetchOutcome)
      requires Valid()
      modifies this
      ensures Valid()
      ensures !loading
      ensures outcome.Fetched? ==> users == outcome.data && originalUsers == outcome.data
      ensures outcome.FetchFailed? ==> users == old(users) && originalUsers == old(originalUsers)
      ensures currentPage == old(currentPage) && sortDirection == old(sortDirection)
    {
      match outcome {
        case Fetched(data) =>
          users := data;
          originalUsers := data;
        case FetchFailed =>
      }
      loading := false;
    }

    /**
     * The sort toggle. From ascending it restores the fetched order and
     * clears the direction; otherwise it shows the rows sorted by name (a
     * rearrangement of the rows shown before) and sets ascending. The
     * original rows, the page and the loading flag are untouched.
     */
    method HandleSort()
      requires Valid()
      modifies this
      ensures Valid()
      ensures old(sortDirection) == Ascending ==> users == old(originalUsers) && sortDirection == Unsorted
      ensures old(sortDirection) != Ascending ==>
        && SortedByName(compare, users)
        && multiset(users) == multiset(old(users))
        && sortDirection == Ascending
      ensures originalUsers == old(originalUsers)
      ensures currentPage == old(currentPage) && loading == old(loading)
    {
      if sortDirection == Ascending {
        users := originalUsers;
        sortDirection := Unsorted;
      } else {
        users := SortedCopy(users, compare);
        sortDirection := Ascending;
      }
    }

    /**
     * The re-fetch button: clears the sort direction and starts a fetch. The
     * current page is not reset.
     */
    method HandleFetchLatest()
      requires Valid()
      modifies this
      ensures Valid()
      ensures sortDirection == Unsorted && loading
      ensures users == old(users) && originalUsers == old(originalUsers)
      ensures currentPage == old(currentPage)
    {
      sortDirection := Unsorted;
      BeginFetch();
    }

    /** A page button: selects the page it is labelled with. */
    method HandlePagination(pageNumber: int)
      requires Valid()
      requires pageNumber >= 1
      modifies this
      ensures Valid()
      ensures currentPage == pageNumber
      ensures users == old(users) && originalUsers == old(originalUsers)
      ensures loading == old(loading) && sortDirection == old(sortDirection)
    {
      currentPage := pageNumber;
    }

    /** The previous button: one page back, unless on page 1. */
    method HandlePrevious()
      requires Valid()
      modifies this
      ensures Valid()
      ensures currentPage == PreviousPage(old(currentPage))
      ensures PreviousDisabled(old(currentPage)) <==> currentPage == old(currentPage)
      ensures users == old(users) && originalUsers == old(originalUsers)
      ensures loading == old(loading) && sortDirection == old(sortDirection)
    {
      if currentPage > 1 {
        currentPage := currentPage - 1;
      }
    }

    /** The next button: one page forward, unless already at or past the last page. */
    method HandleNextPage()
      requires Valid()
      modifies this
      ensures Valid()
      ensures currentPage == NextPage(old(currentPage), old(TotalPages()))
      ensures currentPage == old(currentPage) <==> old(currentPage) >= old(TotalPages())
      ensures users == old(users) && originalUsers == old(originalUsers)
      ensures loading == old(loading) && sortDirection == old(sortDirection)
    {
      var totalPages := PageCount(|users|);
      if currentPage < totalPages {
        currentPage := currentPage + 1;
      }
    }
  }

  /**
   * After a re-fetch that succeeds, clicking the sort toggle twice first
   * sorts the fetched rows by name and then shows them again in exactly the
   * order the response gave.
   */
  method ToggleTwiceAfterRefetch(t: UserTable, data: seq<User>)
    requires t.Valid()
    modifies t
    ensures t.Valid()
    ensures t.users == data && t.originalUsers == data
    ensures t.sortDirection == Unsorted && !t.loading
  {
    t.HandleFetchLatest();
    t.CompleteFetch(Fetched(data));
    t.HandleSort();
    assert SortedByName(t.compare, t.users) && multiset(t.users) == multiset(data);
    t.HandleSort();
  }

  /**
   * On page 3 of 3, a re-fetch that returns three rows leaves one page but
   * keeps the current page at 3, so the table shows no rows.
   */
  method RefetchShrinkKeepsStalePage(t: UserTable, data: seq<User>)
    requires t.Valid()
    requires t.currentPage == 3 && t.TotalPages() == 3
    requires |data| == 3
    modifies t
    ensures t.Valid()
    ensures t.currentPage == 3 && t.TotalPages() == 1
    ensures t.CurrentUsers() == []
  {
    t.HandleFetchLatest();
    t.CompleteFetch(Fetched(data));
    PageSizes(t.users, t.currentPage);
  }

  /**
   * When a re-fetch fails while the rows are sorted, the direction is
   * cleared but the rows keep their sorted order, so the direction no longer
   * describes what is shown.
   */
  method FailedRefetchKeepsSortedRows(t: UserTable)
    requires t.Valid()
    requires t.sortDirection == Ascending
    modifies t
    ensures t.Valid()
    ensures t.users == old(t.users) && t.originalUsers == old(t.originalUsers)
    ensures t.sortDirection == Unsorted && !t.loading
  {
    t.HandleFetchLatest();
    t.CompleteFetch(FetchFailed);
  }

  /**
   * The toggle after such a failed re-fetch sorts the rows again, rather
   * than restoring the fetched order, and sets the direction back to
   * ascending.
   */
  method ToggleAfterFailedRefetchSortsAgain(t: UserTable)
    requires t.Valid()
    requires t.sortDirection == Ascending
    modifies t
    ensures t.Valid()
    ensures t.sortDirection == Ascending
    ensures SortedByName(t.compare, t.users)
    ensures multiset(t.users) == multiset(old(t.users))
    ensures t.originalUsers == old(t.originalUsers)
  {
    FailedRefetchKeepsSortedRows(t);
    t.HandleSort();
  }
}
