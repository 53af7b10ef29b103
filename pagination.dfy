/**
 * The values the table derives from its state on every render: the start
 * index and the rows of the current page, the number of pages, and which
 * navigation buttons are disabled; with the page moves that the previous and
 * next buttons ask for.
 */
module Pagination {

  /** Rows shown per page. */
  const UsersPerPage: nat := 5

  function Min(a: int, b: int): int {
    if a <= b then a else b
  }

  /**
   * Where the array slice operation starts or ends for a requested position
   * `rel` into a list of `len` elements: a negative position counts from the
   * end, and the result is clamped to `0..len` (section 23.1.3.28 of
   * ECMA-262, Array.prototype.slice).
   */
  function ClampIndex(rel: int, len: nat): (r: nat)
    ensures r <= len
    ensures 0 <= rel ==> r == Min(rel, len)
  {
    if rel < 0 then (if len + rel < 0 then 0 else len + rel)
    else if rel < len then rel
    else len
  }

  /** `s.slice(start, end)` on a list. */
  function JsSlice<T>(s: seq<T>, start: int, end: int): (r: seq<T>)
    ensures |r| <= |s|
    ensures 0 <= start <= end ==> r == s[Min(start, |s|)..Min(end, |s|)]
    ensures 0 <= end <= start ==> r == []
  {
    var from, to := ClampIndex(start, |s|), ClampIndex(end, |s|);
    if from < to then s[from..to] else []
  }

  /** Index of the first row of `page` (pages count from 1). */
  function StartIndex(page: int): (r: int)
    ensures 0 <= r <==> 1 <= page
    ensures r % UsersPerPage == 0
  {
    (page - 1) * UsersPerPage
  }

  /** The rows shown on `page`: `users.slice(startIndex, startIndex + 5)`. */
  function PageSlice<T>(users: seq<T>, page: int): (r: seq<T>)
    ensures |r| <= UsersPerPage
    ensures page >= 1 ==>
      r == users[Min(StartIndex(page), |users|)..Min(StartIndex(page) + UsersPerPage, |users|)]
    ensures forall k :: 0 <= k < |r| ==> r[k] in users
  {
    var start := StartIndex(page);
    JsSlice(users, start, start + UsersPerPage)
  }

  /** Number of pages for `count` rows, `Math.ceil(count / 5)`. */
  function PageCount(count: nat): (r: nat)
    ensures UsersPerPage * r >= count
    ensures r > 0 ==> UsersPerPage * (r - 1) < count
    ensures r == 0 <==> count == 0
  {
    (count + UsersPerPage - 1) / UsersPerPage
  }

  /** The concatenation of the slices of pages `1..k`, in order. */
  function PagesUpTo<T>(users: seq<T>, k: nat): seq<T> {
    if k == 0 then [] else PagesUpTo(users, k - 1) + PageSlice(users, k)
  }

  /** The first `k` pages are exactly the first `5 * k` rows (or all of them). */
  lemma {:induction false} PagesUpToIsPrefix<T>(users: seq<T>, k: nat)
    ensures PagesUpTo(users, k) == users[..Min(UsersPerPage * k, |users|)]
  {
    if k > 0 {
      PagesUpToIsPrefix(users, k - 1);
      var a, b := Min(UsersPerPage * (k - 1), |users|), Min(UsersPerPage * k, |users|);
      assert PageSlice(users, k) == users[a..b];
      assert users[..a] + users[a..b] == users[..b];
    }
  }

  /** Reading every page in order, from 1 to the page count, gives back the whole list. */
  lemma PagesReassembleUsers<T>(users: seq<T>)
    ensures PagesUpTo(users, PageCount(|users|)) == users
  {
    PagesUpToIsPrefix(users, PageCount(|users|));
    assert users[..|users|] == users;
  }

  /**
   * Every page before the last is full, the last one holds between one and
   * five rows, and a page past the last (reachable because the current page
   * is not re-clamped after a re-fetch) is empty.
   */
  lemma PageSizes<T>(users: seq<T>, page: int)
    requires page >= 1
    ensures page < PageCount(|users|) ==> |PageSlice(users, page)| == UsersPerPage
    ensures page == PageCount(|users|) ==>
      |PageSlice(users, page)| == |users| - StartIndex(page) && 1 <= |PageSlice(users, page)| <= UsersPerPage
    ensures page > PageCount(|users|) ==> PageSlice(users, page) == []
  {
    var n := PageCount(|users|);
    if page < n {
      assert StartIndex(page) + UsersPerPage <= UsersPerPage * (n - 1);
    } else if page > n {
      assert StartIndex(page) >= UsersPerPage * n;
    }
  }

  /** Twelve rows make three pages: rows 1-5, 6-10 and 11-12. */
  lemma TwelveUsersMakeThreePages<T>(users: seq<T>)
    requires |users| == 12
    ensures PageCount(|users|) == 3
    ensures PageSlice(users, 1) == users[0..5]
    ensures PageSlice(users, 2) == users[5..10]
    ensures PageSlice(users, 3) == users[10..12]
    ensures PageSlice(users, 4) == []
  {
  }

  /** The previous button is disabled on the first page, where it would do nothing. */
  predicate PreviousDisabled(currentPage: int)
    ensures PreviousDisabled(currentPage) ==> PreviousPage(currentPage) == currentPage
  {
    currentPage == 1
  }

  /**
   * The next button is disabled on the page whose number is the page count,
   * where it would do nothing.
   */
  predicate NextDisabled(currentPage: int, totalPages: nat)
    ensures NextDisabled(currentPage, totalPages) ==> NextPage(currentPage, totalPages) == currentPage
  {
    currentPage == totalPages
  }

  /** The page button at position `index` (labelled `index + 1`) is disabled on its own page. */
  predicate PageButtonDisabled(currentPage: int, index: nat) {
    currentPage == index + 1
  }

  /** The disabled flags of the page buttons, one per page, in order. */
  function PageButtons(currentPage: int, totalPages: nat): (r: seq<bool>)
    ensures |r| == totalPages
    ensures forall i :: 0 <= i < totalPages ==> (r[i] <==> i == currentPage - 1)
  {
    seq(totalPages, index requires 0 <= index => PageButtonDisabled(currentPage, index))
  }

  /**
   * At most one page button is disabled, and one is exactly when the current
   * page is among the rendered pages; it is the button of that page.
   */
  lemma PageButtonsDisableCurrentPage(currentPage: int, totalPages: nat)
    ensures forall i, j :: 0 <= i < j < totalPages ==>
      !(PageButtons(currentPage, totalPages)[i] && PageButtons(currentPage, totalPages)[j])
    ensures (exists i :: 0 <= i < totalPages && PageButtons(currentPage, totalPages)[i])
      <==> 1 <= currentPage <= totalPages
    ensures 1 <= currentPage <= totalPages ==> PageButtons(currentPage, totalPages)[currentPage - 1]
  {
    if 1 <= currentPage <= totalPages {
      assert PageButtons(currentPage, totalPages)[currentPage - 1];
    }
  }

  /** The page the previous button moves to: the same page or the one before, never below 1. */
  function PreviousPage(currentPage: int): (r: int)
    ensures r == currentPage || r == currentPage - 1
    ensures 1 <= currentPage ==> 1 <= r
  {
    if currentPage > 1 then currentPage - 1 else currentPage
  }

  /**
   * The page the next button moves to: the same page or the one after, and
   * a move never passes the page count.
   */
  function NextPage(currentPage: int, totalPages: nat): (r: int)
    ensures r == currentPage || r == currentPage + 1
    ensures r != currentPage ==> r <= totalPages
  {
    if currentPage < totalPages then currentPage + 1 else currentPage
  }

  /**
   * From any page number of at least 1, the previous button stays at a page of
   * at least 1, moves exactly one page back, and leaves the page alone exactly
   * when it is disabled.
   */
  lemma PreviousPageSpec(currentPage: int)
    requires currentPage >= 1
    ensures PreviousPage(currentPage) >= 1
    ensures PreviousPage(currentPage) == currentPage <==> PreviousDisabled(currentPage)
    ensures PreviousPage(currentPage) != currentPage ==> PreviousPage(currentPage) == currentPage - 1
  {
  }

  /**
   * The next button moves exactly one page forward and never beyond the page
   * count. When it is disabled it does nothing; it is enabled yet does nothing
   * exactly when the current page lies beyond the page count, which includes
   * page 1 of an empty list.
   */
  lemma NextPageSpec(currentPage: int, totalPages: nat)
    ensures NextPage(currentPage, totalPages) != currentPage ==>
      NextPage(currentPage, totalPages) == currentPage + 1 <= totalPages
    ensures NextDisabled(currentPage, totalPages) ==> NextPage(currentPage, totalPages) == currentPage
    ensures !NextDisabled(currentPage, totalPages) && NextPage(currentPage, totalPages) == currentPage
      <==> currentPage > totalPages
    ensures currentPage <= totalPages ==> NextPage(currentPage, totalPages) <= totalPages
  {
  }

  /** With no rows there are no pages; on page 1 the next button is enabled and does nothing. */
  lemma NextOnEmptyListIsEnabledNoOp()
    ensures PageCount(0) == 0
    ensures !NextDisabled(1, PageCount(0)) && NextPage(1, PageCount(0)) == 1
  {
  }
}
