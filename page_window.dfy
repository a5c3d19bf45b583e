/** The web components' pagination: the five-page window of page links
    (getPageNumbers, the same code in the products, users, stock-movements
    and reports components) and the six pagination fields each of those
    components keeps, with the navigation that assigns them. */
module PageWindow {

  /** The most page links shown. */
  const MaxPages: int := 5

  function Max(a: int, b: int): int { if a < b then b else a }
  function Min(a: int, b: int): int { if a < b then a else b }

  /** The pages the window shows: at most five consecutive pages, all of
      them real pages; five whenever there are that many pages, every page
      when there are fewer, none when there are none; and the current page
      among them whenever it is a real page. */
  function Window(currentPage: int, totalPages: int): (pages: seq<int>)
    ensures |pages| <= MaxPages
    ensures forall i :: 0 <= i < |pages| ==> 1 <= pages[i] <= totalPages
    ensures forall i :: 0 < i < |pages| ==> pages[i] == pages[i - 1] + 1
    ensures totalPages <= 0 ==> pages == []
    ensures totalPages >= MaxPages ==> |pages| == MaxPages
    ensures 0 < totalPages < MaxPages ==> |pages| == totalPages && pages[0] == 1
    ensures 1 <= currentPage <= totalPages ==> currentPage in pages
  {
    var first := Max(1, currentPage - MaxPages / 2);
    var last := Min(totalPages, first + MaxPages - 1);
    var start := if last - first < MaxPages - 1 then Max(1, last - MaxPages + 1) else first;
    if start <= last then
      var pages := seq(last - start + 1, i => start + i);
      assert 1 <= currentPage <= totalPages ==> pages[currentPage - start] == currentPage;
      pages
    else []
  }

  /** getPageNumbers: the window built by a push loop. */
  method PageNumbers(currentPage: int, totalPages: int) returns (pages: seq<int>)
    ensures pages == Window(currentPage, totalPages)
  {
    pages := [];
    var startPage := Max(1, currentPage - MaxPages / 2);
    var endPage := Min(totalPages, startPage + MaxPages - 1);
    if endPage - startPage < MaxPages - 1 {
      startPage := Max(1, endPage - MaxPages + 1);
    }
    var i := startPage;
    while i <= endPage
      invariant startPage <= i <= Max(startPage, endPage + 1)
      invariant pages == seq(i - startPage, k => startPage + k)
    {
      pages := pages + [i];
      i := i + 1;
    }
  }

  /** Away from both ends the window is centred on the current page. */
  lemma CentredWindow(currentPage: int, totalPages: int)
    requires 3 <= currentPage <= totalPages - 2
    ensures Window(currentPage, totalPages)
      == [currentPage - 2, currentPage - 1, currentPage, currentPage + 1, currentPage + 2]
  {
  }

  /** Near the last page the window ends at the last page. */
  lemma WindowAtTheEnd(currentPage: int, totalPages: int)
    requires totalPages >= MaxPages && currentPage > totalPages - 2
    ensures Window(currentPage, totalPages)[MaxPages - 1] == totalPages
  {
  }

  /** A component's pagination fields. `totalPages` and the two flags are
      copied from the last response. */
  class Pager {
    var currentPage: int
    var pageSize: int
    var totalCount: int
    var totalPages: int
    var hasPreviousPage: bool
    var hasNextPage: bool

    /** The component never asks for a page before the first. */
    ghost predicate Valid()
      reads this
    {
      currentPage >= 1
    }

    constructor()
      ensures Valid()
      ensures currentPage == 1 && pageSize == 10 && totalCount == 0 && totalPages == 0
      ensures !hasPreviousPage && !hasNextPage
    {
      currentPage := 1;
      pageSize := 10;
      totalCount := 0;
      totalPages := 0;
      hasPreviousPage := false;
      hasNextPage := false;
    }

    /** goToPage: only a real page is taken; `moved` says whether the list is
        to be reloaded. */
    method GoToPage(page: int) returns (moved: bool)
      requires Valid()
      modifies this
      ensures Valid()
      ensures moved <==> 1 <= page <= totalPages
      ensures currentPage == (if moved then page else old(currentPage))
      ensures moved ==> currentPage in Window(currentPage, totalPages)
      ensures pageSize == old(pageSize) && totalCount == old(totalCount) && totalPages == old(totalPages)
      ensures hasPreviousPage == old(hasPreviousPage) && hasNextPage == old(hasNextPage)
    {
      moved := 1 <= page <= totalPages;
      if moved {
        currentPage := page;
      }
    }

    /** changePageSize: the new size, back to the first page. */
    method ChangePageSize(size: int)
      modifies this
      ensures Valid()
      ensures pageSize == size && currentPage == 1
      ensures totalCount == old(totalCount) && totalPages == old(totalPages)
      ensures hasPreviousPage == old(hasPreviousPage) && hasNextPage == old(hasNextPage)
    {
      pageSize := size;
      currentPage := 1;
    }

    /** An unpaged list of `count` rows arrived: one page, no neighbours. */
    method ShowList(count: int)
      requires Valid()
      modifies this
      ensures Valid()
      ensures totalCount == count && totalPages == 1 && !hasPreviousPage && !hasNextPage
      ensures currentPage == old(currentPage) && pageSize == old(pageSize)
    {
      totalCount := count;
      totalPages := 1;
      hasPreviousPage := false;
      hasNextPage := false;
    }

    /** A paged result arrived: its counts and flags are copied. */
    method ShowPage(count: int, pages: int, hasPrevious: bool, hasNext: bool)
      requires Valid()
      modifies this
      ensures Valid()
      ensures totalCount == count && totalPages == pages
      ensures hasPreviousPage == hasPrevious && hasNextPage == hasNext
      ensures currentPage == old(currentPage) && pageSize == old(pageSize)
    {
      totalCount := count;
      totalPages := pages;
      hasPreviousPage := hasPrevious;
      hasNextPage := hasNext;
    }

    /** getPageNumbers on this component's fields. */
    method GetPageNumbers() returns (pages: seq<int>)
      ensures pages == Window(currentPage, totalPages)
    {
      pages := PageNumbers(currentPage, totalPages);
    }
  }
}
