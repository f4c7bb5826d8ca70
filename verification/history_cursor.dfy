/**
 * The page cursor of the history page script: the current page, the page count last
 * reported by the server, and the filter values read when a request is sent. Each click or
 * change handler updates the cursor in place and says which request, if any, it sends.
 */
module HistoryCursor {
  import opened Wrappers

  /** The query of one `/api/history` request: `days`, `type` and `page`. */
  datatype HistoryRequest = HistoryRequest(days: string, typeFilter: string, page: int)

  class Cursor {
    /** `currentPage` */
    var currentPage: int
    /** `totalPages` */
    var totalPages: int
    /** The value of the date filter. */
    var days: string
    /** The value of the type filter. */
    var typeFilter: string
    /** The page number shown in the page label, once a successful reply has set it. */
    var shownPage: Option<int>

    /** The cursor never points before the first page. */
    ghost predicate Valid()
      reads this
    {
      currentPage >= 1
    }

    /** The request `fetchHistory` sends from the present state. */
    function Request(): (r: HistoryRequest)
      reads this
      ensures r.page == currentPage && r.days == days && r.typeFilter == typeFilter
    {
      HistoryRequest(days, typeFilter, currentPage)
    }

    /** The page loads on page 1 of 1, with the filters' initial values. */
    constructor (days: string, typeFilter: string)
      ensures Valid()
      ensures currentPage == 1 && totalPages == 1
      ensures this.days == days && this.typeFilter == typeFilter && shownPage == None
    {
      currentPage := 1;
      totalPages := 1;
      this.days := days;
      this.typeFilter := typeFilter;
      shownPage := None;
    }

    /** The previous-page button: moves back and fetches, unless already on page 1. */
    method PrevPage() returns (request: Option<HistoryRequest>)
      requires Valid()
      modifies this
      ensures Valid()
      ensures old(currentPage) > 1 ==> currentPage == old(currentPage) - 1 && request == Some(Request())
      ensures old(currentPage) <= 1 ==> currentPage == old(currentPage) && request == None
      ensures totalPages == old(totalPages) && days == old(days) && typeFilter == old(typeFilter)
      ensures shownPage == old(shownPage)
    {
      request := None;
      if currentPage > 1 {
        currentPage := currentPage - 1;
        request := Some(HistoryRequest(days, typeFilter, currentPage));
      }
    }

    /**
     * The next-page button: moves forward and fetches only while below the reported page
     * count, so it never takes the cursor past that count (and does nothing when it is 0).
     */
    method NextPage() returns (request: Option<HistoryRequest>)
      requires Valid()
      modifies this
      ensures Valid()
      ensures old(currentPage) < old(totalPages) ==>
        currentPage == old(currentPage) + 1 && currentPage <= totalPages && request == Some(Request())
      ensures old(currentPage) >= old(totalPages) ==> currentPage == old(currentPage) && request == None
      ensures currentPage <= old(currentPage) || currentPage <= totalPages
      ensures totalPages == old(totalPages) && days == old(days) && typeFilter == old(typeFilter)
      ensures shownPage == old(shownPage)
    {
      request := None;
      if currentPage < totalPages {
        currentPage := currentPage + 1;
        request := Some(HistoryRequest(days, typeFilter, currentPage));
      }
    }

    /** A change of either filter: back to page 1 whatever the page was, and always a fetch. */
    method FilterChanged(newDays: string, newType: string) returns (request: HistoryRequest)
      modifies this
      ensures Valid()
      ensures currentPage == 1 && days == newDays && typeFilter == newType
      ensures request == Request() && request.page == 1
      ensures totalPages == old(totalPages) && shownPage == old(shownPage)
    {
      currentPage := 1;
      days := newDays;
      typeFilter := newType;
      request := HistoryRequest(days, typeFilter, currentPage);
    }

    /**
     * A reply arriving: on success the page count becomes the reply's `pages` and the label
     * shows the page the cursor is on when the reply arrives; on failure nothing changes.
     */
    method OnHistoryResponse(success: bool, pages: int)
      modifies this
      ensures success ==> totalPages == pages && shownPage == Some(currentPage)
      ensures !success ==> totalPages == old(totalPages) && shownPage == old(shownPage)
      ensures currentPage == old(currentPage) && days == old(days) && typeFilter == old(typeFilter)
      ensures old(Valid()) ==> Valid()
    {
      if success {
        totalPages := pages;
        shownPage := Some(currentPage);
      }
    }
  }

  /**
   * Opening the history page: a fresh cursor on page 1 of 1, and the first request, which
   * fetches page 1 with the filters' initial values.
   */
  method OpenHistoryPage(days: string, typeFilter: string) returns (c: Cursor, request: HistoryRequest)
    ensures fresh(c) && c.Valid()
    ensures c.currentPage == 1 && c.totalPages == 1 && c.shownPage == None
    ensures c.days == days && c.typeFilter == typeFilter
    ensures request == HistoryRequest(days, typeFilter, 1)
  {
    c := new Cursor(days, typeFilter);
    request := HistoryRequest(c.days, c.typeFilter, c.currentPage);
  }
}
