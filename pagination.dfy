// The page navigation component (src/components/Pagination/Pagination.tsx):
// the list of page numbers it builds with a loop, and the rules that decide
// which controls are disabled and which page each one requests. The current
// page is an explicit parameter.

module Pagination {

  /** `Math.ceil(total / perPage)` for a whole number of items and a positive
      page size: the fewest pages of `perPage` items that hold `total` items. */
  function PageCount(total: nat, perPage: nat): (n: nat)
    requires perPage > 0
    ensures n * perPage >= total
    ensures n > 0 ==> (n - 1) * perPage < total
  {
    var q, r := total / perPage, total % perPage;
    assert total == q * perPage + r;
    if r == 0 then
      assert q > 0 ==> (q - 1) * perPage == total - perPage;
      q
    else
      assert (q + 1) * perPage == q * perPage + perPage;
      q + 1
  }

  /** The page numbers 1, 2, ..., count: each listed once, in increasing order. */
  function PageRange(count: nat): (r: seq<int>)
    ensures |r| == count
    ensures forall i :: 0 <= i < count ==> r[i] == i + 1
    ensures forall n :: n in r <==> 1 <= n <= count
    ensures forall i, j :: 0 <= i < j < |r| ==> r[i] < r[j]
  {
    if count == 0 then [] else PageRange(count - 1) + [count]
  }

  /** The loop that pushes 1, 2, ... up to the page count into `pageNumbers`. */
  method PageNumbers(totalCountries: nat, countriesPerPage: nat) returns (pageNumbers: seq<int>)
    requires countriesPerPage > 0
    ensures pageNumbers == PageRange(PageCount(totalCountries, countriesPerPage))
  {
    pageNumbers := [];
    var i := 1;
    while i <= PageCount(totalCountries, countriesPerPage)
      invariant 1 <= i <= PageCount(totalCountries, countriesPerPage) + 1
      invariant |pageNumbers| == i - 1
      invariant forall j :: 0 <= j < |pageNumbers| ==> pageNumbers[j] == j + 1
    {
      pageNumbers := pageNumbers + [i];
      i := i + 1;
    }
  }

  /** Every listed page starts before the end of the list, so under the
      application's slicing rule it shows at least one item. */
  lemma ListedPageStartsInside(total: nat, perPage: nat, n: int)
    requires perPage > 0
    requires n in PageRange(PageCount(total, perPage))
    ensures 0 <= (n - 1) * perPage < total
  {
    var count := PageCount(total, perPage);
    MulMonotone(n - 1, count - 1, perPage);
  }

  lemma {:induction false} MulMonotone(a: nat, b: nat, c: nat)
    requires a <= b
    ensures 0 <= a * c <= b * c
  {
    if a < b {
      MulMonotone(a, b - 1, c);
      assert b * c == (b - 1) * c + c;
    }
  }

  /** A back or forward control: greyed out, or requesting a page. */
  datatype Control = Disabled | Requests(page: int)

  /** One entry of the page-number list. */
  datatype PageLink = PageLink(number: int, active: bool, request: int)

  /** What the component shows: back control, page links, forward control. */
  datatype Nav = Nav(back: Control, links: seq<PageLink>, forward: Control)

  /** The back control is greyed out on page 1 and otherwise asks for the previous page. */
  function BackControl(currentPage: int): (c: Control)
    ensures c == Disabled <==> currentPage == 1
    ensures c != Disabled ==> c == Requests(currentPage - 1)
  {
    if currentPage == 1 then Disabled else Requests(currentPage - 1)
  }

  /** The forward control is greyed out when the current page equals the number
      of pages and otherwise asks for the next page. */
  function ForwardControl(currentPage: int, pageCount: nat): (c: Control)
    ensures c == Disabled <==> currentPage == pageCount
    ensures c != Disabled ==> c == Requests(currentPage + 1)
  {
    if currentPage == pageCount then Disabled else Requests(currentPage + 1)
  }

  /** The entry for page `number` is highlighted when it is the current page and
      asks for that very page. */
  function Link(currentPage: int, number: int): (l: PageLink)
    ensures l.number == number && l.request == number
    ensures l.active <==> currentPage == number
  {
    PageLink(number, currentPage == number, number)
  }

  /** The whole component for a given current page. */
  method Render(currentPage: int, countriesPerPage: nat, totalCountries: nat) returns (nav: Nav)
    requires countriesPerPage > 0
    ensures nav.back == BackControl(currentPage)
    ensures nav.forward == ForwardControl(currentPage, PageCount(totalCountries, countriesPerPage))
    ensures |nav.links| == PageCount(totalCountries, countriesPerPage)
    ensures forall i :: 0 <= i < |nav.links| ==> nav.links[i] == Link(currentPage, i + 1)
  {
    var pageNumbers := PageNumbers(totalCountries, countriesPerPage);
    var links := seq(|pageNumbers|, i requires 0 <= i < |pageNumbers| => Link(currentPage, pageNumbers[i]));
    nav := Nav(BackControl(currentPage), links, ForwardControl(currentPage, |pageNumbers|));
  }

  /** From any listed page, every enabled control and every link asks for a listed page. */
  lemma NavigationStaysOnListedPages(currentPage: int, pageCount: nat)
    requires currentPage in PageRange(pageCount)
    ensures BackControl(currentPage).Requests? ==> BackControl(currentPage).page in PageRange(pageCount)
    ensures ForwardControl(currentPage, pageCount).Requests? ==>
              ForwardControl(currentPage, pageCount).page in PageRange(pageCount)
    ensures forall n :: n in PageRange(pageCount) ==> Link(currentPage, n).request in PageRange(pageCount)
  {
  }

  /** At most one link is highlighted, and one is exactly when the current page is listed. */
  lemma OneActiveLink(currentPage: int, links: seq<PageLink>)
    requires forall i :: 0 <= i < |links| ==> links[i] == Link(currentPage, i + 1)
    ensures forall i, j :: 0 <= i < |links| && 0 <= j < |links| && links[i].active && links[j].active ==> i == j
    ensures (exists i :: 0 <= i < |links| && links[i].active) <==> currentPage in PageRange(|links|)
  {
    if currentPage in PageRange(|links|) {
      assert links[currentPage - 1].active;
    }
  }

  /** With nothing to show there are no pages, yet on page 1 the forward control
      stays enabled and asks for page 2, which is not listed. */
  lemma ForwardEnabledWithoutPages(perPage: nat)
    requires perPage > 0
    ensures PageRange(PageCount(0, perPage)) == []
    ensures BackControl(1) == Disabled
    ensures ForwardControl(1, PageCount(0, perPage)) == Requests(2)
  {
  }
}
