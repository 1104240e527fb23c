// The slice of `countries` that the table shows (src/App.tsx): page size 10,
// 1-based pages, `countries.slice(indexOfFirstCountry, indexOfLastCountry)`
// with the slice's own index rules and no clamping of the page number.

module Paging {
  import opened Countries
  import opened Pagination

  /** `countriesPerPage`. */
  const CountriesPerPage: nat := 10

  function Min(a: int, b: int): int { if a <= b then a else b }

  /** How `slice` reads an index: a negative one counts back from the end;
      either way the result is clamped to `[0, len]`. */
  function SliceIndex(len: nat, k: int): (r: nat)
    ensures r <= len
  {
    if k < 0 then (if len + k < 0 then 0 else len + k)
    else if k > len then len
    else k
  }

  /** `s.slice(start, end)`. */
  function Slice(s: seq<Country>, start: int, end: int): seq<Country>
  {
    var from, to := SliceIndex(|s|, start), SliceIndex(|s|, end);
    if from < to then s[from..to] else []
  }

  /** `indexOfLastCountry = currentPage * countriesPerPage`. */
  function IndexOfLastCountry(currentPage: int): int
  {
    currentPage * CountriesPerPage
  }

  /** `indexOfFirstCountry = indexOfLastCountry - countriesPerPage`. */
  function IndexOfFirstCountry(currentPage: int): int
  {
    IndexOfLastCountry(currentPage) - CountriesPerPage
  }

  /** `currentCountries`: the rows shown for `currentPage`. Whatever the page,
      at most ten rows, taken in order from one stretch of `countries`; for
      pages from 1 on, the stretch starting at item (page - 1) * 10. */
  function CurrentCountries(countries: seq<Country>, currentPage: int): (r: seq<Country>)
    ensures |r| <= CountriesPerPage
    ensures currentPage >= 1 ==>
              r == countries[Min((currentPage - 1) * CountriesPerPage, |countries|)..
                             Min(currentPage * CountriesPerPage, |countries|)]
  {
    Slice(countries, IndexOfFirstCountry(currentPage), IndexOfLastCountry(currentPage))
  }

  /** The rows of pages 1 to k, one page after the other. */
  function PagesUpTo(countries: seq<Country>, k: nat): seq<Country>
  {
    if k == 0 then [] else PagesUpTo(countries, k - 1) + CurrentCountries(countries, k)
  }

  /** Consecutive pages tile the list: pages 1 to k are its first k * 10 items. */
  lemma {:induction false} PagesTile(countries: seq<Country>, k: nat)
    ensures PagesUpTo(countries, k) == countries[..Min(k * CountriesPerPage, |countries|)]
  {
    if k > 0 {
      var a := Min((k - 1) * CountriesPerPage, |countries|);
      var b := Min(k * CountriesPerPage, |countries|);
      calc {
        PagesUpTo(countries, k);
        PagesUpTo(countries, k - 1) + CurrentCountries(countries, k);
        { PagesTile(countries, k - 1); }
        countries[..a] + countries[a..b];
        countries[..b];
      }
    }
  }

  /** The listed pages together show every country exactly once, in order. */
  lemma ListedPagesShowAll(countries: seq<Country>)
    ensures PagesUpTo(countries, PageCount(|countries|, CountriesPerPage)) == countries
  {
    PagesTile(countries, PageCount(|countries|, CountriesPerPage));
  }

  /** Every page the navigation lists shows at least one country. */
  lemma ListedPageNotEmpty(countries: seq<Country>, n: int)
    requires n in PageRange(PageCount(|countries|, CountriesPerPage))
    ensures CurrentCountries(countries, n) != []
  {
    ListedPageStartsInside(|countries|, CountriesPerPage, n);
  }

  /** The page number is not clamped: past the last page, and on page 0, the table is empty. */
  lemma UnlistedPageEmpty(countries: seq<Country>, n: int)
    requires n == 0 || n > PageCount(|countries|, CountriesPerPage)
    ensures CurrentCountries(countries, n) == []
  {
    var count := PageCount(|countries|, CountriesPerPage);
    if n > count {
      assert (n - 1) * CountriesPerPage >= count * CountriesPerPage;
    }
  }
}
