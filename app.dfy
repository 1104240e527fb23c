// The state of the `App` component (src/App.tsx) and its handlers. Each React
// state setter is an immediate field assignment; the network request is left
// out and its decoded payload is a parameter of `FetchCountries`.

module AppComponent {
  import opened Countries
  import opened Lists
  import opened Filtering
  import opened Sorting

  class App {
    /** The list the table and the navigation are built from. */
    var countries: seq<Country>
    /** The snapshot taken when the data arrived, restored by Reset. */
    var originalList: seq<Country>
    /** The page whose rows the table shows (1-based). */
    var currentPage: int

    /** Every handler only narrows or reorders: `countries` is always drawn from
        `originalList`, with no country occurring more often than there. */
    ghost predicate Valid()
      reads this
    {
      multiset(countries) <= multiset(originalList)
    }

    /** The initial `useState` values. */
    constructor ()
      ensures Valid()
      ensures countries == [] && originalList == [] && currentPage == 1
    {
      countries := [];
      originalList := [];
      currentPage := 1;
    }

    /** The part of `fetchCountries` after the response is decoded: normalise the
        records, then store them as both the working list and the snapshot. */
    method FetchCountries(data: seq<RawCountry>)
      modifies this`countries, this`originalList
      ensures Valid()
      ensures countries == NormalizeAll(data) && originalList == countries
      ensures currentPage == old(currentPage)
    {
      var formattedData := NormalizeAll(data);
      countries := formattedData;
      originalList := formattedData;
    }

    /** `paginate`: go to the requested page, whatever it is. */
    method Paginate(pageNumber: int)
      requires Valid()
      modifies this`currentPage
      ensures Valid()
      ensures currentPage == pageNumber
      ensures countries == old(countries) && originalList == old(originalList)
    {
      currentPage := pageNumber;
    }

    /** `sortByName`: a stable sort of the current list by name, "asc" or "desc";
        any other arrangement empties the list. Back to page 1 either way. */
    method SortByName(arrangement: string)
      requires Valid()
      modifies this`countries, this`currentPage
      ensures Valid()
      ensures arrangement == "asc" ==> countries == StableSort(Ascending, old(countries))
      ensures arrangement == "desc" ==> countries == StableSort(Descending, old(countries))
      ensures arrangement != "asc" && arrangement != "desc" ==> countries == []
      ensures arrangement == "asc" ==> SortedBy(Ascending, countries)
      ensures arrangement == "desc" ==> SortedBy(Descending, countries)
      ensures multiset(countries) == multiset(old(countries)) || countries == []
      ensures currentPage == 1 && originalList == old(originalList)
    {
      var sortedCountries: seq<Country> := [];
      if arrangement == "asc" {
        sortedCountries := StableSort(Ascending, countries);
        StableSortCorrect(Ascending, countries);
      } else if arrangement == "desc" {
        sortedCountries := StableSort(Descending, countries);
        StableSortCorrect(Descending, countries);
      }
      countries := sortedCountries;
      currentPage := 1;
    }

    /** `filterBy`: narrow the CURRENT list (so filters accumulate) to the small
        countries or to those in Oceania; any other key empties the list. */
    method FilterBy(filterby: string)
      requires Valid()
      modifies this`countries, this`currentPage
      ensures Valid()
      ensures filterby == "SmallerThanLithuania" ==> countries == Filter(old(countries), SmallerThanLithuania)
      ensures filterby == "InOceania" ==> countries == Filter(old(countries), InOceania)
      ensures filterby != "SmallerThanLithuania" && filterby != "InOceania" ==> countries == []
      ensures IsSubsequence(countries, old(countries))
      ensures currentPage == 1 && originalList == old(originalList)
    {
      var filteredCountries: seq<Country> := [];
      if filterby == "SmallerThanLithuania" {
        filteredCountries := Filter(countries, SmallerThanLithuania);
        FilterSubMultiset(countries, SmallerThanLithuania);
        FilterIsSubsequence(countries, SmallerThanLithuania);
      } else if filterby == "InOceania" {
        filteredCountries := Filter(countries, InOceania);
        FilterSubMultiset(countries, InOceania);
        FilterIsSubsequence(countries, InOceania);
      }
      countries := filteredCountries;
      currentPage := 1;
    }

    /** `resetFilters`: bring back the snapshot and go to page 1. The sort order
        of the snapshot is the order the data arrived in. */
    method ResetFilters()
      requires Valid()
      modifies this`countries, this`currentPage
      ensures Valid()
      ensures countries == originalList && originalList == old(originalList)
      ensures currentPage == 1
    {
      countries := originalList;
      currentPage := 1;
    }
  }

  /** The Oceania filter does not reorder: of three countries, the two in
      Oceania stay in the order they came in. */
  lemma OceaniaKeepsArrivalOrder(a: Country, b: Country, c: Country)
    requires a.region == "Oceania" && b.region == "Oceania" && c.region != "Oceania"
    ensures Filter([a, b, c], InOceania) == [a, b]
  {
    assert [a, b, c][1..] == [b, c];
    assert [b, c][1..] == [c];
    assert Filter([c], InOceania) == [];
    assert Filter([b, c], InOceania) == [b];
  }

  /** A session as a user would drive it: three countries arrive, the Oceania
      filter keeps the two in Oceania in arrival order (not sorted), an unknown
      key empties the list, and Reset brings all three back on page 1. */
  method OceaniaSession()
  {
    var palau := Country("Palau", "Oceania", 459);
    var fiji := Country("Fiji", "Oceania", 18272);
    var germany := Country("Germany", "Europe", 357022);
    var app := new App();
    app.FetchCountries([RawCountry("Palau", "Oceania", Some(459)),
                        RawCountry("Fiji", "Oceania", Some(18272)),
                        RawCountry("Germany", "Europe", Some(357022))]);
    assert app.countries == [palau, fiji, germany];
    app.Paginate(3);
    app.FilterBy("InOceania");
    OceaniaKeepsArrivalOrder(palau, fiji, germany);
    assert app.countries == [palau, fiji];
    assert app.currentPage == 1;
    app.FilterBy("Europe");
    assert app.countries == [];
    app.ResetFilters();
    assert app.countries == [palau, fiji, germany] && app.currentPage == 1;
  }
}
