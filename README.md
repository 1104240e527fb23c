# Country table: list pipeline and page navigation

A Dafny model of the client-side logic of a small single-page application. The application loads a list of countries (name, region, area) and shows it in a table, ten rows per page. Buttons sort the list by name, narrow it with two fixed filters, and reset it. A navigation component lists the page numbers and offers back and forward controls.

The model follows the code as written:

- Each handler works on the list as it currently is. So filters accumulate, and a sort keeps whatever filtering came before.
- An unknown filter key or sort arrangement empties the list.
- Reset restores the list exactly as it was loaded, in arrival order, and keeps no sort direction.
- There is no sort after loading, and there is no state for the sort direction or the active filters.
- The page number is never clamped. The page count is `ceil(total / 10)`, which is 0 for an empty list.
- The area threshold of the "SmallerThanLithuania" filter is 65300.

`AppComponent.OceaniaSession` is a worked scenario that exercises the class through its contracts. It loads three countries, applies the Oceania filter, applies an unknown key and resets. Its step `AppComponent.OceaniaKeepsArrivalOrder` is a three-country case of `Filtering.InOceaniaKeepsExactly`.

Modules, one per component of `src/App.tsx` and `src/components/Pagination/Pagination.tsx`:

- `Countries` (`countries.dfy`): the `Country` record, the raw record as delivered, and the normalising `map` (`area || 0`).
- `Lists` (`lists.dfy`): `Array.prototype.filter` as a function. It keeps exactly the matching elements, each as often as it occurs, in order.
- `Filtering` (`filtering.dfy`): the two filter predicates (`area < 65300`, `region == "Oceania"`) and what they do to the current list.
- `Sorting` (`sorting.dfy`): the comparison by name and the stable sort `sortByName` gets from `[...countries].sort(cmp)`. It is proved to be a permutation, ordered, stable, idempotent and the only possible stable result.
- `Paging` (`paging.dfy`): `indexOfFirstCountry`/`indexOfLastCountry` and `countries.slice(...)`, following `slice`'s index rules. Negative indices count from the end.
- `Pagination` (`pagination.dfy`): the `pageNumbers` loop (a method with a loop invariant), the back/forward/link rules, and the rendered navigation.
- `AppComponent` (`app.dfy`): the component's state as a class with fields `countries`, `originalList` and `currentPage`. The handlers are methods that assign those fields. The invariant `Valid()` says `countries` never holds a country more often than `originalList` does.

## Model

| member | source | states |
|---|---|---|
| `Countries.Normalize` | src/App.tsx:24-28 | name and region pass through unchanged; the area is 0 exactly when the source area is absent or 0, and otherwise equals the source area |
| `Countries.NormalizeAll` | src/App.tsx:24-28 | the mapping is one-to-one: as many records out as in, the i-th output is the normalised i-th input |
| `Lists.Filter` | src/App.tsx:65-67 | `filter` never yields more elements than it is given |
| `Lists.FilterMembers` | src/App.tsx:65-67 | an element is in the filtered list exactly when it is in the input and satisfies the predicate |
| `Lists.FilterCount` | src/App.tsx:65-67 | every matching element is kept as many times as it occurs, every other element is dropped |
| `Lists.FilterSubMultiset` | src/App.tsx:65-67 | the filtered list holds no element more often than the input |
| `Lists.FilterIsSubsequence` | src/App.tsx:65-67 | the filtered list is a subsequence of the input: relative order is kept |
| `Lists.FilterIdempotent` | src/App.tsx:65-67 | filtering twice with the same predicate equals filtering once |
| `Lists.FilterCommutes` | src/App.tsx:62-71 | two filters applied in sequence give the same list in either order, namely the elements passing both |
| `Filtering.SmallerThanLithuaniaKeepsExactly` | src/App.tsx:64-65 | the "SmallerThanLithuania" filter keeps exactly the countries with area below 65300, with their multiplicity, in order, and is idempotent |
| `Filtering.InOceaniaKeepsExactly` | src/App.tsx:66-67 | the "InOceania" filter keeps exactly the countries whose region is "Oceania", with their multiplicity, in order, and is idempotent |
| `Filtering.FiltersAccumulate` | src/App.tsx:62-71 | pressing both filter buttons leaves the countries passing both tests, whichever button came first |
| `Sorting.NameLeTotal` | src/App.tsx:51 | the name comparison relates every pair of names one way or the other |
| `Sorting.NameLeTransitive` | src/App.tsx:51 | the name comparison is transitive |
| `Sorting.NameLeAntisymmetric` | src/App.tsx:51 | two names that compare equal both ways are the same name |
| `Sorting.BeforeTotal` | src/App.tsx:50-56 | both the ascending and the descending comparator order every pair of countries one way or the other |
| `Sorting.BeforeTransitive` | src/App.tsx:50-56 | both comparators are transitive |
| `Sorting.Insert` | src/App.tsx:49-56 | inserting a country adds exactly that country to the multiset of the list |
| `Sorting.StableSort` | src/App.tsx:49-56 | sorting is a permutation of the input |
| `Sorting.InsertSorted` | src/App.tsx:49-56 | inserting into a sorted list keeps it sorted |
| `Sorting.StableSortSorted` | src/App.tsx:49-56 | the sorted list is non-decreasing by name ("asc") or non-increasing ("desc"), for every pair of positions |
| `Sorting.InsertKeepsTies` | src/App.tsx:49-56 | insertion puts the new country behind every earlier country of the same name |
| `Sorting.StableSortKeepsTies` | src/App.tsx:49-56 | the sort is stable: countries with equal names leave in their input order |
| `Sorting.StableSortCorrect` | src/App.tsx:49-56 | the sort is a permutation, ordered in the chosen direction, and stable |
| `Sorting.SortedTiesDetermine` | src/App.tsx:49-56 | two sorted lists that agree on the order of every group of equal names are equal |
| `Sorting.StableSortUnique` | src/App.tsx:49-56 | any ordered list that keeps the input's ties in order is the modelled sort's result, so any stable sort algorithm gives the same list |
| `Sorting.StableSortIdempotent` | src/App.tsx:49-56 | sorting twice in the same direction equals sorting once |
| `Paging.CurrentCountries` | src/App.tsx:36-42 | the visible slice has at most 10 rows; for page p >= 1 it is `countries[min((p-1)*10, n) .. min(p*10, n)]` |
| `Paging.PagesTile` | src/App.tsx:36-42 | the slices of pages 1..k, concatenated, are the first min(10k, n) countries: consecutive pages partition the list |
| `Paging.ListedPagesShowAll` | src/App.tsx:36-42 | the pages the navigation lists together show every country exactly once, in order |
| `Paging.ListedPageNotEmpty` | src/App.tsx:36-42 | every page the navigation lists shows at least one country |
| `Paging.UnlistedPageEmpty` | src/App.tsx:36-44 | pages are not clamped: page 0 and any page past the last show an empty table |
| `Pagination.PageCount` | src/components/Pagination/Pagination.tsx:17 | `Math.ceil(total / perPage)` is the least n with n * perPage >= total |
| `Pagination.PageRange` | src/components/Pagination/Pagination.tsx:14-19 | the page list has length count, element i is i+1, it holds exactly 1..count and is strictly increasing |
| `Pagination.PageNumbers` | src/components/Pagination/Pagination.tsx:14-19 | the loop builds exactly `1, 2, ..., ceil(total/perPage)`, which is empty when total is 0 |
| `Pagination.ListedPageStartsInside` | src/components/Pagination/Pagination.tsx:17 | every listed page n has `0 <= (n-1)*perPage < total` |
| `Pagination.BackControl` | src/components/Pagination/Pagination.tsx:25-33 | back is disabled iff the current page is 1, and otherwise requests the current page minus 1 |
| `Pagination.ForwardControl` | src/components/Pagination/Pagination.tsx:50-58 | forward is disabled iff the current page equals the number of pages, and otherwise requests the current page plus 1 |
| `Pagination.Link` | src/components/Pagination/Pagination.tsx:37-46 | the entry for page n shows n, requests exactly n, and is active iff n is the current page |
| `Pagination.Render` | src/components/Pagination/Pagination.tsx:13-63 | the component shows the back control, one link per page 1..count in order, and the forward control for that count |
| `Pagination.NavigationStaysOnListedPages` | src/components/Pagination/Pagination.tsx:25-58 | from a listed page, back, forward and every link request only listed pages |
| `Pagination.OneActiveLink` | src/components/Pagination/Pagination.tsx:37-46 | at most one link is active, and one is exactly when the current page is listed |
| `Pagination.ForwardEnabledWithoutPages` | src/components/Pagination/Pagination.tsx:17-58 | with no items there are no pages, yet on page 1 back is disabled and forward stays enabled, requesting page 2 |
| `AppComponent.App.constructor` | src/App.tsx:11-15 | the initial state is an empty list, an empty snapshot and page 1 |
| `AppComponent.App.FetchCountries` | src/App.tsx:24-30 | after loading, `countries` and `originalList` both equal the normalised data; the page is untouched |
| `AppComponent.App.Paginate` | src/App.tsx:44 | sets only `currentPage`, to the requested number, unclamped |
| `AppComponent.App.SortByName` | src/App.tsx:46-60 | "asc"/"desc" replace `countries` by its stable sort, a permutation ordered up or down by name; any other arrangement empties it; page 1; snapshot unchanged; invariant kept |
| `AppComponent.App.FilterBy` | src/App.tsx:62-71 | the two known keys narrow the current list with their predicate, keeping order; any other key empties it; page 1; snapshot unchanged; invariant kept |
| `AppComponent.App.ResetFilters` | src/App.tsx:73-77 | `countries` becomes the unchanged `originalList` and the page is 1 |
| `AppComponent.OceaniaKeepsArrivalOrder` | src/App.tsx:66-67 | the Oceania filter keeps two countries of Oceania in their arrival order and drops the third, which is not in Oceania |

## Left out

- The network request, `async`/`await`, the `loading` flag and the "Loading..." text are not modelled. The decoded payload is a parameter of `FetchCountries`.
- React rendering is not modelled: JSX, CSS module classes, `key` props, `e.preventDefault()` and `console.log(originalList)`. `Pagination.Render` returns the controls as data instead.
- React's batched, asynchronous state updates are not modelled. Each setter is an immediate field assignment.
- `localeCompare` uses the host's collation tables. The model compares names lexicographically by character code instead (`Sorting.NameLe`), and this order is proved total, transitive and antisymmetric.
- The algorithm behind `Array.prototype.sort` is not modelled. Its stable result is given by `Sorting.StableSort` (insertion sort), and `Sorting.StableSortUnique` shows that every stable sort yields that same list.
- JavaScript numbers are not modelled. `area` is a non-negative integer and absence is `None`, so NaN, negative and fractional areas are not covered. `name` and `region` are strings, so an absent name or region is not covered. Page numbers are integers.
- `Pagination.PageCount` requires a positive page size. The application always passes 10; a size of 0 would make the loop run forever for a non-empty list.
- In the application, `App` never passes `currentPage` to `Pagination` (src/App.tsx:110-114), so the component sees an undefined page. The model takes the current page as an explicit parameter and does not cover the undefined case. As written, an undefined page equals neither 1 nor the page count (src/components/Pagination/Pagination.tsx:25,50). So back and forward are always enabled and both call `paginate(NaN)`, which makes `slice(NaN, NaN)` show an empty table (src/App.tsx:36-42). No page link is ever highlighted (src/components/Pagination/Pagination.tsx:40).
