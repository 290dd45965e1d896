# Brewery dashboard: filter and summary pipeline

The dashboard is a single React component, `App`. It loads a list of
breweries, lets the user narrow it with a name search and a type selector,
and shows three figures about the narrowed list:

- the number of breweries;
- the average name length;
- the most common city.

This project models that pipeline in Dafny and proves what it computes.

- `Text` (`text.dfy`) holds the two string operations the search uses.
  `Lower` is `toLowerCase` restricted to ASCII letters. `Includes` is
  `String.prototype.includes`, proved equal to "there is an offset where the
  query occurs".
- `FilterEngine` (`filter.dfy`) holds the `Brewery` record and the filter
  effect. `Filter` runs the effect's two passes as written:
  - first `ByName`, only when the query is non-empty;
  - then `ByType`, only when the type is not `"All"`.

  `Select` is an independent one-pass definition that keeps the entries
  passing both tests. The proofs show that `Filter` equals `Select`. They
  then show that the result:
  - is a subsequence of the input;
  - holds exactly the matching entries, with their multiplicities;
  - is the identity under the default criteria;
  - is idempotent;
  - only shrinks when a criterion is tightened.
- `Aggregator` (`aggregate.dfy`) holds the summary.
  - `AverageNameLength` is the name-length sum over `length || 1`, as an
    exact rational.
  - `CountCities` is the reduce that mutates its accumulator, written as a
    loop over a `map`. It also returns the insertion order of the keys. It
    is proved equal to the specification functions `CityCounts` and
    `Cities` (the cities in order of first appearance).
  - `SortByCountDesc` is an insertion sort by descending count. It is proved
    to be a permutation, sorted, and stable.
  - `PickCity` is `Object.entries(...).sort(...)[0]?.[0] || "N/A"`.
  - `MostCommonCity` is proved to return the city of the first entry whose
    city has the greatest count, or `"N/A"` when the list is empty or that
    city is the empty string.
- `Session` (`session.dfy`) holds the class `Dashboard`, with the
  component's four pieces of state. Each setter recomputes
  `filteredBreweries` before it returns. The invariant `Valid()` says that
  `filteredBreweries` equals `Filter(breweries, searchQuery, filterType)`.
- `Scenarios` (`scenarios.dfy`) holds two worked examples, proved on fixed
  inputs: a case-insensitive search, and a two-way tie for the most common
  city.

The tie-break for the most common city is the one the code produces. Keys
come out of `Object.entries` in insertion order, which is the order of each
city's first appearance. The sort is stable. So among the cities with the
highest count, the one that appears first wins.

## Model

The functions that transcribe the code have no rows of their own, because they carry no contract. These are `FilterEngine.Filter`, `FilterEngine.ByName`, `FilterEngine.ByType`, `Text.Includes`, `Aggregator.NameLengthSum` and `Aggregator.SortByCountDesc`. What they mean is stated by the rows of `FilterIsOnePass`, `IncludesIff`, `AverageNameLength`, `SortByCountDescCorrect` and `SortByCountDescStable`.

| member | source | states |
|---|---|---|
| `Text.Lower` | brewery/src/App.jsx:30 | lowercasing keeps the length, leaves no ASCII capital, keeps every other character and moves each capital to its lower-case letter |
| `Text.IncludesIff` | brewery/src/App.jsx:30 | `includes` is true exactly when the query occurs in the name at some offset, both directions |
| `FilterEngine.FilterIsOnePass` | brewery/src/App.jsx:26-37 | the effect's two passes (by name when the query is non-empty, then by type unless "All") equal one pass keeping entries that pass both tests |
| `FilterEngine.FilterIsSubsequence` | brewery/src/App.jsx:27-36 | the filtered list is a subsequence of the loaded list (order kept), so it is never longer |
| `FilterEngine.FilterMembership` | brewery/src/App.jsx:28-35 | an entry is in the filtered list iff it is loaded and passes the search test (empty query, or lower-cased name contains lower-cased query) and the type test ("All", or equal type); its multiplicity is kept |
| `FilterEngine.FilterIdentity` | brewery/src/App.jsx:27-36 | with an empty query and type "All" the filtered list is the loaded list |
| `FilterEngine.FilterIdempotent` | brewery/src/App.jsx:28-35 | filtering the filtered list again with the same criteria returns it unchanged |
| `FilterEngine.FilterNarrowsByType` | brewery/src/App.jsx:33-35 | choosing a type instead of "All" yields a subsequence of the "All" result, hence no more entries |
| `FilterEngine.FilterNarrowsByQuery` | brewery/src/App.jsx:28-32 | a non-empty query yields a subsequence of the empty-query result, hence no more entries |
| `FilterEngine.SearchIgnoresQueryCase` | brewery/src/App.jsx:30 | lower-casing the query first does not change the filtered list |
| `Aggregator.AverageNameLength` | brewery/src/App.jsx:41-43 | the average is non-negative, 0 on an empty list (no division by zero), and otherwise times the length gives the name-length sum |
| `Aggregator.AverageNameLengthBounds` | brewery/src/App.jsx:41-43 | on a non-empty list the average lies between any lower and upper bound of the name lengths |
| `Aggregator.CityCounts` | brewery/src/App.jsx:45-48 | the keys of `cityCounts` are exactly the cities occurring in the filtered list, each mapped to its positive number of entries |
| `Aggregator.CountCities` | brewery/src/App.jsx:45-48 | the reduce's loop builds exactly `CityCounts` and inserts keys in first-appearance order `Cities` |
| `Aggregator.CitiesMembership` | brewery/src/App.jsx:45-48 | a city is among the inserted keys iff some filtered entry is in it |
| `Aggregator.CityCountsSumToTotal` | brewery/src/App.jsx:40-48 | the counts in `cityCounts` add up to `totalBreweries` |
| `Aggregator.SortByCountDescCorrect` | brewery/src/App.jsx:50 | the comparator sort returns the same entries, ordered by descending count |
| `Aggregator.LeaderIndex` | brewery/src/App.jsx:50 | the chosen position has the largest count and every earlier entry has a strictly smaller one |
| `Aggregator.SortByCountDescStable` | brewery/src/App.jsx:50 | the sort is stable: the entries with any given count come out in the order they went in |
| `Aggregator.SortHeadIsLeader` | brewery/src/App.jsx:50 | the head of the stable sort is the first entry with the largest count |
| `Aggregator.PickCity` | brewery/src/App.jsx:49-50 | the picked city is never the empty string, and is "N/A" when there are no entries |
| `Aggregator.MostCommonCity` | brewery/src/App.jsx:49-50 | `mostCommonCity` is never empty and is "N/A" on an empty filtered list |
| `Aggregator.MostCommonCityIsFirstMode` | brewery/src/App.jsx:45-50 | on a non-empty list `mostCommonCity` is the city of the first entry whose city has the maximal count ("N/A" if that city is ""), and such an entry exists |
| `Aggregator.FirstModeUnique` | brewery/src/App.jsx:49-50 | only one entry can be the first entry of a most frequent city, so the tie-break is deterministic |
| `Session.Dashboard.constructor` | brewery/src/App.jsx:5-8 | initial state: no breweries, empty query, type "All", empty filtered list, invariant holds |
| `Session.Dashboard.ApplyFilters` | brewery/src/App.jsx:26-37 | recomputes `filteredBreweries` from the other three fields, restoring the invariant |
| `Session.Dashboard.SetBreweries` | brewery/src/App.jsx:17-18 | stores the loaded list, keeps the criteria, restores the invariant |
| `Session.Dashboard.SetSearchQuery` | brewery/src/App.jsx:61 | stores the query, keeps the list and the type, restores the invariant |
| `Session.Dashboard.SetFilterType` | brewery/src/App.jsx:66 | stores the type, keeps the list and the query, restores the invariant |
| `Session.Dashboard.Summarize` | brewery/src/App.jsx:40-50 | the three figures equal the length, average name length and most common city of `Filter(breweries, searchQuery, filterType)` |
| `Scenarios.SearchIgnoresCase` | brewery/src/App.jsx:28-35 | searching "oak" keeps "Oak St" and "Oak Barrel", in order, and drops "Hill Brew" and "Peak Ales" |
| `Scenarios.TieGoesToFirstSeen` | brewery/src/App.jsx:45-50 | with two Denver and two Austin breweries, Denver first, the most common city is Denver |

## Left out

- The `fetch` call, `res.json()` and the `try/catch` that logs a failure (brewery/src/App.jsx:10-24). These are network I/O. The decoded list enters through `SetBreweries`. Only a rejected `fetch` or a body that is not JSON skips `setBreweries` and leaves `breweries` empty. The code never checks `res.ok` (brewery/src/App.jsx:13-18), so an HTTP error response with a JSON body, or a JSON value that is not an array, is still stored. With a search or a type selected, the filter effect then throws at `.filter` (brewery/src/App.jsx:29, 34). Under the default criteria the effect stores the value as `filteredBreweries`, and the following render throws at `filteredBreweries.length` for `null` (brewery/src/App.jsx:40), or at `.reduce` for any other non-array value (brewery/src/App.jsx:42). `SetBreweries` takes a `seq<Brewery>`, so such a payload is outside the model.
- React's effect timing. `useEffect` runs after a render, so one frame may show a stale `filteredBreweries`. The setters recompute it synchronously.
- The JSX markup, the `<select>` options, the display cap `slice(0, 10)` and `toFixed(2)` (brewery/src/App.jsx:52-103). These are presentation only.
- Floating point. The average is an exact Dafny `real`, not an IEEE double.
- Full Unicode case mapping. `Lower` maps only ASCII `A`-`Z` to `a`-`z`.
- JavaScript string length. `|name|` counts Dafny characters (Unicode scalar values), while JavaScript counts UTF-16 code units. The two differ for characters outside the Basic Multilingual Plane.
- JavaScript object key quirks (brewery/src/App.jsx:46, 50). Keys that look like integers are enumerated before other keys. `__proto__` is special on assignment. The names `Object.prototype` provides, such as `constructor`, `toString`, `valueOf` and `hasOwnProperty`, are inherited: for such a city `acc[b.city] || 0` reads a function, the count becomes a string, and the comparator returns NaN. The model assumes no city name is integer-like, `__proto__` or an inherited `Object.prototype` name.
- Malformed records. A `name` that is not a string makes an active search throw at `.toLowerCase()` (brewery/src/App.jsx:30). In the average (brewery/src/App.jsx:42), a `null` or missing `name` makes `b.name.length` throw on every render that includes the record, with or without a search. A number, boolean or plain object gives NaN through `sum + undefined`, and an array adds its element count. A `brewery_type` that is not a string never equals the selected type under `===` (brewery/src/App.jsx:34). Only `city` is coerced, into an object key (brewery/src/App.jsx:46). The model assumes every record has five string fields.
- The sort is modelled by one particular stable sort, an insertion sort (`Aggregator.SortByCountDesc`, stable by `Aggregator.SortByCountDescStable`). JavaScript only requires `Array.prototype.sort` to be stable. Any stable sort with this comparator yields the same order, and only the head of that order is used.
