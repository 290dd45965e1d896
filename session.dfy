/**
 * The `App` component's state: the loaded breweries, the search text, the
 * selected type and the filtered list derived from them. Every setter
 * recomputes the filtered list at once, so it always agrees with the
 * other three fields.
 */
module Session {
  import opened FilterEngine
  import opened Aggregator

  /** The three figures of the summary panel. */
  datatype Summary = Summary(totalBreweries: nat, averageNameLength: real, mostCommonCity: string)

  class Dashboard {
    var breweries: seq<Brewery>
    var searchQuery: string
    var filterType: string
    var filteredBreweries: seq<Brewery>

    /** The filtered list is the filter of the loaded list under the current criteria. */
    ghost predicate Valid()
      reads this
    {
      filteredBreweries == Filter(breweries, searchQuery, filterType)
    }

    /** The initial state: nothing loaded, empty query, type "All". */
    constructor ()
      ensures Valid()
      ensures breweries == [] && searchQuery == "" && filterType == AllTypes
      ensures filteredBreweries == []
    {
      breweries, searchQuery, filterType := [], "", AllTypes;
      filteredBreweries := [];
    }

    /** The filter effect: narrow the loaded list by name, then by type. */
    method ApplyFilters()
      modifies this`filteredBreweries
      ensures Valid()
    {
      var result := breweries;
      if searchQuery != "" {
        result := ByName(result, searchQuery);
      }
      if filterType != AllTypes {
        result := ByType(result, filterType);
      }
      filteredBreweries := result;
    }

    /**
     * Storing the decoded response. A rejected fetch or a body that is not
     * JSON never reaches it, and the list stays empty. Any other JSON body is
     * stored as it is; this model takes only a list of well-formed records.
     */
    method SetBreweries(data: seq<Brewery>)
      modifies this
      ensures Valid()
      ensures breweries == data
      ensures searchQuery == old(searchQuery) && filterType == old(filterType)
    {
      breweries := data;
      ApplyFilters();
    }

    /** The search box's change handler. */
    method SetSearchQuery(q: string)
      modifies this
      ensures Valid()
      ensures searchQuery == q
      ensures breweries == old(breweries) && filterType == old(filterType)
    {
      searchQuery := q;
      ApplyFilters();
    }

    /** The type selector's change handler. */
    method SetFilterType(t: string)
      modifies this
      ensures Valid()
      ensures filterType == t
      ensures breweries == old(breweries) && searchQuery == old(searchQuery)
    {
      filterType := t;
      ApplyFilters();
    }

    /**
     * The summary computed on each render: the number of filtered breweries,
     * their average name length and their most common city.
     */
    method Summarize() returns (s: Summary)
      requires Valid()
      ensures s.totalBreweries == |Filter(breweries, searchQuery, filterType)|
      ensures s.averageNameLength == AverageNameLength(Filter(breweries, searchQuery, filterType))
      ensures s.mostCommonCity == MostCommonCity(Filter(breweries, searchQuery, filterType))
    {
      var counts, order := CountCities(filteredBreweries);
      var average := AverageNameLength(filteredBreweries);
      s := Summary(|filteredBreweries|, average, PickCity(order, counts));
    }
  }
}
