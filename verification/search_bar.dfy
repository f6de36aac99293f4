/** `components/search-bar.tsx`: the search box of the dashboard, which starts from
    the `search` query parameter and navigates with the trimmed query. */
module SearchBar {
  import opened Wrappers
  import Text
  import opened QueryParams

  /** Where a submitted query leads: `?search=` with the trimmed text, or the bare
      dashboard for a blank one. */
  function SearchTarget(query: string): (t: Target)
    ensures Text.IsBlank(query) ==> t == Target("/dashboard", None)
    ensures !Text.IsBlank(query) ==> t == Target("/dashboard", Some([Pair("search", Text.Trim(query))]))
  {
    if Text.IsBlank(query) then Target("/dashboard", None)
    else Target("/dashboard", Some([Pair("search", Text.Trim(query))]))
  }

  /** `searchParams.get("search") || ""`. */
  function InitialQuery(ps: seq<Pair>): (q: string)
    ensures GetFirst(ps, "search").Some? ==> q == GetFirst(ps, "search").value
    ensures GetFirst(ps, "search").None? ==> q == ""
  {
    GetFirst(ps, "search").GetOr("")
  }

  /** Submitting and landing on the dashboard again shows the trimmed query; a blank
      query comes back empty. */
  lemma SearchRoundTrip(query: string)
    ensures var t := SearchTarget(query);
            InitialQuery(t.query.GetOr([])) == if Text.IsBlank(query) then "" else Text.Trim(query)
  {
  }

  class Bar {
    var query: string
    var navigatedTo: Option<Target>

    constructor (ps: seq<Pair>)
      ensures query == InitialQuery(ps) && navigatedTo.None?
    {
      query := InitialQuery(ps);
      navigatedTo := None;
    }

    /** `handleSearch`: navigates; the box keeps what was typed. */
    method HandleSearch()
      modifies this`navigatedTo
      ensures navigatedTo == Some(SearchTarget(query))
    {
      navigatedTo := Some(SearchTarget(query));
    }

    /** `clearSearch`. */
    method ClearSearch()
      modifies this
      ensures query == "" && navigatedTo == Some(Target("/dashboard", None))
      ensures !ShowsClear()
    {
      query := "";
      navigatedTo := Some(Target("/dashboard", None));
    }

    /** The clear button is shown while the box is not empty. */
    predicate ShowsClear()
      reads this
    {
      query != ""
    }
  }
}
