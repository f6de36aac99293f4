/** `components/search-filters.tsx`: the tag toggle, the reset of every filter but
    the query, the "filters active" badge and the sort-order button. */
module SearchFilters {
  import opened Wrappers
  import Lists
  import NotesPage

  /** The props the panel reads; dates are timestamps, `None` when unset. */
  datatype Filters = Filters(
    query: string, selectedTags: seq<string>, dateFrom: Option<int>, dateTo: Option<int>,
    sortBy: string, order: NotesPage.Order)

  /** `toggleTag`: drops every occurrence of a selected id, or appends a new one. */
  function ToggleTag(selected: seq<string>, id: string): (r: seq<string>)
    ensures id in selected ==> (forall x :: x in r <==> x in selected && x != id)
    ensures id !in selected ==> r == selected + [id]
    ensures id in r <==> id !in selected
  {
    if id in selected then Lists.Filter(selected, (x: string) => x != id) else selected + [id]
  }

  /** Toggling an unselected id twice restores the selection. */
  lemma {:induction false} ToggleTwice(selected: seq<string>, id: string)
    requires id !in selected
    ensures ToggleTag(ToggleTag(selected, id), id) == selected
  {
    var keep := (x: string) => x != id;
    assert id in selected + [id];
    Lists.FilterConcat(selected, [id], keep);
    Lists.FilterAll(selected, keep);
    assert Lists.Filter([id], keep) == [];
  }

  /** `clearFilters`: everything but the query goes back to its default. */
  function ClearFilters(f: Filters): (r: Filters)
    ensures r.query == f.query
    ensures r.selectedTags == [] && r.dateFrom.None? && r.dateTo.None?
    ensures r.sortBy == "updated_at" && r.order == NotesPage.Desc
  {
    Filters(f.query, [], None, None, "updated_at", NotesPage.Desc)
  }

  /** `hasActiveFilters`; the query does not count. */
  predicate HasActiveFilters(f: Filters) {
    |f.selectedTags| > 0 || f.dateFrom.Some? || f.dateTo.Some? || f.sortBy != "updated_at" || f.order != NotesPage.Desc
  }

  /** Clearing switches the badge off, whatever the query, and the badge is off
      exactly for the cleared settings. */
  lemma ClearedIsInactive(f: Filters)
    ensures !HasActiveFilters(ClearFilters(f))
    ensures !HasActiveFilters(f) <==> ClearFilters(f) == f
  {
  }

  /** The sort-order button. */
  function FlipOrder(o: NotesPage.Order): (r: NotesPage.Order)
    ensures r != o
  {
    if o == NotesPage.Asc then NotesPage.Desc else NotesPage.Asc
  }

  lemma FlipTwice(o: NotesPage.Order)
    ensures FlipOrder(FlipOrder(o)) == o
  {
  }
}
