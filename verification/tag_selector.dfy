/** `components/tag-selector.tsx`: the searchable list of tags not yet selected,
    its empty-state text, and the refetch after a tag is created. */
module TagSelector {
  import opened Wrappers
  import opened Entities
  import Text
  import Lists

  predicate NameMatches(t: Tag, query: string) {
    Text.Includes(Text.ToLower(t.name), Text.ToLower(query))
  }

  /** `filteredTags`. */
  function FilteredTags(tags: seq<Tag>, query: string, selected: seq<Tag>): (r: seq<Tag>)
    ensures forall t :: t in r <==> t in tags && NameMatches(t, query) && !HasTagId(selected, t.id)
    ensures multiset(r) <= multiset(tags)
  {
    Lists.Filter(tags, (t: Tag) => NameMatches(t, query) && !HasTagId(selected, t.id))
  }

  /** The offered tags keep the fetched order: filtering a concatenation filters each
      part and puts the results one after the other. */
  lemma FilteredTagsConcat(a: seq<Tag>, b: seq<Tag>, query: string, selected: seq<Tag>)
    ensures FilteredTags(a + b, query, selected)
            == FilteredTags(a, query, selected) + FilteredTags(b, query, selected)
  {
    Lists.FilterConcat(a, b, (t: Tag) => NameMatches(t, query) && !HasTagId(selected, t.id));
  }

  /** An empty query offers every unselected tag, in the fetched order. */
  lemma {:induction false} EmptyQueryOffersUnselected(tags: seq<Tag>, selected: seq<Tag>)
    ensures FilteredTags(tags, "", selected) == Lists.Filter(tags, (t: Tag) => !HasTagId(selected, t.id))
    ensures selected == [] ==> FilteredTags(tags, "", selected) == tags
    decreases |tags|
  {
    if tags != [] {
      Text.IncludesEmpty(Text.ToLower(tags[0].name));
      EmptyQueryOffersUnselected(tags[1..], selected);
    }
  }

  /** The text shown instead of the list, if any. */
  function Notice(loading: bool, filtered: seq<Tag>, query: string): (n: Option<string>)
    ensures loading ==> n == Some("Loading tags...")
    ensures !loading && filtered != [] ==> n.None?
    ensures !loading && filtered == [] ==> n == Some(if query != "" then "No tags found" else "No tags available")
  {
    if loading then Some("Loading tags...")
    else if filtered == [] then Some(if query != "" then "No tags found" else "No tags available")
    else None
  }

  class Selector {
    var tags: seq<Tag>
    var loading: bool
    var showCreateDialog: bool

    constructor ()
      ensures tags == [] && !loading && !showCreateDialog
    {
      tags := [];
      loading := false;
      showCreateDialog := false;
    }

    /** `fetchTags`; `data` is the rows returned (`None` for `null`) and `failed`
        whether the query reported an error, which keeps the old list. */
    method FetchTags(data: Option<seq<Tag>>, failed: bool)
      modifies this`tags, this`loading
      ensures tags == if failed then old(tags) else data.GetOr([])
      ensures !loading
    {
      loading := true;
      if !failed {
        tags := data.GetOr([]);
      }
      loading := false;
    }

    /** `handleTagCreated`: refetch and close the create dialog. */
    method HandleTagCreated(data: Option<seq<Tag>>, failed: bool)
      modifies this
      ensures tags == if failed then old(tags) else data.GetOr([])
      ensures !loading && !showCreateDialog
    {
      FetchTags(data, failed);
      showCreateDialog := false;
    }
  }
}
