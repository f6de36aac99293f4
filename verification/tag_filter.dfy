/** `components/tag-filter.tsx`: the tag chips above the dashboard that put the
    selected tag into the `tag` query parameter, keeping the others. */
module TagFilter {
  import opened Wrappers
  import opened Entities
  import opened QueryParams

  /** `/dashboard?${params.toString()}`. */
  function DashboardWith(ps: seq<Pair>): Target {
    Target("/dashboard", Some(ps))
  }

  class Filter {
    var tags: seq<Tag>

    constructor ()
      ensures tags == []
    {
      tags := [];
    }

    /** `fetchTags`: the rows (`None` for `null`) replace the list; an error keeps it. */
    method FetchTags(data: Option<seq<Tag>>, failed: bool)
      modifies this
      ensures tags == if failed then old(tags) else data.GetOr([])
    {
      if !failed {
        tags := data.GetOr([]);
      }
    }

    /** The component renders nothing when there are no tags. */
    predicate Renders()
      reads this
    {
      |tags| != 0
    }
  }

  /** `handleTagClick`: clicking the selected tag clears the filter, any other tag
      selects it; every other parameter is kept. */
  method HandleTagClick(current: seq<Pair>, tagId: string) returns (target: Target)
    ensures target.path == "/dashboard" && target.query.Some?
    ensures GetFirst(target.query.value, "tag") ==
              if GetFirst(current, "tag") == Some(tagId) then None else Some(tagId)
    ensures forall other | other != "tag" :: GetFirst(target.query.value, other) == GetFirst(current, other)
  {
    var params := new SearchParams(current);
    var selected := params.Get("tag");
    if selected == Some(tagId) {
      params.Delete("tag");
      assert params.pairs == Deleted(current, "tag");
    } else {
      params.Set("tag", tagId);
      assert params.pairs == SetFirst(current, "tag", tagId);
    }
    target := DashboardWith(params.pairs);
    forall other | other != "tag" ensures GetFirst(target.query.value, other) == GetFirst(current, other) {
      GetAfterSet(current, "tag", tagId, other);
      GetAfterDelete(current, "tag", other);
    }
  }

  /** `clearFilter`: drops the `tag` parameter and keeps the rest. */
  method ClearFilter(current: seq<Pair>) returns (target: Target)
    ensures target == DashboardWith(Deleted(current, "tag"))
    ensures GetFirst(target.query.value, "tag").None?
    ensures forall other | other != "tag" :: GetFirst(target.query.value, other) == GetFirst(current, other)
  {
    var params := new SearchParams(current);
    params.Delete("tag");
    target := DashboardWith(params.pairs);
    forall other | other != "tag" ensures GetFirst(target.query.value, other) == GetFirst(current, other) {
      GetAfterDelete(current, "tag", other);
    }
  }

  /** Clicking the same tag twice removes the filter as clearing it would. */
  lemma {:induction false} ClickTwiceClears(current: seq<Pair>, tagId: string)
    requires GetFirst(current, "tag") != Some(tagId)
    ensures var once := SetFirst(current, "tag", tagId);
            GetFirst(once, "tag") == Some(tagId) && Deleted(once, "tag") == Deleted(current, "tag")
  {
    GetAfterSet(current, "tag", tagId, "tag");
    DeleteAfterSet(current, "tag", tagId);
  }
}
