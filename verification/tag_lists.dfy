/** The list updates the tag pickers and the tag manager apply to arrays of tags:
    add without duplicating an id, drop by id, replace by id, and the tags still on
    offer. */
module TagLists {
  import opened Entities
  import Lists

  /** No two tags share an id. */
  predicate DistinctIds(tags: seq<Tag>) {
    forall i, j :: 0 <= i < j < |tags| ==> tags[i].id != tags[j].id
  }

  /** `if (!selected.find(t => t.id === tag.id)) [...selected, tag]`. */
  function AddUnique(selected: seq<Tag>, tag: Tag): (r: seq<Tag>)
    ensures HasTagId(selected, tag.id) ==> r == selected
    ensures !HasTagId(selected, tag.id) ==> r == selected + [tag]
    ensures HasTagId(r, tag.id)
    ensures DistinctIds(selected) ==> DistinctIds(r)
  {
    if HasTagId(selected, tag.id) then selected
    else
      var r := selected + [tag];
      assert r[|selected|] == tag;
      r
  }

  /** `tags.filter(t => t.id !== id)`. */
  function RemoveId(tags: seq<Tag>, id: string): (r: seq<Tag>)
    ensures forall t :: t in r <==> t in tags && t.id != id
    ensures !HasTagId(r, id)
    ensures multiset(r) <= multiset(tags)
  {
    Lists.Filter(tags, (t: Tag) => t.id != id)
  }

  /** Adding a new tag and removing it again gives back the selection. */
  lemma {:induction false} AddThenRemove(selected: seq<Tag>, tag: Tag)
    requires !HasTagId(selected, tag.id)
    ensures RemoveId(AddUnique(selected, tag), tag.id) == selected
  {
    var keep := (t: Tag) => t.id != tag.id;
    Lists.FilterConcat(selected, [tag], keep);
    Lists.FilterAll(selected, keep);
    assert Lists.Filter([tag], keep) == [];
  }

  /** `tags.map(t => t.id === id ? updated : t)`. */
  function ReplaceId(tags: seq<Tag>, id: string, updated: Tag): (r: seq<Tag>)
    ensures |r| == |tags|
    ensures forall i :: 0 <= i < |tags| && tags[i].id != id ==> r[i] == tags[i]
    ensures forall i :: 0 <= i < |tags| && tags[i].id == id ==> r[i] == updated
  {
    seq(|tags|, i requires 0 <= i < |tags| => if tags[i].id == id then updated else tags[i])
  }

  /** Replacing a tag by one with the same id keeps ids distinct, and a missing id
      changes nothing. */
  lemma ReplaceKeepsIds(tags: seq<Tag>, id: string, updated: Tag)
    ensures updated.id == id && DistinctIds(tags) ==> DistinctIds(ReplaceId(tags, id, updated))
    ensures !HasTagId(tags, id) ==> ReplaceId(tags, id, updated) == tags
  {
    var r := ReplaceId(tags, id, updated);
    if !HasTagId(tags, id) {
      forall i | 0 <= i < |tags| ensures r[i] == tags[i] {
        assert tags[i] in tags;
      }
    }
  }

  /** `available.filter(tag => !selected.find(t => t.id === tag.id))`. */
  function Unselected(available: seq<Tag>, selected: seq<Tag>): (r: seq<Tag>)
    ensures forall t :: t in r <==> t in available && !HasTagId(selected, t.id)
    ensures multiset(r) <= multiset(available)
  {
    Lists.Filter(available, (t: Tag) => !HasTagId(selected, t.id))
  }

  /** A tag is offered or selected, never both. */
  lemma OfferedDisjoint(available: seq<Tag>, selected: seq<Tag>, t: Tag)
    requires t in available
    ensures t in Unselected(available, selected) <==> !HasTagId(selected, t.id)
    ensures t in selected ==> t !in Unselected(available, selected)
  {
  }
}
