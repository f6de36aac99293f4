/** The records the notes app passes between its pages, components and API routes.
    Timestamps are milliseconds since the epoch. A note's `tags` are the tags reached
    through its `note_tags` join rows, in row order; an absent `note_tags` is `[]`, and
    a join row whose tag the caller cannot see carries a `null` tag, `None`. */
module Entities {
  import opened Wrappers

  datatype Tag = Tag(id: string, name: string, color: string)

  datatype Note = Note(
    id: string, title: string, content: string, createdAt: int, updatedAt: int, tags: seq<Option<Tag>>)

  /** Every join row of the note reached its tag. */
  predicate AllJoined(n: Note) {
    forall i :: 0 <= i < |n.tags| ==> n.tags[i].Some?
  }

  /** The ids of a list of tags, in order (`tags.map((t) => t.id)`). */
  function TagIds(tags: seq<Tag>): (ids: seq<string>)
    ensures |ids| == |tags|
    ensures forall i :: 0 <= i < |tags| ==> ids[i] == tags[i].id
    ensures forall id :: id in ids <==> HasTagId(tags, id)
  {
    seq(|tags|, i requires 0 <= i < |tags| => tags[i].id)
  }

  predicate HasTagId(tags: seq<Tag>, id: string) {
    exists t :: t in tags && t.id == id
  }
}
