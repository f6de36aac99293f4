/** `components/notes-grid.tsx`: the dashboard grid, which fetches either the
    full-text search results or the tag-filtered list depending on the query
    parameters, and the empty-state text it shows. */
module NotesGrid {
  import opened Wrappers
  import opened Entities
  import opened QueryParams

  /** A row as the fetch returns it; `noteTags` holds each `note_tags[].tags`, `None`
      where the joined tag is null, and is `None` itself when the row has no
      `note_tags` property (the search function's rows). */
  datatype Row = Row(
    id: string, title: string, content: string, createdAt: int, updatedAt: int,
    noteTags: Option<seq<Option<Tag>>>)

  /** A note in the grid: the row and, in list mode, the `tags` added to it. */
  datatype GridNote = GridNote(row: Row, tags: Option<seq<Tag>>)

  /** Which query the effect runs. */
  datatype Mode = SearchMode(query: string) | ListMode(tag: Option<string>)

  /** A non-empty `search` parameter selects the search function; otherwise the list
      is fetched, filtered by a non-empty `tag` parameter. */
  function ModeOf(ps: seq<Pair>): (m: Mode)
    ensures m.SearchMode? <==> GetFirst(ps, "search").Some? && GetFirst(ps, "search").value != ""
    ensures m.SearchMode? ==> m.query == GetFirst(ps, "search").value
    ensures m.ListMode? ==> (m.tag.Some? <==> GetFirst(ps, "tag").Some? && GetFirst(ps, "tag").value != "")
    ensures m.ListMode? && m.tag.Some? ==> m.tag == GetFirst(ps, "tag")
  {
    var search, tag := GetFirst(ps, "search"), GetFirst(ps, "tag");
    if search.Some? && search.value != "" then SearchMode(search.value)
    else ListMode(if tag.Some? && tag.value != "" then tag else None)
  }

  /** `.map((nt) => nt.tags).filter(Boolean)`: the joined tags that are present, in
      order. */
  function Present(ts: seq<Option<Tag>>): (r: seq<Tag>)
    ensures |r| <= |ts|
    ensures forall t :: t in r <==> Some(t) in ts
  {
    if ts == [] then []
    else
      var rest := Present(ts[1..]);
      assert forall o :: o in ts <==> o == ts[0] || o in ts[1..];
      if ts[0].Some? then [ts[0].value] + rest else rest
  }

  /** Nothing is dropped when every joined tag is present. */
  lemma {:induction false} PresentAll(ts: seq<Option<Tag>>)
    requires forall i :: 0 <= i < |ts| ==> ts[i].Some?
    ensures |Present(ts)| == |ts|
    ensures forall i :: 0 <= i < |ts| ==> Present(ts)[i] == ts[i].value
  {
    if ts != [] {
      PresentAll(ts[1..]);
    }
  }

  /** `notesWithTags`: each row keeps its fields and gains the present tags. */
  function WithTags(rows: seq<Row>): (r: seq<GridNote>)
    ensures |r| == |rows|
    ensures forall i :: 0 <= i < |rows| ==>
              r[i].row == rows[i] && r[i].tags == Some(Present(rows[i].noteTags.GetOr([])))
  {
    seq(|rows|, i requires 0 <= i < |rows| => GridNote(rows[i], Some(Present(rows[i].noteTags.GetOr([])))))
  }

  /** How the fetch of the chosen mode ended: no signed-in user (search mode only),
      an error, or the data (`None` for `null`). */
  datatype Reply = NoUser | Failed | Rows(data: Option<seq<Row>>)

  /** The heading of the empty state: search wins over the tag filter. */
  function EmptyHeading(ps: seq<Pair>): (h: string)
    ensures ModeOf(ps).SearchMode? ==> h == "No notes found"
    ensures ModeOf(ps) == ListMode(None) ==> h == "No notes yet"
    ensures ModeOf(ps).ListMode? && ModeOf(ps).tag.Some? ==> h == "No notes with this tag"
  {
    match ModeOf(ps)
    case SearchMode(_) => "No notes found"
    case ListMode(tag) => if tag.Some? then "No notes with this tag" else "No notes yet"
  }

  class Grid {
    var notes: seq<GridNote>
    var loading: bool

    constructor ()
      ensures notes == [] && loading
    {
      notes := [];
      loading := true;
    }

    /** `fetchNotes` for the current parameters; loading ends on every path, and a
        missing user or an error keeps the notes shown before. */
    method FetchNotes(ps: seq<Pair>, reply: Reply)
      modifies this
      ensures !loading
      ensures reply.Failed? || (reply.NoUser? && ModeOf(ps).SearchMode?) ==> notes == old(notes)
      ensures reply.Rows? && ModeOf(ps).SearchMode? ==>
                notes == seq(|reply.data.GetOr([])|, i requires 0 <= i < |reply.data.GetOr([])| =>
                               GridNote(reply.data.GetOr([])[i], None))
      ensures reply.Rows? && ModeOf(ps).ListMode? ==> notes == WithTags(reply.data.GetOr([]))
    {
      loading := true;
      var mode := ModeOf(ps);
      match mode {
        case SearchMode(_) =>
          if reply.Rows? {
            var rows := reply.data.GetOr([]);
            notes := seq(|rows|, i requires 0 <= i < |rows| => GridNote(rows[i], None));
          }
        case ListMode(_) =>
          if reply.Rows? {
            notes := WithTags(reply.data.GetOr([]));
          }
      }
      loading := false;
    }

    /** What the component shows: skeletons while loading, the empty state for no
        notes, otherwise the cards. */
    function Heading(ps: seq<Pair>): (h: Option<string>)
      reads this
      ensures h.Some? <==> !loading && notes == []
      ensures h.Some? ==> h.value == EmptyHeading(ps)
    {
      if !loading && notes == [] then Some(EmptyHeading(ps)) else None
    }
  }
}
