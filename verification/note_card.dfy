/** `components/note-card.tsx`: what a card shows of a note, its edit link and the
    id its delete button reports. */
module NoteCard {
  import opened Wrappers
  import opened Entities

  const PreviewLength := 150

  /** The content shortened to 150 characters plus an ellipsis when it is longer. */
  function Preview(content: string): (p: string)
    ensures |content| <= PreviewLength ==> p == content
    ensures |content| > PreviewLength ==> |p| == PreviewLength + 3 && p[PreviewLength..] == "..."
    ensures |p| <= PreviewLength + 3
    ensures |p| <= |content| + 3
  {
    if |content| > PreviewLength then content[..PreviewLength] + "..." else content
  }

  /** The preview starts with the content, up to 150 characters of it. */
  lemma PreviewPrefix(content: string)
    ensures var n := if |content| < PreviewLength then |content| else PreviewLength;
            n <= |Preview(content)| && Preview(content)[..n] == content[..n]
  {
  }

  /** `note.note_tags?.map((nt) => nt.tags) || []`. */
  function CardTags(noteTags: Option<seq<Option<Tag>>>): (r: seq<Option<Tag>>)
    ensures noteTags.None? ==> r == []
    ensures noteTags.Some? ==> r == noteTags.value
  {
    noteTags.GetOr([])
  }

  function EditHref(id: string): (h: string)
    ensures |h| == |id| + 12
    ensures h[..7] == "/notes/" && h[7..7 + |id|] == id && h[7 + |id|..] == "/edit"
  {
    "/notes/" + id + "/edit"
  }

  /** Different notes get different edit links. */
  lemma EditHrefInjective(a: string, b: string)
    requires EditHref(a) == EditHref(b)
    ensures a == b
  {
    assert a == EditHref(a)[7..7 + |a|];
  }
}
