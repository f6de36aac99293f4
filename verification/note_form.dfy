/** `components/note-form.tsx`: the create/edit form's tag selection, the request
    its submit sends and the state after the response, and inline tag creation. */
module NoteForm {
  import opened Wrappers
  import opened Entities
  import Text
  import TagLists

  /** The `note` prop: `id` is optional, `tags` are the `note_tags[].tags`. */
  datatype FormNote = FormNote(id: Option<string>, title: string, content: string, noteTags: Option<seq<Tag>>)

  /** The `fetch` the submit issues, with its JSON body `{title, content, tagIds}`. */
  datatype SaveRequest = SaveRequest(url: string, verb: string, title: string, content: string, tagIds: seq<string>)

  /** How the save ended: ok, a non-ok status, or a thrown error (`Some(message)` for
      an `Error`, `None` for any other thrown value). */
  datatype SaveOutcome = Saved | NotOk | Threw(message: Option<string>)

  /** How the `POST /api/tags` of `createNewTag` ended. */
  datatype TagOutcome = Created(tag: Tag) | Refused | Failed

  /** `note?.id` in a template string. */
  function IdText(id: Option<string>): string {
    if id.Some? then id.value else "undefined"
  }

  class Form {
    const isEditing: bool
    const noteId: Option<string>
    var title: string
    var content: string
    var selected: seq<Tag>
    var available: seq<Tag>
    var newTagName: string
    var isLoading: bool
    var error: Option<string>
    /** The last `router.push` target. */
    var navigatedTo: Option<string>

    /** The initial state: the note's fields, or empty ones. */
    constructor (note: Option<FormNote>, isEditing: bool)
      ensures this.isEditing == isEditing
      ensures note.Some? ==> noteId == note.value.id && title == note.value.title && content == note.value.content
      ensures note.Some? ==> selected == note.value.noteTags.GetOr([])
      ensures note.None? ==> noteId.None? && title == "" && content == "" && selected == []
      ensures available == [] && newTagName == "" && !isLoading && error.None? && navigatedTo.None?
    {
      this.isEditing := isEditing;
      noteId := if note.Some? then note.value.id else None;
      title := if note.Some? then note.value.title else "";
      content := if note.Some? then note.value.content else "";
      selected := if note.Some? then note.value.noteTags.GetOr([]) else [];
      available := [];
      newTagName := "";
      isLoading := false;
      error := None;
      navigatedTo := None;
    }

    /** The request `handleSubmit` sends: PUT to the note's URL when editing, POST to
        the collection otherwise, with the selected ids in order. */
    function Request(): (req: SaveRequest)
      reads this
      ensures req.title == title && req.content == content
      ensures req.tagIds == TagIds(selected)
      ensures isEditing ==> req.verb == "PUT" && req.url == "/api/notes/" + IdText(noteId)
      ensures !isEditing ==> req.verb == "POST" && req.url == "/api/notes"
    {
      SaveRequest(if isEditing then "/api/notes/" + IdText(noteId) else "/api/notes",
                  if isEditing then "PUT" else "POST", title, content, TagIds(selected))
    }

    /** `handleSubmit`: a failure sets the error and stays; success navigates to the
        list. Loading ends on every path. */
    method HandleSubmit(outcome: SaveOutcome) returns (sent: SaveRequest)
      modifies this`isLoading, this`error, this`navigatedTo
      ensures sent == Request()
      ensures !isLoading
      ensures outcome == Saved ==> error.None? && navigatedTo == Some("/notes")
      ensures outcome == NotOk ==> error == Some("Failed to save note") && navigatedTo == old(navigatedTo)
      ensures outcome.Threw? ==> error == Some(outcome.message.GetOr("An error occurred")) && navigatedTo == old(navigatedTo)
    {
      isLoading := true;
      error := None;
      sent := Request();
      match outcome {
        case Saved =>
          navigatedTo := Some("/notes");
        case NotOk =>
          error := Some("Failed to save note");
        case Threw(message) =>
          error := Some(message.GetOr("An error occurred"));
      }
      isLoading := false;
    }

    method AddTag(tag: Tag)
      modifies this`selected
      ensures selected == TagLists.AddUnique(old(selected), tag)
    {
      if !HasTagId(selected, tag.id) {
        selected := selected + [tag];
      }
    }

    method RemoveTag(id: string)
      modifies this`selected
      ensures selected == TagLists.RemoveId(old(selected), id)
    {
      selected := TagLists.RemoveId(selected, id);
    }

    /** The tags offered for adding. */
    function Offered(): (r: seq<Tag>)
      reads this
      ensures forall t :: t in r <==> t in available && !HasTagId(selected, t.id)
    {
      TagLists.Unselected(available, selected)
    }

    /** `createNewTag`: nothing for a blank name; otherwise the trimmed name is sent
        and a created tag becomes available and selected. */
    method CreateNewTag(outcome: TagOutcome) returns (sentName: Option<string>)
      modifies this`available, this`selected, this`newTagName
      ensures Text.IsBlank(old(newTagName)) ==> sentName.None?
      ensures !Text.IsBlank(old(newTagName)) ==> sentName == Some(Text.Trim(old(newTagName)))
      ensures sentName.Some? && outcome.Created? ==>
                && available == old(available) + [outcome.tag]
                && selected == TagLists.AddUnique(old(selected), outcome.tag)
                && newTagName == ""
      ensures !(sentName.Some? && outcome.Created?) ==>
                available == old(available) && selected == old(selected) && newTagName == old(newTagName)
    {
      var name := newTagName;
      if Text.IsBlank(name) {
        return None;
      }
      sentName := Some(Text.Trim(name));
      if outcome.Created? {
        available := available + [outcome.tag];
        selected := TagLists.AddUnique(selected, outcome.tag);
        newTagName := "";
      }
    }
  }

  /** A tag created from the form is selected and no longer offered. */
  lemma CreatedTagSelectedNotOffered(available: seq<Tag>, selected: seq<Tag>, tag: Tag)
    ensures HasTagId(TagLists.AddUnique(selected, tag), tag.id)
    ensures tag !in TagLists.Unselected(available + [tag], TagLists.AddUnique(selected, tag))
  {
  }
}
