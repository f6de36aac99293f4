/** `components/tag-manager.tsx`: the tag list of the tags page and its create,
    edit and delete dialogs. Each request's outcome is a parameter. */
module TagManager {
  import opened Wrappers
  import opened Entities
  import Text
  import TagLists

  const PresetColors: seq<string> :=
    ["#3b82f6", "#ef4444", "#10b981", "#f59e0b", "#8b5cf6",
     "#06b6d4", "#f97316", "#84cc16", "#ec4899", "#6b7280"]

  /** How a `fetch` ended: an ok response with its JSON, a non-ok status, or a throw. */
  datatype Reply<T> = Ok(value: T) | NotOk | Threw

  /** A request the component sends: the verb, the URL and the `{name, color}` body. */
  datatype TagRequest = TagRequest(verb: string, url: string, name: string, color: string)

  class Manager {
    var tags: seq<Tag>
    var isLoading: bool
    var editingTag: Option<Tag>
    var newTagName: string
    var newTagColor: string
    var editTagName: string
    var editTagColor: string
    var isCreateDialogOpen: bool
    var isEditDialogOpen: bool

    /** The initial state: loading, nothing to edit, the first preset colour. */
    constructor ()
      ensures tags == [] && isLoading && editingTag.None?
      ensures newTagName == "" && newTagColor == PresetColors[0] && newTagColor == "#3b82f6"
      ensures editTagName == "" && editTagColor == ""
      ensures !isCreateDialogOpen && !isEditDialogOpen
    {
      tags := [];
      isLoading := true;
      editingTag := None;
      newTagName := "";
      newTagColor := PresetColors[0];
      editTagName := "";
      editTagColor := "";
      isCreateDialogOpen := false;
      isEditDialogOpen := false;
    }

    /** `fetchTags`: an ok response replaces the list; loading ends however it went. */
    method FetchTags(reply: Reply<seq<Tag>>)
      modifies this`tags, this`isLoading
      ensures tags == if reply.Ok? then reply.value else old(tags)
      ensures !isLoading
    {
      if reply.Ok? {
        tags := reply.value;
      }
      isLoading := false;
    }

    /** `createTag`: a blank name sends nothing; otherwise the trimmed name and the
        chosen colour are posted, and an ok response appends the new tag, resets the
        form to the first preset and closes the dialog. */
    method CreateTag(reply: Reply<Tag>) returns (sent: Option<TagRequest>)
      modifies this`tags, this`newTagName, this`newTagColor, this`isCreateDialogOpen
      ensures Text.IsBlank(old(newTagName)) <==> sent.None?
      ensures sent.Some? ==> sent.value == TagRequest("POST", "/api/tags", Text.Trim(old(newTagName)), old(newTagColor))
      ensures sent.Some? && reply.Ok? ==>
                && tags == old(tags) + [reply.value]
                && newTagName == "" && newTagColor == PresetColors[0] && !isCreateDialogOpen
      ensures !(sent.Some? && reply.Ok?) ==>
                && tags == old(tags) && newTagName == old(newTagName)
                && newTagColor == old(newTagColor) && isCreateDialogOpen == old(isCreateDialogOpen)
    {
      var name := newTagName;
      if Text.IsBlank(name) {
        return None;
      }
      sent := Some(TagRequest("POST", "/api/tags", Text.Trim(name), newTagColor));
      if reply.Ok? {
        tags := tags + [reply.value];
        newTagName := "";
        newTagColor := PresetColors[0];
        isCreateDialogOpen := false;
      }
    }

    /** `updateTag`: needs a tag being edited and a non-blank name; an ok response
        replaces every tag with the edited id and closes the dialog. */
    method UpdateTag(reply: Reply<Tag>) returns (sent: Option<TagRequest>)
      modifies this`tags, this`editingTag, this`isEditDialogOpen
      ensures sent.None? <==> old(editingTag).None? || Text.IsBlank(old(editTagName))
      ensures sent.Some? ==>
                sent.value == TagRequest("PUT", "/api/tags/" + old(editingTag).value.id,
                                         Text.Trim(old(editTagName)), old(editTagColor))
      ensures sent.Some? && reply.Ok? ==>
                && tags == TagLists.ReplaceId(old(tags), old(editingTag).value.id, reply.value)
                && editingTag.None? && !isEditDialogOpen
      ensures !(sent.Some? && reply.Ok?) ==>
                tags == old(tags) && editingTag == old(editingTag) && isEditDialogOpen == old(isEditDialogOpen)
    {
      var name := editTagName;
      if editingTag.None? || Text.IsBlank(name) {
        return None;
      }
      var id := editingTag.value.id;
      sent := Some(TagRequest("PUT", "/api/tags/" + id, Text.Trim(name), editTagColor));
      if reply.Ok? {
        tags := TagLists.ReplaceId(tags, id, reply.value);
        editingTag := None;
        isEditDialogOpen := false;
      }
    }

    /** `deleteTag`: nothing unless the user confirms; an ok DELETE drops the tag. */
    method DeleteTag(tagId: string, confirmed: bool, reply: Reply<()>) returns (sentUrl: Option<string>)
      modifies this`tags
      ensures sentUrl == if confirmed then Some("/api/tags/" + tagId) else None
      ensures tags == if confirmed && reply.Ok? then TagLists.RemoveId(old(tags), tagId) else old(tags)
    {
      if !confirmed {
        return None;
      }
      sentUrl := Some("/api/tags/" + tagId);
      if reply.Ok? {
        tags := TagLists.RemoveId(tags, tagId);
      }
    }

    /** `openEditDialog`: the edit fields start from the tag's name and colour. */
    method OpenEditDialog(tag: Tag)
      modifies this`editingTag, this`editTagName, this`editTagColor, this`isEditDialogOpen
      ensures editingTag == Some(tag) && editTagName == tag.name && editTagColor == tag.color
      ensures isEditDialogOpen
    {
      editingTag := Some(tag);
      editTagName := tag.name;
      editTagColor := tag.color;
      isEditDialogOpen := true;
    }
  }

  /** Opening a tag for editing and saving it unchanged leaves the list as it was
      when ids are distinct: the update is a replacement, not an insertion. */
  lemma {:induction false} ResaveKeepsList(tags: seq<Tag>, tag: Tag)
    requires tag in tags && TagLists.DistinctIds(tags)
    ensures TagLists.ReplaceId(tags, tag.id, tag) == tags
  {
    var r := TagLists.ReplaceId(tags, tag.id, tag);
    forall i | 0 <= i < |tags| ensures r[i] == tags[i] {
      if tags[i].id == tag.id {
        var j :| 0 <= j < |tags| && tags[j] == tag;
        assert i == j;
      }
    }
  }
}
