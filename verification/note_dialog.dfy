/** `components/note-dialog.tsx`: the dialog that writes a note and its tag
    associations straight to the tables under row-level security, replacing the
    note's associations wholesale. The caller, each statement's error and the key
    and time the database picks are parameters. */
module NoteDialog {
  import opened Wrappers
  import opened Entities
  import opened Db
  import Text
  import Lists
  import TagLists
  import NotesRoute

  /** The `note` prop. */
  datatype DialogNote = DialogNote(id: Option<string>, title: string, content: string, tags: Option<seq<Tag>>)

  /** What the backend does during one save: the signed-in user, the error of the
      update or insert of the note, whether the (unchecked) delete of the old
      associations failed, the error of the association insert, and the key and
      time a new row receives. */
  datatype Backend = Backend(
    user: Option<string>, writeError: Outcome, deleteFails: bool, tagInsert: Outcome,
    freshId: string, now: int)

  /** `if (noteId)`: an absent or empty id is falsy. */
  predicate Editing(noteId: Option<string>) {
    noteId.Some? && noteId.value != ""
  }

  /** `update(...).eq("id", id)` under row-level security: only the caller's row
      with that id changes, and only its title and content. */
  function UpdateOwned(notes: map<string, NoteRow>, user: string, id: string, title: string, content: string)
    : (r: map<string, NoteRow>)
    ensures r.Keys == notes.Keys
    ensures forall k | k in notes && !(k == id && notes[k].userId == user) :: r[k] == notes[k]
    ensures id in notes && notes[id].userId == user ==> r[id] == notes[id].(title := title, content := content)
  {
    if id in notes && notes[id].userId == user then notes[id := notes[id].(title := title, content := content)]
    else notes
  }

  /** `delete().eq("note_id", id)` under row-level security. */
  function DropLinks(links: seq<NoteTagRow>, user: string, id: string): (r: seq<NoteTagRow>)
    ensures forall l :: l in r <==> l in links && !(l.noteId == id && l.userId == user)
  {
    Lists.Filter(links, (l: NoteTagRow) => !(l.noteId == id && l.userId == user))
  }

  /** The note statement runs and succeeds: a non-blank title, a signed-in user, no
      error, and for an insert a key not already taken. */
  predicate Writes(db: Tables, noteId: Option<string>, title: string, be: Backend) {
    !Text.IsBlank(title) && be.user.Some? && be.writeError.None? && (Editing(noteId) || be.freshId !in db.notes)
  }

  /** `handleSave` on the tables: `(tables afterwards, whether onSave and close ran)`. */
  function Save(db: Tables, noteId: Option<string>, title: string, content: string, selected: seq<Tag>,
                be: Backend): (out: (Tables, bool))
    ensures !Writes(db, noteId, title, be) ==> out == (db, false)
    ensures Writes(db, noteId, title, be) && SavedId(noteId, be) != "" ==>
              && out.0.noteTags == Kept(db, be.user.value, SavedId(noteId, be), be) +
                                   Added(SavedId(noteId, be), be.user.value, selected, be)
              && out.1 == (selected == [] || be.tagInsert.None?)
    ensures Writes(db, noteId, title, be) && SavedId(noteId, be) == "" ==> out.0.noteTags == db.noteTags && out.1
    ensures out.0.tags == db.tags
    ensures Writes(db, noteId, title, be) && !Editing(noteId) ==>
              out.0.notes == db.notes[be.freshId := NoteRow(be.freshId, be.user.value, Text.Trim(title),
                                                            Text.Trim(content), be.now, be.now)]
    ensures Writes(db, noteId, title, be) && Editing(noteId) ==>
              out.0.notes == UpdateOwned(db.notes, be.user.value, noteId.value, Text.Trim(title), Text.Trim(content))
  {
    if Text.IsBlank(title) || be.user.None? || be.writeError.Some? then (db, false)
    else if !Editing(noteId) && be.freshId in db.notes then (db, false)
    else
      var user, t, c := be.user.value, Text.Trim(title), Text.Trim(content);
      var id := if Editing(noteId) then noteId.value else be.freshId;
      var notes := if Editing(noteId) then UpdateOwned(db.notes, user, id, t, c)
                   else db.notes[id := NoteRow(id, user, t, c, be.now, be.now)];
      if id == "" then (Tables(notes, db.tags, db.noteTags), true)
      else (Tables(notes, db.tags, Kept(db, user, id, be) + Added(id, user, selected, be)),
            selected == [] || be.tagInsert.None?)
  }

  /** The associations left by the delete: an ignored failure keeps them all. */
  function Kept(db: Tables, user: string, id: string, be: Backend): seq<NoteTagRow> {
    if be.deleteFails then db.noteTags else DropLinks(db.noteTags, user, id)
  }

  /** The associations the insert adds: none when nothing is selected or it fails. */
  function Added(id: string, user: string, selected: seq<Tag>, be: Backend): seq<NoteTagRow> {
    if selected == [] || be.tagInsert.Some? then [] else NotesRoute.TagRowsFor(id, user, TagIds(selected))
  }

  /** The key the saved note ends up under. */
  function SavedId(noteId: Option<string>, be: Backend): string {
    if Editing(noteId) then noteId.value else be.freshId
  }

  /** After a save that went through, the caller's associations of the note are
      exactly one per selected tag, in selection order: the old ones are gone. */
  lemma {:induction false} SaveReplacesAssociations(db: Tables, noteId: Option<string>, title: string,
                                                    content: string, selected: seq<Tag>, be: Backend)
    requires Writes(db, noteId, title, be) && SavedId(noteId, be) != "" && !be.deleteFails
    requires selected == [] || be.tagInsert.None?
    ensures var after := Save(db, noteId, title, content, selected, be).0;
            NotesRoute.Links(after, be.user.value, SavedId(noteId, be)) ==
              NotesRoute.TagRowsFor(SavedId(noteId, be), be.user.value, TagIds(selected))
  {
    var user, id := be.user.value, SavedId(noteId, be);
    var rows := NotesRoute.TagRowsFor(id, user, TagIds(selected));
    ReplacedLinks(db.noteTags, user, id, Added(id, user, selected, be));
    assert Added(id, user, selected, be) == rows;
  }

  lemma {:induction false} ReplacedLinks(links: seq<NoteTagRow>, user: string, id: string, rows: seq<NoteTagRow>)
    requires forall l | l in rows :: NotesRoute.LinkOf(user, id)(l)
    ensures Lists.Filter(DropLinks(links, user, id) + rows, NotesRoute.LinkOf(user, id)) == rows
  {
    var p, kept := NotesRoute.LinkOf(user, id), DropLinks(links, user, id);
    assert forall l | l in kept :: !p(l);
    NotesRoute.LinksAppended(kept, rows, user, id);
  }

  /** The association insert is a separate statement: when it fails after the
      delete went through, the note is left with no tags and the dialog stays open. */
  lemma {:induction false} FailedTagInsertDropsTags(db: Tables, noteId: Option<string>, title: string,
                                                    content: string, selected: seq<Tag>, be: Backend)
    requires Writes(db, noteId, title, be)
    requires Editing(noteId) && !be.deleteFails && selected != [] && be.tagInsert.Some?
    ensures var out := Save(db, noteId, title, content, selected, be);
            !out.1 && NotesRoute.Links(out.0, be.user.value, noteId.value) == []
  {
    var user, id := be.user.value, noteId.value;
    var p := NotesRoute.LinkOf(user, id);
    Lists.FilterNone(DropLinks(db.noteTags, user, id), p);
    assert Kept(db, user, id, be) + Added(id, user, selected, be) == DropLinks(db.noteTags, user, id);
  }

  /** A save touches no other note's associations. */
  lemma {:induction false} SaveKeepsOtherLinks(db: Tables, noteId: Option<string>, title: string, content: string,
                                               selected: seq<Tag>, be: Backend, u: string, n: string)
    requires be.user.Some? && (u != be.user.value || n != SavedId(noteId, be))
    ensures var after := Save(db, noteId, title, content, selected, be).0;
            NotesRoute.Links(after, u, n) == NotesRoute.Links(db, u, n)
  {
    var user, id := be.user.value, SavedId(noteId, be);
    if Writes(db, noteId, title, be) && id != "" {
      OtherLinks(db.noteTags, user, id, Kept(db, user, id, be), Added(id, user, selected, be), u, n);
    }
  }

  lemma {:induction false} OtherLinks(links: seq<NoteTagRow>, user: string, id: string,
                                      kept: seq<NoteTagRow>, rows: seq<NoteTagRow>, u: string, n: string)
    requires kept == links || kept == DropLinks(links, user, id)
    requires forall l | l in rows :: NotesRoute.LinkOf(user, id)(l)
    requires u != user || n != id
    ensures Lists.Filter(kept + rows, NotesRoute.LinkOf(u, n)) == Lists.Filter(links, NotesRoute.LinkOf(u, n))
  {
    var p, keep := NotesRoute.LinkOf(u, n), (l: NoteTagRow) => !(l.noteId == id && l.userId == user);
    assert forall l | l in links :: p(l) ==> keep(l);
    Lists.FilterFilter(links, p, keep);
    assert Lists.Filter(kept, p) == Lists.Filter(links, p);
    assert forall l | l in rows :: !p(l);
    Lists.FilterNone(rows, p);
    Lists.FilterConcat(kept, rows, p);
  }

  /** A save leaves every other user's notes as they were. */
  lemma SaveKeepsOtherNotes(db: Tables, noteId: Option<string>, title: string, content: string,
                            selected: seq<Tag>, be: Backend, n: string)
    requires be.user.Some? && n in db.notes && db.notes[n].userId != be.user.value
    ensures var after := Save(db, noteId, title, content, selected, be).0;
            n in after.notes && after.notes[n] == db.notes[n]
  {
  }

  class Dialog {
    const note: Option<DialogNote>
    var title: string
    var content: string
    var selected: seq<Tag>
    var showTagSelector: bool
    var saving: bool

    constructor (note: Option<DialogNote>)
      ensures this.note == note
      ensures title == "" && content == "" && selected == [] && !showTagSelector && !saving
    {
      this.note := note;
      title := "";
      content := "";
      selected := [];
      showTagSelector := false;
      saving := false;
    }

    /** The `[note, open]` effect: the fields start from the note, or empty. */
    method Open()
      modifies this`title, this`content, this`selected
      ensures note.Some? ==> title == note.value.title && content == note.value.content &&
                             selected == note.value.tags.GetOr([])
      ensures note.None? ==> title == "" && content == "" && selected == []
    {
      if note.Some? {
        title := note.value.title;
        content := note.value.content;
        selected := note.value.tags.GetOr([]);
      } else {
        title := "";
        content := "";
        selected := [];
      }
    }

    /** `handleSave`: nothing for a blank title; otherwise the tables change as `Save`
        says and saving ends on every path. */
    method HandleSave(db: Tables, be: Backend) returns (after: Tables, saved: bool)
      modifies this`saving
      ensures (after, saved) == Save(db, if note.Some? then note.value.id else None, title, content, selected, be)
      ensures saving == (Text.IsBlank(title) && old(saving))
    {
      if Text.IsBlank(title) {
        return db, false;
      }
      saving := true;
      var out := Save(db, if note.Some? then note.value.id else None, title, content, selected, be);
      after, saved := out.0, out.1;
      saving := false;
    }

    /** `handleTagSelect`: add unless already selected, then hide the picker. */
    method HandleTagSelect(tag: Tag)
      modifies this`selected, this`showTagSelector
      ensures selected == TagLists.AddUnique(old(selected), tag) && !showTagSelector
    {
      selected := TagLists.AddUnique(selected, tag);
      showTagSelector := false;
    }

    method RemoveTag(tag: Tag)
      modifies this`selected
      ensures selected == TagLists.RemoveId(old(selected), tag.id)
    {
      selected := TagLists.RemoveId(selected, tag.id);
    }
  }
}
