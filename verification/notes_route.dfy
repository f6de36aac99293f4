/** `app/api/notes/route.ts`: `GET` lists the caller's notes with their tags,
    newest first; `POST` creates a note and its tag associations. */
module NotesRoute {
  import opened Wrappers
  import opened Entities
  import opened Db
  import Lists
  import KeyedStore

  // ---------------------------------------------------------------------------
  // GET

  /** `order("updated_at", { ascending: false })`: `a` may precede `b`. */
  function NewestFirst(): (NoteRow, NoteRow) -> bool {
    (a: NoteRow, b: NoteRow) => a.updatedAt >= b.updatedAt
  }

  /** A `note_tags` row of the note that the user may see. */
  function LinkOf(user: string, noteId: string): NoteTagRow -> bool {
    (l: NoteTagRow) => l.noteId == noteId && l.userId == user
  }

  /** The visible `note_tags` rows of one note, in table order. */
  function Links(db: Tables, user: string, noteId: string): seq<NoteTagRow> {
    Lists.Filter(db.noteTags, LinkOf(user, noteId))
  }

  /** The tag a `note_tags` row points at, as the embedded `tags(id, name, color)`. */
  function TagOf(db: Tables, user: string, tagId: string): Option<Tag> {
    if tagId in db.tags && db.tags[tagId].userId == user then
      Some(Tag(tagId, db.tags[tagId].name, db.tags[tagId].color))
    else None
  }

  /** One element of the `GET` answer. */
  function Embed(db: Tables, user: string, row: NoteRow): NoteJson {
    var links := Links(db, user, row.id);
    NoteJson(row, seq(|links|, i requires 0 <= i < |links| => TagOf(db, user, links[i].tagId)))
  }

  function Rows(notes: seq<NoteJson>): (rows: seq<NoteRow>)
    ensures |rows| == |notes|
    ensures forall i :: 0 <= i < |rows| ==> rows[i] == notes[i].row
  {
    seq(|notes|, i requires 0 <= i < |notes| => notes[i].row)
  }

  /** The caller's visible rows, newest first. */
  method Listed(db: Tables, user: string) returns (rows: seq<NoteRow>)
    requires Valid(db)
    ensures KeyedStore.Enumerates(rows, VisibleNotes(db, user))
    ensures forall i, j :: 0 <= i < j < |rows| ==> rows[i].updatedAt >= rows[j].updatedAt
  {
    var visible := VisibleNotes(db, user);
    VisibleKeyed(db, user);
    var listed := KeyedStore.ListByKey(visible, NoteKey);
    rows := Lists.SortBy(listed, NewestFirst());
    KeyedStore.ListingEnumerates(listed, rows, visible, NoteKey);
    Lists.SortBySorted(listed, NewestFirst());
  }

  /** `query` is how the select statement ended. */
  method Get(db: Tables, auth: Auth, query: Outcome) returns (resp: Response)
    requires Valid(db)
    ensures Caller(auth).None? ==> resp == Unauthorized
    ensures Caller(auth).Some? && query.Some? ==> resp == Response(500, ErrorJson(query.value))
    ensures Caller(auth).Some? && query.None? ==>
              && resp.status == 200 && resp.body.NotesJson?
              && var user, notes := Caller(auth).value, resp.body.notes;
                 && KeyedStore.Enumerates(Rows(notes), VisibleNotes(db, user))
                 && (forall i, j :: 0 <= i < j < |notes| ==> notes[i].row.updatedAt >= notes[j].row.updatedAt)
                 && (forall i :: 0 <= i < |notes| ==> notes[i] == Embed(db, user, notes[i].row))
  {
    var caller := Caller(auth);
    if caller.None? {
      return Unauthorized;
    }
    if query.Some? {
      return Response(500, ErrorJson(query.value));
    }
    var user := caller.value;
    var rows := Listed(db, user);
    var notes := seq(|rows|, i requires 0 <= i < |rows| => Embed(db, user, rows[i]));
    assert Rows(notes) == rows;
    resp := Response(200, NotesJson(notes));
  }

  // ---------------------------------------------------------------------------
  // POST

  /** The `tagIds` field as the handler's test and `map` see it. `NoIds` is a value the
      test `tagIds && tagIds.length > 0` rejects without using `map`: absent, falsy, or
      with no positive `length`. `Ids` is an array. `Unmappable` is a truthy value with
      a positive `length` but no `map`, such as a non-empty string. */
  datatype TagIdsField = NoIds | Ids(ids: seq<string>) | Unmappable

  /** The request body `{title, content, tagIds}`. */
  datatype NewNote = NewNote(title: string, content: string, tagIds: TagIdsField)

  /** `tagIds && tagIds.length > 0` for an array. */
  predicate HasTagIds(body: NewNote) {
    body.tagIds.Ids? && |body.tagIds.ids| > 0
  }

  /** `tagIds.map(...)`: the association rows for the new note. */
  function TagRowsFor(noteId: string, user: string, tagIds: seq<string>): seq<NoteTagRow> {
    seq(|tagIds|, i requires 0 <= i < |tagIds| => NoteTagRow(noteId, tagIds[i], user))
  }

  /** The row the insert creates; `freshId` is the key the database generates and
      `now` the time its defaults read. */
  function NewRow(body: NewNote, user: string, freshId: string, now: int): NoteRow {
    NoteRow(freshId, user, body.title, body.content, now, now)
  }

  /** `POST`: `(response, tables afterwards)`. `request` is `None` when the body is not
      JSON or is `null`: `request.json()` or the destructuring throws, uncaught.
      `insert` and `tagInsert` are how the two insert statements ended; an insert that
      reuses a key fails. An `Unmappable` `tagIds` throws at `tagIds.map` after the note
      is inserted, so the answer is the framework's 500 and the note stays, untagged. */
  function Post(db: Tables, auth: Auth, request: Option<NewNote>, freshId: string, now: int,
                insert: Outcome, tagInsert: Outcome): (out: (Response, Tables))
    ensures Caller(auth).None? ==> out == (Unauthorized, db)
    ensures Caller(auth).Some? && request.None? ==> out == (Crash, db)
    ensures Caller(auth).Some? && request.Some? && (insert.Some? || freshId in db.notes) ==>
              out.0.status == 500 && out.0.body.ErrorJson? && out.1 == db
    ensures Caller(auth).Some? && request.Some? && insert.None? && freshId !in db.notes ==>
              var body := request.value;
              && out.0 == (if body.tagIds.Unmappable? then Crash
                           else Response(201, NoteRowJson(NewRow(body, Caller(auth).value, freshId, now))))
              && out.1.notes == db.notes[freshId := NewRow(body, Caller(auth).value, freshId, now)]
              && out.1.tags == db.tags
              && |db.noteTags| <= |out.1.noteTags| && out.1.noteTags[..|db.noteTags|] == db.noteTags
              && (HasTagIds(body) && tagInsert.None? ==>
                    |out.1.noteTags| == |db.noteTags| + |body.tagIds.ids|)
              && (!HasTagIds(body) || tagInsert.Some? ==> out.1.noteTags == db.noteTags)
  {
    var caller := Caller(auth);
    if caller.None? then (Unauthorized, db)
    else if request.None? then (Crash, db)
    else if insert.Some? then (Response(500, ErrorJson(insert.value)), db)
    else if freshId in db.notes then (Response(500, ErrorJson(DuplicateKey)), db)
    else
      var body, user := request.value, caller.value;
      var row := NewRow(body, user, freshId, now);
      var links := if HasTagIds(body) && tagInsert.None? then TagRowsFor(freshId, user, body.tagIds.ids) else [];
      var after := Tables(db.notes[freshId := row], db.tags, db.noteTags + links);
      if body.tagIds.Unmappable? then (Crash, after) else (Response(201, NoteRowJson(row)), after)
  }

  /** A `tagIds` without `map` still leaves the inserted note behind, with no tags,
      while the client is told the request failed. */
  lemma UnmappableTagIdsKeepNote(db: Tables, auth: Auth, body: NewNote, freshId: string, now: int,
                                 tagInsert: Outcome)
    requires Caller(auth).Some? && freshId !in db.notes && body.tagIds.Unmappable?
    ensures var out := Post(db, auth, Some(body), freshId, now, None, tagInsert);
            && out.0.status == 500
            && NewRow(body, Caller(auth).value, freshId, now) in VisibleNotes(out.1, Caller(auth).value).Values
            && out.1.noteTags == db.noteTags
  {
    var out := Post(db, auth, Some(body), freshId, now, None, tagInsert);
    assert freshId in VisibleNotes(out.1, Caller(auth).value);
  }

  /** After a successful `POST`, the new note is the caller's and invisible to anyone
      else, and its associations are one per requested tag id, in request order. */
  lemma {:induction false} PostedNoteAssociations(db: Tables, auth: Auth, body: NewNote, freshId: string,
                                                  now: int, tagInsert: Outcome)
    requires Caller(auth).Some? && freshId !in db.notes
    requires forall l | l in db.noteTags :: l.noteId != freshId
    ensures var user, after := Caller(auth).value, Post(db, auth, Some(body), freshId, now, None, tagInsert).1;
            && NewRow(body, user, freshId, now) in VisibleNotes(after, user).Values
            && (forall other | other != user :: VisibleNotes(after, other) == VisibleNotes(db, other))
            && Links(after, user, freshId) ==
                 if HasTagIds(body) && tagInsert.None? then TagRowsFor(freshId, user, body.tagIds.ids) else []
  {
    var user, after := Caller(auth).value, Post(db, auth, Some(body), freshId, now, None, tagInsert).1;
    var links := if HasTagIds(body) && tagInsert.None? then TagRowsFor(freshId, user, body.tagIds.ids) else [];
    InsertVisibleToOwner(db, after, NewRow(body, user, freshId, now));
    assert after.noteTags == db.noteTags + links;
    LinksAppended(db.noteTags, links, user, freshId);
  }

  /** Inserting a row under a new key shows it to its owner and to nobody else. */
  lemma InsertVisibleToOwner(db: Tables, after: Tables, row: NoteRow)
    requires after.notes == db.notes[row.id := row] && row.id !in db.notes
    ensures row in VisibleNotes(after, row.userId).Values
    ensures forall other | other != row.userId :: VisibleNotes(after, other) == VisibleNotes(db, other)
  {
    assert row.id in VisibleNotes(after, row.userId);
  }

  /** Rows appended for a note that had none are exactly its rows afterwards. */
  lemma {:induction false} LinksAppended(links: seq<NoteTagRow>, rows: seq<NoteTagRow>, user: string, id: string)
    requires forall l | l in links :: !LinkOf(user, id)(l)
    requires forall l | l in rows :: LinkOf(user, id)(l)
    ensures Lists.Filter(links + rows, LinkOf(user, id)) == rows
  {
    Lists.FilterNoneThenAll(links, rows, LinkOf(user, id));
  }
}
