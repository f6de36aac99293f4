/** The Supabase tables behind the API routes (`notes`, `tags`, `note_tags`) as
    values, the caller identity `supabase.auth.getUser()` yields, and the JSON
    responses the route handlers build. Row-level security is the policy
    "a row is visible to the user whose id is in its `user_id`". */
module Db {
  import opened Wrappers
  import opened Entities
  import Lists
  import KeyedStore

  datatype NoteRow = NoteRow(
    id: string, userId: string, title: string, content: string, createdAt: int, updatedAt: int)

  datatype TagRow = TagRow(id: string, userId: string, name: string, color: string)

  datatype NoteTagRow = NoteTagRow(noteId: string, tagId: string, userId: string)

  /** `notes` and `tags` are keyed by their `id` primary key; `note_tags` has no key
      of its own and is kept in insertion order. */
  datatype Tables = Tables(notes: map<string, NoteRow>, tags: map<string, TagRow>, noteTags: seq<NoteTagRow>)

  function NoteKey(r: NoteRow): string { r.id }

  function TagKey(r: TagRow): string { r.id }

  ghost predicate Valid(db: Tables) {
    KeyedStore.KeyedBy(db.notes, NoteKey) && KeyedStore.KeyedBy(db.tags, TagKey)
  }

  /** What `supabase.auth.getUser()` returned: a user id or none, and whether it
      reported an error. */
  datatype Auth = Auth(user: Option<string>, failed: bool)

  /** The caller the route acts for; `None` is the `userError || !user` guard. */
  function Caller(a: Auth): (u: Option<string>)
    ensures u.Some? <==> !a.failed && a.user.Some?
    ensures u.Some? ==> u == a.user
  {
    if a.failed then None else a.user
  }

  /** How the backend answered one statement: success, or an error with its `message`. */
  type Outcome = Option<string>

  /** The message Postgres gives when an insert reuses a primary key. */
  const DuplicateKey := "duplicate key value violates unique constraint"

  // ---------------------------------------------------------------------------
  // row-level security

  function VisibleNotes(db: Tables, user: string): (m: map<string, NoteRow>)
    ensures forall k :: k in m <==> k in db.notes && db.notes[k].userId == user
    ensures forall k | k in m :: m[k] == db.notes[k]
  {
    map k | k in db.notes && db.notes[k].userId == user :: db.notes[k]
  }

  function VisibleTags(db: Tables, user: string): (m: map<string, TagRow>)
    ensures forall k :: k in m <==> k in db.tags && db.tags[k].userId == user
    ensures forall k | k in m :: m[k] == db.tags[k]
  {
    map k | k in db.tags && db.tags[k].userId == user :: db.tags[k]
  }

  lemma VisibleKeyed(db: Tables, user: string)
    requires Valid(db)
    ensures KeyedStore.KeyedBy(VisibleNotes(db, user), NoteKey)
    ensures KeyedStore.KeyedBy(VisibleTags(db, user), TagKey)
  {
  }

  // ---------------------------------------------------------------------------
  // responses

  /** A note as `select("*, note_tags(tags(id, name, color))")` returns it: the row,
      and for each of its visible `note_tags` rows the joined tag, `None` (null)
      when that tag is not visible. */
  datatype NoteJson = NoteJson(row: NoteRow, noteTags: seq<Option<Tag>>)

  datatype Body =
    | ErrorJson(error: string)
    | NotesJson(notes: seq<NoteJson>)
    | NoteRowJson(note: NoteRow)
    | TagsJson(tags: seq<TagRow>)
    | TagRowJson(tag: TagRow)
    | SuccessJson
      /** The framework's own answer to an exception the handler does not catch. */
    | Crashed

  datatype Response = Response(status: int, body: Body)

  const Unauthorized := Response(401, ErrorJson("Unauthorized"))

  /** An uncaught exception: the framework answers 500 with its own error page. */
  const Crash := Response(500, Crashed)
}
