/** `app/api/notes/sync/route.ts`: replays one queued note mutation (`create`,
    `update` or `delete`) against the `notes` table, scoped to the caller's rows. */
module SyncRoute {
  import opened Wrappers
  import opened Db
  import OfflineStore

  /** The request body `{action, ...note}`: `action` is `None` when it is not a string. */
  datatype SyncBody = SyncBody(action: Option<string>, id: string, title: string, content: string)

  /** A row the caller owns: the `.eq("id", ...).eq("user_id", ...)` filter. */
  predicate Owned(db: Tables, id: string, user: string) {
    id in db.notes && db.notes[id].userId == user
  }

  /** The statement each action runs, when it succeeds. `create` ignores the client id;
      `update` and `delete` touch only a row the caller owns. */
  function Apply(db: Tables, user: string, body: SyncBody, freshId: string, now: int): (after: Tables)
    requires body.action.Some?
    ensures after.tags == db.tags && after.noteTags == db.noteTags
    ensures body.action.value != "create" ==> after.notes.Keys <= db.notes.Keys
    ensures body.action.value != "create" ==>
              forall k | k in db.notes && (k != body.id || !Owned(db, k, user)) ::
                k in after.notes && after.notes[k] == db.notes[k]
  {
    match body.action.value
    case "create" => db.(notes := db.notes[freshId := NoteRow(freshId, user, body.title, body.content, now, now)])
    case "update" =>
      if Owned(db, body.id, user) then
        db.(notes := db.notes[body.id := db.notes[body.id].(title := body.title, content := body.content)])
      else db
    case "delete" => if Owned(db, body.id, user) then db.(notes := db.notes - {body.id}) else db
    case _ => db
  }

  predicate KnownAction(action: Option<string>) {
    action == Some("create") || action == Some("update") || action == Some("delete")
  }

  /** `POST`: `(response, tables afterwards)`. `request` is `None` when the body is not
      JSON or is `null`, so that `request.json()` or the destructuring throws. `freshId`
      is the key a `create` would get, `now` the time the defaults read, and `result`
      how the statement ended; a failed statement changes nothing. */
  function Post(db: Tables, auth: Auth, request: Option<SyncBody>, freshId: string, now: int, result: Outcome)
    : (out: (Response, Tables))
    ensures Caller(auth).None? ==> out == (Unauthorized, db)
    ensures Caller(auth).Some? && request.None? ==> out == (Response(500, ErrorJson("Failed to sync note")), db)
    ensures Caller(auth).Some? && request.Some? && !KnownAction(request.value.action) ==>
              out == (Response(400, ErrorJson("Invalid action")), db)
    ensures out.0.status == 200 <==>
              Caller(auth).Some? && request.Some? && KnownAction(request.value.action) && result.None? &&
              !(request.value.action == Some("create") && freshId in db.notes)
    ensures out.0.status == 200 ==> out.0.body == SuccessJson
    ensures out.0.status == 500 ==> out.0 == Response(500, ErrorJson("Failed to sync note"))
    ensures out.0.status != 200 ==> out.1 == db
    ensures out.1.tags == db.tags && out.1.noteTags == db.noteTags
    // a successful create adds one row, owned by the caller, with the posted text
    ensures out.0.status == 200 && request.value.action == Some("create") ==>
              out.1.notes == db.notes[freshId := NoteRow(freshId, Caller(auth).value,
                                                         request.value.title, request.value.content, now, now)]
    // rows of other users, and the caller's other rows, are never changed or removed
    ensures forall k | k in db.notes && (Caller(auth).None? || request.None? ||
                                         !Owned(db, k, Caller(auth).value) || k != request.value.id) ::
              k in out.1.notes && out.1.notes[k] == db.notes[k]
    ensures forall k | k in out.1.notes && k !in db.notes ::
              request.Some? && request.value.action == Some("create") && k == freshId
  {
    var caller := Caller(auth);
    if caller.None? then (Unauthorized, db)
    else if request.None? then (Response(500, ErrorJson("Failed to sync note")), db)
    else
      var body := request.value;
      if !KnownAction(body.action) then (Response(400, ErrorJson("Invalid action")), db)
      else if result.Some? || (body.action == Some("create") && freshId in db.notes) then
        (Response(500, ErrorJson("Failed to sync note")), db)
      else (Response(200, SuccessJson), Apply(db, caller.value, body, freshId, now))
  }

  /** `update` changes exactly the title and content of the caller's row. */
  lemma UpdateSetsTitleAndContent(db: Tables, auth: Auth, body: SyncBody, freshId: string, now: int)
    requires Caller(auth).Some? && body.action == Some("update")
    requires Owned(db, body.id, Caller(auth).value)
    ensures var after := Post(db, auth, Some(body), freshId, now, None).1;
            && body.id in after.notes
            && after.notes[body.id] == db.notes[body.id].(title := body.title, content := body.content)
            && after.notes.Keys == db.notes.Keys
  {
  }

  /** Replaying an `update` or a `delete` that succeeded has no further effect. */
  lemma UpdateDeleteIdempotent(db: Tables, auth: Auth, body: SyncBody, f1: string, f2: string, n1: int, n2: int)
    requires body.action == Some("update") || body.action == Some("delete")
    ensures var once := Post(db, auth, Some(body), f1, n1, None).1;
            Post(once, auth, Some(body), f2, n2, None).1 == once
  {
    var once := Post(db, auth, Some(body), f1, n1, None).1;
    if Caller(auth).Some? && body.action == Some("update") && Owned(db, body.id, Caller(auth).value) {
      assert once.notes[body.id := once.notes[body.id].(title := body.title, content := body.content)] == once.notes;
    }
  }

  /** A `delete` leaves no row with that id owned by the caller. */
  lemma DeleteRemovesOwnedRow(db: Tables, auth: Auth, body: SyncBody, freshId: string, now: int)
    requires Caller(auth).Some? && body.action == Some("delete")
    ensures !Owned(Post(db, auth, Some(body), freshId, now, None).1, body.id, Caller(auth).value)
  {
  }

  /** `create` is not idempotent: replaying it adds a second row. */
  lemma CreateTwiceAddsTwoRows(db: Tables, auth: Auth, body: SyncBody, f1: string, f2: string, now: int)
    requires Caller(auth).Some? && body.action == Some("create")
    requires f1 !in db.notes && f2 !in db.notes && f1 != f2
    ensures var once := Post(db, auth, Some(body), f1, now, None).1;
            var twice := Post(once, auth, Some(body), f2, now, None).1;
            |twice.notes| == |db.notes| + 2 && f1 in twice.notes && f2 in twice.notes
  {
    var user := Caller(auth).value;
    var once := Post(db, auth, Some(body), f1, now, None).1;
    assert once.notes == db.notes[f1 := NoteRow(f1, user, body.title, body.content, now, now)];
    var twice := Post(once, auth, Some(body), f2, now, None).1;
    assert twice.notes == once.notes[f2 := NoteRow(f2, user, body.title, body.content, now, now)];
  }

  // ---------------------------------------------------------------------------
  // the queued entries the service worker posts

  function ActionName(a: OfflineStore.Action): string {
    match a
    case Create => "create"
    case Update => "update"
    case Delete => "delete"
  }

  /** The body this route reads from a posted `pendingNotes` entry. */
  function BodyOf(n: OfflineStore.PendingNote): SyncBody {
    SyncBody(Some(ActionName(n.action)), n.id, n.title, n.content)
  }

  /** Every queued entry names an action the route knows, so a replay by a signed-in
      user never gets 400: it ends in 200 or 500. */
  lemma QueuedEntryNeverInvalid(db: Tables, auth: Auth, n: OfflineStore.PendingNote,
                                freshId: string, now: int, result: Outcome)
    requires Caller(auth).Some?
    ensures Post(db, auth, Some(BodyOf(n)), freshId, now, result).0.status in {200, 500}
  {
  }
}
