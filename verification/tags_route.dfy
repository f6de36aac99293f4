/** `app/api/tags/route.ts`: `GET` lists the caller's tags by name; `POST` creates
    a tag, defaulting its colour. */
module TagsRoute {
  import opened Wrappers
  import opened Db
  import Lex
  import Lists
  import KeyedStore

  const DefaultColor := "#3b82f6"

  /** `order("name")`: `a` may precede `b`. */
  function ByName(): (TagRow, TagRow) -> bool {
    (a: TagRow, b: TagRow) => Lex.Le(a.name, b.name)
  }

  lemma ByNameIsTotalPreorder()
    ensures Lists.IsTotalPreorder(ByName())
  {
    forall a: TagRow, b: TagRow ensures ByName()(a, b) || ByName()(b, a) {
      Lex.LeTotal(a.name, b.name);
    }
    forall a: TagRow, b: TagRow, c: TagRow | ByName()(a, b) && ByName()(b, c) ensures ByName()(a, c) {
      Lex.LeTrans(a.name, b.name, c.name);
    }
  }

  method Get(db: Tables, auth: Auth, query: Outcome) returns (resp: Response)
    requires Valid(db)
    ensures Caller(auth).None? ==> resp == Unauthorized
    ensures Caller(auth).Some? && query.Some? ==> resp == Response(500, ErrorJson(query.value))
    ensures Caller(auth).Some? && query.None? ==>
              && resp.status == 200 && resp.body.TagsJson?
              && KeyedStore.Enumerates(resp.body.tags, VisibleTags(db, Caller(auth).value))
              && (forall i, j :: 0 <= i < j < |resp.body.tags| ==>
                    Lex.Le(resp.body.tags[i].name, resp.body.tags[j].name))
  {
    var caller := Caller(auth);
    if caller.None? {
      return Unauthorized;
    }
    if query.Some? {
      return Response(500, ErrorJson(query.value));
    }
    var visible := VisibleTags(db, caller.value);
    VisibleKeyed(db, caller.value);
    var listed := KeyedStore.ListByKey(visible, TagKey);
    var tags := Lists.SortBy(listed, ByName());
    KeyedStore.ListingEnumerates(listed, tags, visible, TagKey);
    ByNameIsTotalPreorder();
    Lists.SortBySorted(listed, ByName());
    resp := Response(200, TagsJson(tags));
  }

  /** The request body `{name, color}`; `color` is `None` when absent. */
  datatype NewTag = NewTag(name: string, color: Option<string>)

  /** `color || "#3b82f6"`: a missing or empty colour gets the default. */
  function StoredColor(color: Option<string>): (c: string)
    ensures color.None? || color.value == "" ==> c == DefaultColor
    ensures color.Some? && color.value != "" ==> c == color.value
    ensures c != ""
  {
    if color.Some? && color.value != "" then color.value else DefaultColor
  }

  /** `POST`: `(response, tables afterwards)`. `request` is `None` when the body is not
      JSON or is `null`: `request.json()` or the destructuring throws, uncaught.
      `freshId` is the generated key and `insert` how the insert statement ended. */
  function Post(db: Tables, auth: Auth, request: Option<NewTag>, freshId: string, insert: Outcome)
    : (out: (Response, Tables))
    ensures Caller(auth).None? ==> out == (Unauthorized, db)
    ensures Caller(auth).Some? && request.None? ==> out == (Crash, db)
    ensures Caller(auth).Some? && request.Some? && (insert.Some? || freshId in db.tags) ==>
              out.0.status == 500 && out.0.body.ErrorJson? && out.1 == db
    ensures Caller(auth).Some? && request.Some? && insert.None? && freshId !in db.tags ==>
              && out.0.status == 201 && out.0.body.TagRowJson?
              && var tag := out.0.body.tag;
                 && tag == TagRow(freshId, Caller(auth).value, request.value.name, StoredColor(request.value.color))
                 && out.1 == db.(tags := db.tags[freshId := tag])
  {
    var caller := Caller(auth);
    if caller.None? then (Unauthorized, db)
    else if request.None? then (Crash, db)
    else
      var body := request.value;
      if insert.Some? then (Response(500, ErrorJson(insert.value)), db)
      else if freshId in db.tags then (Response(500, ErrorJson(DuplicateKey)), db)
      else
        var tag := TagRow(freshId, caller.value, body.name, StoredColor(body.color));
        (Response(201, TagRowJson(tag)), db.(tags := db.tags[freshId := tag]))
  }

  /** A created tag is listed for its owner afterwards, with its name exactly as sent
      (no trimming), and the other users' tags are untouched. */
  lemma PostedTagVisible(db: Tables, auth: Auth, body: NewTag, freshId: string)
    requires Caller(auth).Some? && freshId !in db.tags
    ensures var user, out := Caller(auth).value, Post(db, auth, Some(body), freshId, None);
            && out.0.body.tag in VisibleTags(out.1, user).Values
            && out.0.body.tag.name == body.name
            && (forall other | other != user :: VisibleTags(out.1, other) == VisibleTags(db, other))
  {
    var user, out := Caller(auth).value, Post(db, auth, Some(body), freshId, None);
    assert freshId in VisibleTags(out.1, user);
  }
}
