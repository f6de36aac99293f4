/** The HTTP endpoint in front of the limiter (`app/api/auth/rate-limit/route.ts`):
    validates `action`, looks up its limit, derives the client address, and maps the
    limiter's verdict to a status code. */
module RateLimitRoute {
  import opened Wrappers
  import Text
  import RateLimit

  /** A limit table entry; a field is `None` when reading it gives `undefined`. */
  datatype Config = Config(limit: Option<int>, window: Option<int>)

  /** A JSON value as `request.json()` yields it. Numbers are integers here. */
  datatype Json =
    | JStr(s: string)
    | JNum(n: int)
    | JBool(b: bool)
    | JNull
    | JArr(items: seq<Json>)
    | JObj

  /** The request as the handler sees it. `action` is `body?.action`, `None` (undefined)
      when the body does not parse, is `null` or a primitive, or has no `action` member.
      Each header or `request.ip` is `None` when absent. */
  datatype Request = Request(
    action: Option<Json>, forwardedFor: Option<string>, realIp: Option<string>, ip: Option<string>)

  datatype Body =
    | ErrorBody(error: string)
    | RateLimited(error: string, resetTime: int)
    | Success
    | OkBody

  datatype Response = Response(status: int, body: Body, headers: seq<(string, string)>)

  /** A JavaScript string is truthy iff it is non-empty. */
  predicate Truthy(s: Option<string>) {
    s.Some? && s.value != ""
  }

  /** `!action` is false: `undefined`, `null`, `""`, `0` and `false` are the falsy values
      JSON can produce; arrays and objects are truthy even when empty. */
  predicate ActionTruthy(v: Option<Json>) {
    match v
    case None => false
    case Some(JStr(s)) => s != ""
    case Some(JNum(n)) => n != 0
    case Some(JBool(b)) => b
    case Some(JNull) => false
    case Some(_) => true
  }

  /** `String(v)`: the property key `limits[v]` looks up, and the text `${v}` inserts.
      An array joins its elements with `,`, a `null` element giving the empty string. */
  function PropertyKey(v: Json): string
    decreases v
  {
    match v
    case JStr(s) => s
    case JNum(n) => Text.IntToString(n)
    case JBool(b) => if b then "true" else "false"
    case JNull => "null"
    case JArr(items) =>
      if items == [] then ""
      else Text.Join(seq(|items|, i requires 0 <= i < |items| =>
                           if items[i].JNull? then "" else PropertyKey(items[i])), ',')
    case JObj => "[object Object]"
  }

  // ---------------------------------------------------------------------------
  // the limit table

  /** The names every plain object inherits from `Object.prototype`; indexing the
      table literal with one of them yields that inherited member, which is truthy
      and has no `limit` or `window`. */
  const InheritedNames: set<string> := {
    "constructor", "toString", "toLocaleString", "valueOf", "hasOwnProperty",
    "isPrototypeOf", "propertyIsEnumerable", "__proto__", "__defineGetter__",
    "__defineSetter__", "__lookupGetter__", "__lookupSetter__" }

  /** `limits[action]` as written: own entries first, then inherited members. */
  function LookupAsWritten(action: string): (c: Option<Config>)
    ensures action == "login" ==> c == Some(Config(Some(5), Some(900000)))
    ensures action == "register" ==> c == Some(Config(Some(3), Some(3600000)))
    ensures action in InheritedNames ==> c == Some(Config(None, None))
  {
    if action == "login" then Some(Config(Some(5), Some(15 * 60 * 1000)))
    else if action == "register" then Some(Config(Some(3), Some(60 * 60 * 1000)))
    else if action in InheritedNames then Some(Config(None, None))
    else None
  }

  /** The intended lookup: only the table's own two entries. */
  function Lookup(action: string): (c: Option<Config>)
    ensures c.Some? <==> action == "login" || action == "register"
    ensures c.Some? ==> c.value.limit.Some? && c.value.window.Some?
  {
    if action == "login" then Some(Config(Some(5), Some(15 * 60 * 1000)))
    else if action == "register" then Some(Config(Some(3), Some(60 * 60 * 1000)))
    else None
  }

  /** The two lookups agree except on inherited names. */
  lemma LookupsAgreeOnOwnNames(action: string)
    requires action !in InheritedNames
    ensures LookupAsWritten(action) == Lookup(action)
  {
  }

  /** As written, `"toString"` is accepted as an action: it passes the `!config` test
      and is then limited with the library defaults (5 per 60000 ms) instead of being
      answered with 400 "Invalid action". */
  lemma InheritedActionAccepted()
    ensures LookupAsWritten("toString").Some?
    ensures Lookup("toString").None?
    ensures LookupAsWritten("toString").value.limit.GetOr(RateLimit.DefaultLimit) == 5
    ensures LookupAsWritten("toString").value.window.GetOr(RateLimit.DefaultWindow) == 60000
  {
  }

  // ---------------------------------------------------------------------------
  // client address and identifier

  /** The first comma-separated field of `x-forwarded-for`, trimmed: it never carries
      the separator or whitespace at either edge. */
  function ForwardedClient(fwd: string): (c: string)
    ensures ',' !in c
    ensures c == [] || (!Text.IsSpace(c[0]) && !Text.IsSpace(c[|c| - 1]))
  {
    var first := Text.Split(fwd, ',')[0];
    assert first in Text.Split(fwd, ',');
    Text.TrimShape(first);
    Text.Trim(first)
  }

  /** The `||` chain: forwarded client, `x-real-ip`, `request.ip`, then loopback. */
  function ClientIp(req: Request): (ip: string)
    ensures ip != ""
    ensures req.forwardedFor.Some? && ForwardedClient(req.forwardedFor.value) != "" ==>
              ip == ForwardedClient(req.forwardedFor.value)
    ensures !(req.forwardedFor.Some? && ForwardedClient(req.forwardedFor.value) != "") ==>
              ip == if Truthy(req.realIp) then req.realIp.value
                    else if Truthy(req.ip) then req.ip.value
                    else "127.0.0.1"
  {
    if req.forwardedFor.Some? && ForwardedClient(req.forwardedFor.value) != "" then
      ForwardedClient(req.forwardedFor.value)
    else if Truthy(req.realIp) then req.realIp.value
    else if Truthy(req.ip) then req.ip.value
    else "127.0.0.1"
  }

  /** The identifier is `${action}:${ip}`. The action is the part before its first `:`, so login and
      register attempts from one address are counted in different sets. */
  lemma IdentifierSeparatesActions(a1: string, a2: string, ip1: string, ip2: string)
    requires ':' !in a1 && ':' !in a2 && a1 != a2
    ensures RateLimit.Key(a1 + ":" + ip1) != RateLimit.Key(a2 + ":" + ip2)
  {
    var i1, i2 := a1 + ":" + ip1, a2 + ":" + ip2;
    if |a1| < |a2| {
      assert a2[|a1|] in a2;
      assert i1[|a1|] != i2[|a1|];
    } else if |a2| < |a1| {
      assert a1[|a2|] in a1;
      assert i1[|a2|] != i2[|a2|];
    } else {
      var k :| 0 <= k < |a1| && a1[k] != a2[k];
      assert i1[k] != i2[k];
    }
    assert RateLimit.Key(i1)[|RateLimit.KeyPrefix|..] == i1;
  }

  // ---------------------------------------------------------------------------
  // the handlers

  /** What the handler does before calling the limiter: answer at once, or call the
      limiter for `identifier` with the table's limit and window. */
  datatype Step = Answer(response: Response) | Check(identifier: string, limit: int, window: int)

  function PlanWith(req: Request, lookup: string -> Option<Config>): Step {
    if !ActionTruthy(req.action) then Answer(Response(400, ErrorBody("Missing 'action'"), []))
    else
      var key := PropertyKey(req.action.value);
      var config := lookup(key);
      if config.None? then Answer(Response(400, ErrorBody("Invalid action"), []))
      else Check(key + ":" + ClientIp(req),
                 config.value.limit.GetOr(RateLimit.DefaultLimit),
                 config.value.window.GetOr(RateLimit.DefaultWindow))
  }

  /** The intended handler: only the table's own entries are actions. */
  function Plan(req: Request): (p: Step)
    ensures !ActionTruthy(req.action) ==> p == Answer(Response(400, ErrorBody("Missing 'action'"), []))
    ensures ActionTruthy(req.action) && Lookup(PropertyKey(req.action.value)).None? ==>
              p == Answer(Response(400, ErrorBody("Invalid action"), []))
    ensures ActionTruthy(req.action) && PropertyKey(req.action.value) == "login" ==>
              p == Check("login" + ":" + ClientIp(req), 5, 900000)
    ensures ActionTruthy(req.action) && PropertyKey(req.action.value) == "register" ==>
              p == Check("register" + ":" + ClientIp(req), 3, 3600000)
  {
    PlanWith(req, Lookup)
  }

  /** The handler as written: it differs from the intended one only on inherited names,
      which reach the limiter with the library defaults. */
  function PlanAsWritten(req: Request): (p: Step)
    ensures !ActionTruthy(req.action) ==> p == Plan(req)
    ensures ActionTruthy(req.action) && PropertyKey(req.action.value) !in InheritedNames ==> p == Plan(req)
    ensures ActionTruthy(req.action) && PropertyKey(req.action.value) in InheritedNames ==>
              p == Check(PropertyKey(req.action.value) + ":" + ClientIp(req), 5, 60000)
  {
    PlanWith(req, LookupAsWritten)
  }

  /** As written, an inherited name reaches the limiter with the default limits. */
  lemma InheritedActionReachesLimiter(req: Request)
    requires req.action == Some(JStr("toString"))
    ensures PlanAsWritten(req) == Check("toString:" + ClientIp(req), 5, 60000)
    ensures Plan(req) == Answer(Response(400, ErrorBody("Invalid action"), []))
  {
  }

  /** The text of an integer starts with `-` or a digit, so it names no entry and no
      inherited member. */
  lemma NumeralNamesNothing(n: int)
    ensures LookupAsWritten(Text.IntToString(n)).None?
  {
    var key := Text.IntToString(n);
    assert key[0] == '-' || Text.IsDigit(key[0]);
    forall w | w in InheritedNames ensures key != w {
      assert w[0] in "_cthvip";
    }
  }

  /** A truthy number or boolean passes the presence test and names no entry. */
  lemma ScalarActionInvalid(req: Request, n: int)
    requires n != 0
    requires req.action == Some(JNum(n)) || req.action == Some(JBool(true))
    ensures PlanAsWritten(req) == Answer(Response(400, ErrorBody("Invalid action"), []))
  {
    if req.action == Some(JNum(n)) {
      NumeralNamesNothing(n);
    } else {
      assert LookupAsWritten("true").None?;
    }
  }

  /** A one-element array converts to its element: `["login"]` is limited as `login`. */
  lemma SingletonArrayActsAsElement(req: Request, a: string)
    requires req.action == Some(JArr([JStr(a)]))
    ensures PropertyKey(req.action.value) == a
    ensures a == "login" ==> PlanAsWritten(req) == Check("login" + ":" + ClientIp(req), 5, 900000)
  {
    var parts := seq(1, i requires 0 <= i < 1 => if [JStr(a)][i].JNull? then "" else PropertyKey([JStr(a)][i]));
    assert parts == [a];
  }

  /** The response to the limiter's verdict; both carry the rate-limit headers. */
  function Respond(r: RateLimit.RateLimitResult): (resp: Response)
    ensures resp.headers == RateLimit.RateLimitHeaders(r)
    ensures resp.status == (if r.success then 200 else 429)
    ensures !r.success ==> resp.body.RateLimited? && resp.body.resetTime == r.reset
  {
    var headers := RateLimit.RateLimitHeaders(r);
    if !r.success then
      Response(429, RateLimited("Rate limit exceeded. Please try again later.", r.reset), headers)
    else Response(200, Success, headers)
  }

  /** `POST` as written. `crash` stands for an exception escaping to the outer `catch`. */
  method Post(limiter: RateLimit.RateLimiter, req: Request, now: int, fault: RateLimit.KvFault, crash: bool)
    returns (resp: Response)
    modifies limiter
    ensures crash ==> resp == Response(500, ErrorBody("Internal server error"), [])
    ensures crash ==> limiter.sets == old(limiter.sets)
    ensures !crash && PlanAsWritten(req).Answer? ==> resp == PlanAsWritten(req).response
    ensures !crash && PlanAsWritten(req).Answer? ==> limiter.sets == old(limiter.sets)
    ensures !crash && PlanAsWritten(req).Check? ==>
              var p := PlanAsWritten(req);
              var key := RateLimit.Key(p.identifier);
              var o := RateLimit.Decide(RateLimit.ScoresOf(old(limiter.sets), key), p.limit, p.window, now, fault);
              resp == Respond(o.result) && RateLimit.ScoresOf(limiter.sets, key) == o.scores &&
              forall k | k != key :: RateLimit.ScoresOf(limiter.sets, k) == RateLimit.ScoresOf(old(limiter.sets), k)
  {
    if crash {
      return Response(500, ErrorBody("Internal server error"), []);
    }
    var plan := PlanAsWritten(req);
    match plan
    case Answer(r) =>
      resp := r;
    case Check(identifier, limit, window) =>
      var result := limiter.RateLimit(identifier, limit, window, now, fault);
      resp := Respond(result);
  }

  /** `GET` is refused with 405. */
  function Get(): (r: Response)
    ensures r.status == 405 && r.body == ErrorBody("Method not allowed") && r.headers == []
  {
    Response(405, ErrorBody("Method not allowed"), [])
  }

  /** `OPTIONS` answers 200 `{ ok: true }`. */
  function Options(): (r: Response)
    ensures r.status == 200 && r.body == OkBody && r.headers == []
  {
    Response(200, OkBody, [])
  }
}
