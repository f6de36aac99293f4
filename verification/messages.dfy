/** Nested translation catalogues and the dotted-key walk both translation
    providers (`lib/use-translations.tsx`, `lib/i18n.tsx`) perform before
    substituting parameters. */
module Messages {
  import opened Wrappers
  import Text

  /** A JSON value of a catalogue: a string, an object, or anything else. */
  datatype Message = Leaf(text: string) | Group(entries: map<string, Message>) | Other

  /** The index a property key names on a string: the canonical decimal form of a
      natural number (`"0"`, `"12"`; not `"01"`, `"+1"` or `""`). */
  function ArrayIndex(k: string): (i: Option<nat>)
    ensures i.Some? ==> Text.AllDigits(k)
  {
    if |k| >= 1 && Text.AllDigits(k) && (k[0] != '0' || |k| == 1) then Some(Text.DigitsValue(k)) else None
  }

  /** `value?.[k]`: an own entry of an object, or the one-character string at an
      index of a string; `None` stands for `undefined`. */
  function Child(v: Option<Message>, k: string): (c: Option<Message>)
    ensures v.Some? && v.value.Group? ==>
              (c.Some? <==> k in v.value.entries) && (c.Some? ==> c.value == v.value.entries[k])
    ensures v.Some? && v.value.Leaf? ==>
              (c.Some? <==> ArrayIndex(k).Some? && ArrayIndex(k).value < |v.value.text|)
    ensures v.Some? && v.value.Leaf? && c.Some? ==> c.value == Leaf([v.value.text[ArrayIndex(k).value]])
    ensures v.None? || v.value.Other? ==> c.None?
  {
    match v
    case Some(Group(entries)) => if k in entries then Some(entries[k]) else None
    case Some(Leaf(text)) =>
      var i := ArrayIndex(k);
      if i.Some? && i.value < |text| then Some(Leaf([text[i.value]])) else None
    case _ => None
  }

  /** The value reached by following `keys` from `v`. */
  function Walk(v: Option<Message>, keys: seq<string>): Option<Message>
    decreases |keys|
  {
    if keys == [] then v else Walk(Child(v, keys[0]), keys[1..])
  }

  /** A walk along `a + b` is a walk along `a` continued along `b`. */
  lemma {:induction false} WalkAppend(v: Option<Message>, a: seq<string>, b: seq<string>)
    ensures Walk(v, a + b) == Walk(Walk(v, a), b)
    decreases |a|
  {
    if a != [] {
      assert (a + b)[0] == a[0] && (a + b)[1..] == a[1..] + b;
      WalkAppend(Child(v, a[0]), a[1..], b);
    } else {
      assert a + b == b;
    }
  }

  /** Once the walk falls off the catalogue it stays off. */
  lemma {:induction false} WalkMissing(keys: seq<string>)
    ensures Walk(None, keys) == None
    decreases |keys|
  {
    if keys != [] {
      WalkMissing(keys[1..]);
    }
  }

  /** The string `t` found for `key`, if the walk ends on a string. */
  function Found(messages: Message, key: string): Option<string> {
    match Walk(Some(messages), Text.Split(key, '.'))
    case Some(Leaf(s)) => Some(s)
    case _ => None
  }

  /** The lookup loop of `t`: split the key on `.` and step through the catalogue. */
  method Resolve(messages: Message, key: string) returns (found: Option<string>)
    ensures found == Found(messages, key)
  {
    var keys := Text.Split(key, '.');
    var value := Some(messages);
    var i := 0;
    while i < |keys|
      invariant 0 <= i <= |keys|
      invariant Walk(value, keys[i..]) == Walk(Some(messages), keys)
    {
      assert keys[i..][1..] == keys[i + 1..];
      value := Child(value, keys[i]);
      i := i + 1;
    }
    found := match value case Some(Leaf(s)) => Some(s) case _ => None;
  }

  /** The catalogue holding just `s` at the end of `path`. */
  function Nest(path: seq<string>, s: string): Message
    decreases |path|
  {
    if path == [] then Leaf(s) else Group(map[path[0] := Nest(path[1..], s)])
  }

  lemma {:induction false} WalkNest(path: seq<string>, s: string)
    ensures Walk(Some(Nest(path, s)), path) == Some(Leaf(s))
    decreases |path|
  {
    if path != [] {
      WalkNest(path[1..], s);
    }
  }

  /** A dotted key finds the string stored under its segments. */
  lemma DottedKeyFindsNested(path: seq<string>, s: string)
    requires |path| >= 1
    requires forall p | p in path :: '.' !in p
    ensures Found(Nest(path, s), Text.Join(path, '.')) == Some(s)
  {
    Text.SplitJoin(path, '.');
    WalkNest(path, s);
  }

  /** A segment after a string picks one of its characters: with `{greeting: "Hello"}`,
      the key `greeting.0` finds `"H"`. */
  lemma StringSegmentPicksCharacter(name: string, text: string)
    requires '.' !in name && text != []
    ensures Found(Group(map[name := Leaf(text)]), name + ".0") == Some([text[0]])
  {
    var cat := Group(map[name := Leaf(text)]);
    assert Text.Join([name, "0"], '.') == name + ".0";
    Text.SplitJoin([name, "0"], '.');
    assert Text.AllDigits("0") && Text.DigitsValue("0") == 0;
    assert Child(Some(cat), name) == Some(Leaf(text));
    assert Child(Some(Leaf(text)), "0") == Some(Leaf([text[0]]));
    assert Walk(Some(cat), [name, "0"]) == Walk(Some(Leaf(text)), ["0"]);
  }

  /** A key whose first segment is not in the catalogue finds nothing. */
  lemma MissingSegmentFindsNothing(entries: map<string, Message>, key: string)
    requires Text.Split(key, '.')[0] !in entries
    ensures Found(Group(entries), key) == None
  {
    var keys := Text.Split(key, '.');
    WalkMissing(keys[1..]);
  }
}
