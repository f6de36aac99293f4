/** `lib/use-translations.tsx`: the `TranslationProvider` state (locale, stored
    choice, document attributes) and its `t`, which substitutes `{name}`
    parameters one after another, each into its first occurrence only. */
module UseTranslations {
  import opened Wrappers
  import Text
  import Locales
  import opened Messages

  // ---------------------------------------------------------------------------
  // String.prototype.replace with a string pattern

  /** The replacement text as `replace` inserts it: `$$`, `$&` (the match), `` $` ``
      (the text before it) and `$'` (the text after it) expand; any other `$` is kept. */
  function Expand(rep: string, matched: string, before: string, after: string): string
    decreases |rep|
  {
    if rep == [] then []
    else if rep[0] == '$' && |rep| >= 2 && rep[1] in "$&`'" then
      var piece := if rep[1] == '$' then "$" else if rep[1] == '&' then matched
                   else if rep[1] == '`' then before else after;
      piece + Expand(rep[2..], matched, before, after)
    else [rep[0]] + Expand(rep[1..], matched, before, after)
  }

  /** Without a `$`, the replacement is inserted as it is. */
  lemma {:induction false} ExpandPlain(rep: string, matched: string, before: string, after: string)
    requires '$' !in rep
    ensures Expand(rep, matched, before, after) == rep
    decreases |rep|
  {
    if rep != [] {
      assert rep[1..] + [] == rep[1..];
      ExpandPlain(rep[1..], matched, before, after);
      assert rep == [rep[0]] + rep[1..];
    }
  }

  /** `s.replace(pat, rep)`: rewrites the first occurrence of `pat`, if any. */
  function ReplaceFirst(s: string, pat: string, rep: string): (r: string)
    ensures !Text.Includes(s, pat) ==> r == s
  {
    var i := Text.IndexOf(s, pat);
    if i < 0 then s
    else s[..i] + Expand(rep, pat, s[..i], s[i + |pat|..]) + s[i + |pat|..]
  }

  /** With the first occurrence at `i` and a replacement without `$`, exactly that
      occurrence is rewritten and everything around it is kept. */
  lemma ReplaceFirstAt(s: string, pat: string, rep: string, i: nat)
    requires Text.OccursAt(s, pat, i)
    requires forall j :: 0 <= j < i ==> !Text.OccursAt(s, pat, j)
    requires '$' !in rep
    ensures ReplaceFirst(s, pat, rep) == s[..i] + rep + s[i + |pat|..]
  {
    var k := Text.IndexOf(s, pat);
    assert k == i by {
      assert Text.IndexOfFrom(s, pat, 0) != -1;
    }
    ExpandPlain(rep, pat, s[..i], s[i + |pat|..]);
  }

  // ---------------------------------------------------------------------------
  // t

  function Placeholder(name: string): string {
    "{" + name + "}"
  }

  /** The `reduce` over `Object.entries(params)`, in entry order. */
  function Substitute(s: string, params: seq<(string, string)>): string
    decreases |params|
  {
    if params == [] then s
    else Substitute(ReplaceFirst(s, Placeholder(params[0].0), params[0].1), params[1..])
  }

  /** Substituting `a + b` is substituting `a`, then `b` into the result. */
  lemma {:induction false} SubstituteAppend(s: string, a: seq<(string, string)>, b: seq<(string, string)>)
    ensures Substitute(s, a + b) == Substitute(Substitute(s, a), b)
    decreases |a|
  {
    if a != [] {
      assert (a + b)[0] == a[0] && (a + b)[1..] == a[1..] + b;
      SubstituteAppend(ReplaceFirst(s, Placeholder(a[0].0), a[0].1), a[1..], b);
    } else {
      assert a + b == b;
    }
  }

  /** What `t(key, params)` returns: the key itself when the walk does not end on a
      string, the found string when no params are given, and the substituted string
      otherwise. */
  function Translation(messages: Message, key: string, params: Option<seq<(string, string)>>): string {
    match Found(messages, key)
    case None => key
    case Some(s) => if params.Some? then Substitute(s, params.value) else s
  }

  /** Only the first `{n}` is rewritten; a later one stays. */
  lemma OnlyFirstOccurrence()
    ensures Substitute("{n}/{n}", [("n", "A")]) == "A/{n}"
  {
    ReplaceFirstAt("{n}/{n}", "{n}", "A", 0);
  }

  /** Substitution is sequential: a later param rewrites text an earlier one inserted. */
  lemma EarlierInsertionRewritten()
    ensures Substitute("{a}", [("a", "{b}"), ("b", "X")]) == "X"
  {
    assert Placeholder("a") == "{a}" && Placeholder("b") == "{b}";
    ReplaceFirstAt("{a}", "{a}", "{b}", 0);
    assert ReplaceFirst("{a}", "{a}", "{b}") == "{b}";
    ReplaceFirstAt("{b}", "{b}", "X", 0);
    assert ReplaceFirst("{b}", "{b}", "X") == "X";
    assert Substitute("{b}", [("b", "X")]) == "X";
  }

  /** A `$&` in a param value re-inserts the placeholder instead of the text. */
  lemma DollarPatternExpands()
    ensures Substitute("{n}", [("n", "$&")]) == "{n}"
  {
    assert Text.OccursAt("{n}", "{n}", 0);
    assert Text.IndexOf("{n}", "{n}") == 0;
  }

  /** A missing key, or one that names a group, comes back unchanged. */
  lemma MissingKeyEchoed(messages: Message, key: string, params: Option<seq<(string, string)>>)
    requires Found(messages, key).None?
    ensures Translation(messages, key, params) == key
  {
  }

  // ---------------------------------------------------------------------------
  // provider

  class TranslationProvider {
    /** The `messageMap` catalogues. */
    const catalog: Locales.Locale -> Message
    var locale: Locales.Locale
    /** `localStorage["locale"]`. */
    var stored: Option<string>
    /** `document.documentElement.lang` and `.dir`. */
    var docLang: string
    var docDir: string

    /** The `messages` state; every locale has a catalogue, so the
        `|| messageMap[defaultLocale]` fallback never applies. */
    function Messages(): Message
      reads this
    {
      catalog(locale)
    }

    /** The first render: the default locale, before any effect has run. */
    constructor (catalog: Locales.Locale -> Message, stored: Option<string>, docLang: string, docDir: string)
      ensures this.catalog == catalog && locale == Locales.Default
      ensures this.stored == stored && this.docLang == docLang && this.docDir == docDir
    {
      this.catalog := catalog;
      locale := Locales.Default;
      this.stored := stored;
      this.docLang := docLang;
      this.docDir := docDir;
    }

    /** The mount effect: a stored `en`, `id` or `ar` is adopted; the document is not
        touched and nothing is written back. */
    method Mount()
      modifies this`locale
      ensures stored.Some? && Locales.Parse(stored.value).Some? ==> locale == Locales.Parse(stored.value).value
      ensures !(stored.Some? && Locales.Parse(stored.value).Some?) ==> locale == old(locale)
    {
      if stored.Some? && stored.value != "" {
        var parsed := Locales.Parse(stored.value);
        if parsed.Some? {
          locale := parsed.value;
        }
      }
    }

    /** `setLocale`: the locale, its stored code and the document attributes change together. */
    method SetLocale(l: Locales.Locale)
      modifies this
      ensures locale == l && stored == Some(Locales.Code(l))
      ensures docLang == Locales.Code(l) && docDir == Locales.Direction(l)
      ensures docDir == "rtl" <==> l == Locales.Ar
    {
      locale := l;
      stored := Some(Locales.Code(l));
      docLang := Locales.Code(l);
      docDir := if l == Locales.Ar then "rtl" else "ltr";
    }

    method T(key: string, params: Option<seq<(string, string)>>) returns (r: string)
      ensures r == Translation(Messages(), key, params)
    {
      var found := Resolve(Messages(), key);
      match found
      case None =>
        r := key;
      case Some(s) =>
        r := if params.Some? then Substitute(s, params.value) else s;
    }
  }
}
