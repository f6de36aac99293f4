/** `lib/i18n.tsx`: the `I18nProvider` state (language, stored choice, document
    attributes kept in step by an effect) and its `t`, which rewrites every
    `{{word}}` placeholder in one left-to-right pass. */
module I18nProvider {
  import opened Wrappers
  import Text
  import Locales
  import opened Messages

  /** A param value: a string or an integer (`string | number`). */
  datatype Param = Str(s: string) | Num(n: int)

  /** `toString()`. */
  function ParamText(p: Param): string {
    match p
    case Str(s) => s
    case Num(n) => Text.IntToString(n)
  }

  /** `\w`: an ASCII letter, digit or underscore. */
  predicate IsWordChar(c: char) {
    'a' <= c <= 'z' || 'A' <= c <= 'Z' || '0' <= c <= '9' || c == '_'
  }

  /** The length of the run of word characters `s` starts with. */
  function WordRun(s: string): (n: nat)
    ensures n <= |s|
    ensures forall i :: 0 <= i < n ==> IsWordChar(s[i])
    ensures n < |s| ==> !IsWordChar(s[n])
  {
    if s != [] && IsWordChar(s[0]) then 1 + WordRun(s[1..]) else 0
  }

  /** The length of the name when `s` starts with a match of `\{\{(\w+)\}\}`. */
  function PlaceholderAt(s: string): (n: Option<nat>)
    ensures n.Some? ==> 1 <= n.value && n.value + 4 <= |s|
  {
    if |s| >= 2 && s[0] == '{' && s[1] == '{' then
      var n := WordRun(s[2..]);
      if n > 0 && n + 4 <= |s| && s[n + 2] == '}' && s[n + 3] == '}' then Some(n) else None
    else None
  }

  /** The callback: the param's text, or the placeholder itself when the param is
      missing or its text is empty. */
  function Render(name: string, params: map<string, Param>, matched: string): string {
    if name in params && ParamText(params[name]) != "" then ParamText(params[name]) else matched
  }

  /** `value.replace(/\{\{(\w+)\}\}/g, ...)`: a match is replaced and the scan goes on
      after it; elsewhere one character is kept and the scan moves on. */
  function Interpolate(s: string, params: map<string, Param>): string
    decreases |s|
  {
    if s == [] then []
    else match PlaceholderAt(s)
      case Some(n) => Render(s[2..n + 2], params, s[..n + 4]) + Interpolate(s[n + 4..], params)
      case None => [s[0]] + Interpolate(s[1..], params)
  }

  /** Text without `{{` passes through unchanged; single-brace `{x}` is never touched. */
  lemma {:induction false} NoPlaceholderUnchanged(s: string, params: map<string, Param>)
    requires forall i :: 0 <= i < |s| - 1 ==> !(s[i] == '{' && s[i + 1] == '{')
    ensures Interpolate(s, params) == s
    decreases |s|
  {
    if s != [] {
      assert PlaceholderAt(s).None? by {
        if |s| >= 2 {
          assert !(s[0] == '{' && s[1] == '{');
        }
      }
      NoPlaceholderUnchanged(s[1..], params);
      assert s == [s[0]] + s[1..];
    }
  }

  /** With no params, every placeholder is left verbatim. */
  lemma {:induction false} EmptyParamsUnchanged(s: string)
    ensures Interpolate(s, map[]) == s
    decreases |s|
  {
    if s != [] {
      match PlaceholderAt(s)
      case Some(n) =>
        EmptyParamsUnchanged(s[n + 4..]);
        assert s == s[..n + 4] + s[n + 4..];
      case None =>
        EmptyParamsUnchanged(s[1..]);
        assert s == [s[0]] + s[1..];
    }
  }

  /** A placeholder at the front becomes its param's text, and the scan resumes after
      it: the inserted text is not scanned again. */
  lemma PlaceholderReplaced(name: string, rest: string, params: map<string, Param>)
    requires name != [] && forall i :: 0 <= i < |name| ==> IsWordChar(name[i])
    ensures var s := "{{" + name + "}}" + rest;
            Interpolate(s, params) == Render(name, params, "{{" + name + "}}") + Interpolate(rest, params)
  {
    var s := "{{" + name + "}}" + rest;
    var n := |name|;
    assert s[2..][..n] == name;
    WordRunOf(s[2..], n);
    assert s[n + 2] == '}';
    assert s[2..n + 2] == name && s[..n + 4] == "{{" + name + "}}" && s[n + 4..] == rest;
  }

  lemma {:induction false} WordRunOf(s: string, n: nat)
    requires n < |s| && !IsWordChar(s[n])
    requires forall i :: 0 <= i < n ==> IsWordChar(s[i])
    ensures WordRun(s) == n
    decreases n
  {
    if n > 0 {
      WordRunOf(s[1..], n - 1);
    }
  }

  /** Replacement text is not rescanned: a param value that itself looks like a
      placeholder is inserted as it is. */
  lemma NoRescan()
    ensures Interpolate("{{a}}", map["a" := Str("{{b}}"), "b" := Str("x")]) == "{{b}}"
  {
    var params := map["a" := Str("{{b}}"), "b" := Str("x")];
    PlaceholderReplaced("a", "", params);
    assert "{{" + "a" + "}}" + "" == "{{a}}";
    assert Render("a", params, "{{a}}") == "{{b}}";
  }

  /** What `t(key, params)` returns. */
  function Translation(messages: Message, key: string, params: Option<map<string, Param>>): string {
    match Found(messages, key)
    case None => key
    case Some(s) => if params.Some? then Interpolate(s, params.value) else s
  }

  // ---------------------------------------------------------------------------
  // provider

  class Provider {
    /** The `translations` catalogues. */
    const catalog: Locales.Locale -> Message
    var language: Locales.Locale
    /** `localStorage["language"]`. */
    var stored: Option<string>
    var docDir: string
    var docLang: string

    /** What the `[language]` effect establishes. */
    predicate Synced()
      reads this
    {
      stored == Some(Locales.Code(language)) && docDir == Locales.Direction(language) &&
      docLang == Locales.Code(language)
    }

    /** `isRTL`. */
    function IsRtl(): (rtl: bool)
      reads this
      ensures rtl <==> language == Locales.Ar
      ensures Synced() ==> (rtl <==> docDir == "rtl")
    {
      language == Locales.Ar
    }

    constructor (catalog: Locales.Locale -> Message, stored: Option<string>, docDir: string, docLang: string)
      ensures this.catalog == catalog && language == Locales.En
      ensures this.stored == stored && this.docDir == docDir && this.docLang == docLang
    {
      this.catalog := catalog;
      language := Locales.En;
      this.stored := stored;
      this.docDir := docDir;
      this.docLang := docLang;
    }

    /** The `[language]` effect: stores the language and sets the document attributes. */
    method Sync()
      modifies this`stored, this`docDir, this`docLang
      ensures Synced()
    {
      stored := Some(Locales.Code(language));
      docDir := if language == Locales.Ar then "rtl" else "ltr";
      docLang := Locales.Code(language);
    }

    /** Mounting: the effects run in order, so `en` is written first; then a saved
        `en`, `id` or `ar` is adopted and the effect runs again for it. */
    method Mount()
      modifies this
      ensures var saved := old(stored);
              language == if saved.Some? && Locales.Parse(saved.value).Some? then Locales.Parse(saved.value).value
                          else old(language)
      ensures Synced()
    {
      var saved := stored;
      Sync();
      if saved.Some? && saved.value != "" {
        var parsed := Locales.Parse(saved.value);
        if parsed.Some? {
          language := parsed.value;
          Sync();
        }
      }
    }

    /** `setLanguage`, followed by the effect it triggers. */
    method SetLanguage(l: Locales.Locale)
      modifies this
      ensures language == l && Synced()
    {
      language := l;
      Sync();
    }

    method T(key: string, params: Option<map<string, Param>>) returns (r: string)
      ensures r == Translation(catalog(language), key, params)
    {
      var found := Resolve(catalog(language), key);
      match found
      case None =>
        r := key;
      case Some(s) =>
        r := if params.Some? then Interpolate(s, params.value) else s;
    }
  }
}
