/** The supported interface languages (`lib/i18n.ts`). */
module Locales {
  import opened Wrappers

  datatype Locale = En | Id | Ar

  /** `locales`, in declaration order. */
  const All: seq<Locale> := [En, Id, Ar]

  const Default: Locale := En

  function Code(l: Locale): string {
    match l
    case En => "en"
    case Id => "id"
    case Ar => "ar"
  }

  /** The `["en", "id", "ar"].includes(saved)` acceptance test on a stored code. */
  function Parse(s: string): (l: Option<Locale>)
    ensures l.Some? <==> s in ["en", "id", "ar"]
  {
    if s == "en" then Some(En)
    else if s == "id" then Some(Id)
    else if s == "ar" then Some(Ar)
    else None
  }

  /** `Code` and `Parse` are inverse on the three locales, and `locales` lists each once. */
  lemma CodeRoundTrip(l: Locale, s: string)
    ensures Parse(Code(l)) == Some(l)
    ensures Parse(s) == Some(l) ==> Code(l) == s
    ensures l in All && multiset(All)[l] == 1
  {
  }

  /** `getDirection`. */
  function Direction(l: Locale): (d: string)
    ensures d == "rtl" <==> l == Ar
    ensures d == "rtl" || d == "ltr"
  {
    if l == Ar then "rtl" else "ltr"
  }

  /** `getLocaleDisplayName`: total over the three locales. */
  function DisplayName(l: Locale): (name: string)
    ensures name != ""
  {
    match l
    case En => "English"
    case Id => "Bahasa Indonesia"
    case Ar => "العربية"
  }

  /** Different locales are shown under different names. */
  lemma DisplayNamesDistinct(a: Locale, b: Locale)
    ensures DisplayName(a) == DisplayName(b) ==> a == b
  {
  }
}
