/**
 * The language middleware: it reads `Accept-Language`, picks Indonesian or
 * English, and stores the choice in both the gin context and the request
 * context, from which handlers and usecases read it back. The gateway's copy
 * is identical up to the package the `Lang` type lives in.
 */
module Language {
  import opened Locale
  import opened RequestContext

  const LangKey: string := "lang"

  /** Exactly "id" and "ID" select Indonesian; every other header value,
      the empty (missing) header included, selects English. */
  function SelectLang(header: string): (l: Lang)
    ensures l == LangID <==> header == "id" || header == "ID"
    ensures l == LangEN <==> !(header == "id" || header == "ID")
  {
    if header == "id" || header == "ID" then LangID else LangEN
  }

  /** Stores the selected language under `LangKey` in both stores. */
  function LanguageMiddleware(c: Gin, header: string): (d: Gin)
    ensures d.keys.Keys == c.keys.Keys + {LangKey}
    ensures d.request.Keys == c.request.Keys + {LangKey}
    ensures d.keys[LangKey] == d.request[LangKey]
    ensures forall k :: k in c.keys && k != LangKey ==> d.keys[k] == c.keys[k]
    ensures forall k :: k in c.request && k != LangKey ==> d.request[k] == c.request[k]
  {
    var v := LangValue(SelectLang(header));
    Gin(c.keys[LangKey := v], c.request[LangKey := v])
  }

  /** `ctx.Value(LangKey).(constants.Lang)`, defaulting to English when the
      value is missing or of another type. */
  function GetLangFromContext(request: Store): (l: Lang)
    ensures LangKey in request && request[LangKey].LangValue? ==> l == request[LangKey].lang
    ensures LangKey !in request || !request[LangKey].LangValue? ==> l == LangEN
  {
    if LangKey in request && request[LangKey].LangValue? then request[LangKey].lang else LangEN
  }

  /** `c.Get(LangKey)` asserted to `constants.Lang`, with the same default. */
  function GetLangFromGin(c: Gin): (l: Lang)
    ensures LangKey in c.keys && c.keys[LangKey].LangValue? ==> l == c.keys[LangKey].lang
    ensures LangKey !in c.keys || !c.keys[LangKey].LangValue? ==> l == LangEN
  {
    if LangKey in c.keys && c.keys[LangKey].LangValue? then c.keys[LangKey].lang else LangEN
  }

  /** After the middleware both getters return the language the header
      selected, whatever the stores held before. */
  lemma MiddlewareThenGetters(c: Gin, header: string)
    ensures GetLangFromGin(LanguageMiddleware(c, header)) == SelectLang(header)
    ensures GetLangFromContext(LanguageMiddleware(c, header).request) == SelectLang(header)
  {
  }

  /** The match is exact: other casings and regional or weighted values fall
      back to English. */
  lemma SelectionIsExact()
    ensures SelectLang("Id") == LangEN && SelectLang("iD") == LangEN
    ensures SelectLang("id-ID") == LangEN && SelectLang("id;q=0.9") == LangEN
    ensures SelectLang("") == LangEN && SelectLang("en") == LangEN
  {
  }

  /** A plain string stored under the key is not a `Lang` and reads as English. */
  lemma UntypedValueReadsEnglish(request: Store)
    requires LangKey in request && request[LangKey] == Text("id")
    ensures GetLangFromContext(request) == LangEN
  {
  }
}
