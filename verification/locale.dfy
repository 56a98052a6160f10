/** Language tags of the localised message tables. */
module Locale {

  /** Any string can be stored as a language; only "en" and "id" have table
      entries, and every lookup falls back to English. */
  type Lang = string
  const LangEN: Lang := "en"
  const LangID: Lang := "id"

  /** A table entry holding an English and an Indonesian text. */
  function Entry(en: string, id: string): map<Lang, string>
  {
    map[LangEN := en, LangID := id]
  }
}
