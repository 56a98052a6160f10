/**
 * Field-level validation helpers of the gateway: the localised validation
 * message table, byte-length checks and the e-mail recogniser defined by the
 * pattern `^[a-zA-Z0-9._%+-]+@[a-zA-Z0-9.-]+\.[a-zA-Z]{2,}$`.
 */
module Validation {
  import opened Wrappers
  import opened Locale
  import opened Strings

  type ValidationCode = int
  const Required: ValidationCode := 0
  const InvalidFormat: ValidationCode := 1
  const TooShort: ValidationCode := 2
  const TooLong: ValidationCode := 3
  const InvalidEmail: ValidationCode := 4
  const PasswordTooShort: ValidationCode := 5
  const UsernameTooShort: ValidationCode := 6
  const UsernameTooLong: ValidationCode := 7

  predicate Declared(code: ValidationCode) { Required <= code <= UsernameTooLong }

  /** The message templates: `None` for a code without an entry. */
  function ValidationMessages(code: ValidationCode): Option<map<Lang, string>>
  {
    if code == Required then Some(Entry("%s is required", "%s wajib diisi"))
    else if code == InvalidFormat then Some(Entry("%s format is invalid", "format %s tidak valid"))
    else if code == TooShort then
      Some(Entry("%s is too short (minimum %d characters)", "%s terlalu pendek (minimal %d karakter)"))
    else if code == TooLong then
      Some(Entry("%s is too long (maximum %d characters)", "%s terlalu panjang (maksimal %d karakter)"))
    else if code == InvalidEmail then Some(Entry("invalid email format", "format email tidak valid"))
    else if code == PasswordTooShort then
      Some(Entry("password must be at least %d characters", "password minimal %d karakter"))
    else if code == UsernameTooShort then
      Some(Entry("username must be at least %d characters", "username minimal %d karakter"))
    else if code == UsernameTooLong then
      Some(Entry("username must be at most %d characters", "username maksimal %d karakter"))
    else None
  }

  const GenericValidationError: string := "validation error"

  /** `GetValidationMessage`: requested language, else English, else the
      generic "validation error". */
  function GetValidationMessage(code: ValidationCode, lang: Lang): (msg: string)
    ensures ValidationMessages(code).Some? && lang in ValidationMessages(code).value
            ==> msg == ValidationMessages(code).value[lang]
    ensures ValidationMessages(code).Some? && lang !in ValidationMessages(code).value
            ==> msg == ValidationMessages(code).value[LangEN]
    ensures ValidationMessages(code).None? ==> msg == GenericValidationError
  {
    if ValidationMessages(code).Some? then
      var msgs := ValidationMessages(code).value;
      if lang in msgs then msgs[lang]
      else if LangEN in msgs then msgs[LangEN]
      else GenericValidationError
    else GenericValidationError
  }

  /** Every declared code has an English template, so a declared code never
      reads the generic text and any language but "id" reads English. */
  lemma DeclaredCodesHaveEnglish(code: ValidationCode, lang: Lang)
    requires Declared(code)
    ensures ValidationMessages(code).Some? && LangEN in ValidationMessages(code).value
    ensures GetValidationMessage(code, lang) != GenericValidationError
    ensures lang != LangID ==> GetValidationMessage(code, lang) == GetValidationMessage(code, LangEN)
  {
  }

  /** A message as the validators build it: a template filled with one
      argument by `fmt.Sprintf`, or a text used as it is. */
  datatype Arg = StrArg(s: string) | IntArg(n: int)
  datatype Message = Formatted(template: string, arg: Arg) | Raw(text: string)

  /** The number of bytes `c` takes in UTF-8, the encoding of Go strings. */
  function Utf8Width(c: char): nat
  {
    if c as int < 0x80 then 1
    else if c as int < 0x800 then 2
    else if c as int < 0x1_0000 then 3
    else 4
  }

  /** Go's `len(s)`: the byte length of the UTF-8 encoding of `s`. */
  function ByteLen(s: string): (n: nat)
    ensures n >= |s|
  {
    if |s| == 0 then 0 else ByteLen(s[..|s| - 1]) + Utf8Width(s[|s| - 1])
  }

  predicate IsAscii(s: string) { forall i :: 0 <= i < |s| ==> s[i] as int < 0x80 }

  /** On ASCII text bytes and characters coincide. */
  lemma {:induction false} AsciiByteLen(s: string)
    requires IsAscii(s)
    ensures ByteLen(s) == |s|
  {
    if |s| > 0 {
      AsciiByteLen(s[..|s| - 1]);
    }
  }

  function IsNotEmpty(s: string): (b: bool)
    ensures b <==> |s| > 0
  {
    s != ""
  }

  function MinLength(s: string, min: int): (b: bool)
    ensures b <==> ByteLen(s) >= min
  {
    ByteLen(s) >= min
  }

  function MaxLength(s: string, max: int): (b: bool)
    ensures b <==> ByteLen(s) <= max
  {
    ByteLen(s) <= max
  }

  // ---- e-mail recogniser -------------------------------------------------

  predicate Letter(c: char) { 'a' <= c <= 'z' || 'A' <= c <= 'Z' }
  predicate Alnum(c: char) { Letter(c) || '0' <= c <= '9' }
  /** `[a-zA-Z0-9._%+-]` */
  predicate LocalChar(c: char) { Alnum(c) || c == '.' || c == '_' || c == '%' || c == '+' || c == '-' }
  /** `[a-zA-Z0-9.-]` */
  predicate DomainChar(c: char) { Alnum(c) || c == '.' || c == '-' }

  /** `s` splits as local "@" domain "." tld at positions `at` and `dot`,
      with a non-empty local part, a non-empty domain and a tld of two or more
      letters. */
  predicate EmailSplit(s: string, at: int, dot: int)
  {
    && 0 < at && at + 1 < dot && dot + 3 <= |s|
    && s[at] == '@' && s[dot] == '.'
    && (forall k :: 0 <= k < at ==> LocalChar(s[k]))
    && (forall k :: at < k < dot ==> DomainChar(s[k]))
    && (forall k :: dot < k < |s| ==> Letter(s[k]))
  }

  /** The language of the anchored pattern: some split exists. */
  ghost predicate MatchesEmailPattern(s: string)
  {
    exists at, dot :: EmailSplit(s, at, dot)
  }

  /** `IsValidEmail`: since neither character class admits '@' and the tld
      admits no '.', the only candidate split is at the first '@' and the
      last '.'. */
  function IsValidEmail(s: string): (r: bool)
    ensures r ==> MatchesEmailPattern(s)
  {
    match (IndexOf(s, '@'), LastIndexOf(s, '.'))
    case (Some(at), Some(dot)) => EmailSplit(s, at, dot)
    case _ => false
  }

  lemma IsValidEmailMatchesPattern(s: string)
    ensures IsValidEmail(s) <==> MatchesEmailPattern(s)
  {
    if MatchesEmailPattern(s) {
      var at, dot :| EmailSplit(s, at, dot);
      var i := IndexOf(s, '@');
      var j := LastIndexOf(s, '.');
      assert i == Some(at);
      assert j == Some(dot);
    }
  }

  /** A valid e-mail address contains exactly one '@'. */
  lemma ValidEmailHasOneAt(s: string)
    requires IsValidEmail(s)
    ensures multiset(s)['@'] == 1
  {
    var at := IndexOf(s, '@').value;
    var dot := LastIndexOf(s, '.').value;
    assert s == s[..at] + [s[at]] + s[at + 1..];
    assert '@' !in s[..at] by {
      forall k | 0 <= k < at ensures s[..at][k] != '@' {
        assert LocalChar(s[k]);
      }
    }
    assert '@' !in s[at + 1..] by {
      forall m | at < m < |s| ensures s[m] != '@' {
        if m < dot { assert DomainChar(s[m]); }
        else if m > dot { assert Letter(s[m]); }
      }
    }
    assert multiset(s) == multiset(s[..at]) + multiset{'@'} + multiset(s[at + 1..]);
  }
}
