/**
 * The `Authorization: Bearer <token>` header (section 2.1 of RFC 6750) as
 * both auth middlewares read it: the header must be non-empty, must start
 * with exactly "Bearer " (capital B, one space), and must leave a non-empty
 * token once that prefix is removed. Section 2.1 of RFC 7235 makes scheme
 * names case-insensitive; this reading does not.
 */
module Bearer {
  import opened Wrappers
  import opened Strings

  const Prefix: string := "Bearer "

  /** The token, or `None` for each of the three header rejections. */
  function ExtractToken(header: string): (r: Option<string>)
    ensures r.Some? ==> Prefix + r.value == header && r.value != ""
    ensures r.None? <==> header == "" || !HasPrefix(header, Prefix) || header == Prefix
  {
    if header == "" then None
    else if !HasPrefix(header, Prefix) then None
    else
      var token := TrimPrefix(header, Prefix);
      if token == "" then None else Some(token)
  }

  /** A header yields `token` exactly when it is the prefix followed by that
      non-empty token. */
  lemma ExtractTokenExactly(header: string, token: string)
    ensures ExtractToken(header) == Some(token) <==> header == Prefix + token && token != ""
  {
    if header == Prefix + token && token != "" {
      assert HasPrefix(header, Prefix) by {
        assert header[..|Prefix|] == Prefix;
      }
      assert TrimPrefix(header, Prefix) == token by {
        assert header[|Prefix|..] == token;
      }
    }
  }

  /** The scheme name is matched case-sensitively and the space is required:
      lower-case, upper-case and tab-separated forms are all rejected. */
  lemma SchemeIsCaseSensitive(token: string)
    ensures ExtractToken("bearer " + token) == None
    ensures ExtractToken("BEARER " + token) == None
    ensures ExtractToken("Bearer\t" + token) == None
  {
    assert ("bearer " + token)[0] == 'b';
    assert ("BEARER " + token)[1] == 'E';
    assert ("Bearer\t" + token)[6] == '\t';
  }

  /** Only one prefix is removed: extra spaces stay in the token. */
  lemma OnePrefixRemoved(token: string)
    requires token != ""
    ensures ExtractToken(Prefix + " " + token) == Some(" " + token)
  {
    ExtractTokenExactly(Prefix + " " + token, " " + token);
    assert Prefix + " " + token == Prefix + (" " + token);
  }
}
