/**
 * The request gate: the `Authorization: Bearer <key>` check and the admin
 * credential check behind the login route.
 */
module Auth {
  import opened JsString
  import opened Types

  /** `AuthResult`: authorized, or rejected with the message of a 401 response. */
  datatype AuthResult = Authorized | Rejected(error: string)

  const HeaderRequired: string := "Authorization header is required"
  const BadFormat: string := "Invalid authorization format. Use: Bearer <token>"
  const BadKey: string := "Invalid API key"

  /** `const [scheme, token] = header.split(' ')`: the second piece, when there is one. */
  function Token(pieces: seq<string>): Option<string> {
    if |pieces| > 1 then Some(pieces[1]) else None
  }

  /**
   * `validateApiKey`: a missing or empty header, then a scheme other than
   * `Bearer` or an absent or empty token, then a token other than the key.
   */
  function ValidateApiKey(header: Option<string>, apiKey: string): (r: AuthResult)
    ensures r == Rejected(HeaderRequired) <==> header.None? || header.value == ""
    ensures r.Rejected? ==> r.error in {HeaderRequired, BadFormat, BadKey}
    ensures r.Authorized? ==> apiKey != "" && header.Some? && Split(header.value, ' ')[0] == "Bearer"
  {
    if header.None? || header.value == "" then Rejected(HeaderRequired)
    else
      var pieces := Split(header.value, ' ');
      var token := Token(pieces);
      if pieces[0] != "Bearer" || token.None? || token.value == "" then Rejected(BadFormat)
      else if token.value != apiKey then Rejected(BadKey)
      else Authorized
  }

  /** The scheme is `Bearer` and a second piece follows exactly when the header starts with `"Bearer "`. */
  lemma BearerPrefix(h: string)
    ensures (Split(h, ' ')[0] == "Bearer" && |Split(h, ' ')| > 1) <==> "Bearer " <= h
    ensures "Bearer " <= h ==> Split(h, ' ') == ["Bearer"] + Split(h[7..], ' ')
  {
    SplitFirst(h, ' ', "Bearer");
    assert "Bearer" + [' '] == "Bearer ";
    if "Bearer " <= h {
      assert h == "Bearer" + [' '] + h[7..];
      SplitCons("Bearer", ' ', h[7..]);
    }
  }

  /**
   * A header authorizes exactly when it is `"Bearer "` followed by the key,
   * alone or followed by a space and anything at all; the key must be
   * non-empty and hold no space.
   */
  lemma AuthorizedIff(h: string, apiKey: string)
    ensures ValidateApiKey(Some(h), apiKey) == Authorized <==>
      apiKey != "" && ' ' !in apiKey && (h == "Bearer " + apiKey || "Bearer " + apiKey + " " <= h)
  {
    BearerPrefix(h);
    if "Bearer " <= h {
      var rest := h[7..];
      assert h == "Bearer " + rest;
      assert (h == "Bearer " + apiKey) <==> rest == apiKey;
      assert ("Bearer " + apiKey + " " <= h) <==> apiKey + [' '] <= rest;
      AuthorizedAfterScheme(h, apiKey);
    } else {
      assert !("Bearer " + apiKey + " " <= h) && h != "Bearer " + apiKey by {
        assert ("Bearer " + apiKey + " ")[..7] == "Bearer ";
        assert ("Bearer " + apiKey)[..7] == "Bearer ";
      }
    }
  }

  /** After `"Bearer "`, the header authorizes exactly when the rest is the key, alone or before a space. */
  lemma AuthorizedAfterScheme(h: string, apiKey: string)
    requires "Bearer " <= h && Split(h, ' ') == ["Bearer"] + Split(h[7..], ' ')
    ensures ValidateApiKey(Some(h), apiKey) == Authorized <==>
      apiKey != "" && ' ' !in apiKey && (h[7..] == apiKey || apiKey + [' '] <= h[7..])
  {
    var rest := h[7..];
    SplitFirst(rest, ' ', apiKey);
    var tail := Split(rest, ' ');
    assert Token(Split(h, ' ')) == Some(tail[0]);
    assert tail[0] == apiKey <==> tail == [apiKey] || (tail[0] == apiKey && |tail| > 1);
  }

  /** Pieces after the second are ignored: `"Bearer k extra"` is accepted. */
  lemma ExtraPiecesIgnored(apiKey: string, extra: string)
    requires apiKey != "" && ' ' !in apiKey
    ensures ValidateApiKey(Some("Bearer " + apiKey + " " + extra), apiKey) == Authorized
  {
    var h := "Bearer " + apiKey + " " + extra;
    assert "Bearer " + apiKey + " " <= h;
    AuthorizedIff(h, apiKey);
  }

  /** A doubled space leaves an empty token: `"Bearer  k"` is a format error. */
  lemma DoubleSpaceIsBadFormat(rest: string, apiKey: string)
    ensures ValidateApiKey(Some("Bearer  " + rest), apiKey) == Rejected(BadFormat)
  {
    DoubleSpacePieces(rest);
  }

  lemma DoubleSpacePieces(rest: string)
    ensures var pieces := Split("Bearer  " + rest, ' ');
      pieces[0] == "Bearer" && Token(pieces) == Some("")
  {
    var after := [' '] + rest;
    assert "Bearer  " + rest == "Bearer" + [' '] + after;
    SplitCons("Bearer", ' ', after);
    assert after == [] + [' '] + rest;
    SplitCons([], ' ', rest);
  }

  /** A well-formed header with a token other than the key is told the key is wrong. */
  lemma WrongKeyMessage(token: string, apiKey: string)
    requires token != "" && ' ' !in token && token != apiKey
    ensures ValidateApiKey(Some("Bearer " + token), apiKey) == Rejected(BadKey)
  {
    var h := "Bearer " + token;
    BearerPrefix(h);
    assert h[7..] == token;
    SplitNoSep(token, ' ');
  }

  /** `validateAdminCredentials`: both the username and the password equal the configured ones. */
  function ValidateAdminCredentials(username: string, password: string, config: Config): (ok: bool)
    ensures ok ==> username == config.adminUsername && password == config.adminPassword
    ensures username == config.adminUsername && password == config.adminPassword ==> ok
  {
    username == config.adminUsername && password == config.adminPassword
  }
}
