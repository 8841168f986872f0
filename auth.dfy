/** The check every admin route runs first: a bearer token taken from the `Authorization` header
    (section 2.1 of RFC 6750) and handed to a verifier. Token signatures are not modelled: the
    verifier is a parameter. */
module Auth {
  import opened Text
  import opened JsValues
  import opened Records

  /** `authHeader && authHeader.split(' ')[1]`: the second space-separated piece, when there is one. */
  function BearerToken(header: Option<string>): Option<string> {
    if header.Some? && |Split(header.value, ' ')| >= 2 then Some(Split(header.value, ' ')[1]) else None
  }

  /** 401 without a token (absent header, header without a space, or an empty piece), 403 when the
      verifier rejects the token, otherwise the token. */
  function Authenticate(header: Option<string>, verify: string -> bool): (r: Reply<string>)
    ensures r.Fail? ==> r.status == 401 || r.status == 403
    ensures r.Ok? ==> r.value != "" && verify(r.value) && ' ' !in r.value
    ensures header.None? ==> r == Fail(401, "Access token required")
    ensures r == Fail(403, "Invalid or expired token") <==> BearerToken(header).Some? && BearerToken(header).value != "" && !verify(BearerToken(header).value)
  {
    var token := BearerToken(header);
    if token.None? || token.value == "" then Fail(401, "Access token required")
    else if !verify(token.value) then Fail(403, "Invalid or expired token")
    else Ok(token.value)
  }

  /** The header the admin pages send, `Bearer <token>`, yields the token back. */
  lemma BearerRoundTrip(scheme: string, token: string, verify: string -> bool)
    requires ' ' !in scheme && ' ' !in token && token != "" && verify(token)
    ensures Authenticate(Some(scheme + " " + token), verify) == Ok(token)
  {
    SplitAfterPiece(scheme, ' ', token);
    assert scheme + " " + token == scheme + [' '] + token;
    assert Split(token, ' ') == [token];
  }
}
