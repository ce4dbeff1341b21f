/** The bearer gate in front of the protected routes: it slices the token out of
    the Authorization header, has the JWT library verify it, and either answers
    401 itself or calls the downstream handler with the verified claims in the
    request context. The JWT library is an oracle: `parse` is its verdict on a
    token string. */
module JwtMiddleware {
  import opened Failure
  import opened JwtModel

  /** The JWT library's verdict on a token string: a parse error (malformed,
      bad signature, expired), or the parsed token with its claims (None when
      they are not of the account's claims type) and its validity flag. */
  datatype Parsed = ParseError(msg: string) | ParsedToken(claims: Option<Claims>, valid: bool)

  /** A Go string: a sequence of bytes, whatever encoding they hold. Header
      values and token strings are sliced and compared byte by byte. */
  type Bytes = seq<bv8>

  /** Claims only for a token that parses into the account's claims type and is
      valid; in every other case an error and no claims. */
  function ValidateJwt(token: Bytes, parse: Bytes -> Parsed): (r: Result<Option<Claims>>)
    ensures r.Ok? <==> parse(token).ParsedToken? && parse(token).claims.Some? && parse(token).valid
    ensures r.Ok? ==> r.value == parse(token).claims
    ensures r.Fail? ==> r.value.None? && r.err.Internal?
  {
    match parse(token)
    case ParseError(msg) => Fail(None, Internal("JWT validation failed: " + msg))
    case ParsedToken(claims, valid) =>
      if claims.Some? && valid then Ok(claims) else Fail(None, Internal("JWT is not valid"))
  }

  /** The authentication scheme of section 2.1 of RFC 6750 with its separating
      space, "Bearer ", as its seven ASCII bytes. */
  const BearerPrefix: Bytes := [0x42, 0x65, 0x61, 0x72, 0x65, 0x72, 0x20]

  /** The token is the header minus its first |BearerPrefix| bytes, whatever
      they are. A shorter header (a missing one reads as empty) is out of range
      for the slice: None. */
  function ExtractToken(header: Bytes): (r: Option<Bytes>)
    ensures r.Some? <==> |header| >= |BearerPrefix|
    ensures r.Some? ==> header == header[..|BearerPrefix|] + r.value
  {
    if |header| < |BearerPrefix| then None
    else
      assert header == header[..|BearerPrefix|] + header[|BearerPrefix|..];
      Some(header[|BearerPrefix|..])
  }

  /** A request-context key. Go compares context keys by dynamic type and value,
      so a plain string key and a `ClaimsKey` with the same text are different keys. */
  datatype Key = StringKey(text: string) | ClaimsKey(text: string)

  /** The key the gate stores the verified claims under. */
  const ClaimsContextKey: Key := ClaimsKey("claims")

  /** The values a request context carries, by key. */
  type Context = map<Key, Claims>

  const StatusUnauthorized: int := 401

  datatype Rejection = EmptyToken | InvalidToken

  /** What the gate does with a request: panic on the slice, answer 401 itself
      without calling the downstream handler, or call the downstream handler
      once with the extended context. */
  datatype Outcome =
    | SlicePanic
    | Rejected(status: int, body: string, reason: Rejection)
    | Forwarded(ctx: Context)

  /** The gate on one request, given the Authorization header and the request's context. */
  function Gate(header: Bytes, ctx: Context, parse: Bytes -> Parsed): (o: Outcome)
    ensures o.SlicePanic? <==> |header| < |BearerPrefix|
    ensures |header| == |BearerPrefix| ==> o == Rejected(StatusUnauthorized, "Unauthorized", EmptyToken)
    ensures |header| > |BearerPrefix| ==>
      (o.Forwarded? <==> ValidateJwt(header[|BearerPrefix|..], parse).Ok?)
    ensures |header| > |BearerPrefix| && !o.Forwarded? ==>
      o == Rejected(StatusUnauthorized, "Unauthorized", InvalidToken)
    ensures o.Forwarded? ==>
      && parse(header[|BearerPrefix|..]).ParsedToken?
      && parse(header[|BearerPrefix|..]).claims.Some?
      && o.ctx == ctx[ClaimsContextKey := parse(header[|BearerPrefix|..]).claims.value]
  {
    match ExtractToken(header)
    case None => SlicePanic
    case Some(token) =>
      if token == [] then Rejected(StatusUnauthorized, "Unauthorized", EmptyToken)
      else
        var verdict := ValidateJwt(token, parse);
        if verdict.Fail? then Rejected(StatusUnauthorized, "Unauthorized", InvalidToken)
        else Forwarded(ctx[ClaimsContextKey := verdict.value.value])
  }

  /** A well-formed bearer header yields exactly its token. */
  lemma BearerHeaderYieldsToken(token: Bytes)
    ensures ExtractToken(BearerPrefix + token) == Some(token)
  {
  }

  /** The scheme name is never checked: any seven bytes in front of the token
      lead to the same outcome. */
  lemma SchemeNeverChecked(p: Bytes, q: Bytes, token: Bytes, ctx: Context, parse: Bytes -> Parsed)
    requires |p| == |q| == |BearerPrefix|
    ensures Gate(p + token, ctx, parse) == Gate(q + token, ctx, parse)
  {
  }

  /** A request without an Authorization header never reaches the 401 answer:
      the slice fails first. */
  lemma MissingHeaderPanics(ctx: Context, parse: Bytes -> Parsed)
    ensures Gate([], ctx, parse) == SlicePanic
  {
  }
}
