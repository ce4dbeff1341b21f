/** How the protected handlers read the claims the bearer gate put in the
    request context. Only the claims lookup of the Validate handler is modelled;
    the JSON plumbing is not. */
module Handlers {
  import opened Failure
  import opened JwtModel
  import opened JwtMiddleware

  const StatusOK: int := 200

  /** A handler's answer: the claims as a JSON body, or an error text. */
  datatype Reply = ClaimsReply(status: int, claims: Claims) | ErrorReply(status: int, text: string)

  /** The claims lookup as the handlers write it: under the untyped string key "claims". */
  function ClaimsAsWritten(ctx: Context): (r: Option<Claims>)
    ensures r.Some? <==> StringKey("claims") in ctx
    ensures r.Some? ==> r.value == ctx[StringKey("claims")]
  {
    if StringKey("claims") in ctx then Some(ctx[StringKey("claims")]) else None
  }

  /** The claims lookup under the key the gate stores them under. */
  function ClaimsFromContext(ctx: Context): (r: Option<Claims>)
    ensures r.Some? <==> ClaimsContextKey in ctx
    ensures r.Some? ==> r.value == ctx[ClaimsContextKey]
  {
    if ClaimsContextKey in ctx then Some(ctx[ClaimsContextKey]) else None
  }

  /** The Validate handler as written: echoes the claims found under the string key. */
  function ValidateAsWritten(ctx: Context): (r: Reply)
    ensures r.ClaimsReply? <==> StringKey("claims") in ctx
    ensures r.ClaimsReply? ==> r == ClaimsReply(StatusOK, ctx[StringKey("claims")])
    ensures r.ErrorReply? ==> r == ErrorReply(StatusUnauthorized, "Error Claims")
  {
    match ClaimsAsWritten(ctx)
    case None => ErrorReply(StatusUnauthorized, "Error Claims")
    case Some(c) => ClaimsReply(StatusOK, c)
  }

  /** The Validate handler reading the gate's key: echoes the verified claims. */
  function Validate(ctx: Context): (r: Reply)
    ensures r.ClaimsReply? <==> ClaimsContextKey in ctx
    ensures r.ClaimsReply? ==> r == ClaimsReply(StatusOK, ctx[ClaimsContextKey])
    ensures r.ErrorReply? ==> r == ErrorReply(StatusUnauthorized, "Error Claims")
  {
    match ClaimsFromContext(ctx)
    case None => ErrorReply(StatusUnauthorized, "Error Claims")
    case Some(c) => ClaimsReply(StatusOK, c)
  }

  /** As written, a request the gate let through with verified claims is still
      refused by the handler: the string key "claims" is not the gate's key. */
  lemma AsWrittenRefusesVerifiedRequest(header: Bytes, ctx: Context, parse: Bytes -> Parsed)
    requires StringKey("claims") !in ctx
    requires Gate(header, ctx, parse).Forwarded?
    ensures ValidateAsWritten(Gate(header, ctx, parse).ctx) == ErrorReply(StatusUnauthorized, "Error Claims")
  {
  }

  /** Reading the gate's key, the handler answers with exactly the claims the gate verified. */
  lemma ValidateEchoesVerifiedClaims(header: Bytes, ctx: Context, parse: Bytes -> Parsed)
    requires Gate(header, ctx, parse).Forwarded?
    ensures |header| > |BearerPrefix|
    ensures Validate(Gate(header, ctx, parse).ctx)
         == ClaimsReply(StatusOK, parse(header[|BearerPrefix|..]).claims.value)
  {
  }
}
