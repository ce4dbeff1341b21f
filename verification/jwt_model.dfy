/** The payload of a verified identity token. */
module JwtModel {
  import opened Primitives

  /** The registered claims of RFC 7519 section 4.1 as the JWT library stores them;
      instants are seconds since the epoch. */
  datatype StandardClaims = StandardClaims(
    audience: string,
    expiresAt: int,
    id: string,
    issuedAt: int,
    issuer: string,
    notBefore: int,
    subject: string
  )

  /** The account's identity claims together with the registered ones. */
  datatype Claims = Claims(userId: Uuid, username: string, role: string, standard: StandardClaims)
}
