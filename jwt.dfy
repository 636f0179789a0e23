/** An idealised model of the signed tokens (JSON Web Tokens, RFC 7519) that the
    jsonwebtoken library issues and checks. Signatures are perfect: a token verifies
    under a key exactly when it was signed with that key. */
module Jwt {
  import opened Optional

  /** The payload claims the core reads: the user id, and for access tokens the
      email and role. */
  datatype Claims = Claims(id: int, email: Option<string>, role: Option<string>)

  /** A token as issued by `jwt.sign` (algorithm, claims, signing key, issue time and
      expiry time in seconds), or any other text presented as a token. */
  datatype Token =
    | Signed(alg: string, claims: Claims, key: string, iat: int, exp: int)
    | Malformed(text: string)

  /** What `jwt.verify` reports: the decoded claims, a `TokenExpiredError`, or any
      other error (bad signature, algorithm not allowed, not a token at all). */
  datatype Verification = Valid(claims: Claims) | Expired | Invalid

  /** `expiresIn: "15m"` and `expiresIn: "7d"`, in seconds. */
  const ACCESS_LIFETIME: int := 900
  const REFRESH_LIFETIME: int := 604800

  /** `jwt.sign` signs with HS256 unless told otherwise. */
  const SIGNING_ALGORITHM: string := "HS256"

  /** The algorithms `jwt.verify` admits for a shared secret when the caller names none. */
  const HMAC_ALGORITHMS: seq<string> := ["HS256", "HS384", "HS512"]

  /** `jwt.sign(claims, key, { expiresIn })` at time `now`: the token verifies to its
      claims under its key, wherever HS256 is admitted, until `lifetime` seconds have
      passed and is expired from then on; under any other key it is refused. */
  function Sign(claims: Claims, key: string, lifetime: int, now: int): (t: Token)
    ensures forall algs, later :: SIGNING_ALGORITHM in algs ==>
      Verify(t, key, algs, later) == if later < now + lifetime then Valid(claims) else Expired
    ensures forall algs, later :: SIGNING_ALGORITHM !in algs ==> Verify(t, key, algs, later) == Invalid
    ensures forall key', algs, later :: key' != key ==> Verify(t, key', algs, later) == Invalid
  {
    Signed(SIGNING_ALGORITHM, claims, key, now, now + lifetime)
  }

  /** `jwt.verify(token, key, { algorithms })` at time `now`: the signature and the
      algorithm are checked first; then the token is expired once `now` reaches its
      `exp` claim (section 4.1.4 of RFC 7519). */
  function Verify(t: Token, key: string, algorithms: seq<string>, now: int): (v: Verification)
    ensures v.Valid? <==> t.Signed? && t.key == key && t.alg in algorithms && now < t.exp
    ensures v.Valid? ==> v.claims == t.claims
    ensures v.Expired? <==> t.Signed? && t.key == key && t.alg in algorithms && t.exp <= now
  {
    match t
    case Malformed(_) => Invalid
    case Signed(alg, claims, signer, _, exp) =>
      if alg !in algorithms || signer != key then Invalid
      else if now >= exp then Expired
      else Valid(claims)
  }
}
