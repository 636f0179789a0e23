/** middleware/auth.js: the access-token gate in front of protected routes and the
    role allow-list check. */
module AccessGuard {
  import opened Optional
  import opened Text
  import opened Jwt

  /** `authenticateToken` admits HS256 only. */
  const ACCESS_ALGORITHMS: seq<string> := ["HS256"]

  /** What a middleware does with the request: pass it on with `next()`, or end it with
      `res.sendStatus(status)`. One value, so never both. */
  datatype Continuation = Next | SendStatus(status: nat)

  /** The part of an Express request the middleware reads and writes. */
  class Request {
    const authorization: Option<string>
    var user: Option<Claims>

    constructor (authorization: Option<string>)
      ensures this.authorization == authorization && user == None
    {
      this.authorization := authorization;
      user := None;
    }
  }

  /** `authHeader && authHeader.split(" ")[1]`: the second space-separated field of the
      header, whatever the first field says. `None` stands for `undefined` and for the
      falsy empty header. */
  function ExtractToken(header: Option<string>): (token: Option<string>)
    ensures token.Some? <==> header.Some? && ' ' in header.value
    ensures token.Some? ==> ' ' !in token.value
  {
    if header.None? || header.value == [] then None
    else
      var fields := Split(header.value, ' ');
      if |fields| < 2 then None else Some(fields[1])
  }

  /** The scheme word is never checked: any space-free first field followed by a space
      and the token yields the token, with or without further fields. */
  lemma {:induction false} AnySchemeWord(scheme: string, token: string, rest: string)
    requires ' ' !in scheme && ' ' !in token
    requires rest == [] || rest[0] == ' '
    ensures ExtractToken(Some(scheme + " " + token + rest)) == Some(token)
  {
    var h := scheme + " " + token + rest;
    assert h == scheme + [' '] + (token + rest);
    SplitAfterField(scheme, ' ', token + rest);
    SplitFirstField(token, ' ', rest);
  }

  /** How the gate decides: no usable token, a token that fails verification, or the
      verified claims. */
  datatype AuthResult = Unauthenticated | Forbidden | Authenticated(user: Claims)

  /** A token is usable when it is present and non-empty (`if (!token)`): the header is
      given, has a space, and its second space-separated field is not empty. */
  predicate HasToken(header: Option<string>): (b: bool)
    ensures b <==> header.Some? && ' ' in header.value && Split(header.value, ' ')[1] != ""
  {
    var t := ExtractToken(header);
    t.Some? && t.value != ""
  }

  /** The decision of `authenticateToken`. `decode` reads the token text (the wire
      format, left abstract) and `secret` is the access-token secret. */
  function Authenticate(header: Option<string>, decode: string -> Token, secret: string, now: int): (r: AuthResult)
    ensures r.Unauthenticated? <==> !HasToken(header)
    ensures r.Authenticated? <==>
      HasToken(header) && Verify(decode(ExtractToken(header).value), secret, ACCESS_ALGORITHMS, now).Valid?
    ensures r.Authenticated? ==> r.user == Verify(decode(ExtractToken(header).value), secret, ACCESS_ALGORITHMS, now).claims
  {
    var token := ExtractToken(header);
    if token.None? || token.value == "" then Unauthenticated
    else match Verify(decode(token.value), secret, ACCESS_ALGORITHMS, now)
      case Valid(claims) => Authenticated(claims)
      case _ => Forbidden
  }

  /** No header, a header without a space, and an empty second field (two spaces in a
      row) all count as no token. */
  lemma NoTokenCases(decode: string -> Token, secret: string, now: int)
    ensures Authenticate(None, decode, secret, now) == Unauthenticated
    ensures Authenticate(Some("Bearer"), decode, secret, now) == Unauthenticated
    ensures Authenticate(Some("Bearer  abc"), decode, secret, now) == Unauthenticated
  {
    AnySchemeWord("Bearer", "", " abc");
    assert "Bearer" + " " + "" + " abc" == "Bearer  abc";
  }

  /** An access token signed with another algorithm than HS256 is refused (403), even
      when its key is right and it has not expired. */
  lemma OtherAlgorithmForbidden(header: Option<string>, decode: string -> Token, secret: string, now: int)
    requires HasToken(header)
    requires decode(ExtractToken(header).value).Signed?
    requires decode(ExtractToken(header).value).alg != "HS256"
    ensures Authenticate(header, decode, secret, now) == Forbidden
  {
  }

  /** `authenticateToken`: 401 without a usable token, 403 when verification fails
      (`req.user` untouched), otherwise `req.user` becomes the decoded claims and the
      request goes on. */
  method AuthenticateToken(req: Request, decode: string -> Token, secret: string, now: int) returns (c: Continuation)
    modifies req`user
    ensures c == Next <==> Authenticate(req.authorization, decode, secret, now).Authenticated?
    ensures c == SendStatus(401) <==> Authenticate(req.authorization, decode, secret, now).Unauthenticated?
    ensures c == SendStatus(403) <==> Authenticate(req.authorization, decode, secret, now).Forbidden?
    ensures c == Next ==> req.user == Some(Authenticate(req.authorization, decode, secret, now).user)
    ensures c != Next ==> req.user == old(req.user)
  {
    var token := ExtractToken(req.authorization);
    if token.None? || token.value == "" {
      return SendStatus(401);
    }
    var verified := Verify(decode(token.value), secret, ACCESS_ALGORITHMS, now);
    if !verified.Valid? {
      return SendStatus(403);
    }
    req.user := Some(verified.claims);
    c := Next;
  }

  /** The allow-list test of `authorizeRoles`: there is a user, it has a role, and the
      role is one of the allowed strings exactly. */
  predicate RoleAllowed(user: Option<Claims>, allowedRoles: seq<string>) {
    user.Some? && user.value.role.Some? && user.value.role.value in allowedRoles
  }

  /** `authorizeRoles(...allowedRoles)` applied to a request: it only reads the request
      and either passes it on or answers 403. */
  method AuthorizeRoles(req: Request, allowedRoles: seq<string>) returns (c: Continuation)
    ensures c == Next <==> req.user.Some? && req.user.value.role.Some? && req.user.value.role.value in allowedRoles
    ensures c != Next ==> c == SendStatus(403)
  {
    if !RoleAllowed(req.user, allowedRoles) {
      return SendStatus(403);
    }
    c := Next;
  }

  /** Membership is exact: no case folding and no hierarchy between roles. */
  lemma ExactRoleMatch(id: int, email: Option<string>)
    ensures !RoleAllowed(Some(Claims(id, email, Some("Admin"))), ["admin"])
    ensures !RoleAllowed(Some(Claims(id, email, Some("admin"))), ["vendor"])
    ensures !RoleAllowed(None, ["admin", "vendor"])
  {
  }
}
