/** controllers/authController.js: registration, login with opportunistic renewal of the
    stored refresh token, and exchange of a refresh token for an access token, over a
    `users` table in which every user has one refresh-token slot. */
module AuthController {
  import opened Optional
  import opened Text
  import opened Jwt

  /** A row of the `users` table; `password` holds the bcrypt hash. */
  datatype User = User(id: nat, email: string, password: string, role: string, refreshToken: Option<Token>)

  /** The row `INSERT ... RETURNING id, email, role` gives back: no password. */
  datatype PublicUser = PublicUser(id: nat, email: string, role: string)

  /** The JSON bodies the handlers send. */
  datatype Body =
    | ErrorBody(error: string)
    | Registered(message: string, user: PublicUser, accessToken: Token, refreshToken: Token)
    | LoggedIn(accessToken: Token, refreshToken: Token, role: string, email: string)
    | Refreshed(accessToken: Token)

  datatype Response = Response(status: nat, body: Body)

  /** `process.env.JWT_SECRET` and `process.env.REFRESH_SECRET`. */
  datatype Secrets = Secrets(access: string, refresh: string)

  /** The table's contents and the next value of its `SERIAL` id. */
  datatype Store = Store(rows: seq<User>, nextId: nat)

  /** Ids are positive, below the next serial value, and unique; emails are unique. */
  predicate ValidStore(s: Store) {
    && s.nextId >= 1
    && (forall i :: 0 <= i < |s.rows| ==> 1 <= s.rows[i].id < s.nextId)
    && (forall i, j :: 0 <= i < j < |s.rows| ==> s.rows[i].id != s.rows[j].id && s.rows[i].email != s.rows[j].email)
  }

  // ---------------------------------------------------------------- token generators

  /** `generateAccessToken`: claims `{id, email, role}`, the access secret, 15 minutes.
      The token verifies to exactly those claims before the deadline, is reported
      expired from the deadline on, and is refused under any other key. */
  function AccessToken(id: nat, email: string, role: string, secrets: Secrets, now: int): (t: Token)
    ensures forall later ::
      Verify(t, secrets.access, ["HS256"], later) == (if later < now + 900 then Valid(Claims(id, Some(email), Some(role))) else Expired)
    ensures forall key, algs, later :: key != secrets.access ==> Verify(t, key, algs, later) == Invalid
  {
    Sign(Claims(id, Some(email), Some(role)), secrets.access, ACCESS_LIFETIME, now)
  }

  /** `generateRefreshToken`: claims `{id}` only, the refresh secret, 7 days. */
  function RefreshToken(id: nat, secrets: Secrets, now: int): (t: Token)
    ensures forall later ::
      Verify(t, secrets.refresh, HMAC_ALGORITHMS, later) == (if later < now + 604800 then Valid(Claims(id, None, None)) else Expired)
    ensures forall key, algs, later :: key != secrets.refresh ==> Verify(t, key, algs, later) == Invalid
  {
    Sign(Claims(id, None, None), secrets.refresh, REFRESH_LIFETIME, now)
  }

  // ---------------------------------------------------------------- register

  const ROLES: seq<string> := ["vendor", "admin"]

  /** `role?.toLowerCase()`, kept when it is `vendor` or `admin`, otherwise `vendor`. */
  function NormaliseRole(requested: Option<string>): (role: string)
    ensures role in ROLES
    ensures requested.Some? && LowerString(requested.value) in ROLES ==> role == LowerString(requested.value)
    ensures requested.None? || LowerString(requested.value) !in ROLES ==> role == "vendor"
  {
    var lowered := if requested.Some? then Some(LowerString(requested.value)) else None;
    if lowered.Some? && lowered.value != "" && lowered.value in ROLES then lowered.value else "vendor"
  }

  /** A known role is recognised in any letter case (`ADMIN` and `Admin` give `admin`). */
  lemma RoleInAnyCase(requested: string, role: string)
    requires role in ROLES && |requested| == |role|
    requires forall i :: 0 <= i < |role| ==> Lower(requested[i]) == role[i]
    ensures NormaliseRole(Some(requested)) == role
  {
    assert LowerString(requested) == role;
  }

  /** `SELECT ... FROM users WHERE email=$1`: the first matching row. */
  function FindByEmail(rows: seq<User>, email: string): (r: Option<nat>)
    ensures r.Some? ==> r.value < |rows| && rows[r.value].email == email
    ensures r.Some? ==> forall j :: 0 <= j < r.value ==> rows[j].email != email
    ensures r.None? <==> forall i :: 0 <= i < |rows| ==> rows[i].email != email
  {
    if rows == [] then None
    else if rows[0].email == email then Some(0)
    else match FindByEmail(rows[1..], email)
      case Some(i) => Some(i + 1)
      case None => None
  }

  /** `SELECT * FROM users WHERE id=$1`: the first matching row. */
  function FindById(rows: seq<User>, id: int): (r: Option<nat>)
    ensures r.Some? ==> r.value < |rows| && rows[r.value].id == id
    ensures r.Some? ==> forall j :: 0 <= j < r.value ==> rows[j].id != id
    ensures r.None? <==> forall i :: 0 <= i < |rows| ==> rows[i].id != id
  {
    if rows == [] then None
    else if rows[0].id == id then Some(0)
    else match FindById(rows[1..], id)
      case Some(i) => Some(i + 1)
      case None => None
  }

  /** `UPDATE users SET refresh_token=$1 WHERE id=$2`. */
  function SetRefreshToken(rows: seq<User>, id: nat, t: Token): (r: seq<User>)
    ensures |r| == |rows|
    ensures forall i :: 0 <= i < |rows| ==> r[i] == if rows[i].id == id then rows[i].(refreshToken := Some(t)) else rows[i]
  {
    seq(|rows|, i requires 0 <= i < |rows| => if rows[i].id == id then rows[i].(refreshToken := Some(t)) else rows[i])
  }

  /** A handler's response together with the table after it. */
  datatype Outcome = Outcome(response: Response, store: Store)

  const EMAIL_EXISTS: Response := Response(400, ErrorBody("Email already exists"))

  /** `register`: a taken email is refused with 400 and the table unchanged. Otherwise
      exactly one row is added, with the next id, the email, the hash, the normalised
      role and the newly minted refresh token in its slot; the answer is 201 with the
      public part of that row and the two tokens, which are the table's tokens. */
  function RegisterSpec(s: Store, secrets: Secrets, email: string, hashed: string, role: Option<string>, now: int): (o: Outcome)
    ensures o.response.status == 400 <==> exists i :: 0 <= i < |s.rows| && s.rows[i].email == email
    ensures o.response.status == 400 ==> o == Outcome(EMAIL_EXISTS, s)
    ensures o.response.status != 400 ==>
      && o.response.status == 201
      && o.response.body.Registered?
      && var u := o.response.body.user;
      && u == PublicUser(s.nextId, email, NormaliseRole(role))
      && o.store == Store(s.rows + [User(u.id, email, hashed, u.role, Some(o.response.body.refreshToken))], s.nextId + 1)
      && o.response.body.accessToken == AccessToken(u.id, email, u.role, secrets, now)
      && o.response.body.refreshToken == RefreshToken(u.id, secrets, now)
    ensures ValidStore(s) ==> ValidStore(o.store)
  {
    if FindByEmail(s.rows, email).Some? then Outcome(EMAIL_EXISTS, s)
    else
      var id, r := s.nextId, NormaliseRole(role);
      var refresh := RefreshToken(id, secrets, now);
      Outcome(
        Response(201, Registered("User registered", PublicUser(id, email, r), AccessToken(id, email, r, secrets, now), refresh)),
        Store(s.rows + [User(id, email, hashed, r, Some(refresh))], id + 1))
  }

  // ---------------------------------------------------------------- login

  /** A stored slot is in use when it holds a non-empty value (`if (refreshToken)`):
      `null` and the empty string are falsy, and every signed token is truthy. */
  predicate Present(t: Option<Token>): (b: bool)
    ensures b ==> t.Some?
    ensures t.Some? && t.value.Signed? ==> b
    ensures t == Some(Malformed("")) ==> !b
  {
    t.Some? && t.value != Malformed("")
  }

  /** The three-way state of the stored refresh token, with an empty slot read as
      expired. */
  datatype Freshness = Missing | Live | Stale | Corrupt

  /** Live exactly when the slot holds a token signed with the refresh secret under an
      HMAC algorithm that has not reached its expiry; Stale when such a token has;
      Corrupt for anything else stored; Missing for an empty slot. */
  function SlotFreshness(slot: Option<Token>, secrets: Secrets, now: int): (f: Freshness)
    ensures f == Missing <==> !Present(slot)
    ensures f == Live <==>
      Present(slot) && slot.value.Signed? && slot.value.key == secrets.refresh
      && slot.value.alg in HMAC_ALGORITHMS && now < slot.value.exp
    ensures f == Stale <==>
      Present(slot) && slot.value.Signed? && slot.value.key == secrets.refresh
      && slot.value.alg in HMAC_ALGORITHMS && slot.value.exp <= now
  {
    if !Present(slot) then Missing
    else match Verify(slot.value, secrets.refresh, HMAC_ALGORITHMS, now)
      case Valid(_) => Live
      case Expired => Stale
      case Invalid => Corrupt
  }

  const INVALID_CREDENTIALS: Response := Response(400, ErrorBody("Invalid credentials"))
  const INVALID_STORED_TOKEN: Response := Response(403, ErrorBody("Invalid refresh token stored"))

  function LoginSuccess(u: User, refresh: Token, secrets: Secrets, now: int): Response {
    Response(200, LoggedIn(AccessToken(u.id, u.email, u.role, secrets, now), refresh, u.role, u.email))
  }

  /** `login` as a transition of the table. `compare` stands for `bcrypt.compare`. */
  function LoginSpec(s: Store, secrets: Secrets, email: string, password: string,
                     compare: (string, string) -> bool, now: int): (o: Outcome)
    ensures o.response.status == 200 || o.response == INVALID_CREDENTIALS || o.response == INVALID_STORED_TOKEN
    ensures o.response == INVALID_CREDENTIALS <==>
      FindByEmail(s.rows, email).None? || !compare(password, s.rows[FindByEmail(s.rows, email).value].password)
    ensures o.response == INVALID_STORED_TOKEN <==>
      && FindByEmail(s.rows, email).Some?
      && var u := s.rows[FindByEmail(s.rows, email).value];
      && compare(password, u.password) && SlotFreshness(u.refreshToken, secrets, now) == Corrupt
    ensures o.response.status != 200 ==> o.store == s
    ensures o.response.status == 200 ==>
      && FindByEmail(s.rows, email).Some?
      && var u := s.rows[FindByEmail(s.rows, email).value];
      && o.response.body.LoggedIn?
      && o.response.body.accessToken == AccessToken(u.id, u.email, u.role, secrets, now)
      && o.response.body.role == u.role && o.response.body.email == u.email
    ensures ValidStore(s) ==> ValidStore(o.store)
  {
    match FindByEmail(s.rows, email)
    case None => Outcome(INVALID_CREDENTIALS, s)
    case Some(i) =>
      var u := s.rows[i];
      if !compare(password, u.password) then Outcome(INVALID_CREDENTIALS, s)
      else match SlotFreshness(u.refreshToken, secrets, now)
        case Corrupt => Outcome(INVALID_STORED_TOKEN, s)
        case Live => Outcome(LoginSuccess(u, u.refreshToken.value, secrets, now), s)
        case _ =>
          var t := RefreshToken(u.id, secrets, now);
          Outcome(LoginSuccess(u, t, secrets, now), Store(SetRefreshToken(s.rows, u.id, t), s.nextId))
  }

  // ---------------------------------------------------------------- refresh

  const TOKEN_REQUIRED: Response := Response(401, ErrorBody("Refresh token required"))
  const TOKEN_EXPIRED: Response := Response(403, ErrorBody("Refresh token expired. Please log in again."))
  const SERVER_ERROR: Response := Response(500, ErrorBody("Server error"))
  const USER_NOT_FOUND: Response := Response(403, ErrorBody("User not found"))
  const TOKEN_MISMATCH: Response := Response(403, ErrorBody("Invalid refresh token"))

  /** `refresh`: never changes the table. Only a present token that verifies under the
      refresh secret, names an existing user, and equals that user's stored slot buys
      a new access token for that user. An expired token gets 403 "expired", a token
      whose user has no row 403 "User not found", a token that is not its user's
      stored one 403 "Invalid refresh token", and any other verification failure
      falls through to the generic 500. */
  function RefreshSpec(s: Store, secrets: Secrets, presented: Option<Token>, now: int): (r: Response)
    ensures r.status == 401 <==> !Present(presented)
    ensures r == TOKEN_EXPIRED <==> Present(presented) && Verify(presented.value, secrets.refresh, HMAC_ALGORITHMS, now).Expired?
    ensures r == SERVER_ERROR <==> Present(presented) && Verify(presented.value, secrets.refresh, HMAC_ALGORITHMS, now).Invalid?
    ensures r == USER_NOT_FOUND <==>
      && Present(presented)
      && var v := Verify(presented.value, secrets.refresh, HMAC_ALGORITHMS, now);
      && v.Valid? && FindById(s.rows, v.claims.id).None?
    ensures r == TOKEN_MISMATCH <==>
      && Present(presented)
      && var v := Verify(presented.value, secrets.refresh, HMAC_ALGORITHMS, now);
      && v.Valid?
      && var i := FindById(s.rows, v.claims.id);
      && i.Some? && s.rows[i.value].refreshToken != presented
    ensures r.status == 200 <==>
      && Present(presented)
      && var v := Verify(presented.value, secrets.refresh, HMAC_ALGORITHMS, now);
      && v.Valid?
      && var i := FindById(s.rows, v.claims.id);
      && i.Some? && s.rows[i.value].refreshToken == presented
    ensures r.status == 200 ==>
      var u := s.rows[FindById(s.rows, presented.value.claims.id).value];
      r.body == Refreshed(AccessToken(u.id, u.email, u.role, secrets, now))
  {
    if !Present(presented) then TOKEN_REQUIRED
    else match Verify(presented.value, secrets.refresh, HMAC_ALGORITHMS, now)
      case Expired => TOKEN_EXPIRED
      case Invalid => SERVER_ERROR
      case Valid(claims) =>
        match FindById(s.rows, claims.id)
        case None => USER_NOT_FOUND
        case Some(i) =>
          var u := s.rows[i];
          if u.refreshToken != presented then TOKEN_MISMATCH
          else Response(200, Refreshed(AccessToken(u.id, u.email, u.role, secrets, now)))
  }

  // ---------------------------------------------------------------- properties across calls

  /** Looking an id up in a table whose rows keep their ids finds the same row. */
  lemma {:induction false} FindByIdSameIds(rows: seq<User>, rows': seq<User>, id: int)
    requires |rows| == |rows'|
    requires forall i :: 0 <= i < |rows| ==> rows[i].id == rows'[i].id
    ensures FindById(rows', id) == FindById(rows, id)
  {
    if rows != [] {
      FindByIdSameIds(rows[1..], rows'[1..], id);
    }
  }

  /** Rows appended after a row do not change where an id is first found. */
  lemma {:induction false} FindByIdPrefix(rows: seq<User>, more: seq<User>, id: int)
    requires FindById(rows, id).Some?
    ensures FindById(rows + more, id) == FindById(rows, id)
  {
    if rows[0].id != id {
      assert (rows + more)[1..] == rows[1..] + more;
      FindByIdPrefix(rows[1..], more, id);
    }
  }

  /** In a valid table the row found by id is the only row with that id. */
  lemma FindByIdUnique(s: Store, k: nat)
    requires ValidStore(s) && k < |s.rows|
    ensures FindById(s.rows, s.rows[k].id) == Some(k)
  {
  }

  /** A renewing login: when the user's slot is empty or expired and the password
      matches, a new refresh token (claims `{id}`, 7 days) is returned, it differs from
      what the slot held, it is written to that user's slot, and no other row changes. */
  lemma LoginRenewsMissingOrExpired(s: Store, secrets: Secrets, email: string, password: string,
                                    compare: (string, string) -> bool, now: int, i: nat)
    requires ValidStore(s)
    requires FindByEmail(s.rows, email) == Some(i)
    requires compare(password, s.rows[i].password)
    requires SlotFreshness(s.rows[i].refreshToken, secrets, now) in {Missing, Stale}
    ensures var o := LoginSpec(s, secrets, email, password, compare, now);
      && o.response.status == 200
      && o.response.body.refreshToken == RefreshToken(s.rows[i].id, secrets, now)
      && Some(o.response.body.refreshToken) != s.rows[i].refreshToken
      && |o.store.rows| == |s.rows| && o.store.nextId == s.nextId
      && o.store.rows[i] == s.rows[i].(refreshToken := Some(o.response.body.refreshToken))
      && (forall j :: 0 <= j < |s.rows| && j != i ==> o.store.rows[j] == s.rows[j])
  {
    var t := RefreshToken(s.rows[i].id, secrets, now);
    assert t.exp == now + REFRESH_LIFETIME;
  }

  /** A login that finds a live stored token hands that very token back and leaves the
      table as it was. */
  lemma LoginKeepsLiveToken(s: Store, secrets: Secrets, email: string, password: string,
                            compare: (string, string) -> bool, now: int, i: nat)
    requires FindByEmail(s.rows, email) == Some(i)
    requires compare(password, s.rows[i].password)
    requires SlotFreshness(s.rows[i].refreshToken, secrets, now) == Live
    ensures var o := LoginSpec(s, secrets, email, password, compare, now);
      && o.response.status == 200
      && Some(o.response.body.refreshToken) == s.rows[i].refreshToken
      && o.store == s
  {
  }

  /** Registering the same email twice: the second attempt is refused and adds nothing. */
  lemma DuplicateRegistration(s: Store, secrets: Secrets, email: string, hashed: string, hashed': string,
                              role: Option<string>, role': Option<string>, now: int, now': int)
    requires RegisterSpec(s, secrets, email, hashed, role, now).response.status == 201
    ensures var s1 := RegisterSpec(s, secrets, email, hashed, role, now).store;
      RegisterSpec(s1, secrets, email, hashed', role', now') == Outcome(EMAIL_EXISTS, s1)
  {
    var s1 := RegisterSpec(s, secrets, email, hashed, role, now).store;
    assert s1.rows[|s.rows|].email == email;
  }

  /** The refresh token handed out at registration buys access tokens for the new user
      until it expires seven days later. */
  lemma RefreshAfterRegister(s: Store, secrets: Secrets, email: string, hashed: string,
                             role: Option<string>, now: int, later: int)
    requires ValidStore(s)
    requires RegisterSpec(s, secrets, email, hashed, role, now).response.status == 201
    requires now <= later < now + REFRESH_LIFETIME
    ensures var o := RegisterSpec(s, secrets, email, hashed, role, now);
      var u := o.response.body.user;
      RefreshSpec(o.store, secrets, Some(o.response.body.refreshToken), later)
        == Response(200, Refreshed(AccessToken(u.id, email, u.role, secrets, later)))
  {
    var o := RegisterSpec(s, secrets, email, hashed, role, now);
    FindByIdUnique(o.store, |s.rows|);
  }

  /** A login within seven days of registering, with the right password, keeps the
      registration's refresh token and changes nothing in the table. */
  lemma LoginAfterRegister(s: Store, secrets: Secrets, email: string, password: string, hashed: string,
                           role: Option<string>, compare: (string, string) -> bool, now: int, later: int)
    requires ValidStore(s)
    requires RegisterSpec(s, secrets, email, hashed, role, now).response.status == 201
    requires compare(password, hashed)
    requires now <= later < now + REFRESH_LIFETIME
    ensures var o := RegisterSpec(s, secrets, email, hashed, role, now);
      var l := LoginSpec(o.store, secrets, email, password, compare, later);
      && l.response.status == 200
      && l.response.body.refreshToken == o.response.body.refreshToken
      && l.store == o.store
  {
    var o := RegisterSpec(s, secrets, email, hashed, role, now);
    var u := o.store.rows[|s.rows|];
    var minted := o.response.body.refreshToken;
    assert o.store.rows == s.rows + [u] && u.email == email && u.password == hashed;
    assert FindByEmail(o.store.rows, email) == Some(|s.rows|) by {
      FindByEmailAppended(s.rows, u);
    }
    assert SlotFreshness(u.refreshToken, secrets, later) == Live by {
      assert u.refreshToken == Some(minted) && minted == RefreshToken(u.id, secrets, now);
      assert Verify(minted, secrets.refresh, HMAC_ALGORITHMS, later).Valid?;
    }
  }

  /** A row appended under an email no earlier row has is the row found for it. */
  lemma FindByEmailAppended(rows: seq<User>, u: User)
    requires forall i :: 0 <= i < |rows| ==> rows[i].email != u.email
    ensures FindByEmail(rows + [u], u.email) == Some(|rows|)
  {
    var r := FindByEmail(rows + [u], u.email);
    assert (rows + [u])[|rows|].email == u.email;
    assert forall i :: 0 <= i < |rows| ==> (rows + [u])[i] == rows[i];
  }

  /** A table that only grew at the end (what `register` does, in either outcome). */
  predicate Extends(s: Store, s': Store) {
    |s.rows| <= |s'.rows| && s'.rows[..|s.rows|] == s.rows
  }

  lemma RegisterExtends(s: Store, secrets: Secrets, email: string, hashed: string, role: Option<string>, now: int)
    ensures Extends(s, RegisterSpec(s, secrets, email, hashed, role, now).store)
  {
    var o := RegisterSpec(s, secrets, email, hashed, role, now);
    if o.response.status == 201 {
      assert o.store.rows[..|s.rows|] == s.rows;
    }
  }

  /** A token refused because it is not the one in its user's slot stays refused, at
      any later time, after any registrations. */
  lemma MismatchPersists(s: Store, s': Store, secrets: Secrets, t: Token, now: int, later: int)
    requires RefreshSpec(s, secrets, Some(t), now) == TOKEN_MISMATCH
    requires Extends(s, s')
    ensures RefreshSpec(s', secrets, Some(t), later).status != 200
  {
    var claims := Verify(t, secrets.refresh, HMAC_ALGORITHMS, now).claims;
    var i := FindById(s.rows, claims.id).value;
    assert s'.rows == s.rows + s'.rows[|s.rows|..];
    FindByIdPrefix(s.rows, s'.rows[|s.rows|..], claims.id);
  }

  /** A login of another user, even one that renews that user's slot, does not make a
      token refused as "not the stored one" acceptable: the rows keep their ids and the
      row of the token's user keeps its slot. Only that user's own login or
      registration can supersede the slot. */
  lemma MismatchSurvivesOtherLogin(s: Store, secrets: Secrets, t: Token, now: int, later: int, email: string,
                                   password: string, compare: (string, string) -> bool, now': int)
    requires ValidStore(s)
    requires RefreshSpec(s, secrets, Some(t), now) == TOKEN_MISMATCH
    requires FindByEmail(s.rows, email).Some? ==> s.rows[FindByEmail(s.rows, email).value].id != t.claims.id
    ensures RefreshSpec(LoginSpec(s, secrets, email, password, compare, now').store, secrets, Some(t), later).status != 200
  {
    var o := LoginSpec(s, secrets, email, password, compare, now');
    if o.store != s {
      FindByIdSameIds(s.rows, o.store.rows, t.claims.id);
    }
  }

  // ---------------------------------------------------------------- no token is superseded while live

  /** The stored slot of `t`'s user holds `t`. */
  predicate InSlot(s: Store, t: Token)
    requires t.Signed?
  {
    var i := FindById(s.rows, t.claims.id);
    i.Some? && s.rows[i.value].refreshToken == Some(t)
  }

  /** `issued` holds the refresh tokens handed out so far: each was signed for an
      existing id, each one that still verifies at `now` is its user's stored token,
      and every token stored in a slot is one of them. */
  predicate SlotsCurrent(s: Store, issued: set<Token>, secrets: Secrets, now: int) {
    && (forall t :: t in issued ==>
          t.Signed? && t.key == secrets.refresh && t.alg == SIGNING_ALGORITHM && 1 <= t.claims.id < s.nextId)
    && (forall t :: t in issued && Verify(t, secrets.refresh, HMAC_ALGORITHMS, now).Valid? ==> InSlot(s, t))
    && (forall i :: 0 <= i < |s.rows| && Present(s.rows[i].refreshToken) ==> s.rows[i].refreshToken.value in issued)
  }

  /** The empty table starts the invariant with nothing handed out. */
  lemma EmptyTableSlotsCurrent(secrets: Secrets, now: int)
    ensures SlotsCurrent(Store([], 1), {}, secrets, now)
  {
  }

  /** Registering keeps every issued token current, the new one included. */
  lemma RegisterKeepsSlotsCurrent(s: Store, issued: set<Token>, secrets: Secrets, email: string, hashed: string,
                                  role: Option<string>, now: int, now': int)
    requires ValidStore(s) && SlotsCurrent(s, issued, secrets, now) && now <= now'
    ensures var o := RegisterSpec(s, secrets, email, hashed, role, now');
      SlotsCurrent(o.store, if o.response.status == 201 then issued + {o.response.body.refreshToken} else issued, secrets, now')
  {
    var o := RegisterSpec(s, secrets, email, hashed, role, now');
    if o.response.status == 201 {
      var u := o.store.rows[|s.rows|];
      assert o.store == Store(s.rows + [u], s.nextId + 1);
      AppendKeepsSlotsCurrent(s, issued, secrets, u, now, now');
    }
  }

  /** Appending a row with the next id whose slot holds a token minted for it at `now'`
      keeps every issued token, and that new one, current. */
  lemma AppendKeepsSlotsCurrent(s: Store, issued: set<Token>, secrets: Secrets, u: User, now: int, now': int)
    requires ValidStore(s) && SlotsCurrent(s, issued, secrets, now) && now <= now'
    requires ValidStore(Store(s.rows + [u], s.nextId + 1))
    requires u.id == s.nextId && u.refreshToken == Some(RefreshToken(s.nextId, secrets, now'))
    ensures SlotsCurrent(Store(s.rows + [u], s.nextId + 1), issued + {RefreshToken(s.nextId, secrets, now')}, secrets, now')
  {
    var s' := Store(s.rows + [u], s.nextId + 1);
    var minted := RefreshToken(s.nextId, secrets, now');
    forall t | t in issued + {minted} && Verify(t, secrets.refresh, HMAC_ALGORITHMS, now').Valid?
      ensures InSlot(s', t)
    {
      if t == minted {
        FindByIdUnique(s', |s.rows|);
      } else {
        assert Verify(t, secrets.refresh, HMAC_ALGORITHMS, now).Valid?;
        FindByIdPrefix(s.rows, [u], t.claims.id);
      }
    }
  }

  /** Overwriting the slot of row `i`, whose token is absent or expired at `now'`, with a
      token minted at `now'` keeps every issued token current. */
  lemma RenewalKeepsSlotsCurrent(s: Store, issued: set<Token>, secrets: Secrets, i: nat, now: int, now': int)
    requires ValidStore(s) && SlotsCurrent(s, issued, secrets, now) && now <= now'
    requires i < |s.rows| && SlotFreshness(s.rows[i].refreshToken, secrets, now') in {Missing, Stale}
    ensures var minted := RefreshToken(s.rows[i].id, secrets, now');
      SlotsCurrent(Store(SetRefreshToken(s.rows, s.rows[i].id, minted), s.nextId), issued + {minted}, secrets, now')
  {
    var u := s.rows[i];
    var minted := RefreshToken(u.id, secrets, now');
    var s' := Store(SetRefreshToken(s.rows, u.id, minted), s.nextId);
    FindByIdUnique(s, i);
    forall t | t in issued + {minted} && Verify(t, secrets.refresh, HMAC_ALGORITHMS, now').Valid?
      ensures InSlot(s', t)
    {
      FindByIdSameIds(s.rows, s'.rows, t.claims.id);
      if t != minted {
        assert Verify(t, secrets.refresh, HMAC_ALGORITHMS, now).Valid?;
        var k := FindById(s.rows, t.claims.id).value;
        if k == i {
          assert false;
        }
      }
    }
  }

  /** Logging in keeps every issued token current: a renewal only replaces a slot whose
      token is absent or expired, and no live issued token can be in such a slot. The
      refresh token a successful login hands back is covered too: a renewed one is
      added, and a kept one was already issued. */
  lemma LoginKeepsSlotsCurrent(s: Store, issued: set<Token>, secrets: Secrets, email: string, password: string,
                               compare: (string, string) -> bool, now: int, now': int)
    requires ValidStore(s) && SlotsCurrent(s, issued, secrets, now) && now <= now'
    ensures var o := LoginSpec(s, secrets, email, password, compare, now');
      var issued' := if o.store != s then issued + {o.response.body.refreshToken} else issued;
      && SlotsCurrent(o.store, issued', secrets, now')
      && (o.response.status == 200 ==> o.response.body.refreshToken in issued')
  {
    var o := LoginSpec(s, secrets, email, password, compare, now');
    if o.store != s {
      var i := FindByEmail(s.rows, email).value;
      RenewalKeepsSlotsCurrent(s, issued, secrets, i, now, now');
    } else {
      assert SlotsCurrent(s, issued, secrets, now');
      if o.response.status == 200 {
        var i := FindByEmail(s.rows, email).value;
        assert Present(s.rows[i].refreshToken);
      }
    }
  }

  /** Consequently a handed-out refresh token is never refused as "not the stored one"
      or "user not found": presented to `refresh`, it either buys an access token or
      is reported expired. */
  lemma IssuedTokenNeverSuperseded(s: Store, issued: set<Token>, secrets: Secrets, t: Token, now: int)
    requires SlotsCurrent(s, issued, secrets, now) && t in issued
    ensures RefreshSpec(s, secrets, Some(t), now).status == 200 || RefreshSpec(s, secrets, Some(t), now) == TOKEN_EXPIRED
    ensures Verify(t, secrets.refresh, HMAC_ALGORITHMS, now).Valid? ==> RefreshSpec(s, secrets, Some(t), now).status == 200
  {
  }

  // ---------------------------------------------------------------- the table

  /** The `users` table and the three handlers that use it. */
  class UserTable {
    var rows: seq<User>
    var nextId: nat

    constructor ()
      ensures State() == Store([], 1) && Valid()
    {
      rows, nextId := [], 1;
    }

    function State(): Store
      reads this
    {
      Store(rows, nextId)
    }

    predicate Valid()
      reads this
    {
      ValidStore(State())
    }

    /** `INSERT INTO users (email, password, role) ... RETURNING id, email, role`. */
    method Insert(email: string, password: string, role: string) returns (row: PublicUser)
      modifies this
      ensures rows == old(rows) + [User(old(nextId), email, password, role, None)]
      ensures nextId == old(nextId) + 1
      ensures row == PublicUser(old(nextId), email, role)
    {
      row := PublicUser(nextId, email, role);
      rows := rows + [User(nextId, email, password, role, None)];
      nextId := nextId + 1;
    }

    /** `UPDATE users SET refresh_token=$1 WHERE id=$2`. */
    method UpdateRefreshToken(id: nat, t: Token)
      modifies this
      ensures rows == SetRefreshToken(old(rows), id, t) && nextId == old(nextId)
    {
      rows := SetRefreshToken(rows, id, t);
    }

    /** The `register` handler; `hashed` is what `bcrypt.hash(password, 10)` returned. */
    method Register(secrets: Secrets, email: string, hashed: string, role: Option<string>, now: int)
      returns (resp: Response)
      requires Valid()
      modifies this
      ensures Valid()
      ensures resp == RegisterSpec(old(State()), secrets, email, hashed, role, now).response
      ensures State() == RegisterSpec(old(State()), secrets, email, hashed, role, now).store
    {
      var lowered := if role.Some? then Some(LowerString(role.value)) else None;
      var userRole := if lowered.Some? && lowered.value != "" && lowered.value in ROLES then lowered.value else "vendor";

      var existing := FindByEmail(rows, email);
      if existing.Some? {
        return EMAIL_EXISTS;
      }

      ghost var before := rows;
      var newUser := Insert(email, hashed, userRole);
      var accessToken := AccessToken(newUser.id, newUser.email, newUser.role, secrets, now);
      var refreshToken := RefreshToken(newUser.id, secrets, now);
      UpdateRefreshToken(newUser.id, refreshToken);
      assert rows == before + [User(newUser.id, email, hashed, userRole, Some(refreshToken))] by {
        assert forall i :: 0 <= i < |before| ==> before[i].id != newUser.id;
      }
      resp := Response(201, Registered("User registered", newUser, accessToken, refreshToken));
    }

    /** The `login` handler: `refreshToken` and `refreshExpired` are reassigned as the
        stored slot is examined; a renewed token overwrites the slot. */
    method Login(secrets: Secrets, email: string, password: string, compare: (string, string) -> bool, now: int)
      returns (resp: Response)
      requires Valid()
      modifies this
      ensures Valid()
      ensures resp == LoginSpec(old(State()), secrets, email, password, compare, now).response
      ensures State() == LoginSpec(old(State()), secrets, email, password, compare, now).store
    {
      var found := FindByEmail(rows, email);
      if found.None? {
        return INVALID_CREDENTIALS;
      }
      var user := rows[found.value];
      var valid := compare(password, user.password);
      if !valid {
        return INVALID_CREDENTIALS;
      }

      var refreshToken := user.refreshToken;
      var refreshExpired := false;
      if Present(refreshToken) {
        var verified := Verify(refreshToken.value, secrets.refresh, HMAC_ALGORITHMS, now);
        if verified.Expired? {
          refreshExpired := true;
        } else if verified.Invalid? {
          return INVALID_STORED_TOKEN;
        }
      } else {
        refreshExpired := true;
      }

      if refreshExpired {
        var renewed := RefreshToken(user.id, secrets, now);
        refreshToken := Some(renewed);
        UpdateRefreshToken(user.id, renewed);
      }

      var accessToken := AccessToken(user.id, user.email, user.role, secrets, now);
      resp := Response(200, LoggedIn(accessToken, refreshToken.value, user.role, user.email));
    }

    /** The `refresh` handler. It has no `modifies` clause: the table is only read. */
    method Refresh(secrets: Secrets, presented: Option<Token>, now: int) returns (resp: Response)
      ensures resp == RefreshSpec(State(), secrets, presented, now)
    {
      if !Present(presented) {
        return TOKEN_REQUIRED;
      }
      var decoded := Verify(presented.value, secrets.refresh, HMAC_ALGORITHMS, now);
      if decoded.Expired? {
        return TOKEN_EXPIRED;
      } else if decoded.Invalid? {
        return SERVER_ERROR;
      }
      var found := FindById(rows, decoded.claims.id);
      if found.None? {
        return USER_NOT_FOUND;
      }
      var user := rows[found.value];
      if user.refreshToken != presented {
        return TOKEN_MISMATCH;
      }
      var newAccessToken := AccessToken(user.id, user.email, user.role, secrets, now);
      resp := Response(200, Refreshed(newAccessToken));
    }
  }
}
