/** Authentication helpers of the backend: token issue and verification,
    bearer-header parsing, and the role guards. */
module Auth {
  import opened Wrappers
  import opened JsString
  import opened Records

  /** The claim set `generateToken` signs. */
  datatype Claims = Claims(id: string, username: string, role: Role, email: string)

  /** What a successful `jwt.verify` returns: the signed claims plus the
      issue time and the expiry the library adds. This is the request's `user`. */
  datatype Session = Session(id: string, username: string, role: Role, email: string, iat: int, exp: int)

  /** `expiresIn: '7d'`, in the same unit as `now` (milliseconds). */
  const TokenLifetime: int := 7 * 24 * 60 * 60 * 1000

  /** The bcrypt and jsonwebtoken library calls, as opaque function values.
      `hash` stands for `bcrypt.hash(p, 10)` with its salt folded in; `sign`
      and `verify` use the process-wide `JWT_SECRET`; `verify` returning a
      `Failure` is `jwt.verify` throwing. */
  datatype Crypto = Crypto(
    hash: string -> string,
    compare: (string, string) -> bool,
    sign: (Claims, int) -> string,
    verify: (string, int) -> Result<Session, string>)

  /** What bcrypt is relied on for: a password matches its own hash, and a
      hash is never the raw password. */
  ghost predicate SoundBcrypt(c: Crypto)
  {
    forall p :: c.compare(p, c.hash(p)) && c.hash(p) != p
  }

  /** What jsonwebtoken is relied on for: a token it signed at `iat` verifies
      to the same claims until `iat + TokenLifetime`, and is rejected after. */
  ghost predicate SoundJwt(c: Crypto)
  {
    forall cl: Claims, iat: int, now: int ::
      && (now < iat + TokenLifetime ==>
            c.verify(c.sign(cl, iat), now) ==
            Success(Session(cl.id, cl.username, cl.role, cl.email, iat, iat + TokenLifetime)))
      && (now >= iat + TokenLifetime ==> c.verify(c.sign(cl, iat), now).Failure?)
  }

  /** The claim set of `generateToken`: the four public attributes; a `Claims`
      value has no place for the password hash. */
  function ClaimsOf(u: User): Claims
  {
    Claims(u.id, u.username, u.role, u.email)
  }

  /** `generateToken(user)` at time `now`. */
  function GenerateToken(c: Crypto, u: User, now: int): string
  {
    c.sign(ClaimsOf(u), now)
  }

  /** `verifyToken`: the library's exception becomes `None`. */
  function VerifyToken(c: Crypto, token: string, now: int): (r: Option<Session>)
    ensures r.None? <==> c.verify(token, now).Failure?
    ensures r.Some? ==> c.verify(token, now) == Success(r.value)
  {
    match c.verify(token, now)
    case Success(s) => Some(s)
    case Failure(_) => None
  }

  /** A freshly issued token resolves to the user's own claims until it
      expires, and to nobody afterwards. */
  lemma IssuedTokenVerifies(c: Crypto, u: User, issued: int, now: int)
    requires SoundJwt(c)
    ensures now < issued + TokenLifetime ==>
      VerifyToken(c, GenerateToken(c, u, issued), now) ==
        Some(Session(u.id, u.username, u.role, u.email, issued, issued + TokenLifetime))
    ensures now >= issued + TokenLifetime ==> VerifyToken(c, GenerateToken(c, u, issued), now).None?
  {
    var cl := ClaimsOf(u);
    assert now < issued + TokenLifetime ==>
      c.verify(c.sign(cl, issued), now) ==
      Success(Session(cl.id, cl.username, cl.role, cl.email, issued, issued + TokenLifetime));
  }

  const BearerPrefix: string := "Bearer "

  /** `getUserFromToken(token)`: nobody for an empty header; otherwise the
      first "Bearer " is cut out, wherever it stands, and the rest verified. */
  function GetUserFromToken(c: Crypto, header: string, now: int): (r: Option<Session>)
    ensures header == "" ==> r.None?
  {
    if header == "" then None
    else VerifyToken(c, ReplaceFirst(header, BearerPrefix, ""), now)
  }

  /** A header of the form "Bearer " + token verifies exactly `token`. */
  lemma BearerHeaderStrips(c: Crypto, token: string, now: int)
    ensures GetUserFromToken(c, BearerPrefix + token, now) == VerifyToken(c, token, now)
  {
    ReplaceFirstOfPrefix(BearerPrefix, token);
  }

  /** A header without the scheme word is verified as it stands. */
  lemma BareHeaderVerifiedAsIs(c: Crypto, header: string, now: int)
    requires header != "" && !Includes(header, BearerPrefix)
    ensures GetUserFromToken(c, header, now) == VerifyToken(c, header, now)
  {
    IncludesIff(header, BearerPrefix);
  }

  /** Only the first "Bearer " is removed, even when it is not at the start:
      "xBearer y" is verified as "xy". */
  lemma OnlyFirstBearerRemoved(c: Crypto, now: int)
    ensures GetUserFromToken(c, "xBearer y", now) == VerifyToken(c, "xy", now)
  {
    assert "xBearer y" == "x" + BearerPrefix + "y";
    assert !Includes("x", BearerPrefix);
    forall j | 0 <= j < 1 ensures !OccursAt("x" + BearerPrefix, BearerPrefix, j) {
      assert ("x" + BearerPrefix)[0] != BearerPrefix[0];
    }
    ReplaceFirstInMiddle("x", BearerPrefix, "y");
    assert "x" + "y" == "xy";
    assert ReplaceFirst("xBearer y", BearerPrefix, "") == "xy";
  }

  /** The server's context function: a missing Authorization header is
      passed on as the empty string. */
  function ContextUser(c: Crypto, authorization: Option<string>, now: int): (r: Option<Session>)
    ensures authorization.None? ==> r.None?
  {
    GetUserFromToken(c, authorization.GetOr(""), now)
  }

  /** `isAdmin(user)`. */
  predicate IsAdmin(user: Option<Session>)
  {
    user.Some? && user.value.role == Admin
  }

  /** `isEmployee(user)`. */
  predicate IsEmployee(user: Option<Session>)
  {
    user.Some? && user.value.role == Employee
  }

  /** Nobody is both, the anonymous caller is neither, and a signed-in caller
      is exactly one of the two. */
  lemma RolesExclusive(user: Option<Session>)
    ensures !(IsAdmin(user) && IsEmployee(user))
    ensures user.None? ==> !IsAdmin(user) && !IsEmployee(user)
    ensures user.Some? ==> IsAdmin(user) || IsEmployee(user)
  {
  }

  /** `requireAuth(user)`. */
  function RequireAuth(user: Option<Session>): (r: Result<Session, Error>)
    ensures r.Failure? <==> user.None?
    ensures r.Failure? ==> r.error == AuthenticationRequired
    ensures r.Success? ==> r.value == user.value
  {
    if user.None? then Failure(AuthenticationRequired) else Success(user.value)
  }

  /** `requireAdmin(user)`: authentication is checked before the role. */
  function RequireAdmin(user: Option<Session>): (r: Result<Session, Error>)
    ensures user.None? ==> r == Failure(AuthenticationRequired)
    ensures user.Some? && user.value.role != Admin ==> r == Failure(AdminAccessRequired)
    ensures user.Some? && user.value.role == Admin ==> r == Success(user.value)
    ensures r.Success? <==> IsAdmin(user)
  {
    match RequireAuth(user)
    case Failure(e) => Failure(e)
    case Success(u) => if !IsAdmin(user) then Failure(AdminAccessRequired) else Success(u)
  }

  /** `me`: the caller's public attributes, or null. */
  function Me(user: Option<Session>): (r: Option<PublicUser>)
    ensures r.None? <==> user.None?
    ensures r.Some? ==> r.value.id == user.value.id && r.value.username == user.value.username &&
                        r.value.role == user.value.role && r.value.email == user.value.email
  {
    if user.None? then None
    else Some(PublicUser(user.value.id, user.value.username, user.value.role, user.value.email))
  }
}
