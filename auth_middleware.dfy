/**
 * The request middleware: resolving who the caller is (session first, then
 * the `jwt` cookie), bearer-header authentication, the role check, and the
 * two session gates.
 */
module AuthMiddleware {

  import opened Wrappers
  import opened JsBuiltins
  import opened UsersModel
  import opened Crypto
  import opened Http
  import UserStore

  // ---------------------------------------------------------------- session gates

  /**
   * `ensureAuthenticated`: only a request with a user attached passes (`req.user`,
   * set by the session or by `addUserToLocals` from the `jwt` cookie); the rest
   * go to the login page.
   */
  function EnsureAuthenticated(user: Option<User>): (g: Gate)
    ensures g == Next <==> user.Some?
    ensures g != Next ==> g == Respond(Redirect("/login"))
  {
    if user.Some? then Next else Respond(Redirect("/login"))
  }

  /** `forwardAuthenticated`: only a request with no user attached (see above) passes; the rest go home. */
  function ForwardAuthenticated(user: Option<User>): (g: Gate)
    ensures g == Next <==> user.None?
    ensures g != Next ==> g == Respond(Redirect("/"))
  {
    if user.None? then Next else Respond(Redirect("/"))
  }

  /** Every request passes exactly one of the two gates. */
  lemma GatesComplementary(user: Option<User>)
    ensures (EnsureAuthenticated(user) == Next) != (ForwardAuthenticated(user) == Next)
  {
  }

  // ---------------------------------------------------------------- identity resolution

  /**
   * `addUserToLocals`: the session user when there is one; otherwise the stored
   * account named by a verifying `jwt` cookie; otherwise nobody. A missing,
   * empty, invalid or expired cookie, or one whose account is gone, gives
   * nobody rather than an error.
   */
  function ResolveIdentity(sessionUser: Option<User>, jwtCookie: Option<string>, signed: map<string, Jwt>, db: Db, now: int)
    : (r: Option<User>)
    requires IdsConsistent(db)
    ensures sessionUser.Some? ==> r == sessionUser
    ensures sessionUser.None? && r.Some? ==> r.value.id in db.users && db.users[r.value.id] == r.value
    ensures sessionUser.None? && r.Some? ==>
      jwtCookie.Some? && jwtCookie.value != "" &&
      Verify(signed, jwtCookie.value, now).Some? && Verify(signed, jwtCookie.value, now).value.id == r.value.id
    ensures (sessionUser.None? && jwtCookie.Some? && jwtCookie.value != "" && Verify(signed, jwtCookie.value, now).Some? &&
             Verify(signed, jwtCookie.value, now).value.id in db.users) ==>
      r == Some(db.users[Verify(signed, jwtCookie.value, now).value.id])
  {
    if sessionUser.Some? then sessionUser
    else if jwtCookie.Some? && jwtCookie.value != "" then
      match Verify(signed, jwtCookie.value, now)
      case None => None
      case Some(claims) => FindById(db, claims.id)
    else None
  }

  /** Without a session, a cookie that does not verify, or names a deleted account, resolves to nobody. */
  lemma BadCookieIsAnonymous(jwtCookie: string, signed: map<string, Jwt>, db: Db, now: int)
    requires IdsConsistent(db)
    requires Verify(signed, jwtCookie, now).None? || Verify(signed, jwtCookie, now).value.id !in db.users
    ensures ResolveIdentity(None, Some(jwtCookie), signed, db, now) == None
  {
  }

  /**
   * The cookie set at login identifies its account for one hour: before
   * `iat + 3600` it resolves to the account's current record, from then on to
   * nobody. Only the token's id is read, so this holds even when the account's
   * email or role changed after the token was issued.
   */
  lemma LoginCookieResolves(token: string, signed: map<string, Jwt>, db: Db, k: Id, iat: int, now: int)
    requires IdsConsistent(db) && k in db.users && token != ""
    requires token in signed && signed[token].claims.id == k && signed[token].exp == Some(iat + OneHour)
    ensures ResolveIdentity(None, Some(token), signed, db, now) == (if now < iat + 3600 then Some(db.users[k]) else None)
  {
  }

  /** `addUserToLocals` on the request; it always reaches `next()`. */
  method AddUserToLocals(req: Request, store: UserStore.Users, signed: map<string, Jwt>, now: int)
    requires store.Valid()
    modifies req
    ensures req.localsUser == ResolveIdentity(old(req.user), old(req.jwtCookie), signed, store.Snapshot(), now)
    ensures req.user == req.localsUser
    ensures req.jwtCookie == old(req.jwtCookie) && req.authorization == old(req.authorization)
  {
    if req.user.Some? {
      req.localsUser := req.user;
    } else if req.jwtCookie.Some? && req.jwtCookie.value != "" {
      var decoded := Verify(signed, req.jwtCookie.value, now);
      if decoded.Some? {
        var found := store.FindById(decoded.value.id);
        if found.Some? {
          req.user := found;
          req.localsUser := found;
        } else {
          req.localsUser := None;
        }
      } else {
        req.localsUser := None;
      }
    } else {
      req.localsUser := None;
    }
  }

  // ---------------------------------------------------------------- bearer authentication

  /** `req.headers.authorization?.split(' ')[1]`, when it is truthy. */
  function BearerToken(header: Option<string>): (r: Option<string>)
    ensures r.Some? ==> header.Some? && r.value != "" && ' ' !in r.value
  {
    if header.None? then None
    else
      var parts := Split(header.value, ' ');
      SplitPiecesLackSeparator(header.value, ' ');
      if |parts| > 1 && parts[1] != "" then Some(parts[1]) else None
  }

  /**
   * The token read from a header is the word after its first space: the header
   * is a first word, a space, the token, and either nothing or more words after
   * another space. The first word is not checked to be `Bearer`.
   */
  lemma BearerTokenShape(header: string) returns (scheme: string, rest: string)
    requires BearerToken(Some(header)).Some?
    ensures ' ' !in scheme && (rest == "" || rest[0] == ' ')
    ensures header == scheme + " " + BearerToken(Some(header)).value + rest
  {
    var parts := Split(header, ' ');
    JoinSplit(header, ' ');
    SplitPiecesLackSeparator(header, ' ');
    scheme := parts[0];
    rest := if |parts| == 2 then "" else " " + Join(parts[2..], ' ');
    assert parts[1..][1..] == parts[2..];
  }

  /** Conversely, every header of that shape yields exactly that token. */
  lemma BearerTokenOf(scheme: string, token: string, rest: string)
    requires ' ' !in scheme && ' ' !in token && token != ""
    requires rest == "" || rest[0] == ' '
    ensures BearerToken(Some(scheme + " " + token + rest)) == Some(token)
  {
    SplitAtSeparator(scheme, token + rest, ' ');
    assert scheme + " " + token + rest == scheme + [' '] + (token + rest);
    SplitWithoutSeparator(scheme, ' ');
    if rest == "" {
      assert token + rest == token;
      SplitWithoutSeparator(token, ' ');
    } else {
      assert token + rest == token + [' '] + rest[1..];
      SplitAtSeparator(token, rest[1..], ' ');
      SplitWithoutSeparator(token, ' ');
    }
  }

  /** `auth`'s decision: the stored account named by a verifying bearer token, or nobody. */
  function Authenticate(header: Option<string>, signed: map<string, Jwt>, db: Db, now: int): (r: Option<User>)
    requires IdsConsistent(db)
    ensures r.Some? ==> r.value.id in db.users && db.users[r.value.id] == r.value
    ensures r.Some? ==>
      (BearerToken(header).Some? && Verify(signed, BearerToken(header).value, now).Some? &&
       Verify(signed, BearerToken(header).value, now).value.id == r.value.id)
    ensures (BearerToken(header).Some? && Verify(signed, BearerToken(header).value, now).Some? &&
             Verify(signed, BearerToken(header).value, now).value.id in db.users) ==>
      r == Some(db.users[Verify(signed, BearerToken(header).value, now).value.id])
  {
    match BearerToken(header)
    case None => None
    case Some(token) =>
      match Verify(signed, token, now)
      case None => None
      case Some(claims) => FindById(db, claims.id)
  }

  /**
   * A `Bearer` header carrying an unexpired login token authenticates the
   * account the token names, by id alone: a token issued before the account's
   * role or email changed still attaches the current record.
   */
  lemma LoginTokenAuthenticates(token: string, signed: map<string, Jwt>, db: Db, k: Id, iat: int, now: int)
    requires IdsConsistent(db) && k in db.users && token != "" && ' ' !in token
    requires token in signed && signed[token].claims.id == k && signed[token].exp == Some(iat + OneHour)
    requires now < iat + 3600
    ensures Authenticate(Some("Bearer " + token), signed, db, now) == Some(db.users[k])
  {
    BearerTokenOf("Bearer", token, "");
    assert "Bearer" + " " + token + "" == "Bearer " + token;
  }

  /** `auth` on the request: 401 for every failure, else the stored account is attached. */
  method Auth(req: Request, store: UserStore.Users, signed: map<string, Jwt>, now: int) returns (g: Gate)
    requires store.Valid()
    modifies req
    ensures g == (if Authenticate(old(req.authorization), signed, store.Snapshot(), now).Some? then Next
                  else Respond(Json(401, "Unauthorized")))
    ensures g == Next ==> req.user == Authenticate(old(req.authorization), signed, store.Snapshot(), now)
    ensures g != Next ==> req.user == old(req.user)
    ensures req.localsUser == old(req.localsUser) && req.authorization == old(req.authorization)
    ensures req.jwtCookie == old(req.jwtCookie)
  {
    var token := BearerToken(req.authorization);
    if token.None? {
      return Respond(Json(401, "Unauthorized"));
    }
    var decoded := Verify(signed, token.value, now);
    if decoded.None? {
      return Respond(Json(401, "Unauthorized"));
    }
    var user := store.FindById(decoded.value.id);
    if user.None? {
      return Respond(Json(401, "Unauthorized"));
    }
    req.user := user;
    g := Next;
  }

  // ---------------------------------------------------------------- authorization

  /**
   * `authorize(rol)`: 401 without a user; with a non-empty role list, 403 for a
   * user whose role name is not in it; `next()` otherwise. It reads only the
   * user and the list.
   */
  function Authorize(user: Option<User>, roles: seq<string>): (g: Gate)
    ensures user.None? ==> g == Respond(Json(401, "Unauthorized"))
    ensures g == Next <==> user.Some? && (|roles| == 0 || RoleName(user.value.rol) in roles)
    ensures user.Some? && g != Next ==> g == Respond(Json(403, "Forbidden"))
  {
    if user.None? then Respond(Json(401, "Unauthorized"))
    else if |roles| > 0 && !Includes(roles, RoleName(user.value.rol)) then Respond(Json(403, "Forbidden"))
    else Next
  }

  /** A route limited to one role admits exactly the users holding that role. */
  lemma AuthorizeSingleRole(u: User, r: Role)
    ensures Authorize(Some(u), [RoleName(r)]) == Next <==> u.rol == r
  {
    RoleNameInjective(u.rol, r);
  }

  /**
   * `authorize` placed directly after `addUserToLocals`, with no `auth` between
   * them, refuses with 401 a request that has no session user and an expired
   * login cookie. (Where the routes use `authorize`, it follows `auth`, which
   * answers 401 itself without a valid bearer header.)
   */
  lemma ExpiredCookieUnauthorized(token: string, signed: map<string, Jwt>, db: Db, u: User, iat: int, now: int, roles: seq<string>)
    requires IdsConsistent(db) && token != ""
    requires token in signed && signed[token] == Sign(ClaimsOf(u), iat, Some(OneHour))
    requires now >= iat + 3600
    ensures Authorize(ResolveIdentity(None, Some(token), signed, db, now), roles) == Respond(Json(401, "Unauthorized"))
  {
    SignThenVerify(signed, token, ClaimsOf(u), iat, OneHour, now);
  }
}
