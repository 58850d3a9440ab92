/**
 * The account handlers: registration, password login, the two steps of
 * password recovery, logout, and the token issued after a GitHub login.
 * Each handler is a step function on the collection (what it answers, and
 * the collection afterwards) and a method on the collection object proved
 * to take that step.
 */
module AuthController {

  import opened Wrappers
  import opened UsersModel
  import opened Crypto
  import opened Http
  import Passport
  import UserStore

  // ---------------------------------------------------------------- registration

  /** The account `registerUser` builds before saving it. */
  function NewLocalUser(username: string, email: string, password: string, rol: Role): User
  {
    User(0, username, Some(email), HashPassword(password), rol, [], None, None, None, None)
  }

  /**
   * `registerUser`: a taken email is refused with 400; otherwise the account is
   * saved, which fails with 500 when a required field is empty or `rol` is not
   * one of the enum's names. The role is the one the request asks for, `user`
   * when it asks for none.
   */
  function RegisterStep(db: Db, username: string, email: string, password: string, rol: Option<string>): (res: (Reply, Db))
    requires Valid(db)
    ensures res.0 != Redirect("/") ==> res.1 == db
    ensures res.0 == Redirect("/") ==> forall k :: k in db.users ==> k in res.1.users && res.1.users[k] == db.users[k]
  {
    if FindOne(db, ByEmail(Some(email))).Some? then (Text(400, "User already exists"), db)
    else
      var role := if rol.None? then Some(DefaultRole) else ParseRole(rol.value);
      if username == "" || email == "" || role.None? then (Text(500, "Error registering user"), db)
      else
        var (saved, db') := InsertStep(db, NewLocalUser(username, email, password, role.value));
        if saved.Err? then (Text(500, "Error registering user"), db) else (Redirect("/"), db')
  }

  /** A second account with an email already in the collection is refused and nothing is written. */
  lemma RegisterRejectsDuplicate(db: Db, username: string, email: string, password: string, rol: Option<string>, k: Id)
    requires Valid(db) && k in db.users && db.users[k].email == Some(email)
    ensures RegisterStep(db, username, email, password, rol) == (Text(400, "User already exists"), db)
  {
  }

  /**
   * A registration with a fresh email, non-empty name and email and a valid or
   * absent role adds exactly one account: under the next id, with that email,
   * the hash of that password, and the requested role (`user` if none).
   */
  lemma RegisterAddsOne(db: Db, username: string, email: string, password: string, rol: Option<string>)
    requires Valid(db)
    requires forall k :: k in db.users ==> db.users[k].email != Some(email)
    requires username != "" && email != ""
    requires rol.Some? ==> ParseRole(rol.value).Some?
    ensures var (reply, db') := RegisterStep(db, username, email, password, rol);
      && reply == Redirect("/")
      && db.nextId !in db.users
      && db'.users.Keys == db.users.Keys + {db.nextId}
      && db'.nextId == db.nextId + 1
      && db'.users[db.nextId].email == Some(email)
      && db'.users[db.nextId].password == HashPassword(password)
      && db'.users[db.nextId].username == username
      && (rol.None? ==> db'.users[db.nextId].rol == UserRole)
      && (rol.Some? ==> RoleName(db'.users[db.nextId].rol) == rol.value)
  {
    assert FindOne(db, ByEmail(Some(email))).None?;
  }

  /**
   * A registration with a fresh email that the schema refuses (an empty
   * username or email, or a `rol` that is not one of the enum's names) answers
   * 500 and writes nothing.
   */
  lemma RegisterRejectsInvalid(db: Db, username: string, email: string, password: string, rol: Option<string>)
    requires Valid(db)
    requires forall k :: k in db.users ==> db.users[k].email != Some(email)
    requires username == "" || email == "" || (rol.Some? && ParseRole(rol.value).None?)
    ensures RegisterStep(db, username, email, password, rol) == (Text(500, "Error registering user"), db)
  {
    assert FindOne(db, ByEmail(Some(email))).None?;
  }

  /** Registration keeps the collection's invariant. */
  lemma RegisterPreservesValid(db: Db, username: string, email: string, password: string, rol: Option<string>)
    requires Valid(db)
    ensures Valid(RegisterStep(db, username, email, password, rol).1)
  {
    var role := if rol.None? then Some(DefaultRole) else ParseRole(rol.value);
    if role.Some? {
      HashInjective(password, password);
      InsertPreservesValid(db, NewLocalUser(username, email, password, role.value));
    }
  }

  /** After one successful registration, a second one with the same email is a conflict. */
  lemma RegisterTwiceConflicts(db: Db, email: string, name1: string, pw1: string, rol1: Option<string>,
                               name2: string, pw2: string, rol2: Option<string>)
    requires Valid(db)
    requires RegisterStep(db, name1, email, pw1, rol1).0 == Redirect("/")
    ensures var db1 := RegisterStep(db, name1, email, pw1, rol1).1;
      Valid(db1) && RegisterStep(db1, name2, email, pw2, rol2) == (Text(400, "User already exists"), db1)
  {
    var db1 := RegisterStep(db, name1, email, pw1, rol1).1;
    RegisterPreservesValid(db, name1, email, pw1, rol1);
    assert db1.users[db.nextId].email == Some(email);
    RegisterRejectsDuplicate(db1, name2, email, pw2, rol2, db.nextId);
  }

  /** `registerUser` on the collection object; success also logs the new account in. */
  method RegisterUser(store: UserStore.Users, req: Request, username: string, email: string, password: string, rol: Option<string>)
    returns (r: Reply)
    requires store.Valid()
    modifies store, req
    ensures store.Valid()
    ensures (r, store.Snapshot()) == RegisterStep(old(store.Snapshot()), username, email, password, rol)
    ensures r == Redirect("/") ==> old(store.nextId) in store.users && req.user == Some(store.users[old(store.nextId)])
    ensures r != Redirect("/") ==> req.user == old(req.user)
    ensures req.jwtCookie == old(req.jwtCookie) && req.authorization == old(req.authorization)
    ensures req.localsUser == old(req.localsUser)
  {
    RegisterPreservesValid(store.Snapshot(), username, email, password, rol);
    var existing := store.FindOne(ByEmail(Some(email)));
    if existing.Some? {
      return Text(400, "User already exists");
    }
    var role := if rol.None? then Some(DefaultRole) else ParseRole(rol.value);
    if username == "" || email == "" || role.None? {
      return Text(500, "Error registering user");
    }
    var saved := store.Insert(NewLocalUser(username, email, password, role.value));
    if saved.Err? {
      return Text(500, "Error registering user");
    }
    req.user := Some(saved.value);
    r := Redirect("/");
  }

  // ---------------------------------------------------------------- password login

  /**
   * `loginWithPassport`: a rejected credential check answers 401; otherwise the
   * account's last connection is stamped with `now` and a one-hour token with
   * its id, email and role is returned with the updated account.
   */
  function LoginStep(db: Db, email: string, password: string, now: int): (res: (Reply, Db))
    requires Valid(db)
    ensures !res.0.TokenJson? ==> res == (Json(401, "Invalid credentials"), db)
  {
    match Passport.LocalStrategy(db, email, password)
    case None => (Json(401, "Invalid credentials"), db)
    case Some(u) =>
      var stamped := u.(lastConnection := Some(now));
      (TokenJson(Sign(ClaimsOf(u), now, Some(OneHour)), stamped), Db(db.users[u.id := stamped], db.nextId))
  }

  /**
   * A missing credential, an unknown email and a wrong password give the very
   * same answer, and nothing is written.
   */
  lemma LoginRejectsUniformly(db: Db, email: string, password: string)
    requires Valid(db)
    requires || email == "" || password == ""
             || (forall k :: k in db.users ==> db.users[k].email != Some(email))
             || (exists k :: k in db.users && db.users[k].email == Some(email) && !IsValidPassword(password, db.users[k].password))
    ensures forall now :: LoginStep(db, email, password, now) == (Json(401, "Invalid credentials"), db)
  {
  }

  /**
   * A correct password logs in exactly the account with that email: its last
   * connection becomes `now`, no other record changes, and the token carries
   * its id, email and role and expires one hour after `now`.
   */
  lemma LoginStampsConnection(db: Db, email: string, password: string, now: int, k: Id)
    requires Valid(db)
    requires k in db.users && db.users[k].email == Some(email) && IsValidPassword(password, db.users[k].password)
    requires email != "" && password != ""
    ensures var (reply, db') := LoginStep(db, email, password, now);
      && reply.TokenJson?
      && reply.token == Jwt(Claims(k, Some(email), db.users[k].rol), now, Some(now + 3600))
      && reply.user == db.users[k].(lastConnection := Some(now))
      && db' == Db(db.users[k := reply.user], db.nextId)
  {
    FindOneUnique(db, ByEmail(Some(email)), k);
  }

  /** Login keeps the collection's invariant. */
  lemma LoginPreservesValid(db: Db, email: string, password: string, now: int)
    requires Valid(db)
    ensures Valid(LoginStep(db, email, password, now).1)
  {
    var found := Passport.LocalStrategy(db, email, password);
    if found.Some? {
      SavePreservesValid(db, found.value.(lastConnection := Some(now)));
    }
  }

  /** `loginWithPassport` on the collection object; success also opens a session for the account. */
  method LoginWithPassport(store: UserStore.Users, req: Request, email: string, password: string, now: int)
    returns (r: Reply)
    requires store.Valid()
    modifies store, req
    ensures store.Valid()
    ensures (r, store.Snapshot()) == LoginStep(old(store.Snapshot()), email, password, now)
    ensures r.TokenJson? ==> req.user == Some(r.user)
    ensures !r.TokenJson? ==> req.user == old(req.user)
    ensures req.jwtCookie == old(req.jwtCookie) && req.authorization == old(req.authorization)
    ensures req.localsUser == old(req.localsUser)
  {
    LoginPreservesValid(store.Snapshot(), email, password, now);
    if email == "" || password == "" {
      return Json(401, "Invalid credentials");
    }
    var found := store.FindOne(ByEmail(Some(email)));
    if found.None? || !IsValidPassword(password, store.users[found.value].password) {
      return Json(401, "Invalid credentials");
    }
    var u := store.users[found.value];
    var stamped := u.(lastConnection := Some(now));
    req.user := Some(stamped);
    store.Save(stamped);
    r := TokenJson(Sign(ClaimsOf(u), now, Some(OneHour)), stamped);
  }

  /** `githubAuthCallback`: the token issued after a GitHub login carries no lifetime. */
  function GithubCallbackToken(u: User, now: int): (t: Jwt)
    ensures t.claims == Claims(u.id, u.email, u.rol) && t.iat == now
    ensures t.exp.None?
  {
    Sign(ClaimsOf(u), now, None)
  }

  /** Once signed, the GitHub login token verifies to the account's claims at every later time. */
  lemma GithubTokenNeverExpires(signed: map<string, Jwt>, token: string, u: User, iat: int, later: int)
    requires token in signed && signed[token] == GithubCallbackToken(u, iat)
    ensures Verify(signed, token, later) == Some(Claims(u.id, u.email, u.rol))
  {
  }

  // ---------------------------------------------------------------- password recovery

  /** What `generateResetToken()` returns. */
  datatype ResetGrant = ResetGrant(token: string, expires: int)

  /** The message `sendMail` is asked to deliver. */
  datatype Mail = Mail(to: Option<string>, subject: string, text: string)

  function ResetUrl(token: string): string
  {
    "http://localhost:8080/reset/" + token
  }

  const ResetMessageLead: string :=
    "You are receiving this email because you (or someone else) have requested the reset of a password. Please make a PUT request to: \n\n "

  function ResetMessage(token: string): string
  {
    ResetMessageLead + ResetUrl(token)
  }

  /**
   * `forgotPassword`: an unknown email answers 400; otherwise the grant is
   * stored on the account and a link is mailed to it. `mailSent` is whether
   * `sendMail` succeeded: when it fails the answer is 500 but the grant stays.
   */
  function ForgotStep(db: Db, email: string, grant: ResetGrant, mailSent: bool): (res: (Reply, Db, Option<Mail>))
    requires Valid(db)
    ensures res.2.None? <==> res.0 == Text(400, "User not found")
    ensures res.2.None? ==> res.1 == db
  {
    match FindOne(db, ByEmail(Some(email)))
    case None => (Text(400, "User not found"), db, None)
    case Some(k) =>
      var u := db.users[k].(resetPasswordToken := Some(grant.token), resetPasswordExpires := Some(grant.expires));
      var reply := if mailSent then Text(200, "Reset password email sent") else Text(500, "Error sending reset password email");
      (reply, Db(db.users[k := u], db.nextId), Some(Mail(u.email, "Password Reset Request", ResetMessage(grant.token))))
  }

  /** An unknown email changes nothing and mails nothing. */
  lemma ForgotUnknownEmail(db: Db, email: string, grant: ResetGrant, mailSent: bool)
    requires Valid(db)
    requires forall k :: k in db.users ==> db.users[k].email != Some(email)
    ensures ForgotStep(db, email, grant, mailSent) == (Text(400, "User not found"), db, None)
  {
  }

  /**
   * For a known email, only that account's two reset fields change, to the
   * grant; the link with the grant's token is mailed to that account's email.
   */
  lemma ForgotStoresGrant(db: Db, email: string, grant: ResetGrant, mailSent: bool, k: Id)
    requires Valid(db) && k in db.users && db.users[k].email == Some(email)
    ensures var (reply, db', mail) := ForgotStep(db, email, grant, mailSent);
      && db' == Db(db.users[k := db.users[k].(resetPasswordToken := Some(grant.token), resetPasswordExpires := Some(grant.expires))], db.nextId)
      && mail == Some(Mail(Some(email), "Password Reset Request", ResetMessage(grant.token)))
      && reply == (if mailSent then Text(200, "Reset password email sent") else Text(500, "Error sending reset password email"))
  {
    FindOneUnique(db, ByEmail(Some(email)), k);
  }

  /** Issuing a reset keeps the collection's invariant. */
  lemma ForgotPreservesValid(db: Db, email: string, grant: ResetGrant, mailSent: bool)
    requires Valid(db)
    ensures Valid(ForgotStep(db, email, grant, mailSent).1)
  {
    var found := FindOne(db, ByEmail(Some(email)));
    if found.Some? {
      var k := found.value;
      SavePreservesValid(db, db.users[k].(resetPasswordToken := Some(grant.token), resetPasswordExpires := Some(grant.expires)));
    }
  }

  /** The account after a redeemed reset: the new hash, and both reset fields cleared. */
  function Redeemed(u: User, password: string): User
  {
    u.(password := HashPassword(password), resetPasswordToken := None, resetPasswordExpires := None)
  }

  /**
   * `resetPassword`: succeeds exactly when some account holds the token with an
   * expiry strictly after `now`, and then redeems it on such an account;
   * every other case answers the same 400 and changes nothing.
   */
  function ResetStep(db: Db, token: string, password: string, now: int): (res: (Reply, Db))
    requires Valid(db)
    ensures res.0 == Text(200, "Password has been reset") <==>
      exists k :: k in db.users && Matches(db.users[k], ByResetToken(token, now))
    ensures res.0 != Text(200, "Password has been reset") ==> res == (Text(400, "Invalid or expired token"), db)
    ensures res.0 == Text(200, "Password has been reset") ==>
      exists k :: k in db.users && Matches(db.users[k], ByResetToken(token, now)) &&
        res.1 == Db(db.users[k := Redeemed(db.users[k], password)], db.nextId)
  {
    match FindOne(db, ByResetToken(token, now))
    case None => (Text(400, "Invalid or expired token"), db)
    case Some(k) => (Text(200, "Password has been reset"), Db(db.users[k := Redeemed(db.users[k], password)], db.nextId))
  }

  /** Redeeming keeps the collection's invariant. */
  lemma ResetPreservesValid(db: Db, token: string, password: string, now: int)
    requires Valid(db)
    ensures Valid(ResetStep(db, token, password, now).1)
  {
    var found := FindOne(db, ByResetToken(token, now));
    if found.Some? {
      HashInjective(password, password);
      SavePreservesValid(db, Redeemed(db.users[found.value], password));
    }
  }

  /** No two accounts hold `token`. */
  ghost predicate TokenHeldOnce(db: Db, token: string)
  {
    forall a, b ::
      (a in db.users && b in db.users &&
       db.users[a].resetPasswordToken == Some(token) && db.users[b].resetPasswordToken == Some(token)) ==> a == b
  }

  /**
   * A reset token works once: after a successful redeem, redeeming the same
   * token again fails, whatever the password and the time, when no other
   * account held the same token.
   */
  lemma RedeemIsSingleUse(db: Db, token: string, pw1: string, now1: int, pw2: string, now2: int)
    requires Valid(db) && TokenHeldOnce(db, token)
    requires ResetStep(db, token, pw1, now1).0 == Text(200, "Password has been reset")
    ensures var db1 := ResetStep(db, token, pw1, now1).1;
      Valid(db1) && ResetStep(db1, token, pw2, now2) == (Text(400, "Invalid or expired token"), db1)
  {
    var db1 := ResetStep(db, token, pw1, now1).1;
    ResetPreservesValid(db, token, pw1, now1);
    var k := FindOne(db, ByResetToken(token, now1)).value;
    forall j | j in db1.users
      ensures !Matches(db1.users[j], ByResetToken(token, now2))
    {
      if j != k {
        assert db1.users[j] == db.users[j];
      }
    }
  }

  /**
   * Redeeming a token that exactly one account holds, unexpired, resets that
   * account: afterwards the new password logs in, when neither it nor the email
   * is empty, and the old one does not.
   */
  lemma RedeemThenLogin(db: Db, k: Id, email: string, oldPw: string, newPw: string, token: string, now: int)
    requires Valid(db) && k in db.users && db.users[k].email == Some(email)
    requires Matches(db.users[k], ByResetToken(token, now))
    requires forall j :: j in db.users && j != k ==> db.users[j].resetPasswordToken != Some(token)
    requires oldPw != newPw
    ensures var (reply, db') := ResetStep(db, token, newPw, now);
      && Valid(db')
      && reply == Text(200, "Password has been reset")
      && (LoginStep(db', email, newPw, now).0.TokenJson? <==> email != "" && newPw != "")
      && LoginStep(db', email, oldPw, now) == (Json(401, "Invalid credentials"), db')
  {
    var (reply, db') := ResetStep(db, token, newPw, now);
    ResetPreservesValid(db, token, newPw, now);
    assert FindOne(db, ByResetToken(token, now)) == Some(k);
    assert db'.users[k] == Redeemed(db.users[k], newPw);
    PasswordCheck(newPw, newPw);
    if email != "" && newPw != "" {
      LoginStampsConnection(db', email, newPw, now, k);
    } else {
      LoginRejectsUniformly(db', email, newPw);
    }
    PasswordCheck(oldPw, newPw);
    LoginRejectsUniformly(db', email, oldPw);
  }

  /**
   * Registering a fresh account and asking a reset for its email leaves the
   * grant on that account alone, under the id the registration gave it.
   */
  lemma RegisterThenForgot(db: Db, name: string, email: string, pw: string, grant: ResetGrant) returns (k: Id)
    requires Valid(db)
    requires RegisterStep(db, name, email, pw, None).0 == Redirect("/")
    requires forall j :: j in db.users ==> db.users[j].resetPasswordToken != Some(grant.token)
    ensures var db1 := RegisterStep(db, name, email, pw, None).1;
      Valid(db1) &&
      var (reply, db2, _) := ForgotStep(db1, email, grant, true);
      && Valid(db2)
      && reply == Text(200, "Reset password email sent")
      && email != "" && k in db2.users && db2.users[k].email == Some(email)
      && db2.users[k].resetPasswordToken == Some(grant.token)
      && db2.users[k].resetPasswordExpires == Some(grant.expires)
      && forall j :: j in db2.users && j != k ==> db2.users[j].resetPasswordToken != Some(grant.token)
  {
    k := db.nextId;
    var db1 := RegisterStep(db, name, email, pw, None).1;
    RegisterPreservesValid(db, name, email, pw, None);
    assert db1.users[k].email == Some(email);
    ForgotStoresGrant(db1, email, grant, true, k);
    ForgotPreservesValid(db1, email, grant, true);
    var db2 := ForgotStep(db1, email, grant, true).1;
    forall j | j in db2.users && j != k
      ensures db2.users[j].resetPasswordToken != Some(grant.token)
    {
      assert db2.users[j] == db.users[j];
    }
  }

  /**
   * The recovery flow end to end: a registered account asks for a reset with a
   * fresh token, redeems it before it expires, and from then on the new password
   * logs in (unless it is empty, which passport-local refuses) and the old one
   * does not.
   */
  lemma RecoveryScenario(db: Db, name: string, email: string, oldPw: string, newPw: string,
                         grant: ResetGrant, now: int)
    requires Valid(db)
    requires RegisterStep(db, name, email, oldPw, None).0 == Redirect("/")
    requires forall k :: k in db.users ==> db.users[k].resetPasswordToken != Some(grant.token)
    requires now < grant.expires && oldPw != newPw
    ensures var db1 := RegisterStep(db, name, email, oldPw, None).1;
      Valid(db1) &&
      var (reply2, db2, _) := ForgotStep(db1, email, grant, true);
      reply2 == Text(200, "Reset password email sent") && Valid(db2) &&
      var (reply3, db3) := ResetStep(db2, grant.token, newPw, now);
      && Valid(db3)
      && reply3 == Text(200, "Password has been reset")
      && (LoginStep(db3, email, newPw, now).0.TokenJson? <==> newPw != "")
      && LoginStep(db3, email, oldPw, now) == (Json(401, "Invalid credentials"), db3)
  {
    var k := RegisterThenForgot(db, name, email, oldPw, grant);
    var db1 := RegisterStep(db, name, email, oldPw, None).1;
    var db2 := ForgotStep(db1, email, grant, true).1;
    RedeemThenLogin(db2, k, email, oldPw, newPw, grant.token, now);
  }

  /**
   * Under the schema as declared, which has no path for the reset fields, the
   * grant `forgotPassword` stores is not written, so the emailed token can
   * never be redeemed: on a collection written under that schema, the reset
   * that follows always answers 400. This takes the reset lookup's filter as
   * written, as Mongoose does when `strictQuery` is off.
   */
  lemma StrictSchemaDropsResetGrant(db: Db, email: string, grant: ResetGrant, mailSent: bool,
                                    password: string, now: int, k: Id)
    requires Valid(db) && k in db.users && db.users[k].email == Some(email)
    requires forall j :: j in db.users ==> db.users[j] == DeclaredPaths(db.users[j])
    ensures var db1 := ForgotStep(db, email, grant, mailSent).1;
      var persisted := Db(db1.users[k := DeclaredPaths(db1.users[k])], db1.nextId);
      && persisted == db
      && ResetStep(persisted, grant.token, password, now) == (Text(400, "Invalid or expired token"), persisted)
  {
    ForgotStoresGrant(db, email, grant, mailSent, k);
    var db1 := ForgotStep(db, email, grant, mailSent).1;
    var persisted := Db(db1.users[k := DeclaredPaths(db1.users[k])], db1.nextId);
    assert persisted.users == db.users;
    assert forall j :: j in db.users ==> !Matches(db.users[j], ByResetToken(grant.token, now));
  }

  /** `forgotPassword` on the collection object. */
  method ForgotPassword(store: UserStore.Users, email: string, grant: ResetGrant, mailSent: bool)
    returns (r: Reply, mail: Option<Mail>)
    requires store.Valid()
    modifies store
    ensures store.Valid()
    ensures (r, store.Snapshot(), mail) == ForgotStep(old(store.Snapshot()), email, grant, mailSent)
  {
    ForgotPreservesValid(store.Snapshot(), email, grant, mailSent);
    var found := store.FindOne(ByEmail(Some(email)));
    if found.None? {
      return Text(400, "User not found"), None;
    }
    var u := store.users[found.value].(resetPasswordToken := Some(grant.token), resetPasswordExpires := Some(grant.expires));
    store.Save(u);
    mail := Some(Mail(u.email, "Password Reset Request", ResetMessage(grant.token)));
    r := if mailSent then Text(200, "Reset password email sent") else Text(500, "Error sending reset password email");
  }

  /** `resetPassword` on the collection object. */
  method ResetPassword(store: UserStore.Users, token: string, password: string, now: int) returns (r: Reply)
    requires store.Valid()
    modifies store
    ensures store.Valid()
    ensures (r, store.Snapshot()) == ResetStep(old(store.Snapshot()), token, password, now)
  {
    ResetPreservesValid(store.Snapshot(), token, password, now);
    var found := store.FindOne(ByResetToken(token, now));
    if found.None? {
      return Text(400, "Invalid or expired token");
    }
    store.Save(Redeemed(store.users[found.value], password));
    r := Text(200, "Password has been reset");
  }

  // ---------------------------------------------------------------- logout

  /**
   * `logoutUser`: with an account attached, its last connection is stamped
   * (the save fails with 500 if the record is gone); then the jwt cookie is
   * cleared and the client sent to the login page.
   */
  function LogoutStep(db: Db, user: Option<User>, now: int): (res: (Reply, Db))
    ensures res.0 != ClearJwtRedirect("/login") ==> res == (Text(500, "Error logging out"), db)
  {
    match user
    case None => (ClearJwtRedirect("/login"), db)
    case Some(u) =>
      if u.id in db.users then
        (ClearJwtRedirect("/login"), Db(db.users[u.id := db.users[u.id].(lastConnection := Some(now))], db.nextId))
      else (Text(500, "Error logging out"), db)
  }

  /**
   * Logout writes only the attached account's last connection when that account
   * is still stored, writes nothing without an attached account, and clears the
   * cookie in both cases. An attached account that is gone gets the 500 that
   * `LogoutStep` states, and the cookie is not cleared.
   */
  lemma LogoutStamps(db: Db, user: Option<User>, now: int)
    requires user.Some? ==> user.value.id in db.users
    ensures LogoutStep(db, user, now).0 == ClearJwtRedirect("/login")
    ensures user.None? ==> LogoutStep(db, user, now).1 == db
    ensures user.Some? ==> var k := user.value.id; var db' := LogoutStep(db, user, now).1;
      db'.nextId == db.nextId && db'.users.Keys == db.users.Keys &&
      db'.users[k].lastConnection == Some(now) &&
      db'.users[k] == db.users[k].(lastConnection := db'.users[k].lastConnection) &&
      forall j :: j in db.users && j != k ==> db'.users[j] == db.users[j]
  {
  }

  /** Logout keeps the collection's invariant. */
  lemma LogoutPreservesValid(db: Db, user: Option<User>, now: int)
    requires Valid(db)
    ensures Valid(LogoutStep(db, user, now).1)
  {
    if user.Some? && user.value.id in db.users {
      SavePreservesValid(db, db.users[user.value.id].(lastConnection := Some(now)));
    }
  }

  /** `logoutUser` on the collection object; a successful logout also ends the session. */
  method LogoutUser(store: UserStore.Users, req: Request, now: int) returns (r: Reply)
    requires store.Valid()
    modifies store, req
    ensures store.Valid()
    ensures (r, store.Snapshot()) == LogoutStep(old(store.Snapshot()), old(req.user), now)
    ensures r == ClearJwtRedirect("/login") ==> req.user == None
    ensures r != ClearJwtRedirect("/login") ==> req.user == old(req.user)
    ensures req.jwtCookie == old(req.jwtCookie) && req.authorization == old(req.authorization)
    ensures req.localsUser == old(req.localsUser)
  {
    LogoutPreservesValid(store.Snapshot(), req.user, now);
    if req.user.Some? {
      var id := req.user.value.id;
      if id !in store.users {
        return Text(500, "Error logging out");
      }
      store.Save(store.users[id].(lastConnection := Some(now)));
    }
    req.user := None;
    r := ClearJwtRedirect("/login");
  }
}
