/**
 * The user record of the shop backend and the collection that stores it.
 *
 * The record is the Mongoose `userSchema` together with the three fields the
 * controllers write although the schema does not declare them: `githubId`,
 * `resetPasswordToken` and `resetPasswordExpires`. The model keeps all three
 * as the controllers use them; what the declared schema alone would do with
 * them is stated in the Findings of the accompanying README.
 *
 * The collection is a map from id to record plus the next id to hand out,
 * in increasing order. Among several matches `findOne` picks the least id:
 * MongoDB leaves the choice unspecified, so this is the model's own.
 */
module UsersModel {

  import opened Wrappers

  type Id = nat

  /** The `rol` enum. */
  datatype Role = UserRole | PremiumRole | AdminRole

  /** The schema default for `rol`. */
  const DefaultRole: Role := UserRole

  function RoleName(r: Role): string
  {
    match r
    case UserRole => "user"
    case PremiumRole => "premium"
    case AdminRole => "admin"
  }

  /** The enum validator: a string is a role exactly when it is one of the three names. */
  function ParseRole(s: string): (r: Option<Role>)
    ensures r.Some? ==> RoleName(r.value) == s
    ensures r.None? ==> forall x: Role :: RoleName(x) != s
  {
    if s == "user" then Some(UserRole)
    else if s == "premium" then Some(PremiumRole)
    else if s == "admin" then Some(AdminRole)
    else None
  }

  /** Distinct roles have distinct names, so `rol.includes(user.rol)` compares roles. */
  lemma RoleNameInjective(a: Role, b: Role)
    ensures RoleName(a) == RoleName(b) <==> a == b
  {
  }

  /** One uploaded document: its original file name and where it was stored. */
  datatype Document = Document(name: string, reference: string)

  /**
   * A stored user. `email` is optional because the GitHub strategy stores
   * `null` when the provider gives none; `password` is the bcrypt hash, or
   * `""` for an account created through GitHub. Timestamps are integers on
   * one abstract clock.
   */
  datatype User = User(
    id: Id,
    username: string,
    email: Option<string>,
    password: string,
    rol: Role,
    documents: seq<Document>,
    lastConnection: Option<int>,
    githubId: Option<string>,
    resetPasswordToken: Option<string>,
    resetPasswordExpires: Option<int>)

  /**
   * The schema's `required: true` as Mongoose applies it to strings: the value
   * must be present and non-empty (usersModel.js:4-16).
   */
  predicate SchemaRequired(u: User)
  {
    u.username != "" && u.email.Some? && u.email.value != "" && u.password != ""
  }

  /**
   * The rule the controllers actually keep: an account has a local password
   * hash or a linked GitHub identity (or both).
   */
  predicate Authenticatable(u: User)
  {
    u.password != "" || u.githubId.Some?
  }

  /**
   * What a strict Mongoose schema writes of a record: only the declared paths,
   * so the three fields the schema does not declare are lost on save.
   */
  function DeclaredPaths(u: User): User
  {
    u.(githubId := None, resetPasswordToken := None, resetPasswordExpires := None)
  }

  /** The reset token and its expiry are always written and cleared together. */
  predicate ResetFieldsPaired(u: User)
  {
    u.resetPasswordToken.Some? <==> u.resetPasswordExpires.Some?
  }

  /** The whole collection: records by id, and the id the next insert receives. */
  datatype Db = Db(users: map<Id, User>, nextId: Id)

  ghost predicate IdsConsistent(db: Db)
  {
    forall k :: k in db.users ==> db.users[k].id == k && k < db.nextId
  }

  /** The unique index on `email` (usersModel.js:8-12); a missing email is a value too. */
  ghost predicate EmailsUnique(db: Db)
  {
    forall a, b :: a in db.users && b in db.users && a != b ==> db.users[a].email != db.users[b].email
  }

  /** Not an index, but every path that writes `githubId` first checks that no one has it. */
  ghost predicate GithubIdsUnique(db: Db)
  {
    forall a, b :: a in db.users && b in db.users && a != b && db.users[a].githubId.Some? ==>
      db.users[a].githubId != db.users[b].githubId
  }

  ghost predicate RecordsWellFormed(db: Db)
  {
    forall k :: k in db.users ==> ResetFieldsPaired(db.users[k]) && Authenticatable(db.users[k])
  }

  /** The invariant every handler of the core preserves. */
  ghost predicate Valid(db: Db)
  {
    IdsConsistent(db) && EmailsUnique(db) && GithubIdsUnique(db) && RecordsWellFormed(db)
  }

  /** The empty collection satisfies the invariant. */
  lemma EmptyValid()
    ensures Valid(Db(map[], 0))
  {
  }

  /** The filters the core passes to `findOne`. */
  datatype Query =
    | ByEmail(email: Option<string>)            // { email }
    | ByGithubId(githubId: string)              // { githubId: profile.id }
    | ByResetToken(token: string, now: int)     // { resetPasswordToken: token, resetPasswordExpires: { $gt: now } }

  predicate Matches(u: User, q: Query)
  {
    match q
    case ByEmail(e) => u.email == e
    case ByGithubId(g) => u.githubId == Some(g)
    case ByResetToken(t, now) =>
      u.resetPasswordToken == Some(t) && u.resetPasswordExpires.Some? && u.resetPasswordExpires.value > now
  }

  /** The least id in `[i, n)` whose record matches `q`. */
  function FirstFrom(users: map<Id, User>, q: Query, i: nat, n: nat): (r: Option<Id>)
    ensures r.Some? ==> i <= r.value < n && r.value in users && Matches(users[r.value], q)
    ensures r.Some? ==> forall k :: i <= k < r.value && k in users ==> !Matches(users[k], q)
    ensures r.None? ==> forall k :: i <= k < n && k in users ==> !Matches(users[k], q)
    decreases n - i
  {
    if i >= n then None
    else if i in users && Matches(users[i], q) then Some(i)
    else FirstFrom(users, q, i + 1, n)
  }

  /** `User.findOne(q)`: the matching record with the least id (the model's choice among several matches). */
  function FindOne(db: Db, q: Query): (r: Option<Id>)
    requires IdsConsistent(db)
    ensures r.Some? ==> r.value in db.users && Matches(db.users[r.value], q)
    ensures r.Some? ==> forall k :: k in db.users && k < r.value ==> !Matches(db.users[k], q)
    ensures r.None? <==> forall k :: k in db.users ==> !Matches(db.users[k], q)
  {
    FirstFrom(db.users, q, 0, db.nextId)
  }

  /** A lookup by a unique key finds the one record that carries it. */
  lemma FindOneUnique(db: Db, q: Query, k: Id)
    requires Valid(db)
    requires q.ByEmail? || q.ByGithubId?
    requires k in db.users && Matches(db.users[k], q)
    ensures FindOne(db, q) == Some(k)
  {
  }

  /** `User.findById(id)`. */
  function FindById(db: Db, id: Id): Option<User>
  {
    if id in db.users then Some(db.users[id]) else None
  }

  /**
   * `new User(fields).save()`: the record receives the next id, unless the
   * unique email index already holds its email (MongoDB's duplicate key error).
   */
  function InsertStep(db: Db, u: User): (res: (Result<User>, Db))
    requires IdsConsistent(db)
    ensures res.0.Err? <==> exists k :: k in db.users && db.users[k].email == u.email
    ensures res.0.Err? ==> res.1 == db
    ensures res.0.Ok? ==> res.0.value == u.(id := db.nextId) && db.nextId !in db.users
    ensures res.0.Ok? ==> res.1 == Db(db.users[db.nextId := res.0.value], db.nextId + 1)
  {
    if FindOne(db, ByEmail(u.email)).Some? then (Err("E11000 duplicate key error: email"), db)
    else
      var stored := u.(id := db.nextId);
      (Ok(stored), Db(db.users[db.nextId := stored], db.nextId + 1))
  }

  /** An insert keeps the invariant when the new record is well formed and its GitHub id, if any, is unused. */
  lemma InsertPreservesValid(db: Db, u: User)
    requires Valid(db)
    requires ResetFieldsPaired(u) && Authenticatable(u)
    requires u.githubId.Some? ==> forall k :: k in db.users ==> db.users[k].githubId != u.githubId
    ensures Valid(InsertStep(db, u).1)
  {
  }

  /**
   * Saving a changed record in place keeps the invariant when the record stays
   * well formed and keeps its email, and its GitHub id is its old one or unused.
   */
  lemma SavePreservesValid(db: Db, u: User)
    requires Valid(db) && u.id in db.users
    requires ResetFieldsPaired(u) && Authenticatable(u)
    requires u.email == db.users[u.id].email
    requires u.githubId.Some? && u.githubId != db.users[u.id].githubId ==>
      forall k :: k in db.users ==> db.users[k].githubId != u.githubId
    ensures Valid(Db(db.users[u.id := u], db.nextId))
  {
  }
}
