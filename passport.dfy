/**
 * The Passport configuration: the GitHub strategy's verify callback
 * (link an existing account or create one), the local `'login'` strategy's
 * credential check, and the session (de)serialisation of users.
 */
module Passport {

  import opened Wrappers
  import opened UsersModel
  import opened Crypto
  import UserStore

  /** The GitHub profile fields the callback reads. */
  datatype Profile = Profile(id: string, username: string, emails: seq<string>)

  /** `profile.emails[0].value` when the list is present and non-empty, `null` otherwise. */
  function ProfileEmail(p: Profile): (e: Option<string>)
    ensures e.Some? <==> |p.emails| > 0
    ensures e.Some? ==> e.value == p.emails[0]
  {
    if |p.emails| > 0 then Some(p.emails[0]) else None
  }

  /** JavaScript truthiness of an optional string: present and non-empty. */
  predicate Truthy(e: Option<string>)
  {
    e.Some? && e.value != ""
  }

  /** The record the callback creates: GitHub id, profile name and email, no password, role `user`. */
  function NewGithubUser(p: Profile): User
  {
    User(0, p.username, ProfileEmail(p), "", UserRole, [], None, Some(p.id), None, None)
  }

  /**
   * The verify callback as a step on the collection, in its fixed order:
   * the account already linked to the GitHub id; else the account with the
   * provider's (truthy) email, which gets the GitHub id attached; else a new account.
   */
  function LinkStep(db: Db, p: Profile): (res: (Result<User>, Db))
    requires Valid(db)
    ensures res.0.Ok? ==> res.0.value.githubId == Some(p.id)
    ensures res.0.Ok? ==> res.0.value.id in res.1.users && res.1.users[res.0.value.id] == res.0.value
    ensures res.0.Err? ==> res.1 == db
  {
    match FindOne(db, ByGithubId(p.id))
    case Some(k) => (Ok(db.users[k]), db)
    case None =>
      var email := ProfileEmail(p);
      var byEmail := if Truthy(email) then FindOne(db, ByEmail(email)) else None;
      match byEmail
      case Some(k) =>
        var linked := db.users[k].(githubId := Some(p.id));
        (Ok(linked), Db(db.users[k := linked], db.nextId))
      case None => InsertStep(db, NewGithubUser(p))
  }

  /** (a) An account already linked to the GitHub id is returned and nothing is written. */
  lemma LinkFindsByGithubId(db: Db, p: Profile, k: Id)
    requires Valid(db)
    requires k in db.users && db.users[k].githubId == Some(p.id)
    ensures LinkStep(db, p) == (Ok(db.users[k]), db)
  {
    FindOneUnique(db, ByGithubId(p.id), k);
  }

  /**
   * (b) With no linked account, the account holding the provider's email gets
   * the GitHub id and nothing else changes, in it or in any other record.
   */
  lemma LinkAttachesByEmail(db: Db, p: Profile, k: Id)
    requires Valid(db)
    requires forall j :: j in db.users ==> db.users[j].githubId != Some(p.id)
    requires Truthy(ProfileEmail(p)) && k in db.users && db.users[k].email == ProfileEmail(p)
    ensures LinkStep(db, p).0 == Ok(db.users[k].(githubId := Some(p.id)))
    ensures LinkStep(db, p).1 == Db(db.users[k := db.users[k].(githubId := Some(p.id))], db.nextId)
  {
    FindOneUnique(db, ByEmail(ProfileEmail(p)), k);
  }

  /**
   * (c) With neither match, exactly one account is created from the profile
   * under the next id, unless the email index already holds its (absent or
   * empty) email, in which case the save fails and nothing changes.
   */
  lemma LinkCreates(db: Db, p: Profile)
    requires Valid(db)
    requires forall j :: j in db.users ==> db.users[j].githubId != Some(p.id)
    requires Truthy(ProfileEmail(p)) ==> forall j :: j in db.users ==> db.users[j].email != ProfileEmail(p)
    ensures var res := LinkStep(db, p);
      if exists j :: j in db.users && db.users[j].email == ProfileEmail(p) then
        res.0.Err? && res.1 == db
      else
        && res.0 == Ok(User(db.nextId, p.username, ProfileEmail(p), "", UserRole, [], None, Some(p.id), None, None))
        && db.nextId !in db.users
        && res.1 == Db(db.users[db.nextId := res.0.value], db.nextId + 1)
  {
    assert FindOne(db, ByGithubId(p.id)).None?;
  }

  /** Every outcome of the callback keeps the collection's invariant. */
  lemma LinkPreservesValid(db: Db, p: Profile)
    requires Valid(db)
    ensures Valid(LinkStep(db, p).1)
  {
    if FindOne(db, ByGithubId(p.id)).None? {
      var email := ProfileEmail(p);
      var byEmail := if Truthy(email) then FindOne(db, ByEmail(email)) else None;
      if byEmail.Some? {
        var k := byEmail.value;
        SavePreservesValid(db, db.users[k].(githubId := Some(p.id)));
      } else {
        InsertPreservesValid(db, NewGithubUser(p));
      }
    }
  }

  /**
   * Logging in twice with the same GitHub profile returns the same account
   * both times, and the second call writes nothing.
   */
  lemma LinkIdempotent(db: Db, p: Profile)
    requires Valid(db)
    requires LinkStep(db, p).0.Ok?
    ensures LinkStep(LinkStep(db, p).1, p) == LinkStep(db, p)
  {
    var (r, db') := LinkStep(db, p);
    LinkPreservesValid(db, p);
    LinkFindsByGithubId(db', p, r.value.id);
  }

  /**
   * The record the callback creates does not satisfy the schema it is saved
   * under: `password` is required and the callback stores the empty string.
   */
  lemma GithubRecordFailsSchema(p: Profile)
    ensures !SchemaRequired(NewGithubUser(p))
    ensures Authenticatable(NewGithubUser(p))
  {
  }

  /** The GitHub strategy's verify callback, on the collection object. */
  method GithubVerify(store: UserStore.Users, p: Profile) returns (r: Result<User>)
    requires store.Valid()
    modifies store
    ensures store.Valid()
    ensures (r, store.Snapshot()) == LinkStep(old(store.Snapshot()), p)
  {
    LinkPreservesValid(store.Snapshot(), p);
    var found := store.FindOne(ByGithubId(p.id));
    if found.Some? {
      return Ok(store.users[found.value]);
    }
    var email := ProfileEmail(p);
    var byEmail: Option<Id> := None;
    if Truthy(email) {
      byEmail := store.FindOne(ByEmail(email));
    }
    if byEmail.Some? {
      var linked := store.users[byEmail.value].(githubId := Some(p.id));
      store.Save(linked);
      return Ok(linked);
    }
    r := store.Insert(NewGithubUser(p));
  }

  /**
   * The local `'login'` strategy: the account found by email when the password
   * verifies against its hash; no account otherwise, whichever check failed.
   * passport-local itself refuses a request whose email or password is empty
   * before the verify callback runs, with the same failure.
   */
  function LocalStrategy(db: Db, email: string, password: string): (r: Option<User>)
    requires Valid(db)
    ensures r.Some? <==>
      (email != "" && password != "" &&
       exists k :: k in db.users && db.users[k].email == Some(email) && IsValidPassword(password, db.users[k].password))
    ensures r.Some? ==> r.value.id in db.users && db.users[r.value.id] == r.value && r.value.email == Some(email)
  {
    if email == "" || password == "" then None
    else
      match FindOne(db, ByEmail(Some(email)))
      case None => None
      case Some(k) =>
        if IsValidPassword(password, db.users[k].password) then Some(db.users[k]) else None
  }

  /** `serializeUser`: the session keeps only the user's id, the key `deserializeUser` looks up. */
  function SerializeUser(u: User): (id: Id)
    ensures id == u.id
  {
    u.id
  }

  /** `deserializeUser`: the stored record for the id, or none once it is gone. */
  function DeserializeUser(db: Db, id: Id): (r: Option<User>)
    requires IdsConsistent(db)
    ensures r.Some? <==> id in db.users
    ensures r.Some? ==> r.value == db.users[id] && r.value.id == id
  {
    FindById(db, id)
  }

  /** Deserialising a serialised stored user gives back that stored record. */
  lemma SessionRoundTrip(db: Db, k: Id)
    requires IdsConsistent(db) && k in db.users
    ensures DeserializeUser(db, SerializeUser(db.users[k])) == Some(db.users[k])
  {
  }
}
