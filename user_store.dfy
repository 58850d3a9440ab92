/** The `User` collection as a mutable object, whose queries and saves the handlers call. */
module UserStore {

  import opened Wrappers
  import opened UsersModel

  class Users {
    var users: map<Id, User>
    var nextId: Id

    /** The collection's current contents as a value. */
    function Snapshot(): Db
      reads this
    {
      Db(users, nextId)
    }

    ghost predicate Valid()
      reads this
    {
      UsersModel.Valid(Snapshot())
    }

    constructor ()
      ensures Valid() && users == map[] && nextId == 0
    {
      users := map[];
      nextId := 0;
      EmptyValid();
    }

    /** `User.findOne(q)`: a scan in id order that stops at the first match. */
    method FindOne(q: Query) returns (r: Option<Id>)
      requires Valid()
      ensures r == UsersModel.FindOne(Snapshot(), q)
      ensures r.Some? ==> r.value in users && Matches(users[r.value], q)
      ensures r.None? ==> forall k :: k in users ==> !Matches(users[k], q)
    {
      var i := 0;
      while i < nextId
        invariant i <= nextId
        invariant FirstFrom(users, q, i, nextId) == FirstFrom(users, q, 0, nextId)
      {
        if i in users && Matches(users[i], q) {
          return Some(i);
        }
        i := i + 1;
      }
      return None;
    }

    /** `User.findById(id)`. */
    method FindById(id: Id) returns (r: Option<User>)
      ensures r == UsersModel.FindById(Snapshot(), id)
    {
      r := if id in users then Some(users[id]) else None;
    }

    /** `user.save()` of a record already in the collection. */
    method Save(u: User)
      requires u.id in users
      modifies this
      ensures users == old(users)[u.id := u] && nextId == old(nextId)
    {
      users := users[u.id := u];
    }

    /** `new User(fields).save()`, subject to the unique email index. */
    method Insert(u: User) returns (r: Result<User>)
      requires Valid()
      modifies this
      ensures (r, Snapshot()) == InsertStep(old(Snapshot()), u)
    {
      var clash := FindOne(ByEmail(u.email));
      if clash.Some? {
        return Err("E11000 duplicate key error: email");
      }
      var stored := u.(id := nextId);
      users := users[nextId := stored];
      nextId := nextId + 1;
      r := Ok(stored);
    }
  }
}
