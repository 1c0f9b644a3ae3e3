/** The phase-1 user manager: a plain map from UUID to user, filled one user
    at a time or from a list, with a logged-in user that callers set and read
    directly. */
module LoginUsers {
  import opened Base
  import opened Permissions

  /** The fields of a phase-1 user the manager reads; the rest of the user
      class is not part of this model. */
  datatype User = User(id: Uuid, name: string, username: string, permissions: PermissionMap)

  datatype Manager = Manager(users: map<Uuid, User>, loggedIn: Option<User>)

  /** A new Attendee: the permission template is installed by the
      constructor and never changed afterwards. `id` is the UUID the user
      class generates for itself. */
  function NewAttendee(id: Uuid, name: string, username: string): (u: User)
    ensures u.id == id && u.name == name && u.username == username
    ensures forall p :: Lookup(u.permissions, p) == Some(true) <==> p in AttendeeGrants
    ensures forall p :: Lookup(u.permissions, p) == None <==> p !in AttendeeKeys
  {
    User(id, name, username, AttendeePermissions())
  }

  /** The no-argument constructor: no users, nobody logged in. */
  const EmptyManager: Manager := Manager(map[], None)

  /** `addUser`: files the user under its UUID, replacing any user already
      filed there. */
  function AddUser(m: Manager, u: User): (r: Manager)
    ensures r.users.Keys == m.users.Keys + {u.id}
    ensures r.users[u.id] == u
    ensures forall k :: k in m.users && k != u.id ==> r.users[k] == m.users[k]
    ensures r.loggedIn == m.loggedIn
  {
    m.(users := m.users[u.id := u])
  }

  /** The `(UUID, user)` puts that adding `us` in order performs. */
  function Keyed(us: seq<User>): (r: seq<(Uuid, User)>)
    ensures |r| == |us|
    ensures forall i :: 0 <= i < |us| ==> r[i] == (us[i].id, us[i])
  {
    seq(|us|, i requires 0 <= i < |us| => (us[i].id, us[i]))
  }

  /** One more user is one more put. */
  lemma KeyedStep(us: seq<User>, i: nat)
    requires i < |us|
    ensures Keyed(us[..i + 1]) == Keyed(us[..i]) + [(us[i].id, us[i])]
  {
    var a := Keyed(us[..i + 1]);
    var b := Keyed(us[..i]) + [(us[i].id, us[i])];
    assert |a| == |b|;
    forall k | 0 <= k < |a|
      ensures a[k] == b[k]
    {
      assert us[..i + 1][k] == us[k];
    }
  }

  /** `addUsers`: adds the users in list order, so when two share a UUID the
      later one is kept. */
  function AddUsers(m: Manager, us: seq<User>): (r: Manager)
    ensures r.loggedIn == m.loggedIn
    ensures forall k :: k in r.users <==> k in m.users || exists i :: 0 <= i < |us| && us[i].id == k
    ensures forall i :: 0 <= i < |us| && (forall j :: i < j < |us| ==> us[j].id != us[i].id)
                        ==> r.users[us[i].id] == us[i]
    ensures forall k :: k in m.users && (forall i :: 0 <= i < |us| ==> us[i].id != k)
                        ==> r.users[k] == m.users[k]
  {
    var entries := Keyed(us);
    var users := PutAll(m.users, entries);
    forall i | 0 <= i < |us| && (forall j :: i < j < |us| ==> us[j].id != us[i].id)
      ensures users[us[i].id] == us[i]
    {
      assert LastPut(entries, i);
    }
    forall k | k in m.users && (forall i :: 0 <= i < |us| ==> us[i].id != k)
      ensures users[k] == m.users[k]
    {
      assert NeverPut(entries, k);
    }
    forall k | k in users
      ensures k in m.users || exists i :: 0 <= i < |us| && us[i].id == k
    {
      if k !in m.users {
        var i :| 0 <= i < |entries| && entries[i].0 == k;
        assert us[i].id == k;
      }
    }
    forall k | k in m.users || exists i :: 0 <= i < |us| && us[i].id == k
      ensures k in users
    {
      if k !in m.users {
        var i :| 0 <= i < |us| && us[i].id == k;
        assert entries[i].0 == k;
      }
    }
    m.(users := users)
  }

  /** The list constructor: the users of the list added one by one to an
      empty map, nobody logged in. */
  method FromList(us: seq<User>) returns (m: Manager)
    ensures m == AddUsers(EmptyManager, us)
    ensures m.loggedIn.None?
  {
    var users: map<Uuid, User> := map[];
    for i := 0 to |us|
      invariant users == PutAll(map[], Keyed(us[..i]))
    {
      KeyedStep(us, i);
      PutAllSnoc(map[], Keyed(us[..i]), (us[i].id, us[i]));
      users := users[us[i].id := us[i]];
    }
    assert us[..|us|] == us;
    m := Manager(users, None);
  }

  /** `getUserWithUUID`: the user filed under `id`, or `null`. */
  function GetUserWithUuid(m: Manager, id: Uuid): (r: Option<User>)
    ensures r.Some? <==> id in m.users
    ensures r.Some? ==> r.value == m.users[id]
  {
    if id in m.users then Some(m.users[id]) else None
  }

  /** Adding a user makes it the one found under its UUID. */
  lemma AddThenGet(m: Manager, u: User, id: Uuid)
    ensures GetUserWithUuid(AddUser(m, u), u.id) == Some(u)
    ensures id != u.id ==> GetUserWithUuid(AddUser(m, u), id) == GetUserWithUuid(m, id)
  {
  }

  /** `getUserWithUsername`: some user with the name, or `null` when there is
      none. */
  method GetUserWithUsername(m: Manager, username: string) returns (r: Option<User>)
    ensures r.None? <==> forall k :: k in m.users ==> m.users[k].username != username
    ensures r.Some? ==> r.value in m.users.Values && r.value.username == username
  {
    var found := FindKey(m.users, (u: User) => u.username == username);
    match found
    case None => r := None;
    case Some(k) => r := Some(m.users[k]);
  }

  /** `getLoggedInUser`: the user last set, or `null` if none was. */
  function GetLoggedInUser(m: Manager): Option<User>
  {
    m.loggedIn
  }

  /** `setLoggedInUser`: records the given user (possibly `null`), which the
      getter then returns; the registry is not consulted or changed. */
  function SetLoggedInUser(m: Manager, u: Option<User>): (r: Manager)
    ensures GetLoggedInUser(r) == u
    ensures r.users == m.users
  {
    m.(loggedIn := u)
  }

  /** The logged-in user is what was last set: adding users does not change
      it, and setting it twice keeps only the second. */
  lemma LoggedInIsLastSet(m: Manager, u: User, first: Option<User>, second: Option<User>)
    ensures GetLoggedInUser(AddUser(m, u)) == GetLoggedInUser(m)
    ensures SetLoggedInUser(SetLoggedInUser(m, first), second) == SetLoggedInUser(m, second)
  {
  }

  /** A new manager holds no users and nobody is logged in; a user added to
      it is the only one found. */
  lemma EmptyManagerFacts(u: User, id: Uuid)
    ensures GetUserWithUuid(EmptyManager, id) == None
    ensures GetLoggedInUser(EmptyManager) == None
    ensures GetUserWithUuid(AddUser(EmptyManager, u), id) == if id == u.id then Some(u) else None
  {
  }
}
