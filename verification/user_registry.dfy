/** The phase-2 user manager: the registry of users keyed by UUID, with the
    session's logged-in user. Users are shared mutable objects in the source,
    so the logged-in user is held here as the key of its registry entry. */
module UserRegistry {
  import opened Base
  import opened Permissions

  /** The fields of a user the manager reads or writes. How a user is built
      (its class, its initial ban state and links) is decided by a factory
      that is not part of this model. */
  datatype User = User(
    id: Uuid,
    name: string,
    username: string,
    lastLoggedIn: int,
    banned: bool,
    permissions: PermissionMap,
    links: seq<string>)

  datatype Manager = Manager(users: map<Uuid, User>, loggedIn: Option<Uuid>)

  /** What the source throws: a `NullPointerException` from reading an
      absent registry entry, from an unset logged-in user, or from unboxing
      an absent permission flag. */
  datatype ManagerError = NoSuchUser | NotLoggedIn | MissingPermission

  /** Every user is filed under its own UUID, and the logged-in user, when
      there is one, is registered. */
  predicate Valid(m: Manager)
  {
    && (forall id :: id in m.users ==> m.users[id].id == id)
    && (m.loggedIn.Some? ==> m.loggedIn.value in m.users)
  }

  /** A new manager has no users and nobody logged in. */
  const EmptyManager: Manager := Manager(map[], None)

  /** The new manager is well formed; nobody is logged in, and every lookup
      by UUID fails. */
  lemma EmptyManagerValid(id: Uuid)
    ensures Valid(EmptyManager)
    ensures GetLoggedInUserUuid(EmptyManager) == Err(NotLoggedIn)
    ensures !ContainsUserWithUuid(EmptyManager, id)
    ensures CheckBanned(EmptyManager, id) == Err(NoSuchUser)
  {
  }

  /** Users other than `id` are untouched and every user keeps its UUID and
      permissions. */
  predicate OthersUnchanged(m: Manager, m': Manager, id: Uuid)
  {
    && m'.users.Keys == m.users.Keys
    && (forall k :: k in m.users && k != id ==> m'.users[k] == m.users[k])
    && (forall k :: k in m.users ==> m'.users[k].id == m.users[k].id)
    && (forall k :: k in m.users ==> m'.users[k].permissions == m.users[k].permissions)
  }

  /** `containsUserWithUUID`: whether a user is filed under `id`. */
  predicate ContainsUserWithUuid(m: Manager, id: Uuid)
  {
    id in m.users
  }

  /** The position of the first UUID in `candidates` that is not already
      taken. */
  function FirstFresh(candidates: seq<Uuid>, taken: set<Uuid>): (i: nat)
    requires exists k :: 0 <= k < |candidates| && candidates[k] !in taken
    ensures i < |candidates| && candidates[i] !in taken
    ensures forall j :: 0 <= j < i ==> candidates[j] in taken
    decreases |candidates|
  {
    if candidates[0] !in taken then 0
    else
      var k :| 0 <= k < |candidates| && candidates[k] !in taken;
      assert candidates[1..][k - 1] == candidates[k];
      1 + FirstFresh(candidates[1..], taken)
  }

  /** `addUser`: builds users with fresh random UUIDs until one is unused,
      then files it. `candidates` are the UUIDs the generator produces, in
      order, and `proto` is the user the factory builds apart from its UUID. */
  method AddUser(m: Manager, proto: User, candidates: seq<Uuid>) returns (r: Manager, newId: Uuid)
    requires exists k :: 0 <= k < |candidates| && candidates[k] !in m.users
    ensures !ContainsUserWithUuid(m, newId) && ContainsUserWithUuid(r, newId)
    ensures newId == candidates[FirstFresh(candidates, m.users.Keys)]
    ensures r.users.Keys == m.users.Keys + {newId}
    ensures forall k :: k in m.users ==> r.users[k] == m.users[k]
    ensures r.users[newId] == proto.(id := newId)
    ensures r.loggedIn == m.loggedIn
    ensures Valid(m) ==> Valid(r)
  {
    var i := 0;
    while candidates[i] in m.users
      invariant 0 <= i < |candidates|
      invariant i <= FirstFresh(candidates, m.users.Keys)
      decreases |candidates| - i
    {
      i := i + 1;
    }
    newId := candidates[i];
    r := m.(users := m.users[newId := proto.(id := newId)]);
  }

  /** `getUUIDs`: the registered UUIDs as a list, each exactly once, in the
      unspecified order of the map's key set. */
  method GetUuids(m: Manager) returns (ids: seq<Uuid>)
    ensures forall k :: k in ids <==> k in m.users
    ensures forall i, j :: 0 <= i < j < |ids| ==> ids[i] != ids[j]
    ensures |ids| == |m.users.Keys|
  {
    ids := [];
    var todo := m.users.Keys;
    while todo != {}
      invariant todo <= m.users.Keys
      invariant forall k :: k in ids <==> k in m.users && k !in todo
      invariant forall i, j :: 0 <= i < j < |ids| ==> ids[i] != ids[j]
      invariant |ids| + |todo| == |m.users.Keys|
      decreases todo
    {
      var k :| k in todo;
      ids := ids + [k];
      todo := todo - {k};
    }
  }

  /** `containsUserWithUsername`: whether any registered user has the name. */
  method ContainsUserWithUsername(m: Manager, username: string) returns (b: bool)
    ensures b <==> exists id :: id in m.users && m.users[id].username == username
  {
    var found := FindKey(m.users, (u: User) => u.username == username);
    b := found.Some?;
  }

  /** `getUUIDWithUsername`: the UUID of some user with the name, or `null`
      when there is none. Usernames are meant to be unique; if they are not,
      which match is returned depends on the map's iteration order. */
  method GetUuidWithUsername(m: Manager, username: string) returns (r: Option<Uuid>)
    ensures r.None? <==> forall id :: id in m.users ==> m.users[id].username != username
    ensures r.Some? ==> exists k :: k in m.users && m.users[k].username == username && m.users[k].id == r.value
    ensures r.Some? && Valid(m) ==> r.value in m.users && m.users[r.value].username == username
  {
    var found := FindKey(m.users, (u: User) => u.username == username);
    match found
    case None => r := None;
    case Some(k) => r := Some(m.users[k].id);
  }

  /** `checkBannedWithUUID`. */
  function CheckBanned(m: Manager, id: Uuid): (r: Result<bool, ManagerError>)
    ensures r.Ok? <==> id in m.users
    ensures r.Err? ==> r.error == NoSuchUser
    ensures r.Ok? ==> r.value == m.users[id].banned
  {
    if id in m.users then Ok(m.users[id].banned) else Err(NoSuchUser)
  }

  /** `setUserBan`: sets the flag that `checkBannedWithUUID` reads back,
      changing nothing else. */
  function SetUserBan(m: Manager, id: Uuid, banned: bool): (r: Result<Manager, ManagerError>)
    ensures r.Ok? <==> id in m.users
    ensures r.Err? ==> r.error == NoSuchUser
    ensures r.Ok? ==> CheckBanned(r.value, id) == Ok(banned)
    ensures r.Ok? ==> OthersUnchanged(m, r.value, id) && r.value.loggedIn == m.loggedIn
    ensures r.Ok? ==> r.value.users[id].(banned := m.users[id].banned) == m.users[id]
    ensures r.Ok? ==> (Valid(m) <==> Valid(r.value))
  {
    if id in m.users then Ok(m.(users := m.users[id := m.users[id].(banned := banned)]))
    else Err(NoSuchUser)
  }

  /** Setting a user's ban and then setting it back to what it was restores
      the manager. */
  lemma SetUserBanUndone(m: Manager, id: Uuid, banned: bool)
    requires id in m.users
    ensures SetUserBan(SetUserBan(m, id, banned).value, id, m.users[id].banned) == Ok(m)
  {
    var m1 := SetUserBan(m, id, banned).value;
    var m2 := SetUserBan(m1, id, m.users[id].banned).value;
    assert m2.users == m.users;
  }

  /** `getLoggedInUserUUID`: the UUID of the logged-in user object. */
  function GetLoggedInUserUuid(m: Manager): (r: Result<Uuid, ManagerError>)
    ensures r.Ok? <==> m.loggedIn.Some? && m.loggedIn.value in m.users
    ensures r.Ok? && Valid(m) ==> m.loggedIn == Some(r.value)
  {
    match m.loggedIn
    case None => Err(NotLoggedIn)
    case Some(k) => if k in m.users then Ok(m.users[k].id) else Err(NoSuchUser)
  }

  /** `setLoggedInUser`: makes the user the logged-in one and stamps its
      last login with `now`, the clock reading the source takes itself. */
  function SetLoggedInUser(m: Manager, id: Uuid, now: int): (r: Result<Manager, ManagerError>)
    ensures r.Ok? <==> id in m.users
    ensures r.Err? ==> r.error == NoSuchUser
    ensures r.Ok? ==> r.value.loggedIn == Some(id)
    ensures r.Ok? && Valid(m) ==> Valid(r.value) && GetLoggedInUserUuid(r.value) == Ok(id)
    ensures r.Ok? ==> OthersUnchanged(m, r.value, id)
    ensures r.Ok? ==> r.value.users[id].lastLoggedIn == now
    ensures r.Ok? ==> r.value.users[id].(lastLoggedIn := m.users[id].lastLoggedIn) == m.users[id]
  {
    if id in m.users then
      Ok(Manager(m.users[id := m.users[id].(lastLoggedIn := now)], Some(id)))
    else Err(NoSuchUser)
  }

  /** `hasPermission`: the user's stored flag; an unregistered user or a
      flag missing from its map throws. */
  function HasPermission(m: Manager, id: Uuid, p: Perm): (r: Result<bool, ManagerError>)
    ensures r == Ok(true) <==> id in m.users && Lookup(m.users[id].permissions, p) == Some(true)
    ensures r == Ok(false) <==> id in m.users && Lookup(m.users[id].permissions, p) == Some(false)
    ensures r == Err(NoSuchUser) <==> id !in m.users
  {
    if id !in m.users then Err(NoSuchUser)
    else match Lookup(m.users[id].permissions, p)
      case None => Err(MissingPermission)
      case Some(b) => Ok(b)
  }

  /** `loggedInHasPermission`: the logged-in user's stored flag. */
  function LoggedInHasPermission(m: Manager, p: Perm): (r: Result<bool, ManagerError>)
    ensures m.loggedIn.None? ==> r == Err(NotLoggedIn)
    ensures r.Ok? ==> m.loggedIn.Some? && m.loggedIn.value in m.users
                      && Lookup(m.users[m.loggedIn.value].permissions, p) == Some(r.value)
  {
    match m.loggedIn
    case None => Err(NotLoggedIn)
    case Some(k) =>
      if k !in m.users then Err(NoSuchUser)
      else match Lookup(m.users[k].permissions, p)
        case None => Err(MissingPermission)
        case Some(b) => Ok(b)
  }

  /** Asking about the logged-in user is asking about that user by UUID. */
  lemma LoggedInPermissionIsUserPermission(m: Manager, p: Perm)
    requires Valid(m) && m.loggedIn.Some?
    ensures LoggedInHasPermission(m, p) == HasPermission(m, m.loggedIn.value, p)
  {
  }

  /** A user filed with the Admin template holds the ban flag and lacks the
      event-signup flag, whoever else is registered. */
  lemma AdminMayBan(m: Manager, admin: User)
    ensures var filed := m.(users := m.users[admin.id := admin.(permissions := AdminPermissions())]);
            && HasPermission(filed, admin.id, CanBanUsers) == Ok(true)
            && HasPermission(filed, admin.id, CanSignUpEvent) == Ok(false)
  {
  }

  /** `checkUserLoggedIn`: whether the user's last login lies strictly
      between the two bounds; a login exactly at either bound does not count,
      whatever the method's documentation says about inclusiveness. */
  function CheckUserLoggedIn(m: Manager, id: Uuid, startTime: int, endTime: int): (r: Result<bool, ManagerError>)
    ensures r.Ok? <==> id in m.users
    ensures r.Err? ==> r.error == NoSuchUser
    ensures r == Ok(true) <==> id in m.users && startTime < m.users[id].lastLoggedIn < endTime
  {
    if id !in m.users then Err(NoSuchUser)
    else
      var time := m.users[id].lastLoggedIn;
      Ok(startTime < time && endTime > time)
  }

  /** After logging in at `now`, a user counts as logged in within exactly
      the windows that contain `now` strictly inside them. */
  lemma LoginThenWindow(m: Manager, id: Uuid, now: int, startTime: int, endTime: int)
    requires id in m.users
    ensures CheckUserLoggedIn(SetLoggedInUser(m, id, now).value, id, startTime, endTime)
         == Ok(startTime < now < endTime)
  {
  }

  /** `getUserLinks`: the user's profile links. */
  function GetUserLinks(m: Manager, id: Uuid): (r: Result<seq<string>, ManagerError>)
    ensures r.Ok? <==> id in m.users
    ensures r.Ok? ==> r.value == m.users[id].links
  {
    if id in m.users then Ok(m.users[id].links) else Err(NoSuchUser)
  }

  /** `userHasLinks`: whether the user has at least one link. */
  function UserHasLinks(m: Manager, id: Uuid): (r: Result<bool, ManagerError>)
    ensures r.Ok? <==> GetUserLinks(m, id).Ok?
    ensures r.Ok? ==> (r.value <==> GetUserLinks(m, id).value != [])
  {
    match GetUserLinks(m, id)
    case Err(e) => Err(e)
    case Ok(links) => Ok(|links| > 0)
  }

  /** `containsUserWithUUID` holds exactly when the lookups by that UUID do
      not throw, and banning a user leaves the registered UUIDs as they
      were. */
  lemma ContainsIffLookupsSucceed(m: Manager, id: Uuid, other: Uuid, banned: bool)
    ensures ContainsUserWithUuid(m, id) <==> CheckBanned(m, id).Ok?
    ensures ContainsUserWithUuid(m, id) <==> GetUserLinks(m, id).Ok?
    ensures ContainsUserWithUuid(m, id) <==> SetUserBan(m, id, banned).Ok?
    ensures ContainsUserWithUuid(m, id) ==>
              (ContainsUserWithUuid(SetUserBan(m, id, banned).value, other) <==> ContainsUserWithUuid(m, other))
  {
  }
}
