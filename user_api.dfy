/** The user endpoints (api/user.kt): an admin toggling a user between the trusted and the
    default rank, and the public list of a user's modules. */
module UserApi {
  import opened Wrappers
  import opened Text
  import opened Roles
  import opened Users
  import opened Entities
  import opened Tables
  import opened ModuleViews
  import opened ModuleApi

  /** The `user-id` path parameter: an Int (`pathParamAsClass<Int>`) that is not negative. */
  function UserIdParam(resourceId: string): (r: Result<int>)
    ensures r.Ok? <==> ParseInt(resourceId).Some? && ParseInt(resourceId).value >= 0
    ensures r.Ok? ==> Some(r.value) == ParseInt(resourceId)
    ensures r.Err? ==> r.error == BadRequest
  {
    match ParseInt(resourceId)
    case None => Err(BadRequest)
    case Some(id) => if id >= 0 then Ok(id) else Err(BadRequest)
  }

  /** The rank `trust` gives: trusted and default swap, an admin keeps the rank. */
  function ToggledRank(rank: Role): (r: Role)
    ensures rank == Admin <==> r == Admin
    ensures rank != Admin ==> r != rank
  {
    match rank
    case Trusted => Default
    case Default => Trusted
    case Admin => Admin
  }

  /** Toggling twice gives the rank back. */
  lemma ToggleTwice(rank: Role)
    ensures ToggledRank(ToggledRank(rank)) == rank
  {
  }

  /** The users table after `trust` on the user with id `id`: that row's rank is toggled and
      every other row, and every other column, is left as it was. */
  function TrustUser(users: seq<User>, id: int): (r: seq<User>)
    ensures |r| == |users|
    ensures forall i :: 0 <= i < |users| ==> r[i] == users[i].(rank := r[i].rank)
    ensures forall i :: 0 <= i < |users| && r[i] != users[i] ==> users[i].id == id
    ensures FindUser(users, id).None? ==> r == users
    ensures FindUser(users, id).Some? ==>
      FindUser(r, id) == Some(FindUser(users, id).value.(rank := ToggledRank(FindUser(users, id).value.rank)))
  {
    if users == [] then []
    else if users[0].id == id then [users[0].(rank := ToggledRank(users[0].rank))] + users[1..]
    else [users[0]] + TrustUser(users[1..], id)
  }

  /** `trust` twice on the same user restores the table. */
  lemma {:induction false} TrustTwiceRestores(users: seq<User>, id: int)
    ensures TrustUser(TrustUser(users, id), id) == users
  {
    if users == [] {
    } else if users[0].id == id {
      var r := TrustUser(users, id);
      ToggleTwice(users[0].rank);
      assert r[1..] == users[1..];
    } else {
      var r := TrustUser(users, id);
      assert r[0] == users[0] && r[1..] == TrustUser(users[1..], id);
      TrustTwiceRestores(users[1..], id);
    }
  }

  /** Ranks are not part of the foreign keys: toggling one keeps every module's owner. */
  lemma TrustKeepsOwners(users: seq<User>, modules: seq<Module>, id: int)
    requires OwnersExist(users, modules)
    ensures OwnersExist(TrustUser(users, id), modules)
  {
    var r := TrustUser(users, id);
    forall m | m in modules ensures OwnerOf(r, m).Some? {
      var u := OwnerOf(users, m).value;
      var i :| 0 <= i < |users| && users[i] == u;
      assert r[i].id == u.id;
      assert r[i] in r;
    }
  }

  /** Only an admin may `trust`; the id must be a non-negative Int naming a user. */
  function TrustOutcome(users: seq<User>, access: Role, resourceId: string): (r: Outcome)
    ensures access != Admin ==> r == Fail(Forbidden)
    ensures access == Admin && UserIdParam(resourceId).Err? ==> r == Fail(BadRequest)
    ensures r.Done? <==> access == Admin && UserIdParam(resourceId).Ok? && FindUser(users, UserIdParam(resourceId).value).Some?
    ensures r.Fail? ==> r.error in {Forbidden, BadRequest, NotFound}
  {
    if access != Admin then Fail(Forbidden)
    else match UserIdParam(resourceId)
      case Err(e) => Fail(e)
      case Ok(id) => if FindUser(users, id).None? then Fail(NotFound) else Done
  }

  /** `trust`: the checks in the order the handler makes them, then the rank toggle. */
  method Trust(db: Database, session: Session, resourceId: string) returns (res: Outcome)
    modifies db`users
    ensures res == TrustOutcome(old(db.users), AccessOf(session), resourceId)
    ensures res.Fail? ==> db.users == old(db.users)
    ensures res.Done? ==> db.users == TrustUser(old(db.users), UserIdParam(resourceId).value)
    ensures old(db.Valid()) ==> db.Valid()
  {
    var access := AccessOf(session);
    if access != Admin {
      return Fail(Forbidden);
    }
    var userId := UserIdParam(resourceId);
    if userId.Err? {
      return Fail(userId.error);
    }
    var user := FindUser(db.users, userId.value);
    if user.None? {
      return Fail(NotFound);
    }
    if db.Valid() {
      TrustKeepsOwners(db.users, db.modules, userId.value);
    }
    db.users := TrustUser(db.users, userId.value);
    return Done;
  }

  /** `user.modules`: the modules that reference the user, in table order. */
  function OwnedBy(modules: seq<Module>, userId: int): (r: seq<Module>)
    ensures forall m :: m in r <==> m in modules && m.ownerId == userId
  {
    if modules == [] then []
    else (if modules[0].ownerId == userId then [modules[0]] else []) + OwnedBy(modules[1..], userId)
  }

  /** `modules`: the public view of each of the user's modules. */
  function UserModules(modules: seq<Module>, users: seq<User>, releases: seq<Release>, resourceId: string): (r: Result<seq<ModuleView>>)
    ensures UserIdParam(resourceId).Err? ==> r == Err(BadRequest)
    ensures UserIdParam(resourceId).Ok? && FindUser(users, UserIdParam(resourceId).value).None? ==> r == Err(NotFound)
    ensures r.Err? ==> r.error in {BadRequest, NotFound, ServerError}
    ensures r.Ok? ==> UserIdParam(resourceId).Ok? && FindUser(users, UserIdParam(resourceId).value).Some?
    ensures r.Ok? ==>
      var id := UserIdParam(resourceId).value;
      var owned := OwnedBy(modules, id);
      && |r.value| == |owned|
      && forall i :: 0 <= i < |owned| ==>
          && r.value[i].PublicModule? && r.value[i].id == owned[i].id
          && r.value[i].owner == Public(FindUser(users, id).value)
  {
    var id :- UserIdParam(resourceId);
    var user := FindUser(users, id);
    if user.None? then Err(NotFound)
    else
      var owned := OwnedBy(modules, id);
      assert forall m :: m in owned ==> OwnerOf(users, m) == user;
      ViewsOf(owned, users, releases, false)
  }
}
