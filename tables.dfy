/** The registry's tables (the data package) and the per-request session. Tables are sequences of
    rows in the order the database returns them. */
module Tables {
  import opened Wrappers
  import opened Seqs
  import opened Roles
  import opened Users
  import opened Entities

  /** `PasswordResets`: no primary key, rows are never deleted. */
  datatype PasswordReset = PasswordReset(email: string, token: string, expiration: int)

  /** The session attributes "user" and "role". */
  datatype Session = Session(user: Option<User>, role: Option<Role>)

  /** `ctx.sessionAttribute<Role>("role") ?: default`. */
  function AccessOf(s: Session): (r: Role)
    ensures s.role.None? ==> r == Default
  {
    s.role.GetOr(Default)
  }

  /** Form parameters: every value sent under each name, in order. */
  type Form = map<string, seq<string>>

  /** Query parameters: the first value of each name sent (`ctx.queryParam(name)`). */
  type Query = map<string, string>

  /** `ctx.formParam(name)`: the first value, if any. */
  function FormParam(form: Form, name: string): (r: Option<string>)
    ensures r.Some? <==> name in form && |form[name]| > 0
    ensures r.Some? ==> r.value == form[name][0]
  {
    if name in form && |form[name]| > 0 then Some(form[name][0]) else None
  }

  /** `ctx.formParams(name)`: every value, none when the name is missing. */
  function FormParams(form: Form, name: string): (r: seq<string>)
    ensures name !in form ==> r == []
  {
    if name in form then form[name] else []
  }

  /** `formParamOrFail`: the parameter, or BadRequest when it is missing. */
  function FormParamOrFail(form: Form, name: string): (r: Result<string>)
    ensures r.Err? <==> FormParam(form, name).None?
    ensures r.Err? ==> r.error == BadRequest
    ensures r.Ok? ==> r.value == form[name][0]
  {
    match FormParam(form, name)
    case None => Err(BadRequest)
    case Some(v) => Ok(v)
  }

  // ---------------------------------------------------------------- lookups

  function FindUser(users: seq<User>, id: int): (r: Option<User>)
    ensures r.Some? ==> r.value in users && r.value.id == id
    ensures r.None? <==> forall u :: u in users ==> u.id != id
  {
    if users == [] then None
    else if users[0].id == id then Some(users[0])
    else FindUser(users[1..], id)
  }

  function FindModule(modules: seq<Module>, id: int): (r: Option<Module>)
    ensures r.Some? ==> r.value in modules && r.value.id == id
    ensures r.None? <==> forall m :: m in modules ==> m.id != id
  {
    if modules == [] then None
    else if modules[0].id == id then Some(modules[0])
    else FindModule(modules[1..], id)
  }

  /** `module.owner`: the user the module references. */
  function OwnerOf(users: seq<User>, m: Module): (r: Option<User>)
    ensures r.Some? ==> r.value in users && r.value.id == m.ownerId
    ensures r.None? <==> forall u :: u in users ==> u.id != m.ownerId
  {
    FindUser(users, m.ownerId)
  }

  /** `module.owner == user`, i.e. `owner.equals(user)`: same name and email as the session user. */
  predicate IsOwner(users: seq<User>, m: Module, user: Option<User>) {
    OwnerOf(users, m).Some? && Equals(OwnerOf(users, m).value, AsRef(user))
  }

  /** Nobody owns anything without a session user. */
  lemma AnonymousOwnsNothing(users: seq<User>, m: Module)
    ensures !IsOwner(users, m, None)
  {
  }

  // ---------------------------------------------------------------- deleting rows by id

  /** The rows whose id is not in `ids` (`delete()` on each of them), in order. */
  function WithoutIds(rs: seq<Release>, ids: set<Uuid>): (r: seq<Release>)
    ensures forall x :: x in r <==> x in rs && x.id !in ids
    ensures |r| <= |rs|
  {
    if rs == [] then []
    else (if rs[0].id in ids then [] else [rs[0]]) + WithoutIds(rs[1..], ids)
  }

  /** Deleting in two rounds is deleting once. */
  lemma {:induction false} WithoutIdsTwice(rs: seq<Release>, a: set<Uuid>, b: set<Uuid>)
    ensures WithoutIds(WithoutIds(rs, a), b) == WithoutIds(rs, a + b)
  {
    if rs != [] {
      WithoutIdsTwice(rs[1..], a, b);
      var tail := WithoutIds(rs[1..], a);
      if rs[0].id in a {
        assert WithoutIds(rs, a) == tail;
      } else {
        assert WithoutIds(rs, a) == [rs[0]] + tail;
        assert ([rs[0]] + tail)[1..] == tail;
      }
    }
  }

  lemma {:induction false} WithoutNoIds(rs: seq<Release>)
    ensures WithoutIds(rs, {}) == rs
  {
    if rs != [] {
      WithoutNoIds(rs[1..]);
    }
  }

  /** The ids of a list of rows. */
  function IdsOf(rs: seq<Release>): (ids: set<Uuid>)
    ensures forall x :: x in rs ==> x.id in ids
  {
    if rs == [] then {} else IdsOf(rs[..|rs| - 1]) + {rs[|rs| - 1].id}
  }

  /** Every id collected belongs to one of the rows. */
  lemma {:induction false} IdsOfExact(rs: seq<Release>, id: Uuid)
    requires id in IdsOf(rs)
    ensures exists x :: x in rs && x.id == id
  {
    var init := rs[..|rs| - 1];
    if id != rs[|rs| - 1].id {
      IdsOfExact(init, id);
      var x :| x in init && x.id == id;
      assert x in rs;
    }
  }

  lemma IdsOfSnoc(rs: seq<Release>, x: Release)
    ensures IdsOf(rs + [x]) == IdsOf(rs) + {x.id}
  {
    assert (rs + [x])[..|rs|] == rs;
  }

  /** The pending-verification messages of a list of rows, in order. */
  function MessagesOf(rs: seq<Release>): (ms: seq<MessageId>)
    ensures |ms| <= |rs|
  {
    if rs == [] then []
    else
      var last := rs[|rs| - 1];
      MessagesOf(rs[..|rs| - 1]) + (if last.verificationMessage.Some? then [last.verificationMessage.value] else [])
  }

  /** Every pending message of the rows is collected. */
  lemma {:induction false} MessagesOfComplete(rs: seq<Release>, x: Release)
    requires x in rs && x.verificationMessage.Some?
    ensures x.verificationMessage.value in MessagesOf(rs)
  {
    if x != rs[|rs| - 1] {
      assert x in rs[..|rs| - 1];
      MessagesOfComplete(rs[..|rs| - 1], x);
    }
  }

  lemma MessagesOfOne(r: Release)
    ensures MessagesOf([r]) == if r.verificationMessage.Some? then [r.verificationMessage.value] else []
  {
    assert [r][..0] == [];
  }

  lemma MessagesOfSnoc(rs: seq<Release>, x: Release)
    ensures MessagesOf(rs + [x]) == MessagesOf(rs) + MessagesOf([x])
  {
    assert (rs + [x])[..|rs|] == rs;
    assert [x][..0] == [];
  }

  // ---------------------------------------------------------------- foreign keys

  predicate OwnersExist(users: seq<User>, modules: seq<Module>) {
    forall m :: m in modules ==> OwnerOf(users, m).Some?
  }

  predicate ModulesExist(modules: seq<Module>, releases: seq<Release>) {
    forall r :: r in releases ==> FindModule(modules, r.moduleId).Some?
  }

  /** Deleting releases keeps every remaining release's module reference valid. */
  lemma ModulesExistAfterDelete(modules: seq<Module>, releases: seq<Release>, ids: set<Uuid>)
    requires ModulesExist(modules, releases)
    ensures ModulesExist(modules, WithoutIds(releases, ids))
  {
  }

  lemma ModulesExistAppend(modules: seq<Module>, releases: seq<Release>, r: Release)
    requires ModulesExist(modules, releases) && FindModule(modules, r.moduleId).Some?
    ensures ModulesExist(modules, releases + [r])
  {
  }

  lemma ModulesExistUpdate(modules: seq<Module>, releases: seq<Release>, i: nat, r: Release)
    requires ModulesExist(modules, releases) && i < |releases| && r.moduleId == releases[i].moduleId
    ensures ModulesExist(modules, releases[i := r])
  {
    forall x | x in releases[i := r] ensures FindModule(modules, x.moduleId).Some? {
      var j :| 0 <= j < |releases[i := r]| && releases[i := r][j] == x;
      if j != i { assert x == releases[j]; }
    }
  }

  // ---------------------------------------------------------------- the database

  class Database {
    var users: seq<User>
    var modules: seq<Module>
    var releases: seq<Release>
    var resets: seq<PasswordReset>

    /** The schema's foreign keys: every module references a user and every release a module. */
    ghost predicate Valid()
      reads this
    {
      OwnersExist(users, modules) && ModulesExist(modules, releases)
    }

    constructor()
      ensures Valid()
      ensures users == [] && modules == [] && releases == [] && resets == []
    {
      users, modules, releases, resets := [], [], [], [];
    }
  }
}
