/** The module endpoints (api/ModuleController.kt): creating a module, editing and deleting
    it (its owner, trusted users and admins only), the filtered, sorted and paged listing,
    and the lookup by id or by name. */
module ModuleApi {
  import opened Wrappers
  import opened Seqs
  import opened Text
  import opened Roles
  import opened Users
  import opened Entities
  import opened Tables
  import opened ModuleViews
  import opened ModuleAccess
  import opened Storage
  import opened ReleaseApi
  import opened Patterns
  import Auth

  // ---------------------------------------------------------------- create

  /** `givenTags.any { it !in allowedTags }` is false. */
  predicate AllAllowed(givenTags: seq<string>, allowedTags: seq<string>) {
    forall t :: t in givenTags ==> t in allowedTags
  }

  /** `toBoolean()`: "true" in any letter case. */
  predicate IsTrue(s: string) {
    Lower(s) == "true"
  }

  /** `Module.find { Modules.name eq newName }` is not empty. */
  predicate NameTaken(modules: seq<Module>, name: string) {
    exists m :: m in modules && m.name == name
  }

  /** The checks of `create` in their order, and the row it inserts: the session user as
      owner, no downloads, the given tags comma-joined, hidden only when `flagged` reads as
      true, both timestamps set to now. The owner reference is checked when the row is
      written, after every other check. */
  function NewModule(modules: seq<Module>, users: seq<User>, session: Session, form: Form,
                     allowedTags: seq<string>, newId: int, now: int): (r: Result<Module>)
    ensures session.user.None? ==> r == Err(Unauthorized)
    ensures r.Ok? <==>
      && session.user.Some?
      && FormParam(form, "name").Some? && NameValid(FormParam(form, "name").value)
      && !NameTaken(modules, FormParam(form, "name").value)
      && AllAllowed(FormParams(form, "tags"), allowedTags)
      && FormParam(form, "description").Some?
      && FindUser(users, session.user.value.id).Some?
    ensures session.user.Some? && (FormParam(form, "name").None? || !NameValid(FormParam(form, "name").value))
      ==> r == Err(BadRequest)
    ensures (session.user.Some? && FormParam(form, "name").Some? && NameValid(FormParam(form, "name").value)
      && NameTaken(modules, FormParam(form, "name").value)) ==> r == Err(Conflict)
    ensures r.Ok? ==>
      && r.value.id == newId && r.value.ownerId == session.user.value.id
      && r.value.name == form["name"][0] && r.value.description == form["description"][0]
      && r.value.image == FormParam(form, "image") && r.value.downloads == 0
      && r.value.tags == Join(FormParams(form, "tags"), ",")
      && (r.value.hidden <==> FormParam(form, "flagged").Some? && IsTrue(FormParam(form, "flagged").value))
      && r.value.createdAt == now && r.value.updatedAt == now
  {
    if session.user.None? then Err(Unauthorized)
    else
      var name :- FormParamOrFail(form, "name");
      if !NameValid(name) then Err(BadRequest)
      else if NameTaken(modules, name) then Err(Conflict)
      else
        var givenTags := FormParams(form, "tags");
        if !AllAllowed(givenTags, allowedTags) then Err(BadRequest)
        else
          var description :- FormParamOrFail(form, "description");
          var flagged := FormParam(form, "flagged");
          var hidden := flagged.Some? && IsTrue(flagged.value);
          if FindUser(users, session.user.value.id).None? then Err(ServerError)
          else Ok(Module(newId, session.user.value.id, name, description, FormParam(form, "image"),
                         0, Join(givenTags, ","), hidden, now, now))
  }

  /** `flagged` is read case-insensitively on creation, but must be exactly "true" or
      "false" on update. */
  lemma FlaggedCaseOnCreate()
    ensures IsTrue("TRUE") && IsTrue("True") && !IsTrue("yes") && !IsTrue("")
  {
    assert Lower("TRUE") == "true";
    assert Lower("True") == "true";
  }

  /** The tags of a new module read back, in the public view, as the non-blank given tags. */
  lemma CreatedTagsReadBack(modules: seq<Module>, users: seq<User>, session: Session, form: Form,
                            allowedTags: seq<string>, newId: int, now: int)
    requires NewModule(modules, users, session, form, allowedTags, newId, now).Ok?
    requires forall t :: t in allowedTags ==> ',' !in t
    ensures TagList(NewModule(modules, users, session, form, allowedTags, newId, now).value.tags)
         == Filter(FormParams(form, "tags"), NotBlank)
  {
    var given := FormParams(form, "tags");
    assert forall i :: 0 <= i < |given| ==> given[i] in allowedTags;
    TagListOfJoined(given);
  }

  /** A new module has no releases, so its public view lists none. */
  lemma CreatedModuleView(modules: seq<Module>, releases: seq<Release>, row: Module, owner: User)
    requires ModulesExist(modules, releases) && FindModule(modules, row.id).None?
    ensures ReleasesOf(releases, row.id) == []
    ensures PublicView(row, owner, ReleasesOf(releases, row.id)).Ok?
    ensures PublicView(row, owner, ReleasesOf(releases, row.id)).value.releases == []
  {
    assert forall x :: x in releases ==> x.moduleId != row.id;
    ReleasesOfNone(releases, row.id);
    assert Resolution.Verified([]) == [];
  }

  lemma {:induction false} ReleasesOfNone(releases: seq<Release>, id: int)
    requires forall x :: x in releases ==> x.moduleId != id
    ensures ReleasesOf(releases, id) == []
  {
    if releases != [] {
      ReleasesOfNone(releases[1..], id);
    }
  }

  /** A module appended to the table keeps every owner and module reference valid when its
      owner exists. */
  lemma ValidAfterInsert(users: seq<User>, modules: seq<Module>, releases: seq<Release>, m: Module)
    requires OwnersExist(users, modules) && ModulesExist(modules, releases)
    requires OwnerOf(users, m).Some?
    ensures OwnersExist(users, modules + [m]) && ModulesExist(modules + [m], releases)
  {
    forall x | x in releases ensures FindModule(modules + [m], x.moduleId).Some? {
      var y := FindModule(modules, x.moduleId).value;
      assert y in modules + [m];
    }
  }

  /** `create`: the checks one by one, then the insert. `announce` is the `ModuleCreated`
      event and the webhook message, sent for a shown module only. */
  method CreateModule(db: Database, session: Session, form: Form, allowedTags: seq<string>,
                      newId: int, now: int) returns (res: Result<Module>, announce: bool)
    requires db.Valid()
    requires FindModule(db.modules, newId).None?
    modifies db`modules
    ensures db.Valid()
    ensures res == NewModule(old(db.modules), db.users, session, form, allowedTags, newId, now)
    ensures res.Err? ==> !announce && db.modules == old(db.modules)
    ensures res.Ok? ==> announce == !res.value.hidden && db.modules == old(db.modules) + [res.value]
  {
    announce := false;
    if session.user.None? {
      return Err(Unauthorized), false;
    }
    var currentUser := session.user.value;
    var newName := FormParam(form, "name");
    if newName.None? {
      return Err(BadRequest), false;
    }
    if !NameValid(newName.value) {
      return Err(BadRequest), false;
    }
    if NameTaken(db.modules, newName.value) {
      return Err(Conflict), false;
    }
    var givenTags := FormParams(form, "tags");
    if !AllAllowed(givenTags, allowedTags) {
      return Err(BadRequest), false;
    }
    var description := FormParam(form, "description");
    if description.None? {
      return Err(BadRequest), false;
    }
    var flagged := FormParam(form, "flagged");
    var row := Module(newId, currentUser.id, newName.value, description.value, FormParam(form, "image"),
                         0, Join(givenTags, ","), flagged.Some? && IsTrue(flagged.value), now, now);
    if FindUser(db.users, currentUser.id).None? {
      return Err(ServerError), false;
    }
    ValidAfterInsert(db.users, db.modules, db.releases, row);
    db.modules := db.modules + [row];
    return Ok(row), !row.hidden;
  }

  // ---------------------------------------------------------------- update and delete

  /** The module a caller may change: `getModuleOrFail`, then Forbidden for a default-role
      caller who does not own it (shared by `update` and `delete`). */
  function EditableModule(modules: seq<Module>, users: seq<User>, releases: seq<Release>,
                          session: Session, resourceId: string): (r: Result<Module>)
    ensures r.Ok? ==> r.value in modules && FindModule(modules, r.value.id) == Some(r.value)
    ensures r.Ok? ==> AccessOf(session) != Default || IsOwner(users, r.value, session.user)
    ensures GetModuleOrFail(modules, users, releases, resourceId, session.user, AccessOf(session)).Err? ==>
      r == GetModuleOrFail(modules, users, releases, resourceId, session.user, AccessOf(session))
    ensures r.Err? && GetModuleOrFail(modules, users, releases, resourceId, session.user, AccessOf(session)).Ok?
      ==> r == Err(Forbidden)
  {
    var access := AccessOf(session);
    var m :- GetModuleOrFail(modules, users, releases, resourceId, session.user, access);
    if !IsOwner(users, m, session.user) && access == Default then Err(Forbidden) else Ok(m)
  }

  /** A default-role caller who does not own a module can neither edit nor delete it, even
      when they may see it. */
  lemma StrangerIsForbidden(modules: seq<Module>, users: seq<User>, releases: seq<Release>,
                            session: Session, resourceId: string)
    requires AccessOf(session) == Default
    requires GetModuleOrFail(modules, users, releases, resourceId, session.user, Default).Ok?
    requires !IsOwner(users, GetModuleOrFail(modules, users, releases, resourceId, session.user, Default).value, session.user)
    ensures EditableModule(modules, users, releases, session, resourceId) == Err(Forbidden)
  {
  }

  /** The image `update` stores: unchanged when not given, otherwise an imgur link. */
  function EditedImage(m: Module, form: Form): (r: Result<Option<string>>)
    ensures FormParam(form, "image").None? ==> r == Ok(m.image)
    ensures FormParam(form, "image").Some? ==>
      && (r.Ok? <==> ImgurLink(FormParam(form, "image").value))
      && (r.Ok? ==> r.value == FormParam(form, "image"))
      && (r.Err? ==> r.error == BadRequest)
  {
    match FormParam(form, "image")
    case None => Ok(m.image)
    case Some(image) => if ImgurLink(image) then Ok(Some(image)) else Err(BadRequest)
  }

  /** The hidden flag `update` stores: `flagged` must be exactly "true" or "false". */
  function EditedHidden(m: Module, form: Form): (r: Result<bool>)
    ensures FormParam(form, "flagged").None? ==> r == Ok(m.hidden)
    ensures FormParam(form, "flagged") == Some("true") ==> r == Ok(true)
    ensures FormParam(form, "flagged") == Some("false") ==> r == Ok(false)
    ensures r.Err? <==> FormParam(form, "flagged").Some? && FormParam(form, "flagged").value !in {"true", "false"}
    ensures r.Err? ==> r.error == BadRequest
  {
    match FormParam(form, "flagged")
    case None => Ok(m.hidden)
    case Some(f) => if f == "true" then Ok(true) else if f == "false" then Ok(false) else Err(BadRequest)
  }

  /** The tags `update` stores (`formParamMap()["tags"]`, every value sent): unchanged when
      none are sent; cleared when the first is blank, whatever follows; otherwise they must
      all be allowed and are stored comma-joined. A field sent without a value arrives as
      `[""]` and clears the tags; an empty value list, which the form parser never
      produces, would make `givenTags[0]` throw and is kept as a 500. */
  function EditedTags(m: Module, form: Form, allowedTags: seq<string>): (r: Result<string>)
    ensures "tags" !in form ==> r == Ok(m.tags)
    ensures "tags" in form && form["tags"] == [] ==> r == Err(ServerError)
    ensures "tags" in form && form["tags"] != [] && IsBlank(form["tags"][0]) ==> r == Ok("")
    ensures "tags" in form && form["tags"] != [] && !IsBlank(form["tags"][0]) ==>
      && (r.Ok? <==> AllAllowed(form["tags"], allowedTags))
      && (r.Ok? ==> r.value == Join(form["tags"], ","))
      && (r.Err? ==> r.error == BadRequest)
  {
    if "tags" !in form then Ok(m.tags)
    else
      var givenTags := form["tags"];
      if givenTags == [] then Err(ServerError)
      else if IsBlank(givenTags[0]) then Ok("")
      else if !AllAllowed(givenTags, allowedTags) then Err(BadRequest)
      else Ok(Join(givenTags, ","))
  }

  /** The edited row: description, image, hidden flag and tags as the form says, and the
      update time; id, owner, name, downloads and creation time never change. */
  function Edited(m: Module, form: Form, allowedTags: seq<string>, now: int): (r: Result<Module>)
    ensures r.Ok? <==> EditedImage(m, form).Ok? && EditedHidden(m, form).Ok? && EditedTags(m, form, allowedTags).Ok?
    ensures r.Ok? ==>
      && r.value.id == m.id && r.value.ownerId == m.ownerId && r.value.name == m.name
      && r.value.downloads == m.downloads && r.value.createdAt == m.createdAt
      && r.value.description == FormParam(form, "description").GetOr(m.description)
      && r.value.image == EditedImage(m, form).value
      && r.value.hidden == EditedHidden(m, form).value
      && r.value.tags == EditedTags(m, form, allowedTags).value
      && r.value.updatedAt == now
  {
    var image :- EditedImage(m, form);
    var hidden :- EditedHidden(m, form);
    var tags :- EditedTags(m, form, allowedTags);
    Ok(m.(description := FormParam(form, "description").GetOr(m.description), image := image,
          hidden := hidden, tags := tags, updatedAt := now))
  }

  /** Clearing the tags leaves the public view without tags; setting allowed ones shows the
      non-blank ones, in order. */
  lemma EditedTagsReadBack(m: Module, form: Form, allowedTags: seq<string>)
    requires EditedTags(m, form, allowedTags).Ok? && "tags" in form
    requires forall t :: t in allowedTags ==> ',' !in t
    ensures IsBlank(form["tags"][0]) ==> TagList(EditedTags(m, form, allowedTags).value) == []
    ensures !IsBlank(form["tags"][0]) ==> TagList(EditedTags(m, form, allowedTags).value) == Filter(form["tags"], NotBlank)
  {
    var given := form["tags"];
    if IsBlank(given[0]) {
      assert Split("", ',') == [""];
      assert IsBlank("");
    } else {
      assert forall i :: 0 <= i < |given| ==> given[i] in allowedTags;
      TagListOfJoined(given);
    }
  }

  /** The position of the module with the given id (the first, as `FindModule`). */
  function ModuleIndex(modules: seq<Module>, id: int): (r: Option<nat>)
    ensures r.Some? ==> r.value < |modules| && FindModule(modules, id) == Some(modules[r.value])
    ensures r.None? <==> FindModule(modules, id).None?
  {
    if modules == [] then None
    else if modules[0].id == id then Some(0)
    else match ModuleIndex(modules[1..], id)
      case None => None
      case Some(k) => Some(k + 1)
  }

  /** Rewriting a row with its id and owner unchanged keeps the references valid. */
  lemma ValidAfterRowUpdate(users: seq<User>, modules: seq<Module>, releases: seq<Release>, i: nat, m: Module)
    requires OwnersExist(users, modules) && ModulesExist(modules, releases)
    requires i < |modules| && m.id == modules[i].id && m.ownerId == modules[i].ownerId
    ensures OwnersExist(users, modules[i := m]) && ModulesExist(modules[i := m], releases)
  {
    forall x | x in modules[i := m] ensures OwnerOf(users, x).Some? {
      var j :| 0 <= j < |modules[i := m]| && modules[i := m][j] == x;
      if j != i { assert x == modules[j]; } else { assert OwnerOf(users, modules[i]).Some?; }
    }
    forall x | x in releases ensures FindModule(modules[i := m], x.moduleId).Some? {
      var y := FindModule(modules, x.moduleId).value;
      var j :| 0 <= j < |modules| && modules[j] == y;
      if j == i { assert modules[i := m][i] == m; } else { assert y == modules[i := m][j]; }
    }
  }

  /** `update` up to the response: the module the caller may change and its edited row. */
  function UpdatedModule(modules: seq<Module>, users: seq<User>, releases: seq<Release>, session: Session,
                         resourceId: string, form: Form, allowedTags: seq<string>, now: int): (r: Result<Module>)
    ensures r.Ok? ==> EditableModule(modules, users, releases, session, resourceId).Ok?
    ensures r.Ok? ==> ModuleIndex(modules, r.value.id).Some?
    ensures EditableModule(modules, users, releases, session, resourceId).Err? ==>
      r == EditableModule(modules, users, releases, session, resourceId)
    ensures EditableModule(modules, users, releases, session, resourceId).Ok? ==>
      r == Edited(EditableModule(modules, users, releases, session, resourceId).value, form, allowedTags, now)
  {
    var m :- EditableModule(modules, users, releases, session, resourceId);
    Edited(m, form, allowedTags, now)
  }

  /** The field assignments of `update`, one by one, each failing check ending the edit. */
  method EditRow(original: Module, form: Form, allowedTags: seq<string>, now: int) returns (res: Result<Module>)
    ensures res == Edited(original, form, allowedTags, now)
  {
    var row := original;
    var description := FormParam(form, "description");
    if description.Some? {
      row := row.(description := description.value);
    }
    var image := FormParam(form, "image");
    if image.Some? {
      if !ImgurLink(image.value) {
        return Err(BadRequest);
      }
      row := row.(image := image);
    }
    var flagged := FormParam(form, "flagged");
    if flagged.Some? {
      if flagged.value == "true" {
        row := row.(hidden := true);
      } else if flagged.value == "false" {
        row := row.(hidden := false);
      } else {
        return Err(BadRequest);
      }
    }
    if "tags" in form {
      var givenTags := form["tags"];
      if givenTags == [] {
        return Err(ServerError);
      }
      if IsBlank(givenTags[0]) {
        row := row.(tags := "");
      } else {
        if !AllAllowed(givenTags, allowedTags) {
          return Err(BadRequest);
        }
        row := row.(tags := Join(givenTags, ","));
      }
    }
    row := row.(updatedAt := now);
    return Ok(row);
  }

  /** `update`: the checks, the edit, and the response, which is the public view of the
      edited module; building it can fail too (a 500). Any failure rolls the transaction
      back. */
  method UpdateModule(db: Database, session: Session, resourceId: string, form: Form,
                      allowedTags: seq<string>, now: int) returns (res: Result<ModuleView>)
    requires db.Valid()
    modifies db`modules
    ensures db.Valid()
    ensures var u := UpdatedModule(old(db.modules), db.users, db.releases, session, resourceId, form, allowedTags, now);
      && (u.Err? ==> res == Err(u.error) && db.modules == old(db.modules))
      && (u.Ok? ==>
            var owner := OwnerOf(db.users, u.value);
            var view := PublicView(u.value, owner.value, ReleasesOf(db.releases, u.value.id));
            && owner.Some?
            && (view.Err? ==> res == Err(ServerError) && db.modules == old(db.modules))
            && (view.Ok? ==> res == view && db.modules == old(db.modules)[ModuleIndex(old(db.modules), u.value.id).value := u.value]))
  {
    var found := EditableModule(db.modules, db.users, db.releases, session, resourceId);
    if found.Err? {
      return Err(found.error);
    }
    var edited := EditRow(found.value, form, allowedTags, now);
    if edited.Err? {
      return Err(edited.error);
    }
    var row := edited.value;
    assert OwnerOf(db.users, found.value).Some?;
    var owner := OwnerOf(db.users, row);
    var view := PublicView(row, owner.value, ReleasesOf(db.releases, row.id));
    if view.Err? {
      return Err(ServerError);
    }
    var i := ModuleIndex(db.modules, row.id).value;
    ValidAfterRowUpdate(db.users, db.modules, db.releases, i, row);
    db.modules := db.modules[i := row];
    return view;
  }

  /** The module rows left after `module.delete()`. */
  function WithoutModule(modules: seq<Module>, id: int): (r: seq<Module>)
    ensures forall m :: m in r <==> m in modules && m.id != id
  {
    if modules == [] then []
    else (if modules[0].id == id then [] else [modules[0]]) + WithoutModule(modules[1..], id)
  }

  /** Deleting a module and all its releases keeps the references valid. */
  lemma ValidAfterModuleDelete(users: seq<User>, modules: seq<Module>, releases: seq<Release>, id: int)
    requires OwnersExist(users, modules) && ModulesExist(modules, releases)
    ensures var rest := WithoutIds(releases, IdsOf(ReleasesOf(releases, id)));
      OwnersExist(users, WithoutModule(modules, id)) && ModulesExist(WithoutModule(modules, id), rest)
  {
    var rest := WithoutIds(releases, IdsOf(ReleasesOf(releases, id)));
    forall x | x in rest ensures FindModule(WithoutModule(modules, id), x.moduleId).Some? {
      NoReleaseOfModuleLeft(releases, id, x);
      var y := FindModule(modules, x.moduleId).value;
      assert y in WithoutModule(modules, id);
    }
  }

  /** `delete`: the releases' folders and rows, then the module row. `announce` is the
      `ModuleDeleted` event and the webhook message, sent for a shown module only. */
  method DeleteModule(db: Database, store: Store, session: Session, resourceId: string)
    returns (res: Outcome, announce: bool)
    requires db.Valid()
    modifies db`modules, db`releases, store
    ensures db.Valid()
    ensures var c := EditableModule(old(db.modules), db.users, old(db.releases), session, resourceId);
      && (c.Err? ==>
            && res == Fail(c.error) && !announce && db.modules == old(db.modules)
            && db.releases == old(db.releases) && store.folders == old(store.folders))
      && (c.Ok? ==>
            var m := c.value;
            var mine := IdsOf(ReleasesOf(old(db.releases), m.id));
            && res == Done && announce == !m.hidden
            && db.modules == WithoutModule(old(db.modules), m.id)
            && db.releases == WithoutIds(old(db.releases), mine)
            && store.folders == old(store.folders) - FolderKeys(m, mine))
  {
    var c := EditableModule(db.modules, db.users, db.releases, session, resourceId);
    if c.Err? {
      return Fail(c.error), false;
    }
    var row := c.value;
    ValidAfterModuleDelete(db.users, db.modules, db.releases, row.id);
    ReleaseController.DeleteReleasesForModule(db, store, row);
    db.modules := WithoutModule(db.modules, row.id);
    return Done, !row.hidden;
  }

  // ---------------------------------------------------------------- getAll

  /** `ctx.queryParam<Int>(name, default).get()`: the default when absent, BadRequest when
      not an Int. */
  function IntParamOr(query: Query, name: string, default: int): (r: Result<int>)
    ensures name !in query ==> r == Ok(default)
    ensures name in query ==> (r.Ok? <==> ParseInt(query[name]).Some?)
    ensures name in query && r.Ok? ==> Some(r.value) == ParseInt(query[name])
    ensures r.Err? ==> r.error == BadRequest
  {
    if name !in query then Ok(default)
    else match ParseInt(query[name])
      case None => Err(BadRequest)
      case Some(n) => Ok(n)
  }

  /** What `getAll` filters on; each present parameter adds one condition. */
  datatype Filters = Filters(
    owner: Option<int>,
    trustedOnly: bool,
    tagParts: Option<seq<string>>,
    text: Option<string>,
    hidden: Option<bool>)

  /** The conditions `getAll` builds from the query. `owner` must be an Int when given;
      `trusted` counts when present, whatever its value; `tags` is split on ','; a
      default-role caller sees shown modules only, others may ask for `flagged` ones. */
  function FiltersOf(query: Query, access: Role): (r: Result<Filters>)
    ensures r.Err? <==> "owner" in query && ParseInt(query["owner"]).None?
    ensures r.Err? ==> r.error == BadRequest
    ensures r.Ok? ==> ("owner" in query ==> r.value.owner == ParseInt(query["owner"])) && ("owner" !in query ==> r.value.owner.None?)
    ensures r.Ok? ==> (r.value.trustedOnly <==> "trusted" in query)
    ensures r.Ok? ==> r.value.tagParts == (if "tags" in query then Some(Split(query["tags"], ',')) else None)
    ensures r.Ok? ==> r.value.text == (if "q" in query then Some(query["q"]) else None)
    ensures r.Ok? && access == Default ==> r.value.hidden == Some(false)
    ensures r.Ok? && access != Default ==>
      r.value.hidden == (if "flagged" in query then Some(IsTrue(query["flagged"])) else None)
  {
    var owner :- if "owner" !in query then Ok(None)
                 else match ParseInt(query["owner"])
                   case None => Err(BadRequest)
                   case Some(n) => Ok(Some(n));
    Ok(Filters(
      owner,
      "trusted" in query,
      if "tags" in query then Some(Split(query["tags"], ',')) else None,
      if "q" in query then Some(query["q"]) else None,
      if access != Default then (if "flagged" in query then Some(IsTrue(query["flagged"])) else None) else Some(false)))
  }

  /** `like "%part%"` for one of the parts. */
  predicate AnyPartIn(tags: string, parts: seq<string>) {
    exists part :: part in parts && Contains(tags, part)
  }

  /** One module passes the filters: it joins with its owner, and every given condition holds. */
  predicate Selected(f: Filters, users: seq<User>, m: Module) {
    && OwnerOf(users, m).Some?
    && (f.owner.Some? ==> m.ownerId == f.owner.value)
    && (f.trustedOnly ==> OwnerOf(users, m).value.rank != Default)
    && (f.tagParts.Some? ==> AnyPartIn(m.tags, f.tagParts.value))
    && (f.text.Some? ==>
          var q := f.text.value;
          Contains(OwnerOf(users, m).value.name, q) || Contains(m.name, q) || Contains(m.description, q) || Contains(m.tags, q))
    && (f.hidden.Some? ==> m.hidden == f.hidden.value)
  }

  /** The modules that pass, in table order. */
  function Selection(modules: seq<Module>, users: seq<User>, f: Filters): (r: seq<Module>)
    ensures |r| <= |modules|
    ensures forall m :: m in r <==> m in modules && Selected(f, users, m)
  {
    if modules == [] then []
    else (if Selected(f, users, modules[0]) then [modules[0]] else []) + Selection(modules[1..], users, f)
  }

  datatype SortType = DateCreatedDesc | DateCreatedAsc | DownloadsDesc | DownloadsAsc

  /** The names of the `SortType` constants. */
  function SortTypeName(st: SortType): string {
    match st
    case DateCreatedDesc => "DATE_CREATED_DESC"
    case DateCreatedAsc => "DATE_CREATED_ASC"
    case DownloadsDesc => "DOWNLOADS_DESC"
    case DownloadsAsc => "DOWNLOADS_ASC"
  }

  /** `SortType.valueOf(name)`: the constant with exactly that name. */
  function SortTypeOf(name: string): (r: Option<SortType>)
    ensures r.Some? ==> SortTypeName(r.value) == name
    ensures r.None? <==> forall st: SortType :: SortTypeName(st) != name
  {
    if name == "DATE_CREATED_DESC" then Some(DateCreatedDesc)
    else if name == "DATE_CREATED_ASC" then Some(DateCreatedAsc)
    else if name == "DOWNLOADS_DESC" then Some(DownloadsDesc)
    else if name == "DOWNLOADS_ASC" then Some(DownloadsAsc)
    else None
  }

  /** `(ctx.queryParam("sort") ?: "DATE_CREATED_DESC").toUpperCase()`. */
  function SortName(query: Query): string {
    Upper(if "sort" in query then query["sort"] else "DATE_CREATED_DESC")
  }

  /** A sort name is accepted in any letter case, and the default is newest first. */
  lemma SortNameCaseInsensitive(query: Query)
    ensures "sort" !in query ==> SortTypeOf(SortName(query)) == Some(DateCreatedDesc)
    ensures "sort" in query && query["sort"] == "downloads_asc" ==> SortTypeOf(SortName(query)) == Some(DownloadsAsc)
  {
    assert Upper("DATE_CREATED_DESC") == "DATE_CREATED_DESC";
    assert Upper("downloads_asc") == "DOWNLOADS_ASC";
  }

  /** The column a sort type orders by. */
  function SortKey(st: SortType, m: Module): int {
    if st == DateCreatedDesc || st == DateCreatedAsc then m.createdAt else m.downloads
  }

  /** `a` may come before `b` in the order `st` asks for. */
  predicate InOrder(st: SortType, a: Module, b: Module) {
    if st == DateCreatedDesc || st == DownloadsDesc then SortKey(st, a) >= SortKey(st, b)
    else SortKey(st, a) <= SortKey(st, b)
  }

  predicate SortedBy(st: SortType, ms: seq<Module>) {
    forall i, j :: 0 <= i < j < |ms| ==> InOrder(st, ms[i], ms[j])
  }

  /** Insert `x`, which came first in the input, before the first element it may precede,
      so equal keys stay in table order. */
  function InsertModule(st: SortType, x: Module, ms: seq<Module>): (r: seq<Module>)
    requires SortedBy(st, ms)
    ensures multiset(r) == multiset(ms) + multiset{x}
    ensures forall z :: z in r <==> z == x || z in ms
    ensures SortedBy(st, r)
  {
    if ms == [] || InOrder(st, x, ms[0]) then
      [x] + ms
    else
      var rest := InsertModule(st, x, ms[1..]);
      assert ms == [ms[0]] + ms[1..];
      InsertStep(st, x, ms, rest);
      [ms[0]] + rest
  }

  lemma InsertStep(st: SortType, x: Module, ms: seq<Module>, rest: seq<Module>)
    requires SortedBy(st, ms) && ms != [] && !InOrder(st, x, ms[0])
    requires SortedBy(st, rest) && forall z :: z in rest ==> z == x || z in ms[1..]
    ensures SortedBy(st, [ms[0]] + rest)
  {
    forall z | z in rest ensures InOrder(st, ms[0], z) {
      if z != x {
        var j :| 0 <= j < |ms[1..]| && ms[1..][j] == z;
        assert ms[j + 1] == z;
      }
    }
    var r := [ms[0]] + rest;
    forall i, j | 0 <= i < j < |r| ensures InOrder(st, r[i], r[j]) {
      if i == 0 {
        assert r[j] == rest[j - 1];
        assert rest[j - 1] in rest;
      } else {
        assert r[i] == rest[i - 1] && r[j] == rest[j - 1];
      }
    }
  }

  /** `orderBy(sort)`: a stable sort on the column (the database leaves the order of equal
      keys open; the model keeps table order). */
  function SortModules(st: SortType, ms: seq<Module>): (r: seq<Module>)
    ensures multiset(r) == multiset(ms)
    ensures SortedBy(st, r)
  {
    if ms == [] then []
    else
      assert ms == [ms[0]] + ms[1..];
      InsertModule(st, ms[0], SortModules(st, ms[1..]))
  }

  /** Where the page starts: `OFFSET` is only sent when positive. */
  function PageStart(n: nat, offset: int): (s: nat)
    ensures s <= n
    ensures offset <= 0 ==> s == 0
    ensures 0 < offset <= n ==> s == offset
  {
    if offset <= 0 then 0 else if offset > n then n else offset
  }

  /** `limit(limit, offset)`: at most `limit` rows from the page start on. */
  function Page(ms: seq<Module>, limit: nat, offset: int): (r: seq<Module>)
    ensures |r| <= limit && PageStart(|ms|, offset) + |r| <= |ms|
    ensures |r| == limit || PageStart(|ms|, offset) + |r| == |ms|
    ensures forall i :: 0 <= i < |r| ==> r[i] == ms[PageStart(|ms|, offset) + i]
  {
    var rest := ms[PageStart(|ms|, offset)..];
    if |rest| <= limit then rest else rest[..limit]
  }

  /** The listing before the views: the page of rows, and the count before paging. */
  datatype Listing = Listing(limit: int, offset: int, total: int, rows: seq<Module>)

  /** `getAll` up to the views: parse `limit` and `offset`, build the filters, count, sort
      (an unknown sort name is BadRequest) and cut the page (a negative limit is refused by
      the database). */
  function ListModules(modules: seq<Module>, users: seq<User>, access: Role, query: Query): (r: Result<Listing>)
    ensures r.Ok? ==> r.value.limit >= 0
  {
    var limit :- IntParamOr(query, "limit", 10);
    var offset :- IntParamOr(query, "offset", 0);
    var f :- FiltersOf(query, access);
    var selected := Selection(modules, users, f);
    match SortTypeOf(SortName(query))
    case None => Err(BadRequest)
    case Some(st) =>
      if limit < 0 then Err(ServerError)
      else Ok(Listing(limit, offset, |selected|, Page(SortModules(st, selected), limit, offset)))
  }

  /** A page of a list holds members of the list, in the list's order. */
  lemma PageOfSorted(st: SortType, ms: seq<Module>, limit: nat, offset: int)
    requires SortedBy(st, ms)
    ensures SortedBy(st, Page(ms, limit, offset))
    ensures forall m :: m in Page(ms, limit, offset) ==> m in ms
  {
    var r := Page(ms, limit, offset);
    var s := PageStart(|ms|, offset);
    forall i, j | 0 <= i < j < |r| ensures InOrder(st, r[i], r[j]) {
      assert r[i] == ms[s + i] && r[j] == ms[s + j];
    }
    forall m | m in r ensures m in ms {
      var i :| 0 <= i < |r| && r[i] == m;
      assert m == ms[s + i];
    }
  }

  /** The listing holds only modules that pass the filters, in the requested order;
      `total` counts all of them, the page at most `limit`; a default-role caller sees
      shown modules only. */
  lemma ListingSpec(modules: seq<Module>, users: seq<User>, access: Role, query: Query)
    requires ListModules(modules, users, access, query).Ok?
    ensures var l := ListModules(modules, users, access, query).value;
      var f := FiltersOf(query, access).value;
      && FiltersOf(query, access).Ok?
      && l.total == |Selection(modules, users, f)|
      && |l.rows| <= l.limit && |l.rows| <= l.total
      && (forall m :: m in l.rows ==> m in modules && Selected(f, users, m))
      && SortedBy(SortTypeOf(SortName(query)).value, l.rows)
      && (access == Default ==> forall m :: m in l.rows ==> !m.hidden)
  {
    var l := ListModules(modules, users, access, query).value;
    var f := FiltersOf(query, access).value;
    var st := SortTypeOf(SortName(query)).value;
    var selected := Selection(modules, users, f);
    var sorted := SortModules(st, selected);
    assert l.rows == Page(sorted, l.limit, l.offset);
    PageOfSorted(st, sorted, l.limit, l.offset);
    SortKeepsSize(st, selected);
    forall m | m in l.rows ensures m in selected {
      assert m in multiset(sorted);
    }
  }

  lemma SortKeepsSize(st: SortType, ms: seq<Module>)
    ensures |SortModules(st, ms)| == |ms|
  {
    assert |multiset(SortModules(st, ms))| == |multiset(ms)|;
  }

  /** Every module that passes the filters is listed when the page is large enough. */
  lemma ListingIsComplete(modules: seq<Module>, users: seq<User>, access: Role, query: Query, m: Module)
    requires ListModules(modules, users, access, query).Ok?
    requires ListModules(modules, users, access, query).value.offset <= 0
    requires ListModules(modules, users, access, query).value.limit >= ListModules(modules, users, access, query).value.total
    requires m in modules && Selected(FiltersOf(query, access).value, users, m)
    ensures m in ListModules(modules, users, access, query).value.rows
  {
    var l := ListModules(modules, users, access, query).value;
    var f := FiltersOf(query, access).value;
    var st := SortTypeOf(SortName(query)).value;
    var selected := Selection(modules, users, f);
    var sorted := SortModules(st, selected);
    SortKeepsSize(st, selected);
    assert l.rows == sorted;
    assert m in multiset(selected);
  }

  /** The listing's errors: a malformed `limit`, `offset` or `owner`, or an unknown sort
      name, is BadRequest; a negative limit, which the database refuses, is a 500. */
  lemma ListingErrors(modules: seq<Module>, users: seq<User>, access: Role, query: Query)
    ensures ("limit" in query && ParseInt(query["limit"]).None?) ==> ListModules(modules, users, access, query) == Err(BadRequest)
    ensures (IntParamOr(query, "limit", 10).Ok? && IntParamOr(query, "offset", 0).Ok? && FiltersOf(query, access).Ok?
      && SortTypeOf(SortName(query)).None?) ==> ListModules(modules, users, access, query) == Err(BadRequest)
    ensures (IntParamOr(query, "limit", 10).Ok? && IntParamOr(query, "offset", 0).Ok?
      && "owner" in query && ParseInt(query["owner"]).None?) ==> ListModules(modules, users, access, query) == Err(BadRequest)
    ensures (IntParamOr(query, "limit", 10).Ok? && IntParamOr(query, "limit", 10).value < 0
      && IntParamOr(query, "offset", 0).Ok? && FiltersOf(query, access).Ok?
      && SortTypeOf(SortName(query)).Some?) ==> ListModules(modules, users, access, query) == Err(ServerError)
  {
  }

  /** The view of one row: the authorized view for trusted users and admins, the public one
      (which can fail) otherwise; a row without its owner cannot be shown. */
  function ViewOf(m: Module, users: seq<User>, releases: seq<Release>, authorized: bool): (r: Result<ModuleView>)
    ensures r.Ok? ==> OwnerOf(users, m).Some? && r.value.owner == Public(OwnerOf(users, m).value)
    ensures r.Ok? ==> r.value.id == m.id && (r.value.AuthorizedModule? <==> authorized)
    ensures authorized && OwnerOf(users, m).Some? ==> r.Ok?
    ensures r.Err? ==> r.error == ServerError
  {
    match OwnerOf(users, m)
    case None => Err(ServerError)
    case Some(owner) =>
      if authorized then Ok(AuthorizedView(m, owner, ReleasesOf(releases, m.id)))
      else PublicView(m, owner, ReleasesOf(releases, m.id))
  }

  /** The views of a page, row by row; one failing view fails the page. */
  function ViewsOf(rows: seq<Module>, users: seq<User>, releases: seq<Release>, authorized: bool): (r: Result<seq<ModuleView>>)
    requires forall m :: m in rows ==> OwnerOf(users, m).Some?
    ensures r.Ok? ==> |r.value| == |rows|
    ensures r.Ok? ==> forall i :: 0 <= i < |rows| ==> r.value[i].id == rows[i].id && (r.value[i].AuthorizedModule? <==> authorized)
    ensures r.Ok? ==> forall i :: 0 <= i < |rows| ==> r.value[i].owner == Public(OwnerOf(users, rows[i]).value)
    ensures authorized ==> r.Ok?
    ensures r.Err? ==> r.error == ServerError
  {
    var view := (m: Module) => var v := ViewOf(m, users, releases, authorized); if v.Ok? then Some(v.value) else None;
    match MapAll(rows, view)
    case None => Err(ServerError)
    case Some(vs) =>
      assert forall i :: 0 <= i < |rows| ==> vs[i] == ViewOf(rows[i], users, releases, authorized).value by {
        forall i | 0 <= i < |rows| ensures vs[i] == ViewOf(rows[i], users, releases, authorized).value {
          assert Some(vs[i]) == view(rows[i]);
        }
      }
      Ok(vs)
  }

  datatype ModulePage = ModulePage(limit: int, offset: int, total: int, modules: seq<ModuleView>)

  /** `getAll`: the listing and the views of its rows. */
  function GetAll(modules: seq<Module>, users: seq<User>, releases: seq<Release>, access: Role, query: Query): (r: Result<ModulePage>)
    ensures r.Ok? ==> ListModules(modules, users, access, query).Ok?
    ensures r.Ok? ==> var l := ListModules(modules, users, access, query).value;
      && r.value.limit == l.limit && r.value.offset == l.offset && r.value.total == l.total
      && |r.value.modules| == |l.rows|
      && forall i :: 0 <= i < |l.rows| ==>
          && r.value.modules[i].id == l.rows[i].id
          && (r.value.modules[i].AuthorizedModule? <==> access in Auth.TrustedOrHigher)
    ensures ListModules(modules, users, access, query).Err? ==> r == Err(ListModules(modules, users, access, query).error)
  {
    var l :- ListModules(modules, users, access, query);
    assert forall m :: m in l.rows ==> OwnerOf(users, m).Some? by {
      ListingSpec(modules, users, access, query);
    }
    var views :- ViewsOf(l.rows, users, releases, access in Auth.TrustedOrHigher);
    Ok(ModulePage(l.limit, l.offset, l.total, views))
  }

  // ---------------------------------------------------------------- getOne

  /** `Module.find { Modules.name.lowerCase() eq resourceId }.firstOrNull()`: the id is
      compared with the lower-cased name as given, without lower-casing it. */
  function FindByLowerName(modules: seq<Module>, resourceId: string): (r: Option<Module>)
    ensures r.Some? ==> r.value in modules && Lower(r.value.name) == resourceId
    ensures r.None? <==> forall m :: m in modules ==> Lower(m.name) != resourceId
  {
    if modules == [] then None
    else if Lower(modules[0].name) == resourceId then Some(modules[0])
    else FindByLowerName(modules[1..], resourceId)
  }

  /** `getOne`: an Int id goes through `getModuleOrFail`; anything else is looked up by
      name, BadRequest when nothing matches. Trusted users, admins and the owner get the
      authorized view of the module found, others its public one. */
  function GetOneModule(modules: seq<Module>, users: seq<User>, releases: seq<Release>,
                        session: Session, resourceId: string): (r: Result<ModuleView>)
    requires OwnersExist(users, modules)
    ensures var gm := GetModuleOrFail(modules, users, releases, resourceId, session.user, AccessOf(session));
      ParseInt(resourceId).Some? && gm.Err? ==> r == Err(gm.error)
    ensures var gm := GetModuleOrFail(modules, users, releases, resourceId, session.user, AccessOf(session));
      ParseInt(resourceId).Some? && gm.Ok? ==>
        && r == ViewOf(gm.value, users, releases, AccessOf(session) in Auth.TrustedOrHigher || IsOwner(users, gm.value, session.user))
        && (r.Ok? ==> Some(r.value.id) == ParseInt(resourceId))
    ensures ParseInt(resourceId).None? && FindByLowerName(modules, resourceId).None? ==> r == Err(BadRequest)
    ensures var found := FindByLowerName(modules, resourceId);
      ParseInt(resourceId).None? && found.Some? ==>
        && r == ViewOf(found.value, users, releases, AccessOf(session) in Auth.TrustedOrHigher || IsOwner(users, found.value, session.user))
        && (r.Ok? ==> r.value.id == found.value.id && Lower(found.value.name) == resourceId)
    ensures r.Err? ==> r.error in {BadRequest, NotFound, ServerError}
  {
    var access := AccessOf(session);
    var m :- match ParseInt(resourceId)
      case Some(_) => GetModuleOrFail(modules, users, releases, resourceId, session.user, access)
      case None =>
        match FindByLowerName(modules, resourceId)
        case None => Err(BadRequest)
        case Some(m) => Ok(m);
    ViewOf(m, users, releases, access in Auth.TrustedOrHigher || IsOwner(users, m, session.user))
  }

  /** Looking a module up by name skips the visibility rule: a stranger gets a hidden
      module, or one without a verified release, by its name. */
  lemma ByNameIgnoresVisibility(modules: seq<Module>, users: seq<User>, releases: seq<Release>,
                                session: Session, resourceId: string)
    requires OwnersExist(users, modules)
    requires ParseInt(resourceId).None? && FindByLowerName(modules, resourceId).Some?
    requires PublicView(FindByLowerName(modules, resourceId).value, OwnerOf(users, FindByLowerName(modules, resourceId).value).value,
                        ReleasesOf(releases, FindByLowerName(modules, resourceId).value.id)).Ok?
    ensures GetOneModule(modules, users, releases, session, resourceId).Ok?
    ensures GetOneModule(modules, users, releases, session, resourceId).value.id == FindByLowerName(modules, resourceId).value.id
  {
  }

  /** A name with an upper-case letter is never found: it is compared with lower-cased names. */
  lemma MixedCaseNameNotFound(modules: seq<Module>, users: seq<User>, releases: seq<Release>,
                              session: Session, resourceId: string, i: nat)
    requires OwnersExist(users, modules)
    requires ParseInt(resourceId).None? && i < |resourceId| && 'A' <= resourceId[i] <= 'Z'
    ensures GetOneModule(modules, users, releases, session, resourceId) == Err(BadRequest)
  {
    assert forall m :: m in modules ==> Lower(m.name) != resourceId;
  }

  /** The view kind: authorized exactly for trusted users, admins and the owner. */
  lemma GetOneViewKind(modules: seq<Module>, users: seq<User>, releases: seq<Release>,
                       session: Session, resourceId: string)
    requires OwnersExist(users, modules)
    requires ParseInt(resourceId).Some?
    requires GetOneModule(modules, users, releases, session, resourceId).Ok?
    ensures var m := GetModuleOrFail(modules, users, releases, resourceId, session.user, AccessOf(session)).value;
      GetOneModule(modules, users, releases, session, resourceId).value.AuthorizedModule? <==>
        AccessOf(session) in Auth.TrustedOrHigher || IsOwner(users, m, session.user)
  {
  }
}
