/** `getModuleOrFail` (api/utils.kt): the module named by a path parameter, as far as the
    caller may see it. */
module ModuleAccess {
  import opened Wrappers
  import opened Seqs
  import opened Text
  import opened Roles
  import opened Users
  import opened Entities
  import opened Tables
  import opened ModuleViews

  predicate HasVerifiedRelease(releases: seq<Release>, m: Module) {
    exists r :: r in releases && r.moduleId == m.id && r.verified
  }

  /** Hidden, or without a verified release: what a default-role stranger may not see. */
  predicate Invisible(releases: seq<Release>, m: Module) {
    m.hidden || !HasVerifiedRelease(releases, m)
  }

  /** `getModuleOrFail`: BadRequest for a non-integer id, NotFound for an unknown one, and
      NotFound too when a default-role caller who does not own it may not see it. */
  function GetModuleOrFail(modules: seq<Module>, users: seq<User>, releases: seq<Release>,
                           resourceId: string, user: Option<User>, access: Role): (r: Result<Module>)
    ensures r.Ok? ==> r.value in modules && Some(r.value.id) == ParseInt(resourceId)
    ensures r.Ok? ==> FindModule(modules, r.value.id) == Some(r.value)
    ensures r.Err? ==> r.error == BadRequest || r.error == NotFound
  {
    match ParseInt(resourceId)
    case None => Err(BadRequest)
    case Some(moduleId) =>
      match FindModule(modules, moduleId)
      case None => Err(NotFound)
      case Some(m) =>
        if Invisible(releases, m) && access == Default && !IsOwner(users, m, user) then Err(NotFound)
        else Ok(m)
  }

  /** The error cases, each stated outright. */
  lemma GetModuleOrFailErrors(modules: seq<Module>, users: seq<User>, releases: seq<Release>,
                              resourceId: string, user: Option<User>, access: Role)
    ensures var r := GetModuleOrFail(modules, users, releases, resourceId, user, access);
      && (r == Err(BadRequest) <==> ParseInt(resourceId).None?)
      && (ParseInt(resourceId).Some? && FindModule(modules, ParseInt(resourceId).value).None? ==> r == Err(NotFound))
      && (ParseInt(resourceId).Some? && FindModule(modules, ParseInt(resourceId).value).Some? ==>
            var m := FindModule(modules, ParseInt(resourceId).value).value;
            r == (if Invisible(releases, m) && access == Default && !IsOwner(users, m, user) then Err(NotFound) else Ok(m)))
  {
  }

  /** Owners, trusted users and admins always get an existing module; a default-role
      stranger gets it exactly when it is shown and has a verified release. */
  lemma VisibilityRule(modules: seq<Module>, users: seq<User>, releases: seq<Release>,
                       resourceId: string, user: Option<User>, access: Role)
    requires ParseInt(resourceId).Some? && FindModule(modules, ParseInt(resourceId).value).Some?
    ensures var m := FindModule(modules, ParseInt(resourceId).value).value;
      var r := GetModuleOrFail(modules, users, releases, resourceId, user, access);
      && (access != Default || IsOwner(users, m, user) ==> r == Ok(m))
      && (access == Default && !IsOwner(users, m, user) ==>
            (r.Ok? <==> !m.hidden && exists x :: x in releases && x.moduleId == m.id && x.verified))
  {
  }

  /** A module a stranger can see has a verified release, so its public view lists at least one. */
  lemma VisibleToStrangerHasPublicRelease(modules: seq<Module>, users: seq<User>, releases: seq<Release>,
                                         resourceId: string, user: Option<User>, owner: User)
    requires GetModuleOrFail(modules, users, releases, resourceId, user, Default).Ok?
    requires !IsOwner(users, GetModuleOrFail(modules, users, releases, resourceId, user, Default).value, user)
    requires var m := GetModuleOrFail(modules, users, releases, resourceId, user, Default).value;
      PublicView(m, owner, ReleasesOf(releases, m.id)).Ok?
    ensures var m := GetModuleOrFail(modules, users, releases, resourceId, user, Default).value;
      |PublicView(m, owner, ReleasesOf(releases, m.id)).value.releases| > 0
  {
    var m := GetModuleOrFail(modules, users, releases, resourceId, user, Default).value;
    var y :| y in releases && y.moduleId == m.id && y.verified;
    PublicReleasesCover(m, owner, ReleasesOf(releases, m.id), y);
  }
}
