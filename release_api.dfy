/** The release endpoints (api/ReleaseController.kt): a release is created unverified (or
    verified outright for trusted users and admins), supersedes the pending releases of its
    module and mod version, and is verified later with the token it was created with. */
module ReleaseApi {
  import opened Wrappers
  import opened Seqs
  import opened Text
  import opened Versions
  import opened Roles
  import opened Users
  import opened Entities
  import opened Resolution
  import opened ModuleViews
  import opened Storage
  import opened Tables
  import opened ModuleAccess
  import Auth

  /** The position of the row with the given primary key. */
  function IndexOfId(releases: seq<Release>, id: Uuid): (r: Option<nat>)
    ensures r.Some? ==> r.value < |releases| && releases[r.value].id == id
    ensures r.None? <==> forall x :: x in releases ==> x.id != id
  {
    if releases == [] then None
    else if releases[0].id == id then Some(0)
    else match IndexOfId(releases[1..], id)
      case None => None
      case Some(k) => Some(k + 1)
  }

  /** `releaseOrFail`: `releaseId` is what `UUID.fromString` made of the path parameter
      (None when it threw); the result is the index of the row with that id. */
  function ReleaseOrFail(releases: seq<Release>, releaseId: Option<Uuid>): (r: Result<nat>)
    ensures r.Ok? ==> r.value < |releases| && Some(releases[r.value].id) == releaseId
    ensures r == Err(BadRequest) <==> releaseId.None?
    ensures r == Err(NotFound) <==> releaseId.Some? && forall x :: x in releases ==> x.id != releaseId.value
    ensures r.Err? ==> r.error == BadRequest || r.error == NotFound
  {
    match releaseId
    case None => Err(BadRequest)
    case Some(id) =>
      match IndexOfId(releases, id)
      case None => Err(NotFound)
      case Some(i) => Ok(i)
  }

  /** `moduleOrFail`: a logged-in caller, a module they may see, and the right to change it
      (owner, trusted user or admin). */
  function ModuleOrFail(modules: seq<Module>, users: seq<User>, releases: seq<Release>,
                        session: Session, moduleIdText: string): (r: Result<Module>)
    ensures session.user.None? ==> r == Err(Unauthorized)
    ensures r.Ok? ==> r.value in modules && FindModule(modules, r.value.id) == Some(r.value)
    ensures r.Ok? ==> AccessOf(session) != Default || IsOwner(users, r.value, session.user)
  {
    if session.user.None? then Err(Unauthorized)
    else
      var access := AccessOf(session);
      var m :- GetModuleOrFail(modules, users, releases, moduleIdText, session.user, access);
      if access == Default && !IsOwner(users, m, session.user) then Err(Forbidden) else Ok(m)
  }

  /** A default-role caller who does not own the module is refused, whether or not they
      may see it. */
  lemma StrangersMayNotChange(modules: seq<Module>, users: seq<User>, releases: seq<Release>,
                              session: Session, moduleIdText: string)
    requires session.user.Some? && AccessOf(session) == Default
    requires GetModuleOrFail(modules, users, releases, moduleIdText, session.user, Default).Ok?
    requires !IsOwner(users, GetModuleOrFail(modules, users, releases, moduleIdText, session.user, Default).value, session.user)
    ensures ModuleOrFail(modules, users, releases, session, moduleIdText) == Err(Forbidden)
  {
  }

  // ---------------------------------------------------------------- create: the checks

  /** What `create` has gathered once every check has passed. */
  datatype CreateRequest = CreateRequest(
    m: Module, access: Role, releaseVersion: string, modVersion: string, changelog: string, upload: Upload)

  predicate TripleExists(releases: seq<Release>, moduleId: int, releaseVersion: string, modVersion: string) {
    exists x :: x in releases && x.releaseVersion == releaseVersion && x.moduleId == moduleId && x.modVersion == modVersion
  }

  /** The checks `create` makes before it changes anything, in order: a session user, a
      module they may see, multipart form data, a three-part release version, a mod version
      that parses (else the call throws) and is allowed, no release with the same
      (module, release version, mod version), and an uploaded file. */
  function CreateChecks(modules: seq<Module>, users: seq<User>, releases: seq<Release>, session: Session,
                        moduleIdText: string, isMultipart: bool, form: Form, upload: Option<Upload>,
                        allowedVersions: seq<Version>): (r: Result<CreateRequest>)
    ensures session.user.None? ==> r == Err(Unauthorized)
    ensures r.Ok? ==> var q := r.value;
      && q.m in modules && FindModule(modules, q.m.id) == Some(q.m)
      && q.access == AccessOf(session)
      && IsThreePartVersion(q.releaseVersion)
      && ToVersion(q.modVersion).Some? && ToVersion(q.modVersion).value in allowedVersions
      && !TripleExists(releases, q.m.id, q.releaseVersion, q.modVersion)
      && upload == Some(q.upload)
  {
    if session.user.None? then Err(Unauthorized)
    else
      var access := AccessOf(session);
      var m :- GetModuleOrFail(modules, users, releases, moduleIdText, session.user, access);
      if !isMultipart then Err(BadRequest)
      else
        var releaseVersion :- FormParamOrFail(form, "releaseVersion");
        if !IsThreePartVersion(releaseVersion) then Err(BadRequest)
        else
          var modVersion :- FormParamOrFail(form, "modVersion");
          match ToVersion(modVersion)
          case None => Err(ServerError)
          case Some(v) =>
            if v !in allowedVersions then Err(BadRequest)
            else if TripleExists(releases, m.id, releaseVersion, modVersion) then Err(BadRequest)
            else
              var changelog := FormParam(form, "changelog").GetOr("");
              match upload
              case None => Err(BadRequest)
              case Some(u) => Ok(CreateRequest(m, access, releaseVersion, modVersion, changelog, u))
  }

  /** A signed-in caller who may see the module and repeats an existing release's
      (module, release version, mod version) is refused with BadRequest, whatever else the
      request holds; only a mod version `toVersion` cannot read fails earlier, with 500. */
  lemma DuplicateTripleRejected(modules: seq<Module>, users: seq<User>, releases: seq<Release>, session: Session,
                                moduleIdText: string, form: Form, upload: Option<Upload>, allowedVersions: seq<Version>,
                                existing: Release)
    requires existing in releases
    requires ToVersion(existing.modVersion).Some?
    requires session.user.Some?
    requires var m := GetModuleOrFail(modules, users, releases, moduleIdText, session.user, AccessOf(session));
      m.Ok? && existing.moduleId == m.value.id
    requires FormParam(form, "releaseVersion") == Some(existing.releaseVersion)
    requires FormParam(form, "modVersion") == Some(existing.modVersion)
    ensures CreateChecks(modules, users, releases, session, moduleIdText, true, form, upload, allowedVersions) == Err(BadRequest)
  {
  }

  /** `create` checks that the caller is signed in and may see the module, but not that the
      caller owns it, as `update` and `delete` do: any signed-in user may post a release for
      a shown module. A default-role caller's release is only ever pending, so it needs the
      token sent with the verification request before anyone else downloads it. */
  lemma CreateNeedsNoOwnership(modules: seq<Module>, users: seq<User>, releases: seq<Release>, session: Session,
                               moduleIdText: string, isMultipart: bool, form: Form, upload: Option<Upload>,
                               allowedVersions: seq<Version>, newId: Uuid, token: string, now: int)
    requires session.user.Some? && AccessOf(session) == Default
    requires var m := GetModuleOrFail(modules, users, releases, moduleIdText, session.user, Default);
      m.Ok? && !IsOwner(users, m.value, session.user)
    ensures CreateChecks(modules, users, releases, session, moduleIdText, isMultipart, form, upload, allowedVersions) != Err(Forbidden)
    ensures ModuleOrFail(modules, users, releases, session, moduleIdText) == Err(Forbidden)
    ensures var c := CreateChecks(modules, users, releases, session, moduleIdText, isMultipart, form, upload, allowedVersions);
      c.Ok? ==> c.value.m == GetModuleOrFail(modules, users, releases, moduleIdText, session.user, Default).value
                && !NewRow(c.value, newId, token, now).verified
  {
  }

  // ---------------------------------------------------------------- create: the new row

  /** `Release.new { … }` followed by the trusted-user shortcut: verified with no token for
      trusted users and admins, unverified holding the fresh token otherwise. */
  function NewRow(q: CreateRequest, id: Uuid, token: string, now: int): (r: Release)
    ensures r.id == id && r.moduleId == q.m.id && r.releaseVersion == q.releaseVersion
    ensures r.modVersion == q.modVersion && r.changelog == q.changelog && r.downloads == 0
    ensures r.verificationMessage.None?
    ensures r.verified <==> q.access in Auth.TrustedOrHigher
    ensures r.verified ==> r.verificationToken.None?
    ensures !r.verified ==> r.verificationToken == Some(token)
  {
    var row := Release(id, q.m.id, q.releaseVersion, q.modVersion, q.changelog, 0, false, Some(token), None, now, now);
    if q.access in Auth.TrustedOrHigher then row.(verificationToken := None, verified := true) else row
  }

  /** The pending releases a new release of `(moduleId, modVersion)` supersedes, in table order. */
  function StaleOf(releases: seq<Release>, moduleId: int, modVersion: string): (r: seq<Release>)
    ensures forall x :: x in r <==> x in releases && x.moduleId == moduleId && x.modVersion == modVersion && !x.verified
  {
    Filter(releases, (x: Release) => x.moduleId == moduleId && x.modVersion == modVersion && !x.verified)
  }

  /** The folders of the given releases of a module. */
  function FolderKeys(m: Module, ids: set<Uuid>): (keys: set<FolderKey>)
    ensures forall id :: id in ids ==> ReleaseFolder(m, id) in keys
  {
    set id | id in ids :: ReleaseFolder(m, id)
  }

  /** After supersession and the insert, the new release is the only pending one of its
      module and mod version. */
  lemma NewReleaseIsOnlyPending(releases: seq<Release>, row: Release, x: Release)
    requires x in WithoutIds(releases, IdsOf(StaleOf(releases, row.moduleId, row.modVersion))) + [row]
    requires x.moduleId == row.moduleId && x.modVersion == row.modVersion && !x.verified
    ensures x == row
  {
  }

  /** Verified rows never hold a token. */
  predicate TokensCleared(releases: seq<Release>) {
    forall x :: x in releases && x.verified ==> x.verificationToken.None?
  }

  // ---------------------------------------------------------------- verify and update, row by row

  /** What `verify` does to one row: nothing when it is already verified; Unauthorized
      without a token; Forbidden with a token other than the row's; otherwise the row
      becomes verified and loses its token and pending message. */
  function VerifyRow(r: Release, token: Option<string>): (res: Result<Release>)
    ensures r.verified ==> res == Ok(r)
    ensures !r.verified && token.None? ==> res == Err(Unauthorized)
    ensures !r.verified && token.Some? && Some(token.value) != r.verificationToken ==> res == Err(Forbidden)
    ensures res.Ok? ==> res.value.verified && res.value.id == r.id && res.value.moduleId == r.moduleId
    ensures res.Ok? && !r.verified ==> res.value.verificationToken.None? && res.value.verificationMessage.None?
  {
    if r.verified then Ok(r)
    else if token.None? then Err(Unauthorized)
    else if Some(token.value) != r.verificationToken then Err(Forbidden)
    else Ok(r.(verified := true, verificationToken := None, verificationMessage := None))
  }

  /** Verifying twice is verifying once, and only the token the row was created with works. */
  lemma VerifyIdempotent(r: Release, t1: Option<string>, t2: Option<string>)
    requires VerifyRow(r, t1).Ok?
    ensures VerifyRow(VerifyRow(r, t1).value, t2) == VerifyRow(r, t1)
  {
  }

  lemma VerifyNeedsTheToken(r: Release, token: Option<string>)
    requires !r.verified && VerifyRow(r, token).Ok?
    ensures token.Some? && r.verificationToken == token
  {
  }

  /** What `update` does to a row: a `modVersion` or `changelog` parameter replaces that
      column; nothing else changes. */
  function UpdateRow(r: Release, form: Form): (u: Release)
    ensures u.id == r.id && u.moduleId == r.moduleId && u.releaseVersion == r.releaseVersion
    ensures u.verified == r.verified && u.verificationToken == r.verificationToken
    ensures u.verificationMessage == r.verificationMessage && u.downloads == r.downloads
    ensures u.createdAt == r.createdAt && u.updatedAt == r.updatedAt
    ensures u.modVersion == FormParam(form, "modVersion").GetOr(r.modVersion)
    ensures u.changelog == FormParam(form, "changelog").GetOr(r.changelog)
  {
    var r1 := if FormParam(form, "modVersion").Some? then r.(modVersion := FormParam(form, "modVersion").value) else r;
    if FormParam(form, "changelog").Some? then r1.(changelog := FormParam(form, "changelog").value) else r1
  }

  /** `update` accepts multipart bodies, and url-encoded ones; a request without a
      Content-Type header passes too, since `null == false` is false. */
  predicate BodyAccepted(isMultipart: bool, contentType: Option<string>) {
    isMultipart || contentType.None? || Contains(Lower(contentType.value), "application/x-www-form-urlencoded")
  }

  // ---------------------------------------------------------------- reads

  /** `getAll`: the releases the caller may list: all of them for owners, trusted users
      and admins, the public selection for everyone else. */
  function ListReleases(modules: seq<Module>, users: seq<User>, releases: seq<Release>,
                        session: Session, moduleIdText: string): (r: Result<seq<Release>>)
    ensures r.Ok? ==> forall x :: x in r.value ==> x in releases
    ensures r.Ok? && AccessOf(session) == Default ==>
      && GetModuleOrFail(modules, users, releases, moduleIdText, session.user, Default).Ok?
      && var m := GetModuleOrFail(modules, users, releases, moduleIdText, session.user, Default).value;
        IsOwner(users, m, session.user) || forall x :: x in r.value ==> x.verified
  {
    var access := AccessOf(session);
    var m :- GetModuleOrFail(modules, users, releases, moduleIdText, session.user, access);
    var mine := ReleasesOf(releases, m.id);
    if access in Auth.TrustedOrHigher || IsOwner(users, m, session.user) then Ok(mine)
    else
      match LatestPerModVersion(mine)
      case None => Err(ServerError)
      case Some(latest) =>
        LatestAreVerifiedAndDistinct(mine);
        Ok(latest)
  }

  /** What `getOne` sends: the release's JSON, or one of its two files as an attachment. */
  datatype Download =
    | ReleaseJson(release: Release)
    | Attachment(key: FolderKey, file: string, contentType: string, filename: string)

  const METADATA_NAME := "metadata.json"
  const SCRIPTS_NAME := "scripts.zip"

  /** The attachment name of a metadata download (see Findings: the source's string
      template lacks a `$`, so it does not insert the module name). */
  function MetadataFilename(m: Module, r: Release): (f: string)
    ensures m.name <= f
  {
    m.name + "-" + r.releaseVersion + "-metadata.json"
  }

  /** The attachment name exactly as the source writes it. */
  function MetadataFilenameAsWritten(m: Module, r: Release): string {
    "{module.name}-" + r.releaseVersion + "-metadata.json"
  }

  function ScriptsFilename(m: Module, r: Release): (f: string)
    ensures m.name <= f
  {
    m.name + "-" + r.releaseVersion + ".zip"
  }

  /** The as-written name never carries the module's name unless the module is literally
      called "{module.name}"; "examplemod" shows it. */
  lemma MetadataFilenameMissesModuleName(r: Release)
    ensures var m := Module(1, 1, "examplemod", "", None, 0, "", false, 0, 0);
      !(m.name <= MetadataFilenameAsWritten(m, r)) && m.name <= MetadataFilename(m, r)
  {
    var m := Module(1, 1, "examplemod", "", None, 0, "", false, 0, 0);
    assert MetadataFilenameAsWritten(m, r)[0] == '{';
  }

  /** Both attachments of a release are named after the module and the release version in
      the same way. */
  lemma FilenamesShareStem(m: Module, r: Release)
    ensures MetadataFilename(m, r)[..|m.name| + 1 + |r.releaseVersion|] ==
            ScriptsFilename(m, r)[..|m.name| + 1 + |r.releaseVersion|]
  {
    var stem := m.name + "-" + r.releaseVersion;
    assert MetadataFilename(m, r) == stem + "-metadata.json";
    assert ScriptsFilename(m, r) == stem + ".zip";
    assert MetadataFilename(m, r)[..|stem|] == stem;
    assert ScriptsFilename(m, r)[..|stem|] == stem;
  }

  /** `getOne`: the caller must see the module; an unverified release is Forbidden unless
      the caller owns the module or is trusted or an admin; the release folder (under the
      path's module) must exist; `file` picks the metadata, the archive, the JSON (when
      absent) or BadRequest. The metadata is named by the corrected `MetadataFilename`. */
  function GetOne(modules: seq<Module>, users: seq<User>, releases: seq<Release>, folders: map<FolderKey, Folder>,
                  session: Session, moduleIdText: string, releaseId: Option<Uuid>, fileParam: Option<string>): (r: Result<Download>)
    ensures var gm := GetModuleOrFail(modules, users, releases, moduleIdText, session.user, AccessOf(session));
      gm.Err? ==> r == Err(gm.error)
    ensures var gm := GetModuleOrFail(modules, users, releases, moduleIdText, session.user, AccessOf(session));
      var ro := ReleaseOrFail(releases, releaseId);
      gm.Ok? && ro.Err? ==> r == Err(ro.error)
    ensures var gm := GetModuleOrFail(modules, users, releases, moduleIdText, session.user, AccessOf(session));
      var ro := ReleaseOrFail(releases, releaseId);
      gm.Ok? && ro.Ok? ==>
        var m := gm.value;
        var x := releases[ro.value];
        var key := ReleaseFolder(m, x.id);
        var allowed := x.verified || AccessOf(session) in Auth.TrustedOrHigher || IsOwner(users, m, session.user);
        && (!allowed ==> r == Err(Forbidden))
        && (allowed && key !in folders ==> r == Err(NotFound))
        && (allowed && key in folders ==>
              && (fileParam.None? ==> r == Ok(ReleaseJson(x)))
              && (fileParam == Some("metadata") ==>
                    r == Ok(Attachment(key, METADATA_NAME, "application/json", MetadataFilename(m, x))))
              && (fileParam == Some("scripts") ==>
                    r == Ok(Attachment(key, SCRIPTS_NAME, "application/zip", ScriptsFilename(m, x))))
              && (fileParam.Some? && fileParam.value != "metadata" && fileParam.value != "scripts" ==>
                    r == Err(BadRequest)))
  {
    var access := AccessOf(session);
    var m :- GetModuleOrFail(modules, users, releases, moduleIdText, session.user, access);
    var i :- ReleaseOrFail(releases, releaseId);
    var x := releases[i];
    var authorized := access in Auth.TrustedOrHigher || IsOwner(users, m, session.user);
    if !authorized && !x.verified then Err(Forbidden)
    else
      var key := ReleaseFolder(m, x.id);
      if key !in folders then Err(NotFound)
      else match fileParam
        case Some("metadata") => Ok(Attachment(key, METADATA_NAME, "application/json", MetadataFilename(m, x)))
        case Some("scripts") => Ok(Attachment(key, SCRIPTS_NAME, "application/zip", ScriptsFilename(m, x)))
        case None => Ok(ReleaseJson(x))
        case Some(_) => Err(BadRequest)
  }

  /** A default-role stranger never downloads a pending release. */
  lemma StrangersGetOnlyVerified(modules: seq<Module>, users: seq<User>, releases: seq<Release>, folders: map<FolderKey, Folder>,
                                 session: Session, moduleIdText: string, releaseId: Option<Uuid>, fileParam: Option<string>)
    requires AccessOf(session) == Default
    requires GetOne(modules, users, releases, folders, session, moduleIdText, releaseId, fileParam).Ok?
    requires !IsOwner(users, GetModuleOrFail(modules, users, releases, moduleIdText, session.user, Default).value, session.user)
    ensures releases[ReleaseOrFail(releases, releaseId).value].verified
  {
  }

  /** What one more deleted release adds to the ids, the folders and the deleted messages. */
  lemma PrefixStep(rs: seq<Release>, i: nat, m: Module)
    requires i < |rs|
    ensures IdsOf(rs[..i + 1]) == IdsOf(rs[..i]) + {rs[i].id}
    ensures MessagesOf(rs[..i + 1]) == MessagesOf(rs[..i]) + MessagesOf([rs[i]])
    ensures FolderKeys(m, IdsOf(rs[..i + 1])) == FolderKeys(m, IdsOf(rs[..i])) + {ReleaseFolder(m, rs[i].id)}
  {
    assert rs[..i + 1] == rs[..i] + [rs[i]];
    IdsOfSnoc(rs[..i], rs[i]);
    MessagesOfSnoc(rs[..i], rs[i]);
  }

  lemma AppendAssoc<T>(a: seq<T>, b: seq<T>, c: seq<T>)
    ensures a + b + c == a + (b + c)
  {
  }

  lemma MinusStep(f: map<FolderKey, Folder>, keys: set<FolderKey>, k: FolderKey)
    ensures f - keys - {k} == f - (keys + {k})
  {
  }

  /** The checks of `update`, in order: `moduleOrFail`, an accepted body, then the release. */
  function UpdateChecks(modules: seq<Module>, users: seq<User>, releases: seq<Release>, session: Session,
                        moduleIdText: string, isMultipart: bool, contentType: Option<string>,
                        releaseId: Option<Uuid>): (r: Result<nat>)
    ensures r.Ok? <==> && ModuleOrFail(modules, users, releases, session, moduleIdText).Ok?
                       && BodyAccepted(isMultipart, contentType)
                       && ReleaseOrFail(releases, releaseId).Ok?
    ensures r.Ok? ==> r == ReleaseOrFail(releases, releaseId)
    ensures ModuleOrFail(modules, users, releases, session, moduleIdText).Ok? && !BodyAccepted(isMultipart, contentType)
            ==> r == Err(BadRequest)
  {
    var _ :- ModuleOrFail(modules, users, releases, session, moduleIdText);
    if !BodyAccepted(isMultipart, contentType) then Err(BadRequest)
    else ReleaseOrFail(releases, releaseId)
  }

  /** The checks of `delete`: `moduleOrFail`, then the release. */
  function DeleteChecks(modules: seq<Module>, users: seq<User>, releases: seq<Release>, session: Session,
                        moduleIdText: string, releaseId: Option<Uuid>): (r: Result<nat>)
    ensures r.Ok? <==> ModuleOrFail(modules, users, releases, session, moduleIdText).Ok? && ReleaseOrFail(releases, releaseId).Ok?
    ensures r.Ok? ==> r == ReleaseOrFail(releases, releaseId)
  {
    var _ :- ModuleOrFail(modules, users, releases, session, moduleIdText);
    ReleaseOrFail(releases, releaseId)
  }

  /** The path's module is only used for the permission check: a release of any other
      module passes `update` and `delete` once the caller may change the path's module. */
  lemma ForeignReleaseAccepted(modules: seq<Module>, users: seq<User>, releases: seq<Release>, session: Session,
                               moduleIdText: string, i: nat)
    requires i < |releases|
    requires ModuleOrFail(modules, users, releases, session, moduleIdText).Ok?
    ensures DeleteChecks(modules, users, releases, session, moduleIdText, Some(releases[i].id)).Ok?
    ensures UpdateChecks(modules, users, releases, session, moduleIdText, true, None, Some(releases[i].id)).Ok?
  {
    assert releases[i] in releases;
  }

  /** Verified rows never hold a token, and `create`, `verify` and `update` keep it so:
      the new state each of them leaves (see their postconditions) is token-free when the
      old one was. */
  lemma CreateKeepsTokensCleared(releases: seq<Release>, q: CreateRequest, id: Uuid, token: string, now: int)
    requires TokensCleared(releases)
    ensures TokensCleared(WithoutIds(releases, IdsOf(StaleOf(releases, q.m.id, q.modVersion))) + [NewRow(q, id, token, now)])
  {
  }

  lemma VerifyKeepsTokensCleared(releases: seq<Release>, i: nat, token: Option<string>)
    requires TokensCleared(releases) && i < |releases| && VerifyRow(releases[i], token).Ok?
    ensures TokensCleared(releases[i := VerifyRow(releases[i], token).value])
  {
    assert releases[i] in releases;
    TokensClearedAfterUpdate(releases, i, VerifyRow(releases[i], token).value);
  }

  lemma UpdateKeepsTokensCleared(releases: seq<Release>, i: nat, form: Form)
    requires TokensCleared(releases) && i < |releases|
    ensures TokensCleared(releases[i := UpdateRow(releases[i], form)])
  {
    assert releases[i] in releases;
    TokensClearedAfterUpdate(releases, i, UpdateRow(releases[i], form));
  }

  lemma TokensClearedAfterUpdate(releases: seq<Release>, i: nat, row: Release)
    requires TokensCleared(releases) && i < |releases|
    requires row.verified ==> row.verificationToken.None?
    ensures TokensCleared(releases[i := row])
  {
    forall x | x in releases[i := row] && x.verified ensures x.verificationToken.None? {
      var j :| 0 <= j < |releases[i := row]| && releases[i := row][j] == x;
      if j != i { assert x == releases[j]; }
    }
  }

  /** After `deleteReleasesForModule` no release of the module is left. */
  lemma NoReleaseOfModuleLeft(releases: seq<Release>, moduleId: int, x: Release)
    requires x in WithoutIds(releases, IdsOf(ReleasesOf(releases, moduleId)))
    ensures x.moduleId != moduleId
  {
  }

  /** The response of `verify`: the release lookup's error, the row check's error, or 200. */
  function VerifyOutcome(releases: seq<Release>, releaseId: Option<Uuid>, token: Option<string>): (r: Outcome)
    ensures r.Done? <==> ReleaseOrFail(releases, releaseId).Ok? && VerifyRow(releases[ReleaseOrFail(releases, releaseId).value], token).Ok?
  {
    match ReleaseOrFail(releases, releaseId)
    case Err(e) => Fail(e)
    case Ok(i) =>
      match VerifyRow(releases[i], token)
      case Err(e) => Fail(e)
      case Ok(_) => Done
  }

  /** The module the `ReleaseCreated` event carries: `module.public()` over the module's
      releases in `releases`. An Err is the throw of its release-version sort, which turns the
      request into a 500 and rolls the transaction back. */
  function AnnouncedModule(users: seq<User>, m: Module, releases: seq<Release>): (r: Result<ModuleView>)
    requires OwnerOf(users, m).Some?
    ensures r.Err? <==>
      && |Verified(ReleasesOf(releases, m.id))| >= 2
      && exists x :: x in releases && x.moduleId == m.id && x.verified && ToVersion(x.releaseVersion).None?
    ensures r.Ok? ==> r.value.PublicModule? && r.value.id == m.id
  {
    LatestFailsExactly(ReleasesOf(releases, m.id));
    PublicView(m, OwnerOf(users, m).value, ReleasesOf(releases, m.id))
  }

  /** Every release the registry creates has a version `validateVersion` accepts, and on a
      table of such releases the announcement never fails. */
  lemma AnnouncementNeverFailsOnValidVersions(users: seq<User>, m: Module, releases: seq<Release>)
    requires OwnerOf(users, m).Some?
    requires forall x :: x in releases ==> IsThreePartVersion(x.releaseVersion)
    ensures AnnouncedModule(users, m, releases).Ok?
  {
    forall x | x in releases ensures ToVersion(x.releaseVersion).Some? {
      ValidVersionParses(x.releaseVersion);
    }
  }

  // ---------------------------------------------------------------- the stateful endpoints

  class ReleaseController {
    /** Messages deleted through the release webhook, in order. */
    var deletedMessages: seq<MessageId>

    constructor()
      ensures deletedMessages == []
    {
      deletedMessages := [];
    }

    /** `deleteRelease`: delete the pending message, the folder and the row. */
    method DeleteRelease(db: Database, store: Store, m: Module, release: Release)
      requires FindModule(db.modules, release.moduleId) == Some(m)
      modifies this, db`releases, store
      ensures deletedMessages == old(deletedMessages) + MessagesOf([release])
      ensures store.folders == old(store.folders) - {ReleaseFolder(m, release.id)}
      ensures db.releases == WithoutIds(old(db.releases), {release.id})
    {
      if release.verificationMessage.Some? {
        deletedMessages := deletedMessages + [release.verificationMessage.value];
      }
      store.DeleteFolder(ReleaseFolder(m, release.id));
      db.releases := WithoutIds(db.releases, {release.id});
    }

    /** The `forEach { deleteRelease(it) }` of `create` over the pending releases of one
        module and mod version. */
    method Supersede(db: Database, store: Store, m: Module, modVersion: string)
      requires db.Valid()
      requires FindModule(db.modules, m.id) == Some(m)
      modifies this, db`releases, store
      ensures db.Valid()
      ensures db.releases == WithoutIds(old(db.releases), IdsOf(StaleOf(old(db.releases), m.id, modVersion)))
      ensures store.folders == old(store.folders) - FolderKeys(m, IdsOf(StaleOf(old(db.releases), m.id, modVersion)))
      ensures deletedMessages == old(deletedMessages) + MessagesOf(StaleOf(old(db.releases), m.id, modVersion))
    {
      var stale := StaleOf(db.releases, m.id, modVersion);
      WithoutNoIds(db.releases);
      assert stale[..0] == [];
      assert FolderKeys(m, IdsOf(stale[..0])) == {};
      for i := 0 to |stale|
        invariant db.releases == WithoutIds(old(db.releases), IdsOf(stale[..i]))
        invariant store.folders == old(store.folders) - FolderKeys(m, IdsOf(stale[..i]))
        invariant deletedMessages == old(deletedMessages) + MessagesOf(stale[..i])
      {
        assert stale[i] in stale;
        ghost var before := deletedMessages;
        DeleteRelease(db, store, m, stale[i]);
        assert deletedMessages == before + MessagesOf([stale[i]]);
        WithoutIdsTwice(old(db.releases), IdsOf(stale[..i]), {stale[i].id});
        PrefixStep(stale, i, m);
        MinusStep(old(store.folders), FolderKeys(m, IdsOf(stale[..i])), ReleaseFolder(m, stale[i].id));
        AppendAssoc(old(deletedMessages), MessagesOf(stale[..i]), MessagesOf([stale[i]]));
      }
      assert stale[..|stale|] == stale;
      ModulesExistAfterDelete(db.modules, old(db.releases), IdsOf(stale));
    }

    /** The part of `create` after its checks: supersede the pending releases of the same
        module and mod version, insert the new row (verified outright for trusted users and
        admins) and save the upload into its folder. When the save fails the transaction
        rolls back, so the table is as before, but the superseded folders and messages stay
        deleted and the new folder is removed. `announce` is the `ReleaseCreated` event of a
        verified release of a shown module; when building its module view throws, the request
        fails with 500 and the table rolls back, while the files on disk stay as written. */
    method Publish(db: Database, store: Store, q: CreateRequest, newId: Uuid, token: string, now: int)
      returns (res: Result<Release>, announce: bool)
      requires db.Valid()
      requires FindModule(db.modules, q.m.id) == Some(q.m)
      modifies this, db`releases, store
      ensures db.Valid()
      ensures OwnerOf(db.users, q.m).Some?
      ensures deletedMessages == old(deletedMessages) + MessagesOf(StaleOf(old(db.releases), q.m.id, q.modVersion))
      ensures CheckArchive(q.upload).Ok? ==>
        var stale := StaleOf(old(db.releases), q.m.id, q.modVersion);
        var row := NewRow(q, newId, token, now);
        var table := WithoutIds(old(db.releases), IdsOf(stale)) + [row];
        var fails := !q.m.hidden && row.verified && AnnouncedModule(db.users, q.m, table).Err?;
        && store.folders == (old(store.folders) - FolderKeys(q.m, IdsOf(stale)))[ReleaseFolder(q.m, newId) :=
             Folder(Some(q.upload.content),
                    Some(NormalizeMetadata(CheckArchive(q.upload).value, q.m, OwnerOf(db.users, q.m).value.name, row)))]
        && (!fails ==> res == Ok(row) && db.releases == table && (announce <==> !q.m.hidden && row.verified))
        && (fails ==> res == Err(ServerError) && !announce && db.releases == old(db.releases))
      ensures CheckArchive(q.upload).Err? ==>
        var stale := StaleOf(old(db.releases), q.m.id, q.modVersion);
        && res == Err(BadRequest) && !announce
        && db.releases == old(db.releases)
        && store.folders == old(store.folders) - FolderKeys(q.m, IdsOf(stale)) - {ReleaseFolder(q.m, newId)}
    {
      var snapshot := db.releases;  // what a rollback restores
      Supersede(db, store, q.m, q.modVersion);
      var kept := db.releases;
      var row := Release(newId, q.m.id, q.releaseVersion, q.modVersion, q.changelog, 0, false, Some(token), None, now, now);
      db.releases := kept + [row];
      if q.access in Auth.TrustedOrHigher {
        row := row.(verificationToken := None, verified := true);
        db.releases := kept + [row];
      }
      assert row == NewRow(q, newId, token, now);
      var key := ReleaseFolder(q.m, row.id);
      assert q.m in db.modules;
      var owner := OwnerOf(db.users, q.m).value;
      ghost var cleared := store.folders;
      var saved := store.SaveModuleToFolder(q.upload, key, q.m, owner.name, row);
      if saved.Fail? {
        db.releases := WithoutIds(db.releases, {row.id});
        store.DeleteFolder(key);
        assert store.folders == cleared - {key};
        db.releases := snapshot;
        return Err(saved.error), false;
      }
      ModulesExistAppend(db.modules, kept, row);
      if !q.m.hidden && row.verified {
        var event := AnnouncedModule(db.users, q.m, db.releases);
        if event.Err? {
          db.releases := snapshot;
          return Err(ServerError), false;
        }
        return Ok(row), true;
      }
      return Ok(row), false;
    }

    /** `create`: the checks, then `Publish`; a failed check changes nothing. */
    method Create(db: Database, store: Store, session: Session, moduleIdText: string, isMultipart: bool,
                  form: Form, upload: Option<Upload>, allowedVersions: seq<Version>,
                  newId: Uuid, token: string, now: int)
      returns (res: Result<Release>, announce: bool)
      requires db.Valid()
      modifies this, db`releases, store
      ensures db.Valid()
      ensures var checks := CreateChecks(db.modules, db.users, old(db.releases), session, moduleIdText,
                                         isMultipart, form, upload, allowedVersions);
        checks.Err? ==>
          && res == Err(checks.error) && !announce
          && db.releases == old(db.releases)
          && store.folders == old(store.folders)
          && deletedMessages == old(deletedMessages)
      ensures var checks := CreateChecks(db.modules, db.users, old(db.releases), session, moduleIdText,
                                         isMultipart, form, upload, allowedVersions);
        checks.Ok? ==>
          var q := checks.value;
          var stale := StaleOf(old(db.releases), q.m.id, q.modVersion);
          var row := NewRow(q, newId, token, now);
          && deletedMessages == old(deletedMessages) + MessagesOf(stale)
          && OwnerOf(db.users, q.m).Some?
          && (CheckArchive(q.upload).Ok? ==>
                var table := WithoutIds(old(db.releases), IdsOf(stale)) + [row];
                var fails := !q.m.hidden && row.verified && AnnouncedModule(db.users, q.m, table).Err?;
                && store.folders == (old(store.folders) - FolderKeys(q.m, IdsOf(stale)))[ReleaseFolder(q.m, newId) :=
                     Folder(Some(q.upload.content),
                            Some(NormalizeMetadata(CheckArchive(q.upload).value, q.m, OwnerOf(db.users, q.m).value.name, row)))]
                && (!fails ==> res == Ok(row) && db.releases == table && (announce <==> !q.m.hidden && row.verified))
                && (fails ==> res == Err(ServerError) && !announce && db.releases == old(db.releases)))
          && (CheckArchive(q.upload).Err? ==>
                && res == Err(BadRequest) && !announce
                && db.releases == old(db.releases)
                && store.folders == old(store.folders) - FolderKeys(q.m, IdsOf(stale)) - {ReleaseFolder(q.m, newId)})
    {
      var checks := CreateChecks(db.modules, db.users, db.releases, session, moduleIdText,
                                 isMultipart, form, upload, allowedVersions);
      if checks.Err? {
        return Err(checks.error), false;
      }
      res, announce := Publish(db, store, checks.value, newId, token, now);
    }

    /** The verification proper: the row becomes verified and loses its token, then its
        pending message is deleted. */
    method MarkVerified(db: Database, i: nat) returns (m: Module)
      requires db.Valid() && i < |db.releases|
      modifies this, db`releases
      ensures db.Valid()
      ensures db.releases == old(db.releases)[i := old(db.releases)[i].(verified := true, verificationToken := None, verificationMessage := None)]
      ensures deletedMessages == old(deletedMessages) + MessagesOf([old(db.releases)[i]])
      ensures FindModule(db.modules, old(db.releases)[i].moduleId) == Some(m)
    {
      var release := db.releases[i];
      assert release in db.releases;
      release := release.(verified := true, verificationToken := None);
      db.releases := db.releases[i := release];
      m := FindModule(db.modules, release.moduleId).value;
      if release.verificationMessage.Some? {
        deletedMessages := deletedMessages + [release.verificationMessage.value];
        release := release.(verificationMessage := None);
        db.releases := db.releases[i := release];
      }
      MessagesOfOne(old(db.releases)[i]);
      ModulesExistUpdate(db.modules, old(db.releases), i, release);
    }

    /** `verify`: nothing to do for a verified release; otherwise the token must match, the
        release becomes verified, its pending message is deleted, and the release is
        announced unless its own module is hidden. When building the announced module's view
        throws, the request fails with 500 and the table rolls back, but the message stays
        deleted from the channel. */
    method Verify(db: Database, releaseId: Option<Uuid>, token: Option<string>) returns (res: Outcome, announce: bool)
      requires db.Valid()
      modifies this, db`releases
      ensures db.Valid()
      ensures var checked := VerifyOutcome(old(db.releases), releaseId, token);
        checked.Fail? ==> res == checked && !announce && db.releases == old(db.releases) && deletedMessages == old(deletedMessages)
      ensures VerifyOutcome(old(db.releases), releaseId, token).Done? ==>
        && ReleaseOrFail(old(db.releases), releaseId).Ok?
        && var i := ReleaseOrFail(old(db.releases), releaseId).value;
           var r := old(db.releases)[i];
           && VerifyRow(r, token).Ok?
           && FindModule(db.modules, r.moduleId).Some?
           && OwnerOf(db.users, FindModule(db.modules, r.moduleId).value).Some?
           && (r.verified ==> res == Done && !announce && db.releases == old(db.releases) && deletedMessages == old(deletedMessages))
           && (!r.verified ==>
                 var m := FindModule(db.modules, r.moduleId).value;
                 var table := old(db.releases)[i := VerifyRow(r, token).value];
                 var fails := !m.hidden && AnnouncedModule(db.users, m, table).Err?;
                 && deletedMessages == old(deletedMessages) + MessagesOf([r])
                 && (!fails ==> res == Done && db.releases == table && (announce <==> !m.hidden))
                 && (fails ==> res == Fail(ServerError) && !announce && db.releases == old(db.releases)))
    {
      var found := ReleaseOrFail(db.releases, releaseId);
      if found.Err? {
        return Fail(found.error), false;
      }
      var i := found.value;
      var release := db.releases[i];
      assert release in db.releases;
      if release.verified {
        return Done, false;
      }
      if token.None? {
        return Fail(Unauthorized), false;
      }
      if Some(token.value) != release.verificationToken {
        return Fail(Forbidden), false;
      }
      res, announce := Confirm(db, i, token);
    }

    /** The rest of `verify` for a pending release whose token matched: `MarkVerified`, then
        the announcement unless the module is hidden, rolled back when building it throws. */
    method Confirm(db: Database, i: nat, token: Option<string>) returns (res: Outcome, announce: bool)
      requires db.Valid() && i < |db.releases|
      requires !db.releases[i].verified && VerifyRow(db.releases[i], token).Ok?
      modifies this, db`releases
      ensures db.Valid()
      ensures var r := old(db.releases)[i];
        && FindModule(db.modules, r.moduleId).Some?
        && OwnerOf(db.users, FindModule(db.modules, r.moduleId).value).Some?
        && var m := FindModule(db.modules, r.moduleId).value;
           var table := old(db.releases)[i := VerifyRow(r, token).value];
           var fails := !m.hidden && AnnouncedModule(db.users, m, table).Err?;
           && deletedMessages == old(deletedMessages) + MessagesOf([r])
           && (!fails ==> res == Done && db.releases == table && (announce <==> !m.hidden))
           && (fails ==> res == Fail(ServerError) && !announce && db.releases == old(db.releases))
    {
      var snapshot := db.releases;  // what a rollback restores
      var m := MarkVerified(db, i);
      if !m.hidden {
        var event := AnnouncedModule(db.users, m, db.releases);
        if event.Err? {
          db.releases := snapshot;
          return Fail(ServerError), false;
        }
        return Done, true;
      }
      return Done, false;
    }

    /** `update`: after the checks, a `modVersion` or `changelog` parameter replaces that
        column of the release; the files are left alone. */
    method Update(db: Database, session: Session, moduleIdText: string, isMultipart: bool,
                  contentType: Option<string>, releaseId: Option<Uuid>, form: Form)
      returns (res: Result<Release>)
      requires db.Valid()
      modifies db`releases
      ensures db.Valid()
      ensures var checks := UpdateChecks(db.modules, db.users, old(db.releases), session, moduleIdText,
                                         isMultipart, contentType, releaseId);
        && (checks.Err? ==> res == Err(checks.error) && db.releases == old(db.releases))
        && (checks.Ok? ==>
              var u := UpdateRow(old(db.releases)[checks.value], form);
              res == Ok(u) && db.releases == old(db.releases)[checks.value := u])
    {
      var checks := UpdateChecks(db.modules, db.users, db.releases, session, moduleIdText,
                                 isMultipart, contentType, releaseId);
      if checks.Err? {
        return Err(checks.error);
      }
      var i := checks.value;
      var release := db.releases[i];
      if FormParam(form, "modVersion").Some? {
        release := release.(modVersion := FormParam(form, "modVersion").value);
      }
      if FormParam(form, "changelog").Some? {
        release := release.(changelog := FormParam(form, "changelog").value);
      }
      assert release == UpdateRow(db.releases[i], form);
      ModulesExistUpdate(db.modules, db.releases, i, release);
      db.releases := db.releases[i := release];  // the entity is flushed when the transaction commits
      return Ok(release);
    }

    /** `delete`: after the checks, `deleteRelease` on the release, whose folder lives under
        its own module's name. */
    method Delete(db: Database, store: Store, session: Session, moduleIdText: string, releaseId: Option<Uuid>)
      returns (res: Outcome)
      requires db.Valid()
      modifies this, db`releases, store
      ensures db.Valid()
      ensures var checks := DeleteChecks(db.modules, db.users, old(db.releases), session, moduleIdText, releaseId);
        checks.Err? ==>
          && res == Fail(checks.error)
          && db.releases == old(db.releases) && store.folders == old(store.folders)
          && deletedMessages == old(deletedMessages)
      ensures var checks := DeleteChecks(db.modules, db.users, old(db.releases), session, moduleIdText, releaseId);
        checks.Ok? ==>
          var r := old(db.releases)[checks.value];
          && FindModule(db.modules, r.moduleId).Some?
          && res == Done
          && db.releases == WithoutIds(old(db.releases), {r.id})
          && store.folders == old(store.folders) - {ReleaseFolder(FindModule(db.modules, r.moduleId).value, r.id)}
          && deletedMessages == old(deletedMessages) + MessagesOf([r])
    {
      var checks := DeleteChecks(db.modules, db.users, db.releases, session, moduleIdText, releaseId);
      if checks.Err? {
        return Fail(checks.error);
      }
      var release := db.releases[checks.value];
      assert release in db.releases;
      var m := FindModule(db.modules, release.moduleId).value;
      ModulesExistAfterDelete(db.modules, db.releases, {release.id});
      DeleteRelease(db, store, m, release);
      return Done;
    }

    /** `deleteReleasesForModule`: the folder and the row of every release of the module;
        pending messages are not deleted here. */
    static method DeleteReleasesForModule(db: Database, store: Store, m: Module)
      modifies db`releases, store
      ensures db.releases == WithoutIds(old(db.releases), IdsOf(ReleasesOf(old(db.releases), m.id)))
      ensures store.folders == old(store.folders) - FolderKeys(m, IdsOf(ReleasesOf(old(db.releases), m.id)))
    {
      var mine := ReleasesOf(db.releases, m.id);
      WithoutNoIds(db.releases);
      assert mine[..0] == [];
      assert FolderKeys(m, IdsOf(mine[..0])) == {};
      for i := 0 to |mine|
        invariant db.releases == WithoutIds(old(db.releases), IdsOf(mine[..i]))
        invariant store.folders == old(store.folders) - FolderKeys(m, IdsOf(mine[..i]))
      {
        store.DeleteFolder(ReleaseFolder(m, mine[i].id));
        db.releases := WithoutIds(db.releases, {mine[i].id});
        WithoutIdsTwice(old(db.releases), IdsOf(mine[..i]), {mine[i].id});
        PrefixStep(mine, i, m);
        MinusStep(old(store.folders), FolderKeys(m, IdsOf(mine[..i])), ReleaseFolder(m, mine[i].id));
      }
      assert mine[..|mine|] == mine;
    }
  }
}
