# ChatTriggers module registry, modelled in Dafny

A model of the back end of the ChatTriggers website: the registry where users publish
modules and the releases of each module, the resolution of the release a client of a given
mod version should download, the accounts and roles behind every permission check, and the
small services around them (the allowed-version and allowed-tag lists, the event feed, the
installation statistics and the Discord notifications).

The database is a set of tables held as sequences of rows in the order the database returns
them (`Tables.Database`, a class whose fields the endpoints reassign); the `storage/`
directory is a map from a release's folder to its files (`Storage.Store`); the clock, random
UUIDs and tokens, BCrypt and the JDK's URL decoder are parameters. Each endpoint is a method
that changes the tables, proved against a pure function of the request and the old tables;
the pure logic (version parsing, release resolution, the JSON views, the regular
expressions, the checks of each endpoint) is functions with lemmas.

| file | module | models |
|---|---|---|
| wrappers.dfy, seqs.dfy, text.dfy | Wrappers, Seqs, Text | Option, the HTTP error kinds, and the Kotlin list and string operations the code uses (`filter`, `split`, `joinToString`, `trim`, `toInt`, ASCII case mapping) |
| roles.dfy, auth.dfy | Roles, Auth | the three ranks, the role sets and the access decision made before every handler (Auth.kt) |
| users.dfy | Users | user rows, `User.equals` and `User.public()` (data/user.kt) |
| entities.dfy, tables.dfy | Entities, Tables | module and release rows, the tables and their foreign keys, the session, form and query parameters |
| versions.dfy | Versions | `String.toVersion()`, `validateVersion` and the version order |
| resolution.dfy | Resolution | `getReleaseForModVersion` (api/releases.kt) and the per-mod-version reduction shared with the public view |
| module_views.dfy | ModuleViews | `Module.public()` and `Module.authorized()` (data/module.kt) |
| module_access.dfy | ModuleAccess | `getModuleOrFail` (api/utils.kt) |
| storage.dfy | Storage | `saveModuleToFolder` and `normalizeMetadata` (api/utils.kt) |
| release_api.dfy, verification_request.dfy | ReleaseApi, VerificationRequests | the release endpoints: create, verify, update, delete, get, and the verification request posted for a pending release (api/ReleaseController.kt) |
| patterns.dfy, module_api.dfy | Patterns, ModuleApi | the module endpoints: create, update, delete, the listing and the lookup (api/ModuleController.kt) |
| user_api.dfy | UserApi | the rank toggle and a user's modules (api/user.kt) |
| grouping.dfy, version_api.dfy, tag_api.dfy | Grouping, VersionApi, TagApi | the allowed-version and allowed-tag lists with their thirty-minute caches (api/versions.kt, api/tags.kt) |
| event_api.dfy | EventApi | the WebSocket listener list and the event broadcast (api/events.kt) |
| tracking.dfy, tracking_api.dfy | Tracking, TrackingApi | tracked installations and the statistics endpoints (data/tracking.kt, api/tracking.kt) |
| failure_responses.dfy, login.dfy | FailureResponses, LoginApi | the account endpoints and their conflict codes (api/login.kt, api/responses/login.kt) |
| webhook.dfy | Webhook | the Discord notification embeds (data/Webhook.kt) |

Where the code and its documentation differ, the model follows the code; the one place where it models the evidently intended behaviour instead, the metadata download name, is listed under "## Findings" and "## Left out":

- a release whose (module, release version, mod version) already exists is refused with
  BadRequest, not Conflict (api/ReleaseController.kt:58);
- the module listing hides only hidden modules from default-role callers; it does not also
  require a verified release, as `getModuleOrFail` does (api/ModuleController.kt:163-169);
- the imgur pattern's `.` before `com` is unescaped and matches any character
  (api/ModuleController.kt:25);
- resolution sorts with Kotlin's `sortedByDescending`, which never reads the key of a one-element list,
  so a single verified release with a malformed release version does not make resolution fail
  (api/releases.kt:20-24).

## Model

| member | source | states |
|---|---|---|
| Auth.RoleForContext | src/main/kotlin/com/chattriggers/website/Auth.kt:27-31 | a caller without a session user has the default role; a logged-in caller has the rank stored on its user row |
| Auth.Decide | src/main/kotlin/com/chattriggers/website/Auth.kt:11-24 | the handler runs exactly when the endpoint permits every role (empty set) or the caller's role is among the permitted ones; otherwise the answer is 403 |
| Auth.RoleSetsNested | src/main/kotlin/com/chattriggers/website/Auth.kt:33-39 | adminOnly ⊆ trustedOrHigher ⊆ allRoles, allRoles holds all three ranks, and the default rank is not trusted-or-higher |
| Auth.AnonymousIsDefault | src/main/kotlin/com/chattriggers/website/Auth.kt:11-31 | an anonymous caller gets through exactly the endpoints that are open or that permit the default role |
| Auth.DecisionMonotone | src/main/kotlin/com/chattriggers/website/Auth.kt:11-24 | a caller let through a non-empty set of roles is let through every larger set |
| Users.EqualsIffSameNameAndEmail | src/main/kotlin/com/chattriggers/website/data/user.kt:29-33 | `equals` holds exactly for another user row with the same name and email; null and non-user arguments are never equal |
| Users.EqualsIgnoresOtherColumns | src/main/kotlin/com/chattriggers/website/data/user.kt:29-33 | id, password, rank and timestamps never change the outcome of `equals` |
| Users.EqualsIsEquivalence | src/main/kotlin/com/chattriggers/website/data/user.kt:29-33 | on user rows `equals` is reflexive, symmetric and transitive |
| Users.Public | src/main/kotlin/com/chattriggers/website/data/user.kt:35-38 | `public()` carries the row's id, name and rank |
| Users.PublicHidesSecrets | src/main/kotlin/com/chattriggers/website/data/user.kt:35-38 | two rows have the same public view exactly when id, name and rank agree: email, password and timestamps are never exposed |
| ModuleAccess.GetModuleOrFail | src/main/kotlin/com/chattriggers/website/api/utils.kt:25-35 | a returned module is the table row whose id is the parsed path parameter; every failure is BadRequest or NotFound |
| ModuleAccess.GetModuleOrFailErrors | src/main/kotlin/com/chattriggers/website/api/utils.kt:25-35 | BadRequest exactly for a non-integer id; NotFound for an unknown id; for a known module, NotFound exactly when it is hidden or has no verified release, the caller has the default role and does not own it |
| ModuleAccess.VisibilityRule | src/main/kotlin/com/chattriggers/website/api/utils.kt:30-32 | owners, trusted users and admins always get an existing module; a default-role stranger gets it exactly when it is not hidden and has a verified release |
| ModuleAccess.VisibleToStrangerHasPublicRelease | src/main/kotlin/com/chattriggers/website/api/utils.kt:30-32 | a module a default-role stranger can open shows at least one release in its public view |
| ModuleViews.TagList | src/main/kotlin/com/chattriggers/website/data/module.kt:42 | every listed tag is non-blank and contains no comma |
| ModuleViews.TagListSpec | src/main/kotlin/com/chattriggers/website/data/module.kt:42 | a string is a listed tag exactly when it is a non-blank comma-separated part of the stored tags |
| ModuleViews.TagListOfJoined | src/main/kotlin/com/chattriggers/website/data/module.kt:42 | reading back comma-joined tags gives the non-blank ones, in order |
| ModuleViews.ReleasesOf | src/main/kotlin/com/chattriggers/website/data/module.kt:33 | the module's releases are exactly the rows that reference it |
| ModuleViews.PublicView | src/main/kotlin/com/chattriggers/website/data/module.kt:47-56 | `public()` succeeds exactly when the release-version sort does not throw, and then lists the newest verified release per mod version |
| ModuleViews.AuthorizedView | src/main/kotlin/com/chattriggers/website/data/module.kt:35-45 | `authorized()` lists every release of the module and sets `flagged` to the hidden flag |
| ModuleViews.ViewsAgree | src/main/kotlin/com/chattriggers/website/data/module.kt:35-56 | the public and authorized views carry the same id, public owner, name, description, image, downloads and tag list |
| ModuleViews.PublicReleasesSpec | src/main/kotlin/com/chattriggers/website/data/module.kt:55 | public releases are verified rows of the module, pairwise distinct in mod version, in descending release-version order |
| ModuleViews.PublicReleaseIsHighest | src/main/kotlin/com/chattriggers/website/data/module.kt:55 | every other verified release with the same mod version has a release version no higher than the one shown |
| ModuleViews.PublicReleasesCover | src/main/kotlin/com/chattriggers/website/data/module.kt:55 | every mod version of a verified release is represented in the public view |
| Tables.AccessOf | src/main/kotlin/com/chattriggers/website/api/ReleaseController.kt:38 | a session without a role attribute acts with the default role |
| Tables.FormParamOrFail | src/main/kotlin/com/chattriggers/website/api/utils.kt:89-91 | the first value sent under the name, or BadRequest exactly when none was sent |
| Tables.OwnerOf | src/main/kotlin/com/chattriggers/website/data/module.kt:24 | the owner found is the user row whose id the module references; none exactly when no such row exists |
| Tables.AnonymousOwnsNothing | src/main/kotlin/com/chattriggers/website/api/utils.kt:30 | `module.owner != user` always holds for a missing session user |
| Tables.ModulesExistAfterDelete | src/main/kotlin/com/chattriggers/website/data/release.kt:10 | deleting releases keeps every remaining release's module reference valid |
| Tables.ModulesExistAppend | src/main/kotlin/com/chattriggers/website/data/release.kt:10 | a new release that references an existing module keeps every module reference valid |
| Tables.ModulesExistUpdate | src/main/kotlin/com/chattriggers/website/data/release.kt:10 | replacing a release by one with the same module keeps every module reference valid |
| Storage.ReleaseFolder | src/main/kotlin/com/chattriggers/website/api/ReleaseController.kt:90 | the folder of a release is keyed by the release id under the module name with every ASCII letter lower-cased, character by character |
| Storage.FolderIgnoresCase | src/main/kotlin/com/chattriggers/website/api/ReleaseController.kt:191 | two modules whose names differ only in letter case share the release folders of equal release ids |
| Storage.NormalizeMetadata | src/main/kotlin/com/chattriggers/website/api/utils.kt:78-87 | name, version, picture link, creator and description are overwritten from the module, the release and the owner |
| Storage.NormalizeIgnoresUpload | src/main/kotlin/com/chattriggers/website/api/utils.kt:78-87 | the uploaded metadata plays no part in the normalized metadata |
| Storage.NormalizedTags | src/main/kotlin/com/chattriggers/website/api/utils.kt:82 | the normalized tag list is never null; it is the stored tag string split on commas (`[""]` for no tags) and joins back to it |
| Storage.CheckArchive | src/main/kotlin/com/chattriggers/website/api/utils.kt:44-75 | an upload is accepted exactly when it is a zip whose root holds one entry with a well-formed `metadata.json`; that metadata is what gets normalized; every refusal is BadRequest |
| Storage.Reject | src/main/kotlin/com/chattriggers/website/api/utils.kt:44-75 | the refusal reason, in the order the checks happen; none exactly when the archive is accepted, not-a-zip exactly when it is not a zip |
| Storage.Store.SaveModuleToFolder | src/main/kotlin/com/chattriggers/website/api/utils.kt:39-76 | success exactly when the archive is accepted, leaving the archive and the normalized metadata in the folder; a non-zip leaves the folder without the archive; any later failure leaves the folder empty; no other folder changes |
| Storage.Store.DeleteFolder | src/main/kotlin/com/chattriggers/website/api/ReleaseController.kt:358 | `deleteRecursively` removes exactly that folder |
| ReleaseApi.IndexOfId | src/main/kotlin/com/chattriggers/website/api/ReleaseController.kt:323 | `findById`: the index found holds a row with that id; none exactly when no row has it |
| ReleaseApi.ReleaseOrFail | src/main/kotlin/com/chattriggers/website/api/ReleaseController.kt:316-324 | BadRequest exactly when the id is not a UUID, NotFound exactly when no row has it, otherwise the index of that row |
| ReleaseApi.ModuleOrFail | src/main/kotlin/com/chattriggers/website/api/ReleaseController.kt:326-335 | Unauthorized without a session user; a returned module is a table row the caller owns unless the caller is trusted or an admin |
| ReleaseApi.StrangersMayNotChange | src/main/kotlin/com/chattriggers/website/api/ReleaseController.kt:332 | a default-role caller who may see the module but does not own it gets Forbidden |
| ReleaseApi.CreateChecks | src/main/kotlin/com/chattriggers/website/api/ReleaseController.kt:36-62 | Unauthorized without a session user; success only for a visible module, a three-part release version, an allowed mod version, a new (module, release version, mod version) triple and an uploaded file |
| ReleaseApi.DuplicateTripleRejected | src/main/kotlin/com/chattriggers/website/api/ReleaseController.kt:52-58 | a signed-in caller who may see the module and repeats an existing release's module, release version and mod version is refused with BadRequest, whatever else the request holds, once the mod version reads as a version |
| ReleaseApi.CreateNeedsNoOwnership | src/main/kotlin/com/chattriggers/website/api/ReleaseController.kt:35-40 | a signed-in default-role caller who may see a module but does not own it is never refused by `create` for that reason, unlike `moduleOrFail`, which refuses the same caller with Forbidden; such a caller's release is always created pending |
| ReleaseApi.NewRow | src/main/kotlin/com/chattriggers/website/api/ReleaseController.kt:64-88 | the new row carries the request's columns and no downloads; it is verified with no token exactly for trusted users and admins, and pending with the fresh token otherwise |
| ReleaseApi.StaleOf | src/main/kotlin/com/chattriggers/website/api/ReleaseController.kt:66-72 | the superseded releases are exactly the pending rows of the same module and mod version |
| ReleaseApi.FolderKeys | src/main/kotlin/com/chattriggers/website/api/ReleaseController.kt:358 | every superseded release's folder is among the folders removed |
| ReleaseApi.NewReleaseIsOnlyPending | src/main/kotlin/com/chattriggers/website/api/ReleaseController.kt:66-83 | after supersession and the insert, the new release is the only pending one of its module and mod version |
| ReleaseApi.VerifyRow | src/main/kotlin/com/chattriggers/website/api/ReleaseController.kt:291-308 | an already-verified row is left as is; no token gives Unauthorized and a wrong token Forbidden; success leaves the row verified with no token and no pending message |
| ReleaseApi.VerifyIdempotent | src/main/kotlin/com/chattriggers/website/api/ReleaseController.kt:291-292 | verifying an already-verified release changes nothing |
| ReleaseApi.VerifyNeedsTheToken | src/main/kotlin/com/chattriggers/website/api/ReleaseController.kt:294-298 | a pending release is verified only with the token it was created with |
| ReleaseApi.UpdateRow | src/main/kotlin/com/chattriggers/website/api/ReleaseController.kt:246-252 | only mod version and changelog change, each to the sent parameter when present; verified flag, token, message, downloads and timestamps are kept |
| ReleaseApi.ListReleases | src/main/kotlin/com/chattriggers/website/api/ReleaseController.kt:152-166 | every listed release belongs to the table; a default-role caller who does not own the module sees only verified releases |
| ReleaseApi.MetadataFilename | src/main/kotlin/com/chattriggers/website/api/ReleaseController.kt:201 | the metadata attachment name starts with the module name (the evidently intended template) |
| ReleaseApi.ScriptsFilename | src/main/kotlin/com/chattriggers/website/api/ReleaseController.kt:206 | the archive attachment name starts with the module name |
| ReleaseApi.MetadataFilenameMissesModuleName | src/main/kotlin/com/chattriggers/website/api/ReleaseController.kt:201 | as written, the metadata attachment name for module "examplemod" does not start with the module name, while the corrected one does |
| ReleaseApi.FilenamesShareStem | src/main/kotlin/com/chattriggers/website/api/ReleaseController.kt:198-207 | both attachments are named after the module and release version in the same way |
| ReleaseApi.GetOne | src/main/kotlin/com/chattriggers/website/api/ReleaseController.kt:180-218 | the module and release lookups' errors pass through; a pending release is Forbidden to anyone but owners, trusted users and admins; for an allowed caller a missing folder is NotFound, no `file` gives the release JSON, `metadata` serves metadata.json as application/json, `scripts` serves scripts.zip as application/zip named by `ScriptsFilename`, and any other value is BadRequest |
| ReleaseApi.StrangersGetOnlyVerified | src/main/kotlin/com/chattriggers/website/api/ReleaseController.kt:187-189 | a default-role caller who does not own the module never downloads a pending release |
| ReleaseApi.UpdateChecks | src/main/kotlin/com/chattriggers/website/api/ReleaseController.kt:229-244 | `update` proceeds exactly when `moduleOrFail` passes, the body type is accepted and the release exists; an unaccepted body after a passing module check is BadRequest |
| ReleaseApi.DeleteChecks | src/main/kotlin/com/chattriggers/website/api/ReleaseController.kt:140-145 | `delete` proceeds exactly when `moduleOrFail` passes and the release exists |
| ReleaseApi.ForeignReleaseAccepted | src/main/kotlin/com/chattriggers/website/api/ReleaseController.kt:140-145 | a release of any other module passes `update` and `delete` once the caller may change the path's module |
| ReleaseApi.CreateKeepsTokensCleared | src/main/kotlin/com/chattriggers/website/api/ReleaseController.kt:64-88 | if no verified row holds a token before `create`, none does after it |
| ReleaseApi.VerifyKeepsTokensCleared | src/main/kotlin/com/chattriggers/website/api/ReleaseController.kt:300-301 | if no verified row holds a token before `verify`, none does after it |
| ReleaseApi.UpdateKeepsTokensCleared | src/main/kotlin/com/chattriggers/website/api/ReleaseController.kt:246-252 | if no verified row holds a token before `update`, none does after it |
| ReleaseApi.NoReleaseOfModuleLeft | src/main/kotlin/com/chattriggers/website/api/ReleaseController.kt:363-368 | after `deleteReleasesForModule` no release of the module is left |
| ReleaseApi.VerifyOutcome | src/main/kotlin/com/chattriggers/website/api/ReleaseController.kt:286-314 | `verify` answers 200 exactly when the release exists and the row check passes |
| ReleaseApi.ReleaseController.DeleteRelease | src/main/kotlin/com/chattriggers/website/api/ReleaseController.kt:353-360 | the pending message, the folder and exactly that row are deleted |
| ReleaseApi.ReleaseController.Supersede | src/main/kotlin/com/chattriggers/website/api/ReleaseController.kt:66-72 | every pending release of the module and mod version loses its row, its folder and its pending message; the foreign keys stay valid |
| ReleaseApi.AnnouncedModule | src/main/kotlin/com/chattriggers/website/data/module.kt:47-56 | the `ReleaseCreated` event's module view fails exactly when the module has two or more verified releases and one of them has a release version `toVersion` cannot read; otherwise it is the module's public view |
| ReleaseApi.AnnouncementNeverFailsOnValidVersions | src/main/kotlin/com/chattriggers/website/api/ReleaseController.kt:46 | on a table whose release versions all pass `validateVersion`, as every created release's does, the announcement never fails |
| ReleaseApi.ReleaseController.Publish | src/main/kotlin/com/chattriggers/website/api/ReleaseController.kt:66-103 | on an accepted upload, the stale rows are replaced by the new row and its folder holds the archive and normalized metadata, announced exactly when the module is shown and the release verified; when building the announced module's view throws, the answer is a 500 and the rows roll back while the files stay as written; on a refused upload the rows roll back while the stale folders and messages stay deleted and the new folder is removed |
| ReleaseApi.ReleaseController.Create | src/main/kotlin/com/chattriggers/website/api/ReleaseController.kt:36-133 | a failed check changes nothing and answers its error; otherwise the state and answer `Publish` describes, the 500 of a failing announcement included |
| ReleaseApi.ReleaseController.MarkVerified | src/main/kotlin/com/chattriggers/website/api/ReleaseController.kt:300-308 | the row becomes verified with no token and no pending message; its pending message is deleted |
| ReleaseApi.ReleaseController.Verify | src/main/kotlin/com/chattriggers/website/api/ReleaseController.kt:286-314 | the answer is the `verify` outcome; a failure or an already-verified release changes nothing; success verifies the row, deletes its message and announces it exactly when its module is not hidden, unless building the announced module's view throws, which answers 500 and rolls the row back while the message stays deleted |
| ReleaseApi.ReleaseController.Confirm | src/main/kotlin/com/chattriggers/website/api/ReleaseController.kt:300-313 | a pending release with a matching token is verified and its message deleted; the announcement is made exactly when the module is shown and its view can be built, and a failing view answers 500 with the row rolled back |
| ReleaseApi.ReleaseController.Update | src/main/kotlin/com/chattriggers/website/api/ReleaseController.kt:229-277 | a failed check changes nothing; otherwise exactly the chosen row is replaced by its updated form, which is returned |
| ReleaseApi.ReleaseController.Delete | src/main/kotlin/com/chattriggers/website/api/ReleaseController.kt:140-145 | a failed check changes nothing; otherwise exactly that release's row, folder and pending message are deleted |
| ReleaseApi.ReleaseController.DeleteReleasesForModule | src/main/kotlin/com/chattriggers/website/api/ReleaseController.kt:362-368 | every release of the module loses its row and its folder; other rows and folders are kept |
| Versions.LeIsTotalOrder | src/main/kotlin/com/chattriggers/website/api/releases.kt:20-26 | the version order is a total order |
| Versions.ParseAll | src/main/kotlin/com/chattriggers/website/api/releases.kt:30-34 | the parts parse exactly when every part is an Int, each to its value |
| Versions.ToVersionSpec | src/main/kotlin/com/chattriggers/website/api/releases.kt:30-34 | `toVersion` succeeds exactly when there are at least three parts and every part is an Int, and then reads the first three |
| Versions.ToVersionIgnoresExtraPart | src/main/kotlin/com/chattriggers/website/api/releases.kt:30-34 | an extra Int part is parsed but does not change the version |
| Versions.ValidateVersion | src/main/kotlin/com/chattriggers/website/api/ReleaseController.kt:337-351 | `validateVersion` accepts exactly three dot-separated parts that are each an Int |
| Versions.ValidVersionParses | src/main/kotlin/com/chattriggers/website/api/ReleaseController.kt:337-351 | every version `validateVersion` accepts can be read by `toVersion` |
| Versions.FourPartsReadButRejected | src/main/kotlin/com/chattriggers/website/api/ReleaseController.kt:337-351 | "1.2.3.4" reads as 1.2.3 but `validateVersion` rejects it |
| Versions.VersionStringRoundTrip | src/main/kotlin/com/chattriggers/website/api/releases.kt:30-34 | printing a version with 32-bit parts and reading it back gives the version, and the text passes `validateVersion` |
| Resolution.Insert | src/main/kotlin/com/chattriggers/website/api/releases.kt:20 | inserting keeps the elements (as a multiset) and keeps a descending list descending |
| Resolution.InsertFrontSorted | src/main/kotlin/com/chattriggers/website/api/releases.kt:20 | an element whose key is not below the head's may go in front of a descending list |
| Resolution.InsertBehindSorted | src/main/kotlin/com/chattriggers/website/api/releases.kt:20 | an element below the head goes behind it, and the head stays in front of the sorted rest |
| Resolution.SortDescBy | src/main/kotlin/com/chattriggers/website/api/releases.kt:20-24 | `sortedByDescending` returns a permutation of its input in descending key order, and a list of at most one element unchanged |
| Resolution.SortKeepsMembers | src/main/kotlin/com/chattriggers/website/api/releases.kt:20-24 | sorting neither adds nor loses a release |
| Resolution.FilterKeepsSorted | src/main/kotlin/com/chattriggers/website/api/releases.kt:25 | filtering a descending list keeps it descending |
| Resolution.DistinctByModVersion | src/main/kotlin/com/chattriggers/website/api/releases.kt:21 | `distinctBy` keeps input releases whose mod version was not seen, pairwise distinct in mod version |
| Resolution.DistinctCovers | src/main/kotlin/com/chattriggers/website/api/releases.kt:21 | every mod version not seen before is represented in the result |
| Resolution.DistinctKeepsHighest | src/main/kotlin/com/chattriggers/website/api/releases.kt:20-21 | on a descending list, the release kept for a mod version has the highest key of its mod version |
| Resolution.DistinctKeepsSorted | src/main/kotlin/com/chattriggers/website/api/releases.kt:20-21 | `distinctBy` keeps a descending list descending |
| Resolution.LatestFailsExactly | src/main/kotlin/com/chattriggers/website/api/releases.kt:19-21 | the reduction throws exactly when two or more releases are verified and one of them has a malformed release version |
| Resolution.LatestAreVerifiedAndDistinct | src/main/kotlin/com/chattriggers/website/api/releases.kt:19-21 | the reduction keeps verified input releases only, pairwise distinct in mod version, in descending release-version order |
| Resolution.LatestCoversEveryModVersion | src/main/kotlin/com/chattriggers/website/api/releases.kt:19-21 | every mod version of a verified release is represented |
| Resolution.LatestIsHighestOfItsModVersion | src/main/kotlin/com/chattriggers/website/api/releases.kt:19-21 | the release kept for a mod version has the highest release version among the verified releases of that mod version |
| Resolution.ResolutionFailsExactly | src/main/kotlin/com/chattriggers/website/api/releases.kt:15-28 | the call throws exactly when the request is malformed, a verified release has a malformed mod version, or two or more releases are verified and one has a malformed release version |
| Resolution.ResolvedIsApplicable | src/main/kotlin/com/chattriggers/website/api/releases.kt:18-27 | a release returned is a verified release of the module with the request's major version and a mod version not above the request |
| Resolution.ChooseIsGreatest | src/main/kotlin/com/chattriggers/website/api/releases.kt:23-27 | among parseable candidates, whenever one applies to the request something is chosen, and its mod version is at least that candidate's |
| Resolution.ApplicableIsAtOrBelowResolved | src/main/kotlin/com/chattriggers/website/api/releases.kt:23-27 | every applicable verified release has a mod version at or below the one resolved to |
| Resolution.ResolvedIsGreatest | src/main/kotlin/com/chattriggers/website/api/releases.kt:15-28 | null exactly when no verified release is applicable; otherwise the resolved mod version is the greatest applicable one |
| Resolution.ResolvedIsNewestOfItsModVersion | src/main/kotlin/com/chattriggers/website/api/releases.kt:19-21 | within the chosen mod version, the release returned has the highest release version |
| Resolution.ResolutionIsMonotone | src/main/kotlin/com/chattriggers/website/api/releases.kt:23-27 | raising the request within one major version never lowers the mod version resolved to |
| Grouping.AddTo | src/main/kotlin/com/chattriggers/website/api/versions.kt:24-31 | one `groupBy` step keeps the keys distinct and adds the key at the end exactly when it is new |
| Grouping.AddToValues | src/main/kotlin/com/chattriggers/website/api/versions.kt:24-31 | the step appends the value to its key's group and leaves every other group's values alone |
| Grouping.GroupBy | src/main/kotlin/com/chattriggers/website/api/versions.kt:24-31 | `groupBy` gives each key one group |
| Grouping.GroupByCovers | src/main/kotlin/com/chattriggers/website/api/versions.kt:24-31 | every entry's key has a group |
| Grouping.GroupByValues | src/main/kotlin/com/chattriggers/website/api/versions.kt:24-31 | each group holds exactly the values under its key, in list order, and is never empty |
| Grouping.EachEntryInOneGroup | src/main/kotlin/com/chattriggers/website/api/versions.kt:24-31 | every entry is filed in exactly one group, the one of its key |
| VersionApi.LoadVersionsSpec | src/main/kotlin/com/chattriggers/website/api/versions.kt:36-40 | loading fails exactly when a non-blank line does not read as a version; every loaded version comes from a non-blank line |
| VersionApi.VersionLine | src/main/kotlin/com/chattriggers/website/api/versions.kt:36-40 | a printed version is one non-blank line that trims to itself |
| VersionApi.LineReadsBack | src/main/kotlin/com/chattriggers/website/api/versions.kt:36-40 | a printed 32-bit version is a line that loads back as that version |
| VersionApi.LoadJoinedLines | src/main/kotlin/com/chattriggers/website/api/versions.kt:36-40 | lines that are non-blank and hold no line break are all kept by the load, in order |
| VersionApi.LoadPrintedVersions | src/main/kotlin/com/chattriggers/website/api/versions.kt:36-40 | a file listing 32-bit versions one per line loads back as those versions, in order |
| VersionApi.EachVersionInOneGroup | src/main/kotlin/com/chattriggers/website/api/versions.kt:24-31 | every allowed version is listed in exactly one group, under its "major.minor" key, by its patch level |
| VersionApi.VersionCache.constructor | src/main/kotlin/com/chattriggers/website/api/versions.kt:14-15 | at start-up the cache holds the loaded file and the start time |
| VersionApi.VersionCache.GetVersions | src/main/kotlin/com/chattriggers/website/api/versions.kt:17-34 | the list is reloaded only when more than thirty minutes have passed since the last reload; a reload that throws leaves the cache as it was and fails the request; the answer is the cached list grouped by "major.minor" |
| TagApi.TrimAll | src/main/kotlin/com/chattriggers/website/api/tags.kt:13 | every line is trimmed, none dropped |
| TagApi.ParseTags | src/main/kotlin/com/chattriggers/website/api/tags.kt:13 | one tag per line of the file, at least one |
| TagApi.TagsOfLines | src/main/kotlin/com/chattriggers/website/api/tags.kt:13 | a file made of lines gives exactly those lines, trimmed |
| TagApi.TrailingNewlineAllowsEmptyTag | src/main/kotlin/com/chattriggers/website/api/tags.kt:13 | a file ending in a line break allows the empty tag |
| TagApi.TagCache.constructor | src/main/kotlin/com/chattriggers/website/api/tags.kt:13-14 | at start-up the cache holds the parsed file and the start time |
| TagApi.TagCache.GetTags | src/main/kotlin/com/chattriggers/website/api/tags.kt:16-24 | the list is re-read only when more than thirty minutes have passed since the last read; the answer is the cached list |
| EventApi.TypeTag | src/main/kotlin/com/chattriggers/website/api/events.kt:43-47 | created modules are tagged "module_created", deleted modules "module_deleted", created releases "release_created" |
| EventApi.TagsTellKindsApart | src/main/kotlin/com/chattriggers/website/api/events.kt:43-47 | two events carry the same tag exactly when they are of the same kind |
| EventApi.RemoveFirst | src/main/kotlin/com/chattriggers/website/api/events.kt:30 | `remove` drops one occurrence of a held listener and nothing else (as a multiset), and changes nothing when it is not held |
| EventApi.OpenOnes | src/main/kotlin/com/chattriggers/website/api/events.kt:35 | the kept listeners are exactly the held ones whose session is open |
| EventApi.OpenOnesSnoc | src/main/kotlin/com/chattriggers/website/api/events.kt:35 | `removeIf` keeps the open listeners in their order |
| EventApi.AllOpenKept | src/main/kotlin/com/chattriggers/website/api/events.kt:35 | when every session is open nothing is removed |
| EventApi.RemoveClosed | src/main/kotlin/com/chattriggers/website/api/events.kt:35 | the element-by-element loop keeps exactly the open listeners, in order |
| EventApi.Broadcast | src/main/kotlin/com/chattriggers/website/api/events.kt:37-39 | one delivery of the message per listener, in listener order |
| EventApi.EventHandler.Connect | src/main/kotlin/com/chattriggers/website/api/events.kt:17-27 | a connect is refused exactly when more than 100 listeners are held; otherwise the listener is appended; at most 101 listeners are ever held |
| EventApi.EventHandler.Close | src/main/kotlin/com/chattriggers/website/api/events.kt:29-31 | closing removes the first occurrence of that listener |
| EventApi.EventHandler.PostEvent | src/main/kotlin/com/chattriggers/website/api/events.kt:34-40 | closed listeners are dropped, then every remaining listener gets the event, in order |
| Tracking.EqualsIffSameHash | src/main/kotlin/com/chattriggers/website/data/tracking.kt:14-16 | two tracked users are equal exactly when their hashes are; null and other objects never are |
| Tracking.EqualsIsEquivalence | src/main/kotlin/com/chattriggers/website/data/tracking.kt:14-16 | `equals` on tracked users is reflexive, symmetric and transitive |
| Tracking.Wrap32 | src/main/kotlin/com/chattriggers/website/data/tracking.kt:18-20 | the 32-bit result of an overflowing Int computation: in range and congruent modulo 2^32 |
| Tracking.CodeUnits | src/main/kotlin/com/chattriggers/website/data/tracking.kt:18-20 | each character is one or two UTF-16 code units |
| Tracking.HashOfUnits | src/main/kotlin/com/chattriggers/website/data/tracking.kt:18-20 | `String.hashCode`'s loop always yields a 32-bit Int |
| Tracking.LoopCongruent | src/main/kotlin/com/chattriggers/website/data/tracking.kt:18-20 | the 32-bit loop and the exact polynomial differ by a multiple of 2^32 |
| Tracking.HashIsWrappedPolynomial | src/main/kotlin/com/chattriggers/website/data/tracking.kt:18-20 | `hashCode` is the wrapped polynomial over the code units, whatever overflows happen midway |
| Tracking.EqualUsersHashAlike | src/main/kotlin/com/chattriggers/website/data/tracking.kt:14-20 | equal tracked users have equal 32-bit hash codes, so `equals` and `hashCode` agree |
| TrackingApi.VersionParam | src/main/kotlin/com/chattriggers/website/api/tracking.kt:27 | a report without a version is taken as "2.0.0" |
| TrackingApi.FindByHash | src/main/kotlin/com/chattriggers/website/api/tracking.kt:30-37 | the first tracked user with the hash; none exactly when no user has it |
| TrackingApi.Upserted | src/main/kotlin/com/chattriggers/website/api/tracking.kt:29-40 | an unknown hash adds one user with that hash and version; a known hash sets the version of its first user |
| TrackingApi.UpsertSpec | src/main/kotlin/com/chattriggers/website/api/tracking.kt:29-40 | after a report the hash names the reporter and carries the reported version; a user is added exactly when the hash was unknown; other users are untouched |
| TrackingApi.ReportTwice | src/main/kotlin/com/chattriggers/website/api/tracking.kt:29-40 | two reports with one hash are one report with the later version: no second user is created |
| TrackingApi.UpsertKeepsHashesDistinct | src/main/kotlin/com/chattriggers/website/api/tracking.kt:29-40 | reports keep hashes unique among tracked users |
| TrackingApi.Statistics.Track | src/main/kotlin/com/chattriggers/website/api/tracking.kt:23-57 | a missing hash is BadRequest and changes nothing; otherwise the reporter is found or created and one timestamp row is added unless one exists for that user and time |
| TrackingApi.Statistics.Summary | src/main/kotlin/com/chattriggers/website/api/tracking.kt:59-63 | the summary counts the tracked users |
| UserApi.UserIdParam | src/main/kotlin/com/chattriggers/website/api/user.kt:23-25 | the id is accepted exactly when it is a non-negative Int; otherwise BadRequest |
| UserApi.ToggledRank | src/main/kotlin/com/chattriggers/website/api/user.kt:29-30 | trusted and default swap; an admin keeps the rank |
| UserApi.ToggleTwice | src/main/kotlin/com/chattriggers/website/api/user.kt:29-30 | toggling twice gives the rank back |
| UserApi.TrustUser | src/main/kotlin/com/chattriggers/website/api/user.kt:27-30 | only the rank of the user with that id changes; an unknown id changes nothing |
| UserApi.TrustTwiceRestores | src/main/kotlin/com/chattriggers/website/api/user.kt:27-30 | `trust` twice on one user restores the table |
| UserApi.TrustKeepsOwners | src/main/kotlin/com/chattriggers/website/api/user.kt:27-30 | toggling a rank keeps every module's owner |
| UserApi.TrustOutcome | src/main/kotlin/com/chattriggers/website/api/user.kt:17-33 | non-admins get Forbidden; a bad id BadRequest; success exactly for an admin and an existing non-negative id |
| UserApi.Trust | src/main/kotlin/com/chattriggers/website/api/user.kt:17-33 | the answer is the outcome above; a failure changes nothing; success toggles exactly that user's rank and keeps the foreign keys |
| UserApi.OwnedBy | src/main/kotlin/com/chattriggers/website/api/user.kt:43 | a user's modules are exactly the rows that reference the user |
| UserApi.UserModules | src/main/kotlin/com/chattriggers/website/api/user.kt:36-44 | a bad id is BadRequest and an unknown one NotFound; otherwise one public view per module the user owns, in table order, each showing the user as owner (hidden modules included) |
| ModuleApi.NewModule | src/main/kotlin/com/chattriggers/website/api/ModuleController.kt:41-67 | create answers Unauthorized without a session user, BadRequest for a missing or malformed name, Conflict for a taken name, and succeeds exactly when the name is valid and free, every tag is allowed, a description is given and the owner row exists; the new row has the session user as owner, no downloads, the tags comma-joined, hidden iff flagged reads as true, both timestamps now |
| ModuleApi.FlaggedCaseOnCreate | src/main/kotlin/com/chattriggers/website/api/ModuleController.kt:64 | on creation flagged is read in any letter case ("TRUE", "True"), and anything else ("yes", "") leaves the module shown |
| ModuleApi.CreatedTagsReadBack | src/main/kotlin/com/chattriggers/website/api/ModuleController.kt:53-63 | the tags of a created module read back, in its public view, as exactly the non-blank tags given |
| ModuleApi.CreatedModuleView | src/main/kotlin/com/chattriggers/website/api/ModuleController.kt:57-69 | a module with a fresh id has no releases, and its public view exists and lists none |
| ModuleApi.ValidAfterInsert | src/main/kotlin/com/chattriggers/website/api/ModuleController.kt:57-67 | appending a module whose owner exists keeps every module's owner and every release's module present |
| ModuleApi.CreateModule | src/main/kotlin/com/chattriggers/website/api/ModuleController.kt:41-102 | the insert happens exactly when NewModule succeeds and appends that row and nothing else; the ModuleCreated event and webhook message go out iff the new module is not hidden; the tables stay consistent |
| ModuleApi.EditableModule | src/main/kotlin/com/chattriggers/website/api/ModuleController.kt:215-219 | a caller may change a module only if getModuleOrFail finds it and the caller is not a default-role user unless they own it; lookup errors pass through, a default-role stranger gets Forbidden |
| ModuleApi.StrangerIsForbidden | src/main/kotlin/com/chattriggers/website/api/ModuleController.kt:217-219 | a default-role caller who does not own a module they can see is refused with Forbidden, on edit and on delete alike |
| ModuleApi.EditedImage | src/main/kotlin/com/chattriggers/website/api/ModuleController.kt:225-229 | an absent image keeps the old one; a given image is stored iff it matches the imgur pattern, otherwise BadRequest |
| ModuleApi.EditedHidden | src/main/kotlin/com/chattriggers/website/api/ModuleController.kt:231-237 | an absent flagged keeps the old flag; exactly "true" and "false" set it; any other value, including "TRUE", is BadRequest |
| ModuleApi.EditedTags | src/main/kotlin/com/chattriggers/website/api/ModuleController.kt:239-248 | absent tags keep the old ones; an empty tags list fails (500); a blank first tag clears the tags; otherwise every tag must be allowed and they are stored comma-joined, else BadRequest |
| ModuleApi.Edited | src/main/kotlin/com/chattriggers/website/api/ModuleController.kt:221-250 | the edit succeeds iff image, flagged and tags are all acceptable; then the description is replaced only when given, those three fields take their edited values, updatedAt is now and id, owner, name, downloads and createdAt are kept |
| ModuleApi.EditedTagsReadBack | src/main/kotlin/com/chattriggers/website/api/ModuleController.kt:239-248 | after an edit, cleared tags show as no tags in the public view and set tags show as exactly the non-blank ones sent |
| ModuleApi.ModuleIndex | src/main/kotlin/com/chattriggers/website/api/ModuleController.kt:215 | the position found holds the module FindModule returns, and there is none exactly when no module has that id |
| ModuleApi.ValidAfterRowUpdate | src/main/kotlin/com/chattriggers/website/api/ModuleController.kt:221-250 | rewriting one module row with its id and owner kept keeps the owner and module references consistent |
| ModuleApi.UpdatedModule | src/main/kotlin/com/chattriggers/website/api/ModuleController.kt:211-250 | an update succeeds only for a module the caller may change, with the edit's errors otherwise, and yields the edited row of that module |
| ModuleApi.EditRow | src/main/kotlin/com/chattriggers/website/api/ModuleController.kt:221-250 | the field-by-field assignments with their early failures compute exactly the edited row of Edited |
| ModuleApi.UpdateModule | src/main/kotlin/com/chattriggers/website/api/ModuleController.kt:211-253 | on any failed check the table is unchanged and the error is returned; otherwise the edited row replaces the module's row and the answer is its public view, unless building that view fails, which is a 500 that rolls the edit back |
| ModuleApi.WithoutModule | src/main/kotlin/com/chattriggers/website/api/ModuleController.kt:114 | the rows left are exactly those whose id differs from the deleted module's |
| ModuleApi.ValidAfterModuleDelete | src/main/kotlin/com/chattriggers/website/api/ModuleController.kt:112-114 | removing a module together with all its releases keeps the owner and module references consistent |
| ModuleApi.DeleteModule | src/main/kotlin/com/chattriggers/website/api/ModuleController.kt:104-128 | a caller who may not change the module gets the lookup error or Forbidden and nothing changes; otherwise every release of the module loses its row and its folder, the module row goes, and the ModuleDeleted event and webhook message go out iff the module was shown |
| ModuleApi.IntParamOr | src/main/kotlin/com/chattriggers/website/api/ModuleController.kt:134-139 | an absent integer query parameter gives the default; a present one gives its value when it reads as an Int, otherwise BadRequest |
| ModuleApi.FiltersOf | src/main/kotlin/com/chattriggers/website/api/ModuleController.kt:137-169 | owner filters by that owner id (BadRequest when not an Int); trusted, tags and q each add their condition when present; a default-role caller sees shown modules only, others may filter on flagged |
| ModuleApi.Selection | src/main/kotlin/com/chattriggers/website/api/ModuleController.kt:171 | a module is listed iff it is in the table and passes every filter condition, joined with its owner |
| ModuleApi.SortTypeOf | src/main/kotlin/com/chattriggers/website/api/ModuleController.kt:176-180 | a sort name is accepted iff it is the name of a SortType constant, which is the constant returned |
| ModuleApi.SortNameCaseInsensitive | src/main/kotlin/com/chattriggers/website/api/ModuleController.kt:175-177 | without a sort parameter the order is newest first, and a sort name is accepted in lower case as well |
| ModuleApi.InsertModule | src/main/kotlin/com/chattriggers/website/api/ModuleController.kt:182 | inserting into a sorted list keeps it sorted and adds exactly the one element |
| ModuleApi.InsertStep | src/main/kotlin/com/chattriggers/website/api/ModuleController.kt:182 | an element that may not precede the head stays behind it, so the head followed by the sorted rest is sorted |
| ModuleApi.SortModules | src/main/kotlin/com/chattriggers/website/api/ModuleController.kt:175-183 | the sorted rows are a permutation of the selection, ordered by the sort type's column and direction |
| ModuleApi.PageStart | src/main/kotlin/com/chattriggers/website/api/ModuleController.kt:183 | a page starts at the offset when it is positive and within the rows, at the start for offset 0 or less, and never past the end |
| ModuleApi.Page | src/main/kotlin/com/chattriggers/website/api/ModuleController.kt:183 | the page holds at most limit rows, the consecutive rows from the page start on, and is short only at the end of the rows |
| ModuleApi.ListModules | src/main/kotlin/com/chattriggers/website/api/ModuleController.kt:133-183 | a listing that succeeds has a non-negative limit; a negative one is refused by the database |
| ModuleApi.PageOfSorted | src/main/kotlin/com/chattriggers/website/api/ModuleController.kt:182-183 | a page of a sorted list is sorted and holds only members of the list |
| ModuleApi.ListingSpec | src/main/kotlin/com/chattriggers/website/api/ModuleController.kt:130-183 | total counts every module that passes the filters, the page holds at most limit of them, only such modules, in the requested order, and a default-role caller gets no hidden module |
| ModuleApi.SortKeepsSize | src/main/kotlin/com/chattriggers/website/api/ModuleController.kt:182 | sorting keeps the number of rows |
| ModuleApi.ListingIsComplete | src/main/kotlin/com/chattriggers/website/api/ModuleController.kt:171-183 | with no offset and a limit at least the total, every module passing the filters is listed |
| ModuleApi.ListingErrors | src/main/kotlin/com/chattriggers/website/api/ModuleController.kt:134-180 | a malformed limit, offset or owner is BadRequest; once they parse, an unknown sort name is BadRequest, and with a known sort name a negative limit is a 500 |
| ModuleApi.ViewOf | src/main/kotlin/com/chattriggers/website/api/ModuleController.kt:185-186 | a row's view carries its id and its owner's public user; it is the authorized view iff asked for, which cannot fail |
| ModuleApi.ViewsOf | src/main/kotlin/com/chattriggers/website/api/ModuleController.kt:185-186 | the views keep the rows' order, ids and owners, all of one kind; only public views can fail, which fails the page with a 500 |
| ModuleApi.GetAll | src/main/kotlin/com/chattriggers/website/api/ModuleController.kt:130-192 | the response carries the listing's limit, offset and total and one view per listed row in order, authorized iff the caller is trusted or an admin; listing errors pass through |
| ModuleApi.FindByLowerName | src/main/kotlin/com/chattriggers/website/api/ModuleController.kt:202-203 | a module is found by name iff its lower-cased name equals the id exactly as given |
| ModuleApi.GetOneModule | src/main/kotlin/com/chattriggers/website/api/ModuleController.kt:194-209 | an Int id goes through getModuleOrFail and its errors, and the answer is the view of the module with that id; any other id is looked up by lower-cased name, BadRequest when absent, and the answer is the view of the module found; the view is authorized exactly for trusted users, admins and the owner |
| ModuleApi.ByNameIgnoresVisibility | src/main/kotlin/com/chattriggers/website/api/ModuleController.kt:201-206 | a module looked up by name is returned to any caller whenever its view can be built: hidden modules and modules without a verified release included |
| ModuleApi.MixedCaseNameNotFound | src/main/kotlin/com/chattriggers/website/api/ModuleController.kt:202-203 | a non-numeric id with an upper-case letter is never found, since it is compared with lower-cased names |
| ModuleApi.GetOneViewKind | src/main/kotlin/com/chattriggers/website/api/ModuleController.kt:206 | by id, the view is authorized exactly for trusted users, admins and the module's owner |
| Patterns.ValidNameIsPathSegment | src/main/kotlin/com/chattriggers/website/api/ModuleController.kt:26-47 | a valid module name holds no slash, backslash, dot or comma and stays valid lower-cased |
| Patterns.WordRun | src/main/kotlin/com/chattriggers/website/api/ModuleController.kt:25 | the leading word-character run is all word characters and is followed by a non-word character or the end |
| Patterns.WordRunExact | src/main/kotlin/com/chattriggers/website/api/ModuleController.kt:25 | a word run followed by a non-word character is the leading run |
| Patterns.ImgurLinkIsTheRegex | src/main/kotlin/com/chattriggers/website/api/ModuleController.kt:25 | the matcher accepts a string iff it is a scheme, an optional word-run subdomain with a dot, and the imgur tail |
| Patterns.HostInLanguage | src/main/kotlin/com/chattriggers/website/api/ModuleController.kt:25 | every string the matcher accepts is in the pattern's language |
| Patterns.LanguageInHost | src/main/kotlin/com/chattriggers/website/api/ModuleController.kt:25 | every string in the pattern's language is accepted by the matcher |
| Patterns.AnyCharExample | src/main/kotlin/com/chattriggers/website/api/ModuleController.kt:25 | the unescaped dot lets "imgurXcom" through |
| Patterns.TailOf | src/main/kotlin/com/chattriggers/website/api/ModuleController.kt:25 | imgur, one non-line-terminator character, com/, seven alphanumerics, a dot and an alphanumeric extension form a tail |
| FailureResponses.Ordinal | src/main/kotlin/com/chattriggers/website/api/responses/login.kt:5-10 | each constant's position in the declaration is below three |
| FailureResponses.OrdinalInjective | src/main/kotlin/com/chattriggers/website/api/responses/login.kt:5-10 | two constants have the same position exactly when they are the same constant |
| FailureResponses.Message | src/main/kotlin/com/chattriggers/website/api/responses/login.kt:10 | the body reads back, as a decimal, to the constant's position |
| FailureResponses.MessageCodes | src/main/kotlin/com/chattriggers/website/api/responses/login.kt:5-10 | the bodies are "0" for ALREADY_LOGGED_IN, "1" for NAME_IN_USE and "2" for EMAIL_IN_USE |
| FailureResponses.MessagesDistinct | src/main/kotlin/com/chattriggers/website/api/responses/login.kt:10 | different constants give different bodies, so a client can tell which check failed |
| FailureResponses.ThrowResponse | src/main/kotlin/com/chattriggers/website/api/responses/login.kt:10 | throwing a failure response is always a Conflict whose body reads back to the constant's position |
| LoginApi.RequireParam | src/main/kotlin/com/chattriggers/website/api/utils.kt:89-91 | a required form parameter is its first value when present, otherwise BadRequest naming the parameter |
| LoginApi.UserByName | src/main/kotlin/com/chattriggers/website/api/login.kt:44-46 | a user is found by name iff some user has exactly that name, and the one found has it |
| LoginApi.CheckedHashSpec | src/main/kotlin/com/chattriggers/website/api/login.kt:48-49 | a php-era "$2y$" hash is checked as a "$2a$" hash, any other hash as stored, and the rewrite keeps the length |
| LoginApi.Login | src/main/kotlin/com/chattriggers/website/api/login.kt:35-62 | a logged-in session is answered with its user and left alone; otherwise success needs both credentials, the user with that name and checkpw accepting the password against the rewritten hash, and stores that user and its rank in the session; a failure leaves the session unchanged |
| LoginApi.LoginFailuresAlike | src/main/kotlin/com/chattriggers/website/api/login.kt:44-61 | with both credentials given, the login succeeds iff the name exists and the password checks, and an unknown name and a wrong password both give the same Unauthorized "Authentication failed." |
| LoginApi.LoginMissingCredential | src/main/kotlin/com/chattriggers/website/api/login.kt:41-42 | a missing credential is BadRequest, the username reported first, before any lookup |
| LoginApi.Current | src/main/kotlin/com/chattriggers/website/api/login.kt:98-102 | the current user is the session's user, and without one the answer is NotFound "No active user." |
| LoginApi.Logout | src/main/kotlin/com/chattriggers/website/api/login.kt:92-96 | after logout the session holds neither a user nor a role |
| LoginApi.LoginThenCurrent | src/main/kotlin/com/chattriggers/website/api/login.kt:35-102 | after a login the current user is the one logged in and the role checks see its rank; after logout there is no current user and the role is the default |
| LoginApi.NewAccountReply | src/main/kotlin/com/chattriggers/website/api/login.kt:64-90 | a logged-in caller gets ALREADY_LOGGED_IN; success needs name, email and password, an email and a name no user has, and creates a default-rank user with the hashed password and both timestamps now |
| LoginApi.NewAccountCheckOrder | src/main/kotlin/com/chattriggers/website/api/login.kt:71-82 | a taken email is reported before a taken name, and a missing password only once both are free |
| LoginApi.NewAccountKeepsDistinct | src/main/kotlin/com/chattriggers/website/api/login.kt:71-86 | creating an account keeps every name and every email unique among users |
| LoginApi.OwnersExistAppendUser | src/main/kotlin/com/chattriggers/website/api/login.kt:79-86 | adding a user keeps every module's owner present |
| LoginApi.NewAccount | src/main/kotlin/com/chattriggers/website/api/login.kt:64-90 | the user row is appended exactly on success and the table is unchanged on any rejection; the tables stay consistent |
| LoginApi.RequestReset | src/main/kotlin/com/chattriggers/website/api/login.kt:104-129 | a logged-in caller gets Unauthorized; a missing email is BadRequest; otherwise a reset row for that email with the token, expiring 30 minutes from now, is appended and the mail goes to that address, whether or not a user has it |
| LoginApi.UserIndexByEmail | src/main/kotlin/com/chattriggers/website/api/login.kt:151 | the position found is the first user with that email, and there is none exactly when no user has it |
| LoginApi.CompleteResetReply | src/main/kotlin/com/chattriggers/website/api/login.kt:131-154 | a logged-in caller gets Unauthorized; a reset succeeds iff password and token are given, exactly one reset row carries the token, it has not expired and some user has its email, and the target is the first such user with the new password's hash |
| LoginApi.ApplyReset | src/main/kotlin/com/chattriggers/website/api/login.kt:153 | only the target user's password changes; every other row and every other column is kept |
| LoginApi.CompleteResetRejects | src/main/kotlin/com/chattriggers/website/api/login.kt:139-149 | a token carried by no row or by several is "Bad token.", and an expired one is refused with the expiry message |
| LoginApi.ResetTokenReusable | src/main/kotlin/com/chattriggers/website/api/login.kt:139-153 | a token that worked works again, with any new password, until it expires, since its row is never deleted |
| LoginApi.OwnersExistAfterReset | src/main/kotlin/com/chattriggers/website/api/login.kt:153 | changing a password keeps every module's owner present |
| LoginApi.CompleteReset | src/main/kotlin/com/chattriggers/website/api/login.kt:131-154 | the target's password is assigned exactly on success, the users are unchanged on any rejection, and the reset rows are never touched |
| Webhook.TruncateSpec | src/main/kotlin/com/chattriggers/website/data/Webhook.kt:38-42 | a text of at most 600 characters (Unicode scalar values) is kept, a longer one becomes exactly 600 characters, its first 597 followed by "...", and truncating twice changes nothing |
| Webhook.Utf16InBmp | src/main/kotlin/com/chattriggers/website/data/Webhook.kt:39-40 | a text inside the Basic Multilingual Plane has one UTF-16 code unit per character, equal to it |
| Webhook.TruncateCountsCodeUnitsInBmp | src/main/kotlin/com/chattriggers/website/data/Webhook.kt:39-40 | inside the Basic Multilingual Plane a text is cut exactly when it has more than 600 UTF-16 code units, the result never has more than 600, and a cut text has exactly 600 whose first 597 are those of the original |
| Webhook.DecodeWithoutEscapes | src/main/kotlin/com/chattriggers/website/data/Webhook.kt:86 | a text without a literal backslash-n reaches the URL decoder unchanged |
| Webhook.EmbedBuilder.constructor | src/main/kotlin/com/chattriggers/website/data/Webhook.kt:89 | a new embed has no colour, timestamp, title, link, fields or image |
| Webhook.EmbedBuilder.Build | src/main/kotlin/com/chattriggers/website/data/Webhook.kt:94 | the embed built carries the builder's title, fields and image |
| Webhook.EmbedBuilder.SetColor | src/main/kotlin/com/chattriggers/website/data/Webhook.kt:90 | sets the colour and keeps every other part |
| Webhook.EmbedBuilder.SetTimestamp | src/main/kotlin/com/chattriggers/website/data/Webhook.kt:91 | sets the timestamp and keeps every other part |
| Webhook.EmbedBuilder.SetTitle | src/main/kotlin/com/chattriggers/website/data/Webhook.kt:29-32 | sets the title and its link and keeps every other part |
| Webhook.EmbedBuilder.AddField | src/main/kotlin/com/chattriggers/website/data/Webhook.kt:33-36 | appends one field after the others and keeps every other part |
| Webhook.EmbedBuilder.SetImageUrl | src/main/kotlin/com/chattriggers/website/data/Webhook.kt:49 | sets the image and keeps every other part |
| Webhook.ModuleCreatedEmbedSpec | src/main/kotlin/com/chattriggers/website/data/Webhook.kt:27-51 | the module-created embed is titled with the module's name, names the author first, has a Tags field iff the module has tags, a Description field iff the truncated, decoded description is not blank, and an image iff the module's image is present and not blank, trimmed |
| Webhook.ModuleDeletedEmbedSpec | src/main/kotlin/com/chattriggers/website/data/Webhook.kt:53-57 | the module-deleted embed has no link, no fields and no image, unlike the module-created one, and shares its colour and timestamp |
| Webhook.ReleaseCreatedEmbedSpec | src/main/kotlin/com/chattriggers/website/data/Webhook.kt:59-84 | every release embed starts with the Author, Release Version and Mod Version fields, has a Changelog field iff the truncated, decoded changelog is not blank, and has no image |
| Webhook.ReleaseCreatedOrder | src/main/kotlin/com/chattriggers/website/data/Webhook.kt:59-84 | when every text decodes, a release is announced by one message, preceded by the module-created message exactly when the module has one release; every message is ctbot's and purple |
| Webhook.BuildModuleCreated | src/main/kotlin/com/chattriggers/website/data/Webhook.kt:27-51 | the step-by-step builder calls produce exactly the module-created embed, or nothing when decoding the description fails |
| Webhook.BuildModuleDeleted | src/main/kotlin/com/chattriggers/website/data/Webhook.kt:53-57 | the builder calls produce exactly the module-deleted embed |
| Webhook.BuildReleaseCreated | src/main/kotlin/com/chattriggers/website/data/Webhook.kt:65-83 | the step-by-step builder calls produce exactly the release embed, or nothing when decoding the changelog fails |
| Webhook.Notifier.constructor | src/main/kotlin/com/chattriggers/website/data/Webhook.kt:16-18 | no client is set up and nothing has been posted |
| Webhook.Notifier.SetupWebhook | src/main/kotlin/com/chattriggers/website/data/Webhook.kt:20-25 | the client is the one for the configured URL and nothing is posted |
| Webhook.Notifier.Send | src/main/kotlin/com/chattriggers/website/data/Webhook.kt:96-106 | with a client, exactly one ctbot message around the embed is posted; without one nothing is |
| Webhook.Notifier.OnModuleCreated | src/main/kotlin/com/chattriggers/website/data/Webhook.kt:27-51 | posts the module-created embed when there is a client and the description decodes, and nothing otherwise |
| Webhook.Notifier.OnModuleDeleted | src/main/kotlin/com/chattriggers/website/data/Webhook.kt:53-57 | posts the module-deleted embed when there is a client |
| Webhook.Notifier.OnReleaseCreated | src/main/kotlin/com/chattriggers/website/data/Webhook.kt:59-84 | posts, in order, the module-created message for a module's only release and then the release message, stopping at the first text that fails to decode |
| Tables.Database.constructor | src/main/kotlin/com/chattriggers/website/data/DB.kt:9 | an empty database, whose foreign keys hold |
| Tables.FormParam | src/main/kotlin/com/chattriggers/website/api/utils.kt:90 | a form parameter is present iff at least one value was sent under its name, and it is the first value |
| Tables.FormParams | src/main/kotlin/com/chattriggers/website/api/ModuleController.kt:53 | a name never sent has no values |
| Tables.FindUser | src/main/kotlin/com/chattriggers/website/data/module.kt:24 | a user is found iff some user row has the id, and the one found has it |
| Tables.FindModule | src/main/kotlin/com/chattriggers/website/data/release.kt:22 | a module is found iff some module row has the id, and the one found has it |
| Tables.WithoutIds | src/main/kotlin/com/chattriggers/website/api/ReleaseController.kt:353-367 | the rows left are exactly those whose id is not deleted, in a list no longer than before |
| Tables.WithoutIdsTwice | src/main/kotlin/com/chattriggers/website/api/ReleaseController.kt:353-367 | deleting one set of rows and then another is deleting their union |
| Tables.WithoutNoIds | src/main/kotlin/com/chattriggers/website/api/ReleaseController.kt:359 | deleting no ids leaves the rows as they are |
| Tables.IdsOf | src/main/kotlin/com/chattriggers/website/api/ReleaseController.kt:363-367 | every row's id is among the ids collected |
| Tables.IdsOfExact | src/main/kotlin/com/chattriggers/website/api/ReleaseController.kt:363-367 | every id collected belongs to one of the rows |
| Tables.IdsOfSnoc | src/main/kotlin/com/chattriggers/website/api/ReleaseController.kt:363-367 | one more row adds exactly its id |
| Tables.MessagesOf | src/main/kotlin/com/chattriggers/website/api/ReleaseController.kt:354-356 | at most one pending message per row is collected |
| Tables.MessagesOfComplete | src/main/kotlin/com/chattriggers/website/api/ReleaseController.kt:354-356 | every pending message of the rows is collected |
| Tables.MessagesOfOne | src/main/kotlin/com/chattriggers/website/api/ReleaseController.kt:354-356 | one row contributes its pending message, if it has one |
| Tables.MessagesOfSnoc | src/main/kotlin/com/chattriggers/website/api/ReleaseController.kt:354-356 | one more row adds its own pending message after the others |
| Storage.Store.constructor | src/main/kotlin/com/chattriggers/website/api/ReleaseController.kt:358 | no module folders exist yet |
| Storage.Store.Current | src/main/kotlin/com/chattriggers/website/api/ReleaseController.kt:358 | a folder that does not exist yet reads as empty |
| Storage.UpdateThenRemove | src/main/kotlin/com/chattriggers/website/api/ReleaseController.kt:358 | writing a folder and then deleting it leaves the other folders as they were |
| ReleaseApi.ReleaseController.constructor | src/main/kotlin/com/chattriggers/website/api/ReleaseController.kt:24 | no verification message has been deleted yet |
| ReleaseApi.PrefixStep | src/main/kotlin/com/chattriggers/website/api/ReleaseController.kt:363-367 | deleting one more release adds exactly its id, its folder and its pending message |
| TrackingApi.Statistics.constructor | src/main/kotlin/com/chattriggers/website/data/tracking.kt:5 | no reporters and no timestamps, and reporter hashes are distinct |
| EventApi.EventHandler.constructor | src/main/kotlin/com/chattriggers/website/api/events.kt:13-14 | the listener list starts empty |
| ReleaseApi.TokensClearedAfterUpdate | src/main/kotlin/com/chattriggers/website/api/ReleaseController.kt:229-256 | rewriting one release row with a row that holds no token once verified keeps every verified release without a token |
| Users.AsRef | src/main/kotlin/com/chattriggers/website/api/ModuleController.kt:217 | a missing session user is null in the owner comparison, and a present one is not |
| TrackingApi.FirstHashAt | src/main/kotlin/com/chattriggers/website/api/tracking.kt:30 | the reporter found by hash is the first one carrying it |
| VerificationRequests.VerifiedOfPair | src/main/kotlin/com/chattriggers/website/api/ReleaseController.kt:106-110 | exactly the verified releases of the module and mod version |
| VerificationRequests.MaxFrom | src/main/kotlin/com/chattriggers/website/api/ReleaseController.kt:110 | the scan keeps the current best unless a later version is strictly greater; it fails iff a later version does not parse, and the row kept has a version at least every scanned one |
| VerificationRequests.MaxByVersion | src/main/kotlin/com/chattriggers/website/api/ReleaseController.kt:110 | no rows give null and one row gives itself without reading its version; with two or more, it fails iff some version does not parse, and otherwise gives a row whose version is at least every other's |
| VerificationRequests.RequestOf | src/main/kotlin/com/chattriggers/website/api/ReleaseController.kt:104-126 | the request carries the release's own token and id, its title names the release version and the module, its links point at the module's page and its verify page, and the old release is a verified release of the same module and mod version, absent iff there is none |
| VerificationRequests.OldReleaseIsNewest | src/main/kotlin/com/chattriggers/website/api/ReleaseController.kt:106-112 | the old release named is the newest verified release of the module and mod version |
| VerificationRequests.LinkVerifiesTheNewRelease | src/main/kotlin/com/chattriggers/website/api/ReleaseController.kt:64-126 | the link names the new release, the old release it names is a verified release of the table, and verify with the link's token succeeds on the new release and leaves it verified |
| VerificationRequests.ValidVersionsNeverThrow | src/main/kotlin/com/chattriggers/website/api/ReleaseController.kt:106-112 | when every release version has three integer parts, as create ensures, the lookup of the old release never throws |
| VerificationRequests.MalformedVersionThrows | src/main/kotlin/com/chattriggers/website/api/ReleaseController.kt:106-112 | with two verified releases of the pair and one unparseable version the lookup throws, while a lone release is returned without its version being read |

## Left out

- HTTP, JSON and the web framework: a request is its session, path, form and query parameters, and a response is a value or an error kind; the JSON shapes of `Release.public()`, `Release.authorized()` and `User.personal()` are not modelled (the model returns the row), and the response texts are kept only where a client tells answers apart by them (the account endpoints).
- Transactions: an endpoint that fails changes no table, which is what the rollback gives; a failed release upload keeps the folders of the releases it superseded deleted while their rows come back, as in the code. Concurrency between requests is not modelled.
- The database engine: column widths (`varchar` limits) are not enforced, and ids, random UUIDs and tokens are parameters of the operations that create them.
- SQL string comparison: the backend runs on MySQL, whose default collations compare text case-insensitively, but the model assumes a binary collation. Every SQL `eq` on a string is an exact, case-sensitive `==`, and `LIKE "%q%"` is `Text.Contains`, an exact case-sensitive substring test that takes `%` and `_` in `q` literally. The members that depend on this are `ModuleApi.NameTaken` (so `ModuleApi.NewModule` lets "Foo" in beside "foo"), `ModuleApi.Selected` and `ModuleApi.AnyPartIn` (the `q` and `tags` filters of the listing), `ModuleApi.FindByLowerName` and `ModuleApi.MixedCaseNameNotFound` (which hold only under a binary collation), `LoginApi.UserByName`, `LoginApi.NameTaken`, `LoginApi.EmailTaken` and `LoginApi.UserIndexByEmail`. SQL `lower()` is modelled as `Text.Lower`, on ASCII letters only.
- ReleaseApi.GetOne: serves the metadata attachment under the corrected name `ReleaseApi.MetadataFilename`, not under the literal `{module.name}-<version>-metadata.json` that ReleaseController.kt:201 produces; the as-written name is `ReleaseApi.MetadataFilenameAsWritten` (see "## Findings").
- Webhook.TruncateSpec: `Webhook.Truncate` counts Unicode scalar values, whereas Kotlin's `length` and `substring` count UTF-16 code units. The two agree on texts inside the Basic Multilingual Plane (`Webhook.TruncateCountsCodeUnitsInBmp`). Outside it they differ: 599 copies of U+1F600 are 1198 code units, which the code cuts to 298 emoji, a lone high surrogate and "...", while the model keeps them whole. A lone surrogate is not a Dafny `char`, so the code's result cannot be written as a `string`, and `Webhook.TruncateSpec`'s 600 is a count of scalar values.
- The order of modules with equal sort keys: the listing sorts stably, while the database leaves ties in an unspecified order.
- `Text.ParseInt` reads optionally signed decimal 32-bit integers in ASCII digits, while `String.toInt` also accepts other Unicode decimal digits; `Text.Lower` and `Text.Upper` map ASCII letters only, unlike the JVM's Unicode case mapping.
- The clock, BCrypt (`checkpw`, salted `hashpw`), UUID generation and the JDK URL decoder are parameters; the mail sent by `requestReset` is returned as a value rather than sent, and `changeSessionId` on login is not modelled.
- File I/O: the version and tag files are text parameters of the cache refreshes; an uploaded archive is an abstract value (whether it is a zip, its root entries and the parsed `metadata.json`), and a folder under `storage/` holds the archive bytes and the metadata as values.
- Discord: messages go to an outbox (`Webhook.Notifier`) or, for the release channel, to the list of deleted message ids (`ReleaseApi.ReleaseController`); the embeds the module endpoints post themselves (api/ModuleController.kt:75-99, 120-126) are modelled only as the `announce` result saying that one is posted, and the asynchronous callback that stores the id of the verification message (api/ReleaseController.kt:127-131) is not modelled, so a new release never has a verification message id.
- `ReleaseApi.ReleaseController.Create` does not produce the verification request itself: `VerificationRequests.RequestOf` gives its content from the table `Create` leaves, and an exception thrown while building it (after the response) is not modelled as a rollback.
- The WebSocket layer: a listener is an opaque identity, and closing a refused connection with status 503 is the `accepted` result; which listeners are open when an event is posted is a parameter.
- `Webhook.Notifier.Send`: posting before `setupWebhook` throws in the code (an unset `lateinit`); the model posts nothing.
- Version comparison follows the lexicographic order on (major, minor, patch); the integer overflow in Jackson's version comparison is not modelled.

## Findings

| source | as written | input that shows it | evidently intended | confidence | as-written member | corrected member |
|---|---|---|---|---|---|---|
| src/main/kotlin/com/chattriggers/website/api/ReleaseController.kt:201 | the metadata attachment is named `"{module.name}-${release.releaseVersion}-metadata.json"`, whose first placeholder lacks its `$` and is kept literally | a release "1.0.0" of module "examplemod" downloads as `{module.name}-1.0.0-metadata.json` | `examplemod-1.0.0-metadata.json`, named like the archive at line 206 | not executed | ReleaseApi.MetadataFilenameAsWritten | ReleaseApi.MetadataFilename |
