/** The verification request `create` (api/ReleaseController.kt) posts to the release channel
    for a release it leaves unverified: a link to the module's page, and a link to `verify`
    carrying the release's token, its id and the id of the newest verified release of the same
    module and mod version, for the verifier to compare against. */
module VerificationRequests {
  import opened Wrappers
  import opened Seqs
  import opened Versions
  import opened Entities
  import opened Resolution
  import opened ReleaseApi

  const VERIFY_PAGE: string := "https://chattriggers.com/modules/verify/"
  const MODULE_PAGE: string := "https://chattriggers.com/modules/v/"

  /** The request: the embed's title and page link, and the query of the verification link. */
  datatype VerificationRequest = VerificationRequest(
    title: string, pageUrl: string, verifyPage: string,
    token: string, newReleaseId: Uuid, oldReleaseId: Option<Uuid>)

  /** The verified releases of one module and mod version, in table order. */
  function VerifiedOfPair(releases: seq<Release>, moduleId: int, modVersion: string): (r: seq<Release>)
    ensures forall x :: x in r <==> x in releases && x.modVersion == modVersion && x.moduleId == moduleId && x.verified
  {
    Filter(releases, (x: Release) => x.modVersion == modVersion && x.moduleId == moduleId && x.verified)
  }

  /** The loop of `maxByOrNull` after its first element: `best` with version `bestVersion`
      is kept unless a later row's version is strictly greater. None when a version does not
      parse (the selector throws). */
  function MaxFrom(best: Release, bestVersion: Version, rest: seq<Release>): (r: Option<Release>)
    requires ToVersion(best.releaseVersion) == Some(bestVersion)
    ensures r.Some? <==> forall x :: x in rest ==> ToVersion(x.releaseVersion).Some?
    ensures r.Some? ==> (r.value == best || r.value in rest) && ToVersion(r.value.releaseVersion).Some?
    ensures r.Some? ==> Le(bestVersion, ToVersion(r.value.releaseVersion).value)
    ensures r.Some? ==> forall x :: x in rest ==> Le(ToVersion(x.releaseVersion).value, ToVersion(r.value.releaseVersion).value)
    decreases |rest|
  {
    if rest == [] then Some(best)
    else match ToVersion(rest[0].releaseVersion)
      case None => None
      case Some(v) =>
        if Lt(bestVersion, v) then MaxFrom(rest[0], v, rest[1..])
        else MaxFrom(best, bestVersion, rest[1..])
  }

  /** `maxByOrNull { it.releaseVersion.toVersion() }`: null for no rows; the row itself for
      one row, whose version is never read; otherwise the first row with the greatest version,
      or None when some version does not parse. */
  function MaxByVersion(rs: seq<Release>): (r: Option<Option<Release>>)
    ensures r == Some(None) <==> rs == []
    ensures r.Some? && r.value.Some? ==> r.value.value in rs
    ensures |rs| == 1 ==> r == Some(Some(rs[0]))
    ensures |rs| >= 2 ==> (r.Some? <==> forall x :: x in rs ==> ToVersion(x.releaseVersion).Some?)
    ensures r.Some? && r.value.Some? && |rs| >= 2 ==>
      forall x :: x in rs ==> Le(ToVersion(x.releaseVersion).value, ToVersion(r.value.value.releaseVersion).value)
  {
    if rs == [] then Some(None)
    else if |rs| == 1 then Some(Some(rs[0]))
    else match ToVersion(rs[0].releaseVersion)
      case None => None
      case Some(v) =>
        match MaxFrom(rs[0], v, rs[1..])
        case None => None
        case Some(x) =>
          assert forall y :: y in rs ==> y == rs[0] || y in rs[1..];
          Some(Some(x))
  }

  /** The request posted for `row`, a release left unverified, with the token it was created
      with; `releases` is the table after the insert. None when looking up the newest verified
      release of the pair throws. */
  function RequestOf(m: Module, row: Release, token: string, releases: seq<Release>): (r: Option<VerificationRequest>)
    ensures r.Some? ==>
      && r.value.token == token && r.value.newReleaseId == row.id
      && r.value.title == "Release v" + row.releaseVersion + " for " + m.name + " has been posted"
      && r.value.pageUrl == MODULE_PAGE + m.name && r.value.verifyPage == VERIFY_PAGE + m.name
    ensures r.Some? && r.value.oldReleaseId.Some? ==>
      exists x :: x in VerifiedOfPair(releases, m.id, row.modVersion) && x.id == r.value.oldReleaseId.value
    ensures r.Some? && r.value.oldReleaseId.None? ==> VerifiedOfPair(releases, m.id, row.modVersion) == []
  {
    match MaxByVersion(VerifiedOfPair(releases, m.id, row.modVersion))
    case None => None
    case Some(newest) =>
      Some(VerificationRequest("Release v" + row.releaseVersion + " for " + m.name + " has been posted",
                               MODULE_PAGE + m.name, VERIFY_PAGE + m.name, token, row.id,
                               if newest.Some? then Some(newest.value.id) else None))
  }

  /** The release the old id names is the newest verified release of the pair: no verified
      release of the same module and mod version has a greater version. */
  lemma OldReleaseIsNewest(m: Module, row: Release, token: string, releases: seq<Release>)
    requires RequestOf(m, row, token, releases).Some? && RequestOf(m, row, token, releases).value.oldReleaseId.Some?
    requires |VerifiedOfPair(releases, m.id, row.modVersion)| >= 2
    ensures var o := MaxByVersion(VerifiedOfPair(releases, m.id, row.modVersion)).value.value;
      && o.id == RequestOf(m, row, token, releases).value.oldReleaseId.value
      && forall x :: x in releases && x.modVersion == row.modVersion && x.moduleId == m.id && x.verified ==>
           Le(ToVersion(x.releaseVersion).value, ToVersion(o.releaseVersion).value)
  {
  }

  /** The link verifies the release it was posted for: the new row is unverified, so it is
      not its own old release, and `verify` with the link's token succeeds on it. */
  lemma LinkVerifiesTheNewRelease(q: CreateRequest, newId: Uuid, token: string, now: int, releases: seq<Release>)
    requires !NewRow(q, newId, token, now).verified
    requires RequestOf(q.m, NewRow(q, newId, token, now), token, releases).Some?
    ensures var req := RequestOf(q.m, NewRow(q, newId, token, now), token, releases).value;
      && req.newReleaseId == newId
      && (req.oldReleaseId.Some? ==> exists x :: x in releases && x.verified && x.id == req.oldReleaseId.value)
      && VerifyRow(NewRow(q, newId, token, now), Some(req.token)).Ok?
      && VerifyRow(NewRow(q, newId, token, now), Some(req.token)).value.verified
  {
  }

  /** Releases are only created with a three-part release version, so on such a table the
      lookup of the old release never throws. */
  lemma ValidVersionsNeverThrow(m: Module, row: Release, token: string, releases: seq<Release>)
    requires forall x :: x in releases ==> IsThreePartVersion(x.releaseVersion)
    ensures RequestOf(m, row, token, releases).Some?
  {
    var pair := VerifiedOfPair(releases, m.id, row.modVersion);
    forall x | x in pair ensures ToVersion(x.releaseVersion).Some? {
      ValidVersionParses(x.releaseVersion);
    }
  }

  /** With two verified releases of the pair, one of them with a release version that does not
      parse, the lookup throws; with a single one its version is never read. */
  lemma MalformedVersionThrows(m: Module, row: Release, token: string, a: Release, b: Release)
    requires a.verified && a.moduleId == m.id && a.modVersion == row.modVersion
    requires b.verified && b.moduleId == m.id && b.modVersion == row.modVersion
    requires ToVersion(a.releaseVersion).None?
    ensures RequestOf(m, row, token, [a, b]).None?
    ensures RequestOf(m, row, token, [a]).Some? && RequestOf(m, row, token, [a]).value.oldReleaseId == Some(a.id)
  {
    assert a in VerifiedOfPair([a, b], m.id, row.modVersion);
    assert b in VerifiedOfPair([a, b], m.id, row.modVersion);
    assert a in VerifiedOfPair([a], m.id, row.modVersion);
    assert |VerifiedOfPair([a, b], m.id, row.modVersion)| >= 2 by {
      if a == b {
        assert VerifiedOfPair([a, b], m.id, row.modVersion) == [a, b];
      } else {
        TwoMembers(VerifiedOfPair([a, b], m.id, row.modVersion), a, b);
      }
    }
    assert |VerifiedOfPair([a], m.id, row.modVersion)| == 1;
  }
}
