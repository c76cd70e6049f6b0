/** The two JSON views of a module (data/module.kt): the public one, which shows the newest
    verified release per mod version, and the authorized one, which shows every release and
    the hidden flag. */
module ModuleViews {
  import opened Wrappers
  import opened Seqs
  import opened Text
  import opened Versions
  import opened Users
  import opened Entities
  import opened Resolution

  /** `PublicModule` and its subclass `AuthorizedModule`, which adds `flagged`. */
  datatype ModuleView =
    | PublicModule(id: int, owner: PublicUser, name: string, description: string, image: Option<string>,
                   downloads: int, tags: seq<string>, releases: seq<Release>)
    | AuthorizedModule(id: int, owner: PublicUser, name: string, description: string, image: Option<string>,
                       downloads: int, tags: seq<string>, releases: seq<Release>, flagged: bool)

  predicate NotBlank(s: string) { !IsBlank(s) }

  /** `tags.split(",").filter { it.isNotBlank() }`. */
  function TagList(tags: string): (r: seq<string>)
    ensures forall t :: t in r ==> !IsBlank(t) && ',' !in t
  {
    Filter(Split(tags, ','), NotBlank)
  }

  /** The tag list is exactly the non-blank comma-separated parts of the stored string, in order. */
  lemma TagListSpec(tags: string, t: string)
    ensures t in TagList(tags) <==> t in Split(tags, ',') && !IsBlank(t)
  {
  }

  /** Storing a list of tags comma-joined (as module creation does) and reading it back
      gives the non-blank ones, in order. */
  lemma TagListOfJoined(ts: seq<string>)
    requires forall i :: 0 <= i < |ts| ==> ',' !in ts[i]
    ensures TagList(Join(ts, ",")) == Filter(ts, NotBlank)
  {
    if ts == [] {
      assert Split("", ',') == [""];
      assert IsBlank("");
    } else {
      SplitJoin(ts, ',');
    }
  }

  /** The releases of a module: the rows that reference it, in table order. */
  function ReleasesOf(releases: seq<Release>, moduleId: int): (r: seq<Release>)
    ensures forall x :: x in r <==> x in releases && x.moduleId == moduleId
  {
    Filter(releases, (x: Release) => x.moduleId == moduleId)
  }

  /** `Module.public()`: fails when the release-version sort throws. */
  function PublicView(m: Module, owner: User, releases: seq<Release>): (r: Result<ModuleView>)
    ensures r.Ok? <==> LatestPerModVersion(releases).Some?
    ensures r.Ok? ==> r.value.PublicModule? && r.value.releases == LatestPerModVersion(releases).value
  {
    match LatestPerModVersion(releases)
    case None => Err(ServerError)
    case Some(latest) =>
      Ok(PublicModule(m.id, Public(owner), m.name, m.description, m.image, m.downloads, TagList(m.tags), latest))
  }

  /** `Module.authorized()`: every release, and `flagged` set to `hidden`. */
  function AuthorizedView(m: Module, owner: User, releases: seq<Release>): (r: ModuleView)
    ensures r.AuthorizedModule? && r.releases == releases && r.flagged == m.hidden
  {
    AuthorizedModule(m.id, Public(owner), m.name, m.description, m.image, m.downloads, TagList(m.tags), releases, m.hidden)
  }

  /** The two views agree on everything but the releases. */
  lemma ViewsAgree(m: Module, owner: User, releases: seq<Release>)
    requires PublicView(m, owner, releases).Ok?
    ensures var p := PublicView(m, owner, releases).value;
      var a := AuthorizedView(m, owner, releases);
      && p.id == a.id == m.id && p.owner == a.owner == Public(owner) && p.name == a.name == m.name
      && p.description == a.description == m.description && p.image == a.image == m.image
      && p.downloads == a.downloads == m.downloads && p.tags == a.tags == TagList(m.tags)
  {
  }

  /** Public releases: verified releases of the module only, one per mod-version string,
      each the highest release version of its mod version, in descending release-version
      order, with every mod version of a verified release represented. */
  lemma PublicReleasesSpec(m: Module, owner: User, releases: seq<Release>)
    requires PublicView(m, owner, releases).Ok?
    ensures var rs := PublicView(m, owner, releases).value.releases;
      && (forall x :: x in rs ==> x in releases && x.verified)
      && (forall i, j :: 0 <= i < j < |rs| ==> rs[i].modVersion != rs[j].modVersion)
      && (forall i, j :: 0 <= i < j < |rs| ==> Le(RvKey(rs[j]), RvKey(rs[i])))
  {
    LatestAreVerifiedAndDistinct(releases);
  }

  lemma PublicReleaseIsHighest(m: Module, owner: User, releases: seq<Release>, x: Release, y: Release)
    requires PublicView(m, owner, releases).Ok?
    requires x in PublicView(m, owner, releases).value.releases
    requires y in releases && y.verified && y.modVersion == x.modVersion && y != x
    ensures ToVersion(y.releaseVersion).Some? && ToVersion(x.releaseVersion).Some?
    ensures Le(ToVersion(y.releaseVersion).value, ToVersion(x.releaseVersion).value)
  {
    LatestIsHighestOfItsModVersion(releases, x, y);
  }

  lemma PublicReleasesCover(m: Module, owner: User, releases: seq<Release>, y: Release)
    requires PublicView(m, owner, releases).Ok?
    requires y in releases && y.verified
    ensures exists x :: x in PublicView(m, owner, releases).value.releases && x.modVersion == y.modVersion
  {
    var x := LatestCoversEveryModVersion(releases, y);
  }
}
