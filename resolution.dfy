/** Release resolution (api/releases.kt `getReleaseForModVersion`) and the per-mod-version
    reduction it shares with the public module view (data/module.kt `public()`).

    The pipeline: keep verified releases, sort them by release version (descending, stable),
    keep the first release of each mod-version string (`distinctBy`), parse every kept
    mod version, sort by it (descending, stable), keep the request's major version and return
    the first one not above the request. */
module Resolution {
  import opened Wrappers
  import opened Seqs
  import opened Versions
  import opened Entities

  // ---------------------------------------------------------------- keys and sorting

  const Zero := Version(0, 0, 0)

  /** The sort key `releaseVersion.toVersion()`; the pipeline checks first that it parses. */
  function RvKey(r: Release): Version { ToVersion(r.releaseVersion).GetOr(Zero) }

  /** The sort key `modVersion.toVersion()`; the pipeline checks first that it parses. */
  function ModKey(r: Release): Version { ToVersion(r.modVersion).GetOr(Zero) }

  predicate IsVerified(r: Release) { r.verified }

  ghost predicate SortedDescBy(rs: seq<Release>, key: Release -> Version) {
    forall i, j :: 0 <= i < j < |rs| ==> Le(key(rs[j]), key(rs[i]))
  }

  /** Insert `x`, which came first in the input, before the first element whose key is not
      above its own: this keeps equal keys in input order (a stable sort). */
  function Insert(x: Release, ys: seq<Release>, key: Release -> Version): (r: seq<Release>)
    ensures multiset(r) == multiset(ys) + multiset{x}
    ensures SortedDescBy(ys, key) ==> SortedDescBy(r, key)
  {
    if ys == [] || !Lt(key(x), key(ys[0])) then
      assert SortedDescBy(ys, key) ==> SortedDescBy([x] + ys, key) by {
        if SortedDescBy(ys, key) { InsertFrontSorted(x, ys, key); }
      }
      [x] + ys
    else
      var rest := Insert(x, ys[1..], key);
      assert ys == [ys[0]] + ys[1..];
      assert multiset([ys[0]] + rest) == multiset{ys[0]} + multiset(rest);
      assert SortedDescBy(ys, key) ==> SortedDescBy([ys[0]] + rest, key) by {
        if SortedDescBy(ys, key) { InsertBehindSorted(x, ys, rest, key); }
      }
      [ys[0]] + rest
  }

  /** An element whose key is not below the head's goes in front of a sorted list. */
  lemma InsertFrontSorted(x: Release, ys: seq<Release>, key: Release -> Version)
    requires SortedDescBy(ys, key) && (ys == [] || !Lt(key(x), key(ys[0])))
    ensures SortedDescBy([x] + ys, key)
  {
    if ys != [] {
      forall j | 0 < j < |ys| ensures Le(key(ys[j]), key(x)) {
        LeIsTotalOrder(key(ys[j]), key(ys[0]), key(x));
      }
    }
  }

  /** An element whose key is below the head's is inserted behind it: the head stays in front
      of the sorted rest. */
  lemma InsertBehindSorted(x: Release, ys: seq<Release>, rest: seq<Release>, key: Release -> Version)
    requires ys != [] && SortedDescBy(ys, key) && Lt(key(x), key(ys[0]))
    requires SortedDescBy(rest, key) && multiset(rest) == multiset(ys[1..]) + multiset{x}
    ensures SortedDescBy([ys[0]] + rest, key)
  {
    forall z | z in rest ensures Le(key(z), key(ys[0])) {
      assert z in multiset(rest);
      if z != x {
        assert z in multiset(ys[1..]);
        assert z in ys[1..];
      }
    }
  }

  /** `sortedByDescending(key)`: stable insertion sort; a list of at most one element is
      returned as it is. */
  function SortDescBy(rs: seq<Release>, key: Release -> Version): (r: seq<Release>)
    ensures multiset(r) == multiset(rs)
    ensures SortedDescBy(r, key)
    ensures |rs| <= 1 ==> r == rs
  {
    if rs == [] then []
    else
      assert rs == [rs[0]] + rs[1..];
      Insert(rs[0], SortDescBy(rs[1..], key), key)
  }

  lemma SortKeepsMembers(rs: seq<Release>, key: Release -> Version, x: Release)
    ensures x in SortDescBy(rs, key) <==> x in rs
  {
    var r := SortDescBy(rs, key);
    assert x in r <==> x in multiset(r);
    assert x in rs <==> x in multiset(rs);
  }

  lemma {:induction false} FilterKeepsSorted(rs: seq<Release>, key: Release -> Version, p: Release -> bool)
    requires SortedDescBy(rs, key)
    ensures SortedDescBy(Filter(rs, p), key)
  {
    if rs != [] {
      FilterKeepsSorted(rs[1..], key, p);
    }
  }

  // ---------------------------------------------------------------- distinctBy { it.modVersion }

  /** `distinctBy { it.modVersion }`: the first release of each mod-version string, in order;
      `seen` holds the mod versions already kept. */
  function DistinctByModVersion(rs: seq<Release>, seen: set<string>): (r: seq<Release>)
    ensures forall x :: x in r ==> x in rs && x.modVersion !in seen
    ensures forall i, j :: 0 <= i < j < |r| ==> r[i].modVersion != r[j].modVersion
  {
    if rs == [] then []
    else if rs[0].modVersion in seen then DistinctByModVersion(rs[1..], seen)
    else
      var rest := DistinctByModVersion(rs[1..], seen + {rs[0].modVersion});
      assert forall i :: 0 <= i < |rest| ==> rest[i].modVersion != rs[0].modVersion by {
        forall i | 0 <= i < |rest| ensures rest[i].modVersion != rs[0].modVersion {
          assert rest[i] in rest;
        }
      }
      [rs[0]] + rest
  }

  /** Every mod version not yet seen is represented: by the first release carrying it. */
  lemma {:induction false} DistinctCovers(rs: seq<Release>, seen: set<string>, y: Release) returns (x: Release)
    requires y in rs && y.modVersion !in seen
    ensures x in DistinctByModVersion(rs, seen) && x.modVersion == y.modVersion
  {
    if rs[0].modVersion in seen {
      x := DistinctCovers(rs[1..], seen, y);
    } else if rs[0].modVersion == y.modVersion {
      x := rs[0];
    } else {
      x := DistinctCovers(rs[1..], seen + {rs[0].modVersion}, y);
    }
  }

  /** On a list sorted by a key, the release kept for a mod version has the highest key of
      all the releases with that mod version. */
  lemma {:induction false} DistinctKeepsHighest(rs: seq<Release>, seen: set<string>, key: Release -> Version, x: Release, y: Release)
    requires SortedDescBy(rs, key)
    requires x in DistinctByModVersion(rs, seen) && y in rs && y.modVersion == x.modVersion
    ensures Le(key(y), key(x))
  {
    if rs[0].modVersion in seen {
      DistinctKeepsHighest(rs[1..], seen, key, x, y);
    } else if x == rs[0] {
      var j :| 0 <= j < |rs| && rs[j] == y;
      if j > 0 {
        assert Le(key(rs[j]), key(rs[0]));
      } else {
        LeIsTotalOrder(key(x), key(x), key(x));
      }
    } else {
      var seen' := seen + {rs[0].modVersion};
      var rest := DistinctByModVersion(rs[1..], seen');
      assert x in rest;
      assert x.modVersion != rs[0].modVersion;
      assert y in rs[1..];
      DistinctKeepsHighest(rs[1..], seen', key, x, y);
    }
  }

  lemma {:induction false} DistinctKeepsSorted(rs: seq<Release>, seen: set<string>, key: Release -> Version)
    requires SortedDescBy(rs, key)
    ensures SortedDescBy(DistinctByModVersion(rs, seen), key)
  {
    if rs != [] {
      var seen' := if rs[0].modVersion in seen then seen else seen + {rs[0].modVersion};
      DistinctKeepsSorted(rs[1..], seen', key);
      if rs[0].modVersion !in seen {
        var rest := DistinctByModVersion(rs[1..], seen');
        forall z | z in rest ensures Le(key(z), key(rs[0])) {
          assert z in rs[1..];
          var j :| 0 <= j < |rs[1..]| && rs[1..][j] == z;
          assert rs[j + 1] == z;
        }
      }
    }
  }

  // ---------------------------------------------------------------- the shared reduction

  /** All release versions of the list parse. */
  predicate AllReleaseVersionsParse(rs: seq<Release>) {
    forall r :: r in rs ==> ToVersion(r.releaseVersion).Some?
  }

  predicate AllModVersionsParse(rs: seq<Release>) {
    forall r :: r in rs ==> ToVersion(r.modVersion).Some?
  }

  function Verified(releases: seq<Release>): seq<Release> {
    Filter(releases, IsVerified)
  }

  /** `filter { it.verified }.sortedByDescending { it.releaseVersion.toVersion() }.distinctBy { it.modVersion }`.
      The sort calls its key on every element of a list of two or more, so one malformed
      release version then throws (None); a single release is never parsed. */
  function LatestPerModVersion(releases: seq<Release>): Option<seq<Release>>
  {
    var verified := Verified(releases);
    if |verified| >= 2 && !AllReleaseVersionsParse(verified) then None
    else Some(DistinctByModVersion(SortDescBy(verified, RvKey), {}))
  }

  /** The reduction fails exactly when two or more releases are verified and one of them has
      a malformed release version. */
  lemma LatestFailsExactly(releases: seq<Release>)
    ensures LatestPerModVersion(releases).None? <==>
      |Verified(releases)| >= 2 && exists r :: r in releases && r.verified && ToVersion(r.releaseVersion).None?
  {
  }

  /** It keeps verified releases of the module only, one per mod-version string, in
      descending release-version order. */
  lemma LatestAreVerifiedAndDistinct(releases: seq<Release>)
    requires LatestPerModVersion(releases).Some?
    ensures var latest := LatestPerModVersion(releases).value;
      && (forall x :: x in latest ==> x in releases && x.verified)
      && (forall i, j :: 0 <= i < j < |latest| ==> latest[i].modVersion != latest[j].modVersion)
      && SortedDescBy(latest, RvKey)
  {
    var verified := Verified(releases);
    var sorted := SortDescBy(verified, RvKey);
    forall x | x in DistinctByModVersion(sorted, {}) ensures x in releases && x.verified {
      SortKeepsMembers(verified, RvKey, x);
    }
    DistinctKeepsSorted(sorted, {}, RvKey);
  }

  /** Every mod version of a verified release is represented. */
  lemma LatestCoversEveryModVersion(releases: seq<Release>, y: Release) returns (x: Release)
    requires LatestPerModVersion(releases).Some?
    requires y in releases && y.verified
    ensures x in LatestPerModVersion(releases).value && x.modVersion == y.modVersion
  {
    var verified := Verified(releases);
    SortKeepsMembers(verified, RvKey, y);
    x := DistinctCovers(SortDescBy(verified, RvKey), {}, y);
  }

  /** The release kept for a mod version has the highest release version of all verified
      releases with that mod version (both parse, since there are then two or more). */
  lemma LatestIsHighestOfItsModVersion(releases: seq<Release>, x: Release, y: Release)
    requires LatestPerModVersion(releases).Some?
    requires x in LatestPerModVersion(releases).value
    requires y in releases && y.verified && y.modVersion == x.modVersion && y != x
    ensures ToVersion(y.releaseVersion).Some? && ToVersion(x.releaseVersion).Some?
    ensures Le(ToVersion(y.releaseVersion).value, ToVersion(x.releaseVersion).value)
  {
    var verified := Verified(releases);
    var sorted := SortDescBy(verified, RvKey);
    SortKeepsMembers(verified, RvKey, x);
    SortKeepsMembers(verified, RvKey, y);
    TwoMembers(verified, x, y);
    SortKeepsMembers(verified, RvKey, y);
    DistinctKeepsHighest(sorted, {}, RvKey, x, y);
  }

  lemma TwoMembers(s: seq<Release>, a: Release, b: Release)
    requires a in s && b in s && a != b
    ensures |s| >= 2
  {
  }

  // ---------------------------------------------------------------- getReleaseForModVersion

  /** `getReleaseForModVersion`: Err when `toVersion` throws (on the request, on a release
      version once two or more releases are verified, or on a kept mod version); otherwise
      the chosen release, or None when nothing applies. */
  function GetReleaseForModVersion(releases: seq<Release>, modVersionString: string): Result<Option<Release>>
  {
    match ToVersion(modVersionString)
    case None => Err(ServerError)
    case Some(request) =>
      match LatestPerModVersion(releases)
      case None => Err(ServerError)
      case Some(latest) =>
        if !AllModVersionsParse(latest) then Err(ServerError)
        else Ok(Choose(latest, request))
  }

  /** The steps after the mod versions are known to parse: sort by mod version, keep the
      request's major version, take the first one not above the request. */
  function Choose(latest: seq<Release>, request: Version): Option<Release> {
    var byModVersion := SortDescBy(latest, ModKey);
    var sameMajor := Filter(byModVersion, (r: Release) => ModKey(r).major == request.major);
    FirstOrNone(sameMajor, (r: Release) => Le(ModKey(r), request))
  }

  /** A verified release that the request may resolve to: same major, not above the request. */
  predicate Applicable(c: Release, request: Version) {
    && c.verified
    && ToVersion(c.modVersion).Some?
    && ToVersion(c.modVersion).value.major == request.major
    && Le(ToVersion(c.modVersion).value, request)
  }

  /** When the call fails: the request is malformed, a verified release has a malformed mod
      version, or two or more releases are verified and one has a malformed release version. */
  lemma ResolutionFailsExactly(releases: seq<Release>, modVersionString: string)
    ensures GetReleaseForModVersion(releases, modVersionString).Err? <==>
      || ToVersion(modVersionString).None?
      || (exists r :: r in releases && r.verified && ToVersion(r.modVersion).None?)
      || (|Verified(releases)| >= 2 && exists r :: r in releases && r.verified && ToVersion(r.releaseVersion).None?)
  {
    LatestFailsExactly(releases);
    if ToVersion(modVersionString).Some? && LatestPerModVersion(releases).Some? {
      var latest := LatestPerModVersion(releases).value;
      LatestAreVerifiedAndDistinct(releases);
      if r :| r in releases && r.verified && ToVersion(r.modVersion).None? {
        var x := LatestCoversEveryModVersion(releases, r);
        assert !AllModVersionsParse(latest);
      }
    }
  }

  /** The chosen release is a verified release of the module with the request's major
      version and a mod version not above the request. */
  lemma ResolvedIsApplicable(releases: seq<Release>, modVersionString: string)
    requires GetReleaseForModVersion(releases, modVersionString).Ok?
    requires GetReleaseForModVersion(releases, modVersionString).value.Some?
    ensures var r := GetReleaseForModVersion(releases, modVersionString).value.value;
      r in releases && Applicable(r, ToVersion(modVersionString).value)
  {
    var latest := LatestPerModVersion(releases).value;
    LatestAreVerifiedAndDistinct(releases);
    var r := GetReleaseForModVersion(releases, modVersionString).value.value;
    SortKeepsMembers(latest, ModKey, r);
  }

  /** Among releases that all have parseable mod versions, whatever applies to the request
      is at or below what `Choose` picks, and `Choose` picks nothing only when nothing applies. */
  lemma ChooseIsGreatest(latest: seq<Release>, request: Version, y: Release)
    requires AllModVersionsParse(latest)
    requires y in latest && ModKey(y).major == request.major && Le(ModKey(y), request)
    ensures Choose(latest, request).Some?
    ensures Le(ModKey(y), ModKey(Choose(latest, request).value))
  {
    var byModVersion := SortDescBy(latest, ModKey);
    var pMajor := (r: Release) => ModKey(r).major == request.major;
    var pLe := (r: Release) => Le(ModKey(r), request);
    var sameMajor := Filter(byModVersion, pMajor);
    FilterKeepsSorted(byModVersion, ModKey, pMajor);
    SortKeepsMembers(latest, ModKey, y);
    assert y in sameMajor;
    var j :| 0 <= j < |sameMajor| && sameMajor[j] == y;
    assert pLe(sameMajor[j]);
    var i := FirstIndex(sameMajor, pLe).value;
    assert i <= j;
    if i < j {
      assert Le(ModKey(sameMajor[j]), ModKey(sameMajor[i]));
    } else {
      LeIsTotalOrder(ModKey(y), ModKey(y), ModKey(y));
    }
  }

  /** Every applicable release is at or below the one resolved to, so something is resolved
      whenever something applies. */
  lemma ApplicableIsAtOrBelowResolved(releases: seq<Release>, modVersionString: string, c: Release)
    requires GetReleaseForModVersion(releases, modVersionString).Ok?
    requires c in releases && Applicable(c, ToVersion(modVersionString).value)
    ensures var res := GetReleaseForModVersion(releases, modVersionString).value;
      res.Some? && ToVersion(res.value.modVersion).Some? &&
      Le(ToVersion(c.modVersion).value, ToVersion(res.value.modVersion).value)
  {
    var request := ToVersion(modVersionString).value;
    var latest := LatestPerModVersion(releases).value;
    assert AllModVersionsParse(latest);
    var res := Choose(latest, request);
    assert GetReleaseForModVersion(releases, modVersionString).value == res;
    var y := LatestCoversEveryModVersion(releases, c);
    assert ModKey(y) == ToVersion(c.modVersion).value;
    ChooseIsGreatest(latest, request, y);
    SortKeepsMembers(latest, ModKey, res.value);
    assert ModKey(res.value) == ToVersion(res.value.modVersion).value;
  }

  /** Nothing is returned exactly when no verified release is applicable, and what is
      returned has the greatest mod version of all applicable releases. */
  lemma ResolvedIsGreatest(releases: seq<Release>, modVersionString: string)
    requires GetReleaseForModVersion(releases, modVersionString).Ok?
    ensures var request := ToVersion(modVersionString).value;
      var res := GetReleaseForModVersion(releases, modVersionString).value;
      && (res.None? <==> forall c :: c in releases ==> !Applicable(c, request))
      && (res.Some? ==>
            && ToVersion(res.value.modVersion).Some?
            && forall c :: c in releases && Applicable(c, request) ==>
                 Le(ToVersion(c.modVersion).value, ToVersion(res.value.modVersion).value))
  {
    forall c | c in releases && Applicable(c, ToVersion(modVersionString).value) {
      ApplicableIsAtOrBelowResolved(releases, modVersionString, c);
    }
    if GetReleaseForModVersion(releases, modVersionString).value.Some? {
      ResolvedIsApplicable(releases, modVersionString);
    }
  }

  /** Within one mod-version string, the chosen release has the highest release version. */
  lemma ResolvedIsNewestOfItsModVersion(releases: seq<Release>, modVersionString: string, c: Release)
    requires GetReleaseForModVersion(releases, modVersionString).Ok?
    requires GetReleaseForModVersion(releases, modVersionString).value.Some?
    requires var r := GetReleaseForModVersion(releases, modVersionString).value.value;
      c in releases && c.verified && c.modVersion == r.modVersion && c != r
    ensures var r := GetReleaseForModVersion(releases, modVersionString).value.value;
      ToVersion(c.releaseVersion).Some? && ToVersion(r.releaseVersion).Some? &&
      Le(ToVersion(c.releaseVersion).value, ToVersion(r.releaseVersion).value)
  {
    var latest := LatestPerModVersion(releases).value;
    var r := GetReleaseForModVersion(releases, modVersionString).value.value;
    SortKeepsMembers(latest, ModKey, r);
    LatestIsHighestOfItsModVersion(releases, r, c);
  }

  /** Monotonicity: raising the request within one major version never lowers the mod
      version resolved to. */
  lemma ResolutionIsMonotone(releases: seq<Release>, s1: string, s2: string)
    requires GetReleaseForModVersion(releases, s1).Ok? && GetReleaseForModVersion(releases, s1).value.Some?
    requires ToVersion(s2).Some?
    requires ToVersion(s1).value.major == ToVersion(s2).value.major
    requires Le(ToVersion(s1).value, ToVersion(s2).value)
    ensures GetReleaseForModVersion(releases, s2).Ok?
    ensures GetReleaseForModVersion(releases, s2).value.Some?
    ensures ToVersion(GetReleaseForModVersion(releases, s1).value.value.modVersion).Some?
    ensures ToVersion(GetReleaseForModVersion(releases, s2).value.value.modVersion).Some?
    ensures Le(ToVersion(GetReleaseForModVersion(releases, s1).value.value.modVersion).value,
               ToVersion(GetReleaseForModVersion(releases, s2).value.value.modVersion).value)
  {
    var r1 := GetReleaseForModVersion(releases, s1).value.value;
    ResolvedIsApplicable(releases, s1);
    LeIsTotalOrder(ToVersion(r1.modVersion).value, ToVersion(s1).value, ToVersion(s2).value);
    assert Applicable(r1, ToVersion(s2).value);
    ResolutionFailsExactly(releases, s1);
    ResolutionFailsExactly(releases, s2);
    ApplicableIsAtOrBelowResolved(releases, s2, r1);
  }
}
