/** The allowed-versions endpoint (api/versions.kt): a list of versions read from a file,
    reloaded at most every thirty minutes, and served grouped by "major.minor". */
module VersionApi {
  import opened Wrappers
  import opened Seqs
  import opened Text
  import opened Versions
  import opened Grouping
  import ModuleViews

  /** `VERSIONS_CHECK_TIMEOUT`: thirty minutes, in milliseconds. */
  const VERSIONS_CHECK_TIMEOUT: int := 1000 * 60 * 30

  /** `it.trim().toVersion()` on one line. */
  function ReadLine(line: string): Option<Version> {
    ToVersion(Trim(line))
  }

  /** `loadVersions`: the file's lines, blank ones dropped, each trimmed and read as a version. */
  function LoadVersions(text: string): Option<seq<Version>>
  {
    MapAll(Filter(Split(text, '\n'), ModuleViews.NotBlank), ReadLine)
  }

  /** Loading fails exactly when a non-blank line is not a version; blank lines play no part. */
  lemma LoadVersionsSpec(text: string)
    ensures LoadVersions(text).Some? <==>
      forall l :: l in Split(text, '\n') && !IsBlank(l) ==> ReadLine(l).Some?
    ensures LoadVersions(text).Some? ==>
      forall v :: v in LoadVersions(text).value ==> exists l :: l in Split(text, '\n') && !IsBlank(l) && ReadLine(l) == Some(v)
  {
    MapAllFilter(Split(text, '\n'), ModuleViews.NotBlank, ReadLine);
  }

  /** `Int.toString()` prints digits and a minus sign only. */
  lemma IntStringChars(n: int)
    ensures forall c :: c in IntToString(n) ==> IsDigit(c) || c == '-'
    ensures IsDigit(IntToString(n)[|IntToString(n)| - 1])
  {
    var d := NatToDigits(if n < 0 then -n else n);
    if n < 0 {
      assert IntToString(n) == "-" + d;
      assert IntToString(n)[|IntToString(n)| - 1] == d[|d| - 1];
    }
  }

  /** A string without surrounding whitespace is its own trim. */
  lemma TrimOfTrimmed(s: string)
    requires s != [] && !IsWhitespace(s[0]) && !IsWhitespace(s[|s| - 1])
    ensures Trim(s) == s
  {
  }

  /** A version printed as "a.b.c" is one non-blank line that trims to itself. */
  lemma VersionLine(v: Version)
    ensures '\n' !in VersionString(v)
    ensures !IsBlank(VersionString(v))
    ensures Trim(VersionString(v)) == VersionString(v)
  {
    var s := VersionString(v);
    IntStringChars(v.major);
    IntStringChars(v.minor);
    IntStringChars(v.patch);
    assert forall c :: c in s ==> IsDigit(c) || c == '-' || c == '.';
    assert s[0] in s;
    assert s[|s| - 1] == IntToString(v.patch)[|IntToString(v.patch)| - 1];
    TrimOfTrimmed(s);
  }

  function VersionLines(vs: seq<Version>): (r: seq<string>)
    ensures |r| == |vs| && forall i :: 0 <= i < |vs| ==> r[i] == VersionString(vs[i])
  {
    if vs == [] then [] else [VersionString(vs[0])] + VersionLines(vs[1..])
  }

  /** A printed 32-bit version is a line that loads back as that version. */
  lemma LineReadsBack(v: Version)
    requires InInt32(v.major) && InInt32(v.minor) && InInt32(v.patch)
    ensures '\n' !in VersionString(v) && !IsBlank(VersionString(v))
    ensures ReadLine(VersionString(v)) == Some(v)
  {
    VersionLine(v);
    VersionStringRoundTrip(v);
  }

  /** Lines that are not blank and hold no line break are all kept by the load. */
  lemma LoadJoinedLines(lines: seq<string>)
    requires |lines| >= 1
    requires forall i :: 0 <= i < |lines| ==> '\n' !in lines[i] && !IsBlank(lines[i])
    ensures LoadVersions(Join(lines, "\n")) == MapAll(lines, ReadLine)
  {
    SplitJoin(lines, '\n');
    FilterAll(lines, ModuleViews.NotBlank);
  }

  /** A file listing 32-bit versions one per line loads back as those versions, in order. */
  lemma LoadPrintedVersions(vs: seq<Version>)
    requires forall v :: v in vs ==> InInt32(v.major) && InInt32(v.minor) && InInt32(v.patch)
    ensures LoadVersions(Join(VersionLines(vs), "\n")) == Some(vs)
  {
    var lines := VersionLines(vs);
    if vs == [] {
      assert Split("", '\n') == [""];
      assert IsBlank("");
    } else {
      forall i | 0 <= i < |lines|
        ensures '\n' !in lines[i] && !IsBlank(lines[i]) && ReadLine(lines[i]) == Some(vs[i])
      {
        assert vs[i] in vs;
        LineReadsBack(vs[i]);
      }
      LoadJoinedLines(lines);
      MapAllOf(lines, ReadLine, vs);
    }
  }

  // ---------------------------------------------------------------- grouping

  /** The grouping key `"${majorVersion}.${minorVersion}"`. */
  function GroupKey(v: Version): string {
    IntToString(v.major) + "." + IntToString(v.minor)
  }

  /** The grouped value: the patch level; the snapshot suffix is always empty because a
      version read by `toVersion` has no qualifier. */
  function PatchText(v: Version): string {
    IntToString(v.patch)
  }

  function EntriesOf(vs: seq<Version>): (r: seq<Entry<string, string>>)
    ensures |r| == |vs| && forall i :: 0 <= i < |vs| ==> r[i] == Entry(GroupKey(vs[i]), PatchText(vs[i]))
  {
    if vs == [] then [] else [Entry(GroupKey(vs[0]), PatchText(vs[0]))] + EntriesOf(vs[1..])
  }

  /** The response body: the versions grouped by "major.minor". */
  function Grouped(vs: seq<Version>): seq<Group<string, string>>
  {
    GroupBy(EntriesOf(vs))
  }

  /** Every loaded version appears in exactly one group, the one under its "major.minor"
      key, and that group lists its patch level. */
  lemma EachVersionInOneGroup(vs: seq<Version>, k: nat)
    requires k < |vs|
    ensures FiledOnce(Grouped(vs), GroupKey(vs[k]), PatchText(vs[k]))
  {
    var es := EntriesOf(vs);
    EachEntryInOneGroup(es, k);
    assert es[k] == Entry(GroupKey(vs[k]), PatchText(vs[k]));
  }

  // ---------------------------------------------------------------- the cached list

  /** `allowedVersions` and `lastVersionsCheckTime`. */
  class VersionCache {
    var allowedVersions: seq<Version>
    var lastVersionsCheckTime: int

    /** Start-up: the file is loaded once; a file that cannot be read stops the server. */
    constructor(text: string, now: int)
      requires LoadVersions(text).Some?
      ensures allowedVersions == LoadVersions(text).value && lastVersionsCheckTime == now
    {
      allowedVersions := LoadVersions(text).value;
      lastVersionsCheckTime := now;
    }

    /** `getVersions`, given the file's text and the two clock reads: reload only when more
        than the timeout has passed since the last reload, then serve the grouped list. A
        reload that throws leaves the cache as it was and fails the request. */
    method GetVersions(text: string, now: int, reloadedAt: int) returns (res: Result<seq<Group<string, string>>>)
      modifies this
      ensures now - old(lastVersionsCheckTime) <= VERSIONS_CHECK_TIMEOUT ==>
        && allowedVersions == old(allowedVersions) && lastVersionsCheckTime == old(lastVersionsCheckTime)
        && res == Ok(Grouped(allowedVersions))
      ensures now - old(lastVersionsCheckTime) > VERSIONS_CHECK_TIMEOUT && LoadVersions(text).None? ==>
        && allowedVersions == old(allowedVersions) && lastVersionsCheckTime == old(lastVersionsCheckTime)
        && res == Err(ServerError)
      ensures now - old(lastVersionsCheckTime) > VERSIONS_CHECK_TIMEOUT && LoadVersions(text).Some? ==>
        && allowedVersions == LoadVersions(text).value && lastVersionsCheckTime == reloadedAt
        && res == Ok(Grouped(allowedVersions))
    {
      if now - lastVersionsCheckTime > VERSIONS_CHECK_TIMEOUT {
        var loaded := LoadVersions(text);
        if loaded.None? {
          return Err(ServerError);
        }
        allowedVersions := loaded.value;
        lastVersionsCheckTime := reloadedAt;
      }
      return Ok(Grouped(allowedVersions));
    }
  }
}
