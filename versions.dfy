/** Version strings "a.b.c": `String.toVersion()` (api/releases.kt), `validateVersion`
    (api/ReleaseController.kt) and the order the registry compares versions by. */
module Versions {
  import opened Wrappers
  import opened Text

  /** Jackson's `Version(major, minor, patch, null, null, null)`: no snapshot, group or artifact. */
  datatype Version = Version(major: int, minor: int, patch: int)

  /** Version order: lexicographic on (major, minor, patch). */
  predicate Le(a: Version, b: Version) {
    || a.major < b.major
    || (a.major == b.major && a.minor < b.minor)
    || (a.major == b.major && a.minor == b.minor && a.patch <= b.patch)
  }

  predicate Lt(a: Version, b: Version) {
    Le(a, b) && a != b
  }

  lemma LeIsTotalOrder(a: Version, b: Version, c: Version)
    ensures Le(a, a)
    ensures Le(a, b) || Le(b, a)
    ensures Le(a, b) && Le(b, a) ==> a == b
    ensures Le(a, b) && Le(b, c) ==> Le(a, c)
  {
  }

  /** `map(String::toInt)` over every part: one bad part makes the whole map throw. */
  function ParseAll(parts: seq<string>): (r: Option<seq<int>>)
    ensures r.Some? <==> forall i :: 0 <= i < |parts| ==> ParseInt(parts[i]).Some?
    ensures r.Some? ==> |r.value| == |parts| && forall i :: 0 <= i < |parts| ==> Some(r.value[i]) == ParseInt(parts[i])
  {
    if parts == [] then Some([])
    else match (ParseInt(parts[0]), ParseAll(parts[1..]))
      case (Some(n), Some(ns)) => Some([n] + ns)
      case _ => None
  }

  /** `String.toVersion()`: split on '.', parse EVERY part as an Int, keep the first three;
      a bad part or fewer than three parts throws (None). */
  function ToVersion(s: string): (r: Option<Version>)
  {
    match ParseAll(Split(s, '.'))
    case Some(ns) => if |ns| >= 3 then Some(Version(ns[0], ns[1], ns[2])) else None
    case None => None
  }

  /** `toVersion` fails exactly on fewer than three parts or a part that is not an Int, and
      otherwise reads the first three parts. */
  lemma ToVersionSpec(s: string)
    ensures var parts := Split(s, '.');
      && (ToVersion(s).Some? <==> |parts| >= 3 && forall i :: 0 <= i < |parts| ==> ParseInt(parts[i]).Some?)
      && (ToVersion(s).Some? ==>
            && Some(ToVersion(s).value.major) == ParseInt(parts[0])
            && Some(ToVersion(s).value.minor) == ParseInt(parts[1])
            && Some(ToVersion(s).value.patch) == ParseInt(parts[2]))
  {
  }

  /** Parts beyond the third are parsed (so they must be Ints) but do not change the version. */
  lemma ToVersionIgnoresExtraPart(s: string, n: int)
    requires ToVersion(s).Some? && InInt32(n)
    ensures ToVersion(s + "." + IntToString(n)) == ToVersion(s)
  {
    var parts := Split(s, '.');
    NoDotInIntString(n);
    JoinSplit(s, '.');
    assert s + "." + IntToString(n) == Join(parts + [IntToString(n)], ".") by {
      JoinSnoc(parts, IntToString(n), ".");
    }
    var parts' := parts + [IntToString(n)];
    forall i | 0 <= i < |parts'| ensures '.' !in parts'[i] {
      if i == |parts| { } else { assert parts'[i] == parts[i]; }
    }
    SplitJoin(parts', '.');
    ParseIntToString(n);
    assert forall i :: 0 <= i < |parts'| ==> ParseInt(parts'[i]).Some? by {
      forall i | 0 <= i < |parts'| ensures ParseInt(parts'[i]).Some? {
        if i < |parts| { assert parts'[i] == parts[i]; }
      }
    }
  }

  lemma {:induction false} JoinSnoc(parts: seq<string>, last: string, sep: string)
    requires |parts| >= 1
    ensures Join(parts + [last], sep) == Join(parts, sep) + sep + last
  {
    if |parts| == 1 {
      assert parts + [last] == [parts[0], last];
    } else {
      assert (parts + [last])[1..] == parts[1..] + [last];
      JoinSnoc(parts[1..], last, sep);
    }
  }

  lemma NoDotInIntString(n: int)
    ensures '.' !in IntToString(n)
  {
    var d := NatToDigits(if n < 0 then -n else n);
    assert forall i :: 0 <= i < |d| ==> d[i] != '.';
    if n < 0 {
      assert IntToString(n) == "-" + d;
      forall i | 0 <= i < |IntToString(n)| ensures IntToString(n)[i] != '.' {
        if i > 0 { assert IntToString(n)[i] == d[i - 1]; }
      }
    }
  }

  /** The canonical text of a version. */
  function VersionString(v: Version): string {
    IntToString(v.major) + "." + IntToString(v.minor) + "." + IntToString(v.patch)
  }

  /** The specification of `validateVersion`: exactly three dot-separated parts, each an Int. */
  predicate IsThreePartVersion(s: string) {
    var components := Split(s, '.');
    |components| == 3 && forall i :: 0 <= i < 3 ==> ParseInt(components[i]).Some?
  }

  /** `validateVersion`: the for-loop over the components with its early returns. */
  method ValidateVersion(versionString: string) returns (valid: bool)
    ensures valid <==> IsThreePartVersion(versionString)
  {
    var components := Split(versionString, '.');
    if |components| != 3 {
      return false;
    }
    for i := 0 to |components|
      invariant forall j :: 0 <= j < i ==> ParseInt(components[j]).Some?
    {
      if ParseInt(components[i]).None? {
        return false;
      }
    }
    return true;
  }

  /** Every string `validateVersion` accepts can be read by `toVersion`, but not conversely:
      "1.2.3.4" reads as 1.2.3 and is rejected. */
  lemma ValidVersionParses(s: string)
    requires IsThreePartVersion(s)
    ensures ToVersion(s).Some?
  {
  }

  lemma FourPartsReadButRejected()
    ensures ToVersion("1.2.3.4") == Some(Version(1, 2, 3))
    ensures !IsThreePartVersion("1.2.3.4")
  {
    var parts := ["1", "2", "3", "4"];
    SplitFourParts();
    SmallParses();
    assert parts[0] == "1" && parts[1] == "2" && parts[2] == "3" && parts[3] == "4";
    assert ParseAll(parts).Some?;
  }

  lemma SplitFourParts()
    ensures Split("1.2.3.4", '.') == ["1", "2", "3", "4"]
  {
    SplitJoin(["1", "2", "3", "4"], '.');
    assert Join(["1", "2", "3", "4"], ".") == "1.2.3.4";
  }

  lemma SmallParses()
    ensures ParseInt("1") == Some(1) && ParseInt("2") == Some(2)
    ensures ParseInt("3") == Some(3) && ParseInt("4") == Some(4)
  {
    ParseIntToString(1);
    assert IntToString(1) == "1";
    ParseIntToString(2);
    assert IntToString(2) == "2";
    ParseIntToString(3);
    assert IntToString(3) == "3";
    ParseIntToString(4);
    assert IntToString(4) == "4";
  }

  /** Printing a version with 32-bit parts and reading it back gives the version, and the
      printed text passes `validateVersion`. */
  lemma VersionStringRoundTrip(v: Version)
    requires InInt32(v.major) && InInt32(v.minor) && InInt32(v.patch)
    ensures ToVersion(VersionString(v)) == Some(v)
    ensures IsThreePartVersion(VersionString(v))
  {
    var parts := [IntToString(v.major), IntToString(v.minor), IntToString(v.patch)];
    NoDotInIntString(v.major);
    NoDotInIntString(v.minor);
    NoDotInIntString(v.patch);
    assert parts[1..] == [IntToString(v.minor), IntToString(v.patch)];
    assert Join(parts[1..], ".") == IntToString(v.minor) + "." + IntToString(v.patch);
    assert Join(parts, ".") == VersionString(v);
    SplitJoin(parts, '.');
    ParseIntToString(v.major);
    ParseIntToString(v.minor);
    ParseIntToString(v.patch);
  }
}
