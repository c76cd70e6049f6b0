/** The statistics endpoints (api/tracking.kt): an installation reports its hash and version,
    which is recorded once per hash with a timestamp row per report; the summary counts the
    installations. */
module TrackingApi {
  import opened Wrappers
  import opened Tables
  import opened Tracking

  /** `TrackedTimestamp`: one report by a tracked user at a given time. */
  datatype TrackedTimestamp = TrackedTimestamp(userId: int, time: int)

  /** The version reported before the parameter existed. */
  const DEFAULT_VERSION: string := "2.0.0"

  /** `queryParam("version") ?: "2.0.0"`. */
  function VersionParam(query: Query): (v: string)
    ensures "version" !in query ==> v == DEFAULT_VERSION
    ensures "version" in query ==> v == query["version"]
  {
    if "version" in query then query["version"] else DEFAULT_VERSION
  }

  /** The index of the first tracked user with the hash (`find { hash eq it }.first()`). */
  function FindByHash(users: seq<TrackedUser>, hash: string): (r: Option<nat>)
    ensures r.None? <==> forall i :: 0 <= i < |users| ==> users[i].hash != hash
    ensures r.Some? ==>
      && r.value < |users| && users[r.value].hash == hash
      && forall i :: 0 <= i < r.value ==> users[i].hash != hash
  {
    if users == [] then None
    else if users[0].hash == hash then Some(0)
    else match FindByHash(users[1..], hash)
      case None => None
      case Some(k) => Some(k + 1)
  }

  /** The tracked users after a report: a new user for an unknown hash, otherwise the first
      user with the hash gets the reported version. */
  function Upserted(users: seq<TrackedUser>, hash: string, version: string, newId: int): (r: seq<TrackedUser>)
    ensures FindByHash(users, hash).None? ==> r == users + [TrackedUser(newId, hash, version)]
    ensures FindByHash(users, hash).Some? ==>
      var i := FindByHash(users, hash).value;
      r == users[i := users[i].(version := version)]
  {
    match FindByHash(users, hash)
    case None => users + [TrackedUser(newId, hash, version)]
    case Some(i) => users[i := users[i].(version := version)]
  }

  /** The id of the user a report is filed under. */
  function ReporterId(users: seq<TrackedUser>, hash: string, newId: int): int
  {
    match FindByHash(users, hash)
    case None => newId
    case Some(i) => users[i].id
  }

  /** After a report the hash is known, it names the reporter, and it carries the reported
      version; a report adds a user exactly when the hash was unknown. */
  lemma UpsertSpec(users: seq<TrackedUser>, hash: string, version: string, newId: int)
    ensures var r := Upserted(users, hash, version, newId);
      && FindByHash(r, hash).Some?
      && r[FindByHash(r, hash).value] == TrackedUser(ReporterId(users, hash, newId), hash, version)
      && |r| == |users| + (if FindByHash(users, hash).None? then 1 else 0)
      && forall i :: 0 <= i < |users| && users[i].hash != hash ==> r[i] == users[i]
  {
    var r := Upserted(users, hash, version, newId);
    match FindByHash(users, hash)
    case None =>
      assert r[|users|].hash == hash;
      FirstHashAt(r, hash, |users|);
    case Some(i) =>
      assert r[i].hash == hash;
      FirstHashAt(r, hash, i);
  }

  /** The first user with the hash is at `k` when `k` holds it and nothing before does. */
  lemma FirstHashAt(users: seq<TrackedUser>, hash: string, k: nat)
    requires k < |users| && users[k].hash == hash
    requires forall i :: 0 <= i < k ==> users[i].hash != hash
    ensures FindByHash(users, hash) == Some(k)
  {
    var r := FindByHash(users, hash);
    assert r.Some?;
  }

  /** A second report with the same hash adds no user and only updates the version: two
      reports are one report with the later version. */
  lemma ReportTwice(users: seq<TrackedUser>, hash: string, v1: string, v2: string, id1: int, id2: int)
    ensures Upserted(Upserted(users, hash, v1, id1), hash, v2, id2) == Upserted(users, hash, v2, id1)
  {
    var r1 := Upserted(users, hash, v1, id1);
    UpsertSpec(users, hash, v1, id1);
    match FindByHash(users, hash)
    case None =>
      FirstHashAt(r1, hash, |users|);
    case Some(i) =>
      FirstHashAt(r1, hash, i);
  }

  /** Hashes are unique among tracked users. */
  predicate HashesDistinct(users: seq<TrackedUser>) {
    forall i, j :: 0 <= i < j < |users| ==> users[i].hash != users[j].hash
  }

  /** Reports keep hashes unique, so every installation is counted once. */
  lemma UpsertKeepsHashesDistinct(users: seq<TrackedUser>, hash: string, version: string, newId: int)
    requires HashesDistinct(users)
    ensures HashesDistinct(Upserted(users, hash, version, newId))
  {
  }

  /** Whether a timestamp row for (user, time) already exists. */
  predicate HasTimestamp(timestamps: seq<TrackedTimestamp>, userId: int, time: int) {
    exists i :: 0 <= i < |timestamps| && timestamps[i] == TrackedTimestamp(userId, time)
  }

  /** The `TrackedUsers` and `TrackedTimestamps` tables. */
  class Statistics {
    var users: seq<TrackedUser>
    var timestamps: seq<TrackedTimestamp>

    ghost predicate Valid()
      reads this
    {
      HashesDistinct(users)
    }

    constructor()
      ensures Valid() && users == [] && timestamps == []
    {
      users, timestamps := [], [];
    }

    /** `tracking`: a missing hash is BadRequest and changes nothing; otherwise the reporter
        is found or created, and a timestamp row is added unless one exists for the reporter
        at `checkTime`. The row written carries `insertTime`, the second clock read. */
    method Track(query: Query, newId: int, checkTime: int, insertTime: int) returns (res: Outcome)
      requires Valid()
      modifies this
      ensures Valid()
      ensures "hash" !in query ==> res == Fail(BadRequest) && users == old(users) && timestamps == old(timestamps)
      ensures "hash" in query ==>
        var hash := query["hash"];
        var uid := ReporterId(old(users), hash, newId);
        && res == Done
        && users == Upserted(old(users), hash, VersionParam(query), newId)
        && timestamps == old(timestamps) +
             (if HasTimestamp(old(timestamps), uid, checkTime) then [] else [TrackedTimestamp(uid, insertTime)])
    {
      if "hash" !in query {
        return Fail(BadRequest);
      }
      var hash := query["hash"];
      var version := VersionParam(query);
      var uid := ReporterId(users, hash, newId);
      UpsertKeepsHashesDistinct(users, hash, version, newId);
      users := Upserted(users, hash, version, newId);
      if !HasTimestamp(timestamps, uid, checkTime) {
        timestamps := timestamps + [TrackedTimestamp(uid, insertTime)];
      }
      return Done;
    }

    /** `summary`: the number of tracked users. */
    method Summary() returns (totalUsers: int)
      ensures totalUsers == |users|
    {
      return |users|;
    }
  }
}
