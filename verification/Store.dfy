/** The two tables of the history store and the calls on them. */
module Store {
  import opened Wrappers
  import opened Json

  /** What a blob column holds: nothing, a JSON text, or a gzip member around other bytes. */
  datatype Bytes = Empty | Text(json: Json) | Gzip(content: Bytes)

  /** Decompress fails on anything that is not gzip data. */
  function Decompress(data: Bytes): Option<Bytes> {
    if data.Gzip? then Some(data.content) else None
  }

  /** The reading idiom: decompressed when possible, as stored otherwise. */
  function Unpack(data: Bytes): Bytes {
    match Decompress(data)
    case Some(content) => content
    case None => data
  }

  /** The writing idiom: compressed when asked for and when compression succeeds. */
  function Pack(data: Bytes, compress: bool, gzipWorks: bool): Bytes {
    if compress && gzipWorks then Gzip(data) else data
  }

  datatype EventType = Created | Updated | Deleted

  datatype Identity = Identity(apiVersion: string, kind: string, namespace: string, name: string)

  /** A row of resource_revisions, without its key (resource_uid, revision). */
  datatype Row = Row(identity: Identity, event: EventType, snapshot: Bytes, patch: Bytes, isSnapshot: bool,
                     resourceVersion: string, changedPaths: seq<string>, timestamp: int, policyName: string)

  /** A row of tracked_resources, without its key uid. */
  datatype Record = Record(identity: Identity, currentRevision: int, firstSeen: int, lastSeen: int,
                           isDeleted: bool, policyName: string)

  /** The revisions of one resource by number. */
  type Log = map<int, Row>

  datatype Tables = Tables(revisions: map<string, Log>, tracked: map<string, Record>) {
    function LogOf(uid: string): Log {
      if uid in revisions then revisions[uid] else map[]
    }

    function RecordOf(uid: string): Option<Record> {
      if uid in tracked then Some(tracked[uid]) else None
    }

    function Insert(uid: string, revision: int, row: Row): Tables {
      this.(revisions := revisions[uid := LogOf(uid)[revision := row]])
    }

    /** On conflict only the counter, the last-seen time and the deletion mark are replaced. */
    function Upsert(uid: string, r: Record): Tables {
      this.(tracked := tracked[uid :=
        if uid in tracked then
          tracked[uid].(currentRevision := r.currentRevision, lastSeen := r.lastSeen, isDeleted := r.isDeleted)
        else r])
    }

    function MarkDeleted(uid: string, at: int): Tables {
      if uid in tracked then
        this.(tracked := tracked[uid := tracked[uid].(isDeleted := true, lastSeen := at)])
      else this
    }

    /** DELETE of every row, of any resource, older than the cutoff. */
    function Expire(olderThan: int): Tables {
      this.(revisions := map uid | uid in revisions :: PurgeOld(revisions[uid], olderThan))
    }
  }

  /** The error of a read. */
  datatype ReadError = ReadFailed

  /** How a write ends: applied, refused, or applied although the caller is told it failed. */
  datatype Call = Works | Fails | Lost

  // ---------------------------------------------------------------- deletions

  /** The revisions PurgeOldRevisions leaves. */
  function PurgeOld(log: Log, olderThan: int): Log {
    map r | r in log && log[r].timestamp >= olderThan :: log[r]
  }

  function Newer(log: Log, r: int): set<int> {
    set x | x in log && x > r
  }

  /** ORDER BY revision DESC LIMIT n selects the rows with fewer than n newer ones; a negative n is no limit. */
  predicate WithinLimit(log: Log, limit: int, r: int) {
    limit < 0 || |Newer(log, r)| < limit
  }

  /** The revisions PurgeExcessRevisions leaves. */
  function PurgeExcess(log: Log, maxRevisions: int): Log {
    map r | r in log && WithinLimit(log, maxRevisions, r) :: log[r]
  }

  // ---------------------------------------------------------------- queries on a log

  predicate IsSnapshotAt(log: Log, s: int) {
    s in log && log[s].isSnapshot
  }

  /** The row GetNearestSnapshot selects. */
  predicate IsNearest(log: Log, r: int, s: int) {
    s in log && log[s].isSnapshot && s <= r && forall x | x in log :: log[x].isSnapshot && x <= r ==> x <= s
  }

  ghost function Nearest(log: Log, r: int): (res: Option<int>)
    ensures res.Some? ==> IsNearest(log, r, res.value)
    ensures res.None? ==> forall s :: IsSnapshotAt(log, s) ==> r < s
  {
    if exists s :: IsNearest(log, r, s) then
      var s :| IsNearest(log, r, s);
      Some(s)
    else
      var below := set x | x in log && log[x].isSnapshot && x <= r;
      assert below == {} by {
        if below != {} {
          var s := Greatest(below);
          assert forall x :: x in below <==> x in log && log[x].isSnapshot && x <= r;
          assert IsNearest(log, r, s);
        }
      }
      assert forall s :: IsSnapshotAt(log, s) && s <= r ==> s in below;
      None
  }

  /** The selected row is the only candidate, so the choice is a function of the log. */
  lemma NearestUnique(log: Log, r: int)
    ensures forall s :: IsNearest(log, r, s) <==> Nearest(log, r) == Some(s)
  {
  }

  /** The row GetLatestRevision selects. */
  predicate IsLatest(log: Log, s: int) {
    s in log && forall x | x in log :: x <= s
  }

  lemma {:induction false} Greatest(s: set<int>) returns (m: int)
    requires s != {}
    ensures m in s
    ensures forall x :: x in s ==> x <= m
    decreases s
  {
    m := Pick(s);
    var rest := s - {m};
    assert forall x :: x in s ==> x == m || x in rest;
    if rest == {} {
    } else {
      var g := Greatest(rest);
      if m < g {
        m := g;
      }
    }
  }

  ghost function Pick<T>(s: set<T>): (x: T)
    requires s != {}
    ensures x in s
  {
    var x :| x in s;
    x
  }

  /** GetPatchesBetween: the revisions above `after` up to `upTo`, in ascending order. */
  function Between(log: Log, after: int, upTo: int): seq<int>
    decreases upTo - after
  {
    if upTo <= after then []
    else Between(log, after, upTo - 1) + (if upTo in log then [upTo] else [])
  }

  /** The query's own terms: every matching row once, ordered by revision. */
  lemma {:induction false} BetweenRows(log: Log, after: int, upTo: int)
    ensures forall r :: r in Between(log, after, upTo) <==> r in log && after < r <= upTo
    ensures forall i, j | 0 <= i < j < |Between(log, after, upTo)| ::
      Between(log, after, upTo)[i] < Between(log, after, upTo)[j]
    decreases upTo - after
  {
    if upTo <= after {
    } else {
      BetweenRows(log, after, upTo - 1);
      var front := Between(log, after, upTo - 1);
      assert forall i | 0 <= i < |front| :: front[i] in front;
    }
  }

  // ---------------------------------------------------------------- the store

  class HistoryStore {
    var revisions: map<string, Log>
    var tracked: map<string, Record>

    function Contents(): Tables
      reads this
    {
      Tables(revisions, tracked)
    }

    constructor ()
      ensures Contents() == Tables(map[], map[])
    {
      revisions, tracked := map[], map[];
    }

    /** What others do to the tables between two calls of one client. */
    method OthersAct(after: Tables)
      modifies this
      ensures Contents() == after
    {
      revisions, tracked := after.revisions, after.tracked;
    }

    /** INSERT under UNIQUE(resource_uid, revision): an existing row is never replaced. */
    method StoreRevision(uid: string, revision: int, row: Row, call: Call) returns (ok: bool)
      modifies this
      ensures ok <==> call.Works? && revision !in old(Contents()).LogOf(uid)
      ensures Contents() == if !call.Fails? && revision !in old(Contents()).LogOf(uid)
                            then old(Contents()).Insert(uid, revision, row) else old(Contents())
    {
      var log := Contents().LogOf(uid);
      if call.Fails? || revision in log {
        return false;
      }
      revisions := revisions[uid := log[revision := row]];
      ok := call.Works?;
    }

    method UpsertTrackedResource(uid: string, r: Record, call: Call) returns (ok: bool)
      modifies this
      ensures ok <==> call.Works?
      ensures Contents() == if call.Fails? then old(Contents()) else old(Contents()).Upsert(uid, r)
      ensures !call.Fails? ==>
        revisions == old(revisions) && tracked.Keys == old(tracked).Keys + {uid} &&
        (forall k | k in old(tracked) && k != uid :: tracked[k] == old(tracked)[k]) &&
        tracked[uid] ==
          if uid in old(tracked) then
            var was := old(tracked)[uid];
            Record(was.identity, r.currentRevision, was.firstSeen, r.lastSeen, r.isDeleted, was.policyName)
          else r
    {
      if call.Fails? {
        return false;
      }
      if uid in tracked {
        var t := tracked[uid];
        t := t.(currentRevision := r.currentRevision, lastSeen := r.lastSeen, isDeleted := r.isDeleted);
        tracked := tracked[uid := t];
      } else {
        tracked := tracked[uid := r];
      }
      ok := call.Works?;
    }

    method MarkDeleted(uid: string, at: int, call: Call) returns (ok: bool)
      modifies this
      ensures ok <==> call.Works?
      ensures Contents() == if call.Fails? then old(Contents()) else old(Contents()).MarkDeleted(uid, at)
      ensures !call.Fails? ==>
        revisions == old(revisions) && tracked.Keys == old(tracked).Keys &&
        (forall k | k in tracked && k != uid :: tracked[k] == old(tracked)[k]) &&
        (uid in tracked ==>
          var was := old(tracked)[uid];
          tracked[uid] == Record(was.identity, was.currentRevision, was.firstSeen, at, true, was.policyName))
    {
      if !call.Fails? && uid in tracked {
        tracked := tracked[uid := tracked[uid].(isDeleted := true, lastSeen := at)];
      }
      ok := call.Works?;
    }

    /** A failed read and a missing record look the same to the callers, who drop the error. */
    method GetTrackedResource(uid: string, fails: bool) returns (r: Option<Record>)
      ensures r == if fails then None else Contents().RecordOf(uid)
    {
      r := if fails || uid !in tracked then None else Some(tracked[uid]);
    }

    method GetLatestRevision(uid: string, fails: bool) returns (r: Option<int>)
      ensures r.Some? ==> !fails && IsLatest(Contents().LogOf(uid), r.value)
      ensures r.None? ==> fails || Contents().LogOf(uid) == map[]
    {
      r := None;
      var log := Contents().LogOf(uid);
      if !fails && log != map[] {
        ghost var m := Greatest(log.Keys);
        assert IsLatest(log, m);
        var s :| s in log && forall x | x in log :: x <= s;
        r := Some(s);
      }
    }

    method GetNearestSnapshot(uid: string, revision: int, fails: bool) returns (r: Result<Option<int>, ReadError>)
      ensures r == if fails then Err(ReadFailed) else Ok(Nearest(Contents().LogOf(uid), revision))
    {
      if fails {
        return Err(ReadFailed);
      }
      var log := Contents().LogOf(uid);
      ghost var nearest := Nearest(log, revision);
      if s :| s in log && IsNearest(log, revision, s) {
        r := Ok(Some(s));
      } else {
        r := Ok(None);
      }
    }

    method GetPatchesBetween(uid: string, fromRevision: int, toRevision: int, fails: bool)
      returns (r: Result<seq<int>, ReadError>)
      ensures r == if fails then Err(ReadFailed) else Ok(Between(Contents().LogOf(uid), fromRevision, toRevision))
    {
      r := if fails then Err(ReadFailed) else Ok(Between(Contents().LogOf(uid), fromRevision, toRevision));
    }

    /** DELETE of every row, of any resource, with an older timestamp. */
    method PurgeOldRevisions(olderThan: int) returns (removed: nat)
      modifies this
      ensures Contents() == old(Contents()).Expire(olderThan)
      ensures tracked == old(tracked) && revisions.Keys == old(revisions).Keys
      ensures forall uid, r | uid in revisions ::
        (r in revisions[uid] <==> r in old(revisions)[uid] && olderThan <= old(revisions)[uid][r].timestamp) &&
        (r in revisions[uid] ==> revisions[uid][r] == old(revisions)[uid][r])
      ensures removed == |set uid, r | uid in old(revisions) && r in old(revisions)[uid] &&
                                       old(revisions)[uid][r].timestamp < olderThan :: (uid, r)|
    {
      removed := |set uid, r | uid in revisions && r in revisions[uid] &&
                               revisions[uid][r].timestamp < olderThan :: (uid, r)|;
      revisions := map uid | uid in revisions :: PurgeOld(revisions[uid], olderThan);
    }

    /** DELETE of the rows of one resource beyond its newest `maxRevisions`. */
    method PurgeExcessRevisions(uid: string, maxRevisions: int) returns (removed: nat)
      modifies this
      ensures tracked == old(tracked)
      ensures forall other :: Contents().LogOf(other) ==
                (if other == uid then PurgeExcess(old(Contents()).LogOf(uid), maxRevisions)
                 else old(Contents()).LogOf(other))
      ensures removed == |old(Contents()).LogOf(uid).Keys - Contents().LogOf(uid).Keys|
    {
      var log := Contents().LogOf(uid);
      var kept := PurgeExcess(log, maxRevisions);
      removed := |log.Keys - kept.Keys|;
      if uid in revisions {
        revisions := revisions[uid := kept];
      }
    }
  }
}
