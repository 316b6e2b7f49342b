/** Rebuilding a resource at a revision: the nearest snapshot and the patches after it. */
module Reconstruct {
  import opened Wrappers
  import opened Json
  import opened MergePatch
  import opened Store
  import ChangedPaths

  datatype Error = NoSnapshot | BadPatch(revision: int) | StoreFailed

  type Outcome = Result<Bytes, Error>

  /** ApplyMergePatch on stored bytes: both sides must be JSON text. */
  function ApplyBytes(doc: Bytes, patch: Bytes): Option<Bytes> {
    if doc.Text? && patch.Text? then Some(Text(Apply(doc.json, patch.json))) else None
  }

  /** What revision `r` does to a document: a snapshot replaces it, a patch changes it. */
  function Step(log: Log, r: int, before: Outcome): Outcome {
    if r !in log then before
    else if log[r].isSnapshot then Ok(Unpack(log[r].snapshot))
    else if before.Err? || log[r].patch == Empty then before
    else match ApplyBytes(before.value, log[r].patch)
         case Some(doc) => Ok(doc)
         case None => Err(BadPatch(r))
  }

  /** Every revision above `after` up to `upTo`, one at a time. */
  function Replay(log: Log, after: int, upTo: int, start: Outcome): Outcome
    decreases upTo - after
  {
    if upTo <= after then start else Step(log, upTo, Replay(log, after, upTo - 1, start))
  }

  /** reconstructResource as a function of the resource's log. */
  ghost function Rebuild(log: Log, r: int): Outcome {
    match Nearest(log, r)
    case None => Err(NoSnapshot)
    case Some(s) => Replay(log, s, r, Ok(Unpack(log[s].snapshot)))
  }

  /** The loop of reconstructResource: as a replay, but the first error is final. */
  function Follow(log: Log, after: int, upTo: int, start: Outcome): Outcome
    decreases upTo - after
  {
    if upTo <= after then start
    else
      var before := Follow(log, after, upTo - 1, start);
      if before.Err? then before else Step(log, upTo, before)
  }

  /** reconstructResource when the snapshot is read from one log and the rows after it from a later one. */
  ghost function TwoReads(log: Log, later: Log, r: int): Outcome {
    match Nearest(log, r)
    case None => Err(NoSnapshot)
    case Some(s) => Follow(later, s, r, Ok(Unpack(log[s].snapshot)))
  }

  /** The loop's own errors are bad patches. */
  lemma {:induction false} FollowErrors(log: Log, after: int, upTo: int, start: Outcome)
    requires start.Ok?
    ensures Follow(log, after, upTo, start).Err? ==> Follow(log, after, upTo, start).error.BadPatch?
    decreases upTo - after
  {
    if upTo <= after {
    } else {
      FollowErrors(log, after, upTo - 1, start);
    }
  }

  /** How the two reads of a reconstruction go: which of them fail, and what the tables have become by the second. */
  datatype Reads = Reads(snapshotFails: bool, meanwhile: Tables, patchesFails: bool)

  /** Over patches alone the loop is a replay. */
  lemma {:induction false} FollowIsReplay(log: Log, after: int, upTo: int, start: Outcome)
    requires forall x | x in log :: after < x <= upTo ==> !log[x].isSnapshot
    ensures Follow(log, after, upTo, start) == Replay(log, after, upTo, start)
    decreases upTo - after
  {
    if upTo <= after {
    } else {
      FollowIsReplay(log, after, upTo - 1, start);
    }
  }

  /** The row cannot be applied: it is a patch, and it or the document it meets is no JSON text. */
  predicate Unusable(row: Row, before: Bytes) {
    !row.isSnapshot && row.patch != Empty && !(before.Text? && row.patch.Text?)
  }

  /** The loop over the rows of a stretch, none a snapshot and all of them JSON texts or empty: the patches in ascending
      order, the empty ones skipped. */
  lemma {:induction false} FollowPatchesInOrder(log: Log, after: int, upTo: int, base: Json)
    requires forall x | x in log ::
      after < x <= upTo ==> !log[x].isSnapshot && (log[x].patch.Text? || log[x].patch == Empty)
    ensures Follow(log, after, upTo, Ok(Text(base))) == Ok(Text(ApplyAll(base, Patches(log, after, upTo))))
    decreases upTo - after
  {
    if upTo <= after {
    } else {
      FollowPatchesInOrder(log, after, upTo - 1, base);
      var front := Patches(log, after, upTo - 1);
      if upTo in log && log[upTo].patch.Text? {
        assert (front + [log[upTo].patch.json])[..|front|] == front;
      } else {
        assert front + [] == front;
      }
    }
  }

  /** The stored patches of a stretch. */
  function Patches(log: Log, after: int, upTo: int): seq<Json>
    decreases upTo - after
  {
    if upTo <= after then []
    else Patches(log, after, upTo - 1) + (if upTo in log && log[upTo].patch.Text? then [log[upTo].patch.json] else [])
  }

  /** The loop fails exactly at the first row that cannot be applied to what the rows before it gave. */
  lemma {:induction false} FollowFailsAt(log: Log, after: int, upTo: int, start: Bytes, bad: int)
    ensures Follow(log, after, upTo, Ok(start)) == Err(BadPatch(bad)) <==>
      after < bad <= upTo && bad in log && Follow(log, after, bad - 1, Ok(start)).Ok? &&
      Unusable(log[bad], Follow(log, after, bad - 1, Ok(start)).value)
    decreases upTo - after
  {
    if upTo <= after {
    } else {
      FollowFailsAt(log, after, upTo - 1, start, bad);
      if after < bad < upTo {
        FollowErrorStays(log, after, bad, upTo - 1, Ok(start));
      }
      FollowErrors(log, after, upTo, Ok(start));
    }
  }

  lemma {:induction false} FollowErrorStays(log: Log, after: int, middle: int, upTo: int, start: Outcome)
    requires after <= middle <= upTo
    ensures Follow(log, after, middle, start).Err? ==>
      Follow(log, after, upTo, start) == Follow(log, after, middle, start)
    decreases upTo - middle
  {
    if middle == upTo {
    } else {
      FollowErrorStays(log, after, middle, upTo - 1, start);
    }
  }

  /** While nobody else acts, two reads are as good as one. */
  lemma TwoReadsOfOne(log: Log, r: int)
    ensures TwoReads(log, log, r) == Rebuild(log, r)
  {
    if Nearest(log, r).Some? {
      var s := Nearest(log, r).value;
      FollowIsReplay(log, s, r, Ok(Unpack(log[s].snapshot)));
    }
  }

  // ---------------------------------------------------------------- fast path against full replay

  lemma {:induction false} ReplaySplit(log: Log, after: int, middle: int, upTo: int, start: Outcome)
    requires after <= middle <= upTo
    ensures Replay(log, after, upTo, start) == Replay(log, middle, upTo, Replay(log, after, middle, start))
    decreases upTo - middle
  {
    if middle == upTo {
    } else {
      ReplaySplit(log, after, middle, upTo - 1, start);
    }
  }

  /** With a snapshot at or before `r`, replaying any longer stretch of history from any document gives the same. */
  lemma RebuildRefinesReplay(log: Log, r: int, after: int, start: Outcome)
    requires exists s :: IsSnapshotAt(log, s) && after < s <= r
    ensures Rebuild(log, r) == Replay(log, after, r, start)
  {
    var s0 :| IsSnapshotAt(log, s0) && after < s0 <= r;
    var s := Nearest(log, r).value;
    ReplaySplit(log, after, s, r, start);
  }

  /** The loop's snapshot branch only ever meets rows that were stored or replaced since the snapshot was read; it is
      never taken while nobody else acts. */
  lemma OnlyPatchesAfterNearest(log: Log, later: Log, r: int)
    requires Nearest(log, r).Some?
    ensures forall x | x in Between(later, Nearest(log, r).value, r) ::
      x in later && (later[x].isSnapshot ==> x !in log || log[x] != later[x])
    ensures forall x | x in Between(log, Nearest(log, r).value, r) :: x in log && !log[x].isSnapshot
  {
    BetweenRows(later, Nearest(log, r).value, r);
    BetweenRows(log, Nearest(log, r).value, r);
  }

  /** Rebuilding one revision further. */
  lemma RebuildNext(log: Log, r: int)
    requires r in log
    ensures log[r].isSnapshot ==> Rebuild(log, r) == Ok(Unpack(log[r].snapshot))
    ensures !log[r].isSnapshot ==>
              Rebuild(log, r) == (if Rebuild(log, r - 1) == Err(NoSnapshot) then Err(NoSnapshot)
                                  else Step(log, r, Rebuild(log, r - 1)))
    ensures Rebuild(log, r) == Err(NoSnapshot) <==> forall s :: IsSnapshotAt(log, s) ==> r < s
  {
    if log[r].isSnapshot {
      assert IsNearest(log, r, r);
    } else {
      assert forall s :: IsNearest(log, r, s) <==> IsNearest(log, r - 1, s);
      NearestUnique(log, r);
      NearestUnique(log, r - 1);
    }
    NeverNoSnapshot(log, r);
    NeverNoSnapshot(log, r - 1);
    if Nearest(log, r).Some? {
      assert IsSnapshotAt(log, Nearest(log, r).value);
    }
  }

  /** A replay that starts from a document never reports a missing snapshot. */
  lemma {:induction false} ReplayKeepsDocument(log: Log, after: int, upTo: int, start: Outcome)
    requires start != Err(NoSnapshot)
    ensures Replay(log, after, upTo, start) != Err(NoSnapshot)
    decreases upTo - after
  {
    if upTo <= after {
    } else {
      ReplayKeepsDocument(log, after, upTo - 1, start);
    }
  }

  lemma NeverNoSnapshot(log: Log, r: int)
    ensures Rebuild(log, r) == Err(NoSnapshot) <==> Nearest(log, r).None?
  {
    if Nearest(log, r).Some? {
      var s := Nearest(log, r).value;
      ReplayKeepsDocument(log, s, r, Ok(Unpack(log[s].snapshot)));
    }
  }

  /** Two logs that agree on a stretch replay it alike. */
  lemma {:induction false} ReplaySame(log1: Log, log2: Log, after: int, upTo: int, start: Outcome)
    requires forall x | after < x <= upTo :: (x in log1 <==> x in log2) && (x in log1 ==> log1[x] == log2[x])
    ensures Replay(log1, after, upTo, start) == Replay(log2, after, upTo, start)
    decreases upTo - after
  {
    if upTo <= after {
    } else {
      ReplaySame(log1, log2, after, upTo - 1, start);
    }
  }

  /** Later revisions do not change earlier reconstructions. */
  lemma RebuildStable(log1: Log, log2: Log, r: int)
    requires forall x | x <= r :: (x in log1 <==> x in log2) && (x in log1 ==> log1[x] == log2[x])
    ensures Rebuild(log1, r) == Rebuild(log2, r)
  {
    assert forall s :: IsNearest(log1, r, s) <==> IsNearest(log2, r, s);
    if Nearest(log1, r).Some? {
      var s := Nearest(log1, r).value;
      ReplaySame(log1, log2, s, r, Ok(Unpack(log1[s].snapshot)));
    }
  }

  // ---------------------------------------------------------------- the handlers

  /** Why handleDiffRevisions fails: one of the revisions, or documents that are not objects. */
  datatype DiffError = FromFailed(error: Error) | ToFailed(error: Error) | NotObjects

  datatype RevisionDiff = RevisionDiff(patch: Json, changedPaths: seq<string>, fromDoc: Bytes, toDoc: Bytes)

  predicate IsObject(data: Bytes) {
    data.Text? && data.json.Obj?
  }

  /** The loop of reconstructResource over the rows the store returned. */
  method FollowPatches(log: Log, patches: seq<int>, base: Bytes) returns (res: Outcome)
    requires forall p | p in patches :: p in log
    ensures res == FollowRows(log, patches, Ok(base))
  {
    var current := base;
    for i := 0 to |patches|
      invariant Ok(current) == FollowRows(log, patches[..i], Ok(base))
    {
      var p := patches[i];
      assert patches[..i + 1][..i] == patches[..i] && p in patches;
      if log[p].isSnapshot {
        current := Unpack(log[p].snapshot);
      } else if log[p].patch != Empty {
        var next := ApplyBytes(current, log[p].patch);
        if next.None? {
          ErrorStays(log, patches, i + 1, Ok(base));
          return Err(BadPatch(p));
        }
        current := next.value;
      }
    }
    assert patches[..|patches|] == patches;
    res := Ok(current);
  }

  class Server {
    const store: HistoryStore

    constructor (store: HistoryStore)
      ensures this.store == store
    {
      this.store := store;
    }

    method ReconstructResource(uid: string, revision: int, reading: Reads) returns (res: Outcome)
      modifies store
      ensures var log, later := old(store.Contents()).LogOf(uid), reading.meanwhile.LogOf(uid);
        var failed := reading.snapshotFails ||
                      (reading.patchesFails && exists s :: IsNearest(log, revision, s) && s != revision);
        (res == Err(StoreFailed) <==> failed) &&
        (!failed ==> res == TwoReads(log, later, revision)) &&
        (!failed && later == log ==> res == Rebuild(log, revision))
      ensures store.Contents() == old(store.Contents()) || store.Contents() == reading.meanwhile
    {
      ghost var log := store.Contents().LogOf(uid);
      NearestUnique(log, revision);
      TwoReadsOfOne(log, revision);
      var nearest := store.GetNearestSnapshot(uid, revision, reading.snapshotFails);
      if nearest.Err? {
        return Err(StoreFailed);
      }
      if nearest.value.None? {
        return Err(NoSnapshot);
      }
      var s := nearest.value.value;
      var base := Unpack(store.Contents().LogOf(uid)[s].snapshot);
      if s == revision {
        return Ok(base);
      }
      store.OthersAct(reading.meanwhile);
      var later := store.Contents().LogOf(uid);
      var patches := store.GetPatchesBetween(uid, s, revision, reading.patchesFails);
      if patches.Err? {
        return Err(StoreFailed);
      }
      BetweenRows(later, s, revision);
      res := FollowPatches(later, patches.value, base);
      FollowIsFollowRows(later, s, revision, Ok(base));
      FollowErrors(later, s, revision, Ok(base));
    }

    method DiffRevisions(uid: string, fromRev: int, toRev: int, fromReading: Reads, between: Tables, toReading: Reads)
      returns (res: Result<RevisionDiff, DiffError>)
      modifies store
      ensures var log, later := old(store.Contents()).LogOf(uid), fromReading.meanwhile.LogOf(uid);
        var log2, later2 := between.LogOf(uid), toReading.meanwhile.LogOf(uid);
        var fails := fromReading.snapshotFails ||
                     (fromReading.patchesFails && exists s :: IsNearest(log, fromRev, s) && s != fromRev);
        var fails2 := toReading.snapshotFails ||
                      (toReading.patchesFails && exists s :: IsNearest(log2, toRev, s) && s != toRev);
        var a := if fails then Err(StoreFailed) else TwoReads(log, later, fromRev);
        var b := if fails2 then Err(StoreFailed) else TwoReads(log2, later2, toRev);
        (fails || later != log || a == Rebuild(log, fromRev)) &&
        (fails2 || later2 != log2 || b == Rebuild(log2, toRev)) &&
        match res
        case Err(FromFailed(e)) => a == Err(e)
        case Err(ToFailed(e)) => a.Ok? && b == Err(e)
        case Err(NotObjects) =>
          a.Ok? && b.Ok? && !(a.value.Text? && a.value.json.Obj? && b.value.Text? && b.value.json.Obj?)
        case Ok(d) =>
          a == Ok(d.fromDoc) && b == Ok(d.toDoc) &&
          d.fromDoc.Text? && d.fromDoc.json.Obj? && d.toDoc.Text? && d.toDoc.json.Obj? &&
          (Apply(d.fromDoc.json, d.patch) == d.toDoc.json <==> NullsCarried(d.fromDoc.json, d.toDoc.json)) &&
          Prune(Apply(d.fromDoc.json, d.patch)) == Prune(d.toDoc.json) &&
          (d.patch == Obj(map[]) <==> a == b) && (d.changedPaths == [] <==> a == b) &&
          ChangedPaths.Lists(d.changedPaths, d.fromDoc.json.members, d.toDoc.json.members)
    {
      TwoReadsOfOne(store.Contents().LogOf(uid), fromRev);
      TwoReadsOfOne(between.LogOf(uid), toRev);
      var fromData := ReconstructResource(uid, fromRev, fromReading);
      if fromData.Err? {
        return Err(FromFailed(fromData.error));
      }
      store.OthersAct(between);
      var toData := ReconstructResource(uid, toRev, toReading);
      if toData.Err? {
        return Err(ToFailed(toData.error));
      }
      if !IsObject(fromData.value) || !IsObject(toData.value) {
        return Err(NotObjects);
      }
      var a, b := fromData.value.json.members, toData.value.json.members;
      var patch := Obj(Diff(a, b));
      var changedPaths := ChangedPaths.GetChangedPaths(a, b);
      RoundTrip(a, b);
      RoundTripUpToNulls(a, b);
      ChangedPaths.DiffsAgree(a, b);
      ChangedPaths.PathsExact(a, b);
      res := Ok(RevisionDiff(patch, changedPaths, fromData.value, toData.value));
    }
  }

  /** The loop over the rows a query returned. */
  function FollowRows(log: Log, rows: seq<int>, start: Outcome): Outcome {
    if rows == [] then start
    else
      var before := FollowRows(log, rows[..|rows| - 1], start);
      if before.Err? then before else Step(log, rows[|rows| - 1], before)
  }

  lemma {:induction false} FollowIsFollowRows(log: Log, after: int, upTo: int, start: Outcome)
    ensures Follow(log, after, upTo, start) == FollowRows(log, Between(log, after, upTo), start)
    decreases upTo - after
  {
    if upTo <= after {
    } else {
      FollowIsFollowRows(log, after, upTo - 1, start);
      var front := Between(log, after, upTo - 1);
      if upTo in log {
        assert (front + [upTo])[..|front|] == front;
      } else {
        assert Between(log, after, upTo) == front;
      }
    }
  }

  /** An error is final. */
  lemma {:induction false} ErrorStays(log: Log, rows: seq<int>, i: nat, start: Outcome)
    requires i <= |rows| && FollowRows(log, rows[..i], start).Err?
    ensures FollowRows(log, rows, start) == FollowRows(log, rows[..i], start)
    decreases |rows|
  {
    if i == |rows| {
      assert rows[..i] == rows;
    } else {
      assert rows[..|rows| - 1][..i] == rows[..i];
      ErrorStays(log, rows[..|rows| - 1], i, start);
    }
  }
}
