/** What purging does to reconstruction, and what the snapshot cadence costs and guarantees. */
module Retention {
  import opened Wrappers
  import opened Json
  import opened MergePatch
  import opened Store
  import opened Reconstruct

  // ---------------------------------------------------------------- removing the oldest revisions

  /** `kept` is what remains of `log` after removing every revision before some point. */
  ghost predicate SuffixOf(kept: Log, log: Log) {
    (forall r :: r in kept ==> r in log && kept[r] == log[r]) &&
    (forall r, x :: r in kept && x in log && r < x ==> x in kept)
  }

  /** A shortened log rebuilds a revision to the same document, or says there is no snapshot; and says which. */
  lemma SuffixHonest(kept: Log, log: Log, r: int)
    requires SuffixOf(kept, log)
    ensures Rebuild(kept, r) ==
      if Nearest(log, r).Some? && Nearest(log, r).value in kept then Rebuild(log, r) else Err(NoSnapshot)
  {
    if Nearest(log, r).Some? && Nearest(log, r).value in kept {
      var s := Nearest(log, r).value;
      assert IsNearest(kept, r, s);
      NearestUnique(kept, r);
      ReplaySame(kept, log, s, r, Ok(Unpack(log[s].snapshot)));
    } else if Nearest(kept, r).Some? {
      var s := Nearest(kept, r).value;
      assert IsSnapshotAt(log, s);
    }
  }

  lemma {:induction false} SubsetSize<T>(a: set<T>, b: set<T>)
    requires a <= b
    ensures |a| <= |b|
    decreases a
  {
    if a == {} {
    } else {
      var x := Pick(a);
      SubsetSize(a - {x}, b - {x});
    }
  }

  lemma PurgeExcessIsSuffix(log: Log, maxRevisions: int)
    ensures SuffixOf(PurgeExcess(log, maxRevisions), log)
  {
    forall r, x | r in log && x in log && r < x
      ensures |Newer(log, x)| <= |Newer(log, r)|
    {
      SubsetSize(Newer(log, x), Newer(log, r));
    }
  }

  /** PurgeExcessRevisions never makes reconstruction lie. */
  lemma PurgeExcessHonest(log: Log, maxRevisions: int, r: int)
    ensures Rebuild(PurgeExcess(log, maxRevisions), r) ==
      if Nearest(log, r).Some? && Nearest(log, r).value in PurgeExcess(log, maxRevisions) then Rebuild(log, r)
      else Err(NoSnapshot)
  {
    PurgeExcessIsSuffix(log, maxRevisions);
    SuffixHonest(PurgeExcess(log, maxRevisions), log, r);
  }

  lemma LimitWithoutLeast(log: Log, least: int, maxRevisions: nat)
    requires least in log && forall x :: x in log ==> least <= x
    ensures WithinLimit(log, maxRevisions, least) <==> |log - {least}| < maxRevisions
    ensures forall r :: r in log - {least} ==>
      (WithinLimit(log, maxRevisions, r) <==> WithinLimit(log - {least}, maxRevisions, r))
  {
    var rest := log - {least};
    assert Newer(log, least) == rest.Keys;
    KeysCounted(rest);
    forall r | r in rest
      ensures WithinLimit(log, maxRevisions, r) <==> WithinLimit(rest, maxRevisions, r)
    {
      assert Newer(rest, r) == Newer(log, r);
    }
  }

  lemma OneFewer(log: Log, least: int)
    requires least in log
    ensures |log| == |log - {least}| + 1
  {
    assert (log - {least}).Keys == log.Keys - {least};
    KeysCounted(log - {least});
  }

  /** Without its oldest revision a log keeps the same rows under a limit, save that one when there is room for it. */
  lemma PurgeExcessRest(log: Log, least: int, maxRevisions: nat)
    requires least in log && forall x :: x in log ==> least <= x
    ensures PurgeExcess(log, maxRevisions).Keys ==
      PurgeExcess(log - {least}, maxRevisions).Keys + (if |log - {least}| < maxRevisions then {least} else {})
    ensures least !in PurgeExcess(log - {least}, maxRevisions)
  {
    LimitWithoutLeast(log, least, maxRevisions);
    var room := if |log - {least}| < maxRevisions then {least} else {};
    forall r
      ensures r in PurgeExcess(log, maxRevisions) <==> r in PurgeExcess(log - {least}, maxRevisions) || r in room
    {
      if r == least {
        assert r in PurgeExcess(log, maxRevisions) <==> WithinLimit(log, maxRevisions, least);
      } else {
        assert r in log <==> r in log - {least};
      }
    }
  }

  /** A negative limit is none. */
  lemma PurgeExcessUnlimited(log: Log, maxRevisions: int)
    requires maxRevisions < 0
    ensures PurgeExcess(log, maxRevisions) == log
  {
  }

  /** It keeps as many revisions as allowed. */
  lemma {:induction false} PurgeExcessSize(log: Log, maxRevisions: nat)
    ensures |PurgeExcess(log, maxRevisions)| == if |log| < maxRevisions then |log| else maxRevisions
    decreases log.Keys
  {
    if log == map[] {
      assert PurgeExcess(log, maxRevisions) == map[];
    } else {
      assert log.Keys != {};
      var least := Least(log.Keys);
      var rest := log - {least};
      assert rest.Keys == log.Keys - {least};
      PurgeExcessSize(rest, maxRevisions);
      PurgeExcessRest(log, least, maxRevisions);
      OneFewer(log, least);
      KeysCounted(PurgeExcess(log, maxRevisions));
      KeysCounted(PurgeExcess(rest, maxRevisions));
    }
  }

  lemma KeysCounted(log: Log)
    ensures |log| == |log.Keys|
  {
  }

  lemma {:induction false} Least(s: set<int>) returns (m: int)
    requires s != {}
    ensures m in s
    ensures forall x :: x in s ==> m <= x
    decreases s
  {
    m := Pick(s);
    var rest := s - {m};
    assert forall x :: x in s ==> x == m || x in rest;
    if rest == {} {
    } else {
      var l := Least(rest);
      if l < m {
        m := l;
      }
    }
  }

  // ---------------------------------------------------------------- removing by age

  /** Every revision is at least as young as every snapshot before it. */
  ghost predicate NoYoungerSnapshot(log: Log) {
    forall s, p :: IsSnapshotAt(log, s) && p in log && s < p ==> log[s].timestamp <= log[p].timestamp
  }

  /** The same revisions, snapshots and timestamps, with any documents. */
  ghost predicate SameLayout(a: Log, b: Log) {
    a.Keys == b.Keys && forall r :: r in a ==> a[r].isSnapshot == b[r].isSnapshot && a[r].timestamp == b[r].timestamp
  }

  /** Every revision rebuilds to the same outcome as before, or to "no snapshot found". */
  ghost predicate Honest(before: Log, after: Log) {
    forall r :: Rebuild(after, r) == Rebuild(before, r) || Rebuild(after, r) == Err(NoSnapshot)
  }

  /** Where a snapshot survives, so does everything after it. */
  lemma AfterSurvivor(log: Log, olderThan: int, s: int, p: int)
    requires NoYoungerSnapshot(log) && IsSnapshotAt(PurgeOld(log, olderThan), s) && s <= p && p in log
    ensures p in PurgeOld(log, olderThan)
  {
    assert IsSnapshotAt(log, s);
  }

  lemma PurgeOldKeepsTruth(log: Log, olderThan: int, r: int)
    requires NoYoungerSnapshot(log)
    ensures Rebuild(PurgeOld(log, olderThan), r) == Rebuild(log, r) ||
            Rebuild(PurgeOld(log, olderThan), r) == Err(NoSnapshot)
  {
    var kept := PurgeOld(log, olderThan);
    if Nearest(kept, r).Some? {
      var t := Nearest(kept, r).value;
      assert IsSnapshotAt(log, t) && t <= r;
      var s := Nearest(log, r).value;
      AfterSurvivor(log, olderThan, t, s);
      forall x | s < x <= r && x in log {
        AfterSurvivor(log, olderThan, s, x);
      }
      ReplaySame(kept, log, s, r, Ok(Unpack(log[s].snapshot)));
    }
  }

  /** A document that names its revision. */
  function Label(r: int): Json {
    Obj(map["v" := Num(r as real)])
  }

  function Labelled(log: Log): Log {
    map r | r in log :: log[r].(snapshot := Text(Label(r)), patch := Text(Label(r)))
  }

  lemma LabelStep(log: Log, r: int, x: int)
    requires r in log && log[r].snapshot == log[r].patch == Text(Label(r))
    ensures Step(log, r, Ok(Text(Label(x)))) == Ok(Text(Label(r)))
  {
    assert Apply(Label(x), Label(r)).members == Label(r).members;
  }

  /** Replaying labelled revisions ends on the label of one of them. */
  lemma {:induction false} ReplayLabelled(log: Log, s: int, upTo: int) returns (x: int)
    requires s in log && s <= upTo
    requires AllLabelled(log)
    ensures x in log && Replay(log, s, upTo, Ok(Text(Label(s)))) == Ok(Text(Label(x)))
    ensures upTo in log ==> x == upTo
    decreases upTo - s
  {
    if s == upTo {
      x := s;
    } else {
      x := ReplayLabelled(log, s, upTo - 1);
      if upTo in log {
        LabelStep(log, upTo, x);
        x := upTo;
      }
    }
  }

  ghost predicate AllLabelled(log: Log) {
    forall r :: r in log ==> log[r].snapshot == log[r].patch == Text(Label(r))
  }

  lemma RebuildLabelled(log: Log, r: int) returns (x: int)
    requires AllLabelled(log) && exists s :: IsSnapshotAt(log, s) && s <= r
    ensures x in log && Rebuild(log, r) == Ok(Text(Label(x)))
    ensures r in log ==> x == r
  {
    x := ReplayLabelled(log, Nearest(log, r).value, r);
  }

  lemma LabelsDiffer(x: int, y: int)
    requires x != y
    ensures Label(x) != Label(y)
  {
    assert Label(x).members["v"] != Label(y).members["v"];
  }

  /** A snapshot younger than a later revision lets a purge drop the revision and keep the snapshot. */
  lemma YoungerSnapshotLies(log: Log, s: int, p: int)
    requires IsSnapshotAt(log, s) && p in log && s < p && log[p].timestamp < log[s].timestamp
    ensures SameLayout(log, Labelled(log)) && !Honest(Labelled(log), PurgeOld(Labelled(log), log[s].timestamp))
  {
    var before := Labelled(log);
    var after := PurgeOld(before, log[s].timestamp);
    assert IsSnapshotAt(before, s) && IsSnapshotAt(after, s);
    var x := RebuildLabelled(before, p);
    var y := RebuildLabelled(after, p);
    LabelsDiffer(x, y);
  }

  /** PurgeOldRevisions is honest for every cutoff and every content of a history exactly when no snapshot in it
      is younger than a later revision. In particular it is when timestamps never decrease. */
  lemma PurgeOldHonestIff(log: Log)
    ensures NoYoungerSnapshot(log) <==>
      forall contents: Log, olderThan: int ::
        SameLayout(log, contents) ==> Honest(contents, PurgeOld(contents, olderThan))
  {
    if NoYoungerSnapshot(log) {
      forall contents: Log, olderThan: int | SameLayout(log, contents)
        ensures Honest(contents, PurgeOld(contents, olderThan))
      {
        assert NoYoungerSnapshot(contents) by {
          forall s, p | IsSnapshotAt(contents, s) && p in contents && s < p
            ensures contents[s].timestamp <= contents[p].timestamp
          {
            assert IsSnapshotAt(log, s);
          }
        }
        forall r {
          PurgeOldKeepsTruth(contents, olderThan, r);
        }
      }
    } else {
      var s, p :| IsSnapshotAt(log, s) && p in log && s < p && log[s].timestamp > log[p].timestamp;
      YoungerSnapshotLies(log, s, p);
    }
  }

  // ---------------------------------------------------------------- tables that change between the two reads

  /** The two logs store the same rows from `after` up to `upTo`. */
  predicate SameRows(log: Log, later: Log, after: int, upTo: int) {
    forall x | after < x <= upTo :: SameRow(log, later, x)
  }

  predicate SameRow(log: Log, later: Log, x: int) {
    (x in log <==> x in later) && (x in log ==> log[x] == later[x])
  }

  /** The same two logs with any documents, those of one row being the same in both. */
  ghost predicate SameLayouts(log: Log, later: Log, contents: Log, after: Log) {
    SameLayout(log, contents) && SameLayout(later, after) &&
    forall x :: x in log && x in later && log[x] == later[x] ==> contents[x] == after[x]
  }

  lemma SameNearest(log: Log, contents: Log, r: int)
    requires SameLayout(log, contents)
    ensures Nearest(log, r) == Nearest(contents, r)
  {
    assert forall s :: IsNearest(log, r, s) <==> IsNearest(contents, r, s);
    NearestUnique(log, r);
    NearestUnique(contents, r);
  }

  lemma {:induction false} FollowSame(log: Log, later: Log, after: int, upTo: int, start: Outcome)
    requires SameRows(log, later, after, upTo)
    ensures Follow(log, after, upTo, start) == Follow(later, after, upTo, start)
    decreases upTo - after
  {
    if upTo <= after {
    } else {
      FollowSame(log, later, after, upTo - 1, start);
      assert SameRow(log, later, upTo);
    }
  }

  /** A document for the row `x` and an empty one for every other. */
  function Mark(r: int, x: int, n: real): Json {
    Obj(if r == x then map["v" := Num(n)] else map[])
  }

  function Marked(log: Log, x: int, n: real): Log {
    map r | r in log :: log[r].(snapshot := Text(Mark(r, x, n)), patch := Text(Mark(r, x, n)))
  }

  /** Only the marked row shows when nothing but patches follows it. */
  lemma {:induction false} FollowMarked(log: Log, s: int, upTo: int, x: int, n: real)
    requires s < x && s <= upTo && forall y | y in log :: x < y <= upTo ==> !log[y].isSnapshot
    ensures Follow(Marked(log, x, n), s, upTo, Ok(Text(Obj(map[])))) ==
      Ok(Text(if x in log && x <= upTo then Mark(x, x, n) else Obj(map[])))
    decreases upTo - s
  {
    if upTo == s {
    } else {
      FollowMarked(log, s, upTo - 1, x, n);
      MarkApplied(upTo, x, n);
    }
  }

  lemma MarkApplied(r: int, x: int, n: real)
    ensures Apply(Obj(map[]), Mark(r, x, n)) == Mark(r, x, n)
    ensures r != x ==> Apply(Mark(x, x, n), Mark(r, x, n)) == Mark(x, x, n)
  {
    assert Apply(Obj(map[]), Mark(r, x, n)).members == Mark(r, x, n).members;
  }

  lemma MarksDiffer(x: int, m: real, n: real)
    requires m != n
    ensures Mark(x, x, m) != Mark(x, x, n) && Mark(x, x, m) != Obj(map[])
  {
    assert Mark(x, x, m).members["v"] != Mark(x, x, n).members["v"];
  }

  /** The last row in which two logs differ. */
  lemma {:induction false} LastDifference(log: Log, later: Log, after: int, upTo: int) returns (x: int)
    requires !SameRows(log, later, after, upTo)
    ensures after < x <= upTo && !SameRow(log, later, x) && SameRows(log, later, x, upTo)
    decreases upTo - after
  {
    if !SameRow(log, later, upTo) && after < upTo {
      x := upTo;
    } else {
      x := LastDifference(log, later, after, upTo - 1);
    }
  }

  /** Two logs that differ after the nearest snapshot can be given documents that betray it. */
  lemma TwoReadsLie(log: Log, later: Log, r: int) returns (contents: Log, after: Log)
    requires Nearest(log, r).Some? && !SameRows(log, later, Nearest(log, r).value, r)
    ensures SameLayouts(log, later, contents, after) && TwoReads(contents, after, r) != Rebuild(contents, r)
  {
    var s := Nearest(log, r).value;
    var x := LastDifference(log, later, s, r);
    contents, after := Marked(log, x, 1.0), Marked(later, x, 2.0);
    SameNearest(log, contents, r);
    TwoReadsOfOne(contents, r);
    assert forall y | y in later :: x < y <= r ==> SameRow(log, later, y);
    assert forall y | y in log :: s < y <= r ==> !log[y].isSnapshot;
    FollowMarked(log, s, r, x, 1.0);
    FollowMarked(later, s, r, x, 2.0);
    MarksDiffer(x, 1.0, 2.0);
    MarksDiffer(x, 2.0, 1.0);
  }

  lemma TwoReadsTrue(log: Log, later: Log, r: int)
    requires Nearest(log, r).Some? ==> SameRows(log, later, Nearest(log, r).value, r)
    ensures TwoReads(log, later, r) == Rebuild(log, r)
  {
    TwoReadsOfOne(log, r);
    if Nearest(log, r).Some? {
      var s := Nearest(log, r).value;
      FollowSame(log, later, s, r, Ok(Unpack(log[s].snapshot)));
    }
  }

  /** Whatever the documents, a reconstruction whose two reads see different tables returns what the first of them held,
      exactly when no row between the nearest snapshot and the revision was stored, replaced or removed in between. */
  lemma TwoReadsTrueIff(log: Log, later: Log, r: int)
    ensures (Nearest(log, r).Some? ==> SameRows(log, later, Nearest(log, r).value, r)) <==>
      forall contents: Log, after: Log ::
        SameLayouts(log, later, contents, after) ==> TwoReads(contents, after, r) == Rebuild(contents, r)
  {
    if Nearest(log, r).Some? ==> SameRows(log, later, Nearest(log, r).value, r) {
      forall contents: Log, after: Log | SameLayouts(log, later, contents, after)
        ensures TwoReads(contents, after, r) == Rebuild(contents, r)
      {
        SameNearest(log, contents, r);
        if Nearest(log, r).Some? {
          forall x | Nearest(log, r).value < x <= r
            ensures SameRow(contents, after, x)
          {
            assert SameRow(log, later, x);
          }
        }
        TwoReadsTrue(contents, after, r);
      }
    } else {
      var contents, after := TwoReadsLie(log, later, r);
    }
  }

  /** A purge by age between the two reads is harmless for every content exactly when it removes no row between the
      nearest snapshot and the revision, timestamps in order or not. */
  lemma PurgeBetweenReadsIff(log: Log, olderThan: int, r: int)
    requires Nearest(log, r).Some?
    ensures (forall x :: x in log && Nearest(log, r).value < x <= r ==> olderThan <= log[x].timestamp) <==>
      forall contents: Log ::
        SameLayout(log, contents) ==> TwoReads(contents, PurgeOld(contents, olderThan), r) == Rebuild(contents, r)
  {
    var s, later := Nearest(log, r).value, PurgeOld(log, olderThan);
    if forall x :: x in log && s < x <= r ==> olderThan <= log[x].timestamp {
      forall contents: Log | SameLayout(log, contents)
        ensures TwoReads(contents, PurgeOld(contents, olderThan), r) == Rebuild(contents, r)
      {
        SameNearest(log, contents, r);
        TwoReadsTrue(contents, PurgeOld(contents, olderThan), r);
      }
    } else {
      var x :| x in log && s < x <= r && log[x].timestamp < olderThan;
      assert !SameRow(log, later, x);
      var contents := PurgeBetweenReadsLies(log, olderThan, r);
    }
  }

  lemma PurgeBetweenReadsLies(log: Log, olderThan: int, r: int) returns (contents: Log)
    requires Nearest(log, r).Some? && !SameRows(log, PurgeOld(log, olderThan), Nearest(log, r).value, r)
    ensures SameLayout(log, contents)
    ensures TwoReads(contents, PurgeOld(contents, olderThan), r) != Rebuild(contents, r)
  {
    var s, later := Nearest(log, r).value, PurgeOld(log, olderThan);
    var x := LastDifference(log, later, s, r);
    contents := Marked(log, x, 1.0);
    assert PurgeOld(contents, olderThan) == Marked(later, x, 1.0);
    SameNearest(log, contents, r);
    TwoReadsOfOne(contents, r);
    assert forall y | y in log :: s < y <= r ==> !log[y].isSnapshot;
    FollowMarked(log, s, r, x, 1.0);
    FollowMarked(later, s, r, x, 1.0);
    MarksDiffer(x, 1.0, 2.0);
  }

  // ---------------------------------------------------------------- snapshot cadence

  /** Revisions 1..m with a full snapshot at every multiple of `every`. */
  ghost predicate Cadenced(log: Log, m: int, every: int) {
    0 < every && (forall r :: r in log <==> 1 <= r <= m) &&
    forall r :: r in log && r % every == 0 ==> log[r].isSnapshot
  }

  /** The next multiple of `every` at or after `lo`. */
  lemma NextMultiple(lo: int, every: int) returns (q: int)
    requires 0 < every
    ensures lo <= q < lo + every && q % every == 0
  {
    var d := (lo + every - 1) / every;
    q := d * every;
    ModUnique(q, every, d, 0);
  }

  /** Quotient and remainder are unique. */
  lemma ModUnique(x: int, n: int, q: int, r: int)
    requires 0 < n && 0 <= r < n && x == q * n + r
    ensures x % n == r
  {
    var quotient := x / n;
    if q < quotient {
      MulMonotone(q + 1, quotient, n);
    } else if quotient < q {
      MulMonotone(quotient + 1, q, n);
    }
  }

  lemma MulMonotone(a: int, b: int, n: int)
    requires a <= b && 0 < n
    ensures a * n <= b * n
  {
  }

  /** The retained revisions that can no longer be rebuilt. */
  ghost function Orphans(log: Log): set<int> {
    set r | r in log && Rebuild(log, r) == Err(NoSnapshot)
  }

  lemma {:induction false} IntervalSize(s: set<int>, lo: int, hi: int)
    requires lo <= hi && forall r :: r in s ==> lo <= r < hi
    ensures |s| <= hi - lo
    decreases hi - lo
  {
    if lo == hi {
      assert s == {};
    } else {
      IntervalSize(s - {hi - 1}, lo, hi - 1);
      assert s <= s - {hi - 1} + {hi - 1};
      SubsetSize(s, s - {hi - 1} + {hi - 1});
    }
  }

  /** However many of the oldest revisions are removed, at most `every` - 1 of the others lose their snapshot. */
  lemma PurgeLossBound(kept: Log, log: Log, m: int, every: int)
    requires Cadenced(log, m, every) && SuffixOf(kept, log)
    ensures |Orphans(kept)| <= every - 1
  {
    if kept == map[] {
      assert Orphans(kept) == {};
    } else {
      assert kept.Keys != {};
      var lo := Least(kept.Keys);
      var q := NextMultiple(lo, every);
      forall r | r in Orphans(kept)
        ensures lo <= r < q
      {
        NeverNoSnapshot(kept, r);
        if q <= r {
          assert q in log;
          assert q in kept;
          assert IsSnapshotAt(kept, q);
        }
      }
      IntervalSize(Orphans(kept), lo, q);
    }
  }

  lemma {:induction false} BetweenLength(log: Log, after: int, upTo: int)
    requires after <= upTo
    ensures |Between(log, after, upTo)| <= upTo - after
    decreases upTo - after
  {
    if after == upTo {
    } else {
      BetweenLength(log, after, upTo - 1);
    }
  }

  /** The nearest snapshot exists and at most `patches` revisions follow it up to `r`. */
  ghost predicate RebuildsWithin(log: Log, r: int, patches: int) {
    Nearest(log, r).Some? && |Between(log, Nearest(log, r).value, r)| <= patches
  }

  /** Rebuilding any recorded revision applies at most `every` - 1 patches when history starts with a snapshot. */
  lemma WorkBound(log: Log, m: int, every: int, r: int)
    requires Cadenced(log, m, every) && 1 <= r <= m && log[1].isSnapshot
    ensures RebuildsWithin(log, r, every - 1)
  {
    assert IsSnapshotAt(log, 1);
    var q := NextMultiple(r - every + 1, every);
    var s := Nearest(log, r).value;
    if q >= 1 {
      assert IsSnapshotAt(log, q);
    }
    BetweenLength(log, s, r);
  }
}
