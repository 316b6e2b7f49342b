/** Re-lists after a restart, and updates delivered through more than one policy. */
module Relist {
  import opened Wrappers
  import opened Json
  import opened MergePatch
  import opened Store
  import opened Reconstruct
  import opened Recorder
  import opened History

  /** A row recording the change from `a` to `b`, in full or as the patch. */
  ghost predicate RowOfChange(row: Row, a: Doc, b: Doc) {
    if row.isSnapshot then Unpack(row.snapshot) == Text(Obj(b)) else row.patch == Text(Obj(Diff(a, b)))
  }

  lemma UpdateRowOfChange(cfg: Config, obj: Resource, last: Doc, revision: int, now: int, gzipWorks: bool)
    ensures var row := UpdateRow(cfg, obj, last, revision, now, gzipWorks);
      RowOfChange(row, last, cfg.Stripped(obj)) && (row.isSnapshot <==> revision % cfg.Every() == 0)
  {
    SnapshotReads(cfg, cfg.Stripped(obj), gzipWorks);
  }

  /** The change from `a` to `b` recorded as revision m+1 over a log, in full exactly at multiples of the interval. */
  ghost predicate ChangeRecorded(cfg: Config, log: Log, log': Log, m: int, a: Doc, b: Doc) {
    m + 1 in log' && log' == log[m + 1 := log'[m + 1]] && RowOfChange(log'[m + 1], a, b) &&
    (log'[m + 1].isSnapshot <==> (m + 1) % cfg.Every() == 0)
  }

  /** Rebuilding the revision that records a change over a document `x`. */
  lemma ChangeRebuilt(log: Log, m: int, x: Json, a: Doc, b: Doc)
    requires m + 1 in log && Rebuild(log, m) == Ok(Text(x)) && RowOfChange(log[m + 1], a, b)
    ensures Rebuild(log, m + 1) == Ok(Text(if log[m + 1].isSnapshot then Obj(b) else Patched(x, a, b)))
  {
    RebuildNext(log, m + 1);
  }

  lemma ChangeOnce(log: Log, m: int, a: Doc, b: Doc)
    requires m + 1 in log && Exact(Rebuild(log, m), a) && RowOfChange(log[m + 1], a, b)
    ensures Exact(Rebuild(log, m + 1), b) <==> log[m + 1].isSnapshot || NullsCarried(Obj(a), Obj(b))
  {
    ChangeRebuilt(log, m, Obj(a), a, b);
    RoundTrip(a, b);
  }

  /** A decision to write the change from `last` to the object as revision m+1 and count on from there. */
  predicate WritesChange(cfg: Config, e: Decision, obj: Resource, last: Doc, m: int, now: int, gzipWorks: bool) {
    e.Write? && e.uid == obj.uid && e.revision == m + 1 && e.row == UpdateRow(cfg, obj, last, m + 1, now, gzipWorks) &&
    e.after.SaveRecord? && e.after.record.currentRevision == m + 1
  }

  /** A call that adds the change from `a` to `b` as revision m+1 and moves the counter there. */
  ghost predicate Adds(cfg: Config, t: Tables, t': Tables, uid: string, m: int, a: Doc, b: Doc) {
    ChangeRecorded(cfg, t.LogOf(uid), t'.LogOf(uid), m, a, b) &&
    uid in t'.tracked && t'.tracked[uid].currentRevision == m + 1
  }

  lemma ChangeWritten(cfg: Config, t: Tables, e: Decision, obj: Resource, last: Doc, m: int, c: Conditions)
    requires WritesChange(cfg, e, obj, last, m, c.now, c.gzipWorks) && m + 1 !in t.LogOf(obj.uid)
    requires c.insert.Works? && c.finish.Works?
    ensures Adds(cfg, t, Perform(t, e, c), obj.uid, m, last, cfg.Stripped(obj))
  {
    RowWritten(t, e, c);
    UpdateRowOfChange(cfg, obj, last, m + 1, c.now, c.gzipWorks);
  }

  // ---------------------------------------------------------------- drift repair

  /** What is stored of a history, perhaps without its oldest revisions, tells the truth and ends with revision m. */
  ghost predicate Newest(log: Log, docs: map<int, Doc>, m: int) {
    Truthful(log, docs) && IsLatest(log, m) && m in docs
  }

  /** A re-list repairs drift exactly when there is none, or when the newest revision is a snapshot the counter
      points at and the new revision is a snapshot or introduces no null member. After a patch nothing is ever
      recorded. */
  lemma DriftRepairIff(cfg: Config, t: Tables, docs: map<int, Doc>, m: int, d: Delivery)
    requires d.ev.Add? && d.ev.initial && Enabled(cfg.updates)
    requires Newest(t.LogOf(d.ev.obj.uid), docs, m)
    requires d.ev.obj.uid in t.tracked && m - 1 <= t.tracked[d.ev.obj.uid].currentRevision <= m
    ensures var log, cur := t.LogOf(d.ev.obj.uid), t.tracked[d.ev.obj.uid].currentRevision;
      var listed := cfg.Stripped(d.ev.obj);
      var t' := Handled(cfg, t, d.ev, d.Conditions());
      var log' := t'.LogOf(d.ev.obj.uid);
      (!log[m].isSnapshot ==> t' == t) &&
      exists newest :: IsLatest(log', newest) &&
        (Exact(Rebuild(log', newest), listed) <==>
          Exact(Rebuild(log, m), listed) ||
          (log[m].isSnapshot && cur == m && ((m + 1) % cfg.Every() == 0 || NullsCarried(Obj(docs[m]), Obj(listed)))))
  {
    var uid := d.ev.obj.uid;
    var log, listed := t.LogOf(uid), cfg.Stripped(d.ev.obj);
    assert IsLatest(log, m) && RowTells(log, docs, m);
    RebuildNext(log, m);
    if !log[m].isSnapshot || docs[m] == listed || t.tracked[uid].currentRevision == m - 1 {
      DriftIgnored(cfg, t, docs, m, d);
    } else {
      DriftRecorded(cfg, t, docs, m, d);
      var log' := Handled(cfg, t, d.ev, d.Conditions()).LogOf(uid);
      DriftRebuilt(cfg, log, log', docs, m, listed);
    }
  }

  lemma LastStateOf(log: Log, docs: map<int, Doc>, m: int)
    requires Newest(log, docs, m)
    ensures LastState(Some(log[m])) == if log[m].isSnapshot then Some(docs[m]) else None
  {
    assert RowTells(log, docs, m);
  }

  /** What a re-list decides, given the newest document that can be read directly. */
  lemma RelistPlan(cfg: Config, obj: Resource, existing: Option<Record>, latest: Row, now: int, gzipWorks: bool)
    requires existing.Some? && Enabled(cfg.updates)
    ensures var last, e := LastState(Some(latest)), PlanAdd(cfg, obj, true, existing, Some(latest), now, gzipWorks);
      if last.None? || last.value == cfg.Stripped(obj) then e.Skip?
      else WritesChange(cfg, e, obj, last.value, existing.value.currentRevision, now, gzipWorks)
  {
  }

  lemma RelistDecided(cfg: Config, t: Tables, docs: map<int, Doc>, m: int, d: Delivery)
    requires d.ev.Add? && d.ev.initial && Newest(t.LogOf(d.ev.obj.uid), docs, m)
    ensures Decided(cfg, t, d.ev, d.Conditions()) ==
      PlanAdd(cfg, d.ev.obj, true, t.RecordOf(d.ev.obj.uid), Some(t.LogOf(d.ev.obj.uid)[m]), d.now, d.gzipWorks)
  {
    LastStateOf(t.LogOf(d.ev.obj.uid), docs, m);
    LatestRowIs(t, d.ev.obj.uid, m);
  }

  /** When a re-list records nothing. */
  lemma DriftIgnored(cfg: Config, t: Tables, docs: map<int, Doc>, m: int, d: Delivery)
    requires d.ev.Add? && d.ev.initial && Enabled(cfg.updates)
    requires Newest(t.LogOf(d.ev.obj.uid), docs, m)
    requires d.ev.obj.uid in t.tracked && m - 1 <= t.tracked[d.ev.obj.uid].currentRevision <= m
    requires !t.LogOf(d.ev.obj.uid)[m].isSnapshot || docs[m] == cfg.Stripped(d.ev.obj) ||
             t.tracked[d.ev.obj.uid].currentRevision == m - 1
    ensures Handled(cfg, t, d.ev, d.Conditions()) == t
  {
    var uid := d.ev.obj.uid;
    LastStateOf(t.LogOf(uid), docs, m);
    RelistDecided(cfg, t, docs, m, d);
    RelistPlan(cfg, d.ev.obj, t.RecordOf(uid), t.LogOf(uid)[m], d.now, d.gzipWorks);
    NothingWritten(t, Decided(cfg, t, d.ev, d.Conditions()), d.Conditions());
  }

  /** The revision a re-list adds. */
  lemma DriftRecorded(cfg: Config, t: Tables, docs: map<int, Doc>, m: int, d: Delivery)
    requires d.ev.Add? && d.ev.initial && Enabled(cfg.updates)
    requires Newest(t.LogOf(d.ev.obj.uid), docs, m)
    requires d.ev.obj.uid in t.tracked && t.tracked[d.ev.obj.uid].currentRevision == m
    requires t.LogOf(d.ev.obj.uid)[m].isSnapshot && docs[m] != cfg.Stripped(d.ev.obj)
    ensures Adds(cfg, t, Handled(cfg, t, d.ev, d.Conditions()), d.ev.obj.uid, m, docs[m], cfg.Stripped(d.ev.obj))
  {
    var uid, e := d.ev.obj.uid, Decided(cfg, t, d.ev, d.Conditions());
    LastStateOf(t.LogOf(uid), docs, m);
    RelistDecided(cfg, t, docs, m, d);
    RelistPlan(cfg, d.ev.obj, t.RecordOf(uid), t.LogOf(uid)[m], d.now, d.gzipWorks);
    ChangeWritten(cfg, t, e, d.ev.obj, docs[m], m, d.Conditions());
  }

  lemma DriftRebuilt(cfg: Config, log: Log, log': Log, docs: map<int, Doc>, m: int, listed: Doc)
    requires Newest(log, docs, m) && log[m].isSnapshot && ChangeRecorded(cfg, log, log', m, docs[m], listed)
    ensures IsLatest(log', m + 1)
    ensures Exact(Rebuild(log', m + 1), listed) <==>
      (m + 1) % cfg.Every() == 0 || NullsCarried(Obj(docs[m]), Obj(listed))
  {
    assert RowTells(log, docs, m);
    RebuildNext(log, m);
    RebuildStable(log, log', m);
    ChangeOnce(log', m, docs[m], listed);
  }

  // ---------------------------------------------------------------- duplicate delivery

  /** An update adds the change it delivers as the next revision. */
  lemma UpdateRecorded(cfg: Config, t: Tables, d: Delivery, m: int)
    requires d.ev.Update? && Enabled(cfg.updates) && cfg.Stripped(d.ev.before) != cfg.Stripped(d.ev.obj)
    requires d.ev.obj.uid in t.tracked && t.tracked[d.ev.obj.uid].currentRevision == m
    requires m + 1 !in t.LogOf(d.ev.obj.uid)
    ensures Adds(cfg, t, Handled(cfg, t, d.ev, d.Conditions()), d.ev.obj.uid, m, cfg.Stripped(d.ev.before),
                 cfg.Stripped(d.ev.obj))
  {
    var e := Decided(cfg, t, d.ev, d.Conditions());
    assert e == PlanUpdate(cfg, d.ev.before, d.ev.obj, t.RecordOf(d.ev.obj.uid), d.now, d.gzipWorks);
    ChangeWritten(cfg, t, e, d.ev.obj, cfg.Stripped(d.ev.before), m, d.Conditions());
  }

  /** What revision m rebuilds to: an object, or nothing, for want of a snapshot. */
  ghost predicate Base(log: Log, m: int, x: Option<Doc>) {
    match x
    case Some(doc) => Exact(Rebuild(log, m), doc)
    case None => Rebuild(log, m) == Err(NoSnapshot)
  }

  predicate EndsBy(log: Log, m: int) {
    forall r | r in log :: r <= m
  }

  /** Rebuilding a change recorded over whatever revision m rebuilds to. */
  lemma ChangeOverBase(log: Log, m: int, x: Option<Doc>, a: Doc, b: Doc)
    requires m + 1 in log && Base(log, m, x) && RowOfChange(log[m + 1], a, b)
    ensures Rebuild(log, m + 1) ==
      if log[m + 1].isSnapshot then Ok(Text(Obj(b)))
      else if x.None? then Err(NoSnapshot)
      else Ok(Text(Patched(Obj(x.value), a, b)))
  {
    if x.Some? {
      ChangeRebuilt(log, m, Obj(x.value), a, b);
    } else {
      RebuildNext(log, m + 1);
    }
  }

  /** The change from `a` to `b` was recorded as m+1 and again as m+2. Both rebuild alike when both are snapshots or
      both are patches; a patch after the snapshot exactly when the change introduces no null member; a snapshot
      after the patch exactly when the patch restores `b` from what revision m rebuilt to. */
  ghost predicate TwiceAlike(full1: bool, full2: bool, log2: Log, m: int, x: Option<Doc>, a: Doc, b: Doc) {
    m + 1 in log2 && m + 2 in log2 &&
    (Rebuild(log2, m + 1) == Rebuild(log2, m + 2) <==>
      if full1 == full2 then true
      else if full1 then NullsCarried(Obj(a), Obj(b))
      else x.Some? && MatchesWhereLeft(x.value, a, b))
  }

  lemma ChangeTwice(log: Log, m: int, x: Option<Doc>, a: Doc, b: Doc)
    requires m + 1 in log && m + 2 in log && Base(log, m, x)
    requires RowOfChange(log[m + 1], a, b) && RowOfChange(log[m + 2], a, b)
    ensures TwiceAlike(log[m + 1].isSnapshot, log[m + 2].isSnapshot, log, m, x, a, b)
  {
    ChangeOverBase(log, m, x, a, b);
    if log[m + 1].isSnapshot {
      ChangeOverBase(log, m + 1, Some(b), a, b);
      ReapplyToResult(a, b);
    } else if x.None? {
      ChangeOverBase(log, m + 1, None, a, b);
    } else {
      var once := Patched(Obj(x.value), a, b);
      ChangeOverBase(log, m + 1, Some(once.members), a, b);
      ApplyIdempotent(Obj(x.value), Obj(Diff(a, b)));
      ReachesIff(x.value, a, b);
    }
  }

  lemma LoggedTwice(cfg1: Config, cfg2: Config, log: Log, log1: Log, log2: Log, m: int, x: Option<Doc>, a: Doc, b: Doc)
    requires EndsBy(log, m) && Base(log, m, x)
    requires ChangeRecorded(cfg1, log, log1, m, a, b) && ChangeRecorded(cfg2, log1, log2, m + 1, a, b)
    ensures TwiceAlike((m + 1) % cfg1.Every() == 0, (m + 2) % cfg2.Every() == 0, log2, m, x, a, b)
  {
    assert log2[m + 1] == log1[m + 1];
    RebuildStable(log, log2, m);
    ChangeTwice(log2, m, x, a, b);
  }

  /** The second policy finds the first one's revision and counts on from it. */
  lemma SecondAdds(cfg1: Config, cfg2: Config, t: Tables, t1: Tables, m: int, d: Delivery)
    requires d.ev.Update? && Enabled(cfg2.updates) && cfg1.Stripped(d.ev.before) != cfg1.Stripped(d.ev.obj)
    requires cfg1.ignoreFields == cfg2.ignoreFields && cfg1.trackStatus == cfg2.trackStatus
    requires EndsBy(t.LogOf(d.ev.obj.uid), m)
    requires Adds(cfg1, t, t1, d.ev.obj.uid, m, cfg1.Stripped(d.ev.before), cfg1.Stripped(d.ev.obj))
    ensures Adds(cfg2, t1, Handled(cfg2, t1, d.ev, d.Conditions()), d.ev.obj.uid, m + 1, cfg1.Stripped(d.ev.before),
                 cfg1.Stripped(d.ev.obj))
  {
    assert m + 2 !in t1.LogOf(d.ev.obj.uid);
    UpdateRecorded(cfg2, t1, d, m + 1);
  }

  /** Two policies with the same field configuration record one update before the next event, over any stored
      history. */
  lemma DuplicateDelivery(cfg1: Config, cfg2: Config, t: Tables, m: int, x: Option<Doc>, d1: Delivery, d2: Delivery)
    requires d1.ev.Update? && d1.ev == d2.ev && Enabled(cfg1.updates) && Enabled(cfg2.updates)
    requires cfg1.ignoreFields == cfg2.ignoreFields && cfg1.trackStatus == cfg2.trackStatus
    requires cfg1.Stripped(d1.ev.before) != cfg1.Stripped(d1.ev.obj)
    requires EndsBy(t.LogOf(d1.ev.obj.uid), m) && Base(t.LogOf(d1.ev.obj.uid), m, x)
    requires d1.ev.obj.uid in t.tracked && t.tracked[d1.ev.obj.uid].currentRevision == m
    ensures var t2 := Handled(cfg2, Handled(cfg1, t, d1.ev, d1.Conditions()), d2.ev, d2.Conditions());
      TwiceAlike((m + 1) % cfg1.Every() == 0, (m + 2) % cfg2.Every() == 0, t2.LogOf(d1.ev.obj.uid), m, x,
                 cfg1.Stripped(d1.ev.before), cfg1.Stripped(d1.ev.obj))
  {
    var uid, t1 := d1.ev.obj.uid, Handled(cfg1, t, d1.ev, d1.Conditions());
    UpdateRecorded(cfg1, t, d1, m);
    SecondAdds(cfg1, cfg2, t, t1, m, d2);
    LoggedTwice(cfg1, cfg2, t.LogOf(uid), t1.LogOf(uid), Handled(cfg2, t1, d2.ev, d2.Conditions()).LogOf(uid), m, x,
                cfg1.Stripped(d1.ev.before), cfg1.Stripped(d1.ev.obj));
  }

  // ---------------------------------------------------------------- an update over any stored history

  /** Revision m+1 rebuilds to `b`, up to null members, exactly when it is a snapshot or what revision m rebuilt to
      agrees with `b` wherever the patch leaves it alone; and exactly to `b` when it is the same there and no null
      member is set elsewhere. */
  ghost predicate ReachesDelivered(full: bool, log2: Log, m: int, x: Option<Doc>, a: Doc, b: Doc) {
    (AgreesUpToNulls(Rebuild(log2, m + 1), b) <==> full || (x.Some? && AgreesWhereLeft(x.value, a, b))) &&
    (Exact(Rebuild(log2, m + 1), b) <==> full || (x.Some? && MatchesWhereLeft(x.value, a, b)))
  }

  lemma LoggedOnce(cfg: Config, log: Log, log2: Log, m: int, x: Option<Doc>, a: Doc, b: Doc)
    requires EndsBy(log, m) && Base(log, m, x) && ChangeRecorded(cfg, log, log2, m, a, b)
    ensures ReachesDelivered((m + 1) % cfg.Every() == 0, log2, m, x, a, b)
  {
    RebuildStable(log, log2, m);
    ChangeOverBase(log2, m, x, a, b);
    if x.Some? {
      ReachesUpToNullsIff(x.value, a, b);
      ReachesIff(x.value, a, b);
    }
  }

  /** When an update is recorded so that its revision rebuilds to the object it delivers: after a missed re-list, a lost
      event, a purge, or whatever else left the history as it is. */
  lemma UpdateReachesDelivered(cfg: Config, t: Tables, m: int, x: Option<Doc>, d: Delivery)
    requires d.ev.Update? && Enabled(cfg.updates) && cfg.Stripped(d.ev.before) != cfg.Stripped(d.ev.obj)
    requires d.ev.obj.uid in t.tracked && t.tracked[d.ev.obj.uid].currentRevision == m
    requires EndsBy(t.LogOf(d.ev.obj.uid), m) && Base(t.LogOf(d.ev.obj.uid), m, x)
    ensures var log2 := Handled(cfg, t, d.ev, d.Conditions()).LogOf(d.ev.obj.uid);
      ReachesDelivered((m + 1) % cfg.Every() == 0, log2, m, x, cfg.Stripped(d.ev.before), cfg.Stripped(d.ev.obj))
  {
    UpdateRecorded(cfg, t, d, m);
    LoggedOnce(cfg, t.LogOf(d.ev.obj.uid), Handled(cfg, t, d.ev, d.Conditions()).LogOf(d.ev.obj.uid), m, x,
               cfg.Stripped(d.ev.before), cfg.Stripped(d.ev.obj));
  }

  // ---------------------------------------------------------------- late delivery

  /** `late` is `newer` with the change from `a` to `b` made again: every location at which the two differ, at any
      depth, is back to what `b` has there, and so is every other that the patch does not leave alone. */
  ghost predicate PutBack(late: Json, newer: Json, a: Doc, b: Doc) {
    forall q: Path ::
      (NodeAt(Obj(a), q) != NodeAt(Obj(b), q) ==> NodeAt(late, q) == Imposed(NodeAt(Obj(b), q))) &&
      NodeAt(late, q) == if LeftAlone(Obj(Diff(a, b)), q) then NodeAt(newer, q) else Imposed(NodeAt(Obj(b), q))
  }

  lemma PatchedPutBack(newer: Json, a: Doc, b: Doc)
    ensures PutBack(Patched(newer, a, b), newer, a, b)
  {
    forall q: Path
      ensures NodeAt(Obj(a), q) != NodeAt(Obj(b), q) ==>
                NodeAt(Patched(newer, a, b), q) == Imposed(NodeAt(Obj(b), q))
      ensures NodeAt(Patched(newer, a, b), q) ==
                if LeftAlone(Obj(Diff(a, b)), q) then NodeAt(newer, q) else Imposed(NodeAt(Obj(b), q))
    {
      PatchedNode(newer, a, b, q);
      LeftAloneWhereSame(a, b, q);
    }
  }

  /** What the change from `a` to `b` does as revision m+1 over a document that may be newer than either: a snapshot is
      harmless exactly when `b` is the newest document, a patch exactly when that document already has everything the
      patch imposes. */
  ghost predicate Rewinds(cfg: Config, log2: Log, m: int, x: Doc, a: Doc, b: Doc) {
    if (m + 1) % cfg.Every() == 0 then
      Exact(Rebuild(log2, m + 1), b) && (Rebuild(log2, m + 1) == Rebuild(log2, m) <==> x == b)
    else
      (Rebuild(log2, m + 1) == Rebuild(log2, m) <==> Settled(Obj(x), Obj(Diff(a, b)))) &&
      exists late: Json :: Rebuild(log2, m + 1) == Ok(Text(late)) && PutBack(late, Obj(x), a, b)
  }

  lemma ChangeLate(cfg: Config, log: Log, log2: Log, m: int, x: Doc, a: Doc, b: Doc)
    requires EndsBy(log, m) && Exact(Rebuild(log, m), x) && ChangeRecorded(cfg, log, log2, m, a, b)
    ensures Rewinds(cfg, log2, m, x, a, b)
  {
    RebuildStable(log, log2, m);
    ChangeRebuilt(log2, m, Obj(x), a, b);
    SettledIff(Obj(x), Obj(Diff(a, b)));
    PatchedPutBack(Obj(x), a, b);
  }

  /** A policy records an update, whenever others have already recorded it and newer ones: exactly when that is
      harmless, and what it rewinds otherwise. */
  lemma LateDelivery(cfg: Config, t: Tables, m: int, d: Delivery, x: Doc)
    requires d.ev.Update? && Enabled(cfg.updates) && cfg.Stripped(d.ev.before) != cfg.Stripped(d.ev.obj)
    requires d.ev.obj.uid in t.tracked && t.tracked[d.ev.obj.uid].currentRevision == m
    requires EndsBy(t.LogOf(d.ev.obj.uid), m) && Exact(Rebuild(t.LogOf(d.ev.obj.uid), m), x)
    ensures Rewinds(cfg, Handled(cfg, t, d.ev, d.Conditions()).LogOf(d.ev.obj.uid), m, x, cfg.Stripped(d.ev.before),
                    cfg.Stripped(d.ev.obj))
  {
    UpdateRecorded(cfg, t, d, m);
    ChangeLate(cfg, t.LogOf(d.ev.obj.uid), Handled(cfg, t, d.ev, d.Conditions()).LogOf(d.ev.obj.uid), m, x,
               cfg.Stripped(d.ev.before), cfg.Stripped(d.ev.obj));
  }
}
