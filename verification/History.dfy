/** End to end: what the handlers recorded is what reconstruction returns. */
module History {
  import opened Wrappers
  import opened Json
  import opened MergePatch
  import opened Store
  import opened Reconstruct
  import opened Recorder
  import opened Retention

  // ---------------------------------------------------------------- logs that tell the truth

  /** The outcome is a document equal to `doc` once null members are dropped from both. */
  ghost predicate AgreesUpToNulls(res: Outcome, doc: Doc) {
    res.Ok? && res.value.Text? && Prune(res.value.json) == Prune(Obj(doc))
  }

  ghost predicate Exact(res: Outcome, doc: Doc) {
    res == Ok(Text(Obj(doc)))
  }

  /** No revision is missing between two stored ones. */
  ghost predicate Gapless(log: Log) {
    forall r, x, y :: r in log && y in log && r <= x <= y ==> x in log
  }

  /** Revision `r` records `docs[r]`: in full, or as the diff from the document of the revision before, if that is
      stored. */
  ghost predicate RowTells(log: Log, docs: map<int, Doc>, r: int)
    requires r in log
  {
    r in docs &&
    if log[r].isSnapshot then Unpack(log[r].snapshot) == Text(Obj(docs[r]))
    else r - 1 in log ==> r - 1 in docs && log[r].patch == Text(Obj(Diff(docs[r - 1], docs[r])))
  }

  ghost predicate Truthful(log: Log, docs: map<int, Doc>) {
    Gapless(log) && forall r {:trigger RowTells(log, docs, r)} :: r in log ==> RowTells(log, docs, r)
  }

  /** The patch recorded as revision `r` introduces no null member. */
  ghost predicate CarriesNulls(log: Log, docs: map<int, Doc>, r: int) {
    r in log && r - 1 in log && !log[r].isSnapshot ==>
      r in docs && r - 1 in docs && NullsCarried(Obj(docs[r - 1]), Obj(docs[r]))
  }

  ghost predicate NoNewNulls(log: Log, docs: map<int, Doc>) {
    forall r {:trigger CarriesNulls(log, docs, r)} :: r in log ==> CarriesNulls(log, docs, r)
  }

  /** A patch row rebuilds from the revision before it. */
  lemma RebuildPatchRow(log: Log, docs: map<int, Doc>, r: int)
    requires Truthful(log, docs) && r in log && r - 1 in log && !log[r].isSnapshot
    requires Rebuild(log, r - 1).Ok? && Rebuild(log, r - 1).value.Text?
    ensures r in docs && r - 1 in docs
    ensures Rebuild(log, r) == Ok(Text(Patched(Rebuild(log, r - 1).value.json, docs[r - 1], docs[r])))
  {
    RebuildNext(log, r);
    assert RowTells(log, docs, r);
  }

  lemma {:induction false} RebuildFrom(log: Log, docs: map<int, Doc>, s: int, r: int)
    requires Truthful(log, docs) && IsNearest(log, r, s) && r in log
    ensures r in docs && AgreesUpToNulls(Rebuild(log, r), docs[r])
    ensures NoNewNulls(log, docs) ==> Exact(Rebuild(log, r), docs[r])
    decreases r - s
  {
    assert RowTells(log, docs, r);
    if r == s {
      RebuildNext(log, r);
    } else {
      assert r - 1 in log;
      assert !log[r].isSnapshot && IsNearest(log, r - 1, s);
      RebuildFrom(log, docs, s, r - 1);
      RebuildPatchRow(log, docs, r);
      ApplyUpToNulls(Rebuild(log, r - 1).value.json, Obj(docs[r - 1]), Obj(Diff(docs[r - 1], docs[r])));
      RoundTripUpToNulls(docs[r - 1], docs[r]);
      if NoNewNulls(log, docs) {
        assert CarriesNulls(log, docs, r);
        RoundTrip(docs[r - 1], docs[r]);
      }
    }
  }

  /** In a truthful log every stored revision rebuilds to its document, up to null members, or has no snapshot; exactly,
      when no stored patch introduces a null member. */
  lemma TruthfulRebuild(log: Log, docs: map<int, Doc>, r: int)
    requires Truthful(log, docs) && r in log
    ensures r in docs
    ensures Rebuild(log, r) == Err(NoSnapshot) || AgreesUpToNulls(Rebuild(log, r), docs[r])
    ensures NoNewNulls(log, docs) ==> Rebuild(log, r) == Err(NoSnapshot) || Exact(Rebuild(log, r), docs[r])
  {
    assert RowTells(log, docs, r);
    if Nearest(log, r).Some? {
      RebuildFrom(log, docs, Nearest(log, r).value, r);
    }
  }

  /** The location is null in every document from `s` to `r`. */
  ghost predicate NullThroughout(docs: map<int, Doc>, s: int, r: int, q: Path) {
    forall j | s <= j <= r :: j in docs && NodeAt(Obj(docs[j]), q) == Leaf(Null)
  }

  /** What a revision rebuilds to, location by location: its document, without the null members that were not null ever
      since the snapshot. */
  lemma {:induction false} RebuiltNode(log: Log, docs: map<int, Doc>, s: int, r: int, q: Path)
    requires Truthful(log, docs) && IsNearest(log, r, s) && r in log
    ensures r in docs && Rebuild(log, r).Ok? && Rebuild(log, r).value.Text?
    ensures NodeAt(Rebuild(log, r).value.json, q) ==
      if NodeAt(Obj(docs[r]), q) == Leaf(Null) && !NullThroughout(docs, s, r, q) then Absent
      else NodeAt(Obj(docs[r]), q)
    decreases r - s
  {
    assert RowTells(log, docs, r);
    if r == s {
      RebuildNext(log, r);
    } else {
      assert r - 1 in log;
      assert !log[r].isSnapshot && IsNearest(log, r - 1, s);
      RebuiltNode(log, docs, s, r - 1, q);
      RebuildPatchRow(log, docs, r);
      PatchedNode(Rebuild(log, r - 1).value.json, docs[r - 1], docs[r], q);
      LeftAloneWhereSame(docs[r - 1], docs[r], q);
      NullThroughoutMore(docs, s, r, q);
    }
  }

  lemma NullThroughoutMore(docs: map<int, Doc>, s: int, r: int, q: Path)
    requires s < r && r in docs
    ensures NullThroughout(docs, s, r, q) <==>
      NullThroughout(docs, s, r - 1, q) && NodeAt(Obj(docs[r]), q) == Leaf(Null)
    ensures NullThroughout(docs, s, r - 1, q) ==> r - 1 in docs && NodeAt(Obj(docs[r - 1]), q) == Leaf(Null)
  {
  }

  /** Every null member of the revision's document has been null ever since the snapshot it is rebuilt from. */
  ghost predicate NullsKept(log: Log, docs: map<int, Doc>, r: int) {
    Nearest(log, r).Some? && r in docs &&
    forall j | Nearest(log, r).value <= j <= r :: j in docs && NullsCarried(Obj(docs[j]), Obj(docs[r]))
  }

  /** A revision with a snapshot before it rebuilds exactly if and only if its null members have been null since
      then. */
  lemma RevisionExactIff(log: Log, docs: map<int, Doc>, r: int)
    requires Truthful(log, docs) && r in log && Nearest(log, r).Some?
    ensures r in docs && (Exact(Rebuild(log, r), docs[r]) <==> NullsKept(log, docs, r))
  {
    var s := Nearest(log, r).value;
    RebuiltNode(log, docs, s, r, []);
    var rebuilt := Rebuild(log, r).value.json;
    forall q: Path
      ensures NodeAt(rebuilt, q) ==
        if NodeAt(Obj(docs[r]), q) == Leaf(Null) && !NullThroughout(docs, s, r, q) then Absent
        else NodeAt(Obj(docs[r]), q)
    {
      RebuiltNode(log, docs, s, r, q);
    }
    DocumentsSince(log, docs, s, r);
    NullsKeptIff(docs, s, r);
    if forall q: Path :: NodeAt(rebuilt, q) == NodeAt(Obj(docs[r]), q) {
      SameNodesSameDocument(rebuilt, Obj(docs[r]));
    }
  }

  lemma DocumentsSince(log: Log, docs: map<int, Doc>, s: int, r: int)
    requires Truthful(log, docs) && s in log && r in log
    ensures forall j | s <= j <= r :: j in docs
  {
    forall j | s <= j <= r
      ensures j in docs
    {
      assert j in log;
      assert RowTells(log, docs, j);
    }
  }

  lemma NullsKeptIff(docs: map<int, Doc>, s: int, r: int)
    requires s <= r && forall j | s <= j <= r :: j in docs
    ensures (forall j | s <= j <= r :: NullsCarried(Obj(docs[j]), Obj(docs[r]))) <==>
      forall q: Path :: NodeAt(Obj(docs[r]), q) == Leaf(Null) ==> NullThroughout(docs, s, r, q)
  {
    if forall j | s <= j <= r :: NullsCarried(Obj(docs[j]), Obj(docs[r])) {
      forall q: Path, j | NodeAt(Obj(docs[r]), q) == Leaf(Null) && s <= j <= r
        ensures NodeAt(Obj(docs[j]), q) == Leaf(Null)
      {
        assert NullsCarried(Obj(docs[j]), Obj(docs[r])) && At(Obj(docs[r]), q) == Some(Null);
      }
    }
    if forall q: Path :: NodeAt(Obj(docs[r]), q) == Leaf(Null) ==> NullThroughout(docs, s, r, q) {
      forall j, q: Path | s <= j <= r && q != [] && At(Obj(docs[r]), q) == Some(Null)
        ensures At(Obj(docs[j]), q) == Some(Null)
      {
        assert NodeAt(Obj(docs[r]), q) == Leaf(Null);
        assert NodeAt(Obj(docs[j]), q) == Leaf(Null);
      }
    }
  }

  /** Removing the oldest revisions keeps a log truthful. */
  lemma SuffixTruthful(kept: Log, log: Log, docs: map<int, Doc>)
    requires Truthful(log, docs) && SuffixOf(kept, log)
    ensures Truthful(kept, docs)
  {
    forall r | r in kept
      ensures RowTells(kept, docs, r)
    {
      assert RowTells(log, docs, r);
    }
  }

  // ---------------------------------------------------------------- complete histories

  /** Revisions 1..m, the first one in full. */
  ghost predicate Faithful(log: Log, docs: map<int, Doc>, m: int) {
    1 <= m && (forall r :: r in log <==> 1 <= r <= m) && (forall r :: r in docs <==> 1 <= r <= m) &&
    log[1].isSnapshot && Truthful(log, docs)
  }

  ghost predicate AllExact(log: Log, docs: map<int, Doc>) {
    forall r :: r in log ==> r in docs && Exact(Rebuild(log, r), docs[r])
  }

  /** Revision 1 exists, every recorded revision rebuilds to its document up to null members, each exactly if and
      only if its null members have been null since its snapshot, and all exactly if and only if no recorded patch
      introduces a null. */
  ghost predicate Sound(log: Log, docs: map<int, Doc>) {
    1 in log && (forall r :: r in log <==> r in docs) &&
    (forall r :: r in log ==> AgreesUpToNulls(Rebuild(log, r), docs[r])) &&
    (forall r :: r in log ==> (Exact(Rebuild(log, r), docs[r]) <==> NullsKept(log, docs, r))) &&
    (AllExact(log, docs) <==> NoNewNulls(log, docs))
  }

  /** Every revision of a complete history rebuilds to its document, up to null members, whatever the documents hold. */
  lemma RebuildUpToNulls(log: Log, docs: map<int, Doc>, m: int, r: int)
    requires Faithful(log, docs, m) && 1 <= r <= m
    ensures AgreesUpToNulls(Rebuild(log, r), docs[r])
    ensures NoNewNulls(log, docs) ==> Exact(Rebuild(log, r), docs[r])
  {
    assert IsSnapshotAt(log, 1);
    RebuildFrom(log, docs, Nearest(log, r).value, r);
  }

  /** All revisions rebuild exactly if and only if no recorded patch introduces a null member. */
  lemma RebuildExactIff(log: Log, docs: map<int, Doc>, m: int)
    requires Faithful(log, docs, m)
    ensures AllExact(log, docs) <==> NoNewNulls(log, docs)
  {
    if NoNewNulls(log, docs) {
      forall r | r in log
        ensures r in docs && Exact(Rebuild(log, r), docs[r])
      {
        RebuildUpToNulls(log, docs, m, r);
      }
    }
    if AllExact(log, docs) {
      forall r | r in log && r - 1 in log && !log[r].isSnapshot
        ensures CarriesNulls(log, docs, r)
      {
        assert Exact(Rebuild(log, r), docs[r]) && Exact(Rebuild(log, r - 1), docs[r - 1]);
        RebuildPatchRow(log, docs, r);
        RoundTrip(docs[r - 1], docs[r]);
      }
    }
  }

  lemma FaithfulIsSound(log: Log, docs: map<int, Doc>, m: int)
    requires Faithful(log, docs, m)
    ensures Sound(log, docs)
  {
    forall r | r in log
      ensures AgreesUpToNulls(Rebuild(log, r), docs[r])
      ensures Exact(Rebuild(log, r), docs[r]) <==> NullsKept(log, docs, r)
    {
      RebuildUpToNulls(log, docs, m, r);
      assert IsSnapshotAt(log, 1);
      RevisionExactIff(log, docs, r);
    }
    RebuildExactIff(log, docs, m);
  }

  // ---------------------------------------------------------------- runs

  /** An event with the clock and the compressor's luck at that moment. The store answers and accepts writes. */
  datatype Delivery = Delivery(ev: Event, now: int, gzipWorks: bool) {
    function Conditions(): Conditions {
      Recorder.Conditions(now, gzipWorks, false, false, Works, Works)
    }
  }

  /** A step of a run: an event of any object, or the controller's purge by age. */
  datatype Action = Arrive(d: Delivery) | Expire(olderThan: int)

  /** The tables and, by resource and revision, the event that produced each revision. */
  datatype Recording = Recording(tables: Tables, sources: map<string, map<int, Event>>) {
    function SourcesOf(uid: string): map<int, Event> {
      if uid in sources then sources[uid] else map[]
    }
  }

  const EMPTY_RECORDING := Recording(Tables(map[], map[]), map[])

  /** The stripped objects of the events that produced a resource's revisions. */
  function Docs(cfg: Config, h: Recording, uid: string): map<int, Doc> {
    map r | r in h.SourcesOf(uid) :: cfg.Stripped(h.SourcesOf(uid)[r].obj)
  }

  /** The recording after the handler of `d` carries out its decision. */
  function CarryOut(h: Recording, e: Decision, d: Delivery): Recording {
    Recording(Perform(h.tables, e, d.Conditions()),
              if Accepted(h.tables, e, Works)
              then h.sources[d.ev.obj.uid := h.SourcesOf(d.ev.obj.uid)[e.revision := d.ev]] else h.sources)
  }

  ghost function Deliver(cfg: Config, h: Recording, d: Delivery): Recording {
    CarryOut(h, Decided(cfg, h.tables, d.ev, d.Conditions()), d)
  }

  ghost function Act(cfg: Config, h: Recording, a: Action): Recording {
    match a
    case Arrive(d) => Deliver(cfg, h, d)
    case Expire(olderThan) => h.(tables := h.tables.Expire(olderThan))
  }

  ghost function Run(cfg: Config, actions: seq<Action>): Recording
    decreases |actions|
  {
    if actions == [] then EMPTY_RECORDING else Act(cfg, Run(cfg, actions[..|actions| - 1]), actions[|actions| - 1])
  }

  predicate Concerns(a: Action, uid: string) {
    a.Arrive? && a.d.ev.obj.uid == uid
  }

  /** The last event of an object. */
  function LastOf(actions: seq<Action>, uid: string): Option<Event>
    decreases |actions|
  {
    if actions == [] then None
    else if Concerns(actions[|actions| - 1], uid) then Some(actions[|actions| - 1].d.ev)
    else LastOf(actions[..|actions| - 1], uid)
  }

  /** The first event of an object. */
  function FirstOf(actions: seq<Action>, uid: string): Option<Event>
    decreases |actions|
  {
    if actions == [] then None
    else
      var first := FirstOf(actions[..|actions| - 1], uid);
      if first.None? && Concerns(actions[|actions| - 1], uid) then Some(actions[|actions| - 1].d.ev) else first
  }

  /** The counter points at the newest revision, so that the next event can extend the log. */
  ghost predicate Extensible(h: Recording, uid: string) {
    Current(h.tables, uid) in h.tables.LogOf(uid) && Current(h.tables, uid) + 1 !in h.tables.LogOf(uid)
  }

  /** A re-list is clean when it finds no drift or a snapshot that the counter points at, or can record nothing
      anyway. */
  ghost predicate CleanRelist(cfg: Config, h: Recording, obj: Resource) {
    Extensible(h, obj.uid) ==>
      var m := Current(h.tables, obj.uid);
      h.tables.LogOf(obj.uid)[m].isSnapshot ||
      (m in Docs(cfg, h, obj.uid) && Docs(cfg, h, obj.uid)[m] == cfg.Stripped(obj))
  }

  /** How an event may follow the events of its object so far: an update starts from the object delivered before,
      nothing follows an unrecorded deletion, further adds are recorded, re-lists are clean. The first event may be
      any. */
  ghost predicate Follows(cfg: Config, h: Recording, previous: Option<Event>, ev: Event) {
    previous.Some? ==>
      (ev.Update? ==> ev.before == previous.value.obj) &&
      (previous.value.Delete? ==> Enabled(cfg.deletions)) &&
      (ev.Add? && !(ev.initial && ev.obj.uid in h.tables.tracked) ==> Enabled(cfg.creations)) &&
      (ev.Add? && ev.initial && ev.obj.uid in h.tables.tracked ==> CleanRelist(cfg, h, ev.obj))
  }

  ghost predicate FollowsAt(cfg: Config, actions: seq<Action>, i: nat)
    requires i < |actions|
  {
    actions[i].Arrive? ==>
      var before, ev := actions[..i], actions[i].d.ev;
      Follows(cfg, Run(cfg, before), LastOf(before, ev.obj.uid), ev)
  }

  ghost predicate WellFormed(cfg: Config, actions: seq<Action>) {
    forall i | 0 <= i < |actions| :: FollowsAt(cfg, actions, i)
  }

  predicate NoPurges(actions: seq<Action>) {
    forall i :: 0 <= i < |actions| ==> actions[i].Arrive?
  }

  predicate ClockRuns(actions: seq<Action>) {
    forall i, j :: 0 <= i <= j < |actions| && actions[i].Arrive? && actions[j].Arrive? ==>
      actions[i].d.now <= actions[j].d.now
  }

  lemma Prefix(cfg: Config, actions: seq<Action>)
    requires actions != [] && WellFormed(cfg, actions)
    ensures WellFormed(cfg, actions[..|actions| - 1])
    ensures actions[|actions| - 1].Arrive? ==>
      var front, ev := actions[..|actions| - 1], actions[|actions| - 1].d.ev;
      Follows(cfg, Run(cfg, front), LastOf(front, ev.obj.uid), ev)
    ensures ClockRuns(actions) ==> ClockRuns(actions[..|actions| - 1])
    ensures NoPurges(actions) ==> NoPurges(actions[..|actions| - 1])
  {
    var front := actions[..|actions| - 1];
    assert FollowsAt(cfg, actions, |front|);
    forall i | 0 <= i < |front|
      ensures FollowsAt(cfg, front, i)
    {
      assert FollowsAt(cfg, actions, i) && front[i] == actions[i] && front[..i] == actions[..i];
    }
    assert forall i | 0 <= i < |front| :: front[i] == actions[i];
  }

  // ---------------------------------------------------------------- what every step keeps

  /** The stored part of a history is truthful, the counter points at its end or one before it, and where a further
      patch can build on it the newest document is the object delivered last. */
  ghost predicate Steady(cfg: Config, log: Log, docs: map<int, Doc>, cur: int, last: Option<Event>) {
    Truthful(log, docs) &&
    0 <= cur && (forall r :: r in log ==> 1 <= r <= cur + 1 && RightKind(cfg, log[r], r)) &&
    (log != map[] ==> last.Some? && (cur in log || cur + 1 in log)) &&
    (cur in log && cur + 1 !in log && Enabled(cfg.updates) && (last.value.Delete? ==> Enabled(cfg.deletions)) ==>
      cur in docs && docs[cur] == cfg.Stripped(last.value.obj))
  }

  ghost predicate InStep(cfg: Config, h: Recording, uid: string, last: Option<Event>) {
    Steady(cfg, h.tables.LogOf(uid), Docs(cfg, h, uid), Current(h.tables, uid), last)
  }

  /** A row is a snapshot unless it records a change under a number that is no multiple of the interval. */
  predicate RightKind(cfg: Config, row: Row, r: int) {
    row.isSnapshot <==> !row.event.Updated? || r % cfg.Every() == 0
  }

  lemma SnapshotReads(cfg: Config, doc: Doc, gzipWorks: bool)
    ensures Unpack(SnapshotOf(cfg, doc, gzipWorks)) == Text(Obj(doc))
  {
  }

  lemma CarriedOutElsewhere(h: Recording, e: Decision, d: Delivery, uid: string)
    requires d.ev.obj.uid != uid && (e.Write? ==> e.uid != uid)
    ensures var h' := CarryOut(h, e, d);
      h'.tables.LogOf(uid) == h.tables.LogOf(uid) && h'.tables.RecordOf(uid) == h.tables.RecordOf(uid) &&
      h'.SourcesOf(uid) == h.SourcesOf(uid)
  {
  }

  /** Events of other objects leave a resource alone. */
  lemma OtherUntouched(cfg: Config, h: Recording, d: Delivery, uid: string)
    requires d.ev.obj.uid != uid
    ensures var h' := Deliver(cfg, h, d);
      h'.tables.LogOf(uid) == h.tables.LogOf(uid) && h'.tables.RecordOf(uid) == h.tables.RecordOf(uid) &&
      h'.SourcesOf(uid) == h.SourcesOf(uid)
  {
    PlanShape(cfg, d.ev, ReadRecord(h.tables, d.ev.obj.uid, false), LatestRow(h.tables, d.ev.obj.uid, false),
              d.now, d.gzipWorks);
    CarriedOutElsewhere(h, Decided(cfg, h.tables, d.ev, d.Conditions()), d, uid);
  }

  /** A re-list that can still extend the log compares with the newest document or with nothing. */
  lemma RelistReads(cfg: Config, h: Recording, uid: string, previous: Option<Event>)
    requires InStep(cfg, h, uid, previous) && Extensible(h, uid)
    ensures Current(h.tables, uid) in Docs(cfg, h, uid)
    ensures var cur := Current(h.tables, uid);
      LastState(LatestRow(h.tables, uid, false)) ==
        if h.tables.LogOf(uid)[cur].isSnapshot then Some(Docs(cfg, h, uid)[cur]) else None
  {
    var cur, log := Current(h.tables, uid), h.tables.LogOf(uid);
    assert IsLatest(log, cur) && RowTells(log, Docs(cfg, h, uid), cur);
    LatestRowIs(h.tables, uid, cur);
  }

  /** The events that can be recorded as a patch. */
  predicate Patches(cfg: Config, ev: Event) {
    Enabled(cfg.updates) && (ev.Update? || (ev.Add? && ev.initial))
  }

  /** What a decision records over a resource's history. */
  lemma DecisionRecords(cfg: Config, h: Recording, d: Delivery, previous: Option<Event>)
    requires InStep(cfg, h, d.ev.obj.uid, previous) && Follows(cfg, h, previous, d.ev)
    requires Decided(cfg, h.tables, d.ev, d.Conditions()).Write?
    requires Current(h.tables, d.ev.obj.uid) + 1 !in h.tables.LogOf(d.ev.obj.uid)
    ensures var e, uid := Decided(cfg, h.tables, d.ev, d.Conditions()), d.ev.obj.uid;
      var cur, log := Current(h.tables, uid), h.tables.LogOf(uid);
      e.uid == uid && e.revision == cur + 1 && e.row.timestamp == d.now && RightKind(cfg, e.row, cur + 1) &&
      (!e.row.isSnapshot ==> Patches(cfg, d.ev)) &&
      (e.after.SaveRecord? ==> e.after.record.currentRevision == cur + 1) &&
      (if e.row.isSnapshot then Unpack(e.row.snapshot) == Text(Obj(cfg.Stripped(d.ev.obj)))
       else cur in log ==> e.row.patch == Text(Obj(Diff(Docs(cfg, h, uid)[cur], cfg.Stripped(d.ev.obj)))))
  {
    var uid := d.ev.obj.uid;
    SnapshotReads(cfg, cfg.Stripped(d.ev.obj), d.gzipWorks);
    if d.ev.Add? && d.ev.initial && uid in h.tables.tracked && h.tables.LogOf(uid) != map[] {
      RelistReads(cfg, h, uid, previous);
    }
  }

  /** One more revision on top of a truthful log. */
  lemma ExtendedTruthful(log: Log, docs: map<int, Doc>, cur: int, row: Row, doc: Doc)
    requires Truthful(log, docs) && cur + 1 !in log && (log != map[] ==> cur in log)
    requires forall r :: r in log ==> r <= cur
    requires if row.isSnapshot then Unpack(row.snapshot) == Text(Obj(doc))
             else cur in log ==> cur in docs && row.patch == Text(Obj(Diff(docs[cur], doc)))
    ensures Truthful(log[cur + 1 := row], docs[cur + 1 := doc])
  {
    var log', docs' := log[cur + 1 := row], docs[cur + 1 := doc];
    forall r | r in log'
      ensures RowTells(log', docs', r)
    {
      if r in log {
        assert RowTells(log, docs, r);
      }
    }
  }

  /** An event whose decision is to write under a free number. */
  ghost predicate Records(cfg: Config, h: Recording, d: Delivery) {
    Decided(cfg, h.tables, d.ev, d.Conditions()).Write? &&
    Current(h.tables, d.ev.obj.uid) + 1 !in h.tables.LogOf(d.ev.obj.uid)
  }

  /** Otherwise nothing changes. */
  lemma NothingRecorded(cfg: Config, h: Recording, d: Delivery)
    requires !Records(cfg, h, d)
    ensures Deliver(cfg, h, d) == h
  {
    var uid := d.ev.obj.uid;
    PlanShape(cfg, d.ev, ReadRecord(h.tables, uid, false), LatestRow(h.tables, uid, false), d.now, d.gzipWorks);
    NothingWritten(h.tables, Decided(cfg, h.tables, d.ev, d.Conditions()), d.Conditions());
  }

  /** A recorded event adds one row and one document; all but a deletion move the counter on. */
  lemma RecordedState(cfg: Config, h: Recording, e: Decision, d: Delivery)
    requires Accepted(h.tables, e, Works) && e.uid == d.ev.obj.uid
    ensures var h', uid := CarryOut(h, e, d), d.ev.obj.uid;
      h'.tables.LogOf(uid) == h.tables.LogOf(uid)[e.revision := e.row] &&
      h'.SourcesOf(uid) == h.SourcesOf(uid)[e.revision := d.ev] &&
      Docs(cfg, h', uid) == Docs(cfg, h, uid)[e.revision := cfg.Stripped(d.ev.obj)] &&
      Current(h'.tables, uid) ==
        if e.after.SaveRecord? then e.after.record.currentRevision else Current(h.tables, uid)
  {
    RowWritten(h.tables, e, d.Conditions());
  }

  /** The recording grown by one revision of the event's object: a row that tells what was delivered. */
  ghost predicate Grown(cfg: Config, h: Recording, h': Recording, d: Delivery, row: Row) {
    var uid, doc := d.ev.obj.uid, cfg.Stripped(d.ev.obj);
    var cur, log := Current(h.tables, uid), h.tables.LogOf(uid);
    cur + 1 !in log && h'.tables.LogOf(uid) == log[cur + 1 := row] &&
    h'.SourcesOf(uid) == h.SourcesOf(uid)[cur + 1 := d.ev] &&
    Docs(cfg, h', uid) == Docs(cfg, h, uid)[cur + 1 := doc] &&
    cur <= Current(h'.tables, uid) <= cur + 1 &&
    row.timestamp == d.now && RightKind(cfg, row, cur + 1) && (!row.isSnapshot ==> Patches(cfg, d.ev)) &&
    (if row.isSnapshot then Unpack(row.snapshot) == Text(Obj(doc))
     else cur in log ==>
       cur in Docs(cfg, h, uid) && row.patch == Text(Obj(Diff(Docs(cfg, h, uid)[cur], doc))))
  }

  lemma RecordingGrows(cfg: Config, h: Recording, d: Delivery, previous: Option<Event>) returns (row: Row)
    requires InStep(cfg, h, d.ev.obj.uid, previous) && Follows(cfg, h, previous, d.ev)
    requires Records(cfg, h, d)
    ensures Grown(cfg, h, Deliver(cfg, h, d), d, row)
  {
    var e := Decided(cfg, h.tables, d.ev, d.Conditions());
    row := e.row;
    DecisionRecords(cfg, h, d, previous);
    RecordedState(cfg, h, e, d);
  }

  lemma SteadyGrown(cfg: Config, log: Log, docs: map<int, Doc>, cur: int, cur': int, row: Row, ev: Event,
                    previous: Option<Event>)
    requires Steady(cfg, log, docs, cur, previous) && cur + 1 !in log && cur <= cur' <= cur + 1
    requires RightKind(cfg, row, cur + 1)
    requires if row.isSnapshot then Unpack(row.snapshot) == Text(Obj(cfg.Stripped(ev.obj)))
             else cur in log ==> cur in docs && row.patch == Text(Obj(Diff(docs[cur], cfg.Stripped(ev.obj))))
    ensures Steady(cfg, log[cur + 1 := row], docs[cur + 1 := cfg.Stripped(ev.obj)], cur', Some(ev))
  {
    ExtendedTruthful(log, docs, cur, row, cfg.Stripped(ev.obj));
  }

  lemma GrownInStep(cfg: Config, h: Recording, h': Recording, d: Delivery, row: Row, previous: Option<Event>)
    requires InStep(cfg, h, d.ev.obj.uid, previous) && Grown(cfg, h, h', d, row)
    ensures InStep(cfg, h', d.ev.obj.uid, Some(d.ev))
  {
    var uid := d.ev.obj.uid;
    SteadyGrown(cfg, h.tables.LogOf(uid), Docs(cfg, h, uid), Current(h.tables, uid), Current(h'.tables, uid), row, d.ev,
                previous);
  }

  /** Where an event that could extend the log is not recorded, the newest document is the object it delivers. */
  lemma SkippedInStep(cfg: Config, h: Recording, d: Delivery, previous: Option<Event>)
    requires InStep(cfg, h, d.ev.obj.uid, previous) && Follows(cfg, h, previous, d.ev)
    requires !Records(cfg, h, d) && Extensible(h, d.ev.obj.uid) && Enabled(cfg.updates)
    requires d.ev.Delete? ==> Enabled(cfg.deletions)
    ensures Current(h.tables, d.ev.obj.uid) in Docs(cfg, h, d.ev.obj.uid)
    ensures Docs(cfg, h, d.ev.obj.uid)[Current(h.tables, d.ev.obj.uid)] == cfg.Stripped(d.ev.obj)
  {
    RelistReads(cfg, h, d.ev.obj.uid, previous);
  }

  /** An event of the resource keeps it in step. */
  lemma DeliveryInStep(cfg: Config, h: Recording, d: Delivery, previous: Option<Event>)
    requires InStep(cfg, h, d.ev.obj.uid, previous) && Follows(cfg, h, previous, d.ev)
    ensures InStep(cfg, Deliver(cfg, h, d), d.ev.obj.uid, Some(d.ev))
  {
    var uid := d.ev.obj.uid;
    if Records(cfg, h, d) {
      var row := RecordingGrows(cfg, h, d, previous);
      GrownInStep(cfg, h, Deliver(cfg, h, d), d, row, previous);
    } else {
      NothingRecorded(cfg, h, d);
      if Extensible(h, uid) && Enabled(cfg.updates) && (d.ev.Delete? ==> Enabled(cfg.deletions)) {
        SkippedInStep(cfg, h, d, previous);
      }
    }
  }

  /** Timestamps follow the numbering and none is later than `now`. */
  ghost predicate Timely(log: Log, now: int) {
    (forall r :: r in log ==> log[r].timestamp <= now) &&
    forall r, x :: r in log && x in log && r <= x ==> log[r].timestamp <= log[x].timestamp
  }

  lemma ExpireIsSuffix(log: Log, olderThan: int, now: int)
    requires Timely(log, now)
    ensures SuffixOf(PurgeOld(log, olderThan), log) && Timely(PurgeOld(log, olderThan), now)
  {
  }

  /** Removing the oldest revisions keeps a history steady. */
  lemma SteadySuffix(cfg: Config, kept: Log, log: Log, docs: map<int, Doc>, cur: int, last: Option<Event>)
    requires Steady(cfg, log, docs, cur, last) && SuffixOf(kept, log)
    ensures Steady(cfg, kept, docs, cur, last)
  {
    SuffixTruthful(kept, log, docs);
    if kept != map[] {
      var r := Pick(kept.Keys);
      assert r in kept && r in log;
    }
  }

  lemma ExpiredLog(t: Tables, olderThan: int, uid: string)
    ensures t.Expire(olderThan).LogOf(uid) == PurgeOld(t.LogOf(uid), olderThan)
    ensures t.Expire(olderThan).RecordOf(uid) == t.RecordOf(uid)
  {
  }

  /** Either no purge runs between the events, or their clock does not go back. */
  predicate Orderly(actions: seq<Action>, now: int) {
    NoPurges(actions) || (ClockRuns(actions) && UpTo(actions, now))
  }

  predicate UpTo(actions: seq<Action>, now: int) {
    forall i :: 0 <= i < |actions| && actions[i].Arrive? ==> actions[i].d.now <= now
  }

  /** The time by which everything before the last action has happened. */
  function Before(actions: seq<Action>, now: int): int
    requires actions != []
  {
    var a := actions[|actions| - 1];
    if a.Arrive? then a.d.now else now
  }

  lemma OrderlyPrefix(actions: seq<Action>, now: int)
    requires actions != [] && Orderly(actions, now)
    ensures Orderly(actions[..|actions| - 1], Before(actions, now))
    ensures !NoPurges(actions[..|actions| - 1]) ==> !NoPurges(actions)
  {
    var front := actions[..|actions| - 1];
    assert forall i | 0 <= i < |front| :: front[i] == actions[i];
  }

  /** What a run keeps for every resource: it stays in step, and its rows in order of time if the clock is. */
  ghost predicate Kept(cfg: Config, h: Recording, uid: string, last: Option<Event>, timely: bool, now: int) {
    InStep(cfg, h, uid, last) && (timely ==> Timely(h.tables.LogOf(uid), now))
  }

  lemma GrownTimely(cfg: Config, h: Recording, h': Recording, d: Delivery, row: Row)
    requires Timely(h.tables.LogOf(d.ev.obj.uid), d.now) && Grown(cfg, h, h', d, row)
    requires forall r :: r in h.tables.LogOf(d.ev.obj.uid) ==> r <= Current(h.tables, d.ev.obj.uid)
    ensures Timely(h'.tables.LogOf(d.ev.obj.uid), d.now)
  {
  }

  lemma DeliveryTimely(cfg: Config, h: Recording, d: Delivery, last: Option<Event>)
    requires InStep(cfg, h, d.ev.obj.uid, last) && Follows(cfg, h, last, d.ev)
    requires Timely(h.tables.LogOf(d.ev.obj.uid), d.now)
    ensures Timely(Deliver(cfg, h, d).tables.LogOf(d.ev.obj.uid), d.now)
  {
    if Records(cfg, h, d) {
      var row := RecordingGrows(cfg, h, d, last);
      GrownTimely(cfg, h, Deliver(cfg, h, d), d, row);
    } else {
      NothingRecorded(cfg, h, d);
    }
  }

  lemma DeliveryKept(cfg: Config, h: Recording, d: Delivery, uid: string, last: Option<Event>, timely: bool)
    requires Kept(cfg, h, uid, last, timely, d.now)
    requires d.ev.obj.uid == uid ==> Follows(cfg, h, last, d.ev)
    ensures Kept(cfg, Deliver(cfg, h, d), uid, if d.ev.obj.uid == uid then Some(d.ev) else last, timely, d.now)
  {
    if d.ev.obj.uid != uid {
      OtherUntouched(cfg, h, d, uid);
    } else {
      DeliveryInStep(cfg, h, d, last);
      if timely {
        DeliveryTimely(cfg, h, d, last);
      }
    }
  }

  lemma ExpiryKept(cfg: Config, h: Recording, olderThan: int, uid: string, last: Option<Event>, now: int)
    requires Kept(cfg, h, uid, last, true, now)
    ensures Kept(cfg, Act(cfg, h, Expire(olderThan)), uid, last, true, now)
  {
    var log := h.tables.LogOf(uid);
    ExpiredLog(h.tables, olderThan, uid);
    ExpireIsSuffix(log, olderThan, now);
    SteadySuffix(cfg, PurgeOld(log, olderThan), log, Docs(cfg, h, uid), Current(h.tables, uid), last);
  }

  /** Every run of any objects' events, with purges by age in between, keeps every resource in step. */
  lemma {:induction false} RunInStep(cfg: Config, actions: seq<Action>, uid: string, now: int)
    requires WellFormed(cfg, actions) && Orderly(actions, now)
    ensures Kept(cfg, Run(cfg, actions), uid, LastOf(actions, uid), ClockRuns(actions) && UpTo(actions, now), now)
    decreases |actions|
  {
    if actions == [] {
    } else {
      var front, a, before := actions[..|actions| - 1], actions[|actions| - 1], Before(actions, now);
      Prefix(cfg, actions);
      OrderlyPrefix(actions, now);
      RunInStep(cfg, front, uid, before);
      match a
      case Arrive(d) =>
        DeliveryKept(cfg, Run(cfg, front), d, uid, LastOf(front, uid), ClockRuns(front) && UpTo(front, before));
      case Expire(olderThan) =>
        ExpiryKept(cfg, Run(cfg, front), olderThan, uid, LastOf(front, uid), now);
    }
  }

  // ---------------------------------------------------------------- every run is honest

  /** No snapshot at or before `r`: only changes were recorded, under numbers that are no multiples of the interval. */
  ghost predicate LacksBase(cfg: Config, log: Log, r: int) {
    forall x :: x in log && x <= r ==> log[x].event.Updated? && x % cfg.Every() != 0
  }

  /** A stored revision rebuilds to its document, up to null members, and exactly if and only if its null members have
      been null since the snapshot, as they have if no stored patch introduces one; or it has no base and is reported as
      having no snapshot. */
  ghost predicate HonestAt(cfg: Config, log: Log, docs: map<int, Doc>, r: int) {
    if LacksBase(cfg, log, r) then Rebuild(log, r) == Err(NoSnapshot)
    else
      r in docs && AgreesUpToNulls(Rebuild(log, r), docs[r]) &&
      (Exact(Rebuild(log, r), docs[r]) <==> NullsKept(log, docs, r)) &&
      (NoNewNulls(log, docs) ==> Exact(Rebuild(log, r), docs[r]))
  }

  lemma SteadyHonest(cfg: Config, log: Log, docs: map<int, Doc>, cur: int, last: Option<Event>, r: int)
    requires Steady(cfg, log, docs, cur, last) && r in log
    ensures HonestAt(cfg, log, docs, r)
  {
    TruthfulRebuild(log, docs, r);
    NeverNoSnapshot(log, r);
    if Nearest(log, r).Some? {
      RevisionExactIff(log, docs, r);
      assert RightKind(cfg, log[Nearest(log, r).value], Nearest(log, r).value);
    } else {
      assert forall x :: x in log && x <= r ==> RightKind(cfg, log[x], x) && !IsSnapshotAt(log, x);
    }
  }

  ghost predicate AllHonest(cfg: Config, log: Log, docs: map<int, Doc>) {
    forall r {:trigger HonestAt(cfg, log, docs, r)} :: r in log ==> HonestAt(cfg, log, docs, r)
  }

  lemma SteadyAllHonest(cfg: Config, log: Log, docs: map<int, Doc>, cur: int, last: Option<Event>)
    requires Steady(cfg, log, docs, cur, last)
    ensures AllHonest(cfg, log, docs)
  {
    forall r | r in log {
      SteadyHonest(cfg, log, docs, cur, last, r);
    }
  }

  lemma {:induction false} Horizon(actions: seq<Action>) returns (now: int)
    ensures UpTo(actions, now)
    decreases |actions|
  {
    if actions == [] {
      now := 0;
    } else {
      var a := actions[|actions| - 1];
      now := Horizon(actions[..|actions| - 1]);
      assert forall i | 0 <= i < |actions| - 1 :: actions[..|actions| - 1][i] == actions[i];
      if a.Arrive? && now < a.d.now {
        now := a.d.now;
      }
    }
  }

  /** At the end of every run of any objects' events, purged by age at any moments if the clock does not go back, and
      purged by count, every stored revision is honest. */
  lemma RunHonest(cfg: Config, actions: seq<Action>, uid: string, maxRevisions: int)
    requires WellFormed(cfg, actions) && (NoPurges(actions) || ClockRuns(actions))
    ensures var log, docs := Run(cfg, actions).tables.LogOf(uid), Docs(cfg, Run(cfg, actions), uid);
      AllHonest(cfg, log, docs) && AllHonest(cfg, PurgeExcess(log, maxRevisions), docs)
  {
    var now := Horizon(actions);
    var h, last := Run(cfg, actions), LastOf(actions, uid);
    var log, docs, cur := h.tables.LogOf(uid), Docs(cfg, h, uid), Current(h.tables, uid);
    RunInStep(cfg, actions, uid, now);
    SteadyAllHonest(cfg, log, docs, cur, last);
    PurgeExcessIsSuffix(log, maxRevisions);
    SteadySuffix(cfg, PurgeExcess(log, maxRevisions), log, docs, cur, last);
    SteadyAllHonest(cfg, PurgeExcess(log, maxRevisions), docs, cur, last);
  }

  // ---------------------------------------------------------------- without purges nothing is missing

  /** The stored revisions are the produced ones, without a hole up to the counter. */
  ghost predicate Complete(h: Recording, uid: string) {
    (forall r :: r in h.tables.LogOf(uid) <==> r in h.SourcesOf(uid)) &&
    forall r :: 1 <= r <= Current(h.tables, uid) ==> r in h.tables.LogOf(uid)
  }

  /** Nothing stored is lost or replaced. */
  ghost predicate Persists(log: Log, log': Log) {
    forall r :: r in log ==> r in log' && log'[r] == log[r]
  }

  lemma DeliveryAdds(cfg: Config, h: Recording, d: Delivery, uid: string, last: Option<Event>)
    requires InStep(cfg, h, uid, last) && (d.ev.obj.uid == uid ==> Follows(cfg, h, last, d.ev))
    ensures Persists(h.tables.LogOf(uid), Deliver(cfg, h, d).tables.LogOf(uid))
    ensures Complete(h, uid) ==> Complete(Deliver(cfg, h, d), uid)
  {
    if d.ev.obj.uid != uid {
      OtherUntouched(cfg, h, d, uid);
    } else if Records(cfg, h, d) {
      var row := RecordingGrows(cfg, h, d, last);
      GrownComplete(cfg, h, Deliver(cfg, h, d), d, row);
    } else {
      NothingRecorded(cfg, h, d);
    }
  }

  lemma GrownComplete(cfg: Config, h: Recording, h': Recording, d: Delivery, row: Row)
    requires Grown(cfg, h, h', d, row)
    ensures Persists(h.tables.LogOf(d.ev.obj.uid), h'.tables.LogOf(d.ev.obj.uid))
    ensures Complete(h, d.ev.obj.uid) ==> Complete(h', d.ev.obj.uid)
  {
  }

  lemma {:induction false} RunComplete(cfg: Config, actions: seq<Action>, uid: string)
    requires WellFormed(cfg, actions) && NoPurges(actions)
    ensures InStep(cfg, Run(cfg, actions), uid, LastOf(actions, uid)) && Complete(Run(cfg, actions), uid)
    decreases |actions|
  {
    RunInStep(cfg, actions, uid, 0);
    if actions == [] {
    } else {
      var front, d := actions[..|actions| - 1], actions[|actions| - 1].d;
      Prefix(cfg, actions);
      RunComplete(cfg, front, uid);
      DeliveryAdds(cfg, Run(cfg, front), d, uid, LastOf(front, uid));
    }
  }

  /** The event is recorded when its object has no history yet. */
  predicate Noted(cfg: Config, ev: Event) {
    match ev
    case Add(_, _) => Enabled(cfg.creations)
    case Update(before, obj) => Enabled(cfg.updates) && cfg.Stripped(before) != cfg.Stripped(obj)
    case Delete(_) => Enabled(cfg.deletions)
  }

  /** Before its first event an object has neither revisions nor a record. */
  lemma {:induction false} BeforeFirst(cfg: Config, actions: seq<Action>, uid: string)
    requires NoPurges(actions) && FirstOf(actions, uid).None?
    ensures Run(cfg, actions).tables.LogOf(uid) == map[] && Run(cfg, actions).tables.RecordOf(uid).None?
    decreases |actions|
  {
    if actions == [] {
    } else {
      var front, d := actions[..|actions| - 1], actions[|actions| - 1].d;
      assert forall i | 0 <= i < |front| :: front[i] == actions[i];
      BeforeFirst(cfg, front, uid);
      OtherUntouched(cfg, Run(cfg, front), d, uid);
    }
  }

  lemma FirstDelivery(cfg: Config, h: Recording, d: Delivery)
    requires h.tables.LogOf(d.ev.obj.uid) == map[] && h.tables.RecordOf(d.ev.obj.uid).None? && Noted(cfg, d.ev)
    ensures var log' := Deliver(cfg, h, d).tables.LogOf(d.ev.obj.uid);
      1 in log' && (log'[1].event.Updated? <==> d.ev.Update?)
  {
    var e := Decided(cfg, h.tables, d.ev, d.Conditions());
    assert e == Plan(cfg, d.ev, None, None, d.now, d.gzipWorks);
    RowWritten(h.tables, e, d.Conditions());
  }

  /** The first event of an object, when recorded, is its revision 1. */
  lemma {:induction false} FirstRow(cfg: Config, actions: seq<Action>, uid: string)
    requires WellFormed(cfg, actions) && NoPurges(actions)
    requires FirstOf(actions, uid).Some? && Noted(cfg, FirstOf(actions, uid).value)
    ensures var log := Run(cfg, actions).tables.LogOf(uid);
      1 in log && (log[1].event.Updated? <==> FirstOf(actions, uid).value.Update?)
    decreases |actions|
  {
    var front, d := actions[..|actions| - 1], actions[|actions| - 1].d;
    Prefix(cfg, actions);
    if FirstOf(front, uid).None? {
      BeforeFirst(cfg, front, uid);
      FirstDelivery(cfg, Run(cfg, front), d);
    } else {
      FirstRow(cfg, front, uid);
      RunInStep(cfg, front, uid, 0);
      DeliveryAdds(cfg, Run(cfg, front), d, uid, LastOf(front, uid));
    }
  }

  // ---------------------------------------------------------------- end to end

  /** An object's first event that is recorded in full: an add, a deletion, or a change if every revision is full. */
  predicate BeginsInFull(cfg: Config, ev: Event) {
    Noted(cfg, ev) && (ev.Update? ==> cfg.Every() == 1)
  }

  lemma CompleteFaithful(cfg: Config, h: Recording, uid: string, last: Option<Event>)
    requires InStep(cfg, h, uid, last) && Complete(h, uid) && h.tables.LogOf(uid) != map[]
    ensures var log := h.tables.LogOf(uid);
      1 in log && (log[1].isSnapshot ==> exists m :: Faithful(log, Docs(cfg, h, uid), m))
  {
    var log, cur := h.tables.LogOf(uid), Current(h.tables, uid);
    var m := if cur + 1 in log then cur + 1 else cur;
    assert forall r :: r in log <==> 1 <= r <= m;
    assert m in log;
    assert log[1].isSnapshot ==> Faithful(log, Docs(cfg, h, uid), m);
  }

  /** For every run without purges, of any objects' events, and for each of them: its history is sound exactly when its
      first revision is full; and it is when its first event is recorded in full. */
  lemma EndToEnd(cfg: Config, actions: seq<Action>, uid: string)
    requires WellFormed(cfg, actions) && NoPurges(actions)
    ensures var log, docs := Run(cfg, actions).tables.LogOf(uid), Docs(cfg, Run(cfg, actions), uid);
      (log != map[] ==> 1 in log && (Sound(log, docs) <==> log[1].isSnapshot)) &&
      (FirstOf(actions, uid).Some? && BeginsInFull(cfg, FirstOf(actions, uid).value) ==> Sound(log, docs))
  {
    var h := Run(cfg, actions);
    var log, docs := h.tables.LogOf(uid), Docs(cfg, h, uid);
    RunComplete(cfg, actions, uid);
    if log != map[] {
      CompleteFaithful(cfg, h, uid, LastOf(actions, uid));
      if log[1].isSnapshot {
        var m :| Faithful(log, docs, m);
        FaithfulIsSound(log, docs, m);
      } else {
        RebuildNext(log, 1);
        assert forall s :: IsSnapshotAt(log, s) ==> 1 < s;
      }
    }
    if FirstOf(actions, uid).Some? && BeginsInFull(cfg, FirstOf(actions, uid).value) {
      FirstRow(cfg, actions, uid);
      assert RightKind(cfg, log[1], 1);
    }
  }

  /** The first multiple of `every` is `every`. */
  lemma SmallRemainders(every: int, r: int)
    requires 0 < every
    ensures r < every <==> forall x | 1 <= x <= r :: x % every != 0
  {
    if every <= r {
      ModUnique(every, every, 1, 0);
    }
  }

  lemma MissingBase(cfg: Config, log: Log, docs: map<int, Doc>, cur: int, last: Option<Event>, r: int)
    requires Steady(cfg, log, docs, cur, last) && r in log && forall x :: 1 <= x <= r ==> x in log
    ensures Rebuild(log, r) == Err(NoSnapshot) <==>
      r < cfg.Every() && forall x | 1 <= x <= r :: log[x].event.Updated?
  {
    SteadyHonest(cfg, log, docs, cur, last, r);
    SmallRemainders(cfg.Every(), r);
    assert LacksBase(cfg, log, r) <==> forall x | 1 <= x <= r :: log[x].event.Updated? && x % cfg.Every() != 0;
  }

  /** Exactly the revisions below the interval, up to the first recorded add or deletion, have no snapshot; revision
      1 is among them unless every revision is full. */
  ghost predicate LosesItsStart(cfg: Config, log: Log, r: int) {
    1 in log && (Rebuild(log, 1) == Err(NoSnapshot) <==> cfg.Every() > 1) &&
    (Rebuild(log, r) == Err(NoSnapshot) <==>
      r < cfg.Every() && forall x | 1 <= x <= r :: x in log && log[x].event.Updated?)
  }

  lemma StartMissing(cfg: Config, log: Log, docs: map<int, Doc>, cur: int, last: Option<Event>, r: int)
    requires Steady(cfg, log, docs, cur, last) && r in log && forall x :: 1 <= x <= cur ==> x in log
    requires 1 in log && log[1].event.Updated?
    ensures LosesItsStart(cfg, log, r)
  {
    MissingBase(cfg, log, docs, cur, last, 1);
    MissingBase(cfg, log, docs, cur, last, r);
  }

  /** A history that begins with a recorded change loses its start. */
  lemma FirstEventNotSnapshot(cfg: Config, actions: seq<Action>, uid: string, r: int)
    requires WellFormed(cfg, actions) && NoPurges(actions)
    requires FirstOf(actions, uid).Some? && FirstOf(actions, uid).value.Update?
    requires Noted(cfg, FirstOf(actions, uid).value) && r in Run(cfg, actions).tables.LogOf(uid)
    ensures LosesItsStart(cfg, Run(cfg, actions).tables.LogOf(uid), r)
  {
    var h := Run(cfg, actions);
    FirstRow(cfg, actions, uid);
    RunComplete(cfg, actions, uid);
    StartMissing(cfg, h.tables.LogOf(uid), Docs(cfg, h, uid), Current(h.tables, uid), LastOf(actions, uid), r);
  }

  // ---------------------------------------------------------------- no null member introduced

  /** The event introduces no null member: an update over the object before it, a re-list over the newest document. */
  ghost predicate AddsNoNull(cfg: Config, h: Recording, ev: Event) {
    var cur, docs := Current(h.tables, ev.obj.uid), Docs(cfg, h, ev.obj.uid);
    (ev.Update? ==> NullsCarried(Obj(cfg.Stripped(ev.before)), Obj(cfg.Stripped(ev.obj)))) &&
    (ev.Add? && ev.initial && Extensible(h, ev.obj.uid) && cur in docs ==>
      NullsCarried(Obj(docs[cur]), Obj(cfg.Stripped(ev.obj))))
  }

  ghost predicate AddsNoNullAt(cfg: Config, actions: seq<Action>, uid: string, i: nat)
    requires i < |actions|
  {
    Concerns(actions[i], uid) ==> AddsNoNull(cfg, Run(cfg, actions[..i]), actions[i].d.ev)
  }

  ghost predicate NeverAddsNull(cfg: Config, actions: seq<Action>, uid: string) {
    forall i | 0 <= i < |actions| :: AddsNoNullAt(cfg, actions, uid, i)
  }

  lemma NeverAddsNullPrefix(cfg: Config, actions: seq<Action>, uid: string)
    requires actions != [] && NeverAddsNull(cfg, actions, uid)
    ensures NeverAddsNull(cfg, actions[..|actions| - 1], uid)
    ensures Concerns(actions[|actions| - 1], uid) ==>
      AddsNoNull(cfg, Run(cfg, actions[..|actions| - 1]), actions[|actions| - 1].d.ev)
  {
    var front := actions[..|actions| - 1];
    assert AddsNoNullAt(cfg, actions, uid, |front|);
    forall i | 0 <= i < |front|
      ensures AddsNoNullAt(cfg, front, uid, i)
    {
      assert AddsNoNullAt(cfg, actions, uid, i) && front[i] == actions[i] && front[..i] == actions[..i];
    }
  }

  lemma GrownNoNulls(cfg: Config, h: Recording, h': Recording, d: Delivery, row: Row, previous: Option<Event>)
    requires InStep(cfg, h, d.ev.obj.uid, previous) && Grown(cfg, h, h', d, row)
    requires Follows(cfg, h, previous, d.ev) && AddsNoNull(cfg, h, d.ev)
    requires NoNewNulls(h.tables.LogOf(d.ev.obj.uid), Docs(cfg, h, d.ev.obj.uid))
    ensures NoNewNulls(h'.tables.LogOf(d.ev.obj.uid), Docs(cfg, h', d.ev.obj.uid))
  {
    var uid, doc := d.ev.obj.uid, cfg.Stripped(d.ev.obj);
    var log, docs, cur := h.tables.LogOf(uid), Docs(cfg, h, uid), Current(h.tables, uid);
    if cur in log && !row.isSnapshot {
      assert NullsCarried(Obj(docs[cur]), Obj(doc));
    }
    ExtendedNoNulls(log, docs, cur, row, doc);
  }

  lemma ExtendedNoNulls(log: Log, docs: map<int, Doc>, cur: int, row: Row, doc: Doc)
    requires NoNewNulls(log, docs) && forall r :: r in log ==> r <= cur
    requires cur in log && !row.isSnapshot ==> cur in docs && NullsCarried(Obj(docs[cur]), Obj(doc))
    ensures NoNewNulls(log[cur + 1 := row], docs[cur + 1 := doc])
  {
    var log', docs' := log[cur + 1 := row], docs[cur + 1 := doc];
    forall r | r in log'
      ensures CarriesNulls(log', docs', r)
    {
      assert r in log ==> CarriesNulls(log, docs, r);
    }
  }

  lemma SuffixNoNulls(kept: Log, log: Log, docs: map<int, Doc>)
    requires NoNewNulls(log, docs) && SuffixOf(kept, log)
    ensures NoNewNulls(kept, docs)
  {
    forall r | r in kept
      ensures CarriesNulls(kept, docs, r)
    {
      assert CarriesNulls(log, docs, r);
    }
  }

  lemma DeliveryNoNulls(cfg: Config, h: Recording, d: Delivery, uid: string, last: Option<Event>)
    requires InStep(cfg, h, uid, last) && NoNewNulls(h.tables.LogOf(uid), Docs(cfg, h, uid))
    requires d.ev.obj.uid == uid ==> Follows(cfg, h, last, d.ev) && AddsNoNull(cfg, h, d.ev)
    ensures NoNewNulls(Deliver(cfg, h, d).tables.LogOf(uid), Docs(cfg, Deliver(cfg, h, d), uid))
  {
    if d.ev.obj.uid != uid {
      OtherUntouched(cfg, h, d, uid);
    } else if Records(cfg, h, d) {
      var row := RecordingGrows(cfg, h, d, last);
      GrownNoNulls(cfg, h, Deliver(cfg, h, d), d, row, last);
    } else {
      NothingRecorded(cfg, h, d);
    }
  }

  lemma SameSources(cfg: Config, h: Recording, h': Recording, uid: string)
    requires h'.SourcesOf(uid) == h.SourcesOf(uid)
    ensures Docs(cfg, h', uid) == Docs(cfg, h, uid)
  {
  }

  lemma ExpiryNoNulls(cfg: Config, h: Recording, olderThan: int, uid: string, now: int)
    requires Timely(h.tables.LogOf(uid), now) && NoNewNulls(h.tables.LogOf(uid), Docs(cfg, h, uid))
    ensures var h' := Act(cfg, h, Expire(olderThan));
      NoNewNulls(h'.tables.LogOf(uid), Docs(cfg, h', uid))
  {
    ExpiredLog(h.tables, olderThan, uid);
    ExpireIsSuffix(h.tables.LogOf(uid), olderThan, now);
    SameSources(cfg, h, Act(cfg, h, Expire(olderThan)), uid);
    SuffixNoNulls(PurgeOld(h.tables.LogOf(uid), olderThan), h.tables.LogOf(uid), Docs(cfg, h, uid));
  }

  lemma {:induction false} RunNoNulls(cfg: Config, actions: seq<Action>, uid: string, now: int)
    requires WellFormed(cfg, actions) && Orderly(actions, now) && NeverAddsNull(cfg, actions, uid)
    ensures NoNewNulls(Run(cfg, actions).tables.LogOf(uid), Docs(cfg, Run(cfg, actions), uid))
    decreases |actions|
  {
    if actions == [] {
    } else {
      var front, before := actions[..|actions| - 1], Before(actions, now);
      Prefix(cfg, actions);
      OrderlyPrefix(actions, now);
      NeverAddsNullPrefix(cfg, actions, uid);
      RunInStep(cfg, front, uid, before);
      RunNoNulls(cfg, front, uid, before);
      match actions[|actions| - 1]
      case Arrive(d) => DeliveryNoNulls(cfg, Run(cfg, front), d, uid, LastOf(front, uid));
      case Expire(olderThan) => ExpiryNoNulls(cfg, Run(cfg, front), olderThan, uid, now);
    }
  }

  /** Every stored revision rebuilds exactly or has no base. */
  ghost predicate ExactOrLost(cfg: Config, log: Log, docs: map<int, Doc>) {
    forall r :: r in log ==> LacksBase(cfg, log, r) || (r in docs && Exact(Rebuild(log, r), docs[r]))
  }

  lemma ExactWhereBased(cfg: Config, log: Log, docs: map<int, Doc>)
    requires AllHonest(cfg, log, docs) && NoNewNulls(log, docs)
    ensures ExactOrLost(cfg, log, docs)
  {
    forall r | r in log
      ensures LacksBase(cfg, log, r) || (r in docs && Exact(Rebuild(log, r), docs[r]))
    {
      assert HonestAt(cfg, log, docs, r);
    }
  }

  /** When no event of an object introduces a null member, every stored revision of it rebuilds exactly or has no base,
      purges or not; and without purges all of them rebuild exactly once its first event is recorded in full. */
  lemma EndToEndExact(cfg: Config, actions: seq<Action>, uid: string)
    requires WellFormed(cfg, actions) && (NoPurges(actions) || ClockRuns(actions)) && NeverAddsNull(cfg, actions, uid)
    ensures var log, docs := Run(cfg, actions).tables.LogOf(uid), Docs(cfg, Run(cfg, actions), uid);
      ExactOrLost(cfg, log, docs) &&
      (NoPurges(actions) && FirstOf(actions, uid).Some? && BeginsInFull(cfg, FirstOf(actions, uid).value) ==>
        AllExact(log, docs))
  {
    var now := Horizon(actions);
    RunNoNulls(cfg, actions, uid, now);
    RunHonest(cfg, actions, uid, 0);
    ExactWhereBased(cfg, Run(cfg, actions).tables.LogOf(uid), Docs(cfg, Run(cfg, actions), uid));
    if NoPurges(actions) {
      EndToEnd(cfg, actions, uid);
    }
  }
}
