/** The event handlers: read the tracked record, insert a revision, then update the record. */
module Recorder {
  import opened Wrappers
  import opened Json
  import opened MergePatch
  import opened Store
  import StripFields
  import ChangedPaths

  /** The parts of a policy the handlers read. Unset flags count as enabled. */
  datatype Config = Config(name: string, ignoreFields: seq<string>, trackStatus: bool,
                           creations: Option<bool>, updates: Option<bool>, deletions: Option<bool>,
                           snapshotEvery: int, compressSnapshots: Option<bool>)
  {
    function Stripped(r: Resource): Doc {
      StripFields.Strip(r.body, ignoreFields, trackStatus)
    }

    function Every(): (n: int)
      ensures n > 0
    {
      if snapshotEvery > 0 then snapshotEvery else DEFAULT_SNAPSHOT_EVERY
    }
  }

  const DEFAULT_SNAPSHOT_EVERY := 20

  const ZERO_TIME := 0

  predicate Enabled(flag: Option<bool>) {
    flag.None? || flag.value
  }

  /** A delivered Kubernetes object. */
  datatype Resource = Resource(uid: string, identity: Identity, resourceVersion: string, body: Doc)

  datatype Event = Add(obj: Resource, initial: bool) | Update(before: Resource, obj: Resource) | Delete(obj: Resource)

  /** What a handler does once its reads are done. */
  datatype Decision = Skip | Write(uid: string, revision: int, row: Row, after: AfterInsert)

  datatype AfterInsert = SaveRecord(record: Record) | MarkDeletion(at: int)

  /** Clock, compressor and store behaviour during one handler call. */
  datatype Conditions = Conditions(now: int, gzipWorks: bool, readFails: bool, latestFails: bool,
                                   insert: Call, finish: Call)

  /** CurrentRevision, 0 without a record. */
  function Current(t: Tables, uid: string): int {
    if uid in t.tracked then t.tracked[uid].currentRevision else 0
  }

  function NextRevision(existing: Option<Record>): int {
    if existing.Some? then existing.value.currentRevision + 1 else 1
  }

  function SnapshotOf(cfg: Config, doc: Doc, gzipWorks: bool): Bytes {
    Pack(Text(Obj(doc)), Enabled(cfg.compressSnapshots), gzipWorks)
  }

  function SnapshotRow(cfg: Config, obj: Resource, event: EventType, changed: seq<string>, now: int,
                       gzipWorks: bool): Row
  {
    Row(obj.identity, event, SnapshotOf(cfg, cfg.Stripped(obj), gzipWorks), Empty, true,
        obj.resourceVersion, changed, now, cfg.name)
  }

  /** An update: a snapshot at every multiple of the interval, a patch otherwise. */
  function UpdateRow(cfg: Config, obj: Resource, last: Doc, revision: int, now: int, gzipWorks: bool): Row {
    var changed := ChangedPaths.PathList(last, cfg.Stripped(obj));
    if revision % cfg.Every() == 0 then SnapshotRow(cfg, obj, Updated, changed, now, gzipWorks)
    else Row(obj.identity, Updated, Empty, Text(Obj(Diff(last, cfg.Stripped(obj)))), false,
             obj.resourceVersion, changed, now, cfg.name)
  }

  function NewRecord(cfg: Config, obj: Resource, revision: int, firstSeen: int, now: int): Record {
    Record(obj.identity, revision, firstSeen, now, false, cfg.name)
  }

  /** The last recorded document, when the latest revision is a readable snapshot of an object. */
  function LastState(latest: Option<Row>): Option<Doc> {
    if latest.Some? && latest.value.isSnapshot && latest.value.snapshot != Empty then
      var data := Unpack(latest.value.snapshot);
      if data.Text? && data.json.Obj? then Some(data.json.members) else None
    else None
  }

  function PlanAdd(cfg: Config, obj: Resource, initial: bool, existing: Option<Record>, latest: Option<Row>,
                   now: int, gzipWorks: bool): Decision
  {
    var revision := NextRevision(existing);
    if initial && existing.Some? then
      var last := LastState(latest);
      if last.None? || last.value == cfg.Stripped(obj) || !Enabled(cfg.updates) then Skip
      else Write(obj.uid, revision, UpdateRow(cfg, obj, last.value, revision, now, gzipWorks),
                 SaveRecord(NewRecord(cfg, obj, revision, existing.value.firstSeen, now)))
    else if !Enabled(cfg.creations) then Skip
    else Write(obj.uid, revision, SnapshotRow(cfg, obj, Created, [], now, gzipWorks),
               SaveRecord(NewRecord(cfg, obj, revision, now, now)))
  }

  function PlanUpdate(cfg: Config, before: Resource, obj: Resource, existing: Option<Record>,
                      now: int, gzipWorks: bool): Decision
  {
    var revision := NextRevision(existing);
    if !Enabled(cfg.updates) || cfg.Stripped(before) == cfg.Stripped(obj) then Skip
    else
      var firstSeen :=
        if existing.Some? && existing.value.firstSeen != ZERO_TIME then existing.value.firstSeen else now;
      Write(obj.uid, revision, UpdateRow(cfg, obj, cfg.Stripped(before), revision, now, gzipWorks),
            SaveRecord(NewRecord(cfg, obj, revision, firstSeen, now)))
  }

  function PlanDelete(cfg: Config, obj: Resource, existing: Option<Record>, now: int, gzipWorks: bool): Decision {
    if !Enabled(cfg.deletions) then Skip
    else Write(obj.uid, NextRevision(existing), SnapshotRow(cfg, obj, Deleted, [], now, gzipWorks), MarkDeletion(now))
  }

  function Plan(cfg: Config, ev: Event, existing: Option<Record>, latest: Option<Row>, now: int,
                gzipWorks: bool): Decision
  {
    match ev
    case Add(obj, initial) => PlanAdd(cfg, obj, initial, existing, latest, now, gzipWorks)
    case Update(before, obj) => PlanUpdate(cfg, before, obj, existing, now, gzipWorks)
    case Delete(obj) => PlanDelete(cfg, obj, existing, now, gzipWorks)
  }

  /** The insert went through and the caller was told so. */
  predicate Accepted(t: Tables, d: Decision, call: Call) {
    d.Write? && call.Works? && d.revision !in t.LogOf(d.uid)
  }

  function AfterWrite(t: Tables, d: Decision, call: Call): Tables {
    if d.Write? && !call.Fails? && d.revision !in t.LogOf(d.uid) then t.Insert(d.uid, d.revision, d.row) else t
  }

  function Finished(t: Tables, uid: string, after: AfterInsert, call: Call): Tables {
    if call.Fails? then t
    else match after
         case SaveRecord(r) => t.Upsert(uid, r)
         case MarkDeletion(at) => t.MarkDeleted(uid, at)
  }

  /** The tables after a handler carries out its decision. */
  function Perform(t: Tables, d: Decision, c: Conditions): Tables {
    var written := AfterWrite(t, d, c.insert);
    if Accepted(t, d, c.insert) then Finished(written, d.uid, d.after, c.finish) else written
  }

  function ReadRecord(t: Tables, uid: string, fails: bool): Option<Record> {
    if fails then None else t.RecordOf(uid)
  }

  ghost function LatestRow(t: Tables, uid: string, fails: bool): (row: Option<Row>)
    ensures row.Some? ==> !fails && exists s :: IsLatest(t.LogOf(uid), s) && row.value == t.LogOf(uid)[s]
    ensures row.None? ==> fails || t.LogOf(uid) == map[]
  {
    if fails || t.LogOf(uid) == map[] then None
    else
      LatestExists(t.LogOf(uid));
      var m :| IsLatest(t.LogOf(uid), m);
      Some(t.LogOf(uid)[m])
  }

  lemma LatestExists(log: Log)
    requires log != map[]
    ensures exists s :: IsLatest(log, s)
  {
    assert log.Keys != {};
    var m := Greatest(log.Keys);
    assert IsLatest(log, m);
  }

  lemma LatestRowIs(t: Tables, uid: string, m: int)
    requires IsLatest(t.LogOf(uid), m)
    ensures LatestRow(t, uid, false) == Some(t.LogOf(uid)[m])
  {
    assert forall s :: IsLatest(t.LogOf(uid), s) ==> s == m;
  }

  /** The decision a handler reaches when nothing intervenes. */
  ghost function Decided(cfg: Config, t: Tables, ev: Event, c: Conditions): Decision {
    Plan(cfg, ev, ReadRecord(t, ev.obj.uid, c.readFails), LatestRow(t, ev.obj.uid, c.latestFails), c.now, c.gzipWorks)
  }

  /** One event handled without interruption. */
  ghost function Handled(cfg: Config, t: Tables, ev: Event, c: Conditions): Tables {
    Perform(t, Decided(cfg, t, ev, c), c)
  }

  /** Every decision to write is numbered after the record it read, marks deletions as such and keeps the interval. */
  lemma PlanShape(cfg: Config, ev: Event, existing: Option<Record>, latest: Option<Row>, now: int, gzipWorks: bool)
    ensures var d := Plan(cfg, ev, existing, latest, now, gzipWorks);
      d.Write? ==>
        d.uid == ev.obj.uid && d.revision == NextRevision(existing) &&
        (d.after.SaveRecord? ==> d.after.record.currentRevision == d.revision && !d.row.event.Deleted?) &&
        (d.row.event.Deleted? <==> d.after.MarkDeletion?) &&
        (d.revision % cfg.Every() == 0 ==> d.row.isSnapshot)
  {
  }

  /** The document a change is recorded against: the object before an update; for a re-list, the latest revision,
      when that is a readable snapshot. */
  predicate Against(cfg: Config, ev: Event, latest: Option<Row>, last: Doc) {
    match ev
    case Update(before, _) => last == StripFields.Strip(before.body, cfg.ignoreFields, cfg.trackStatus)
    case Add(_, _) =>
      latest.Some? && latest.value.isSnapshot && Unpack(latest.value.snapshot) == Text(Obj(last))
    case Delete(_) => false
  }

  /** The number calls for a full snapshot. */
  predicate DueInFull(cfg: Config, revision: int) {
    if cfg.snapshotEvery > 0 then revision % cfg.snapshotEvery == 0 else revision % 20 == 0
  }

  /** The event is a re-list of an object with a record. */
  predicate Relists(ev: Event, existing: Option<Record>) {
    ev.Add? && ev.initial && existing.Some?
  }

  /** What any recorded row says of its event. */
  ghost predicate Describes(cfg: Config, ev: Event, existing: Option<Record>, revision: int, now: int, gzipWorks: bool,
                            row: Row)
  {
    row.identity == ev.obj.identity && row.resourceVersion == ev.obj.resourceVersion &&
    row.policyName == cfg.name && row.timestamp == now &&
    row.event == (if ev.Delete? then Deleted else if ev.Update? || Relists(ev, existing) then Updated else Created) &&
    (row.isSnapshot <==> !row.event.Updated? || DueInFull(cfg, revision)) &&
    if row.isSnapshot then
      Unpack(row.snapshot) == Text(Obj(StripFields.Strip(ev.obj.body, cfg.ignoreFields, cfg.trackStatus))) &&
      (row.snapshot.Gzip? <==> cfg.compressSnapshots != Some(false) && gzipWorks) && row.patch == Empty
    else
      row.snapshot == Empty
  }

  /** What a recorded change says of the two documents: exactly where they differ, and the patch unless it is in
      full. */
  ghost predicate DescribesChange(cfg: Config, ev: Event, last: Doc, row: Row) {
    var new' := StripFields.Strip(ev.obj.body, cfg.ignoreFields, cfg.trackStatus);
    last != new' && ChangedPaths.Lists(row.changedPaths, last, new') && row.changedPaths != [] &&
    (!row.isSnapshot ==> row.patch == Text(Obj(Diff(last, new'))))
  }

  /** A recorded row describes the delivered object; a change, in addition, what changed; any other row lists
      nothing. */
  lemma RowDescribesEvent(cfg: Config, ev: Event, existing: Option<Record>, latest: Option<Row>, now: int,
                          gzipWorks: bool)
    requires Plan(cfg, ev, existing, latest, now, gzipWorks).Write?
    ensures var e := Plan(cfg, ev, existing, latest, now, gzipWorks);
      Describes(cfg, ev, existing, e.revision, now, gzipWorks, e.row) &&
      if e.row.event.Updated? then
        exists last :: Against(cfg, ev, latest, last) && DescribesChange(cfg, ev, last, e.row)
      else e.row.changedPaths == []
  {
    var e := Plan(cfg, ev, existing, latest, now, gzipWorks);
    if ev.Update? || Relists(ev, existing) {
      var last := if ev.Update? then cfg.Stripped(ev.before) else LastState(latest).value;
      ChangeDescribed(cfg, ev, existing, last, NextRevision(existing), now, gzipWorks);
      assert Against(cfg, ev, latest, last) && e.row == UpdateRow(cfg, ev.obj, last, e.revision, now, gzipWorks);
    }
  }

  lemma ChangeDescribed(cfg: Config, ev: Event, existing: Option<Record>, last: Doc, revision: int, now: int,
                        gzipWorks: bool)
    requires last != cfg.Stripped(ev.obj) && (ev.Update? || Relists(ev, existing))
    ensures Describes(cfg, ev, existing, revision, now, gzipWorks,
                      UpdateRow(cfg, ev.obj, last, revision, now, gzipWorks))
    ensures DescribesChange(cfg, ev, last, UpdateRow(cfg, ev.obj, last, revision, now, gzipWorks))
  {
    ChangedPaths.DiffsAgree(last, cfg.Stripped(ev.obj));
    ChangedPaths.PathsExact(last, cfg.Stripped(ev.obj));
  }

  /** When a handler decides to record its event: an add if creations are not switched off, a deletion likewise, an
      update if it changes something, a re-list if it differs from a latest revision that can be read directly. */
  lemma RecordedIff(cfg: Config, ev: Event, existing: Option<Record>, latest: Option<Row>, now: int, gzipWorks: bool)
    ensures Plan(cfg, ev, existing, latest, now, gzipWorks).Write? <==>
      if ev.Delete? then cfg.deletions != Some(false)
      else if ev.Update? || Relists(ev, existing) then
        cfg.updates != Some(false) &&
        exists last :: Against(cfg, ev, latest, last) &&
          last != StripFields.Strip(ev.obj.body, cfg.ignoreFields, cfg.trackStatus)
      else cfg.creations != Some(false)
  {
    if ev.Update? {
      assert Against(cfg, ev, latest, cfg.Stripped(ev.before));
    } else if LastState(latest).Some? {
      assert ev.Add? ==> Against(cfg, ev, latest, LastState(latest).value);
    }
  }

  // ---------------------------------------------------------------- what one call leaves in the tables

  /** A call adds at most one row, to its own object, and replaces none; it touches no other object's record. What fails
      is not written, what is lost is; after a failed or lost insert the record is left alone. */
  lemma CallTouches(cfg: Config, t: Tables, ev: Event, c: Conditions, other: string)
    ensures var t', uid := Handled(cfg, t, ev, c), ev.obj.uid;
      (other != uid ==> t'.LogOf(other) == t.LogOf(other) && t'.RecordOf(other) == t.RecordOf(other)) &&
      (forall r :: r in t.LogOf(uid) ==> r in t'.LogOf(uid) && t'.LogOf(uid)[r] == t.LogOf(uid)[r]) &&
      (forall r, s ::
        r in t'.LogOf(uid) && s in t'.LogOf(uid) && r !in t.LogOf(uid) && s !in t.LogOf(uid) ==> r == s) &&
      (c.insert.Fails? ==> t' == t) &&
      (!c.insert.Works? || c.finish.Fails? || t'.LogOf(uid) == t.LogOf(uid) ==> t'.tracked == t.tracked)
  {
    PlanShape(cfg, ev, ReadRecord(t, ev.obj.uid, c.readFails), LatestRow(t, ev.obj.uid, c.latestFails), c.now,
              c.gzipWorks);
    PerformTouches(t, Decided(cfg, t, ev, c), c, ev.obj.uid, other);
  }

  lemma PerformTouches(t: Tables, e: Decision, c: Conditions, uid: string, other: string)
    requires e.Write? ==> e.uid == uid
    ensures var t' := Perform(t, e, c);
      (other != uid ==> t'.LogOf(other) == t.LogOf(other) && t'.RecordOf(other) == t.RecordOf(other)) &&
      (t'.LogOf(uid) == t.LogOf(uid) ||
        (e.Write? && e.revision !in t.LogOf(uid) && t'.LogOf(uid) == t.LogOf(uid)[e.revision := e.row])) &&
      (c.insert.Fails? ==> t' == t) &&
      (!c.insert.Works? || c.finish.Fails? || t'.LogOf(uid) == t.LogOf(uid) ==> t'.tracked == t.tracked)
  {
    if e.Write? && !c.insert.Fails? && e.revision !in t.LogOf(uid) {
      assert e.revision in Perform(t, e, c).LogOf(uid);
    }
  }

  /** After a recorded deletion the record, if there was one, is marked, with the time of the deletion, and otherwise as
      before; its counter stays behind. */
  lemma DeletionMarks(cfg: Config, t: Tables, obj: Resource, c: Conditions)
    requires c.insert.Works? && !c.finish.Fails?
    requires Handled(cfg, t, Delete(obj), c).LogOf(obj.uid) != t.LogOf(obj.uid)
    ensures Handled(cfg, t, Delete(obj), c).RecordOf(obj.uid) ==
      if obj.uid in t.tracked then Some(t.tracked[obj.uid].(isDeleted := true, lastSeen := c.now)) else None
  {
  }

  /** After any other recorded event the record counts the stored revision, was seen at that time and is not deleted.
      The first record carries the object's names, that time as first seen and the policy; later ones keep those. */
  lemma RecordCounts(cfg: Config, t: Tables, ev: Event, c: Conditions)
    requires !ev.Delete? && c.insert.Works? && !c.finish.Fails?
    requires Handled(cfg, t, ev, c).LogOf(ev.obj.uid) != t.LogOf(ev.obj.uid)
    ensures var t', uid := Handled(cfg, t, ev, c), ev.obj.uid;
      uid in t'.tracked &&
      var now, was := t'.tracked[uid], t.RecordOf(uid);
      now.currentRevision in t'.LogOf(uid) && now.currentRevision !in t.LogOf(uid) &&
      !now.isDeleted && now.lastSeen == c.now &&
      if was.Some? then
        now.identity == was.value.identity && now.firstSeen == was.value.firstSeen &&
        now.policyName == was.value.policyName
      else now.identity == ev.obj.identity && now.firstSeen == c.now && now.policyName == cfg.name
  {
    var e := Decided(cfg, t, ev, c);
    assert e.Write? && e.after.SaveRecord? && Accepted(t, e, c.insert);
    assert e.revision in Perform(t, e, c).LogOf(ev.obj.uid);
  }

  /** A decision whose revision is already taken leaves no trace. */
  lemma NothingWritten(t: Tables, d: Decision, c: Conditions)
    requires d.Write? ==> d.revision in t.LogOf(d.uid)
    ensures Perform(t, d, c) == t
  {
  }

  /** An accepted decision adds its row and changes no other revision. */
  lemma RowWritten(t: Tables, d: Decision, c: Conditions)
    requires Accepted(t, d, c.insert)
    ensures Perform(t, d, c).LogOf(d.uid) == t.LogOf(d.uid)[d.revision := d.row]
  {
  }

  /** An update records nothing exactly when updates are off or the objects agree at every location not ignored. */
  lemma UpdateSkippedIff(cfg: Config, before: Resource, obj: Resource, existing: Option<Record>, now: int,
                         gzipWorks: bool)
    ensures PlanUpdate(cfg, before, obj, existing, now, gzipWorks).Skip? <==>
      cfg.updates == Some(false) ||
      forall q: Path :: !StripFields.Dropped(cfg.ignoreFields, cfg.trackStatus, q) ==>
        NodeAt(Obj(before.body), q) == NodeAt(Obj(obj.body), q)
  {
    StripFields.StripEqual(before.body, obj.body, cfg.ignoreFields, cfg.trackStatus);
  }

  // ---------------------------------------------------------------- the handlers

  class ResourceEventHandler {
    const store: HistoryStore
    const config: Config

    constructor (store: HistoryStore, config: Config)
      ensures this.store == store && this.config == config
    {
      this.store, this.config := store, config;
    }

    /** The two writes of a handler: the revision, then, if that succeeded, the tracked record. */
    method Save(uid: string, revision: int, row: Row, record: Record, c: Conditions)
      modifies store
      ensures store.Contents() == Perform(old(store.Contents()), Write(uid, revision, row, SaveRecord(record)), c)
    {
      var ok := store.StoreRevision(uid, revision, row, c.insert);
      if !ok {
        return;
      }
      ok := store.UpsertTrackedResource(uid, record, c.finish);
    }

    method OnAdd(u: Resource, isInInitialList: bool, c: Conditions)
      modifies store
      ensures store.Contents() == Handled(config, old(store.Contents()), Add(u, isInInitialList), c)
    {
      var stripped := config.Stripped(u);
      var existing := store.GetTrackedResource(u.uid, c.readFails);
      if isInInitialList && existing.Some? {
        Relisted(u, stripped, existing.value, c);
        return;
      }
      if !Enabled(config.creations) {
        return;
      }
      var snapshot := Pack(Text(Obj(stripped)), Enabled(config.compressSnapshots), c.gzipWorks);
      var revision := 1;
      if existing.Some? {
        revision := existing.value.currentRevision + 1;
      }
      var row := Row(u.identity, Created, snapshot, Empty, true, u.resourceVersion, [], c.now, config.name);
      var record := Record(u.identity, revision, c.now, c.now, false, config.name);
      Save(u.uid, revision, row, record, c);
    }

    /** The document of the latest revision, if that is a snapshot and can be parsed. */
    method ReadLastState(latestRev: Row) returns (last: Option<Doc>)
      ensures last == LastState(Some(latestRev))
    {
      var lastState := Empty;
      if latestRev.isSnapshot && latestRev.snapshot != Empty {
        lastState := Unpack(latestRev.snapshot);
      }
      if lastState == Empty {
        return None;
      }
      if !(lastState.Text? && lastState.json.Obj?) {
        return None;
      }
      last := Some(lastState.json.members);
    }

    /** The branch of OnAdd for a re-list of a resource that is already tracked. */
    method Relisted(u: Resource, stripped: Doc, existing: Record, c: Conditions)
      requires stripped == config.Stripped(u)
      requires ReadRecord(store.Contents(), u.uid, c.readFails) == Some(existing)
      modifies store
      ensures store.Contents() == Handled(config, old(store.Contents()), Add(u, true), c)
    {
      var latest := store.GetLatestRevision(u.uid, c.latestFails);
      if latest.None? {
        return;
      }
      var latestRev := store.Contents().LogOf(u.uid)[latest.value];
      LatestRowIs(store.Contents(), u.uid, latest.value);
      var lastState := ReadLastState(latestRev);
      if lastState.None? {
        return;
      }
      var last := lastState.value;
      var patch := Diff(last, stripped);
      DiffEmpty(last, stripped);
      if patch == map[] {
        return;
      }
      if !Enabled(config.updates) {
        return;
      }
      var changedPaths := ChangedPaths.GetChangedPaths(last, stripped);
      var revision := existing.currentRevision + 1;
      var row := RevisionRow(u, last, stripped, patch, changedPaths, revision, c);
      var record := Record(u.identity, revision, existing.firstSeen, c.now, false, config.name);
      assert PlanAdd(config, u, true, Some(existing), Some(latestRev), c.now, c.gzipWorks) ==
             Write(u.uid, revision, row, SaveRecord(record));
      Save(u.uid, revision, row, record, c);
    }

    /** The revision built for a change: a snapshot when the number is a multiple of the interval. */
    method RevisionRow(u: Resource, ghost last: Doc, stripped: Doc, patch: Doc, changedPaths: seq<string>,
                       revision: int, c: Conditions)
      returns (row: Row)
      requires stripped == config.Stripped(u) && patch == Diff(last, stripped)
      requires changedPaths == ChangedPaths.PathList(last, stripped)
      ensures row == UpdateRow(config, u, last, revision, c.now, c.gzipWorks)
    {
      var snapshotEvery := DEFAULT_SNAPSHOT_EVERY;
      if config.snapshotEvery > 0 {
        snapshotEvery := config.snapshotEvery;
      }
      row := Row(u.identity, Updated, Empty, Empty, false, u.resourceVersion, changedPaths, c.now, config.name);
      if revision % snapshotEvery == 0 {
        var snapshot := Pack(Text(Obj(stripped)), Enabled(config.compressSnapshots), c.gzipWorks);
        row := row.(snapshot := snapshot, isSnapshot := true);
      } else {
        row := row.(patch := Text(Obj(patch)), isSnapshot := false);
      }
    }

    method OnUpdate(oldU: Resource, newU: Resource, c: Conditions)
      modifies store
      ensures store.Contents() == Handled(config, old(store.Contents()), Update(oldU, newU), c)
    {
      if !Enabled(config.updates) {
        return;
      }
      var oldStripped := config.Stripped(oldU);
      var newStripped := config.Stripped(newU);
      var patch := Diff(oldStripped, newStripped);
      DiffEmpty(oldStripped, newStripped);
      if patch == map[] {
        return;
      }
      var changedPaths := ChangedPaths.GetChangedPaths(oldStripped, newStripped);
      var existing := store.GetTrackedResource(newU.uid, c.readFails);
      var revision := 1;
      if existing.Some? {
        revision := existing.value.currentRevision + 1;
      }
      var row := RevisionRow(newU, oldStripped, newStripped, patch, changedPaths, revision, c);
      var firstSeen := c.now;
      if existing.Some? && existing.value.firstSeen != ZERO_TIME {
        firstSeen := existing.value.firstSeen;
      }
      var record := Record(newU.identity, revision, firstSeen, c.now, false, config.name);
      assert PlanUpdate(config, oldU, newU, existing, c.now, c.gzipWorks) ==
             Write(newU.uid, revision, row, SaveRecord(record));
      Save(newU.uid, revision, row, record, c);
    }

    method OnDelete(u: Resource, c: Conditions)
      modifies store
      ensures store.Contents() == Handled(config, old(store.Contents()), Delete(u), c)
    {
      if !Enabled(config.deletions) {
        return;
      }
      var existing := store.GetTrackedResource(u.uid, c.readFails);
      var revision := 1;
      if existing.Some? {
        revision := existing.value.currentRevision + 1;
      }
      var stripped := config.Stripped(u);
      var snapshot := Pack(Text(Obj(stripped)), Enabled(config.compressSnapshots), c.gzipWorks);
      var row := Row(u.identity, Deleted, snapshot, Empty, true, u.resourceVersion, [], c.now, config.name);
      var ok := store.StoreRevision(u.uid, revision, row, c.insert);
      if !ok {
        return;
      }
      ok := store.MarkDeleted(u.uid, c.now, c.finish);
    }
  }
}
