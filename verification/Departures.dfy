/** Where the code does not do what is meant: one input on the failing side of each exact condition. */
module Departures {
  import opened Wrappers
  import opened Json
  import opened MergePatch
  import opened Store
  import opened Reconstruct
  import opened Recorder
  import opened History
  import opened Relist
  import StripFields
  import Interleaving
  import Registry

  // ---------------------------------------------------------------- objects that stripping leaves alone

  /** A policy with nothing set but the default interval. */
  const PLAIN := Config("plain", [], true, None, None, None, DEFAULT_SNAPSHOT_EVERY, None)

  const UID := "6f1c"

  const NO_TABLES := Tables(map[], map[])

  function Demo(doc: Doc): Resource {
    Resource(UID, Identity("v1", "ConfigMap", "default", "demo"), "1", doc)
  }

  function V(n: real): Doc {
    map["v" := Num(n)]
  }

  lemma Distinct(x: real, y: real)
    requires x != y
    ensures V(x) != V(y) && V(x) != map[]
  {
    assert V(x)["v"] != V(y)["v"];
  }

  function Now(ev: Event): Delivery {
    Delivery(ev, 0, true)
  }

  ghost function Took(cfg: Config, t: Tables, ev: Event): Tables {
    Handled(cfg, t, ev, Now(ev).Conditions())
  }

  predicate PlainKeys(doc: Doc) {
    "metadata" !in doc && "status" !in doc
  }

  /** A policy that ignores no further fields strips nothing from an object without metadata and status. */
  lemma PlainStrip(cfg: Config, doc: Doc)
    requires cfg.ignoreFields == [] && PlainKeys(doc)
    ensures cfg.Stripped(Demo(doc)) == doc
  {
    var stripped := StripFields.Strip(doc, cfg.ignoreFields, cfg.trackStatus);
    forall q: Path
      ensures NodeAt(Obj(stripped), q) == NodeAt(Obj(doc), q)
    {
      StripFields.StripNodes(doc, cfg.ignoreFields, cfg.trackStatus, q);
      if StripFields.Dropped(cfg.ignoreFields, cfg.trackStatus, q) {
        assert q[0] == "metadata" || q[0] == "status";
      }
    }
    SameNodesSameDocument(Obj(stripped), Obj(doc));
  }

  // ---------------------------------------------------------------- a short history

  /** A history, its counter at the end, whose newest revision rebuilds exactly. */
  ghost predicate Recorded(t: Tables, docs: map<int, Doc>, m: int) {
    Newest(t.LogOf(UID), docs, m) && UID in t.tracked && t.tracked[UID].currentRevision == m &&
    Exact(Rebuild(t.LogOf(UID), m), docs[m])
  }

  /** A first add records revision 1 in full. */
  lemma FirstAdd(cfg: Config, doc: Doc) returns (t: Tables)
    requires Enabled(cfg.creations) && cfg.Stripped(Demo(doc)) == doc
    ensures t == Took(cfg, NO_TABLES, Add(Demo(doc), false)) && Recorded(t, map[1 := doc], 1)
    ensures IsSnapshotAt(t.LogOf(UID), 1)
  {
    var ev := Add(Demo(doc), false);
    var e := Decided(cfg, NO_TABLES, ev, Now(ev).Conditions());
    t := Took(cfg, NO_TABLES, ev);
    assert e == PlanAdd(cfg, Demo(doc), false, None, None, 0, true);
    RowWritten(NO_TABLES, e, Now(ev).Conditions());
    SnapshotReads(cfg, doc, true);
    assert t.LogOf(UID) == map[1 := e.row];
    RebuildNext(t.LogOf(UID), 1);
  }

  lemma ExtendedNewest(log: Log, docs: map<int, Doc>, m: int, row: Row, doc: Doc)
    requires Newest(log, docs, m) && RowOfChange(row, docs[m], doc)
    ensures Newest(log[m + 1 := row], docs[m + 1 := doc], m + 1)
  {
    ExtendedTruthful(log, docs, m, row, doc);
  }

  lemma ContinuedExact(cfg: Config, log: Log, log': Log, m: int, a: Doc, b: Doc)
    requires ChangeRecorded(cfg, log, log', m, a, b) && Exact(Rebuild(log, m), a) && NullsCarried(Obj(a), Obj(b))
    requires m + 1 !in log
    ensures Exact(Rebuild(log', m + 1), b)
  {
    RebuildStable(log, log', m);
    ChangeOnce(log', m, a, b);
  }

  /** A change recorded over a complete history completes it. */
  lemma Continued(cfg: Config, t: Tables, t': Tables, docs: map<int, Doc>, m: int, doc: Doc)
    requires Recorded(t, docs, m) && Adds(cfg, t, t', UID, m, docs[m], doc) && NullsCarried(Obj(docs[m]), Obj(doc))
    ensures Recorded(t', docs[m + 1 := doc], m + 1)
  {
    ExtendedNewest(t.LogOf(UID), docs, m, t'.LogOf(UID)[m + 1], doc);
    ContinuedExact(cfg, t.LogOf(UID), t'.LogOf(UID), m, docs[m], doc);
  }

  lemma NextUpdate(cfg: Config, t: Tables, docs: map<int, Doc>, m: int, a: Doc, b: Doc) returns (t': Tables)
    requires cfg.ignoreFields == [] && Enabled(cfg.updates) && PlainKeys(a) && PlainKeys(b) && a != b
    requires Recorded(t, docs, m)
    ensures t' == Took(cfg, t, Update(Demo(a), Demo(b))) && Adds(cfg, t, t', UID, m, a, b)
    ensures docs[m] == a && NullsCarried(Obj(a), Obj(b)) ==> Recorded(t', docs[m + 1 := b], m + 1)
  {
    PlainStrip(cfg, a);
    PlainStrip(cfg, b);
    t' := Took(cfg, t, Update(Demo(a), Demo(b)));
    UpdateRecorded(cfg, t, Now(Update(Demo(a), Demo(b))), m);
    if docs[m] == a && NullsCarried(Obj(a), Obj(b)) {
      Continued(cfg, t, t', docs, m, b);
    }
  }

  // ---------------------------------------------------------------- nulls

  /** A null member that an update introduces is lost. */
  lemma IntroducedNullLost()
    ensures Patched(Obj(map[]), map[], map["v" := Null]) != Obj(map["v" := Null])
  {
    PatchedMember(map[], map[], map["v" := Null], "v");
  }

  lemma NullIntroduced()
    ensures !NullsCarried(Obj(map[]), Obj(map["v" := Null]))
  {
    RoundTrip(map[], map["v" := Null]);
    IntroducedNullLost();
  }

  /** An update that introduces a null, recorded by a policy due for a snapshot and then by one that is not: the two
      revisions rebuild to different documents. */
  lemma DuplicateWithNullDiffers()
    ensures var ev := Update(Demo(map[]), Demo(map["v" := Null]));
      var t := Took(PLAIN, NO_TABLES, Add(Demo(map[]), false));
      var log := Took(PLAIN, Took(PLAIN.(snapshotEvery := 2), t, ev), ev).LogOf(UID);
      2 in log && 3 in log && Rebuild(log, 2) != Rebuild(log, 3)
  {
    PlainStrip(PLAIN, map[]);
    var t := FirstAdd(PLAIN, map[]);
    NullIntroduced();
    assert "v" in map["v" := Null];
    SnapshotThenPatch(t, map[1 := map[]], map["v" := Null]);
  }

  lemma SnapshotThenPatch(t: Tables, docs: map<int, Doc>, b: Doc)
    requires Recorded(t, docs, 1) && PlainKeys(docs[1]) && PlainKeys(b) && docs[1] != b
    requires !NullsCarried(Obj(docs[1]), Obj(b))
    ensures var ev := Update(Demo(docs[1]), Demo(b));
      var log := Took(PLAIN, Took(PLAIN.(snapshotEvery := 2), t, ev), ev).LogOf(UID);
      2 in log && 3 in log && Rebuild(log, 2) != Rebuild(log, 3)
  {
    DuplicatesDiffer(PLAIN.(snapshotEvery := 2), PLAIN, t, 1, docs[1], docs[1], b);
  }

  /** One update recorded by two policies that ignore no further fields, one in full and one as a patch. */
  lemma DuplicatesDiffer(cfg1: Config, cfg2: Config, t: Tables, m: int, x: Doc, a: Doc, b: Doc)
    requires cfg1.ignoreFields == cfg2.ignoreFields == [] && cfg1.trackStatus == cfg2.trackStatus
    requires Enabled(cfg1.updates) && Enabled(cfg2.updates)
    requires UID in t.tracked && t.tracked[UID].currentRevision == m
    requires EndsBy(t.LogOf(UID), m) && Base(t.LogOf(UID), m, Some(x))
    requires PlainKeys(a) && PlainKeys(b) && a != b
    requires (m + 1) % cfg1.Every() == 0 <==> (m + 2) % cfg2.Every() != 0
    requires if (m + 1) % cfg1.Every() == 0 then !NullsCarried(Obj(a), Obj(b)) else !MatchesWhereLeft(x, a, b)
    ensures var ev := Update(Demo(a), Demo(b));
      var log := Took(cfg2, Took(cfg1, t, ev), ev).LogOf(UID);
      m + 1 in log && m + 2 in log && Rebuild(log, m + 1) != Rebuild(log, m + 2)
  {
    var d := Now(Update(Demo(a), Demo(b)));
    PlainStrip(cfg1, a);
    PlainStrip(cfg1, b);
    DuplicateDelivery(cfg1, cfg2, t, m, Some(x), d, d);
  }

  /** A null lost earlier is enough: it need not come with the update that is recorded twice. */
  lemma DuplicateAfterLostNull()
    ensures var a, b := map["v" := Null], map["v" := Null]["w" := Num(1.0)];
      var t := Took(PLAIN, Took(PLAIN, NO_TABLES, Add(Demo(map[]), false)), Update(Demo(map[]), Demo(a)));
      var ev := Update(Demo(a), Demo(b));
      var log := Took(PLAIN.(snapshotEvery := 4), Took(PLAIN, t, ev), ev).LogOf(UID);
      NullsCarried(Obj(a), Obj(b)) && 3 in log && 4 in log && Rebuild(log, 3) != Rebuild(log, 4)
  {
    var a, b := map["v" := Null], map["v" := Null]["w" := Num(1.0)];
    PlainStrip(PLAIN, map[]);
    var t := FirstAdd(PLAIN, map[]);
    assert a != map[] && a != b by {
      assert "v" in a && "w" !in a;
    }
    var t' := NextUpdate(PLAIN, t, map[1 := map[]], 1, map[], a);
    NullLostBefore(t, t', a, b);
    NullStays(a, b);
  }

  lemma NullStays(a: Doc, b: Doc)
    requires a == map["v" := Null] && b == map["v" := Null]["w" := Num(1.0)]
    ensures NullsCarried(Obj(a), Obj(b))
    ensures Patched(Obj(map[]), map[], a) == Obj(map[])
    ensures !MatchesWhereLeft(map[], a, b)
  {
    OnlyObjectsHoldNulls(Null, b["w"]);
    assert forall k :: k in b ==> NullsCarriedAt(a, b, k);
    NullsCarriedByMember(a, b);
    var left := Patched(Obj(map[]), map[], a).members;
    forall k: string
      ensures Get(left, k) == Get(map[], k)
    {
      PatchedMember(map[], map[], a, k);
    }
    SameGetsSameMembers(left, map[]);
    PatchedMember(map[], a, b, "v");
    ReachesIff(map[], a, b);
  }

  lemma NullLostBefore(t: Tables, t': Tables, a: Doc, b: Doc)
    requires a == map["v" := Null] && b == map["v" := Null]["w" := Num(1.0)] && a != b
    requires Recorded(t, map[1 := map[]], 1) && Adds(PLAIN, t, t', UID, 1, map[], a)
    ensures var ev := Update(Demo(a), Demo(b));
      var log := Took(PLAIN.(snapshotEvery := 4), Took(PLAIN, t', ev), ev).LogOf(UID);
      3 in log && 4 in log && Rebuild(log, 3) != Rebuild(log, 4)
  {
    NullStays(a, b);
    ExactAfterPatch(t.LogOf(UID), t'.LogOf(UID), a);
    DuplicatesDiffer(PLAIN, PLAIN.(snapshotEvery := 4), t', 2, map[], a, b);
  }

  lemma ExactAfterPatch(log: Log, log': Log, a: Doc)
    requires ChangeRecorded(PLAIN, log, log', 1, map[], a) && IsLatest(log, 1) && Exact(Rebuild(log, 1), map[])
    requires Patched(Obj(map[]), map[], a) == Obj(map[])
    ensures EndsBy(log', 2) && Base(log', 2, Some(map[]))
  {
    RebuildStable(log, log', 1);
    ChangeRebuilt(log', 1, Obj(map[]), map[], a);
  }

  // ---------------------------------------------------------------- stranded counters

  /** The four steps of a first add whose second write does not happen. */
  function CutShort(cfg: Config, obj: Resource, insert: Call, last: Interleaving.Step): seq<Interleaving.Step> {
    [Interleaving.Begin(0, cfg, Add(obj, false), false), Interleaving.Decide(0, 0, true, false),
     Interleaving.Insert(0, insert), last]
  }

  /** The insert is applied but reported as failed; or the record's update fails; or a crash comes in between. */
  predicate Strands(insert: Call, last: Interleaving.Step) {
    (insert.Lost? && last == Interleaving.Crash(0)) ||
    (insert.Works? && (last == Interleaving.Finish(0, Fails) || last == Interleaving.Crash(0)))
  }

  lemma LeavesStuck(cfg: Config, obj: Resource, insert: Call, last: Interleaving.Step)
    requires Enabled(cfg.creations) && Strands(insert, last)
    ensures Interleaving.Stuck(Interleaving.Exec(Interleaving.EMPTY, CutShort(cfg, obj, insert, last)), obj.uid, 1)
  {
    var begin, decide := Interleaving.Begin(0, cfg, Add(obj, false), false), Interleaving.Decide(0, 0, true, false);
    Interleaving.ExecFour(Interleaving.EMPTY, begin, decide, Interleaving.Insert(0, insert), last);
    var s2 := Interleaving.Next(Interleaving.Next(Interleaving.EMPTY, begin), decide);
    var e := PlanAdd(cfg, obj, false, None, None, 0, true);
    assert s2.PcOf(0) == Interleaving.Ready(e);
  }

  /** Each of these leaves a resource with one revision that no steps of any handlers ever follow with another. */
  lemma StrandedCounter(cfg: Config, obj: Resource, insert: Call, last: Interleaving.Step, more: seq<Interleaving.Step>)
    requires Enabled(cfg.creations) && Strands(insert, last)
    ensures Interleaving.Exec(Interleaving.EMPTY, CutShort(cfg, obj, insert, last) + more).tables.LogOf(obj.uid).Keys
         == {1}
  {
    var s := Interleaving.Exec(Interleaving.EMPTY, CutShort(cfg, obj, insert, last));
    LeavesStuck(cfg, obj, insert, last);
    Interleaving.StuckStays(s, more, obj.uid, 1);
    Interleaving.ExecConcat(Interleaving.EMPTY, CutShort(cfg, obj, insert, last), more);
    assert forall r :: r in s.tables.LogOf(obj.uid) <==> r == 1;
  }

  // ---------------------------------------------------------------- runs of one policy

  function Story(events: seq<Event>): seq<Action> {
    seq(|events|, i requires 0 <= i < |events| => Arrive(Now(events[i])))
  }

  ghost function Told(events: seq<Event>): Tables {
    Run(PLAIN, Story(events)).tables
  }

  lemma ToldMore(events: seq<Event>, ev: Event)
    ensures Told(events + [ev]) == Took(PLAIN, Told(events), ev)
  {
    var actions := Story(events + [ev]);
    assert actions[..|actions| - 1] == Story(events);
  }

  lemma OnlyNumbers(a: Doc, b: Doc)
    requires forall k | k in b :: b[k].Num?
    ensures NullsCarried(Obj(a), Obj(b))
  {
    forall k | k in b {
      OnlyObjectsHoldNulls(Member(a, k), b[k]);
    }
    NullsCarriedByMember(a, b);
  }

  lemma ToldFirst(doc: Doc)
    requires PlainKeys(doc)
    ensures Recorded(Told([Add(Demo(doc), false)]), map[1 := doc], 1)
    ensures IsSnapshotAt(Told([Add(Demo(doc), false)]).LogOf(UID), 1)
  {
    PlainStrip(PLAIN, doc);
    var t := FirstAdd(PLAIN, doc);
    ToldMore([], Add(Demo(doc), false));
    assert [] + [Add(Demo(doc), false)] == [Add(Demo(doc), false)];
    assert Told([]) == NO_TABLES;
  }

  lemma ToldUpdate(events: seq<Event>, docs: map<int, Doc>, m: int, a: Doc, b: Doc)
    requires Recorded(Told(events), docs, m) && PlainKeys(a) && PlainKeys(b) && a != b
    requires forall k | k in b :: b[k].Num?
    ensures Adds(PLAIN, Told(events), Told(events + [Update(Demo(a), Demo(b))]), UID, m, a, b)
    ensures docs[m] == a ==> Recorded(Told(events + [Update(Demo(a), Demo(b))]), docs[m + 1 := b], m + 1)
  {
    var t' := NextUpdate(PLAIN, Told(events), docs, m, a, b);
    OnlyNumbers(a, b);
    ToldMore(events, Update(Demo(a), Demo(b)));
  }

  // ---------------------------------------------------------------- drift

  const ADDED := [Add(Demo(map[]), false)]

  const CHANGED := ADDED + [Update(Demo(map[]), Demo(V(1.0)))]

  predicate PatchAt(log: Log, r: int) {
    r in log && !log[r].isSnapshot
  }

  lemma PatchAdded(t: Tables, t': Tables, m: int, a: Doc, b: Doc)
    requires Adds(PLAIN, t, t', UID, m, a, b) && 0 < m + 1 < DEFAULT_SNAPSHOT_EVERY
    ensures PatchAt(t'.LogOf(UID), m + 1)
  {
  }

  lemma FirstChange(a: Doc, b: Doc)
    requires PlainKeys(a) && PlainKeys(b) && a != b && forall k | k in b :: b[k].Num?
    ensures var t := Told([Add(Demo(a), false)] + [Update(Demo(a), Demo(b))]);
      Recorded(t, map[1 := a][2 := b], 2) && PatchAt(t.LogOf(UID), 2)
  {
    var first := [Add(Demo(a), false)];
    ToldFirst(a);
    ToldUpdate(first, map[1 := a], 1, a, b);
    PatchAdded(Told(first), Told(first + [Update(Demo(a), Demo(b))]), 1, a, b);
  }

  lemma ChangedRecorded()
    ensures Recorded(Told(CHANGED), map[1 := map[]][2 := V(1.0)], 2) && PatchAt(Told(CHANGED).LogOf(UID), 2)
  {
    Distinct(1.0, 2.0);
    FirstChange(map[], V(1.0));
  }

  /** A change missed while the controller was down, after a patch: the re-list records nothing and the newest revision
      still rebuilds to the old object. */
  lemma DriftMissed()
    ensures Told(CHANGED + [Add(Demo(V(2.0)), true)]) == Told(CHANGED)
    ensures IsLatest(Told(CHANGED).LogOf(UID), 2) && Exact(Rebuild(Told(CHANGED).LogOf(UID), 2), V(1.0))
  {
    var listed := Add(Demo(V(2.0)), true);
    ChangedRecorded();
    ToldMore(CHANGED, listed);
    DriftRepairIff(PLAIN, Told(CHANGED), map[1 := map[]][2 := V(1.0)], 2, Now(listed));
  }

  /** The next update then starts from an object that was never recorded: its patch rebuilds to a document that no
      longer matches, up to nulls, the object delivered. */
  lemma DriftSpoilsNext()
    ensures var after := V(2.0)["w" := Num(0.0)];
      var log := Told(CHANGED + [Add(Demo(V(2.0)), true)] + [Update(Demo(V(2.0)), Demo(after))]).LogOf(UID);
      3 in log && !AgreesUpToNulls(Rebuild(log, 3), after)
  {
    DriftMissed();
    ChangedRecorded();
    assert V(2.0)["w" := Num(0.0)] != V(2.0) by {
      assert "w" !in V(2.0);
    }
    UpdateAfter(CHANGED + [Add(Demo(V(2.0)), true)], map[1 := map[]][2 := V(1.0)], V(2.0), V(2.0)["w" := Num(0.0)]);
  }

  lemma UpdateAfter(events: seq<Event>, docs: map<int, Doc>, a: Doc, b: Doc)
    requires Recorded(Told(events), docs, 2) && docs[2] == V(1.0) && a == V(2.0) && b == V(2.0)["w" := Num(0.0)]
    requires a != b
    ensures var log := Told(events + [Update(Demo(a), Demo(b))]).LogOf(UID);
      3 in log && !AgreesUpToNulls(Rebuild(log, 3), b)
  {
    ToldUpdate(events, docs, 2, a, b);
    Spoilt(Told(events).LogOf(UID), Told(events + [Update(Demo(a), Demo(b))]).LogOf(UID));
  }

  lemma Spoilt(log: Log, log': Log)
    requires ChangeRecorded(PLAIN, log, log', 2, V(2.0), V(2.0)["w" := Num(0.0)]) && 3 !in log
    requires Exact(Rebuild(log, 2), V(1.0))
    ensures !AgreesUpToNulls(Rebuild(log', 3), V(2.0)["w" := Num(0.0)])
  {
    var after := V(2.0)["w" := Num(0.0)];
    RebuildStable(log, log', 2);
    ChangeRebuilt(log', 2, Obj(V(1.0)), V(2.0), after);
    MemberKept(V(1.0), V(2.0), after, "v");
  }

  lemma MemberKept(x: Doc, a: Doc, b: Doc, k: string)
    requires k in x && k in b && Get(a, k) == Get(b, k) && x[k].Num? && b[k].Num? && x[k] != b[k]
    ensures Prune(Patched(Obj(x), a, b)) != Prune(Obj(b))
  {
    PatchedMember(x, a, b, k);
    PrunedMember(Patched(Obj(x), a, b).members, k);
    PrunedMember(b, k);
  }

  // ---------------------------------------------------------------- purges

  lemma TookAtZero(t: Tables, ev: Event)
    requires forall r :: r in t.LogOf(UID) ==> t.LogOf(UID)[r].timestamp == 0
    ensures var log' := Took(PLAIN, t, ev).LogOf(UID);
      forall r :: r in log' ==> log'[r].timestamp == 0
  {
    var e, c := Decided(PLAIN, t, ev, Now(ev).Conditions()), Now(ev).Conditions();
    if e.Write? {
      RowDescribesEvent(PLAIN, ev, ReadRecord(t, ev.obj.uid, false), LatestRow(t, ev.obj.uid, false), 0, true);
    }
    StampKept(t, e, c);
  }

  lemma StampKept(t: Tables, e: Decision, c: Conditions)
    requires forall r :: r in t.LogOf(UID) ==> t.LogOf(UID)[r].timestamp == 0
    requires e.Write? ==> e.row.timestamp == 0
    ensures var log' := Perform(t, e, c).LogOf(UID);
      forall r :: r in log' ==> log'[r].timestamp == 0
  {
    var log, log' := t.LogOf(UID), Perform(t, e, c).LogOf(UID);
    assert log' == log || (e.Write? && e.uid == UID && log' == log[e.revision := e.row]);
  }

  lemma {:induction false} ToldAtZero(events: seq<Event>)
    ensures var log := Told(events).LogOf(UID);
      forall r :: r in log ==> log[r].timestamp == 0
    decreases |events|
  {
    if events == [] {
      assert Told([]) == NO_TABLES;
    } else {
      var front := events[..|events| - 1];
      ToldAtZero(front);
      ToldMore(front, events[|events| - 1]);
      assert front + [events[|events| - 1]] == events;
      TookAtZero(Told(front), events[|events| - 1]);
    }
  }

  lemma PurgedAway(log: Log)
    requires forall r :: r in log ==> log[r].timestamp == 0
    ensures PurgeOld(log, 1) == map[]
  {
    assert forall r :: r !in PurgeOld(log, 1);
  }

  /** Both rows of a short history purged between the two reads of a reconstruction: revision 2 comes out as revision 1,
      although the timestamps are in order. */
  lemma PurgeBetweenReadsLies()
    ensures var log := Told(CHANGED).LogOf(UID);
      TwoReads(log, PurgeOld(log, 1), 2) == Ok(Text(Obj(map[]))) && Exact(Rebuild(log, 2), V(1.0))
  {
    Distinct(1.0, 2.0);
    ChangedRecorded();
    ToldAtZero(CHANGED);
    PurgedAway(Told(CHANGED).LogOf(UID));
    ChangedFromFirst(map[], V(1.0));
  }

  lemma ChangedFromFirst(a: Doc, b: Doc)
    requires PlainKeys(a) && PlainKeys(b) && a != b && forall k | k in b :: b[k].Num?
    ensures TwoReads(Told([Add(Demo(a), false)] + [Update(Demo(a), Demo(b))]).LogOf(UID), map[], 2) == Ok(Text(Obj(a)))
  {
    var first := [Add(Demo(a), false)];
    var both := first + [Update(Demo(a), Demo(b))];
    ToldFirst(a);
    ToldUpdate(first, map[1 := a], 1, a, b);
    PatchAdded(Told(first), Told(both), 1, a, b);
    SecondReadEmpty(Told(first).LogOf(UID), Told(both).LogOf(UID), a, b);
  }

  lemma SecondReadEmpty(log: Log, log': Log, a: Doc, b: Doc)
    requires IsSnapshotAt(log, 1) && IsLatest(log, 1) && Exact(Rebuild(log, 1), a)
    requires ChangeRecorded(PLAIN, log, log', 1, a, b) && PatchAt(log', 2)
    ensures TwoReads(log', map[], 2) == Ok(Text(Obj(a)))
  {
    RebuildNext(log, 1);
    assert IsNearest(log', 2, 1);
    NearestUnique(log', 2);
    NothingToFollow(1, 2, Ok(Unpack(log'[1].snapshot)));
  }

  lemma {:induction false} NothingToFollow(after: int, upTo: int, start: Outcome)
    ensures Follow(map[], after, upTo, start) == start
    decreases upTo - after
  {
    if upTo <= after {
    } else {
      NothingToFollow(after, upTo - 1, start);
    }
  }

  /** Once revision 1 is purged, an add that cannot read the record stores revision 1 again and sends the counter
      back. */
  lemma FailedReadAfterPurge(doc: Doc)
    ensures var t := Told(CHANGED).Expire(1);
      var t' := Handled(PLAIN, t, Add(Demo(doc), false), Conditions(1, true, true, false, Works, Works));
      Current(t, UID) == 2 && 1 in t'.LogOf(UID) && Current(t', UID) == 1
  {
    ChangedRecorded();
    ToldAtZero(CHANGED);
    AllExpired(Told(CHANGED));
    Interleaving.FreeAddStored(Told(CHANGED).Expire(1), PLAIN, Add(Demo(doc), false),
                               Conditions(1, true, true, false, Works, Works));
  }

  lemma AllExpired(t: Tables)
    requires forall r :: r in t.LogOf(UID) ==> t.LogOf(UID)[r].timestamp == 0
    ensures t.Expire(1).LogOf(UID) == map[] && Current(t.Expire(1), UID) == Current(t, UID)
  {
    ExpiredLog(t, 1, UID);
    PurgedAway(t.LogOf(UID));
  }

  // ---------------------------------------------------------------- late delivery

  /** A policy that records the change from 1 to 2 after another has recorded 2 to 3: the newest revision says 2. */
  lemma LateDuplicateHarms()
    ensures var events := [Add(Demo(V(1.0)), false)] + [Update(Demo(V(1.0)), Demo(V(2.0)))] +
                          [Update(Demo(V(2.0)), Demo(V(3.0)))] + [Update(Demo(V(1.0)), Demo(V(2.0)))];
      IsLatest(Told(events).LogOf(UID), 4) && Exact(Rebuild(Told(events).LogOf(UID), 4), V(2.0))
  {
    var one := [Add(Demo(V(1.0)), false)];
    var two := one + [Update(Demo(V(1.0)), Demo(V(2.0)))];
    var three := two + [Update(Demo(V(2.0)), Demo(V(3.0)))];
    Distinct(1.0, 2.0);
    Distinct(2.0, 3.0);
    ToldFirst(V(1.0));
    LateStory(one, V(1.0), V(2.0), V(3.0));
    Rewound(Told(three).LogOf(UID), Told(three + [Update(Demo(V(1.0)), Demo(V(2.0)))]).LogOf(UID));
  }

  lemma LateStory(one: seq<Event>, a: Doc, b: Doc, c: Doc)
    requires Recorded(Told(one), map[1 := a], 1) && PlainKeys(a) && PlainKeys(b) && PlainKeys(c) && a != b && b != c
    requires (forall k | k in b :: b[k].Num?) && (forall k | k in c :: c[k].Num?)
    ensures var three := one + [Update(Demo(a), Demo(b))] + [Update(Demo(b), Demo(c))];
      var log, log' := Told(three).LogOf(UID), Told(three + [Update(Demo(a), Demo(b))]).LogOf(UID);
      IsLatest(log, 3) && Exact(Rebuild(log, 3), c) && ChangeRecorded(PLAIN, log, log', 3, a, b)
  {
    var two := one + [Update(Demo(a), Demo(b))];
    ToldUpdate(one, map[1 := a], 1, a, b);
    ToldUpdate(two, map[1 := a][2 := b], 2, b, c);
    ToldUpdate(two + [Update(Demo(b), Demo(c))], map[1 := a][2 := b][3 := c], 3, a, b);
  }

  lemma Rewound(log: Log, log': Log)
    requires ChangeRecorded(PLAIN, log, log', 3, V(1.0), V(2.0)) && IsLatest(log, 3)
    requires Exact(Rebuild(log, 3), V(3.0))
    ensures IsLatest(log', 4) && Exact(Rebuild(log', 4), V(2.0))
  {
    RebuildStable(log, log', 3);
    ChangeRebuilt(log', 3, Obj(V(3.0)), V(1.0), V(2.0));
    var late := Patched(Obj(V(3.0)), V(1.0), V(2.0)).members;
    forall k: string
      ensures Get(late, k) == Get(V(2.0), k)
    {
      PatchedMember(V(3.0), V(1.0), V(2.0), k);
    }
    SameGetsSameMembers(late, V(2.0));
  }

  // ---------------------------------------------------------------- a history without a base

  /** An object first seen when it changes: revision 1 is a patch and cannot be rebuilt. */
  lemma FirstChangeLost()
    ensures var log := Told([Update(Demo(map[]), Demo(V(1.0)))]).LogOf(UID);
      1 in log && Rebuild(log, 1) == Err(NoSnapshot)
  {
    PlainStrip(PLAIN, map[]);
    PlainStrip(PLAIN, V(1.0));
    Distinct(1.0, 2.0);
    OneUpdate(Story([Update(Demo(map[]), Demo(V(1.0)))]), Update(Demo(map[]), Demo(V(1.0))));
  }

  lemma OneUpdate(actions: seq<Action>, ev: Event)
    requires actions == [Arrive(Now(ev))] && ev.Update? && ev.obj.uid == UID && Noted(PLAIN, ev)
    ensures var log := Run(PLAIN, actions).tables.LogOf(UID);
      1 in log && Rebuild(log, 1) == Err(NoSnapshot)
  {
    assert actions[..0] == [];
    assert FirstOf(actions, UID) == Some(ev);
    FirstRow(PLAIN, actions, UID);
    FirstEventNotSnapshot(PLAIN, actions, UID, 1);
  }

  // ---------------------------------------------------------------- leaked watchers

  /** A policy that lists a type twice: a watcher keeps running that neither its map nor StopAll reaches. */
  lemma RepeatedTypeLeaks(gvr: Registry.Gvr)
    ensures var ops := [Registry.Reconcile(Registry.Policy("p", false, [Some(gvr), Some(gvr)]))];
      !Registry.Consistent(Registry.Exec(ops)) && Registry.Exec(ops + [Registry.StopAll]).live != {}
  {
    var resources := [Some(gvr), Some(gvr)];
    var ops := [Registry.Reconcile(Registry.Policy("p", false, resources))];
    assert resources[0].value.TypeName() == resources[1].value.TypeName();
    assert !Registry.DistinctNames(resources);
    assert !Registry.NoRepeatedNames(ops[0]);
    Registry.LiveIsRegisteredIff(ops);
    Registry.StopAllStopsIff(ops);
  }
}
