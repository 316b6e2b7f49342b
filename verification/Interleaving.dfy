/** Any number of handlers at once: their store calls interleave, fail, get lost or are cut short by a crash. */
module Interleaving {
  import opened Wrappers
  import opened Store
  import opened Recorder
  import opened Retention

  /** Where a handler stands between two store calls. */
  datatype Pc =
    | Idle
    | Reading(cfg: Config, ev: Event, existing: Option<Record>)
    | Ready(decision: Decision)
    | Inserted(uid: string, revision: int, after: AfterInsert)

  function AfterDecision(d: Decision): Pc {
    if d.Skip? then Idle else Ready(d)
  }

  datatype State = State(tables: Tables, workers: map<int, Pc>) {
    function PcOf(h: int): Pc {
      if h in workers then workers[h] else Idle
    }

    function Move(h: int, pc: Pc): State {
      this.(workers := workers[h := pc])
    }
  }

  /** One store call of one handler, or the loss of everything a handler was about to do. */
  datatype Step =
    | Begin(h: int, cfg: Config, ev: Event, readFails: bool)
    | Decide(h: int, now: int, gzipWorks: bool, latestFails: bool)
    | Insert(h: int, call: Call)
    | Finish(h: int, call: Call)
    | Crash(h: int)

  /** A step that its handler is not ready for changes nothing. */
  ghost function Next(s: State, step: Step): State {
    var pc := s.PcOf(step.h);
    match step
    case Begin(h, cfg, ev, readFails) =>
      if pc.Idle? then s.Move(h, Reading(cfg, ev, ReadRecord(s.tables, ev.obj.uid, readFails))) else s
    case Decide(h, now, gzipWorks, latestFails) =>
      if pc.Reading? then
        var d := Plan(pc.cfg, pc.ev, pc.existing, LatestRow(s.tables, pc.ev.obj.uid, latestFails), now, gzipWorks);
        s.Move(h, AfterDecision(d))
      else s
    case Insert(h, call) =>
      if pc.Ready? && pc.decision.Write? then
        var d := pc.decision;
        s.(tables := AfterWrite(s.tables, d, call))
         .Move(h, if Accepted(s.tables, d, call) then Inserted(d.uid, d.revision, d.after) else Idle)
      else s
    case Finish(h, call) =>
      if pc.Inserted? then s.(tables := Finished(s.tables, pc.uid, pc.after, call)).Move(h, Idle) else s
    case Crash(h) => s.Move(h, Idle)
  }

  ghost function Exec(s: State, steps: seq<Step>): State
    decreases |steps|
  {
    if steps == [] then s else Next(Exec(s, steps[..|steps| - 1]), steps[|steps| - 1])
  }

  const EMPTY := State(Tables(map[], map[]), map[])

  // ---------------------------------------------------------------- what every step keeps

  /** Revisions are numbered up to m and the counter is m or m-1. A deletion row, if any, is revision m and the counter
      stays behind it. */
  ghost predicate Bounded(t: Tables, uid: string, m: int) {
    0 <= m &&
    (forall r :: r in t.LogOf(uid) ==> 1 <= r <= m) &&
    0 <= Current(t, uid) && m - 1 <= Current(t, uid) <= m &&
    (uid in t.tracked ==> 1 <= Current(t, uid)) &&
    (forall r :: r in t.LogOf(uid) && t.LogOf(uid)[r].event.Deleted? ==> r == m && Current(t, uid) == m - 1)
  }

  /** The revisions of a resource are 1..m, none missing. */
  ghost predicate Numbered(t: Tables, uid: string, m: int) {
    Bounded(t, uid, m) && forall r :: 1 <= r <= m ==> r in t.LogOf(uid)
  }

  /** A pending write that will advance the counter. */
  ghost predicate Pending(pc: Pc, uid: string) {
    pc.Inserted? && pc.uid == uid && pc.after.SaveRecord?
  }

  /** What a handler in flight may hold about a resource. */
  ghost predicate InFlight(t: Tables, uid: string, m: int, pc: Pc) {
    match pc
    case Idle => true
    case Reading(_, ev, existing) =>
      ev.obj.uid == uid && existing.Some? ==> 1 <= existing.value.currentRevision <= Current(t, uid)
    case Ready(d) =>
      d.Write? && (d.uid == uid ==>
        1 <= d.revision <= Current(t, uid) + 1 &&
        (d.after.SaveRecord? ==> d.after.record.currentRevision == d.revision && !d.row.event.Deleted?) &&
        (d.row.event.Deleted? <==> d.after.MarkDeletion?))
    case Inserted(u, r, after) =>
      u == uid && after.SaveRecord? ==>
        r == after.record.currentRevision == m && Current(t, uid) == m - 1 && m in t.LogOf(uid) &&
        !t.LogOf(uid)[m].event.Deleted?
  }

  /** What holds of a resource however many of its revisions are gone. */
  ghost predicate Held(s: State, uid: string, m: int) {
    Bounded(s.tables, uid, m) &&
    (forall h :: h in s.workers ==> InFlight(s.tables, uid, m, s.workers[h])) &&
    forall h, k ::
      h in s.workers && k in s.workers && Pending(s.workers[h], uid) && Pending(s.workers[k], uid) ==> h == k
  }

  ghost predicate InvFor(s: State, uid: string, m: int) {
    Held(s, uid, m) && Numbered(s.tables, uid, m)
  }

  /** The step stores a row of the resource. */
  predicate Stores(s: State, step: Step, uid: string) {
    step.Insert? && !step.call.Fails? && s.PcOf(step.h).Ready? && s.PcOf(step.h).decision.Write? &&
    s.PcOf(step.h).decision.uid == uid && s.PcOf(step.h).decision.revision !in s.tables.LogOf(uid)
  }

  /** No row is stored under a number the counter has already passed. */
  predicate Fresh(s: State, step: Step, uid: string) {
    Stores(s, step, uid) ==> Current(s.tables, uid) < s.PcOf(step.h).decision.revision
  }

  /** One step extends the history of a resource by at most one revision and keeps its invariant. */
  lemma NextKeepsHeld(s: State, step: Step, uid: string, m: int) returns (m': int)
    requires Held(s, uid, m) && Fresh(s, step, uid)
    ensures m <= m' <= m + 1 && Held(Next(s, step), uid, m')
    ensures Current(s.tables, uid) <= Current(Next(s, step).tables, uid)
    ensures Stores(s, step, uid) ==> m' == Current(s.tables, uid) + 1
    ensures !Stores(s, step, uid) ==> m' == m && Next(s, step).tables.LogOf(uid) == s.tables.LogOf(uid)
  {
    m' := m;
    var pc := s.PcOf(step.h);
    match step
    case Begin(h, cfg, ev, readFails) =>
    case Decide(h, now, gzipWorks, latestFails) =>
      if pc.Reading? {
        PlanShape(pc.cfg, pc.ev, pc.existing, LatestRow(s.tables, pc.ev.obj.uid, latestFails), now, gzipWorks);
      }
    case Insert(h, call) =>
      if pc.Ready? {
        m' := InsertKeepsHeld(s, h, call, uid, m);
      }
    case Finish(h, call) =>
      if pc.Inserted? {
        FinishKeepsHeld(s, h, call, uid, m);
      }
    case Crash(h) =>
  }

  /** While no revision is ever removed, UNIQUE keeps every stored number fresh and the numbering without a hole. */
  lemma NextKeepsInv(s: State, step: Step, uid: string, m: int) returns (m': int)
    requires InvFor(s, uid, m)
    ensures m <= m' <= m + 1 && InvFor(Next(s, step), uid, m')
    ensures Current(s.tables, uid) <= Current(Next(s, step).tables, uid)
  {
    FreshWhenComplete(s, step, uid, m);
    m' := NextKeepsHeld(s, step, uid, m);
    if Stores(s, step, uid) {
      assert Next(s, step).tables.LogOf(uid).Keys == s.tables.LogOf(uid).Keys + {s.PcOf(step.h).decision.revision};
    }
  }

  lemma FreshWhenComplete(s: State, step: Step, uid: string, m: int)
    requires InvFor(s, uid, m)
    ensures Fresh(s, step, uid)
    ensures Stores(s, step, uid) ==> s.PcOf(step.h).decision.revision == m + 1
  {
    if Stores(s, step, uid) {
      assert InFlight(s.tables, uid, m, s.workers[step.h]);
    }
  }

  lemma InsertKeepsHeld(s: State, h: int, call: Call, uid: string, m: int) returns (m': int)
    requires Held(s, uid, m) && s.PcOf(h).Ready? && Fresh(s, Insert(h, call), uid)
    ensures m <= m' <= m + 1 && Held(Next(s, Insert(h, call)), uid, m')
    ensures Current(Next(s, Insert(h, call)).tables, uid) == Current(s.tables, uid)
    ensures Stores(s, Insert(h, call), uid) ==> m' == Current(s.tables, uid) + 1
    ensures !Stores(s, Insert(h, call), uid) ==>
      m' == m && Next(s, Insert(h, call)).tables.LogOf(uid) == s.tables.LogOf(uid)
  {
    var d := s.PcOf(h).decision;
    assert h in s.workers && InFlight(s.tables, uid, m, s.workers[h]);
    if Stores(s, Insert(h, call), uid) {
      m' := d.revision;
      NewRowKeepsHeld(s, h, call, uid, m);
    } else {
      m' := m;
      var n := Next(s, Insert(h, call));
      assert n.tables.LogOf(uid) == s.tables.LogOf(uid);
      assert !Pending(n.workers[h], uid);
      OthersKeepHeld(s, n, h, uid, m);
    }
  }

  /** A step of `h` that leaves the resource's row and counter alone and `h` harmless. */
  lemma OthersKeepHeld(s: State, n: State, h: int, uid: string, m: int)
    requires Held(s, uid, m)
    requires n.tables.LogOf(uid) == s.tables.LogOf(uid) && n.tables.RecordOf(uid) == s.tables.RecordOf(uid)
    requires exists pc :: n.workers == s.workers[h := pc] && InFlight(s.tables, uid, m, pc) && !Pending(pc, uid)
    ensures Held(n, uid, m)
  {
    assert Current(n.tables, uid) == Current(s.tables, uid);
    forall k | k in n.workers
      ensures InFlight(n.tables, uid, m, n.workers[k])
    {
      if k != h {
        assert InFlight(s.tables, uid, m, s.workers[k]);
      }
    }
  }

  /** The insert of a fresh number, one above the counter: no other handler can be about to advance the counter. */
  lemma NewRowKeepsHeld(s: State, h: int, call: Call, uid: string, m: int)
    requires Held(s, uid, m) && Stores(s, Insert(h, call), uid) && Fresh(s, Insert(h, call), uid)
    ensures s.PcOf(h).decision.revision == Current(s.tables, uid) + 1
    ensures Held(Next(s, Insert(h, call)), uid, s.PcOf(h).decision.revision)
    ensures Current(Next(s, Insert(h, call)).tables, uid) == Current(s.tables, uid)
  {
    var d := s.PcOf(h).decision;
    assert h in s.workers && InFlight(s.tables, uid, m, s.workers[h]);
    var n := Next(s, Insert(h, call));
    assert n.tables.LogOf(uid) == s.tables.LogOf(uid)[d.revision := d.row];
    forall k | k in n.workers
      ensures InFlight(n.tables, uid, d.revision, n.workers[k])
      ensures Pending(n.workers[k], uid) ==> k == h
    {
      if k != h {
        assert InFlight(s.tables, uid, m, s.workers[k]);
      }
    }
  }

  lemma FinishKeepsHeld(s: State, h: int, call: Call, uid: string, m: int)
    requires Held(s, uid, m) && s.PcOf(h).Inserted?
    ensures Held(Next(s, Finish(h, call)), uid, m)
    ensures Current(s.tables, uid) <= Current(Next(s, Finish(h, call)).tables, uid)
    ensures Next(s, Finish(h, call)).tables.LogOf(uid) == s.tables.LogOf(uid)
  {
    var pc := s.PcOf(h);
    assert h in s.workers && InFlight(s.tables, uid, m, s.workers[h]);
    var n := Next(s, Finish(h, call));
    assert n.tables.LogOf(uid) == s.tables.LogOf(uid);
    if Pending(pc, uid) && !call.Fails? {
      CounterAdvances(s, h, call, uid, m);
    } else {
      assert Current(n.tables, uid) == Current(s.tables, uid);
      forall k | k in n.workers
        ensures InFlight(n.tables, uid, m, n.workers[k])
      {
        if k != h {
          assert InFlight(s.tables, uid, m, s.workers[k]);
        }
      }
    }
  }

  /** The one pending write of the counter. */
  lemma CounterAdvances(s: State, h: int, call: Call, uid: string, m: int)
    requires Held(s, uid, m) && Pending(s.PcOf(h), uid) && !call.Fails?
    ensures Held(Next(s, Finish(h, call)), uid, m)
    ensures Current(Next(s, Finish(h, call)).tables, uid) == m
  {
    assert h in s.workers && InFlight(s.tables, uid, m, s.workers[h]);
    var n := Next(s, Finish(h, call));
    assert n.tables.LogOf(uid) == s.tables.LogOf(uid);
    forall k | k in n.workers
      ensures InFlight(n.tables, uid, m, n.workers[k]) && !Pending(n.workers[k], uid)
    {
      if k != h {
        assert InFlight(s.tables, uid, m, s.workers[k]);
      }
    }
  }

  // ---------------------------------------------------------------- whole runs

  lemma {:induction false} ExecKeepsInv(s: State, steps: seq<Step>, uid: string, m: int) returns (m': int)
    requires InvFor(s, uid, m)
    ensures m <= m' && InvFor(Exec(s, steps), uid, m')
    ensures Current(s.tables, uid) <= Current(Exec(s, steps).tables, uid)
    decreases |steps|
  {
    m' := m;
    if steps == [] {
    } else {
      var front := steps[..|steps| - 1];
      m' := ExecKeepsInv(s, front, uid, m);
      m' := NextKeepsInv(Exec(s, front), steps[|steps| - 1], uid, m');
    }
  }

  /** Safety of every run from an empty store: revisions are numbered 1..m, the counter is m or m-1, and only the last
      row can be a deletion. */
  lemma InterleavingSafety(steps: seq<Step>, uid: string)
    ensures exists m :: Numbered(Exec(EMPTY, steps).tables, uid, m)
  {
    assert InvFor(EMPTY, uid, 0);
    var m := ExecKeepsInv(EMPTY, steps, uid, 0);
  }

  lemma {:induction false} ExecConcat(s: State, a: seq<Step>, b: seq<Step>)
    ensures Exec(s, a + b) == Exec(Exec(s, a), b)
    decreases |b|
  {
    if b == [] {
      assert a + b == a;
    } else {
      assert (a + b)[..|a + b| - 1] == a + b[..|b| - 1];
      ExecConcat(s, a, b[..|b| - 1]);
    }
  }

  /** CurrentRevision never decreases along a run. */
  lemma CounterMonotone(before: seq<Step>, after: seq<Step>, uid: string)
    ensures Current(Exec(EMPTY, before).tables, uid) <= Current(Exec(EMPTY, before + after).tables, uid)
  {
    assert InvFor(EMPTY, uid, 0);
    var m := ExecKeepsInv(EMPTY, before, uid, 0);
    ExecConcat(EMPTY, before, after);
    m := ExecKeepsInv(Exec(EMPTY, before), after, uid, m);
  }

  /** No stored row is replaced or removed, from any state whatever. */
  lemma {:induction false} RowsPersist(s: State, steps: seq<Step>, uid: string, r: int)
    requires r in s.tables.LogOf(uid)
    ensures r in Exec(s, steps).tables.LogOf(uid)
    ensures Exec(s, steps).tables.LogOf(uid)[r] == s.tables.LogOf(uid)[r]
    decreases |steps|
  {
    if steps == [] {
    } else {
      RowsPersist(s, steps[..|steps| - 1], uid, r);
    }
  }

  /** What identifies a tracked resource never changes: its names, when it was first seen, and the policy that
      first saw it. */
  lemma {:induction false} RecordOriginKept(s: State, steps: seq<Step>, uid: string)
    requires uid in s.tables.tracked
    ensures uid in Exec(s, steps).tables.tracked
    ensures var was, now := s.tables.tracked[uid], Exec(s, steps).tables.tracked[uid];
      now.identity == was.identity && now.firstSeen == was.firstSeen && now.policyName == was.policyName
    decreases |steps|
  {
    if steps == [] {
    } else {
      RecordOriginKept(s, steps[..|steps| - 1], uid);
    }
  }

  // ---------------------------------------------------------------- when recording stops for good

  /** The counter lags behind the last row and no handler is about to advance it. */
  ghost predicate Stuck(s: State, uid: string, m: int) {
    InvFor(s, uid, m) && Current(s.tables, uid) == m - 1 &&
    forall h :: h in s.workers ==> !Pending(s.workers[h], uid)
  }

  predicate MarkedDeleted(t: Tables, uid: string) {
    uid in t.tracked && t.tracked[uid].isDeleted
  }

  lemma {:induction false} StuckStays(s: State, steps: seq<Step>, uid: string, m: int)
    requires Stuck(s, uid, m)
    ensures Stuck(Exec(s, steps), uid, m)
    ensures Exec(s, steps).tables.LogOf(uid) == s.tables.LogOf(uid)
    ensures MarkedDeleted(s.tables, uid) ==> MarkedDeleted(Exec(s, steps).tables, uid)
    decreases |steps|
  {
    if steps == [] {
    } else {
      var front := steps[..|steps| - 1];
      StuckStays(s, front, uid, m);
      StuckNext(Exec(s, front), steps[|steps| - 1], uid, m);
    }
  }

  lemma StuckNext(s: State, step: Step, uid: string, m: int)
    requires Stuck(s, uid, m)
    ensures Stuck(Next(s, step), uid, m)
    ensures Next(s, step).tables.LogOf(uid) == s.tables.LogOf(uid)
    ensures MarkedDeleted(s.tables, uid) ==> MarkedDeleted(Next(s, step).tables, uid)
  {
    var m' := NextKeepsInv(s, step, uid, m);
    var pc := s.PcOf(step.h);
    if step.h in s.workers {
      assert InFlight(s.tables, uid, m, s.workers[step.h]);
    }
    var n := Next(s, step);
    assert n.tables.LogOf(uid) == s.tables.LogOf(uid);
    assert m' == m by {
      assert m' in n.tables.LogOf(uid) || m' == 0;
    }
    assert forall k :: k in n.workers && k != step.h ==> k in s.workers && n.workers[k] == s.workers[k];
  }

  /** A new handler stores the revision after the one it reads, or revision 1 if it cannot read, when that number is
      free, and moves the counter there. */
  lemma CanStore(s: State, uid: string, readFails: bool) returns (steps: seq<Step>)
    requires NextRevision(ReadRecord(s.tables, uid, readFails)) !in s.tables.LogOf(uid)
    ensures var r, t := NextRevision(ReadRecord(s.tables, uid, readFails)), Exec(s, steps).tables;
      r in t.LogOf(uid) && Current(t, uid) == r
  {
    var cfg := Config("", [], false, None, None, None, 0, None);
    var ev := Add(Resource(uid, Identity("", "", "", ""), "", map[]), false);
    var c := Conditions(0, true, readFails, false, Works, Works);
    var s1 := Next(s, Crash(0));
    HandledIsRun(s1, 0, cfg, ev, c);
    FreeAddStored(s.tables, cfg, ev, c);
    var four := [Begin(0, cfg, ev, readFails), Decide(0, 0, true, false), Insert(0, Works), Finish(0, Works)];
    ExecOne(s, Crash(0));
    ExecConcat(s, [Crash(0)], four);
    steps := [Crash(0)] + four;
  }

  lemma FreeAddStored(t: Tables, cfg: Config, ev: Event, c: Conditions)
    requires ev.Add? && !ev.initial && Enabled(cfg.creations) && c.insert.Works? && c.finish.Works?
    requires NextRevision(ReadRecord(t, ev.obj.uid, c.readFails)) !in t.LogOf(ev.obj.uid)
    ensures var r, t' := NextRevision(ReadRecord(t, ev.obj.uid, c.readFails)), Handled(cfg, t, ev, c);
      r in t'.LogOf(ev.obj.uid) && Current(t', ev.obj.uid) == r
  {
    RowWritten(t, Decided(cfg, t, ev, c), c);
  }

  lemma ExecMore(s: State, steps: seq<Step>, step: Step)
    ensures Exec(s, steps + [step]) == Next(Exec(s, steps), step)
  {
    assert (steps + [step])[..|steps|] == steps;
  }

  lemma ExecOne(s: State, a: Step)
    ensures Exec(s, [a]) == Next(s, a)
  {
    ExecMore(s, [], a);
    assert [] + [a] == [a];
  }

  lemma ExecFour(s: State, a: Step, b: Step, c: Step, d: Step)
    ensures Exec(s, [a, b, c, d]) == Next(Next(Next(Next(s, a), b), c), d)
  {
    ExecOne(s, a);
    ExecMore(s, [a], b);
    ExecMore(s, [a] + [b], c);
    ExecMore(s, [a] + [b] + [c], d);
    assert [a, b, c, d] == [a] + [b] + [c] + [d];
  }

  /** Once the pending counter is written, a new handler can go on from there. */
  lemma CanContinue(s: State, h: int, uid: string, m: int) returns (steps: seq<Step>)
    requires InvFor(s, uid, m) && h in s.workers && Pending(s.workers[h], uid)
    ensures m + 1 in Exec(s, steps).tables.LogOf(uid)
  {
    assert InFlight(s.tables, uid, m, s.workers[h]);
    CounterAdvances(s, h, Works, uid, m);
    FinishKeepsHeld(s, h, Works, uid, m);
    var rest := CanStore(Next(s, Finish(h, Works)), uid, false);
    ExecOne(s, Finish(h, Works));
    ExecConcat(s, [Finish(h, Works)], rest);
    steps := [Finish(h, Works)] + rest;
  }

  /** A resource can get another revision exactly when its counter is up to date or about to be. */
  lemma RecordingContinuesIff(s: State, uid: string, m: int)
    requires InvFor(s, uid, m)
    ensures (exists steps :: m + 1 in Exec(s, steps).tables.LogOf(uid)) <==>
      Current(s.tables, uid) == m || exists h :: h in s.workers && Pending(s.workers[h], uid)
  {
    if Current(s.tables, uid) == m {
      var steps := CanStore(s, uid, false);
    } else if exists h :: h in s.workers && Pending(s.workers[h], uid) {
      var h :| h in s.workers && Pending(s.workers[h], uid);
      var steps := CanContinue(s, h, uid, m);
    } else {
      forall steps
        ensures m + 1 !in Exec(s, steps).tables.LogOf(uid)
      {
        StuckStays(s, steps, uid, m);
      }
    }
  }

  /** Once a deletion row is stored, no later step of any run stores another revision of that resource or clears
      its mark. */
  lemma DeletionFinal(before: seq<Step>, after: seq<Step>, uid: string, r: int)
    requires r in Exec(EMPTY, before).tables.LogOf(uid)
    requires Exec(EMPTY, before).tables.LogOf(uid)[r].event.Deleted?
    ensures Exec(EMPTY, before + after).tables.LogOf(uid) == Exec(EMPTY, before).tables.LogOf(uid)
    ensures MarkedDeleted(Exec(EMPTY, before).tables, uid) ==> MarkedDeleted(Exec(EMPTY, before + after).tables, uid)
  {
    var s := Exec(EMPTY, before);
    assert InvFor(EMPTY, uid, 0);
    var m := ExecKeepsInv(EMPTY, before, uid, 0);
    assert forall h :: h in s.workers ==> InFlight(s.tables, uid, m, s.workers[h]);
    StuckStays(s, after, uid, m);
    ExecConcat(EMPTY, before, after);
  }

  // ---------------------------------------------------------------- snapshot cadence of a run

  /** Every policy in the run has the same snapshot interval. */
  ghost predicate Uniform(steps: seq<Step>, every: int) {
    forall i :: 0 <= i < |steps| && steps[i].Begin? ==> steps[i].cfg.Every() == every
  }

  ghost predicate CadenceInv(s: State, uid: string, every: int)
    requires 0 < every
  {
    (forall r :: r in s.tables.LogOf(uid) && r % every == 0 ==> s.tables.LogOf(uid)[r].isSnapshot) &&
    forall h :: h in s.workers ==>
      (s.workers[h].Reading? ==> s.workers[h].cfg.Every() == every) &&
      (s.workers[h].Ready? && s.workers[h].decision.Write? && s.workers[h].decision.revision % every == 0 ==>
        s.workers[h].decision.row.isSnapshot)
  }

  lemma NextCadence(s: State, step: Step, uid: string, every: int)
    requires 0 < every && CadenceInv(s, uid, every) && (step.Begin? ==> step.cfg.Every() == every)
    ensures CadenceInv(Next(s, step), uid, every)
  {
    var pc, n := s.PcOf(step.h), Next(s, step);
    if step.Decide? && pc.Reading? {
      PlanShape(pc.cfg, pc.ev, pc.existing, LatestRow(s.tables, pc.ev.obj.uid, step.latestFails), step.now,
                step.gzipWorks);
    } else if step.Insert? && pc.Ready? && pc.decision.Write? {
      var d := pc.decision;
      assert n.tables.LogOf(uid) == s.tables.LogOf(uid) ||
             (d.uid == uid && n.tables.LogOf(uid) == s.tables.LogOf(uid)[d.revision := d.row]);
    } else {
      assert n.tables.LogOf(uid) == s.tables.LogOf(uid);
    }
    assert forall k :: k in n.workers && k != step.h ==> k in s.workers && n.workers[k] == s.workers[k];
  }

  lemma {:induction false} ExecCadence(steps: seq<Step>, uid: string, every: int)
    requires 0 < every && Uniform(steps, every)
    ensures CadenceInv(Exec(EMPTY, steps), uid, every)
    decreases |steps|
  {
    if steps == [] {
    } else {
      var front, step := steps[..|steps| - 1], steps[|steps| - 1];
      ExecCadence(front, uid, every);
      NextCadence(Exec(EMPTY, front), step, uid, every);
    }
  }

  /** The history of a resource after any run of policies with one interval: numbered from 1, a snapshot at
      every multiple. */
  lemma RunCadenced(steps: seq<Step>, uid: string, every: int) returns (m: int)
    requires 0 < every && Uniform(steps, every)
    ensures Cadenced(Exec(EMPTY, steps).tables.LogOf(uid), m, every)
  {
    assert InvFor(EMPTY, uid, 0);
    m := ExecKeepsInv(EMPTY, steps, uid, 0);
    ExecCadence(steps, uid, every);
  }

  /** After any run that began with a snapshot, rebuilding a recorded revision applies at most `every` - 1 patches. */
  lemma RunWorkBound(steps: seq<Step>, uid: string, every: int, r: int)
    requires 0 < every && Uniform(steps, every)
    requires r in Exec(EMPTY, steps).tables.LogOf(uid)
    requires 1 in Exec(EMPTY, steps).tables.LogOf(uid) && Exec(EMPTY, steps).tables.LogOf(uid)[1].isSnapshot
    ensures RebuildsWithin(Exec(EMPTY, steps).tables.LogOf(uid), r, every - 1)
  {
    var m := RunCadenced(steps, uid, every);
    WorkBound(Exec(EMPTY, steps).tables.LogOf(uid), m, every, r);
  }

  /** After any run, removing any number of the oldest revisions loses at most `every` - 1 of the remaining ones. */
  lemma RunPurgeLoss(steps: seq<Step>, uid: string, every: int, kept: Log)
    requires 0 < every && Uniform(steps, every)
    requires SuffixOf(kept, Exec(EMPTY, steps).tables.LogOf(uid))
    ensures |Orphans(kept)| <= every - 1
  {
    var m := RunCadenced(steps, uid, every);
    PurgeLossBound(kept, Exec(EMPTY, steps).tables.LogOf(uid), m, every);
  }

  // ---------------------------------------------------------------- one handler alone

  /** An uninterrupted handler call is four consecutive steps. */
  lemma HandledIsRun(s: State, h: int, cfg: Config, ev: Event, c: Conditions)
    requires s.PcOf(h).Idle?
    ensures Exec(s, [Begin(h, cfg, ev, c.readFails), Decide(h, c.now, c.gzipWorks, c.latestFails),
                     Insert(h, c.insert), Finish(h, c.finish)])
         == State(Handled(cfg, s.tables, ev, c), s.workers[h := Idle])
  {
    var begin, decide := Begin(h, cfg, ev, c.readFails), Decide(h, c.now, c.gzipWorks, c.latestFails);
    ExecFour(s, begin, decide, Insert(h, c.insert), Finish(h, c.finish));
    var d := Decided(cfg, s.tables, ev, c);
    DecisionIsTwoSteps(s, h, cfg, ev, c);
    WriteIsTwoSteps(s, Next(Next(s, begin), decide), h, d, c);
  }

  lemma DecisionIsTwoSteps(s: State, h: int, cfg: Config, ev: Event, c: Conditions)
    requires s.PcOf(h).Idle?
    ensures Next(Next(s, Begin(h, cfg, ev, c.readFails)), Decide(h, c.now, c.gzipWorks, c.latestFails))
         == State(s.tables, s.workers[h := AfterDecision(Decided(cfg, s.tables, ev, c))])
  {
    var reading := Reading(cfg, ev, ReadRecord(s.tables, ev.obj.uid, c.readFails));
    var s1 := Next(s, Begin(h, cfg, ev, c.readFails));
    assert s1 == State(s.tables, s.workers[h := reading]) && s1.PcOf(h) == reading;
    var pc := AfterDecision(Decided(cfg, s.tables, ev, c));
    assert s1.workers[h := pc] == s.workers[h := pc];
  }

  lemma WriteIsTwoSteps(s: State, s2: State, h: int, d: Decision, c: Conditions)
    requires s2 == State(s.tables, s.workers[h := AfterDecision(d)])
    ensures Next(Next(s2, Insert(h, c.insert)), Finish(h, c.finish))
         == State(Perform(s.tables, d, c), s.workers[h := Idle])
  {
    var s3 := Next(s2, Insert(h, c.insert));
    var s4 := Next(s3, Finish(h, c.finish));
    if d.Write? {
      var pc := if Accepted(s.tables, d, c.insert) then Inserted(d.uid, d.revision, d.after) else Idle;
      assert s3 == State(AfterWrite(s.tables, d, c.insert), s.workers[h := pc]);
    }
    assert s4.workers == s.workers[h := Idle];
  }
}
