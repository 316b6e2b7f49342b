/** Handlers and the purge by age at once: what is left of numbering and counters when rows disappear. */
module Purging {
  import opened Wrappers
  import opened Store
  import opened Recorder
  import opened Interleaving

  /** One step of a handler, or the controller's purge by age. */
  datatype Move = Handle(step: Step) | Expire(olderThan: int)

  ghost function Do(s: State, move: Move): State {
    match move
    case Handle(step) => Next(s, step)
    case Expire(olderThan) => s.(tables := s.tables.Expire(olderThan))
  }

  ghost function Play(moves: seq<Move>): State
    decreases |moves|
  {
    if moves == [] then EMPTY else Do(Play(moves[..|moves| - 1]), moves[|moves| - 1])
  }

  // ---------------------------------------------------------------- careful runs

  /** The purge leaves the rows whose handlers have not yet written the tracked record. */
  ghost predicate Spares(s: State, olderThan: int, uid: string) {
    forall h :: h in s.workers && Pending(s.workers[h], uid) ==>
      s.workers[h].revision in PurgeOld(s.tables.LogOf(uid), olderThan)
  }

  /** Nothing is stored under a number the counter has passed, and no row is purged before its counter is written. */
  ghost predicate Careful(s: State, move: Move, uid: string) {
    match move
    case Handle(step) => Fresh(s, step, uid)
    case Expire(olderThan) => Spares(s, olderThan, uid)
  }

  ghost predicate CarefulAt(moves: seq<Move>, i: nat, uid: string)
    requires i < |moves|
  {
    Careful(Play(moves[..i]), moves[i], uid)
  }

  ghost predicate AllCareful(moves: seq<Move>, uid: string) {
    forall i | 0 <= i < |moves| :: CarefulAt(moves, i, uid)
  }

  lemma CarefulPrefix(moves: seq<Move>, uid: string)
    requires moves != [] && AllCareful(moves, uid)
    ensures AllCareful(moves[..|moves| - 1], uid)
    ensures Careful(Play(moves[..|moves| - 1]), moves[|moves| - 1], uid)
  {
    var front := moves[..|moves| - 1];
    assert CarefulAt(moves, |front|, uid);
    forall i | 0 <= i < |front|
      ensures CarefulAt(front, i, uid)
    {
      assert CarefulAt(moves, i, uid) && front[i] == moves[i] && front[..i] == moves[..i];
    }
  }

  /** A purge that spares pending rows keeps what holds of a resource. */
  lemma ExpireKeepsHeld(s: State, olderThan: int, uid: string, m: int)
    requires Held(s, uid, m) && Spares(s, olderThan, uid)
    ensures Held(Do(s, Expire(olderThan)), uid, m)
    ensures Current(Do(s, Expire(olderThan)).tables, uid) == Current(s.tables, uid)
  {
    var n := Do(s, Expire(olderThan));
    assert n.tables.LogOf(uid) == PurgeOld(s.tables.LogOf(uid), olderThan);
    forall h | h in n.workers
      ensures InFlight(n.tables, uid, m, n.workers[h])
    {
      assert InFlight(s.tables, uid, m, s.workers[h]);
    }
  }

  lemma MoveKeepsHeld(s: State, move: Move, uid: string, m: int) returns (m': int)
    requires Held(s, uid, m) && Careful(s, move, uid)
    ensures m <= m' && Held(Do(s, move), uid, m')
    ensures Current(s.tables, uid) <= Current(Do(s, move).tables, uid)
  {
    match move
    case Handle(step) =>
      m' := NextKeepsHeld(s, step, uid, m);
    case Expire(olderThan) =>
      ExpireKeepsHeld(s, olderThan, uid, m);
      m' := m;
  }

  lemma {:induction false} CarefulKeepsHeld(moves: seq<Move>, uid: string) returns (m: int)
    requires AllCareful(moves, uid)
    ensures Held(Play(moves), uid, m)
    decreases |moves|
  {
    if moves == [] {
      m := 0;
    } else {
      CarefulPrefix(moves, uid);
      m := CarefulKeepsHeld(moves[..|moves| - 1], uid);
      m := MoveKeepsHeld(Play(moves[..|moves| - 1]), moves[|moves| - 1], uid, m);
    }
  }

  /** In every careful run of handlers and purges the stored numbers end at most one above the counter, only the last
      can be a deletion, and no move ever sets the counter back. */
  lemma CarefulSafety(moves: seq<Move>, uid: string)
    requires AllCareful(moves, uid)
    ensures exists m :: Bounded(Play(moves).tables, uid, m)
    ensures KeepsOrder(moves, uid)
  {
    var m := CarefulKeepsHeld(moves, uid);
    CarefulKeepsOrder(moves, uid);
  }

  /** No move of the run sets the counter back. */
  ghost predicate KeepsOrder(moves: seq<Move>, uid: string) {
    forall i | 0 <= i < |moves| :: OrderKeptAt(moves, i, uid)
  }

  ghost predicate OrderKeptAt(moves: seq<Move>, i: nat, uid: string)
    requires i < |moves|
  {
    Current(Play(moves[..i]).tables, uid) <= Current(Play(moves[..i + 1]).tables, uid)
  }

  lemma PlayNext(moves: seq<Move>, i: nat)
    requires i < |moves|
    ensures Play(moves[..i + 1]) == Do(Play(moves[..i]), moves[i])
  {
    assert moves[..i + 1][..i] == moves[..i];
  }

  lemma CarefulUpTo(moves: seq<Move>, i: nat, uid: string)
    requires AllCareful(moves, uid) && i <= |moves|
    ensures AllCareful(moves[..i], uid)
  {
    var front := moves[..i];
    forall j | 0 <= j < |front|
      ensures CarefulAt(front, j, uid)
    {
      assert CarefulAt(moves, j, uid) && front[j] == moves[j] && front[..j] == moves[..j];
    }
  }

  lemma CarefulKeepsOrder(moves: seq<Move>, uid: string)
    requires AllCareful(moves, uid)
    ensures KeepsOrder(moves, uid)
  {
    forall i | 0 <= i < |moves|
      ensures OrderKeptAt(moves, i, uid)
    {
      CarefulUpTo(moves, i, uid);
      PlayNext(moves, i);
      assert CarefulAt(moves, i, uid);
      var m := CarefulKeepsHeld(moves[..i], uid);
      m := MoveKeepsHeld(Play(moves[..i]), moves[i], uid, m);
    }
  }

  predicate NoExpiry(moves: seq<Move>) {
    forall i | 0 <= i < |moves| :: moves[i].Handle?
  }

  /** Runs of handlers alone are careful: UNIQUE sees to it. */
  lemma HandlersAreCareful(moves: seq<Move>, uid: string)
    requires NoExpiry(moves)
    ensures AllCareful(moves, uid)
  {
    forall i | 0 <= i < |moves|
      ensures CarefulAt(moves, i, uid)
    {
      HandlerIsCareful(moves, i, uid);
    }
  }

  lemma HandlerIsCareful(moves: seq<Move>, i: nat, uid: string)
    requires i < |moves| && NoExpiry(moves)
    ensures CarefulAt(moves, i, uid)
  {
    var m := HandlersKeepInv(moves[..i], uid);
    FreshWhenComplete(Play(moves[..i]), moves[i].step, uid, m);
  }

  lemma {:induction false} HandlersKeepInv(moves: seq<Move>, uid: string) returns (m: int)
    requires NoExpiry(moves)
    ensures InvFor(Play(moves), uid, m)
    decreases |moves|
  {
    if moves == [] {
      m := 0;
    } else {
      m := HandlersKeepInv(moves[..|moves| - 1], uid);
      m := NextKeepsInv(Play(moves[..|moves| - 1]), moves[|moves| - 1].step, uid, m);
    }
  }

  // ---------------------------------------------------------------- exactly when the counter keeps its order

  /** A handler writes the record after a row it stored under a number that the counter has passed since, or had passed
      already. */
  ghost predicate PutsBack(s: State, move: Move, uid: string) {
    move.Handle? && move.step.Finish? && !move.step.call.Fails? && Pending(s.PcOf(move.step.h), uid) &&
    s.PcOf(move.step.h).revision < Current(s.tables, uid)
  }

  ghost predicate PutsBackAt(moves: seq<Move>, i: nat, uid: string)
    requires i < |moves|
  {
    PutsBack(Play(moves[..i]), moves[i], uid)
  }

  /** Every handler is about to write the number of the row it stored. */
  ghost predicate NumbersAgree(s: State) {
    forall h :: h in s.workers ==> NumberAgrees(s.workers[h])
  }

  predicate NumberAgrees(pc: Pc) {
    match pc
    case Ready(d) => d.Write? && d.after.SaveRecord? ==> d.after.record.currentRevision == d.revision
    case Inserted(_, r, after) => after.SaveRecord? ==> after.record.currentRevision == r
    case _ => true
  }

  lemma MoveKeepsNumbers(s: State, move: Move)
    requires NumbersAgree(s)
    ensures NumbersAgree(Do(s, move))
  {
    if move.Handle? {
      var h, n := move.step.h, Next(s, move.step);
      assert NumberAgrees(s.PcOf(h));
      if move.step.Decide? && s.PcOf(h).Reading? {
        var pc := s.PcOf(h);
        PlanShape(pc.cfg, pc.ev, pc.existing, LatestRow(s.tables, pc.ev.obj.uid, move.step.latestFails),
                  move.step.now, move.step.gzipWorks);
      }
      assert forall k :: k in n.workers && k != h ==> k in s.workers && n.workers[k] == s.workers[k];
      assert NumberAgrees(n.PcOf(h));
    }
  }

  lemma {:induction false} PlayKeepsNumbers(moves: seq<Move>)
    ensures NumbersAgree(Play(moves))
    decreases |moves|
  {
    if moves == [] {
    } else {
      PlayKeepsNumbers(moves[..|moves| - 1]);
      MoveKeepsNumbers(Play(moves[..|moves| - 1]), moves[|moves| - 1]);
    }
  }

  lemma OrderOfMove(s: State, move: Move, uid: string)
    requires NumbersAgree(s)
    ensures Current(s.tables, uid) <= Current(Do(s, move).tables, uid) <==> !PutsBack(s, move, uid)
  {
    if move.Handle? {
      assert NumberAgrees(s.PcOf(move.step.h));
    }
  }

  /** In any run of handlers and purges, with any failing reads, lost writes and crashes, the counter keeps its order if
      and only if no handler writes the record after a row whose number the counter has passed. */
  lemma CounterOrderIff(moves: seq<Move>, uid: string)
    ensures KeepsOrder(moves, uid) <==> forall i | 0 <= i < |moves| :: !PutsBackAt(moves, i, uid)
  {
    forall i | 0 <= i < |moves|
      ensures OrderKeptAt(moves, i, uid) <==> !PutsBackAt(moves, i, uid)
    {
      PlayNext(moves, i);
      PlayKeepsNumbers(moves[..i]);
      OrderOfMove(Play(moves[..i]), moves[i], uid);
    }
  }

  /** For a handler call that nothing interrupts: the counter is set back exactly when the record cannot be read, row 1
      is gone although the counter is past it, and the call goes through. */
  lemma CallOrderIff(cfg: Config, t: Tables, ev: Event, c: Conditions)
    ensures var uid, e := ev.obj.uid, Decided(cfg, t, ev, c);
      Current(Handled(cfg, t, ev, c), uid) < Current(t, uid) <==>
        c.readFails && 1 < Current(t, uid) && 1 !in t.LogOf(uid) &&
        e.Write? && e.after.SaveRecord? && c.insert.Works? && !c.finish.Fails?
  {
    var uid := ev.obj.uid;
    PlanShape(cfg, ev, ReadRecord(t, uid, c.readFails), LatestRow(t, uid, c.latestFails), c.now, c.gzipWorks);
    CounterOfCall(t, Decided(cfg, t, ev, c), c);
  }

  lemma CounterOfCall(t: Tables, e: Decision, c: Conditions)
    ensures e.Skip? ==> Perform(t, e, c) == t
    ensures e.Write? ==>
      Current(Perform(t, e, c), e.uid) ==
        if Accepted(t, e, c.insert) && e.after.SaveRecord? && !c.finish.Fails? then e.after.record.currentRevision
        else Current(t, e.uid)
  {
  }

  // ---------------------------------------------------------------- when nothing more can be stored

  /** The handler cannot store a row of the resource, now or after the calls it still makes. */
  ghost predicate Hopeless(t: Tables, uid: string, pc: Pc) {
    match pc
    case Idle => true
    case Reading(cfg, ev, existing) =>
      ev.obj.uid == uid ==> forall now, gzipWorks, latestFails ::
        var d := Plan(cfg, ev, existing, LatestRow(t, uid, latestFails), now, gzipWorks);
        d.Write? ==> d.revision in t.LogOf(uid)
    case Ready(d) => d.Write? && d.uid == uid ==> d.revision in t.LogOf(uid)
    case Inserted(u, _, after) =>
      u == uid && after.SaveRecord? ==> after.record.currentRevision + 1 in t.LogOf(uid)
  }

  /** Every number a handler could use is taken: the one after the counter, number 1 for those that cannot read the
      record, and those in the hands of handlers at work. */
  ghost predicate Frozen(s: State, uid: string) {
    1 in s.tables.LogOf(uid) && Current(s.tables, uid) + 1 in s.tables.LogOf(uid) &&
    forall h :: h in s.workers ==> Hopeless(s.tables, uid, s.workers[h])
  }

  lemma SameLatest(t: Tables, t': Tables, uid: string, fails: bool)
    requires t.LogOf(uid) == t'.LogOf(uid)
    ensures LatestRow(t, uid, fails) == LatestRow(t', uid, fails)
  {
    if !fails && t.LogOf(uid) != map[] {
      LatestExists(t.LogOf(uid));
      var m :| IsLatest(t.LogOf(uid), m);
      LatestRowIs(t, uid, m);
      LatestRowIs(t', uid, m);
    }
  }

  lemma HopelessSame(t: Tables, t': Tables, uid: string, pc: Pc)
    requires t.LogOf(uid) == t'.LogOf(uid) && Hopeless(t, uid, pc)
    ensures Hopeless(t', uid, pc)
  {
    SameLatest(t, t', uid, true);
    SameLatest(t, t', uid, false);
  }

  /** A handler that begins where every number is taken is hopeless from the start. */
  lemma BeginHopeless(s: State, cfg: Config, ev: Event, readFails: bool, uid: string)
    requires 1 in s.tables.LogOf(uid) && Current(s.tables, uid) + 1 in s.tables.LogOf(uid)
    ensures Hopeless(s.tables, uid, Reading(cfg, ev, ReadRecord(s.tables, ev.obj.uid, readFails)))
  {
    var existing := ReadRecord(s.tables, ev.obj.uid, readFails);
    if ev.obj.uid == uid {
      forall now, gzipWorks, latestFails
        ensures var d := Plan(cfg, ev, existing, LatestRow(s.tables, uid, latestFails), now, gzipWorks);
          d.Write? ==> d.revision in s.tables.LogOf(uid)
      {
        PlanShape(cfg, ev, existing, LatestRow(s.tables, uid, latestFails), now, gzipWorks);
      }
    }
  }

  /** Where the handler of a step goes, and that the step stores nothing. */
  lemma FrozenStep(s: State, step: Step, uid: string)
    requires Frozen(s, uid)
    ensures Next(s, step).tables.LogOf(uid) == s.tables.LogOf(uid)
    ensures Current(Next(s, step).tables, uid) + 1 in s.tables.LogOf(uid)
    ensures Hopeless(s.tables, uid, Next(s, step).PcOf(step.h))
  {
    var pc := s.PcOf(step.h);
    assert Hopeless(s.tables, uid, pc);
    if step.Begin? {
      BeginHopeless(s, step.cfg, step.ev, step.readFails, uid);
    } else if step.Decide? && pc.Reading? {
      var latest := LatestRow(s.tables, pc.ev.obj.uid, step.latestFails);
      PlanShape(pc.cfg, pc.ev, pc.existing, latest, step.now, step.gzipWorks);
    }
  }

  lemma FrozenNext(s: State, step: Step, uid: string)
    requires Frozen(s, uid)
    ensures Frozen(Next(s, step), uid) && Next(s, step).tables.LogOf(uid) == s.tables.LogOf(uid)
  {
    var n := Next(s, step);
    FrozenStep(s, step, uid);
    forall k | k in n.workers
      ensures Hopeless(n.tables, uid, n.workers[k])
    {
      assert k != step.h ==> k in s.workers && n.workers[k] == s.workers[k];
      HopelessSame(s.tables, n.tables, uid, n.workers[k]);
    }
  }

  lemma {:induction false} FrozenStays(s: State, steps: seq<Step>, uid: string)
    requires Frozen(s, uid)
    ensures Frozen(Exec(s, steps), uid) && Exec(s, steps).tables.LogOf(uid) == s.tables.LogOf(uid)
    decreases |steps|
  {
    if steps == [] {
    } else {
      FrozenStays(s, steps[..|steps| - 1], uid);
      FrozenNext(Exec(s, steps[..|steps| - 1]), steps[|steps| - 1], uid);
    }
  }

  /** The steps store a revision that was not there. */
  ghost predicate StoresNew(s: State, steps: seq<Step>, uid: string) {
    exists r :: r in Exec(s, steps).tables.LogOf(uid) && r !in s.tables.LogOf(uid)
  }

  /** In any state whatever, purged or not, handlers can store another revision if and only if some number they could
      use is free: the one after the counter, number 1, or one in the hands of a handler at work. */
  lemma CanStoreNewIff(s: State, uid: string)
    ensures (exists steps :: StoresNew(s, steps, uid)) <==> !Frozen(s, uid)
  {
    if Frozen(s, uid) {
      forall steps
        ensures !StoresNew(s, steps, uid)
      {
        FrozenStays(s, steps, uid);
      }
    } else if Current(s.tables, uid) + 1 !in s.tables.LogOf(uid) {
      var steps := CanStore(s, uid, false);
      assert StoresNew(s, steps, uid);
    } else if 1 !in s.tables.LogOf(uid) {
      var steps := CanStore(s, uid, true);
      assert StoresNew(s, steps, uid);
    } else {
      var h :| h in s.workers && !Hopeless(s.tables, uid, s.workers[h]);
      var steps := HopefulStores(s, h, uid);
      assert StoresNew(s, steps, uid);
    }
  }

  /** A handler at work that is not hopeless stores a revision, or makes room for another handler to. */
  lemma HopefulStores(s: State, h: int, uid: string) returns (steps: seq<Step>)
    requires h in s.workers && !Hopeless(s.tables, uid, s.workers[h])
    ensures StoresNew(s, steps, uid)
  {
    match s.workers[h]
    case Reading(cfg, ev, existing) =>
      var now, gzipWorks, latestFails :|
        var d := Plan(cfg, ev, existing, LatestRow(s.tables, uid, latestFails), now, gzipWorks);
        d.Write? && d.revision !in s.tables.LogOf(uid);
      steps := ReadingStores(s, h, uid, Decide(h, now, gzipWorks, latestFails));
    case Ready(d) =>
      ExecOne(s, Insert(h, Works));
      steps := [Insert(h, Works)];
      assert d.revision in Exec(s, steps).tables.LogOf(uid);
    case Inserted(_, _, after) =>
      var n := Next(s, Finish(h, Works));
      ExecOne(s, Finish(h, Works));
      var rest := CanStore(n, uid, false);
      ExecConcat(s, [Finish(h, Works)], rest);
      steps := [Finish(h, Works)] + rest;
      assert after.record.currentRevision + 1 in Exec(s, steps).tables.LogOf(uid);
  }

  lemma ReadingStores(s: State, h: int, uid: string, decide: Step) returns (steps: seq<Step>)
    requires s.PcOf(h).Reading? && decide.Decide? && decide.h == h && s.PcOf(h).ev.obj.uid == uid
    requires var pc := s.PcOf(h);
      var d := Plan(pc.cfg, pc.ev, pc.existing, LatestRow(s.tables, uid, decide.latestFails), decide.now,
                    decide.gzipWorks);
      d.Write? && d.revision !in s.tables.LogOf(uid)
    ensures StoresNew(s, steps, uid)
  {
    var pc := s.PcOf(h);
    var latest := LatestRow(s.tables, uid, decide.latestFails);
    var d := Plan(pc.cfg, pc.ev, pc.existing, latest, decide.now, decide.gzipWorks);
    PlanShape(pc.cfg, pc.ev, pc.existing, latest, decide.now, decide.gzipWorks);
    ExecOne(s, decide);
    ExecMore(s, [decide], Insert(h, Works));
    steps := [decide] + [Insert(h, Works)];
    assert Next(s, decide).PcOf(h) == Ready(d);
    assert d.revision in Exec(s, steps).tables.LogOf(uid);
  }

  /** A purge that removes the taken row lets recording go on where it stopped: under the same number, after which the
      counter has caught up. */
  lemma PurgeRevives(s: State, uid: string, m: int, olderThan: int) returns (steps: seq<Step>)
    requires Stuck(s, uid, m) && m !in PurgeOld(s.tables.LogOf(uid), olderThan)
    ensures var t := Exec(Do(s, Expire(olderThan)), steps).tables;
      m in t.LogOf(uid) && Current(t, uid) == m
  {
    steps := CanStore(Do(s, Expire(olderThan)), uid, false);
  }
}
