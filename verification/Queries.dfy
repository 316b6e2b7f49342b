/** The WHERE clauses of the two backends: positional placeholders in SQLite, numbered ones in Postgres. */
module Queries {
  import opened Wrappers
  import opened Store

  datatype Argument = Str(s: string) | Time(t: int) | Flag(b: bool) | Number(n: int)

  datatype Column =
    ResourceUid | ApiVersion | Kind | Namespace | Name | PolicyName | EventTypeColumn | Timestamp | IsDeleted

  datatype Op = Eq | Ge | Le

  datatype Placeholder = Positional | Numbered(index: int)

  /** One condition of a clause; every clause starts with the condition 1=1. */
  datatype Condition = Always | Compare(column: Column, op: Op, placeholder: Placeholder)

  /** An active filter of a query. */
  datatype Filter = Filter(column: Column, op: Op, value: Argument)

  /** A row of either table. */
  datatype TableRow = RevisionRow(uid: string, row: Row) | TrackedRow(record: Record)

  /** The value of a column, when the row's table has it and clauses mention it. */
  function Cell(t: TableRow, column: Column): Option<Argument> {
    match t
    case RevisionRow(uid, row) =>
      (match column
       case ResourceUid => Some(Str(uid))
       case ApiVersion => Some(Str(row.identity.apiVersion))
       case Kind => Some(Str(row.identity.kind))
       case Namespace => Some(Str(row.identity.namespace))
       case Name => Some(Str(row.identity.name))
       case PolicyName => Some(Str(row.policyName))
       case EventTypeColumn => Some(Str(EventName(row.event)))
       case Timestamp => Some(Time(row.timestamp))
       case IsDeleted => None)
    case TrackedRow(r) =>
      (match column
       case ApiVersion => Some(Str(r.identity.apiVersion))
       case Kind => Some(Str(r.identity.kind))
       case Namespace => Some(Str(r.identity.namespace))
       case Name => Some(Str(r.identity.name))
       case PolicyName => Some(Str(r.policyName))
       case IsDeleted => Some(Flag(r.isDeleted))
       case _ => None)
  }

  function EventName(e: EventType): string {
    match e
    case Created => "CREATED"
    case Updated => "UPDATED"
    case Deleted => "DELETED"
  }

  datatype HistoryQuery = HistoryQuery(uid: string, apiVersion: string, kind: string, namespace: string, name: string,
                                       policyName: string, eventType: string, since: Option<int>, until: Option<int>,
                                       limit: int, offset: int)

  datatype ListQuery = ListQuery(apiVersion: string, kind: string, namespace: string, policyName: string,
                                 isDeleted: Option<bool>, limit: int, offset: int)

  /** A finished select: the clause, the placeholders of LIMIT and OFFSET, and the arguments. */
  datatype Select = Select(where: seq<Condition>, limit: Placeholder, offset: Placeholder, args: seq<Argument>)

  // ---------------------------------------------------------------- building clauses

  /** A clause under construction. `numbered` tells Postgres from SQLite. */
  class ClauseBuilder {
    const numbered: bool
    var conditions: seq<Condition>
    var args: seq<Argument>
    var paramIdx: int
    ghost var filters: seq<Filter>

    /** The conditions and arguments are those of the filters added so far. */
    ghost predicate Valid()
      reads this
    {
      |conditions| == |filters| + 1 && |args| == |filters| && paramIdx == |filters| + 1 && conditions[0] == Always &&
      forall i | 0 <= i < |filters| ::
        args[i] == filters[i].value &&
        conditions[i + 1] == Compare(filters[i].column, filters[i].op, if numbered then Numbered(i + 1) else Positional)
    }

    constructor (numbered: bool)
      ensures Valid() && filters == [] && this.numbered == numbered
    {
      this.numbered := numbered;
      conditions, args, paramIdx, filters := [Always], [], 1, [];
    }

    /** One `if` of a clause builder: append the condition and its argument. */
    method AddIf(active: bool, column: Column, op: Op, value: Argument)
      requires Valid()
      modifies this
      ensures Valid() && filters == With(old(filters), active, column, op, value)
    {
      if active {
        conditions := conditions + [Compare(column, op, if numbered then Numbered(paramIdx) else Positional)];
        args := args + [value];
        paramIdx := paramIdx + 1;
        filters := filters + [Filter(column, op, value)];
      }
    }

    method BuildHistoryWhere(q: HistoryQuery)
      requires Valid() && filters == []
      modifies this
      ensures Valid() && filters == HistoryFilters(q)
    {
      AddObjectFilters(q);
      AddIf(q.policyName != "", PolicyName, Eq, Str(q.policyName));
      AddIf(q.eventType != "", EventTypeColumn, Eq, Str(q.eventType));
      AddIf(q.since.Some?, Timestamp, Ge, TimeOf(q.since));
      AddIf(q.until.Some?, Timestamp, Le, TimeOf(q.until));
    }

    /** The first five conditions: which object. */
    method AddObjectFilters(q: HistoryQuery)
      requires Valid() && filters == []
      modifies this
      ensures Valid() && filters == ObjectFilters(q)
    {
      AddIf(q.uid != "", ResourceUid, Eq, Str(q.uid));
      AddIf(q.apiVersion != "", ApiVersion, Eq, Str(q.apiVersion));
      AddIf(q.kind != "", Kind, Eq, Str(q.kind));
      AddIf(q.namespace != "", Namespace, Eq, Str(q.namespace));
      AddIf(q.name != "", Name, Eq, Str(q.name));
    }

    method BuildResourceListWhere(q: ListQuery)
      requires Valid() && filters == []
      modifies this
      ensures Valid() && filters == ListFilters(q)
    {
      AddIf(q.apiVersion != "", ApiVersion, Eq, Str(q.apiVersion));
      AddIf(q.kind != "", Kind, Eq, Str(q.kind));
      AddIf(q.namespace != "", Namespace, Eq, Str(q.namespace));
      AddIf(q.policyName != "", PolicyName, Eq, Str(q.policyName));
      AddIf(q.isDeleted.Some?, IsDeleted, Eq, FlagOf(q.isDeleted));
    }

    /** The select built around the clause: LIMIT and OFFSET take the next two placeholders. */
    method Finish(limit: int, offset: int) returns (s: Select)
      ensures s.where == conditions && s.args == args + [Number(limit), Number(offset)]
      ensures s.limit == (if numbered then Numbered(|args| + 1) else Positional)
      ensures s.offset == (if numbered then Numbered(|args| + 2) else Positional)
    {
      var nextParam := |args| + 1;
      s := Select(conditions, if numbered then Numbered(nextParam) else Positional,
                  if numbered then Numbered(nextParam + 1) else Positional, args + [Number(limit), Number(offset)]);
    }
  }

  function TimeOf(t: Option<int>): Argument {
    if t.Some? then Time(t.value) else Time(0)
  }

  function FlagOf(b: Option<bool>): Argument {
    if b.Some? then Flag(b.value) else Flag(false)
  }

  /** One more filter, when active; a row passes when it passes the others and this one. */
  function With(fs: seq<Filter>, active: bool, column: Column, op: Op, value: Argument): (r: seq<Filter>)
    ensures forall t: TableRow ::
      Passes(r, t) <==> Passes(fs, t) && (active ==> Satisfies(t, column, op, value))
  {
    if active then
      var r := fs + [Filter(column, op, value)];
      assert forall i | 0 <= i < |fs| :: r[i] == fs[i];
      assert r[|fs|] == Filter(column, op, value);
      r
    else fs
  }

  function ObjectFilters(q: HistoryQuery): seq<Filter> {
    var f := With([], q.uid != "", ResourceUid, Eq, Str(q.uid));
    var f := With(f, q.apiVersion != "", ApiVersion, Eq, Str(q.apiVersion));
    var f := With(f, q.kind != "", Kind, Eq, Str(q.kind));
    var f := With(f, q.namespace != "", Namespace, Eq, Str(q.namespace));
    With(f, q.name != "", Name, Eq, Str(q.name))
  }

  function HistoryFilters(q: HistoryQuery): seq<Filter> {
    var f := ObjectFilters(q);
    var f := With(f, q.policyName != "", PolicyName, Eq, Str(q.policyName));
    var f := With(f, q.eventType != "", EventTypeColumn, Eq, Str(q.eventType));
    var f := With(f, q.since.Some?, Timestamp, Ge, TimeOf(q.since));
    With(f, q.until.Some?, Timestamp, Le, TimeOf(q.until))
  }

  function ListFilters(q: ListQuery): seq<Filter> {
    var f := With([], q.apiVersion != "", ApiVersion, Eq, Str(q.apiVersion));
    var f := With(f, q.kind != "", Kind, Eq, Str(q.kind));
    var f := With(f, q.namespace != "", Namespace, Eq, Str(q.namespace));
    var f := With(f, q.policyName != "", PolicyName, Eq, Str(q.policyName));
    With(f, q.isDeleted.Some?, IsDeleted, Eq, FlagOf(q.isDeleted))
  }

  // ---------------------------------------------------------------- what a select means

  /** The argument a placeholder takes; `position` counts the positional placeholders before it. */
  function Bound(p: Placeholder, position: nat, args: seq<Argument>): Option<Argument> {
    var i := if p.Positional? then position as int else p.index - 1;
    if 0 <= i < |args| then Some(args[i]) else None
  }

  predicate Holds(cell: Argument, op: Op, value: Argument) {
    match op
    case Eq => cell == value
    case Ge => cell.Time? && value.Time? && cell.t >= value.t
    case Le => cell.Time? && value.Time? && cell.t <= value.t
  }

  predicate Satisfies(t: TableRow, column: Column, op: Op, value: Argument) {
    Cell(t, column).Some? && Holds(Cell(t, column).value, op, value)
  }

  /** The conditions from `conditions` on, in the order they are printed; None when a placeholder has no argument. */
  function Evaluate(conditions: seq<Condition>, position: nat, args: seq<Argument>, t: TableRow): Option<bool> {
    if conditions == [] then Some(true)
    else match conditions[0]
      case Always => Evaluate(conditions[1..], position, args, t)
      case Compare(column, op, p) =>
        var value := Bound(p, position, args);
        var rest := Evaluate(conditions[1..], position + (if p.Positional? then 1 else 0), args, t);
        if value.None? || rest.None? then None
        else Some(Satisfies(t, column, op, value.value) && rest.value)
  }

  function PositionalCount(conditions: seq<Condition>): nat {
    if conditions == [] then 0
    else (if conditions[0].Compare? && conditions[0].placeholder.Positional? then 1 else 0) +
         PositionalCount(conditions[1..])
  }

  function Selects(s: Select, t: TableRow): Option<bool> {
    Evaluate(s.where, 0, s.args, t)
  }

  function LimitOf(s: Select): Option<Argument> {
    Bound(s.limit, PositionalCount(s.where), s.args)
  }

  function OffsetOf(s: Select): Option<Argument> {
    Bound(s.offset, PositionalCount(s.where) + (if s.limit.Positional? then 1 else 0), s.args)
  }

  /** The filters themselves, without placeholders. */
  predicate Passes(fs: seq<Filter>, t: TableRow) {
    forall i | 0 <= i < |fs| :: Satisfies(t, fs[i].column, fs[i].op, fs[i].value)
  }

  /** A clause tail for the filters `fs[from..]`, in either style. */
  ghost predicate Tail(conditions: seq<Condition>, fs: seq<Filter>, from: nat, numbered: bool) {
    from <= |fs| && |conditions| == |fs| - from &&
    forall i | 0 <= i < |conditions| ::
      conditions[i] ==
        Compare(fs[from + i].column, fs[from + i].op, if numbered then Numbered(from + i + 1) else Positional)
  }

  lemma PassesFrom(fs: seq<Filter>, from: nat, t: TableRow)
    requires from < |fs|
    ensures Passes(fs[from..], t) <==>
      Satisfies(t, fs[from].column, fs[from].op, fs[from].value) && Passes(fs[from + 1..], t)
  {
    var all, rest := fs[from..], fs[from + 1..];
    assert all[0] == fs[from];
    assert forall i | 1 <= i < |all| :: all[i] == rest[i - 1];
    assert forall i | 0 <= i < |rest| :: rest[i] == all[i + 1];
  }

  lemma {:induction false} TailMeans(conditions: seq<Condition>, fs: seq<Filter>, from: nat, numbered: bool,
                                     args: seq<Argument>, position: nat, t: TableRow)
    requires Tail(conditions, fs, from, numbered) && (!numbered ==> position == from)
    requires |args| >= |fs| && forall i | 0 <= i < |fs| :: args[i] == fs[i].value
    ensures Evaluate(conditions, position, args, t) == Some(Passes(fs[from..], t))
    decreases |conditions|
  {
    if conditions == [] {
    } else {
      assert conditions[0] ==
             Compare(fs[from].column, fs[from].op, if numbered then Numbered(from + 1) else Positional);
      TailShorter(conditions, fs, from, numbered);
      TailMeans(conditions[1..], fs, from + 1, numbered, args, if numbered then position else position + 1, t);
      PassesFrom(fs, from, t);
    }
  }

  lemma TailShorter(conditions: seq<Condition>, fs: seq<Filter>, from: nat, numbered: bool)
    requires Tail(conditions, fs, from, numbered) && conditions != []
    ensures Tail(conditions[1..], fs, from + 1, numbered)
  {
    var rest := conditions[1..];
    assert forall i | 0 <= i < |rest| :: rest[i] == conditions[i + 1];
  }

  lemma {:induction false} TailCount(conditions: seq<Condition>, fs: seq<Filter>, from: nat, numbered: bool)
    requires Tail(conditions, fs, from, numbered)
    ensures PositionalCount(conditions) == if numbered then 0 else |conditions|
    decreases |conditions|
  {
    if conditions == [] {
    } else {
      TailShorter(conditions, fs, from, numbered);
      TailCount(conditions[1..], fs, from + 1, numbered);
    }
  }

  /** Either style of select denotes its filters and binds LIMIT and OFFSET to the last two arguments. */
  lemma SelectMeans(s: Select, fs: seq<Filter>, numbered: bool, limit: int, offset: int, t: TableRow)
    requires |s.where| == |fs| + 1 && s.where[0] == Always && Tail(s.where[1..], fs, 0, numbered)
    requires |s.args| == |fs| + 2 && forall i | 0 <= i < |fs| :: s.args[i] == fs[i].value
    requires s.args[|fs|] == Number(limit) && s.args[|fs| + 1] == Number(offset)
    requires s.limit == if numbered then Numbered(|fs| + 1) else Positional
    requires s.offset == if numbered then Numbered(|fs| + 2) else Positional
    ensures Selects(s, t) == Some(Passes(fs, t))
    ensures LimitOf(s) == Some(Number(limit)) && OffsetOf(s) == Some(Number(offset))
  {
    TailMeans(s.where[1..], fs, 0, numbered, s.args, 0, t);
    TailCount(s.where[1..], fs, 0, numbered);
    assert fs[0..] == fs;
    assert s.where == [Always] + s.where[1..];
  }

  // ---------------------------------------------------------------- what a query asks for

  /** What a history query asks for: unset fields do not restrict. */
  predicate HistoryMatches(q: HistoryQuery, uid: string, row: Row) {
    (q.uid == "" || uid == q.uid) &&
    (q.apiVersion == "" || row.identity.apiVersion == q.apiVersion) &&
    (q.kind == "" || row.identity.kind == q.kind) &&
    (q.namespace == "" || row.identity.namespace == q.namespace) &&
    (q.name == "" || row.identity.name == q.name) &&
    (q.policyName == "" || row.policyName == q.policyName) &&
    (q.eventType == "" ||
      q.eventType == match row.event case Created => "CREATED" case Updated => "UPDATED" case Deleted => "DELETED") &&
    (q.since.None? || row.timestamp >= q.since.value) &&
    (q.until.None? || row.timestamp <= q.until.value)
  }

  predicate ListMatches(q: ListQuery, r: Record) {
    (q.apiVersion == "" || r.identity.apiVersion == q.apiVersion) &&
    (q.kind == "" || r.identity.kind == q.kind) &&
    (q.namespace == "" || r.identity.namespace == q.namespace) &&
    (q.policyName == "" || r.policyName == q.policyName) &&
    (q.isDeleted.None? || r.isDeleted == q.isDeleted.value)
  }

  /** The query in terms of columns. */
  predicate Asked(q: HistoryQuery, t: TableRow) {
    (q.uid != "" ==> Satisfies(t, ResourceUid, Eq, Str(q.uid))) &&
    (q.apiVersion != "" ==> Satisfies(t, ApiVersion, Eq, Str(q.apiVersion))) &&
    (q.kind != "" ==> Satisfies(t, Kind, Eq, Str(q.kind))) &&
    (q.namespace != "" ==> Satisfies(t, Namespace, Eq, Str(q.namespace))) &&
    (q.name != "" ==> Satisfies(t, Name, Eq, Str(q.name))) &&
    (q.policyName != "" ==> Satisfies(t, PolicyName, Eq, Str(q.policyName))) &&
    (q.eventType != "" ==> Satisfies(t, EventTypeColumn, Eq, Str(q.eventType))) &&
    (q.since.Some? ==> Satisfies(t, Timestamp, Ge, TimeOf(q.since))) &&
    (q.until.Some? ==> Satisfies(t, Timestamp, Le, TimeOf(q.until)))
  }

  lemma HistoryFiltersAsk(q: HistoryQuery, t: TableRow)
    ensures Passes(HistoryFilters(q), t) <==> Asked(q, t)
  {
    assert Passes([], t);
  }

  lemma AskedIsMatch(q: HistoryQuery, uid: string, row: Row)
    ensures Asked(q, RevisionRow(uid, row)) <==> HistoryMatches(q, uid, row)
  {
  }

  lemma ListFiltersMean(q: ListQuery, r: Record)
    ensures Passes(ListFilters(q), TrackedRow(r)) <==> ListMatches(q, r)
  {
    assert Passes([], TrackedRow(r));
  }

  // ---------------------------------------------------------------- the two backends

  /** Placeholders as the backend needs them: all positional, or numbered from 1 in the order of the arguments, LIMIT
      and OFFSET last. */
  predicate WellNumbered(s: Select, numbered: bool) {
    |s.where| > 0 && s.where[0] == Always && |s.args| == |s.where| + 1 &&
    (forall i | 1 <= i < |s.where| ::
      s.where[i].Compare? && s.where[i].placeholder == if numbered then Numbered(i) else Positional) &&
    s.limit == (if numbered then Numbered(|s.where|) else Positional) &&
    s.offset == (if numbered then Numbered(|s.where| + 1) else Positional)
  }

  const SOME_ROW := TrackedRow(Record(Identity("", "", "", ""), 0, 0, 0, false, ""))

  function PageSize(limit: int, ifUnset: int): int {
    if limit <= 0 then ifUnset else limit
  }

  /** GetHistory's select in either backend denotes the query: same rows, same page. */
  method HistorySelect(q: HistoryQuery, numbered: bool) returns (s: Select)
    ensures forall uid, row :: Selects(s, RevisionRow(uid, row)) == Some(HistoryMatches(q, uid, row))
    ensures LimitOf(s) == Some(Number(if q.limit <= 0 then 50 else q.limit)) && OffsetOf(s) == Some(Number(q.offset))
    ensures WellNumbered(s, numbered)
  {
    var b := new ClauseBuilder(numbered);
    b.BuildHistoryWhere(q);
    s := b.Finish(PageSize(q.limit, 50), q.offset);
    forall uid, row: Row
      ensures Selects(s, RevisionRow(uid, row)) == Some(HistoryMatches(q, uid, row))
    {
      SelectMeans(s, HistoryFilters(q), numbered, PageSize(q.limit, 50), q.offset, RevisionRow(uid, row));
      HistoryFiltersAsk(q, RevisionRow(uid, row));
      AskedIsMatch(q, uid, row);
    }
    SelectMeans(s, HistoryFilters(q), numbered, PageSize(q.limit, 50), q.offset, SOME_ROW);
  }

  /** ListTrackedResources' select in either backend. */
  method ListSelect(q: ListQuery, numbered: bool) returns (s: Select)
    ensures forall r :: Selects(s, TrackedRow(r)) == Some(ListMatches(q, r))
    ensures LimitOf(s) == Some(Number(if q.limit <= 0 then 100 else q.limit)) && OffsetOf(s) == Some(Number(q.offset))
    ensures WellNumbered(s, numbered)
  {
    var b := new ClauseBuilder(numbered);
    b.BuildResourceListWhere(q);
    s := b.Finish(PageSize(q.limit, 100), q.offset);
    forall r: Record
      ensures Selects(s, TrackedRow(r)) == Some(ListMatches(q, r))
    {
      SelectMeans(s, ListFilters(q), numbered, PageSize(q.limit, 100), q.offset, TrackedRow(r));
      ListFiltersMean(q, r);
    }
    SelectMeans(s, ListFilters(q), numbered, PageSize(q.limit, 100), q.offset, SOME_ROW);
  }
}
