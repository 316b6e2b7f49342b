/** removeField and StripFields on nested mutable maps, as the source runs them. */
module StripInPlace {
  import opened Json
  import opened FieldPaths
  import opened StripFields

  /** A value held by a mutable object: a nested object, or anything else. */
  datatype Value = Nested(obj: JsonObject) | Plain(json: Json)

  /** A decoded JSON object. Nested objects are reached through exactly one member each. */
  class JsonObject {
    var members: map<string, Value>
    ghost const Repr: set<object>

    ghost predicate Valid()
      reads this, Repr
      decreases Repr
    {
      this in Repr &&
      (forall k | k in members :: Holds(members[k])) &&
      (forall k, l | k in members && l in members && k != l && members[k].Nested? && members[l].Nested? ::
        members[k].obj.Repr !! members[l].obj.Repr)
    }

    ghost predicate Holds(v: Value)
      reads this, Repr
      requires this in Repr
      decreases Repr, 0
    {
      match v
      case Plain(j) => !j.Obj?
      case Nested(o) => o in Repr && o.Repr <= Repr && this !in o.Repr && o.Valid()
    }

    /** The JSON object this one stands for. */
    ghost function Contents(): Doc
      requires Valid()
      reads this, Repr
      decreases Repr
    {
      map k | k in members ::
        match members[k]
        case Plain(j) => j
        case Nested(o) => assert Holds(members[k]); Obj(o.Contents())
    }

    /** An object over members that share nothing with each other. */
    constructor (ms: map<string, Value>)
      requires forall k | k in ms :: if ms[k].Plain? then !ms[k].json.Obj? else ms[k].obj.Valid()
      requires forall k, l | k in ms && l in ms && k != l && ms[k].Nested? && ms[l].Nested? ::
        ms[k].obj.Repr !! ms[l].obj.Repr
      ensures Valid() && members == ms && fresh(Repr - Owned(ms))
    {
      members := ms;
      Repr := {this} + Owned(ms);
      new;
      forall k | k in members
        ensures Holds(members[k])
      {
        if members[k].Nested? {
          assert members[k].obj in members[k].obj.Repr;
          OwnedPart(members, k);
        }
      }
    }
  }

  ghost function Owned(ms: map<string, Value>): set<object> {
    set k, o | k in ms && ms[k].Nested? && o in ms[k].obj.Repr :: o
  }

  lemma OwnedPart(ms: map<string, Value>, k: string)
    requires k in ms && ms[k].Nested?
    ensures ms[k].obj.Repr <= Owned(ms)
  {
  }

  /** A member that does not lead to the changed object is as it was. */
  twostate lemma MemberUntouched(root: JsonObject, new k: string, new target: JsonObject)
    requires old(root.Valid()) && unchanged(root.Repr - {target})
    requires k in root.members && k in old(root.members) && root.members[k] == old(root.members[k])
    requires root.members[k].Nested? ==> target !in root.members[k].obj.Repr
    ensures root.Holds(root.members[k])
    ensures root.members[k].Nested? ==> root.members[k].obj.Contents() == old(root.members[k].obj.Contents())
  {
    assert old(root.Holds(root.members[k]));
    if root.members[k].Nested? {
      Untouched(root.members[k].obj);
    }
  }

  /** An object none of whose parts changed is still valid and has the same contents. */
  twostate lemma Untouched(o: JsonObject)
    requires old(o.Valid()) && unchanged(o.Repr)
    ensures o.Valid() && o.Contents() == old(o.Contents())
  {
  }

  /** Deleting a member directly. */
  twostate lemma DeletedHere(root: JsonObject, new k0: string)
    requires old(root.Valid()) && unchanged(root.Repr - {root})
    requires root.members == old(root.members) - {k0}
    ensures root.Valid() && root.Contents() == old(root.Contents()) - {k0}
  {
    forall k | k in root.members {
      MemberUntouched(root, k, root);
    }
  }

  /** Deleting below the nested object that the first key leads to. */
  twostate lemma DeletedInChild(root: JsonObject, new parts: Path, new target: JsonObject)
    requires |parts| > 1 && old(root.Valid()) && root != target && unchanged(root.Repr - {target})
    requires parts[0] in old(root.members) && old(root.members[parts[0]]).Nested?
    requires target in old(root.members[parts[0]]).obj.Repr
    requires old(root.members[parts[0]]).obj.Valid() && old(root.members[parts[0]].obj.Valid())
    requires old(root.members[parts[0]]).obj.Contents() ==
             Remove(old(root.members[parts[0]].obj.Contents()), parts[1..])
    ensures root.Valid() && root.Contents() == Remove(old(root.Contents()), parts)
  {
    assert old(root.Holds(root.members[parts[0]]));
    forall k | k in root.members && k != parts[0] {
      MemberUntouched(root, k, target);
    }
    var was := old(root.Contents());
    assert parts[0] in was && was[parts[0]].Obj?;
    var now := was[parts[0] := Obj(Remove(was[parts[0]].members, parts[1..]))];
    assert Remove(was, parts) == now;
    assert root.Holds(root.members[parts[0]]);
    assert root.Valid();
    forall k | k in root.members
      ensures root.Contents()[k] == now[k]
    {
      assert old(root.Holds(root.members[k]));
      if k != parts[0] {
        MemberUntouched(root, k, target);
      }
    }
    assert root.Contents() == now;
  }

  /** The object reached by following keys through nested objects only. */
  ghost function Walk(o: JsonObject, keys: Path): JsonObject?
    requires o.Valid()
    reads o, o.Repr
    decreases |keys|
  {
    if keys == [] then o
    else if keys[0] in o.members && o.members[keys[0]].Nested? then
      assert o.Holds(o.members[keys[0]]);
      Walk(o.members[keys[0]].obj, keys[1..])
    else null
  }

  twostate lemma {:induction false} WalkedInside(o: JsonObject, new keys: Path)
    requires old(o.Valid()) && old(Walk(o, keys)) != null
    ensures old(Walk(o, keys)) in o.Repr
    decreases |keys|
  {
    if keys == [] {
    } else {
      assert old(o.Holds(o.members[keys[0]]));
      WalkedInside(old(o.members[keys[0]].obj), keys[1..]);
    }
  }

  /** Where the walk ends early the document has no object. */
  lemma {:induction false} WalkedNowhere(o: JsonObject, keys: Path)
    requires o.Valid() && Walk(o, keys) == null
    ensures var found := At(Obj(o.Contents()), keys); found.None? || !found.value.Obj?
    decreases |keys|
  {
    if keys[0] !in o.members || o.members[keys[0]].Plain? {
      assert keys[0] in o.members ==> o.Holds(o.members[keys[0]]);
    } else {
      assert o.Holds(o.members[keys[0]]);
      WalkedNowhere(o.members[keys[0]].obj, keys[1..]);
    }
  }

  /** Where the path leads to no object there is nothing to remove. */
  lemma NothingToRemove(o: JsonObject, parts: Path)
    requires parts != [] && o.Valid() && Walk(o, parts[..|parts| - 1]) == null
    ensures Remove(o.Contents(), parts) == o.Contents()
  {
    WalkedNowhere(o, parts[..|parts| - 1]);
    RemoveNowhere(o.Contents(), parts);
  }

  /** Deleting a member of the object a path leads to changes the root as Remove says. */
  twostate lemma {:induction false} DeletedBelow(root: JsonObject, new parts: Path, new target: JsonObject)
    requires parts != [] && old(root.Valid()) && old(Walk(root, parts[..|parts| - 1])) == target
    requires unchanged(root.Repr - {target})
    requires target.members == old(target.members) - {parts[|parts| - 1]}
    ensures root.Valid() && root.Contents() == Remove(old(root.Contents()), parts)
    decreases |parts|
  {
    if |parts| == 1 {
      DeletedHere(root, parts[0]);
    } else {
      assert old(root.Holds(root.members[parts[0]]));
      var child := old(root.members[parts[0]].obj);
      var rest := parts[1..];
      assert rest[..|rest| - 1] == parts[..|parts| - 1][1..];
      WalkedInside(child, rest[..|rest| - 1]);
      DeletedBelow(child, rest, target);
      DeletedInChild(root, parts, target);
    }
  }

  /** removeField: walk down through nested maps, give up where the path ends early, delete the last key. */
  method RemoveField(obj: JsonObject, path: string)
    requires obj.Valid()
    modifies obj.Repr
    ensures obj.Valid()
    ensures obj.Contents() == Remove(old(obj.Contents()), Parts(path))
  {
    var parts := SplitPath(TrimDot(path));
    if |parts| == 0 {
      return;
    }
    var current := obj;
    ghost var front := parts[..|parts| - 1];
    for i := 0 to |parts| - 1
      invariant current.Valid() && current.Repr <= obj.Repr
      invariant Walk(current, front[i..]) == Walk(obj, front)
    {
      assert front[i..][0] == parts[i] && front[i..][1..] == front[i + 1..];
      if parts[i] !in current.members {
        NothingToRemove(obj, parts);
        return;
      }
      var next := current.members[parts[i]];
      assert current.Holds(next);
      if next.Plain? {
        NothingToRemove(obj, parts);
        return;
      }
      current := next.obj;
    }
    current.members := current.members - {parts[|parts| - 1]};
    DeletedBelow(obj, parts, current);
  }

  /** StripFields: the default fields, the policy's fields, then status unless it is tracked. */
  method StripObject(obj: JsonObject, fieldPaths: seq<string>, trackStatus: bool)
    requires obj.Valid()
    modifies obj.Repr
    ensures obj.Valid()
    ensures obj.Contents() == Strip(old(obj.Contents()), fieldPaths, trackStatus)
  {
    RemoveFields(obj, DEFAULT_IGNORE_FIELDS);
    RemoveFields(obj, fieldPaths);
    if !trackStatus {
      ghost var before := obj.Contents();
      DropStatus(obj);
      RemoveAllOne(before, ["status"]);
    }
    RemoveAllConcat(old(obj.Contents()), Locations(DEFAULT_IGNORE_FIELDS), Locations(fieldPaths));
    RemoveAllConcat(old(obj.Contents()), Locations(DEFAULT_IGNORE_FIELDS) + Locations(fieldPaths),
                    if trackStatus then [] else [["status"]]);
  }

  method RemoveFields(obj: JsonObject, fieldPaths: seq<string>)
    requires obj.Valid()
    modifies obj.Repr
    ensures obj.Valid()
    ensures obj.Contents() == RemoveAll(old(obj.Contents()), Locations(fieldPaths))
  {
    for i := 0 to |fieldPaths|
      invariant obj.Valid()
      invariant obj.Contents() == RemoveAll(old(obj.Contents()), Locations(fieldPaths)[..i])
    {
      RemoveField(obj, fieldPaths[i]);
      assert Locations(fieldPaths)[..i + 1][..i] == Locations(fieldPaths)[..i];
    }
    assert Locations(fieldPaths)[..|fieldPaths|] == Locations(fieldPaths);
  }

  method DropStatus(obj: JsonObject)
    requires obj.Valid()
    modifies obj
    ensures obj.Valid()
    ensures obj.Contents() == Remove(old(obj.Contents()), ["status"])
  {
    obj.members := obj.members - {"status"};
    DeletedHere(obj, "status");
  }

  lemma RemoveAllOne(d: Doc, p: Path)
    ensures RemoveAll(d, [p]) == Remove(d, p)
  {
    assert [p][..0] == [];
  }

  lemma {:induction false} RemoveAllConcat(d: Doc, a: seq<Path>, b: seq<Path>)
    ensures RemoveAll(d, a + b) == RemoveAll(RemoveAll(d, a), b)
    decreases |b|
  {
    if b == [] {
      assert a + b == a;
    } else {
      assert (a + b)[..|a + b| - 1] == a + b[..|b| - 1];
      RemoveAllConcat(d, a, b[..|b| - 1]);
    }
  }
}
