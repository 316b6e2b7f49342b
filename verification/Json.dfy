/** Optional values and the outcome of an operation that may fail. */
module Wrappers {

  datatype Option<+T> = None | Some(value: T)

  datatype Result<+T, +E> = Ok(value: T) | Err(error: E)
}

/** JSON documents as trees. Numbers are opaque atoms and object members have no order. */
module Json {
  import opened Wrappers

  datatype Json =
    | Null
    | Bool(b: bool)
    | Num(n: real)
    | Str(s: string)
    | Arr(items: seq<Json>)
    | Obj(members: Doc)

  /** The members of a JSON object. */
  type Doc = map<string, Json>

  /** A location inside a document: the keys to follow from the root. Arrays are not entered. */
  type Path = seq<string>

  function Get(d: Doc, k: string): Option<Json> {
    if k in d then Some(d[k]) else None
  }

  /** The members of an object; none for any other value. */
  function Members(j: Json): Doc {
    if j.Obj? then j.members else map[]
  }

  /** The value at a location, if there is one. */
  function At(j: Json, p: Path): Option<Json>
    decreases |p|
  {
    if p == [] then Some(j)
    else if j.Obj? && p[0] in j.members then At(j.members[p[0]], p[1..])
    else None
  }

  /** What a location holds: nothing, some object, or a value that is not an object. */
  datatype Node = Absent | Object | Leaf(value: Json)

  function NodeAt(j: Json, p: Path): Node {
    match At(j, p)
    case None => Absent
    case Some(v) => if v.Obj? then Object else Leaf(v)
  }

  lemma AtCons(j: Json, k: string, p: Path)
    ensures At(j, [k] + p) == if j.Obj? && k in j.members then At(j.members[k], p) else None
  {
    assert ([k] + p)[1..] == p;
  }

  lemma AtKey(j: Json, k: string)
    ensures At(j, [k]) == if j.Obj? then Get(j.members, k) else None
  {
    AtCons(j, k, []);
    assert [k] + [] == [k];
  }

  /** Two documents with the same node at every location are equal. */
  lemma {:induction false} SameNodesSameDocument(a: Json, b: Json)
    requires forall p: Path :: NodeAt(a, p) == NodeAt(b, p)
    ensures a == b
    decreases a
  {
    assert NodeAt(a, []) == NodeAt(b, []);
    if !a.Obj? {
    } else {
      forall k: string
        ensures Get(a.members, k) == Get(b.members, k)
      {
        AtKey(a, k);
        AtKey(b, k);
        assert NodeAt(a, [k]) == NodeAt(b, [k]);
        if k in a.members {
          forall p: Path
            ensures NodeAt(a.members[k], p) == NodeAt(b.members[k], p)
          {
            AtCons(a, k, p);
            AtCons(b, k, p);
            assert NodeAt(a, [k] + p) == NodeAt(b, [k] + p);
          }
          SameNodesSameDocument(a.members[k], b.members[k]);
        }
      }
      SameGetsSameMembers(a.members, b.members);
    }
  }

  lemma SameGetsSameMembers(a: Doc, b: Doc)
    requires forall k: string :: Get(a, k) == Get(b, k)
    ensures a == b
  {
    forall k: string
      ensures k in a <==> k in b
      ensures k in a ==> a[k] == b[k]
    {
      assert Get(a, k) == Get(b, k);
    }
  }
}
