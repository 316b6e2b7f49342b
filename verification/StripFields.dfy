/** Removal of ignored fields before documents are compared or stored. */
module StripFields {
  import opened Json
  import opened FieldPaths

  /** The annotation's path is in parts because the verifier does not look into a literal of its length. */
  const DEFAULT_IGNORE_FIELDS: seq<string> := [
    ".metadata.resourceVersion",
    ".metadata.managedFields",
    ".metadata.generation",
    ".metadata.uid",
    ".metadata.creationTimestamp",
    ".metadata.annotations." + "kubectl\\.kubernetes\\.io/" + "last-applied-configuration",
    ".status.observedGeneration"
  ]

  /** removeField on values: deletes the member at a location, if the location leads there. */
  function Remove(d: Doc, parts: Path): Doc
    decreases |parts|
  {
    if parts == [] then d
    else if |parts| == 1 then d - {parts[0]}
    else if parts[0] in d && d[parts[0]].Obj? then
      d[parts[0] := Obj(Remove(d[parts[0]].members, parts[1..]))]
    else d
  }

  /** Where the path does not lead to an object there is nothing to remove. */
  lemma {:induction false} RemoveNowhere(d: Doc, parts: Path)
    requires parts != []
    requires var o := At(Obj(d), parts[..|parts| - 1]); o.None? || !o.value.Obj?
    ensures Remove(d, parts) == d
    decreases |parts|
  {
    if |parts| == 1 || parts[0] !in d || !d[parts[0]].Obj? {
    } else {
      assert parts[1..][..|parts| - 2] == parts[..|parts| - 1][1..];
      RemoveNowhere(d[parts[0]].members, parts[1..]);
    }
  }

  function RemoveAll(d: Doc, fields: seq<Path>): Doc {
    if fields == [] then d
    else Remove(RemoveAll(d, fields[..|fields| - 1]), fields[|fields| - 1])
  }

  /** The locations a policy ignores, in the order they are removed. */
  function Ignored(ignoreFields: seq<string>, trackStatus: bool): seq<Path> {
    Locations(DEFAULT_IGNORE_FIELDS) + Locations(ignoreFields) + (if trackStatus then [] else [["status"]])
  }

  function Locations(fieldPaths: seq<string>): (r: seq<Path>)
    ensures |r| == |fieldPaths|
    ensures forall i | 0 <= i < |r| :: r[i] == Parts(fieldPaths[i])
  {
    seq(|fieldPaths|, i requires 0 <= i < |fieldPaths| => Parts(fieldPaths[i]))
  }

  function Strip(d: Doc, ignoreFields: seq<string>, trackStatus: bool): Doc {
    RemoveAll(d, Ignored(ignoreFields, trackStatus))
  }

  /** A location at or below one of the fields. */
  predicate Covered(fields: seq<Path>, q: Path) {
    exists p :: p in fields && Addresses(p, q)
  }

  predicate Addresses(p: Path, q: Path) {
    p != [] && p <= q
  }

  /** Removing a field empties the locations at and below it and touches no other. */
  lemma {:induction false} RemoveNodes(d: Doc, p: Path, q: Path)
    ensures NodeAt(Obj(Remove(d, p)), q) == if Addresses(p, q) then Absent else NodeAt(Obj(d), q)
    decreases |p|
  {
    if p == [] || q == [] {
    } else {
      var k := q[0];
      assert q == [k] + q[1..];
      AtCons(Obj(d), k, q[1..]);
      AtCons(Obj(Remove(d, p)), k, q[1..]);
      if |p| > 1 && p[0] in d && d[p[0]].Obj? && k == p[0] {
        RemoveNodes(d[k].members, p[1..], q[1..]);
        assert p <= q <==> p[1..] <= q[1..] by {
          assert p == [k] + p[1..];
        }
      } else if |p| == 1 && k == p[0] {
        assert p <= q;
      } else if |p| > 1 && k == p[0] && p <= q {
        assert q[1..] != [];
      }
    }
  }

  lemma {:induction false} RemoveAllNodes(d: Doc, fields: seq<Path>, q: Path)
    ensures NodeAt(Obj(RemoveAll(d, fields)), q) == if Covered(fields, q) then Absent else NodeAt(Obj(d), q)
    decreases |fields|
  {
    if fields == [] {
    } else {
      var front, p := fields[..|fields| - 1], fields[|fields| - 1];
      RemoveAllNodes(d, front, q);
      RemoveNodes(RemoveAll(d, front), p, q);
      assert fields == front + [p];
      assert forall x :: x in fields <==> x in front || x == p;
      if Covered(fields, q) {
        var x :| x in fields && Addresses(x, q);
        assert x in front || x == p;
      }
      if Covered(front, q) {
        var x :| x in front && Addresses(x, q);
        assert x in fields;
      }
      assert p in fields;
    }
  }

  // ---------------------------------------------------------------- which locations

  /** What the default fields name. */
  const DEFAULT_LOCATIONS: seq<Path> := [
    ["metadata", "resourceVersion"],
    ["metadata", "managedFields"],
    ["metadata", "generation"],
    ["metadata", "uid"],
    ["metadata", "creationTimestamp"],
    ["metadata", "annotations", "kubectl.kubernetes.io/last-applied-configuration"],
    ["status", "observedGeneration"]
  ]

  /** At or below a default location, a field of the policy, or status when it is not tracked. */
  predicate Dropped(ignoreFields: seq<string>, trackStatus: bool, q: Path) {
    (exists p | p in DEFAULT_LOCATIONS :: p <= q) ||
    (exists f | f in ignoreFields :: Addresses(Parts(f), q)) ||
    (!trackStatus && ["status"] <= q)
  }

  /** The path is the dotted form of two keys that need no escaping. */
  predicate SpellsTwo(path: string, p: Path) {
    |p| == 2 && p[0] != "" && p[1] != "" && Unspecial(p[0]) && Unspecial(p[1]) && path == "." + (p[0] + "." + p[1])
  }

  lemma PartsOfTwo(path: string, p: Path)
    requires SpellsTwo(path, p)
    ensures Parts(path) == p
  {
    EscapePlain(p[0]);
    EscapePlain(p[1]);
    SpellTwo(p[0], p[1]);
    assert p == [p[0], p[1]];
    PartsSpell(p);
  }

  /** The path is the dotted form of two such keys and a third one, escaped. */
  predicate SpellsThree(path: string, p: Path, escaped: string) {
    |p| == 3 && p[0] != "" && p[1] != "" && p[2] != "" && Unspecial(p[0]) && Unspecial(p[1]) &&
    path == "." + (p[0] + "." + p[1] + "." + escaped)
  }

  lemma PartsOfThree(path: string, p: Path, escaped: string)
    requires SpellsThree(path, p, escaped) && Escape(p[2]) == escaped
    ensures Parts(path) == p
  {
    EscapePlain(p[0]);
    EscapePlain(p[1]);
    SpellThree(p[0], p[1], p[2]);
    assert p == [p[0], p[1], p[2]];
    PartsSpell(p);
  }

  lemma EscapeDotted(a: string, b: string, c: string)
    requires Unspecial(a) && Unspecial(b) && Unspecial(c)
    ensures Escape(a + "." + b + "." + c) == a + "\\." + b + "\\." + c
  {
    EscapePlain(a);
    EscapePlain(b);
    EscapePlain(c);
    EscapeConcat(a + "." + b + ".", c);
    EscapeConcat(a + "." + b, ".");
    EscapeConcat(a + ".", b);
    EscapeConcat(a, ".");
    assert Escape(".") == "\\.";
  }

  lemma HeadInParts()
    ensures "kubectl" + "." + "kubernetes" + "." + "io/" == "kubectl.kubernetes.io/"
    ensures "kubectl" + "\\." + "kubernetes" + "\\." + "io/" == "kubectl\\.kubernetes\\.io/"
  {
  }

  lemma KeyInParts()
    ensures "kubectl.kubernetes.io/last-applied-configuration" ==
            "kubectl.kubernetes.io/" + "last-applied-configuration"
  {
  }

  lemma KeyEscaped(key: string, head: string, escapedHead: string, tail: string)
    requires key == head + tail && Escape(head) == escapedHead && Unspecial(tail)
    ensures Escape(key) == escapedHead + tail
  {
    EscapeConcat(head, tail);
    EscapePlain(tail);
  }

  lemma PrefixInParts()
    ensures ".metadata.annotations." == "." + ("metadata" + "." + "annotations" + ".")
  {
  }

  lemma PathSpelled(path: string, prefix: string, head: string, tail: string, p: Path)
    requires path == prefix + head + tail && |p| == 3 && p[2] != ""
    requires p[0] != "" && p[1] != "" && Unspecial(p[0]) && Unspecial(p[1])
    requires prefix == "." + (p[0] + "." + p[1] + ".")
    ensures SpellsThree(path, p, head + tail)
  {
    var front := p[0] + "." + p[1] + ".";
    assert "." + front + head + tail == "." + (front + (head + tail));
  }

  /** The keys a, b and c make the head of a longer key. */
  predicate Headed(raw: string, escaped: string, a: string, b: string, c: string) {
    raw == a + "." + b + "." + c && escaped == a + "\\." + b + "\\." + c && Unspecial(a) && Unspecial(b) && Unspecial(c)
  }

  lemma PartsOfAnnotation(path: string, p: Path, prefix: string, raw: string, head: string, tail: string,
                          a: string, b: string, c: string)
    requires Headed(raw, head, a, b, c) && Unspecial(tail) && path == prefix + head + tail
    requires |p| == 3 && p[2] == raw + tail && p[2] != ""
    requires p[0] != "" && p[1] != "" && Unspecial(p[0]) && Unspecial(p[1])
    requires prefix == "." + (p[0] + "." + p[1] + ".")
    ensures Parts(path) == p
  {
    EscapeDotted(a, b, c);
    KeyEscaped(p[2], raw, head, tail);
    PathSpelled(path, prefix, head, tail, p);
    PartsOfThree(path, p, head + tail);
  }

  lemma HeadSpelled()
    ensures Headed("kubectl.kubernetes.io/", "kubectl\\.kubernetes\\.io/", "kubectl", "kubernetes", "io/")
  {
    HeadInParts();
  }

  /** The annotation of kubectl, its path built of three parts. */
  lemma AnnotationNamed(path: string, p: Path, head: string, tail: string)
    requires head == "kubectl\\.kubernetes\\.io/" && tail == "last-applied-configuration"
    requires path == ".metadata.annotations." + head + tail
    requires |p| == 3 && p[0] == "metadata" && p[1] == "annotations"
    requires p[2] == "kubectl.kubernetes.io/last-applied-configuration"
    ensures Parts(path) == p
  {
    HeadSpelled();
    KeyInParts();
    PrefixInParts();
    PartsOfAnnotation(path, p, ".metadata.annotations.", "kubectl.kubernetes.io/", head, tail,
                      "kubectl", "kubernetes", "io/");
  }

  lemma ResourceVersionSpelled()
    ensures SpellsTwo(".metadata.resourceVersion", ["metadata", "resourceVersion"])
  {
  }

  lemma ManagedFieldsSpelled()
    ensures SpellsTwo(".metadata.managedFields", ["metadata", "managedFields"])
  {
  }

  lemma GenerationSpelled()
    ensures SpellsTwo(".metadata.generation", ["metadata", "generation"])
  {
  }

  lemma UidSpelled()
    ensures SpellsTwo(".metadata.uid", ["metadata", "uid"])
  {
  }

  lemma CreationTimestampSpelled()
    ensures SpellsTwo(".metadata.creationTimestamp", ["metadata", "creationTimestamp"])
  {
  }

  lemma ObservedGenerationSpelled()
    ensures SpellsTwo(".status.observedGeneration", ["status", "observedGeneration"])
  {
  }

  /** The default fields name the default locations. */
  lemma DefaultsNamed()
    ensures Locations(DEFAULT_IGNORE_FIELDS) == DEFAULT_LOCATIONS
  {
    ResourceVersionSpelled();
    ManagedFieldsSpelled();
    GenerationSpelled();
    UidSpelled();
    CreationTimestampSpelled();
    ObservedGenerationSpelled();
    Named(DEFAULT_IGNORE_FIELDS, DEFAULT_LOCATIONS);
  }

  lemma Named(fields: seq<string>, locations: seq<Path>)
    requires |fields| == |locations| == 7
    requires SpellsTwo(fields[0], locations[0]) && SpellsTwo(fields[1], locations[1])
    requires SpellsTwo(fields[2], locations[2]) && SpellsTwo(fields[3], locations[3])
    requires SpellsTwo(fields[4], locations[4]) && SpellsTwo(fields[6], locations[6])
    requires fields[5] == ".metadata.annotations." + "kubectl\\.kubernetes\\.io/" + "last-applied-configuration"
    requires locations[5] == ["metadata", "annotations", "kubectl.kubernetes.io/last-applied-configuration"]
    ensures Locations(fields) == locations
  {
    AnnotationNamed(fields[5], locations[5], "kubectl\\.kubernetes\\.io/", "last-applied-configuration");
    forall i | 0 <= i < 7
      ensures Locations(fields)[i] == locations[i]
    {
      if i != 5 {
        PartsOfTwo(fields[i], locations[i]);
      }
    }
  }

  lemma CoveredConcat(a: seq<Path>, b: seq<Path>, q: Path)
    ensures Covered(a + b, q) <==> Covered(a, q) || Covered(b, q)
  {
    assert forall p :: p in a + b <==> p in a || p in b;
  }

  lemma PolicyCovered(ignoreFields: seq<string>, q: Path)
    ensures Covered(Locations(ignoreFields), q) <==> exists f | f in ignoreFields :: Addresses(Parts(f), q)
  {
    var locations := Locations(ignoreFields);
    if Covered(locations, q) {
      var p :| p in locations && Addresses(p, q);
      var i :| 0 <= i < |locations| && locations[i] == p;
      assert ignoreFields[i] in ignoreFields;
    }
    if exists f | f in ignoreFields :: Addresses(Parts(f), q) {
      var f :| f in ignoreFields && Addresses(Parts(f), q);
      var i :| 0 <= i < |ignoreFields| && ignoreFields[i] == f;
      assert locations[i] in locations;
    }
  }

  lemma DefaultsCovered(q: Path)
    ensures Covered(DEFAULT_LOCATIONS, q) <==> exists p | p in DEFAULT_LOCATIONS :: p <= q
  {
    assert forall p | p in DEFAULT_LOCATIONS :: |p| >= 2;
  }

  lemma StatusCovered(q: Path)
    ensures Covered([["status"]], q) <==> ["status"] <= q
    ensures !Covered([], q)
  {
    assert ["status"] in [["status"]];
  }

  lemma IgnoredIsDropped(ignoreFields: seq<string>, trackStatus: bool, q: Path)
    ensures Covered(Ignored(ignoreFields, trackStatus), q) <==> Dropped(ignoreFields, trackStatus, q)
  {
    var status: seq<Path> := if trackStatus then [] else [["status"]];
    DefaultsNamed();
    CoveredConcat(DEFAULT_LOCATIONS + Locations(ignoreFields), status, q);
    CoveredConcat(DEFAULT_LOCATIONS, Locations(ignoreFields), q);
    DefaultsCovered(q);
    PolicyCovered(ignoreFields, q);
    StatusCovered(q);
  }

  /** Stripping empties the default locations, the policy's and, unless it is tracked, status, with everything below
      them, and leaves every other location as it was. */
  lemma StripNodes(d: Doc, ignoreFields: seq<string>, trackStatus: bool, q: Path)
    ensures NodeAt(Obj(Strip(d, ignoreFields, trackStatus)), q)
         == if Dropped(ignoreFields, trackStatus, q) then Absent else NodeAt(Obj(d), q)
  {
    RemoveAllNodes(d, Ignored(ignoreFields, trackStatus), q);
    IgnoredIsDropped(ignoreFields, trackStatus, q);
  }

  /** Status goes entirely when it is not tracked; otherwise only its observed generation and what the policy names. */
  lemma StatusKept(d: Doc, ignoreFields: seq<string>, trackStatus: bool, q: Path)
    requires ["status"] <= q && forall f | f in ignoreFields :: !Addresses(Parts(f), q)
    ensures NodeAt(Obj(Strip(d, ignoreFields, trackStatus)), q) ==
      if trackStatus && !(["status", "observedGeneration"] <= q) then NodeAt(Obj(d), q) else Absent
  {
    StripNodes(d, ignoreFields, trackStatus, q);
    if ["status", "observedGeneration"] <= q {
      assert DEFAULT_LOCATIONS[6] in DEFAULT_LOCATIONS;
    } else {
      assert q[0] == "status";
      assert forall i | 0 <= i < 6 :: DEFAULT_LOCATIONS[i][0] == "metadata";
    }
  }

  /** Two documents strip to the same one exactly when they agree outside the dropped locations. */
  lemma StripEqual(a: Doc, b: Doc, ignoreFields: seq<string>, trackStatus: bool)
    ensures Strip(a, ignoreFields, trackStatus) == Strip(b, ignoreFields, trackStatus) <==>
      forall q: Path :: !Dropped(ignoreFields, trackStatus, q) ==> NodeAt(Obj(a), q) == NodeAt(Obj(b), q)
  {
    var sa, sb := Strip(a, ignoreFields, trackStatus), Strip(b, ignoreFields, trackStatus);
    forall q: Path
      ensures NodeAt(Obj(sa), q) == if Dropped(ignoreFields, trackStatus, q) then Absent else NodeAt(Obj(a), q)
      ensures NodeAt(Obj(sb), q) == if Dropped(ignoreFields, trackStatus, q) then Absent else NodeAt(Obj(b), q)
    {
      StripNodes(a, ignoreFields, trackStatus, q);
      StripNodes(b, ignoreFields, trackStatus, q);
    }
    if forall q: Path :: NodeAt(Obj(sa), q) == NodeAt(Obj(sb), q) {
      SameNodesSameDocument(Obj(sa), Obj(sb));
    }
  }

  lemma StripIdempotent(d: Doc, ignoreFields: seq<string>, trackStatus: bool)
    ensures Strip(Strip(d, ignoreFields, trackStatus), ignoreFields, trackStatus) == Strip(d, ignoreFields, trackStatus)
  {
    var once := Strip(d, ignoreFields, trackStatus);
    forall q: Path | !Dropped(ignoreFields, trackStatus, q)
      ensures NodeAt(Obj(once), q) == NodeAt(Obj(d), q)
    {
      StripNodes(d, ignoreFields, trackStatus, q);
    }
    StripEqual(once, d, ignoreFields, trackStatus);
  }

  /** Only the set of named locations matters: not the order, the repetition or the spelling of the fields. */
  lemma StripOrderIrrelevant(d: Doc, fields1: seq<string>, fields2: seq<string>, trackStatus: bool)
    requires forall p :: p in Locations(fields1) <==> p in Locations(fields2)
    ensures Strip(d, fields1, trackStatus) == Strip(d, fields2, trackStatus)
  {
    var s1, s2 := Obj(Strip(d, fields1, trackStatus)), Obj(Strip(d, fields2, trackStatus));
    forall q: Path
      ensures NodeAt(s1, q) == NodeAt(s2, q)
    {
      PolicyCovered(fields1, q);
      PolicyCovered(fields2, q);
      StripNodes(d, fields1, trackStatus, q);
      StripNodes(d, fields2, trackStatus, q);
    }
    SameNodesSameDocument(s1, s2);
  }

  /** A field spelled by escaping its keys is the one removed, dots in keys included. */
  lemma RemoveSpelled(d: Doc, keys: Path, q: Path)
    requires keys != [] && NonEmpty(keys)
    ensures NodeAt(Obj(Remove(d, Parts("." + Spell(keys)))), q) == if keys <= q then Absent else NodeAt(Obj(d), q)
  {
    PartsSpell(keys);
    RemoveNodes(d, keys, q);
  }
}
