/** The depth-limited comparison that lists what changed between two documents. */
module ChangedPaths {
  import opened Json
  import opened MergePatch
  import TextLists

  const HERE: set<Path> := {[]}

  /** Where two documents differ, as key lists below the compared objects; at depth 0 the objects themselves. */
  function Changes(a: Doc, b: Doc, depth: int): set<Path>
    decreases Obj(a), 1
  {
    if depth <= 0 then (if a != b then HERE else {})
    else set k, p | k in a.Keys + b.Keys && p in MemberChanges(a, b, k, depth) :: [k] + p
  }

  function MemberChanges(a: Doc, b: Doc, k: string, depth: int): set<Path>
    decreases Obj(a), 0
  {
    if k !in a || k !in b then HERE
    else if a[k].Obj? && b[k].Obj? then Changes(a[k].members, b[k].members, depth - 1)
    else if a[k] != b[k] then HERE
    else {}
  }

  /** A key list below a printed prefix. An empty prefix adds no dot. */
  function Render(prefix: string, p: Path): string
    decreases |p|
  {
    if p == [] then prefix else Render(Extend(prefix, p[0]), p[1..])
  }

  function Extend(prefix: string, k: string): string {
    if prefix != "" then prefix + "." + k else k
  }

  function Rendered(prefix: string, ps: set<Path>): set<string> {
    set p | p in ps :: Render(prefix, p)
  }

  const MAX_DEPTH := 2

  /** The printed paths of GetChangedPaths. */
  function Paths(a: Doc, b: Doc): set<string> {
    Rendered("", Changes(a, b, MAX_DEPTH))
  }

  /** GetChangedPaths as it is returned: in ascending order. */
  function PathList(a: Doc, b: Doc): seq<string> {
    TextLists.Sorted(Paths(a, b))
  }

  // ---------------------------------------------------------------- the traversal that fills a set

  class ChangeSet {
    var paths: set<string>

    constructor ()
      ensures paths == {}
    {
      paths := {};
    }
  }

  /** findChanges: every key of either object in some order, writing into the shared set. */
  method FindChanges(prefix: string, a: Doc, b: Doc, changed: ChangeSet, maxDepth: int)
    modifies changed
    ensures changed.paths == old(changed.paths) + Rendered(prefix, Changes(a, b, maxDepth))
    decreases maxDepth, 1
  {
    if maxDepth <= 0 {
      RenderHere(prefix);
      if a != b {
        changed.paths := changed.paths + {prefix};
      }
      return;
    }
    var allKeys := a.Keys + b.Keys;
    ghost var before := changed.paths;
    ghost var found: set<string> := {};
    SoFarNone(prefix, a, b, maxDepth);
    while allKeys != {}
      invariant allKeys <= a.Keys + b.Keys
      invariant changed.paths == before + found
      invariant SoFar(prefix, a, b, maxDepth, a.Keys + b.Keys - allKeys, found)
      decreases allKeys
    {
      var k :| k in allKeys;
      VisitKey(prefix, a, b, k, changed, maxDepth);
      SoFarMore(prefix, a, b, maxDepth, a.Keys + b.Keys - allKeys, found, k);
      found := found + Rendered(Extend(prefix, k), MemberChanges(a, b, k, maxDepth));
      assert a.Keys + b.Keys - allKeys + {k} == a.Keys + b.Keys - (allKeys - {k});
      allKeys := allKeys - {k};
    }
    SoFarAll(prefix, a, b, maxDepth, a.Keys + b.Keys - allKeys, found);
  }

  /** The body of the loop for one key. */
  method VisitKey(prefix: string, a: Doc, b: Doc, k: string, changed: ChangeSet, maxDepth: int)
    requires maxDepth > 0 && (k in a || k in b)
    modifies changed
    ensures changed.paths == old(changed.paths) + Rendered(Extend(prefix, k), MemberChanges(a, b, k, maxDepth))
    decreases maxDepth, 0
  {
    var path := Extend(prefix, k);
    RenderHere(path);
    if k !in a || k !in b {
      changed.paths := changed.paths + {path};
    } else if a[k].Obj? && b[k].Obj? {
      FindChanges(path, a[k].members, b[k].members, changed, maxDepth - 1);
    } else if a[k] != b[k] {
      changed.paths := changed.paths + {path};
    }
  }

  /** The printed changes of the keys visited so far. */
  ghost predicate SoFar(prefix: string, a: Doc, b: Doc, depth: int, done: set<string>, found: set<string>) {
    found == Rendered(prefix, Visited(a, b, depth, done))
  }

  lemma SoFarNone(prefix: string, a: Doc, b: Doc, depth: int)
    ensures SoFar(prefix, a, b, depth, {}, {})
  {
  }

  lemma SoFarMore(prefix: string, a: Doc, b: Doc, depth: int, done: set<string>, found: set<string>, k: string)
    requires SoFar(prefix, a, b, depth, done, found)
    ensures SoFar(prefix, a, b, depth, done + {k}, found + Rendered(Extend(prefix, k), MemberChanges(a, b, k, depth)))
  {
    VisitMore(prefix, a, b, depth, done, k);
  }

  lemma SoFarAll(prefix: string, a: Doc, b: Doc, depth: int, done: set<string>, found: set<string>)
    requires depth > 0 && done == a.Keys + b.Keys && SoFar(prefix, a, b, depth, done, found)
    ensures found == Rendered(prefix, Changes(a, b, depth))
  {
    assert Visited(a, b, depth, done) == Changes(a, b, depth);
  }

  ghost function Visited(a: Doc, b: Doc, depth: int, keys: set<string>): set<Path> {
    set k, p | k in keys && p in MemberChanges(a, b, k, depth) :: [k] + p
  }

  lemma VisitMore(prefix: string, a: Doc, b: Doc, depth: int, done: set<string>, k: string)
    ensures Rendered(prefix, Visited(a, b, depth, done + {k})) ==
            Rendered(prefix, Visited(a, b, depth, done)) + Rendered(Extend(prefix, k), MemberChanges(a, b, k, depth))
  {
    var more := MemberChanges(a, b, k, depth);
    forall s | s in Rendered(Extend(prefix, k), more)
      ensures s in Rendered(prefix, Visited(a, b, depth, done + {k}))
    {
      var p :| p in more && Render(Extend(prefix, k), p) == s;
      assert ([k] + p)[1..] == p;
      assert [k] + p in Visited(a, b, depth, done + {k});
    }
    forall s | s in Rendered(prefix, Visited(a, b, depth, done))
      ensures s in Rendered(prefix, Visited(a, b, depth, done + {k}))
    {
      var q :| q in Visited(a, b, depth, done) && Render(prefix, q) == s;
      assert q in Visited(a, b, depth, done + {k});
    }
    forall s | s in Rendered(prefix, Visited(a, b, depth, done + {k}))
      ensures s in Rendered(prefix, Visited(a, b, depth, done)) + Rendered(Extend(prefix, k), more)
    {
      var q :| q in Visited(a, b, depth, done + {k}) && Render(prefix, q) == s;
      var l, p :| l in done + {k} && p in MemberChanges(a, b, l, depth) && q == [l] + p;
      assert q[1..] == p;
      if l == k {
        assert p in more;
      } else {
        assert q in Visited(a, b, depth, done);
      }
    }
  }

  lemma RenderHere(prefix: string)
    ensures Rendered(prefix, HERE) == {prefix}
  {
    assert [] in HERE && Render(prefix, []) == prefix;
  }

  /** GetChangedPaths: the paths found, sorted. */
  method GetChangedPaths(a: Doc, b: Doc) returns (paths: seq<string>)
    ensures paths == PathList(a, b) && Lists(paths, a, b)
  {
    var changed := new ChangeSet();
    FindChanges("", a, b, changed, MAX_DEPTH);
    assert changed.paths == Paths(a, b);
    paths := TextLists.Sorted(changed.paths);
    PathsExact(a, b);
  }

  // ---------------------------------------------------------------- what the list means

  /** At any depth limit, nothing is reported exactly when the documents are equal. */
  lemma {:induction false} NoChanges(a: Doc, b: Doc, depth: int)
    ensures Changes(a, b, depth) == {} <==> a == b
    decreases Obj(a)
  {
    if depth <= 0 {
    } else {
      forall k | k in a.Keys + b.Keys
        ensures MemberChanges(a, b, k, depth) == {} <==> Get(a, k) == Get(b, k)
      {
        if k in a && k in b && a[k].Obj? && b[k].Obj? {
          NoChanges(a[k].members, b[k].members, depth - 1);
        }
      }
      if forall k :: Get(a, k) == Get(b, k) {
        SameGetsSameMembers(a, b);
        assert forall k | k in a.Keys + b.Keys :: MemberChanges(a, b, k, depth) == {};
      } else {
        var k :| Get(a, k) != Get(b, k);
        var p :| p in MemberChanges(a, b, k, depth);
        assert [k] + p in Changes(a, b, depth);
      }
    }
  }

  /** The patch is empty, the list of changed paths is empty and the documents are equal, all or none. */
  lemma DiffsAgree(a: Doc, b: Doc)
    ensures Paths(a, b) == {} <==> a == b
    ensures PathList(a, b) == [] <==> a == b
    ensures Diff(a, b) == map[] <==> a == b
  {
    DiffEmpty(a, b);
    NoChanges(a, b, MAX_DEPTH);
    if a != b {
      var p :| p in Changes(a, b, MAX_DEPTH);
      assert Render("", p) in Paths(a, b);
      assert Render("", p) in PathList(a, b);
    }
  }

  predicate BothObjects(a: Doc, b: Doc, k: string) {
    k in a && k in b && a[k].Obj? && b[k].Obj?
  }

  /** Exactly what is reported at depth two: a top-level key that differs and is not an object on both sides,
      or a second key that differs inside two objects. */
  lemma ChangesExact(a: Doc, b: Doc, p: Path)
    ensures p in Changes(a, b, MAX_DEPTH) <==>
      (|p| == 1 && !BothObjects(a, b, p[0]) && At(Obj(a), p) != At(Obj(b), p)) ||
      (|p| == 2 && BothObjects(a, b, p[0]) && At(Obj(a), p) != At(Obj(b), p))
  {
    if p != [] {
      var k := p[0];
      assert p == [k] + p[1..];
      AtCons(Obj(a), k, p[1..]);
      AtCons(Obj(b), k, p[1..]);
      assert p in Changes(a, b, MAX_DEPTH) <==> k in a.Keys + b.Keys && p[1..] in MemberChanges(a, b, k, MAX_DEPTH);
      if BothObjects(a, b, k) {
        InnerChangesExact(a[k].members, b[k].members, p[1..]);
      }
    }
  }

  /** The two documents differ there: at a top-level key that is not an object on both sides, or at a second key inside
      two objects. */
  predicate Differs(a: Doc, b: Doc, p: Path) {
    At(Obj(a), p) != At(Obj(b), p) &&
    ((|p| == 1 && !BothObjects(a, b, p[0])) || (|p| == 2 && BothObjects(a, b, p[0])))
  }

  /** How a changed location is printed: its keys with a dot between them, an empty first key adding none. */
  predicate Prints(s: string, p: Path) {
    (|p| == 1 && s == p[0]) || (|p| == 2 && s == if p[0] == "" then p[1] else p[0] + "." + p[1])
  }

  /** The list is ascending and prints exactly the locations at which the documents differ. */
  ghost predicate Lists(list: seq<string>, a: Doc, b: Doc) {
    TextLists.Ascending(list) && forall s :: s in list <==> exists p :: Differs(a, b, p) && Prints(s, p)
  }

  lemma Printed(p: Path, s: string)
    requires |p| == 1 || |p| == 2
    ensures Render("", p) == s <==> Prints(s, p)
  {
    if |p| == 2 {
      assert p[1..] == [p[1]] && p[1..][1..] == [];
      assert Render("", p) == Render(Extend("", p[0]), p[1..]) == Render(Extend(Extend("", p[0]), p[1]), []);
    } else {
      assert p[1..] == [];
    }
  }

  /** What GetChangedPaths returns, location by location. */
  lemma PathsExact(a: Doc, b: Doc)
    ensures Lists(PathList(a, b), a, b)
  {
    forall s
      ensures s in PathList(a, b) <==> exists p :: Differs(a, b, p) && Prints(s, p)
    {
      if s in PathList(a, b) {
        var p :| p in Changes(a, b, MAX_DEPTH) && Render("", p) == s;
        ChangesExact(a, b, p);
        Printed(p, s);
      }
      if exists p :: Differs(a, b, p) && Prints(s, p) {
        var p :| Differs(a, b, p) && Prints(s, p);
        ChangesExact(a, b, p);
        Printed(p, s);
        assert Render("", p) in Paths(a, b);
      }
    }
  }

  lemma InnerChangesExact(a: Doc, b: Doc, p: Path)
    ensures p in Changes(a, b, 1) <==> |p| == 1 && At(Obj(a), p) != At(Obj(b), p)
  {
    if p != [] {
      var k := p[0];
      assert p == [k] + p[1..];
      assert p in Changes(a, b, 1) <==> k in a.Keys + b.Keys && p[1..] in MemberChanges(a, b, k, 1);
      if BothObjects(a, b, k) {
        var am, bm := a[k].members, b[k].members;
        assert MemberChanges(a, b, k, 1) == Changes(am, bm, 0) == if am != bm then HERE else {};
      }
      assert p[1..] in HERE <==> |p| == 1;
      AtKey(Obj(a), k);
      AtKey(Obj(b), k);
    }
  }

  /** The first keys of the changes are the top-level keys of the merge patch. */
  lemma PatchKeys(a: Doc, b: Doc, k: string)
    ensures k in Diff(a, b) <==> exists p :: p in Changes(a, b, MAX_DEPTH) && p[..1] == [k]
  {
    if k in Diff(a, b) {
      if BothObjects(a, b, k) {
        DiffEmpty(a[k].members, b[k].members);
        NoChanges(a[k].members, b[k].members, 1);
      }
      var q :| q in MemberChanges(a, b, k, MAX_DEPTH);
      assert [k] + q in Changes(a, b, MAX_DEPTH) && ([k] + q)[..1] == [k];
    }
    if exists p :: p in Changes(a, b, MAX_DEPTH) && p[..1] == [k] {
      var p :| p in Changes(a, b, MAX_DEPTH) && p[..1] == [k];
      ChangesExact(a, b, p);
      assert p[0] == [k][0];
      if BothObjects(a, b, k) {
        DiffEmpty(a[k].members, b[k].members);
        assert At(Obj(a), p) != At(Obj(b), p);
      } else {
        AtKey(Obj(a), k);
        AtKey(Obj(b), k);
        assert p == [k];
      }
    }
  }

  // ---------------------------------------------------------------- printed paths

  /** Keys that a printed path keeps apart: not empty and free of dots. */
  predicate Plain(keys: set<string>) {
    forall k | k in keys :: k != "" && '.' !in k
  }

  /** The keys of the two outer levels of a document. */
  function OuterKeys(a: Doc): set<string> {
    a.Keys + (set k, l | k in a && a[k].Obj? && l in a[k].members :: l)
  }

  /** Over plain keys a printed path is its keys joined with dots, so it can be read back. */
  lemma PrintedPathReadable(a: Doc, b: Doc, p: Path)
    requires Plain(OuterKeys(a) + OuterKeys(b)) && p in Changes(a, b, MAX_DEPTH)
    ensures TextLists.Split(Render("", p), '.') == p
  {
    ChangesExact(a, b, p);
    AtKey(Obj(a), p[0]);
    AtKey(Obj(b), p[0]);
    assert p[0] in a.Keys + b.Keys;
    if |p| == 2 {
      AtCons(Obj(a), p[0], [p[1]]);
      AtCons(Obj(b), p[0], [p[1]]);
      AtKey(a[p[0]], p[1]);
      AtKey(b[p[0]], p[1]);
      assert p == [p[0]] + [p[1]];
      assert p[1] in OuterKeys(a) + OuterKeys(b);
      assert p[1..] == [p[1]] && p[1..][1..] == [];
      assert Render("", p) == Render(p[0], p[1..]) == Render(p[0] + "." + p[1], []);
      assert TextLists.Join(p, '.') == p[0] + ['.'] + TextLists.Join(p[1..], '.');
    } else {
      assert p == [p[0]] && p[1..] == [];
    }
    TextLists.SplitJoin(p, '.');
  }

  /** Over plain keys the first segments of the printed paths are the top-level keys of the patch. */
  lemma PatchKeysPrinted(a: Doc, b: Doc, k: string)
    requires Plain(OuterKeys(a) + OuterKeys(b))
    ensures k in Diff(a, b) <==> exists s :: s in Paths(a, b) && TextLists.Split(s, '.')[0] == k
  {
    PatchKeys(a, b, k);
    if k in Diff(a, b) {
      var p :| p in Changes(a, b, MAX_DEPTH) && p[..1] == [k];
      PrintedPathReadable(a, b, p);
      assert p[0] == [k][0];
      assert Render("", p) in Paths(a, b);
    }
    if exists s :: s in Paths(a, b) && TextLists.Split(s, '.')[0] == k {
      var s :| s in Paths(a, b) && TextLists.Split(s, '.')[0] == k;
      var p :| p in Changes(a, b, MAX_DEPTH) && Render("", p) == s;
      PrintedPathReadable(a, b, p);
      assert p[..1] == [k];
    }
  }
}
