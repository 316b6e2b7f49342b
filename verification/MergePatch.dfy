/** JSON merge patches (RFC 7386): the object diff, the apply of section 2, and how they fit together. */
module MergePatch {
  import opened Wrappers
  import opened Json

  /** Section 2 of RFC 7386. An absent target is passed as Null, which is not an object either. */
  function Apply(target: Json, patch: Json): Json
    decreases patch
  {
    match patch
    case Obj(pm) =>
      var tm := Members(target);
      Obj(map k | k in tm.Keys + pm.Keys && !(k in pm && pm[k].Null?)
            :: if k in pm then Apply(Member(tm, k), pm[k]) else tm[k])
    case _ => patch
  }

  /** The members a merge patch needs to turn `a` into `b`. */
  function Diff(a: Doc, b: Doc): Doc
    decreases Obj(b)
  {
    map k | k in a.Keys + b.Keys &&
            (k !in a || k !in b ||
             (if a[k].Obj? && b[k].Obj? then Diff(a[k].members, b[k].members) != map[] else a[k] != b[k]))
      :: if k !in b then Null
         else if k in a && a[k].Obj? && b[k].Obj? then Obj(Diff(a[k].members, b[k].members))
         else b[k]
  }

  /** The document a patch between two objects produces from a third one. */
  function Patched(target: Json, a: Doc, b: Doc): Json {
    Apply(target, Obj(Diff(a, b)))
  }

  function Member(d: Doc, k: string): Json {
    if k in d then d[k] else Null
  }

  // ---------------------------------------------------------------- null members

  /** No object member below the root is null; arrays are not entered. */
  ghost predicate NoNullMembers(j: Json) {
    forall p: Path :: p != [] ==> At(j, p) != Some(Null)
  }

  /** Every null member of `b` is null at the same path in `a`. */
  ghost predicate NullsCarried(a: Json, b: Json) {
    forall p: Path :: p != [] && At(b, p) == Some(Null) ==> At(a, p) == Some(Null)
  }

  /** The document without its null members. */
  function Prune(j: Json): Json {
    match j
    case Obj(m) => Obj(map k | k in m && !m[k].Null? :: Prune(m[k]))
    case _ => j
  }

  /** NullsCarried for the member `k` of an object. */
  ghost predicate NullsCarriedAt(a: Doc, b: Doc, k: string) {
    k in b ==>
      if b[k].Null? then k in a && a[k].Null? else NullsCarried(Member(a, k), b[k])
  }

  lemma NullsCarriedByMember(a: Doc, b: Doc)
    ensures NullsCarried(Obj(a), Obj(b)) <==> forall k :: k in b ==> NullsCarriedAt(a, b, k)
  {
    forall k | k in b && NullsCarried(Obj(a), Obj(b))
      ensures NullsCarriedAt(a, b, k)
    {
      AtKey(Obj(a), k);
      AtKey(Obj(b), k);
      forall p: Path | p != [] && At(b[k], p) == Some(Null)
        ensures k in a && At(a[k], p) == Some(Null)
      {
        AtCons(Obj(a), k, p);
        AtCons(Obj(b), k, p);
        assert At(Obj(b), [k] + p) == Some(Null);
      }
    }
    if forall k :: k in b ==> NullsCarriedAt(a, b, k) {
      forall p: Path | p != [] && At(Obj(b), p) == Some(Null)
        ensures At(Obj(a), p) == Some(Null)
      {
        var k := p[0];
        assert p == [k] + p[1..];
        assert NullsCarriedAt(a, b, k);
        if p[1..] == [] {
          AtKey(Obj(a), k);
          AtKey(Obj(b), k);
        } else {
          assert At(b[k], p[1..]) == Some(Null);
          assert At(Member(a, k), p[1..]) == Some(Null);
        }
      }
    }
  }

  lemma OnlyObjectsHoldNulls(a: Json, b: Json)
    requires !b.Obj?
    ensures NullsCarried(a, b)
  {
    assert forall p: Path :: p != [] ==> At(b, p) == None;
  }

  /** Pruning changes nothing exactly when there is no null member to remove. */
  lemma {:induction false} PruneFixed(j: Json)
    ensures Prune(j) == j <==> NoNullMembers(j)
    ensures NullsCarried(Null, j) <==> NoNullMembers(j)
    decreases j
  {
    assert forall p: Path :: p != [] ==> At(Null, p) == None;
    if j.Obj? {
      var m := j.members;
      assert forall k :: k in m ==> m[k] < j;
      forall k | k in m
        ensures NullsCarriedAt(map[], m, k) <==> !m[k].Null? && Prune(m[k]) == m[k]
      {
        PruneFixed(m[k]);
      }
      NullsCarriedByMember(map[], m);
      assert NullsCarried(Obj(map[]), j) <==> NoNullMembers(j) by {
        assert forall p: Path :: p != [] ==> At(Obj(map[]), p) == None;
      }
      if forall k :: k in m ==> NullsCarriedAt(map[], m, k) {
        assert Prune(j).members == m;
      } else {
        var k :| k in m && !NullsCarriedAt(map[], m, k);
        assert Get(Prune(j).members, k) != Get(m, k);
      }
    } else {
      OnlyObjectsHoldNulls(Null, j);
    }
  }

  // ---------------------------------------------------------------- apply after diff

  /** A patch is empty exactly when the documents are equal. */
  lemma {:induction false} DiffEmpty(a: Doc, b: Doc)
    ensures Diff(a, b) == map[] <==> a == b
    decreases Obj(b)
  {
    forall k | k in a && k in b && a[k].Obj? && b[k].Obj?
      ensures Diff(a[k].members, b[k].members) == map[] <==> a[k] == b[k]
    {
      DiffEmpty(a[k].members, b[k].members);
    }
    if a != b {
      if forall k :: Get(a, k) == Get(b, k) {
        SameGetsSameMembers(a, b);
      }
      var k :| Get(a, k) != Get(b, k);
      assert k in Diff(a, b);
    }
  }

  /** What a patch does to one member of its target. */
  lemma PatchedMember(t: Doc, a: Doc, b: Doc, k: string)
    ensures Get(Patched(Obj(t), a, b).members, k) ==
      if Get(a, k) == Get(b, k) then Get(t, k)
      else if k !in b || b[k].Null? then None
      else if k in a && a[k].Obj? && b[k].Obj? then Some(Patched(Member(t, k), a[k].members, b[k].members))
      else Some(Apply(Member(t, k), b[k]))
  {
    if k in a && k in b && a[k].Obj? && b[k].Obj? {
      DiffEmpty(a[k].members, b[k].members);
    }
  }

  lemma {:induction false} ApplyToNonObject(t: Json, p: Json)
    requires !t.Obj?
    ensures Apply(t, p) == Prune(p)
    decreases p
  {
    if !p.Obj? {
    } else {
      forall k | k in p.members && !p.members[k].Null?
        ensures Apply(Null, p.members[k]) == Prune(p.members[k])
      {
        ApplyToNonObject(Null, p.members[k]);
      }
    }
  }

  /** The round trip: patching `a` with the diff to `b` gives `b` exactly when no null member is introduced. */
  lemma {:induction false} RoundTrip(a: Doc, b: Doc)
    ensures Patched(Obj(a), a, b) == Obj(b) <==> NullsCarried(Obj(a), Obj(b))
    decreases Obj(b)
  {
    var r := Patched(Obj(a), a, b).members;
    forall k
      ensures Get(r, k) == Get(b, k) <==> NullsCarriedAt(a, b, k)
    {
      PatchedMember(a, a, b, k);
      if k in b {
        if k in a && a[k].Obj? && b[k].Obj? {
          RoundTrip(a[k].members, b[k].members);
        } else if !b[k].Obj? {
          OnlyObjectsHoldNulls(Member(a, k), b[k]);
        } else {
          ApplyToNonObject(Member(a, k), b[k]);
          PruneFixed(b[k]);
          assert forall p: Path :: p != [] ==> At(Member(a, k), p) == None == At(Null, p);
        }
      }
    }
    NullsCarriedByMember(a, b);
    if forall k :: Get(r, k) == Get(b, k) {
      SameGetsSameMembers(r, b);
    } else {
      var k :| Get(r, k) != Get(b, k);
      assert k in b && !NullsCarriedAt(a, b, k);
    }
  }

  /** Without null members in the new document the round trip always holds. */
  lemma RoundTripNoNulls(a: Doc, b: Doc)
    requires NoNullMembers(Obj(b))
    ensures Patched(Obj(a), a, b) == Obj(b)
  {
    RoundTrip(a, b);
  }

  /** Applying a patch to the document it leads to: harmless exactly under the same condition. */
  lemma {:induction false} ReapplyToResult(a: Doc, b: Doc)
    ensures Patched(Obj(b), a, b) == Obj(b) <==> NullsCarried(Obj(a), Obj(b))
    decreases Obj(b)
  {
    var r := Patched(Obj(b), a, b).members;
    forall k
      ensures Get(r, k) == Get(b, k) <==> NullsCarriedAt(a, b, k)
    {
      PatchedMember(b, a, b, k);
      if k in b {
        if k in a && a[k].Obj? && b[k].Obj? {
          ReapplyToResult(a[k].members, b[k].members);
        } else if !b[k].Obj? {
          OnlyObjectsHoldNulls(Member(a, k), b[k]);
        } else {
          SelfApply(b[k]);
          assert forall p: Path :: p != [] ==> At(Member(a, k), p) == None == At(Null, p);
          PruneFixed(b[k]);
        }
      }
    }
    NullsCarriedByMember(a, b);
    if forall k :: Get(r, k) == Get(b, k) {
      SameGetsSameMembers(r, b);
    } else {
      var k :| Get(r, k) != Get(b, k);
      assert k in b && !NullsCarriedAt(a, b, k);
    }
  }

  /** A document used as a patch on itself loses its null members. */
  lemma {:induction false} SelfApply(j: Json)
    ensures Apply(j, j) == Prune(j)
    decreases j
  {
    if !j.Obj? {
    } else {
      forall k | k in j.members && !j.members[k].Null?
        ensures Apply(j.members[k], j.members[k]) == Prune(j.members[k])
      {
        SelfApply(j.members[k]);
      }
    }
  }

  /** Applying a patch a second time changes nothing, whatever the target. */
  lemma {:induction false} ApplyIdempotent(t: Json, p: Json)
    ensures Apply(Apply(t, p), p) == Apply(t, p)
    decreases p
  {
    if !p.Obj? {
    } else {
      var once := Apply(t, p).members;
      var twice := Apply(Obj(once), p).members;
      forall k
        ensures Get(twice, k) == Get(once, k)
      {
        if k in p.members && !p.members[k].Null? {
          ApplyIdempotent(Member(Members(t), k), p.members[k]);
        }
      }
      SameGetsSameMembers(twice, once);
    }
  }

  // ---------------------------------------------------------------- location by location

  /** The way to `q` meets a value of the patch that is not an object. */
  predicate Shadowed(p: Json, q: Path)
    decreases |q|
  {
    q != [] && (!p.Obj? || (q[0] in p.members && Shadowed(p.members[q[0]], q[1..])))
  }

  /** What a node of a patch leaves at its location: nothing for null, itself otherwise. */
  function Imposed(n: Node): Node {
    if n == Leaf(Null) then Absent else n
  }

  lemma NodeOfMember(d: Doc, k: string, rest: Path)
    ensures NodeAt(Obj(d), [k] + rest) == if k in d then NodeAt(d[k], rest) else Absent
  {
    AtCons(Obj(d), k, rest);
  }

  /** Applying a patch, at every location: the patch's node where it has one, nothing below a value it sets, and the
      target's node elsewhere. */
  lemma {:induction false} AppliedNode(t: Json, p: Json, q: Path)
    requires p != Null
    ensures NodeAt(Apply(t, p), q) ==
      if NodeAt(p, q) != Absent then Imposed(NodeAt(p, q))
      else if Shadowed(p, q) then Absent
      else NodeAt(t, q)
    decreases |q|
  {
    if q == [] {
    } else if p.Obj? {
      var k, rest := q[0], q[1..];
      assert q == [k] + rest;
      NodeOfMember(Members(t), k, rest);
      NodeOfMember(p.members, k, rest);
      NodeOfMember(Apply(t, p).members, k, rest);
      if k in p.members && !p.members[k].Null? {
        AppliedNode(Member(Members(t), k), p.members[k], rest);
      }
    }
  }

  /** The document already has everything the patch imposes. */
  ghost predicate Settled(t: Json, p: Json) {
    forall q: Path :: NodeAt(p, q) != Absent ==> NodeAt(t, q) == Imposed(NodeAt(p, q))
  }

  lemma {:induction false} ShadowLeaf(p: Json, q: Path) returns (i: nat)
    requires Shadowed(p, q)
    ensures i < |q| && NodeAt(p, q[..i]).Leaf?
    decreases |q|
  {
    if !p.Obj? {
      i := 0;
    } else {
      i := ShadowLeaf(p.members[q[0]], q[1..]);
      AtCons(p, q[0], q[1..][..i]);
      i := i + 1;
      assert q[..i] == [q[0]] + q[1..][..i - 1];
    }
  }

  lemma {:induction false} NothingBelow(j: Json, q: Path, i: nat)
    requires i < |q| && NodeAt(j, q[..i]) != Object
    ensures NodeAt(j, q) == Absent
    decreases |q|
  {
    if i == 0 {
      assert q[..0] == [];
    } else if j.Obj? && q[0] in j.members {
      assert q[..i] == [q[0]] + q[1..][..i - 1];
      AtCons(j, q[0], q[1..][..i - 1]);
      NothingBelow(j.members[q[0]], q[1..], i - 1);
    }
  }

  /** A patch changes nothing exactly when the document is settled for it. */
  lemma SettledIff(t: Json, p: Json)
    requires p != Null
    ensures Apply(t, p) == t <==> Settled(t, p)
  {
    forall q: Path
      ensures NodeAt(Apply(t, p), q) ==
        if NodeAt(p, q) != Absent then Imposed(NodeAt(p, q)) else if Shadowed(p, q) then Absent else NodeAt(t, q)
    {
      AppliedNode(t, p, q);
    }
    if Settled(t, p) {
      forall q: Path
        ensures NodeAt(Apply(t, p), q) == NodeAt(t, q)
      {
        if NodeAt(p, q) == Absent && Shadowed(p, q) {
          var i := ShadowLeaf(p, q);
          NothingBelow(t, q, i);
        }
      }
      SameNodesSameDocument(Apply(t, p), t);
    }
  }

  // ---------------------------------------------------------------- agreement up to null members

  lemma {:induction false} PruneIdempotent(j: Json)
    ensures Prune(Prune(j)) == Prune(j)
    decreases j
  {
    if !j.Obj? {
    } else {
      forall k | k in j.members && !j.members[k].Null?
        ensures Prune(Prune(j.members[k])) == Prune(j.members[k]) && !Prune(j.members[k]).Null?
      {
        PruneIdempotent(j.members[k]);
      }
    }
  }

  /** The member `k` of a pruned object. */
  lemma PrunedMember(m: Doc, k: string)
    ensures Get(Prune(Obj(m)).members, k) ==
      if k in m && !m[k].Null? then Some(Prune(m[k])) else None
  {
  }

  /** Two targets that agree up to null members still do after the same patch. */
  lemma {:induction false} ApplyUpToNulls(t: Json, u: Json, p: Json)
    requires Prune(t) == Prune(u)
    ensures Prune(Apply(t, p)) == Prune(Apply(u, p))
    decreases p
  {
    if !p.Obj? {
    } else {
      var tm, um := Members(t), Members(u);
      var x, y := Apply(t, p).members, Apply(u, p).members;
      forall k
        ensures Get(Prune(Obj(x)).members, k) == Get(Prune(Obj(y)).members, k)
      {
        PrunedMember(tm, k);
        PrunedMember(um, k);
        PrunedMember(x, k);
        PrunedMember(y, k);
        if k in p.members && !p.members[k].Null? {
          ApplyUpToNulls(Member(tm, k), Member(um, k), p.members[k]);
        }
      }
      SameGetsSameMembers(Prune(Obj(x)).members, Prune(Obj(y)).members);
    }
  }

  /** The round trip up to null members holds for all documents. */
  lemma {:induction false} RoundTripUpToNulls(a: Doc, b: Doc)
    ensures Prune(Patched(Obj(a), a, b)) == Prune(Obj(b))
    decreases Obj(b)
  {
    var r := Patched(Obj(a), a, b).members;
    forall k
      ensures Get(Prune(Obj(r)).members, k) == Get(Prune(Obj(b)).members, k)
    {
      PrunedMember(r, k);
      PrunedMember(b, k);
      PatchedMember(a, a, b, k);
      if k in b {
        if k in a && a[k].Obj? && b[k].Obj? {
          RoundTripUpToNulls(a[k].members, b[k].members);
        } else if b[k].Obj? {
          ApplyToNonObject(Member(a, k), b[k]);
          PruneIdempotent(b[k]);
        }
      }
    }
    SameGetsSameMembers(Prune(Obj(r)).members, Prune(Obj(b)).members);
  }

  // ---------------------------------------------------------------- patching another target, location by location

  /** Dropping null members, at every location. */
  lemma {:induction false} PruneNodes(j: Json, q: Path)
    requires j != Null
    ensures NodeAt(Prune(j), q) == Imposed(NodeAt(j, q))
    decreases |q|
  {
    if q == [] {
    } else if j.Obj? {
      var k, rest := q[0], q[1..];
      assert q == [k] + rest;
      NodeOfMember(j.members, k, rest);
      NodeOfMember(Prune(j).members, k, rest);
      if k in j.members && !j.members[k].Null? {
        PruneNodes(j.members[k], rest);
      }
    }
  }

  /** The patch neither mentions the location nor sets a value above it. */
  predicate LeftAlone(p: Json, q: Path) {
    NodeAt(p, q) == Absent && !Shadowed(p, q)
  }

  /** The diff from `a` to `b` over any target: it leaves the target's node, where it leaves locations alone, and
      imposes `b` everywhere else. */
  lemma PatchedNode(t: Json, a: Doc, b: Doc, q: Path)
    ensures NodeAt(Patched(t, a, b), q) ==
      if LeftAlone(Obj(Diff(a, b)), q) then NodeAt(t, q) else Imposed(NodeAt(Obj(b), q))
  {
    var p := Obj(Diff(a, b));
    AppliedNode(t, p, q);
    AppliedNode(Obj(a), p, q);
    RoundTripUpToNulls(a, b);
    PruneNodes(Patched(Obj(a), a, b), q);
    PruneNodes(Obj(b), q);
  }

  /** The locations a diff leaves alone hold the same in both documents; of those that hold no object it leaves alone
      exactly those. */
  lemma {:induction false} LeftAloneWhereSame(a: Doc, b: Doc, q: Path)
    ensures LeftAlone(Obj(Diff(a, b)), q) ==> NodeAt(Obj(a), q) == NodeAt(Obj(b), q)
    ensures NodeAt(Obj(b), q).Leaf? && NodeAt(Obj(a), q) == NodeAt(Obj(b), q) ==> LeftAlone(Obj(Diff(a, b)), q)
    decreases |q|
  {
    if q == [] {
    } else {
      var k, rest := q[0], q[1..];
      assert q == [k] + rest;
      NodeOfMember(a, k, rest);
      NodeOfMember(b, k, rest);
      NodeOfMember(Diff(a, b), k, rest);
      if k in a && k in b && a[k].Obj? && b[k].Obj? {
        DiffEmpty(a[k].members, b[k].members);
        LeftAloneWhereSame(a[k].members, b[k].members, rest);
      } else if k in Diff(a, b) && LeftAlone(Diff(a, b)[k], rest) {
        assert rest != [] && b[k].Obj? && !Member(a, k).Obj?;
      }
    }
  }

  /** Every location at which two documents differ is, in any target patched with their diff, as in the second. */
  lemma PatchedWhereChanged(t: Json, a: Doc, b: Doc, q: Path)
    requires NodeAt(Obj(a), q) != NodeAt(Obj(b), q)
    ensures NodeAt(Patched(t, a, b), q) == Imposed(NodeAt(Obj(b), q))
  {
    PatchedNode(t, a, b, q);
    LeftAloneWhereSame(a, b, q);
  }

  /** A document up to null members, location by location. */
  lemma PruneEqualIff(j: Doc, k: Doc)
    ensures Prune(Obj(j)) == Prune(Obj(k)) <==>
      forall q: Path :: Imposed(NodeAt(Obj(j), q)) == Imposed(NodeAt(Obj(k), q))
  {
    forall q: Path
      ensures NodeAt(Prune(Obj(j)), q) == Imposed(NodeAt(Obj(j), q))
      ensures NodeAt(Prune(Obj(k)), q) == Imposed(NodeAt(Obj(k), q))
    {
      PruneNodes(Obj(j), q);
      PruneNodes(Obj(k), q);
    }
    if forall q: Path :: Imposed(NodeAt(Obj(j), q)) == Imposed(NodeAt(Obj(k), q)) {
      SameNodesSameDocument(Prune(Obj(j)), Prune(Obj(k)));
    }
  }

  /** The document agrees with `b`, up to null members, wherever the diff from `a` to `b` leaves it alone. */
  ghost predicate AgreesWhereLeft(x: Doc, a: Doc, b: Doc) {
    forall q: Path :: LeftAlone(Obj(Diff(a, b)), q) ==> Imposed(NodeAt(Obj(x), q)) == Imposed(NodeAt(Obj(b), q))
  }

  /** The document is as `b` wherever the diff from `a` to `b` leaves it alone, and elsewhere `b` has no null member. */
  ghost predicate MatchesWhereLeft(x: Doc, a: Doc, b: Doc) {
    forall q: Path ::
      if LeftAlone(Obj(Diff(a, b)), q) then NodeAt(Obj(x), q) == NodeAt(Obj(b), q) else NodeAt(Obj(b), q) != Leaf(Null)
  }

  /** A diff made between other documents leads to its second one, up to null members, exactly when the target already
      agrees with that one wherever the diff leaves it alone. */
  lemma ReachesUpToNullsIff(x: Doc, a: Doc, b: Doc)
    ensures Prune(Patched(Obj(x), a, b)) == Prune(Obj(b)) <==> AgreesWhereLeft(x, a, b)
  {
    var y := Patched(Obj(x), a, b).members;
    forall q: Path
      ensures NodeAt(Obj(y), q) ==
        if LeftAlone(Obj(Diff(a, b)), q) then NodeAt(Obj(x), q) else Imposed(NodeAt(Obj(b), q))
    {
      PatchedNode(Obj(x), a, b, q);
    }
    PruneEqualIff(y, b);
  }

  /** A target that agreed with the first document does. */
  lemma AgreedBefore(x: Doc, a: Doc, b: Doc)
    requires Prune(Obj(x)) == Prune(Obj(a))
    ensures AgreesWhereLeft(x, a, b)
  {
    PruneEqualIff(x, a);
    forall q: Path | LeftAlone(Obj(Diff(a, b)), q)
      ensures Imposed(NodeAt(Obj(x), q)) == Imposed(NodeAt(Obj(b), q))
    {
      LeftAloneWhereSame(a, b, q);
    }
  }

  /** It leads there exactly when the target is the same there and no null member is set elsewhere. */
  lemma ReachesIff(x: Doc, a: Doc, b: Doc)
    ensures Patched(Obj(x), a, b) == Obj(b) <==> MatchesWhereLeft(x, a, b)
  {
    var y := Patched(Obj(x), a, b);
    forall q: Path
      ensures NodeAt(y, q) ==
        if LeftAlone(Obj(Diff(a, b)), q) then NodeAt(Obj(x), q) else Imposed(NodeAt(Obj(b), q))
    {
      PatchedNode(Obj(x), a, b, q);
    }
    if MatchesWhereLeft(x, a, b) {
      forall q: Path
        ensures NodeAt(y, q) == NodeAt(Obj(b), q)
      {
        assert LeftAlone(Obj(Diff(a, b)), q) || NodeAt(Obj(b), q) != Leaf(Null);
      }
      SameNodesSameDocument(y, Obj(b));
    }
  }

  // ---------------------------------------------------------------- chains of patches

  function ApplyAll(base: Json, patches: seq<Json>): Json {
    if patches == [] then base
    else Apply(ApplyAll(base, patches[..|patches| - 1]), patches[|patches| - 1])
  }

  /** ApplyMergePatches: the loop over a patch series. */
  method ApplyMergePatches(base: Json, patches: seq<Json>) returns (current: Json)
    ensures current == ApplyAll(base, patches)
  {
    current := base;
    for i := 0 to |patches|
      invariant current == ApplyAll(base, patches[..i])
    {
      assert patches[..i + 1][..i] == patches[..i];
      current := Apply(current, patches[i]);
    }
    assert patches[..|patches|] == patches;
  }

  /** The patches between the successive documents of a history. */
  function DiffChain(docs: seq<Doc>): (patches: seq<Json>)
    requires |docs| > 0
    ensures |patches| == |docs| - 1
  {
    seq(|docs| - 1, i requires 0 <= i < |docs| - 1 => Obj(Diff(docs[i], docs[i + 1])))
  }

  /** Replaying the diffs of a history reaches its last document, up to null members. */
  lemma {:induction false} ReplayDiffChain(docs: seq<Doc>)
    requires |docs| > 0
    ensures Prune(ApplyAll(Obj(docs[0]), DiffChain(docs))) == Prune(Obj(docs[|docs| - 1]))
  {
    if |docs| == 1 {
    } else {
      var front := docs[..|docs| - 1];
      var a, b := docs[|docs| - 2], docs[|docs| - 1];
      ReplayDiffChain(front);
      var before := ApplyAll(Obj(docs[0]), DiffChain(front));
      assert DiffChain(docs)[..|docs| - 2] == DiffChain(front);
      ApplyUpToNulls(before, Obj(a), Obj(Diff(a, b)));
      RoundTripUpToNulls(a, b);
    }
  }
}
