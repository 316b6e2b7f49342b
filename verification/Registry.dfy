/** The registry of resource watchers: one cancel function per policy and resource type. */
module Registry {
  import opened Wrappers

  datatype Gvr = Gvr(group: string, version: string, resource: string) {
    function TypeName(): (s: string)
      ensures s != ""
    {
      group + "/" + version + ", Resource=" + resource
    }
  }

  /** A policy as the registry sees it. A resource whose type does not parse is None. */
  datatype Policy = Policy(name: string, paused: bool, resources: seq<Option<Gvr>>)

  function Key(policyName: string, gvr: Gvr): string {
    policyName + "/" + gvr.TypeName()
  }

  /** StopPolicy's test on a key. */
  predicate Belongs(key: string, policyName: string) {
    var prefix := policyName + "/";
    |key| > |prefix| && key[..|prefix|] == prefix
  }

  /** Registered watchers, contexts that are not cancelled, and the next context to be created. */
  datatype State = State(watchers: map<string, int>, live: set<int>, next: nat)

  function Doomed(s: State, policyName: string): set<string> {
    set k | k in s.watchers && Belongs(k, policyName)
  }

  function Stopped(s: State, policyName: string): State {
    var doomed := Doomed(s, policyName);
    s.(watchers := s.watchers - doomed, live := s.live - (set k | k in doomed :: s.watchers[k]))
  }

  function AllStopped(s: State): State {
    s.(watchers := map[], live := s.live - s.watchers.Values)
  }

  function Started(s: State, key: string): State {
    State(s.watchers[key := s.next], s.live + {s.next}, s.next + 1)
  }

  function StartedAll(s: State, policyName: string, resources: seq<Option<Gvr>>): State {
    if resources == [] then s
    else
      var t := StartedAll(s, policyName, resources[..|resources| - 1]);
      var last := resources[|resources| - 1];
      if last.None? then t else Started(t, Key(policyName, last.value))
  }

  function Reconciled(s: State, policy: Policy): State {
    var t := Stopped(s, policy.name);
    if policy.paused then t else StartedAll(t, policy.name, policy.resources)
  }

  class ResourceWatcher {
    var watchers: map<string, int>
    var live: set<int>
    var next: nat

    function Now(): State
      reads this
    {
      State(watchers, live, next)
    }

    constructor ()
      ensures Now() == State(map[], {}, 0)
    {
      watchers, live, next := map[], {}, 0;
    }

    method Reconcile(policy: Policy)
      modifies this
      ensures Now() == Reconciled(old(Now()), policy)
    {
      if policy.paused {
        StopPolicy(policy.name);
        return;
      }
      StopPolicy(policy.name);
      ghost var stopped := Now();
      for i := 0 to |policy.resources|
        invariant Now() == StartedAll(stopped, policy.name, policy.resources[..i])
      {
        assert policy.resources[..i + 1][..i] == policy.resources[..i];
        var res := policy.resources[i];
        if res.None? {
          continue;
        }
        var key := Key(policy.name, res.value);
        live := live + {next};
        watchers := watchers[key := next];
        next := next + 1;
      }
      assert policy.resources[..|policy.resources|] == policy.resources;
    }

    method StopPolicy(policyName: string)
      modifies this
      ensures Now() == Stopped(old(Now()), policyName)
    {
      var prefix := policyName + "/";
      ghost var was := Now();
      ghost var gone: set<string> := {};
      var keys := watchers.Keys;
      while keys != {}
        invariant keys <= watchers.Keys && next == was.next
        invariant gone == set k | k in was.watchers && k !in keys && Belongs(k, policyName)
        invariant watchers == was.watchers - gone
        invariant live == was.live - (set k | k in gone :: was.watchers[k])
        decreases keys
      {
        var key :| key in keys;
        if |key| > |prefix| && key[..|prefix|] == prefix {
          live := live - {watchers[key]};
          watchers := watchers - {key};
          gone := gone + {key};
        }
        keys := keys - {key};
      }
      assert gone == Doomed(was, policyName);
    }

    method StopAll()
      modifies this
      ensures Now() == AllStopped(old(Now()))
    {
      ghost var was := Now();
      var keys := watchers.Keys;
      while keys != {}
        invariant keys == watchers.Keys && next == was.next
        invariant watchers == was.watchers - (was.watchers.Keys - keys)
        invariant live == was.live - (set k | k in was.watchers.Keys - keys :: was.watchers[k])
        decreases keys
      {
        var key :| key in keys;
        live := live - {watchers[key]};
        watchers := watchers - {key};
        keys := keys - {key};
      }
      assert (set k | k in was.watchers.Keys :: was.watchers[k]) == was.watchers.Values;
    }
  }

  // ---------------------------------------------------------------- whose key is it

  /** A string has one first slash. */
  lemma FirstSlash(s: string, i: nat, j: nat)
    requires i < |s| && j < |s| && s[i] == '/' && s[j] == '/'
    requires (forall k | 0 <= k < i :: s[k] != '/') && (forall k | 0 <= k < j :: s[k] != '/')
    ensures i == j
  {
  }

  /** Keys of slash-free policies are told apart by StopPolicy's prefix test. */
  lemma BelongsIff(owner: string, gvr: Gvr, policyName: string)
    requires '/' !in owner && '/' !in policyName
    ensures Belongs(Key(owner, gvr), policyName) <==> owner == policyName
  {
    var key, prefix := Key(owner, gvr), policyName + "/";
    assert key[|owner|] == '/' && prefix[|policyName|] == '/';
    assert forall i | 0 <= i < |owner| :: key[i] == owner[i] && owner[i] in owner;
    assert forall i | 0 <= i < |policyName| :: prefix[i] == policyName[i] && policyName[i] in policyName;
    if Belongs(key, policyName) {
      assert forall i | 0 <= i < |prefix| :: key[i] == prefix[i];
      FirstSlash(key, |owner|, |policyName|);
      assert owner == key[..|owner|] == prefix[..|policyName|] == policyName;
    } else {
      assert key[..|owner| + 1] == owner + "/";
    }
  }

  /** A policy's own keys always pass the test, whatever its name. */
  lemma OwnKeyBelongs(owner: string, gvr: Gvr)
    ensures Belongs(Key(owner, gvr), owner)
  {
    assert Key(owner, gvr)[..|owner| + 1] == owner + "/";
  }

  // ---------------------------------------------------------------- live watchers and registered watchers

  /** Watchers still running that no registered cancel function can reach. */
  function Leaked(s: State): set<int> {
    s.live - s.watchers.Values
  }

  ghost predicate Sane(s: State) {
    (forall k :: k in s.watchers ==> s.watchers[k] in s.live) && (forall c :: c in s.live ==> c < s.next) &&
    forall k, l :: k in s.watchers && l in s.watchers && s.watchers[k] == s.watchers[l] ==> k == l
  }

  /** The live watchers are exactly the registered ones. */
  ghost predicate Consistent(s: State) {
    Sane(s) && s.live == s.watchers.Values
  }

  lemma StoppedLeaks(s: State, policyName: string)
    requires Sane(s)
    ensures Sane(Stopped(s, policyName)) && Leaked(Stopped(s, policyName)) == Leaked(s)
  {
    var t, doomed := Stopped(s, policyName), Doomed(s, policyName);
    forall k | k in t.watchers
      ensures t.watchers[k] in t.live
    {
      assert k in s.watchers && k !in doomed;
    }
    forall c
      ensures c in Leaked(t) <==> c in Leaked(s)
    {
      if c in s.watchers.Values {
        var k :| k in s.watchers && s.watchers[k] == c;
        if k !in doomed {
          assert k in t.watchers;
        } else {
          assert c in (set x | x in doomed :: s.watchers[x]);
        }
      }
    }
  }

  lemma StartedLeaks(s: State, key: string)
    requires Sane(s)
    ensures Sane(Started(s, key))
    ensures Leaked(Started(s, key)) == Leaked(s) + (if key in s.watchers then {s.watchers[key]} else {})
  {
    var t := Started(s, key);
    assert t.watchers[key] == s.next;
    forall c
      ensures c in t.watchers.Values <==> c == s.next || exists k :: k in s.watchers && k != key && s.watchers[k] == c
    {
      if c in t.watchers.Values {
        var k :| k in t.watchers && t.watchers[k] == c;
      }
      if exists k :: k in s.watchers && k != key && s.watchers[k] == c {
        var k :| k in s.watchers && k != key && s.watchers[k] == c;
        assert t.watchers[k] == c;
      }
    }
    forall c | c in s.live
      ensures c in t.watchers.Values <==> c in s.watchers.Values && (key in s.watchers ==> c != s.watchers[key])
    {
      if c in s.watchers.Values {
        var k :| k in s.watchers && s.watchers[k] == c;
      }
    }
  }

  /** The printed names of the resources that parse are pairwise distinct. */
  predicate DistinctNames(resources: seq<Option<Gvr>>) {
    forall i, j | 0 <= i < j < |resources| && resources[i].Some? && resources[j].Some? ::
      resources[i].value.TypeName() != resources[j].value.TypeName()
  }

  predicate ListedName(resources: seq<Option<Gvr>>, typeName: string) {
    exists i | 0 <= i < |resources| :: resources[i].Some? && resources[i].value.TypeName() == typeName
  }

  // ---------------------------------------------------------------- types and their printed names

  /** A group without a slash and a version without a comma, as in every real type. */
  predicate Ordinary(gvr: Gvr) {
    '/' !in gvr.group && ',' !in gvr.version
  }

  /** A text without `c`, then `c`: where it ends is where the first `c` is. */
  lemma UpToFirst(a: string, s: string, b: string, t: string, c: char)
    requires c !in a && c !in b && a + [c] + s == b + [c] + t
    ensures a == b && s == t
  {
    var u, v := a + [c] + s, b + [c] + t;
    assert u[|a|] == c && forall i | 0 <= i < |a| :: u[i] == a[i] && a[i] in a;
    assert v[|b|] == c && forall i | 0 <= i < |b| :: v[i] == b[i] && b[i] in b;
    assert |a| == |b|;
    assert a == u[..|a|] == v[..|b|] == b;
    assert s == u[|a| + 1..] == v[|b| + 1..] == t;
  }

  lemma NameInParts(gvr: Gvr)
    ensures gvr.TypeName() == gvr.group + "/" + (gvr.version + "," + (" Resource=" + gvr.resource))
  {
    assert ", Resource=" == "," + " Resource=";
  }

  /** Ordinary types are told apart by their printed names. */
  lemma TypeNameInjective(g: Gvr, h: Gvr)
    requires Ordinary(g) && Ordinary(h)
    ensures g.TypeName() == h.TypeName() <==> g == h
  {
    if g.TypeName() == h.TypeName() {
      NameInParts(g);
      NameInParts(h);
      var gRest, hRest := " Resource=" + g.resource, " Resource=" + h.resource;
      UpToFirst(g.group, g.version + "," + gRest, h.group, h.version + "," + hRest, '/');
      UpToFirst(g.version, gRest, h.version, hRest, ',');
      var n := |" Resource="|;
      assert g.resource == gRest[n..] == hRest[n..] == h.resource;
    }
  }

  predicate AllOrdinary(resources: seq<Option<Gvr>>) {
    forall i | 0 <= i < |resources| :: resources[i].Some? ==> Ordinary(resources[i].value)
  }

  /** The resources that parse are pairwise distinct types. */
  predicate Distinct(resources: seq<Option<Gvr>>) {
    forall i, j | 0 <= i < j < |resources| && resources[i].Some? && resources[j].Some? ::
      resources[i] != resources[j]
  }

  lemma DistinctIsByName(resources: seq<Option<Gvr>>)
    requires AllOrdinary(resources)
    ensures DistinctNames(resources) <==> Distinct(resources)
  {
    forall i, j | 0 <= i < j < |resources| && resources[i].Some? && resources[j].Some?
      ensures resources[i].value.TypeName() != resources[j].value.TypeName() <==> resources[i] != resources[j]
    {
      TypeNameInjective(resources[i].value, resources[j].value);
    }
  }

  lemma ListedIsByName(resources: seq<Option<Gvr>>, gvr: Gvr)
    requires AllOrdinary(resources) && Ordinary(gvr)
    ensures ListedName(resources, gvr.TypeName()) <==> Some(gvr) in resources
  {
    forall i | 0 <= i < |resources| && resources[i].Some?
      ensures resources[i].value.TypeName() == gvr.TypeName() <==> resources[i].value == gvr
    {
      TypeNameInjective(resources[i].value, gvr);
    }
    if Some(gvr) in resources {
      var i :| 0 <= i < |resources| && resources[i] == Some(gvr);
      assert resources[i].value == gvr;
    }
  }

  // ---------------------------------------------------------------- what starting leaks

  lemma SameKey(policyName: string, g: Gvr, h: Gvr)
    ensures Key(policyName, g) == Key(policyName, h) <==> g.TypeName() == h.TypeName()
  {
    assert Key(policyName, g)[|policyName| + 1..] == g.TypeName();
    assert Key(policyName, h)[|policyName| + 1..] == h.TypeName();
  }

  lemma ListedMore(resources: seq<Option<Gvr>>, typeName: string)
    requires resources != []
    ensures var front, last := resources[..|resources| - 1], resources[|resources| - 1];
      ListedName(resources, typeName) <==>
        ListedName(front, typeName) || (last.Some? && last.value.TypeName() == typeName)
  {
    var front, last := resources[..|resources| - 1], resources[|resources| - 1];
    if ListedName(front, typeName) {
      var i :| 0 <= i < |front| && front[i].Some? && front[i].value.TypeName() == typeName;
      assert resources[i] == front[i];
    }
    if last.Some? && last.value.TypeName() == typeName {
      assert resources[|resources| - 1] == last;
    }
  }

  /** Starting the watchers of a policy that has none registers exactly its types and leaks exactly at repeated ones. */
  lemma {:induction false} StartedAllLeaks(s: State, policyName: string, resources: seq<Option<Gvr>>)
    requires Sane(s) && forall k :: k in s.watchers ==> !Belongs(k, policyName)
    ensures var t := StartedAll(s, policyName, resources);
      Sane(t) && Leaked(s) <= Leaked(t) && (Leaked(t) == Leaked(s) <==> DistinctNames(resources)) &&
      (forall k :: k in s.watchers ==> k in t.watchers && t.watchers[k] == s.watchers[k]) &&
      (forall k :: k in t.watchers && k !in s.watchers ==> Belongs(k, policyName)) &&
      (forall g: Gvr :: Key(policyName, g) in t.watchers <==> ListedName(resources, g.TypeName()))
  {
    if resources == [] {
      forall g: Gvr
        ensures Key(policyName, g) !in s.watchers
      {
        OwnKeyBelongs(policyName, g);
      }
    } else {
      var front, last := resources[..|resources| - 1], resources[|resources| - 1];
      StartedAllLeaks(s, policyName, front);
      forall typeName {
        ListedMore(resources, typeName);
      }
      var t := StartedAll(s, policyName, front);
      DistinctMore(resources);
      if last.Some? {
        var key := Key(policyName, last.value);
        OwnKeyBelongs(policyName, last.value);
        StartedLeaks(t, key);
        if key in t.watchers {
          assert t.watchers[key] !in Leaked(t);
        }
        forall g: Gvr {
          SameKey(policyName, g, last.value);
        }
      }
    }
  }

  lemma DistinctMore(resources: seq<Option<Gvr>>)
    requires resources != []
    ensures var front, last := resources[..|resources| - 1], resources[|resources| - 1];
      DistinctNames(resources) <==> DistinctNames(front) && (last.Some? ==> !ListedName(front, last.value.TypeName()))
  {
    var front, last := resources[..|resources| - 1], resources[|resources| - 1];
    assert forall i | 0 <= i < |front| :: front[i] == resources[i];
  }

  // ---------------------------------------------------------------- sequences of calls

  datatype Op = Reconcile(policy: Policy) | Stop(policyName: string) | StopAll

  function Exec(ops: seq<Op>): State {
    if ops == [] then State(map[], {}, 0)
    else
      var s := Exec(ops[..|ops| - 1]);
      match ops[|ops| - 1]
      case Reconcile(policy) => Reconciled(s, policy)
      case Stop(name) => Stopped(s, name)
      case StopAll => AllStopped(s)
  }

  /** The resources of a policy's last Reconcile; none when it was paused or has been stopped since. */
  function Wanted(ops: seq<Op>, policyName: string): seq<Option<Gvr>> {
    if ops == [] then []
    else match ops[|ops| - 1]
      case Reconcile(policy) =>
        if policy.name != policyName then Wanted(ops[..|ops| - 1], policyName)
        else if policy.paused then [] else policy.resources
      case Stop(name) => if name == policyName then [] else Wanted(ops[..|ops| - 1], policyName)
      case StopAll => []
  }

  predicate SlashFree(ops: seq<Op>) {
    forall i | 0 <= i < |ops| ::
      match ops[i]
      case Reconcile(policy) => '/' !in policy.name
      case Stop(name) => '/' !in name
      case StopAll => true
  }

  /** The policy a call is about. */
  function Target(op: Op): string
    requires !op.StopAll?
  {
    if op.Reconcile? then op.policy.name else op.policyName
  }

  predicate NoRepeatedNames(op: Op) {
    op.Reconcile? && !op.policy.paused ==> DistinctNames(op.policy.resources)
  }

  /** The call starts no type twice. */
  predicate NoRepeats(op: Op) {
    op.Reconcile? && !op.policy.paused ==> Distinct(op.policy.resources)
  }

  /** Every type the calls mention is ordinary. */
  predicate OrdinaryOps(ops: seq<Op>) {
    forall i | 0 <= i < |ops| :: ops[i].Reconcile? ==> AllOrdinary(ops[i].policy.resources)
  }

  lemma RepeatsByName(ops: seq<Op>)
    requires OrdinaryOps(ops)
    ensures (forall i | 0 <= i < |ops| :: NoRepeatedNames(ops[i])) <==> forall i | 0 <= i < |ops| :: NoRepeats(ops[i])
  {
    forall i | 0 <= i < |ops|
      ensures NoRepeatedNames(ops[i]) <==> NoRepeats(ops[i])
    {
      if ops[i].Reconcile? {
        DistinctIsByName(ops[i].policy.resources);
      }
    }
  }

  lemma StoppedNone(s: State, policyName: string)
    ensures forall k :: k in Stopped(s, policyName).watchers ==> k in s.watchers && !Belongs(k, policyName)
  {
  }

  lemma AllStoppedLeaks(s: State)
    requires Sane(s)
    ensures Sane(AllStopped(s)) && Leaked(AllStopped(s)) == Leaked(s) == AllStopped(s).live
  {
  }

  /** After any calls the live watchers are exactly the registered ones if and only if no reconciled policy lists two
      types that print alike, which ordinary types do only when they are the same. */
  lemma LiveIsRegisteredIff(ops: seq<Op>)
    ensures Consistent(Exec(ops)) <==> forall i | 0 <= i < |ops| :: NoRepeatedNames(ops[i])
    ensures OrdinaryOps(ops) ==> (Consistent(Exec(ops)) <==> forall i | 0 <= i < |ops| :: NoRepeats(ops[i]))
  {
    LeakedIff(ops);
    SaneConsistent(Exec(ops));
    if OrdinaryOps(ops) {
      RepeatsByName(ops);
    }
  }

  lemma {:induction false} LeakedIff(ops: seq<Op>)
    ensures Sane(Exec(ops))
    ensures Leaked(Exec(ops)) == {} <==> forall i | 0 <= i < |ops| :: NoRepeatedNames(ops[i])
  {
    if ops == [] {
    } else {
      var front, op := ops[..|ops| - 1], ops[|ops| - 1];
      LeakedIff(front);
      assert (forall i | 0 <= i < |ops| :: NoRepeatedNames(ops[i])) <==>
             (forall i | 0 <= i < |front| :: NoRepeatedNames(front[i])) && NoRepeatedNames(op) by {
        assert ops == front + [op];
      }
      var s := Exec(front);
      if op.StopAll? {
        AllStoppedLeaks(s);
      } else {
        StoppedLeaks(s, Target(op));
        if op.Reconcile? && !op.policy.paused {
          StoppedNone(s, Target(op));
          StartedAllLeaks(Stopped(s, Target(op)), Target(op), op.policy.resources);
        }
      }
    }
  }

  lemma SaneConsistent(s: State)
    requires Sane(s)
    ensures Consistent(s) <==> Leaked(s) == {}
  {
    assert forall c :: c in s.watchers.Values ==> c in s.live;
    if Leaked(s) == {} {
      assert forall c :: c in s.live ==> c in Leaked(s) || c in s.watchers.Values;
    }
  }

  /** The same by printed names, whatever the types. */
  lemma {:induction false} RegisteredByName(ops: seq<Op>, policyName: string, gvr: Gvr)
    requires SlashFree(ops) && '/' !in policyName
    ensures Key(policyName, gvr) in Exec(ops).watchers <==> ListedName(Wanted(ops, policyName), gvr.TypeName())
  {
    if ops == [] {
    } else {
      var front, op := ops[..|ops| - 1], ops[|ops| - 1];
      assert ops == front + [op];
      RegisteredByName(front, policyName, gvr);
      LeakedIff(front);
      var s := Exec(front);
      if !op.StopAll? {
        assert '/' !in Target(op) by {
          assert ops[|ops| - 1] == op;
        }
        BelongsIff(policyName, gvr, Target(op));
        StoppedLeaks(s, Target(op));
        if op.Reconcile? && !op.policy.paused {
          StoppedNone(s, Target(op));
          StartedAllLeaks(Stopped(s, Target(op)), Target(op), op.policy.resources);
        }
      }
    }
  }

  lemma {:induction false} WantedOrdinary(ops: seq<Op>, policyName: string)
    requires OrdinaryOps(ops)
    ensures AllOrdinary(Wanted(ops, policyName))
  {
    if ops == [] {
    } else {
      assert ops == ops[..|ops| - 1] + [ops[|ops| - 1]];
      WantedOrdinary(ops[..|ops| - 1], policyName);
    }
  }

  /** After any calls on slash-free policies an ordinary type is registered for a policy exactly when its last Reconcile
      listed it. */
  lemma RegisteredIffWanted(ops: seq<Op>, policyName: string, gvr: Gvr)
    requires SlashFree(ops) && '/' !in policyName && OrdinaryOps(ops) && Ordinary(gvr)
    ensures Key(policyName, gvr) in Exec(ops).watchers <==> Some(gvr) in Wanted(ops, policyName)
  {
    RegisteredByName(ops, policyName, gvr);
    WantedOrdinary(ops, policyName);
    ListedIsByName(Wanted(ops, policyName), gvr);
  }

  lemma StopAllLeaves(ops: seq<Op>)
    ensures Exec(ops + [StopAll]).live == Leaked(Exec(ops))
  {
    assert (ops + [StopAll])[..|ops|] == ops;
    LeakedIff(ops);
    AllStoppedLeaks(Exec(ops));
  }

  /** StopAll after any calls leaves no watcher running exactly when no reconciled policy lists two types that print
      alike: of ordinary types, the same one twice. */
  lemma StopAllStopsIff(ops: seq<Op>)
    ensures Exec(ops + [StopAll]).live == {} <==> forall i | 0 <= i < |ops| :: NoRepeatedNames(ops[i])
    ensures OrdinaryOps(ops) ==>
      (Exec(ops + [StopAll]).live == {} <==> forall i | 0 <= i < |ops| :: NoRepeats(ops[i]))
  {
    StopAllLeaves(ops);
    LeakedIff(ops);
    if OrdinaryOps(ops) {
      RepeatsByName(ops);
    }
  }

  /** A slash in a policy name lets another policy's stop reach its watchers. */
  lemma SlashedNameIsStopped(owner: string, rest: string, gvr: Gvr)
    ensures Belongs(Key(owner + "/" + rest, gvr), owner)
  {
    assert Key(owner + "/" + rest, gvr)[..|owner| + 1] == owner + "/";
  }
}
