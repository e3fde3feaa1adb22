/** app/planner.py: Kahn's algorithm over a ready queue ordered by (-priority, id). */
module Planner {
  import opened Wrappers
  import opened Orders
  import opened FiniteSets

  datatype Component = Component(id: string, priority: real, serviceKeys: seq<string>)

  datatype Dependency = Dependency(componentId: string, dependsOn: string)

  datatype Manifest = Manifest(components: seq<Component>, dependencies: seq<Dependency>)

  datatype Entry = Entry(
    position: nat, componentId: string, priority: real,
    serviceKeys: seq<string>, dependencies: seq<string>)

  datatype PlanningError =
    UnknownComponent | DuplicateComponent | DanglingDependency | SelfDependency | CyclicGraph

  // ---------- What a plan is, stated without the algorithm ----------

  ghost predicate KnownIds(m: Manifest, known: set<string>) {
    forall c | c in m.components :: c.id in known
  }

  function ComponentIds(m: Manifest): (ids: seq<string>)
    ensures |ids| == |m.components|
    ensures forall i | 0 <= i < |ids| :: ids[i] == m.components[i].id
  {
    seq(|m.components|, i requires 0 <= i < |m.components| => m.components[i].id)
  }

  ghost predicate UniqueIds(m: Manifest) {
    Distinct(ComponentIds(m))
  }

  ghost function Ids(m: Manifest): set<string> {
    set x | x in ComponentIds(m)
  }

  ghost predicate References(m: Manifest) {
    forall d | d in m.dependencies :: d.componentId in Ids(m) && d.dependsOn in Ids(m)
  }

  ghost predicate NoSelfEdge(m: Manifest) {
    forall d | d in m.dependencies :: d.componentId != d.dependsOn
  }

  ghost predicate WellFormed(m: Manifest, known: set<string>) {
    KnownIds(m, known) && UniqueIds(m) && References(m) && NoSelfEdge(m)
  }

  ghost function ById(m: Manifest): (r: map<string, Component>)
    requires UniqueIds(m)
    ensures r.Keys == Ids(m)
    ensures forall c | c in m.components :: c.id in r && r[c.id] == c
  {
    ById'(m.components)
  }

  ghost function ById'(cs: seq<Component>): (r: map<string, Component>)
    ensures forall x | x in r :: r[x] in cs && r[x].id == x
    ensures forall i | 0 <= i < |cs| :: cs[i].id in r
  {
    if cs == [] then map[]
    else
      var c := cs[|cs| - 1];
      ById'(cs[..|cs| - 1])[c.id := c]
  }

  /** `-priority` ascending, then the identifier ascending. */
  predicate Before(byId: map<string, Component>, a: string, b: string)
    requires a in byId && b in byId
  {
    byId[a].priority > byId[b].priority || (byId[a].priority == byId[b].priority && LexLt(a, b))
  }

  ghost predicate Distinct(s: seq<string>) {
    forall i, j | 0 <= i < j < |s| :: s[i] != s[j]
  }

  /** A permutation of the components in which every dependency comes strictly earlier. */
  ghost predicate Topological(m: Manifest, order: seq<string>) {
    && Distinct(order)
    && (forall x :: x in order <==> x in Ids(m))
    && forall d, j | d in m.dependencies && 0 <= j < |order| && order[j] == d.componentId ::
         d.dependsOn in order[..j]
  }

  /** `a` is `b`, or precedes it at the first position where they differ. */
  ghost predicate LexNotAfter(byId: map<string, Component>, a: seq<string>, b: seq<string>)
    requires forall x | x in a || x in b :: x in byId
  {
    a == b || exists i :: 0 <= i < |a| && i < |b| && a[..i] == b[..i] && Before(byId, a[i], b[i])
  }

  ghost predicate Least(m: Manifest, order: seq<string>)
    requires UniqueIds(m) && Topological(m, order)
  {
    forall o | Topological(m, o) :: LexNotAfter(ById(m), order, o)
  }

  ghost predicate IsCycle(m: Manifest, c: seq<string>) {
    && |c| > 0
    && (forall i | 0 <= i < |c| - 1 :: Dependency(c[i], c[i + 1]) in m.dependencies)
    && Dependency(c[|c| - 1], c[0]) in m.dependencies
  }

  ghost predicate Acyclic(m: Manifest) {
    !exists c :: IsCycle(m, c)
  }

  function DependenciesOf(deps: seq<Dependency>, x: string): seq<string> {
    if deps == [] then []
    else
      var d := deps[|deps| - 1];
      DependenciesOf(deps[..|deps| - 1], x) + if d.componentId == x then [d.dependsOn] else []
  }

  ghost function EntryAt(m: Manifest, i: nat, x: string): Entry
    requires UniqueIds(m) && x in Ids(m)
  {
    EntryFor(i, ById(m)[x], x, m.dependencies)
  }

  function EntryFor(i: nat, c: Component, x: string, deps: seq<Dependency>): Entry {
    Entry(i, x, c.priority, c.serviceKeys, Sorted(LexLe, DependenciesOf(deps, x)))
  }

  function OrderOf(entries: seq<Entry>): (order: seq<string>)
    ensures |order| == |entries|
  {
    seq(|entries|, i requires 0 <= i < |entries| => entries[i].componentId)
  }

  /** The first failing check, in the order the source applies them. */
  ghost function Verdict(m: Manifest, known: set<string>): Option<PlanningError> {
    if !KnownIds(m, known) then Some(UnknownComponent)
    else if !UniqueIds(m) then Some(DuplicateComponent)
    else if !References(m) then Some(DanglingDependency)
    else if !NoSelfEdge(m) then Some(SelfDependency)
    else if !Acyclic(m) then Some(CyclicGraph)
    else None
  }

  ghost predicate IsOrdering(m: Manifest, entries: seq<Entry>)
    requires UniqueIds(m)
  {
    && Topological(m, OrderOf(entries))
    && Least(m, OrderOf(entries))
    && forall i | 0 <= i < |entries| :: entries[i] == EntryAt(m, i, OrderOf(entries)[i])
  }

  ghost predicate IsPlan(m: Manifest, known: set<string>, r: Result<seq<Entry>, PlanningError>) {
    match r
    case Failure(e) => Verdict(m, known) == Some(e)
    case Success(entries) => Verdict(m, known) == None && IsOrdering(m, entries)
  }

  // ---------- Greedy orders are the least topological orders ----------

  /** Unplaced components whose every dependency is placed. */
  ghost predicate IsReady(m: Manifest, placed: seq<string>, x: string) {
    && x in Ids(m)
    && x !in placed
    && forall d | d in m.dependencies && d.componentId == x :: d.dependsOn in placed
  }

  /** `x` heads the ready queue once `placed` has been popped. */
  ghost predicate Heads(m: Manifest, placed: seq<string>, x: string)
    requires UniqueIds(m)
  {
    && IsReady(m, placed, x)
    && forall y | IsReady(m, placed, y) :: y == x || Before(ById(m), x, y)
  }

  ghost predicate Greedy(m: Manifest, order: seq<string>)
    requires UniqueIds(m)
  {
    forall i | 0 <= i < |order| :: Heads(m, order[..i], order[i])
  }

  lemma GreedyExtends(m: Manifest, order: seq<string>, x: string)
    requires UniqueIds(m) && Greedy(m, order) && Heads(m, order, x)
    ensures Greedy(m, order + [x])
  {
    forall i | 0 <= i < |order| + 1
      ensures Heads(m, (order + [x])[..i], (order + [x])[i])
    {
      assert (order + [x])[..i] == order[..i];
      assert order[..|order|] == order;
    }
  }

  lemma GreedyIsTopological(m: Manifest, order: seq<string>)
    requires UniqueIds(m) && Greedy(m, order)
    requires forall x | x in Ids(m) :: x in order
    ensures Topological(m, order)
  {
    forall i, j | 0 <= i < j < |order|
      ensures order[i] != order[j]
    {
      assert Heads(m, order[..j], order[j]);
      assert order[..j][i] == order[i];
    }
    forall d, j | d in m.dependencies && 0 <= j < |order| && order[j] == d.componentId
      ensures d.dependsOn in order[..j]
    {
      assert Heads(m, order[..j], order[j]);
    }
    forall x | x in order
      ensures x in Ids(m)
    {
      var i :| 0 <= i < |order| && order[i] == x;
      assert Heads(m, order[..i], order[i]);
    }
  }

  /** Whatever a topological order places next was ready at that point. */
  lemma TopologicalPicksReady(m: Manifest, order: seq<string>, i: nat)
    requires Topological(m, order) && i < |order|
    ensures IsReady(m, order[..i], order[i])
  {
    assert order[i] in order;
  }

  lemma GreedyIsLeast(m: Manifest, order: seq<string>)
    requires UniqueIds(m) && Greedy(m, order) && Topological(m, order)
    ensures Least(m, order)
  {
    forall o | Topological(m, o)
      ensures LexNotAfter(ById(m), order, o)
    {
      SameLength(m, order, o);
      GreedyBeats(m, order, o, 0);
    }
  }

  lemma {:induction false} GreedyBeats(m: Manifest, order: seq<string>, o: seq<string>, i: nat)
    requires UniqueIds(m) && Greedy(m, order) && Topological(m, order) && Topological(m, o)
    requires i <= |order| == |o| && order[..i] == o[..i]
    ensures LexNotAfter(ById(m), order, o)
    decreases |order| - i
  {
    if i == |order| {
      assert order[..i] == order && o[..i] == o;
    } else {
      TopologicalPicksReady(m, o, i);
      assert Heads(m, order[..i], order[i]);
      if order[i] == o[i] {
        assert order[..i + 1] == order[..i] + [order[i]] && o[..i + 1] == o[..i] + [o[i]];
        GreedyBeats(m, order, o, i + 1);
      }
    }
  }

  lemma SameLength(m: Manifest, a: seq<string>, b: seq<string>)
    requires Topological(m, a) && Topological(m, b)
    ensures |a| == |b|
  {
    DistinctCardinality(a);
    DistinctCardinality(b);
    assert (set x | x in a) == (set x | x in b);
  }

  lemma {:induction false} DistinctCardinality(s: seq<string>)
    ensures |set x | x in s| <= |s|
    ensures Distinct(s) <==> |set x | x in s| == |s|
  {
    if s != [] {
      var t := s[..|s| - 1];
      DistinctCardinality(t);
      var last := s[|s| - 1];
      assert s == t + [last];
      assert (set x | x in s) == (set x | x in t) + {last};
      if last in t {
        var i :| 0 <= i < |t| && t[i] == last;
        assert s[i] == s[|s| - 1];
        assert (set x | x in s) == (set x | x in t);
      } else {
        assert Distinct(t) ==> Distinct(s);
        assert Distinct(s) ==> forall i, j | 0 <= i < j < |t| :: s[i] != s[j];
      }
    }
  }

  // ---------- Cycles ----------

  /** Going once round a cycle an order would have to descend for ever. */
  lemma CycleExcludesOrder(m: Manifest, c: seq<string>, order: seq<string>)
    requires References(m) && IsCycle(m, c)
    ensures !Topological(m, order)
  {
    if Topological(m, order) {
      assert c[0] in Ids(m) by {
        assert Dependency(c[|c| - 1], c[0]) in m.dependencies;
      }
      var p :| 0 <= p < |order| && order[p] == c[0];
      var q := DescendAlong(m, c, order, p, |c| - 1);
      assert false;
    }
  }

  lemma {:induction false} DescendAlong(m: Manifest, c: seq<string>, order: seq<string>, p: nat, k: nat)
    returns (q: nat)
    requires References(m) && IsCycle(m, c) && Topological(m, order)
    requires p < |order| && order[p] == c[0] && k < |c|
    ensures q <= p && order[q] == c[k]
  {
    q := p;
    if k > 0 {
      var r := DescendAlong(m, c, order, p, k - 1);
      assert Dependency(c[k - 1], c[k]) in m.dependencies;
      q :| 0 <= q < r && order[q] == c[k];
    }
  }

  ghost predicate IsChain(m: Manifest, placed: seq<string>, path: seq<string>) {
    && |path| > 0
    && Distinct(path)
    && (forall x | x in path :: x in Ids(m) && x !in placed)
    && forall i | 0 <= i < |path| - 1 :: Dependency(path[i], path[i + 1]) in m.dependencies
  }

  /** When nothing is ready, walking back through unplaced dependencies must close a cycle. */
  lemma {:induction false} StalledHasCycle(m: Manifest, placed: seq<string>, path: seq<string>)
    returns (c: seq<string>)
    requires References(m) && IsChain(m, placed, path)
    requires forall x :: !IsReady(m, placed, x)
    ensures IsCycle(m, c) && forall x | x in c :: x in Ids(m) && x !in placed
    decreases |Ids(m)| - |path|
  {
    ChainBound(m, placed, path);
    var last := path[|path| - 1];
    assert !IsReady(m, placed, last);
    var d :| d in m.dependencies && d.componentId == last && d.dependsOn !in placed;
    if d.dependsOn in path {
      var i :| 0 <= i < |path| && path[i] == d.dependsOn;
      c := path[i..];
      assert d == Dependency(last, path[i]);
      SuffixIsCycle(m, placed, path, i);
    } else {
      var longer := path + [d.dependsOn];
      assert d == Dependency(last, d.dependsOn);
      ChainBound(m, placed, longer);
      c := StalledHasCycle(m, placed, longer);
    }
  }

  lemma SuffixIsCycle(m: Manifest, placed: seq<string>, path: seq<string>, i: nat)
    requires IsChain(m, placed, path) && i < |path|
    requires Dependency(path[|path| - 1], path[i]) in m.dependencies
    ensures IsCycle(m, path[i..]) && forall x | x in path[i..] :: x in Ids(m) && x !in placed
  {
    var c := path[i..];
    forall j | 0 <= j < |c| - 1
      ensures Dependency(c[j], c[j + 1]) in m.dependencies
    {
      assert c[j] == path[i + j] && c[j + 1] == path[i + j + 1];
    }
  }

  lemma ChainBound(m: Manifest, placed: seq<string>, path: seq<string>)
    requires IsChain(m, placed, path)
    ensures |path| <= |Ids(m)|
  {
    DistinctCardinality(path);
    var s := set x | x in path;
    assert s <= Ids(m);
    SubsetSize(s, Ids(m));
  }

  // ---------- In-degrees ----------

  /** How often `x` names a dependency outside `placed`, repeated edges counted. */
  ghost function Pending(deps: seq<Dependency>, x: string, placed: set<string>): nat {
    if deps == [] then 0
    else
      var d := deps[|deps| - 1];
      Pending(deps[..|deps| - 1], x, placed) +
      if d.componentId == x && d.dependsOn !in placed then 1 else 0
  }

  ghost function DependentsOf(deps: seq<Dependency>, c: string): seq<string> {
    if deps == [] then []
    else
      var d := deps[|deps| - 1];
      DependentsOf(deps[..|deps| - 1], c) + if d.dependsOn == c then [d.componentId] else []
  }

  lemma {:induction false} PendingZero(deps: seq<Dependency>, x: string, placed: set<string>)
    ensures Pending(deps, x, placed) == 0 <==>
            forall d | d in deps && d.componentId == x :: d.dependsOn in placed
  {
    if deps != [] {
      var front := deps[..|deps| - 1];
      PendingZero(front, x, placed);
      assert deps == front + [deps[|deps| - 1]];
      assert forall d :: d in deps <==> d in front || d == deps[|deps| - 1];
    }
  }

  /** Placing `c` releases each of its dependents once per edge. */
  lemma {:induction false} PendingRelease(deps: seq<Dependency>, x: string, placed: set<string>, c: string)
    requires c !in placed
    ensures Pending(deps, x, placed) ==
            Pending(deps, x, placed + {c}) + multiset(DependentsOf(deps, c))[x]
  {
    if deps != [] {
      PendingRelease(deps[..|deps| - 1], x, placed, c);
    }
  }

  lemma {:induction false} DependentsAre(deps: seq<Dependency>, c: string)
    ensures forall x | x in DependentsOf(deps, c) :: Dependency(x, c) in deps
  {
    if deps != [] {
      DependentsAre(deps[..|deps| - 1], c);
    }
  }

  // ---------- The planner ----------

  /** `heapq.heappop`: removes the entry with the smallest (-priority, id). */
  method HeapPop(byId: map<string, Component>, ready: seq<string>) returns (top: string, rest: seq<string>)
    requires |ready| > 0 && Distinct(ready)
    requires forall x | x in ready :: x in byId
    ensures top in ready
    ensures forall x | x in ready :: x == top || Before(byId, top, x)
    ensures Distinct(rest)
    ensures forall x :: x in rest <==> x in ready && x != top
  {
    var k := 0;
    for i := 1 to |ready|
      invariant 0 <= k < i
      invariant forall j | 0 <= j < i :: j == k || Before(byId, ready[k], ready[j])
    {
      LexTotal(ready[i], ready[k]);
      if Before(byId, ready[i], ready[k]) {
        forall j | 0 <= j < i
          ensures Before(byId, ready[i], ready[j])
        {
          if j != k && byId[ready[i]].priority == byId[ready[k]].priority == byId[ready[j]].priority {
            LexTransitive(ready[i], ready[k], ready[j]);
          }
        }
        k := i;
      } else {
        assert ready[k] != ready[i];
      }
    }
    top, rest := ready[k], ready[..k] + ready[k + 1..];
    forall x | x in ready && x != top
      ensures x in rest
    {
      var j :| 0 <= j < |ready| && ready[j] == x;
      if j < k { assert rest[j] == x; } else { assert rest[j - 1] == x; }
    }
  }

  /** Steps 1 to 4: the first failing check, in the source's order. */
  method Validate(m: Manifest, known: set<string>) returns (e: Option<PlanningError>)
    ensures e == None <==> WellFormed(m, known)
    ensures e.Some? ==> Verdict(m, known) == e
  {
    for i := 0 to |m.components|
      invariant forall j | 0 <= j < i :: m.components[j].id in known
    {
      if m.components[i].id !in known {
        assert m.components[i] in m.components;
        return Some(UnknownComponent);
      }
    }
    var ids := ComponentIds(m);
    var idSet := set x | x in ids;
    DistinctCardinality(ids);
    if |idSet| != |ids| {
      return Some(DuplicateComponent);
    }
    for i := 0 to |m.dependencies|
      invariant forall j | 0 <= j < i ::
        m.dependencies[j].componentId in Ids(m) && m.dependencies[j].dependsOn in Ids(m)
    {
      var d := m.dependencies[i];
      if d.componentId !in idSet || d.dependsOn !in idSet {
        assert d in m.dependencies;
        return Some(DanglingDependency);
      }
    }
    for i := 0 to |m.dependencies|
      invariant forall j | 0 <= j < i :: m.dependencies[j].componentId != m.dependencies[j].dependsOn
    {
      if m.dependencies[i].componentId == m.dependencies[i].dependsOn {
        assert m.dependencies[i] in m.dependencies;
        return Some(SelfDependency);
      }
    }
    return None;
  }

  method Plan(m: Manifest, known: set<string>) returns (r: Result<seq<Entry>, PlanningError>)
    ensures IsPlan(m, known, r)
    ensures r.Success? ==>
              |r.value| == |m.components| && forall i | 0 <= i < |r.value| :: Describes(m, i, r.value[i])
  {
    var e := Validate(m, known);
    if e.Some? {
      return Failure(e.value);
    }
    var order := TopologicalOrder(m);
    if |order| != |m.components| {
      StalledQueueMeansCycle(m, order);
      return Failure(CyclicGraph);
    }
    CompleteOrderIsLeast(m, order);
    var entries := MakeEntries(m, order);
    EntriesArePlan(m, known, order, entries);
    return Success(entries);
  }

  lemma EntriesArePlan(m: Manifest, known: set<string>, order: seq<string>, entries: seq<Entry>)
    requires WellFormed(m, known) && Acyclic(m) && Topological(m, order) && Least(m, order)
    requires |entries| == |order| && forall x | x in order :: x in Ids(m)
    requires forall i | 0 <= i < |order| :: entries[i] == EntryAt(m, i, order[i])
    requires forall i | 0 <= i < |order| :: entries[i].componentId == order[i]
    ensures IsPlan(m, known, Success(entries)) && |entries| == |m.components|
  {
    OrderLength(m, order);
    assert OrderOf(entries) == order;
  }

  /** Step 6: one entry per position, with its dependency list sorted. */
  method MakeEntries(m: Manifest, order: seq<string>) returns (entries: seq<Entry>)
    requires UniqueIds(m) && forall x | x in order :: x in Ids(m)
    ensures |entries| == |order|
    ensures forall i | 0 <= i < |order| :: entries[i] == EntryAt(m, i, order[i])
    ensures forall i | 0 <= i < |order| :: entries[i].componentId == order[i] && Describes(m, i, entries[i])
  {
    var byId := IndexById(m);
    ghost var all := EntriesOf(m, order);
    entries := [];
    for i := 0 to |order|
      invariant entries == all[..i]
    {
      var x := order[i];
      assert x in order;
      OneMoreEntry(all, i);
      entries := entries + [EntryFor(i, byId[x], x, m.dependencies)];
    }
    assert entries == all;
    EntriesDescribe(m, order, entries);
  }

  ghost function EntriesOf(m: Manifest, order: seq<string>): (entries: seq<Entry>)
    requires UniqueIds(m) && forall x | x in order :: x in Ids(m)
    ensures |entries| == |order|
    ensures forall i | 0 <= i < |order| :: entries[i] == EntryAt(m, i, order[i])
  {
    seq(|order|, i requires 0 <= i < |order| => EntryAt(m, i, order[i]))
  }

  lemma OneMoreEntry(all: seq<Entry>, i: nat)
    requires i < |all|
    ensures all[..i + 1] == all[..i] + [all[i]]
  {
  }

  method IndexById(m: Manifest) returns (byId: map<string, Component>)
    requires UniqueIds(m)
    ensures byId == ById(m)
  {
    byId := map[];
    for i := 0 to |m.components|
      invariant byId == ById'(m.components[..i])
    {
      assert m.components[..i + 1][..i] == m.components[..i];
      byId := byId[m.components[i].id := m.components[i]];
    }
    assert m.components[..|m.components|] == m.components;
  }

  // The loop's state: what has been placed, the live in-degrees, and the ready queue.

  ghost function Placed(order: seq<string>): set<string> {
    set x | x in order
  }

  ghost predicate Degrees(m: Manifest, order: seq<string>, inDegree: map<string, int>) {
    && inDegree.Keys == Ids(m)
    && forall x | x in Ids(m) :: inDegree[x] == Pending(m.dependencies, x, Placed(order))
  }

  ghost predicate QueueState(m: Manifest, order: seq<string>, inDegree: map<string, int>, ready: seq<string>)
    requires UniqueIds(m)
  {
    && Distinct(order) && (forall x | x in order :: x in Ids(m))
    && Greedy(m, order)
    && Degrees(m, order, inDegree)
    && Distinct(ready)
    && forall x :: x in ready <==> IsReady(m, order, x)
  }

  /** Step 5: the maximal greedy order; it misses a component exactly when the queue stalls. */
  method TopologicalOrder(m: Manifest) returns (order: seq<string>)
    requires UniqueIds(m) && References(m)
    ensures Distinct(order) && forall x | x in order :: x in Ids(m)
    ensures Greedy(m, order)
    ensures forall x :: !IsReady(m, order, x)
  {
    var byId := IndexById(m);
    var dependents, inDegree := CountDegrees(m);
    order := [];
    var ready := InitialQueue(m, inDegree);
    while |ready| > 0
      invariant QueueState(m, order, inDegree, ready)
      decreases Ids(m) - Placed(order)
    {
      var c, rest := HeapPop(byId, ready);
      PopIsHead(m, order, inDegree, ready, c, rest);
      order := order + [c];
      inDegree, ready := Release(m, order, dependents[c], inDegree, rest);
    }
  }

  lemma PopIsHead(m: Manifest, order: seq<string>, inDegree: map<string, int>,
                  ready: seq<string>, c: string, rest: seq<string>)
    requires UniqueIds(m) && References(m) && QueueState(m, order, inDegree, ready)
    requires c in ready && forall x | x in ready :: x == c || Before(ById(m), c, x)
    requires forall x :: x in rest <==> x in ready && x != c
    ensures c !in order && c in Ids(m)
    ensures Placed(order + [c]) == Placed(order) + {c}
    ensures Greedy(m, order + [c])
    ensures forall x | x in Ids(m) :: inDegree[x] ==
              Pending(m.dependencies, x, Placed(order + [c])) + multiset(DependentsOf(m.dependencies, c))[x]
    ensures forall x | x in DependentsOf(m.dependencies, c) :: x in Ids(m)
    ensures forall x | x in order + [c] :: x in Ids(m) && inDegree[x] == 0
    ensures forall x :: x in rest <==> x in inDegree && inDegree[x] == 0 && x !in order + [c]
  {
    ReadyIsZero(m, order, inDegree);
    assert Heads(m, order, c);
    HeadExtendsOrder(m, order, inDegree, c);
  }

  method InitialQueue(m: Manifest, inDegree: map<string, int>) returns (ready: seq<string>)
    requires UniqueIds(m) && Degrees(m, [], inDegree)
    ensures Distinct(ready)
    ensures forall x :: x in ready <==> IsReady(m, [], x)
  {
    var ids := ComponentIds(m);
    ready := [];
    for i := 0 to |ids|
      invariant Distinct(ready)
      invariant forall x :: x in ready <==> x in ids[..i] && inDegree[x] == 0
    {
      assert ids[..i + 1] == ids[..i] + [ids[i]];
      assert ids[i] !in ids[..i];
      if inDegree[ids[i]] == 0 {
        ready := ready + [ids[i]];
      }
    }
    ReadyIsZero(m, [], inDegree);
  }

  /** A component is ready exactly when it is unplaced and its live in-degree is zero. */
  lemma ReadyIsZero(m: Manifest, order: seq<string>, inDegree: map<string, int>)
    requires Degrees(m, order, inDegree)
    ensures forall x :: IsReady(m, order, x) <==> x in inDegree && inDegree[x] == 0 && x !in order
  {
    forall x
      ensures IsReady(m, order, x) <==> x in inDegree && inDegree[x] == 0 && x !in order
    {
      PendingZero(m.dependencies, x, Placed(order));
    }
  }

  lemma HeadExtendsOrder(m: Manifest, order: seq<string>, inDegree: map<string, int>, c: string)
    requires UniqueIds(m) && References(m)
    requires Greedy(m, order) && (forall x | x in order :: x in Ids(m)) && Degrees(m, order, inDegree) && Heads(m, order, c)
    ensures Greedy(m, order + [c])
    ensures forall x | x in Ids(m) :: inDegree[x] ==
              Pending(m.dependencies, x, Placed(order + [c])) + multiset(DependentsOf(m.dependencies, c))[x]
    ensures forall x | x in DependentsOf(m.dependencies, c) :: x in Ids(m)
    ensures forall x | x in order + [c] :: inDegree[x] == 0
  {
    GreedyExtends(m, order, c);
    assert Placed(order + [c]) == Placed(order) + {c};
    forall x | x in Ids(m)
      ensures inDegree[x] == Pending(m.dependencies, x, Placed(order + [c])) +
                             multiset(DependentsOf(m.dependencies, c))[x]
    {
      PendingRelease(m.dependencies, x, Placed(order), c);
    }
    DependentsAre(m.dependencies, c);
    GreedyIsZero(m, order, inDegree, c);
  }

  lemma GreedyIsZero(m: Manifest, order: seq<string>, inDegree: map<string, int>, c: string)
    requires UniqueIds(m) && Degrees(m, order, inDegree) && Greedy(m, order + [c])
    ensures forall x | x in order + [c] :: x in Ids(m) && inDegree[x] == 0
  {
    var next := order + [c];
    forall i | 0 <= i < |next|
      ensures next[i] in Ids(m) && inDegree[next[i]] == 0
    {
      assert Heads(m, next[..i], next[i]);
      OncePlacedStaysIn(order, c, i);
      ReadyOnceIsZero(m, next[..i], order, inDegree, next[i]);
    }
  }

  lemma OncePlacedStaysIn(order: seq<string>, c: string, i: nat)
    requires i <= |order|
    ensures forall y | y in (order + [c])[..i] :: y in order
  {
    assert (order + [c])[..i] == order[..i];
  }

  /** What was ready when fewer components were placed has nothing pending now. */
  lemma ReadyOnceIsZero(m: Manifest, placed: seq<string>, order: seq<string>, inDegree: map<string, int>, x: string)
    requires IsReady(m, placed, x) && Degrees(m, order, inDegree) && forall y | y in placed :: y in order
    ensures x in Ids(m) && inDegree[x] == 0
  {
    PendingZero(m.dependencies, x, Placed(order));
  }

  lemma PrefixStep(deps: seq<Dependency>, i: nat, x: string)
    requires i < |deps|
    ensures DependentsOf(deps[..i + 1], x) ==
            DependentsOf(deps[..i], x) + if deps[i].dependsOn == x then [deps[i].componentId] else []
    ensures Pending(deps[..i + 1], x, {}) ==
            Pending(deps[..i], x, {}) + if deps[i].componentId == x then 1 else 0
  {
    assert deps[..i + 1][..i] == deps[..i];
  }

  ghost predicate ListsDependents(ids: set<string>, deps: seq<Dependency>, dependents: map<string, seq<string>>) {
    dependents.Keys == ids && forall x | x in ids :: dependents[x] == DependentsOf(deps, x)
  }

  ghost predicate CountsEdges(ids: set<string>, deps: seq<Dependency>, inDegree: map<string, int>) {
    inDegree.Keys == ids && forall x | x in ids :: inDegree[x] == Pending(deps, x, {})
  }

  lemma ListStep(ids: set<string>, deps: seq<Dependency>, i: nat, dependents: map<string, seq<string>>)
    requires i < |deps| && ListsDependents(ids, deps[..i], dependents) && deps[i].dependsOn in ids
    ensures var d := deps[i];
            ListsDependents(ids, deps[..i + 1], dependents[d.dependsOn := dependents[d.dependsOn] + [d.componentId]])
  {
    forall x | x in ids
      ensures DependentsOf(deps[..i + 1], x) ==
              DependentsOf(deps[..i], x) + if deps[i].dependsOn == x then [deps[i].componentId] else []
    {
      PrefixStep(deps, i, x);
    }
  }

  lemma CountStep(ids: set<string>, deps: seq<Dependency>, i: nat, inDegree: map<string, int>)
    requires i < |deps| && CountsEdges(ids, deps[..i], inDegree) && deps[i].componentId in ids
    ensures var x := deps[i].componentId; CountsEdges(ids, deps[..i + 1], inDegree[x := inDegree[x] + 1])
  {
    forall x | x in ids
      ensures Pending(deps[..i + 1], x, {}) ==
              Pending(deps[..i], x, {}) + if deps[i].componentId == x then 1 else 0
    {
      PrefixStep(deps, i, x);
    }
  }

  method CountDegrees(m: Manifest) returns (dependents: map<string, seq<string>>, inDegree: map<string, int>)
    requires References(m)
    ensures dependents.Keys == Ids(m) && Degrees(m, [], inDegree)
    ensures forall x | x in Ids(m) :: dependents[x] == DependentsOf(m.dependencies, x)
  {
    var deps := m.dependencies;
    dependents := map x | x in ComponentIds(m) :: [];
    inDegree := map x | x in ComponentIds(m) :: 0;
    for i := 0 to |deps|
      invariant ListsDependents(Ids(m), deps[..i], dependents) && CountsEdges(Ids(m), deps[..i], inDegree)
    {
      var d := deps[i];
      ListStep(Ids(m), deps, i, dependents);
      CountStep(Ids(m), deps, i, inDegree);
      dependents := dependents[d.dependsOn := dependents[d.dependsOn] + [d.componentId]];
      inDegree := inDegree[d.componentId := inDegree[d.componentId] + 1];
    }
    assert deps[..|deps|] == deps;
    assert Placed([]) == {};
  }

  /** `left` are the outgoing edges of the last component placed that are not yet decremented. */
  ghost predicate Owing(m: Manifest, order: seq<string>, left: seq<string>, inDegree: map<string, int>) {
    && inDegree.Keys == Ids(m)
    && (forall x | x in Ids(m) :: inDegree[x] == Pending(m.dependencies, x, Placed(order)) + multiset(left)[x])
    && forall x | x in order :: x in Ids(m) && inDegree[x] == 0
  }

  ghost predicate Queued(order: seq<string>, inDegree: map<string, int>, ready: seq<string>) {
    Distinct(ready) && forall x :: x in ready <==> x in inDegree && inDegree[x] == 0 && x !in order
  }

  lemma OwingStep(m: Manifest, order: seq<string>, left: seq<string>, inDegree: map<string, int>)
    requires Owing(m, order, left, inDegree) && left != [] && left[0] in Ids(m)
    ensures inDegree[left[0]] > 0
    ensures Owing(m, order, left[1..], inDegree[left[0] := inDegree[left[0]] - 1])
  {
    HeadCounts(left);
  }

  lemma QueuedStep(order: seq<string>, inDegree: map<string, int>, ready: seq<string>, y: string)
    requires Queued(order, inDegree, ready) && (forall x | x in order :: x in inDegree && inDegree[x] == 0)
    requires y in inDegree && inDegree[y] > 0
    ensures Queued(order, inDegree[y := inDegree[y] - 1], if inDegree[y] == 1 then ready + [y] else ready)
  {
    if inDegree[y] == 1 {
      DistinctAppend(ready, y);
    }
  }

  lemma HeadCounts(s: seq<string>)
    requires s != []
    ensures forall x :: multiset(s)[x] == multiset(s[1..])[x] + if x == s[0] then 1 else 0
  {
    assert s == [s[0]] + s[1..];
  }

  lemma DistinctAppend(s: seq<string>, x: string)
    requires Distinct(s) && x !in s
    ensures Distinct(s + [x])
    ensures forall y :: y in s + [x] <==> y in s || y == x
  {
  }

  /** Decrements once per outgoing edge and pushes each component that reaches zero. */
  method Release(m: Manifest, ghost order: seq<string>, freed: seq<string>,
                 inDegree0: map<string, int>, ready0: seq<string>)
    returns (inDegree: map<string, int>, ready: seq<string>)
    requires Owing(m, order, freed, inDegree0) && Queued(order, inDegree0, ready0)
    requires forall x | x in freed :: x in Ids(m)
    ensures Degrees(m, order, inDegree)
    ensures Distinct(ready)
    ensures forall x :: x in ready <==> IsReady(m, order, x)
  {
    inDegree, ready := inDegree0, ready0;
    for j := 0 to |freed|
      invariant Owing(m, order, freed[j..], inDegree) && Queued(order, inDegree, ready)
    {
      var y := freed[j];
      TailOf(freed, j);
      OwingStep(m, order, freed[j..], inDegree);
      QueuedStep(order, inDegree, ready, y);
      inDegree := inDegree[y := inDegree[y] - 1];
      if inDegree[y] == 0 {
        ready := ready + [y];
      }
    }
    NothingOwing(m, order, freed, inDegree);
    ReadyIsZero(m, order, inDegree);
  }

  lemma TailOf(s: seq<string>, j: nat)
    requires j < |s|
    ensures s[j..] != [] && s[j..][0] == s[j] && s[j..][1..] == s[j + 1..]
  {
  }

  lemma NothingOwing(m: Manifest, order: seq<string>, freed: seq<string>, inDegree: map<string, int>)
    requires Owing(m, order, freed[|freed|..], inDegree)
    ensures Degrees(m, order, inDegree)
  {
  }

  lemma CompleteOrderIsLeast(m: Manifest, order: seq<string>)
    requires UniqueIds(m) && References(m) && Greedy(m, order)
    requires Distinct(order) && forall x | x in order :: x in Ids(m)
    requires |order| == |m.components|
    ensures Topological(m, order) && Least(m, order) && Acyclic(m)
  {
    IdsCardinality(m);
    DistinctCardinality(order);
    SubsetSize((set x | x in order), Ids(m));
    assert (set x | x in order) == Ids(m);
    GreedyIsTopological(m, order);
    GreedyIsLeast(m, order);
    forall c | IsCycle(m, c)
      ensures false
    {
      CycleExcludesOrder(m, c, order);
    }
  }

  lemma StalledQueueMeansCycle(m: Manifest, order: seq<string>)
    requires UniqueIds(m) && References(m)
    requires Distinct(order) && forall x | x in order :: x in Ids(m)
    requires forall x :: !IsReady(m, order, x)
    requires |order| != |m.components|
    ensures exists c :: IsCycle(m, c) && forall x | x in c :: x in Ids(m) && x !in order
  {
    IdsCardinality(m);
    DistinctCardinality(order);
    SubsetSize((set x | x in order), Ids(m));
    assert (set x | x in order) != Ids(m);
    var x :| x in Ids(m) && x !in order;
    var c := StalledHasCycle(m, order, [x]);
  }

  lemma IdsCardinality(m: Manifest)
    ensures UniqueIds(m) <==> |Ids(m)| == |m.components|
  {
    DistinctCardinality(ComponentIds(m));
  }

  // ---------- Permuted declarations ----------

  ghost predicate SameDeclarations(m1: Manifest, m2: Manifest) {
    && multiset(m1.components) == multiset(m2.components)
    && multiset(m1.dependencies) == multiset(m2.dependencies)
  }

  lemma SameMembers<T>(a: seq<T>, b: seq<T>)
    requires multiset(a) == multiset(b)
    ensures |a| == |b|
    ensures forall x :: x in a <==> x in b
  {
    assert |multiset(a)| == |a| && |multiset(b)| == |b|;
    assert forall x :: x in a <==> x in multiset(a);
    assert forall x :: x in b <==> x in multiset(b);
  }

  lemma IdsIncluded(m1: Manifest, m2: Manifest)
    requires forall c | c in m1.components :: c in m2.components
    ensures Ids(m1) <= Ids(m2)
  {
    forall x | x in Ids(m1)
      ensures x in Ids(m2)
    {
      var i :| 0 <= i < |m1.components| && ComponentIds(m1)[i] == x;
      assert m1.components[i] in m2.components;
      var j :| 0 <= j < |m2.components| && m2.components[j] == m1.components[i];
      assert ComponentIds(m2)[j] == x;
    }
  }

  lemma SameComponents(m1: Manifest, m2: Manifest)
    requires SameDeclarations(m1, m2)
    ensures Ids(m1) == Ids(m2)
    ensures UniqueIds(m1) <==> UniqueIds(m2)
    ensures UniqueIds(m1) && UniqueIds(m2) ==> ById(m1) == ById(m2)
  {
    SameMembers(m1.components, m2.components);
    IdsIncluded(m1, m2);
    IdsIncluded(m2, m1);
    IdsCardinality(m1);
    IdsCardinality(m2);
    if UniqueIds(m1) && UniqueIds(m2) {
      SameIndex(m1, m2);
    }
  }

  lemma SameIndex(m1: Manifest, m2: Manifest)
    requires UniqueIds(m1) && UniqueIds(m2) && Ids(m1) == Ids(m2)
    requires forall c | c in m1.components :: c in m2.components
    ensures ById(m1) == ById(m2)
  {
    forall x | x in Ids(m1)
      ensures ById(m1)[x] == ById(m2)[x]
    {
      var i :| 0 <= i < |m1.components| && ComponentIds(m1)[i] == x;
      assert m1.components[i] in m1.components;
    }
  }

  lemma SameVerdicts(m1: Manifest, m2: Manifest, known: set<string>)
    requires SameDeclarations(m1, m2)
    ensures KnownIds(m1, known) <==> KnownIds(m2, known)
    ensures References(m1) <==> References(m2)
    ensures NoSelfEdge(m1) <==> NoSelfEdge(m2)
    ensures Acyclic(m1) <==> Acyclic(m2)
  {
    SameComponents(m1, m2);
    SameMembers(m1.components, m2.components);
    SameMembers(m1.dependencies, m2.dependencies);
    forall c
      ensures IsCycle(m1, c) <==> IsCycle(m2, c)
    {
    }
  }

  lemma SameOrders(m1: Manifest, m2: Manifest)
    requires SameDeclarations(m1, m2)
    ensures forall o :: Topological(m1, o) <==> Topological(m2, o)
  {
    SameComponents(m1, m2);
    SameMembers(m1.dependencies, m2.dependencies);
  }

  lemma {:induction false} DependenciesCount(deps: seq<Dependency>, x: string, y: string)
    ensures multiset(DependenciesOf(deps, x))[y] == multiset(deps)[Dependency(x, y)]
  {
    if deps != [] {
      DependenciesCount(deps[..|deps| - 1], x, y);
      assert deps == deps[..|deps| - 1] + [deps[|deps| - 1]];
    }
  }

  lemma {:induction false} LeastUnique(m: Manifest, a: seq<string>, b: seq<string>)
    requires UniqueIds(m) && Topological(m, a) && Topological(m, b) && Least(m, a) && Least(m, b)
    ensures a == b
  {
    assert LexNotAfter(ById(m), a, b) && LexNotAfter(ById(m), b, a);
    NotAfterEachOther(ById(m), a, b);
  }

  lemma NotAfterEachOther(byId: map<string, Component>, a: seq<string>, b: seq<string>)
    requires forall x | x in a || x in b :: x in byId
    requires LexNotAfter(byId, a, b) && LexNotAfter(byId, b, a)
    ensures a == b
  {
    if a != b {
      var i :| 0 <= i < |a| && i < |b| && a[..i] == b[..i] && Before(byId, a[i], b[i]);
      var j :| 0 <= j < |a| && j < |b| && a[..j] == b[..j] && Before(byId, b[j], a[j]);
      if i < j {
        assert a[i] == b[i] by { assert a[..j][i] == b[..j][i]; }
        LexIrreflexive(a[i]);
      } else if j < i {
        assert a[j] == b[j] by { assert a[..i][j] == b[..i][j]; }
        LexIrreflexive(a[j]);
      } else if LexLt(a[i], b[i]) {
        LexAsymmetric(a[i], b[i]);
      }
    }
  }

  // ---------- Main theorems ----------

  /** After the four checks, planning fails exactly when the graph has a cycle. */
  lemma FailsExactlyOnCycles(m: Manifest, known: set<string>, r: Result<seq<Entry>, PlanningError>)
    requires WellFormed(m, known) && IsPlan(m, known, r)
    ensures r.Failure? <==> exists c :: IsCycle(m, c)
    ensures r.Failure? <==> !exists order :: Topological(m, order)
  {
    if r.Failure? {
      var c :| IsCycle(m, c);
      forall order
        ensures !Topological(m, order)
      {
        CycleExcludesOrder(m, c, order);
      }
    }
  }

  /** Declaration order never matters: equal multisets of declarations give equal plans. */
  lemma DeclarationOrderIrrelevant(
    m1: Manifest, m2: Manifest, known: set<string>,
    r1: Result<seq<Entry>, PlanningError>, r2: Result<seq<Entry>, PlanningError>)
    requires SameDeclarations(m1, m2)
    requires IsPlan(m1, known, r1) && IsPlan(m2, known, r2)
    ensures r1 == r2
  {
    SameVerdicts(m1, m2, known);
    SameComponents(m1, m2);
    if r1.Success? && r2.Success? {
      SameEntries(m1, m2, r1.value, r2.value);
    }
  }

  lemma SameEntries(m1: Manifest, m2: Manifest, e1: seq<Entry>, e2: seq<Entry>)
    requires SameDeclarations(m1, m2) && UniqueIds(m1) && UniqueIds(m2)
    requires IsOrdering(m1, e1) && IsOrdering(m2, e2)
    ensures e1 == e2
  {
    SameComponents(m1, m2);
    var o1, o2 := OrderOf(e1), OrderOf(e2);
    SameLeast(m1, m2, o1, o2);
    forall i | 0 <= i < |e1|
      ensures e1[i] == e2[i]
    {
      assert o1[i] in o1;
      SameSortedDependencies(m1, m2, o1[i]);
    }
  }

  lemma SameLeast(m1: Manifest, m2: Manifest, o1: seq<string>, o2: seq<string>)
    requires SameDeclarations(m1, m2) && UniqueIds(m1) && UniqueIds(m2)
    requires Topological(m1, o1) && Least(m1, o1) && Topological(m2, o2) && Least(m2, o2)
    ensures o1 == o2
  {
    SameComponents(m1, m2);
    SameOrders(m1, m2);
    LeastUnique(m1, o1, o2);
  }

  lemma SameSortedDependencies(m1: Manifest, m2: Manifest, x: string)
    requires SameDeclarations(m1, m2)
    ensures Sorted(LexLe, DependenciesOf(m1.dependencies, x)) == Sorted(LexLe, DependenciesOf(m2.dependencies, x))
  {
    var d1, d2 := DependenciesOf(m1.dependencies, x), DependenciesOf(m2.dependencies, x);
    forall y
      ensures multiset(d1)[y] == multiset(d2)[y]
    {
      DependenciesCount(m1.dependencies, x, y);
      DependenciesCount(m2.dependencies, x, y);
    }
    assert multiset(d1) == multiset(d2);
    LexLeIsOrder();
    SortedIsSortedPermutation(LexLe, d1);
    SortedIsSortedPermutation(LexLe, d2);
    SortedUnique(LexLe, Sorted(LexLe, d1), Sorted(LexLe, d2));
  }

  // ---------- What a plan says about its manifest ----------

  /** Entry `i` carries a component of the manifest unchanged, and its dependencies sorted, repeats included. */
  ghost predicate Describes(m: Manifest, i: nat, e: Entry) {
    && e.position == i
    && (exists c :: c in m.components
                 && c.id == e.componentId && c.priority == e.priority && c.serviceKeys == e.serviceKeys)
    && SortedBy(LexLe, e.dependencies)
    && forall y :: multiset(e.dependencies)[y] == multiset(m.dependencies)[Dependency(e.componentId, y)]
  }

  lemma EntryDescribes(m: Manifest, i: nat, x: string)
    requires UniqueIds(m) && x in Ids(m)
    ensures EntryAt(m, i, x).componentId == x && Describes(m, i, EntryAt(m, i, x))
  {
    var k :| 0 <= k < |m.components| && ComponentIds(m)[k] == x;
    assert m.components[k] in m.components;
    var deps := DependenciesOf(m.dependencies, x);
    LexLeIsOrder();
    SortedIsSortedPermutation(LexLe, deps);
    forall y
      ensures multiset(Sorted(LexLe, deps))[y] == multiset(m.dependencies)[Dependency(x, y)]
    {
      DependenciesCount(m.dependencies, x, y);
    }
  }

  lemma EntriesDescribe(m: Manifest, order: seq<string>, entries: seq<Entry>)
    requires UniqueIds(m) && (forall x | x in order :: x in Ids(m)) && |entries| == |order|
    requires forall i | 0 <= i < |order| :: entries[i] == EntryAt(m, i, order[i])
    ensures forall i | 0 <= i < |order| :: entries[i].componentId == order[i] && Describes(m, i, entries[i])
  {
    forall i | 0 <= i < |order|
      ensures entries[i].componentId == order[i] && Describes(m, i, entries[i])
    {
      assert order[i] in order;
      EntryDescribes(m, i, order[i]);
    }
  }

  /** A plan describes every component once, in order, with nothing lost or invented. */
  lemma PlanDescribesManifest(m: Manifest, known: set<string>, entries: seq<Entry>)
    requires IsPlan(m, known, Success(entries))
    ensures forall i | 0 <= i < |entries| :: Describes(m, i, entries[i])
    ensures forall c | c in m.components :: exists i :: 0 <= i < |entries| && entries[i].componentId == c.id
    ensures |entries| == |m.components|
  {
    forall i | 0 <= i < |entries|
      ensures Describes(m, i, entries[i])
    {
      assert OrderOf(entries)[i] in OrderOf(entries);
      EntryDescribes(m, i, OrderOf(entries)[i]);
    }
    forall c | c in m.components
      ensures exists i :: 0 <= i < |entries| && entries[i].componentId == c.id
    {
      EveryComponentPlaced(m, OrderOf(entries), c);
    }
    OrderLength(m, OrderOf(entries));
  }

  lemma EveryComponentPlaced(m: Manifest, order: seq<string>, c: Component)
    requires Topological(m, order) && c in m.components
    ensures exists i :: 0 <= i < |order| && order[i] == c.id
  {
    var k :| 0 <= k < |m.components| && m.components[k] == c;
    assert ComponentIds(m)[k] in order;
  }

  lemma OrderLength(m: Manifest, order: seq<string>)
    requires UniqueIds(m) && Topological(m, order)
    ensures |order| == |m.components|
  {
    IdsCardinality(m);
    DistinctCardinality(order);
    assert (set x | x in order) == Ids(m);
  }

  /** Every dependency of `b` is among the components planned before position `i`. */
  ghost predicate CouldGoAt(m: Manifest, entries: seq<Entry>, i: nat, b: Entry)
    requires i <= |entries|
  {
    forall d | d in m.dependencies && d.componentId == b.componentId ::
      exists k :: 0 <= k < i && entries[k].componentId == d.dependsOn
  }

  /**
   * Where a later component could already have gone at position `i`, the one that went there
   * has the higher priority, or the same priority and the smaller identifier.
   */
  lemma {:induction false} EarlierOutranks(m: Manifest, known: set<string>, entries: seq<Entry>, i: nat, j: nat)
    requires IsPlan(m, known, Success(entries)) && i < j < |entries| && CouldGoAt(m, entries, i, entries[j])
    ensures || entries[i].priority > entries[j].priority
            || (entries[i].priority == entries[j].priority && LexLt(entries[i].componentId, entries[j].componentId))
  {
    var order := OrderOf(entries);
    var a, b := order[i], order[j];
    LeastIsGreedy(m, order, i);
    ReadyWhereItCouldGo(m, entries, i, j);
    assert Before(ById(m), a, b);
    assert entries[i] == EntryAt(m, i, a) && entries[j] == EntryAt(m, j, b);
  }

  lemma ReadyWhereItCouldGo(m: Manifest, entries: seq<Entry>, i: nat, j: nat)
    requires Topological(m, OrderOf(entries)) && i < j < |entries| && CouldGoAt(m, entries, i, entries[j])
    ensures IsReady(m, OrderOf(entries)[..i], OrderOf(entries)[j])
    ensures OrderOf(entries)[i] in Ids(m) && OrderOf(entries)[i] != OrderOf(entries)[j]
  {
    var order := OrderOf(entries);
    assert order[j] in order && order[i] in order;
    forall d | d in m.dependencies && d.componentId == order[j]
      ensures d.dependsOn in order[..i]
    {
      var k :| 0 <= k < i && entries[k].componentId == d.dependsOn;
      assert order[..i][k] == d.dependsOn;
    }
  }

  /** The least topological order places the head of the ready queue at every position. */
  lemma LeastIsGreedy(m: Manifest, order: seq<string>, i: nat)
    requires UniqueIds(m) && References(m) && Acyclic(m) && Topological(m, order) && Least(m, order) && i < |order|
    ensures Heads(m, order[..i], order[i])
  {
    var greedy := GreedyOrder(m, []);
    GreedyIsTopological(m, greedy);
    GreedyIsLeast(m, greedy);
    LeastUnique(m, greedy, order);
  }

  lemma {:induction false} GreedyOrder(m: Manifest, placed: seq<string>) returns (order: seq<string>)
    requires UniqueIds(m) && References(m) && Acyclic(m) && Greedy(m, placed)
    requires Distinct(placed) && forall x | x in placed :: x in Ids(m)
    ensures Greedy(m, order) && forall x | x in Ids(m) :: x in order
    decreases |Ids(m)| - |placed|
  {
    PlacedBound(m, placed);
    if forall x | x in Ids(m) :: x in placed {
      order := placed;
    } else {
      var h := SomeHead(m, placed);
      GreedyExtends(m, placed, h);
      var more := placed + [h];
      assert forall x | x in more :: x in placed || x == h;
      PlacedBound(m, more);
      order := GreedyOrder(m, more);
    }
  }

  lemma PlacedBound(m: Manifest, placed: seq<string>)
    requires Distinct(placed) && forall x | x in placed :: x in Ids(m)
    ensures |placed| <= |Ids(m)|
  {
    DistinctCardinality(placed);
    SubsetSize((set x | x in placed), Ids(m));
  }

  /** In an acyclic graph something is ready, and one of the ready components comes before the others. */
  lemma SomeHead(m: Manifest, placed: seq<string>) returns (h: string)
    requires UniqueIds(m) && References(m) && Acyclic(m)
    requires exists x :: x in Ids(m) && x !in placed
    ensures Heads(m, placed, h)
  {
    var x :| x in Ids(m) && x !in placed;
    if forall y :: !IsReady(m, placed, y) {
      var c := StalledHasCycle(m, placed, [x]);
      assert false;
    }
    var ready := set y | y in Ids(m) && IsReady(m, placed, y);
    var some :| IsReady(m, placed, some);
    assert some in ready;
    h := FirstOf(ById(m), ready);
  }

  lemma {:induction false} FirstOf(byId: map<string, Component>, s: set<string>) returns (h: string)
    requires s != {} && forall x | x in s :: x in byId
    ensures h in s && forall x | x in s :: x == h || Before(byId, h, x)
    decreases |s|
  {
    var x :| x in s;
    if s == {x} {
      h := x;
    } else {
      var rest := s - {x};
      assert s == rest + {x} && {} + {x} == {x};
      var g := FirstOf(byId, rest);
      LexTotal(x, g);
      if Before(byId, x, g) {
        h := x;
        forall y | y in s
          ensures y == h || Before(byId, h, y)
        {
          if y != x && y != g {
            BeforeTransitive(byId, x, g, y);
          }
        }
      } else {
        h := g;
        assert x != g;
      }
    }
  }

  lemma BeforeTransitive(byId: map<string, Component>, a: string, b: string, c: string)
    requires a in byId && b in byId && c in byId && Before(byId, a, b) && Before(byId, b, c)
    ensures Before(byId, a, c)
  {
    if LexLt(a, b) && LexLt(b, c) {
      LexTransitive(a, b, c);
    }
  }

  /** Each error means that its own check fails and every earlier one holds, in the documented order. */
  lemma ErrorNamesFirstFailure(m: Manifest, known: set<string>, e: PlanningError)
    requires IsPlan(m, known, Failure(e))
    ensures e == UnknownComponent <==> exists c :: c in m.components && c.id !in known
    ensures e == DuplicateComponent <==>
              && (forall c | c in m.components :: c.id in known)
              && exists i, j :: 0 <= i < j < |m.components| && m.components[i].id == m.components[j].id
    ensures e == DanglingDependency || e == SelfDependency || e == CyclicGraph ==>
              && (forall c | c in m.components :: c.id in known)
              && forall i, j | 0 <= i < j < |m.components| :: m.components[i].id != m.components[j].id
    ensures e == DanglingDependency ==> exists d :: d in m.dependencies && !(IsDeclared(m, d.componentId) && IsDeclared(m, d.dependsOn))
    ensures e == SelfDependency || e == CyclicGraph ==>
              forall d | d in m.dependencies :: IsDeclared(m, d.componentId) && IsDeclared(m, d.dependsOn)
    ensures e == SelfDependency ==> exists d :: d in m.dependencies && d.componentId == d.dependsOn
    ensures e == CyclicGraph ==>
              && (forall d | d in m.dependencies :: d.componentId != d.dependsOn)
              && exists c :: IsCycle(m, c)
  {
    UniqueByIndex(m);
    forall x
      ensures IsDeclared(m, x) <==> x in Ids(m)
    {
      DeclaredIsId(m, x);
    }
  }

  ghost predicate IsDeclared(m: Manifest, x: string) {
    exists c :: c in m.components && c.id == x
  }

  lemma DeclaredIsId(m: Manifest, x: string)
    ensures IsDeclared(m, x) <==> x in Ids(m)
  {
    if IsDeclared(m, x) {
      var c :| c in m.components && c.id == x;
      var i :| 0 <= i < |m.components| && m.components[i] == c;
      assert ComponentIds(m)[i] == x;
    }
    if x in Ids(m) {
      var i :| 0 <= i < |m.components| && ComponentIds(m)[i] == x;
      assert m.components[i] in m.components;
    }
  }

  lemma UniqueByIndex(m: Manifest)
    ensures UniqueIds(m) <==> forall i, j | 0 <= i < j < |m.components| :: m.components[i].id != m.components[j].id
  {
    var ids := ComponentIds(m);
    assert forall i | 0 <= i < |ids| :: ids[i] == m.components[i].id;
  }
}
