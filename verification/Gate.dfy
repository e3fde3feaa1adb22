/** audit_harness/run_audit.py and report.py: the counts, and the exit code they decide. */
module Gate {
  import opened Wrappers
  import opened FiniteSets
  import opened Walker
  import opened Trace

  // ---------- run_trace ----------

  datatype TraceResult = TraceResult(
    rootsWithError: seq<string>, nodes: map<string, NodeRecord>, calls: seq<CallRecord>)

  /** Seeding up to `seeded`, then classification up to `final`, then the budget tail. */
  ghost predicate IsTrace(
    program: Program, budget: nat, classes: Classes, resultClasses: seq<string>,
    seeds: seq<(VisitKey, string)>, rootErrors: seq<string>,
    r: TraceResult, seeded: Trail, final: Trail, scanned: seq<(VisitKey, string)>)
  {
    && (exists nodes :: AsSet(nodes) == AsSet(resultClasses)
                     && Progress(program, budget, true, Keys(seeds), Trail({}, [], nodes), seeded))
    && Classifying(program, classes, budget, AsSet(final.nodes), r.nodes, seeded, final)
    && Accounts(program, final.visited, scanned, r.calls, multiset{})
    && r.rootsWithError == rootErrors + if final.exceeded == [] then [] else ["static_walk_budget_exceeded"]
  }

  method RunTrace(
    program: Program, budget: nat, classes: Classes, resultClasses: seq<string>,
    seeds: seq<(VisitKey, string)>, rootErrors: seq<string>, ghost universe: set<string>)
    returns (r: TraceResult)
    requires Within(program, classes, universe) && AsSet(resultClasses) <= universe
    ensures exists seeded, final, scanned ::
              IsTrace(program, budget, classes, resultClasses, seeds, rootErrors, r, seeded, final, scanned)
    ensures r.rootsWithError == rootErrors <==>
              exists keys, nodes :: Covers(program, classes, resultClasses, seeds, keys, nodes) && |keys| <= budget
  {
    var w := new StaticWalker(program, budget);
    for i := 0 to |resultClasses|
      invariant w.Valid(multiset{}) && fresh(w) && w.program == program && w.budget == budget
      invariant w.visited == {} && w.depthExceeded == []
      invariant AsSet(w.unifiedNodes) == AsSet(resultClasses[..i])
    {
      assert resultClasses[..i + 1] == resultClasses[..i] + [resultClasses[i]];
      ghost var known := w.unifiedNodes;
      w.unifiedNodes := AddNode(w.unifiedNodes, resultClasses[i]);
      AddNodeSet(known, resultClasses[i]);
    }
    assert resultClasses[..|resultClasses|] == resultClasses;
    ghost var start := w.CurrentTrail();
    WalkSeeds(w, seeds, true);
    ghost var seeded := w.CurrentTrail();
    SeedsStayWithin(program, classes, universe, budget, Keys(seeds), start, seeded);
    var nodes := ClassifyNodes(w, classes, universe);
    ghost var final, scanned := w.CurrentTrail(), w.scanned;
    var errors := rootErrors + if w.depthExceeded == [] then [] else ["static_walk_budget_exceeded"];
    r := TraceResult(errors, nodes, w.callRecords);
    assert AsSet(start.nodes) == AsSet(resultClasses) && start == Trail({}, [], start.nodes);
    assert IsTrace(program, budget, classes, resultClasses, seeds, rootErrors, r, seeded, final, scanned);
    TraceIsLeastFixpoint(program, budget, classes, resultClasses, seeds, rootErrors, r, seeded, final, scanned);
  }

  lemma AddNodeSet(nodes: seq<string>, n: string)
    ensures AsSet(AddNode(nodes, n)) == AsSet(nodes) + {n}
  {
  }

  lemma SeedsStayWithin(
    program: Program, classes: Classes, universe: set<string>, budget: nat, roots: set<VisitKey>, a: Trail, b: Trail)
    requires Within(program, classes, universe) && AsSet(a.nodes) <= universe
    requires Progress(program, budget, true, roots, a, b)
    ensures AsSet(b.nodes) <= universe
  {
    forall n | n in b.nodes
      ensures n in universe
    {
      if n !in a.nodes {
        var k :| k in b.visited && k !in a.visited && n in Discovers(program, k);
        assert Discovers(program, k) <= universe;
      }
    }
  }

  // ---------- The whole run as a least fixed point ----------

  /** A pair of key and node sets that holds the roots and is closed under everything the run follows. */
  ghost predicate Covers(
    program: Program, classes: Classes, resultClasses: seq<string>, seeds: seq<(VisitKey, string)>,
    keys: set<VisitKey>, nodes: set<string>)
  {
    && (forall k | ReachedFrom(program, true, Keys(seeds), k) :: k in keys)
    && AsSet(resultClasses) <= nodes
    && Settled(program, classes, keys, nodes)
  }

  lemma SeedingIsNeeded(
    program: Program, budget: nat, classes: Classes, resultClasses: seq<string>, seeds: seq<(VisitKey, string)>,
    start: seq<string>, seeded: Trail, keys: set<VisitKey>, nodes: set<string>)
    requires AsSet(start) == AsSet(resultClasses)
    requires Progress(program, budget, true, Keys(seeds), Trail({}, [], start), seeded)
    requires Covers(program, classes, resultClasses, seeds, keys, nodes)
    ensures seeded.visited <= keys && AsSet(seeded.nodes) <= nodes
  {
    forall n | n in seeded.nodes
      ensures n in nodes
    {
      if n in start {
        assert n in AsSet(start);
      } else {
        var k :| k in seeded.visited && n in Discovers(program, k);
        assert Discovers(program, k) <= nodes;
      }
    }
  }

  lemma TargetsCovered(
    program: Program, classes: Classes, keys: set<VisitKey>, nodes: set<string>, processed: set<string>)
    requires Settled(program, classes, keys, nodes) && processed <= nodes
    ensures TargetsOf(classes, processed) <= keys && MadeBy(classes, processed) <= nodes
  {
  }

  lemma OneMoreThan(visited: set<VisitKey>, keys: set<VisitKey>, k: VisitKey)
    requires visited <= keys && k in keys && k !in visited
    ensures |visited| < |keys|
  {
    SubsetSize(visited + {k}, keys);
  }

  /** An exhausted run left out some key that every covering pair holds. */
  lemma ExhaustedLeavesOut(
    program: Program, budget: nat, classes: Classes, resultClasses: seq<string>,
    seeds: seq<(VisitKey, string)>, start: seq<string>, records: map<string, NodeRecord>,
    seeded: Trail, final: Trail, keys: set<VisitKey>, nodes: set<string>)
    requires AsSet(start) == AsSet(resultClasses)
    requires Progress(program, budget, true, Keys(seeds), Trail({}, [], start), seeded)
    requires Classifying(program, classes, budget, AsSet(final.nodes), records, seeded, final)
    requires Covers(program, classes, resultClasses, seeds, keys, nodes) && final.exceeded != []
    ensures |keys| > budget
  {
    SeedingIsNeeded(program, budget, classes, resultClasses, seeds, start, seeded, keys, nodes);
    assert final.visited <= keys && AsSet(final.nodes) <= nodes;
    if seeded.exceeded != [] {
      var k :| ReachedFrom(program, true, Keys(seeds), k) && k !in seeded.visited;
      SubsetSize(seeded.visited, final.visited);
      OneMoreThan(seeded.visited, keys, k);
    } else {
      var targets, made := TargetsOf(classes, AsSet(final.nodes)), MadeBy(classes, AsSet(final.nodes));
      var k :| ReachedFrom(program, false, targets, k) && k !in final.visited;
      TargetsCovered(program, classes, keys, nodes, AsSet(final.nodes));
      GrowthStaysSettled(program, classes, budget, targets, made, seeded, final, keys, nodes);
      OneMoreThan(final.visited, keys, k);
    }
  }

  /** A run within budget ends in a covering pair. */
  lemma FixpointReached(
    program: Program, budget: nat, classes: Classes, resultClasses: seq<string>,
    seeds: seq<(VisitKey, string)>, start: seq<string>, records: map<string, NodeRecord>,
    seeded: Trail, final: Trail)
    requires AsSet(start) == AsSet(resultClasses)
    requires Progress(program, budget, true, Keys(seeds), Trail({}, [], start), seeded)
    requires Classifying(program, classes, budget, AsSet(final.nodes), records, seeded, final)
    requires final.exceeded == []
    ensures Covers(program, classes, resultClasses, seeds, final.visited, AsSet(final.nodes))
  {
    assert seeded.exceeded == [];
    SeedingIsClosed(program, budget, seeds, start, seeded);
    NodesKept(program, budget, TargetsOf(classes, AsSet(final.nodes)), MadeBy(classes, AsSet(final.nodes)), seeded, final);
    forall k | k in final.visited
      ensures Succ(program, false, k) <= final.visited && Discovers(program, k) <= AsSet(final.nodes)
    {
      FewerFollowed(program, k);
      assert AsSet(seeded.nodes) <= AsSet(final.nodes);
    }
    forall n | n in AsSet(resultClasses)
      ensures n in AsSet(final.nodes)
    {
      assert n in AsSet(start) && n in seeded.nodes;
      assert n in AsSet(seeded.nodes);
    }
  }

  /**
   * The budget error appears exactly when no covering pair fits the budget. Otherwise the
   * keys visited and the nodes classified are exactly the least covering pair.
   */
  lemma {:induction false} TraceIsLeastFixpoint(
    program: Program, budget: nat, classes: Classes, resultClasses: seq<string>,
    seeds: seq<(VisitKey, string)>, rootErrors: seq<string>,
    r: TraceResult, seeded: Trail, final: Trail, scanned: seq<(VisitKey, string)>)
    requires IsTrace(program, budget, classes, resultClasses, seeds, rootErrors, r, seeded, final, scanned)
    ensures r.rootsWithError == rootErrors <==>
              exists keys, nodes :: Covers(program, classes, resultClasses, seeds, keys, nodes) && |keys| <= budget
    ensures r.rootsWithError == rootErrors ==>
              && Covers(program, classes, resultClasses, seeds, final.visited, AsSet(final.nodes))
              && r.nodes.Keys == AsSet(final.nodes)
    ensures forall keys, nodes | Covers(program, classes, resultClasses, seeds, keys, nodes) ::
              final.visited <= keys && AsSet(final.nodes) <= nodes
  {
    var start :| AsSet(start) == AsSet(resultClasses)
              && Progress(program, budget, true, Keys(seeds), Trail({}, [], start), seeded);
    assert r.rootsWithError == rootErrors <==> final.exceeded == [];
    if final.exceeded == [] {
      FixpointReached(program, budget, classes, resultClasses, seeds, start, r.nodes, seeded, final);
    }
    forall keys, nodes | Covers(program, classes, resultClasses, seeds, keys, nodes)
      ensures final.visited <= keys && AsSet(final.nodes) <= nodes && (final.exceeded != [] ==> |keys| > budget)
    {
      SeedingIsNeeded(program, budget, classes, resultClasses, seeds, start, seeded, keys, nodes);
      if final.exceeded != [] {
        ExhaustedLeavesOut(program, budget, classes, resultClasses, seeds, start, r.nodes, seeded, final, keys, nodes);
      }
    }
  }

  lemma FewerFollowed(program: Program, k: VisitKey)
    ensures Succ(program, false, k) <= Succ(program, true, k)
  {
  }

  lemma SeedingIsClosed(
    program: Program, budget: nat, seeds: seq<(VisitKey, string)>, nodes: seq<string>, t: Trail)
    requires Progress(program, budget, true, Keys(seeds), Trail({}, [], nodes), t) && t.exceeded == []
    ensures Closed(program, true, t.visited)
    ensures forall k | ReachedFrom(program, true, Keys(seeds), k) :: k in t.visited
    ensures forall k | k in t.visited :: Discovers(program, k) <= AsSet(t.nodes)
  {
    forall k | ReachedFrom(program, true, Keys(seeds), k)
      ensures k in t.visited
    {
      EnclosesReached(program, true, seeds, t.visited, k);
    }
  }

  // ---------- Counting ----------

  predicate ExplicitUnresolved(c: CallRecord) {
    !c.implicitly && c.category == Unresolved
  }

  predicate ImplicitUnresolved(c: CallRecord) {
    c.implicitly && c.category == Unresolved
  }

  function Count(p: CallRecord -> bool, calls: seq<CallRecord>): nat {
    if calls == [] then 0 else Count(p, calls[..|calls| - 1]) + if p(calls[|calls| - 1]) then 1 else 0
  }

  lemma {:induction false} CountZero(p: CallRecord -> bool, calls: seq<CallRecord>)
    ensures Count(p, calls) == 0 <==> forall c | c in calls :: !p(c)
  {
    if calls != [] {
      CountZero(p, calls[..|calls| - 1]);
      assert calls == calls[..|calls| - 1] + [calls[|calls| - 1]];
    }
  }

  function NodesUnresolved(nodes: map<string, NodeRecord>): set<string> {
    set n | n in nodes && nodes[n].IsUnresolved()
  }

  /** `Counter(f"{site} :: {callee}")` over the explicit unresolved calls. */
  method CountDetails(calls: seq<CallRecord>) returns (counter: map<(string, string), nat>)
    ensures forall d :: d in counter <==> Multiplicity(calls, d) > 0
    ensures forall d | d in counter :: counter[d] == Multiplicity(calls, d)
    ensures Total(counter) == Count(ExplicitUnresolved, calls)
  {
    counter := map[];
    ghost var details: multiset<(string, string)> := multiset{};
    for i := 0 to |calls|
      invariant Matches(counter, details)
      invariant forall d :: details[d] == Multiplicity(calls[..i], d)
      invariant |details| == Count(ExplicitUnresolved, calls[..i])
    {
      var c := calls[i];
      DetailStep(calls, i);
      if ExplicitUnresolved(c) {
        var d := (c.site, c.callee);
        Tallied(counter, details, d);
        counter := counter[d := (if d in counter then counter[d] else 0) + 1];
        details := details + multiset{d};
      }
    }
    assert calls[..|calls|] == calls;
    TotalIsCardinality(counter, details);
  }

  lemma DetailStep(calls: seq<CallRecord>, i: nat)
    requires i < |calls|
    ensures Count(ExplicitUnresolved, calls[..i + 1]) ==
            Count(ExplicitUnresolved, calls[..i]) + if ExplicitUnresolved(calls[i]) then 1 else 0
    ensures forall d :: Multiplicity(calls[..i + 1], d) == Multiplicity(calls[..i], d) +
              if ExplicitUnresolved(calls[i]) && (calls[i].site, calls[i].callee) == d then 1 else 0
  {
    assert calls[..i + 1][..i] == calls[..i];
  }

  lemma Tallied(counter: map<(string, string), nat>, details: multiset<(string, string)>, d: (string, string))
    requires Matches(counter, details)
    ensures Matches(counter[d := (if d in counter then counter[d] else 0) + 1], details + multiset{d})
  {
  }

  function Multiplicity(calls: seq<CallRecord>, d: (string, string)): nat {
    if calls == [] then 0
    else
      var c := calls[|calls| - 1];
      Multiplicity(calls[..|calls| - 1], d) + if ExplicitUnresolved(c) && (c.site, c.callee) == d then 1 else 0
  }

  ghost predicate Matches(counter: map<(string, string), nat>, details: multiset<(string, string)>) {
    && (forall d :: d in counter <==> d in details)
    && forall d | d in counter :: counter[d] == details[d]
  }

  ghost function Pick(counter: map<(string, string), nat>): (string, string)
    requires counter != map[]
  {
    var d :| d in counter; d
  }

  /** `sum(counter.values())`. */
  ghost function Total(counter: map<(string, string), nat>): nat {
    if counter == map[] then 0
    else var d := Pick(counter); counter[d] + Total(counter - {d})
  }

  lemma {:induction false} TotalIsCardinality(counter: map<(string, string), nat>, details: multiset<(string, string)>)
    requires Matches(counter, details)
    ensures Total(counter) == |details|
    decreases |counter|
  {
    if counter == map[] {
      assert details == multiset{};
    } else {
      var d := Pick(counter);
      TotalIsCardinality(counter - {d}, details[d := 0]);
    }
  }

  // ---------- The gate rule ----------

  /** The gate's other inputs: module state, discovery, runtime denial and self tests. */
  datatype OtherChecks = OtherChecks(
    moduleStateUnexplained: nat, moduleStateParseErrors: nat, discoveryParseErrors: nat,
    runtimeDenialOk: bool, controlsTotal: nat, controlsDetected: nat)

  predicate OthersClear(o: OtherChecks) {
    && o.moduleStateUnexplained == 0
    && o.runtimeDenialOk
    && o.controlsDetected == o.controlsTotal
    && o.discoveryParseErrors == 0
    && o.moduleStateParseErrors == 0
  }

  function ExitCode(r: TraceResult, o: OtherChecks): nat {
    var allClear :=
      && |NodesUnresolved(r.nodes)| == 0
      && Count(ExplicitUnresolved, r.calls) == 0
      && Count(ImplicitUnresolved, r.calls) == 0
      && OthersClear(o)
      && |r.rootsWithError| == 0;
    if allClear then 0 else 1
  }

  // ---------- No silent truncation ----------

  lemma {:induction false} SiteIsRecorded(sites: seq<Site>, tag: string, site: Site)
    requires site in sites && site.verdict.Some?
    ensures CallRecord(tag, site.callee, site.implicitly, site.verdict.value) in RecordsOf(sites, tag)
  {
    if site != sites[0] {
      SiteIsRecorded(sites[1..], tag, site);
    }
  }

  lemma {:induction false} RecordHasSite(sites: seq<Site>, tag: string, c: CallRecord) returns (site: Site)
    requires c in RecordsOf(sites, tag)
    ensures site in sites && site.verdict.Some?
    ensures c == CallRecord(tag, site.callee, site.implicitly, site.verdict.value)
  {
    if c in RecordOf(sites[0], tag) {
      site := sites[0];
    } else {
      site := RecordHasSite(sites[1..], tag, c);
    }
  }

  lemma {:induction false} ScanIsRecorded(
    program: Program, scanned: seq<(VisitKey, string)>, i: nat, c: CallRecord)
    requires i < |scanned| && c in RecordsOf(SitesOf(program(scanned[i].0)), scanned[i].1)
    ensures c in Contribution(program, scanned)
  {
    if i < |scanned| - 1 {
      ScanIsRecorded(program, scanned[..|scanned| - 1], i, c);
    }
  }

  lemma {:induction false} RecordHasScan(program: Program, scanned: seq<(VisitKey, string)>, c: CallRecord)
    returns (i: nat)
    requires c in Contribution(program, scanned)
    ensures i < |scanned| && c in RecordsOf(SitesOf(program(scanned[i].0)), scanned[i].1)
  {
    i := |scanned| - 1;
    if c !in RecordsOf(SitesOf(program(scanned[i].0)), scanned[i].1) {
      i := RecordHasScan(program, scanned[..|scanned| - 1], c);
    }
  }

  lemma {:induction false} KeysCardinality(scanned: seq<(VisitKey, string)>)
    requires forall i, j | 0 <= i < j < |scanned| :: scanned[i].0 != scanned[j].0
    ensures |Keys(scanned)| == |scanned|
  {
    if scanned != [] {
      var front, last := scanned[..|scanned| - 1], scanned[|scanned| - 1];
      KeysCardinality(front);
      assert scanned == front + [last];
      assert Keys(scanned) == Keys(front) + {last.0};
      assert last.0 !in Keys(front);
    }
  }

  lemma VisitedWasScanned(
    program: Program, visited: set<VisitKey>, scanned: seq<(VisitKey, string)>, calls: seq<CallRecord>, k: VisitKey)
    returns (i: nat)
    requires Accounts(program, visited, scanned, calls, multiset{}) && k in visited
    ensures i < |scanned| && scanned[i].0 == k
  {
    KeysCardinality(scanned);
    assert Keys(scanned) <= visited;
    SubsetSize(Keys(scanned), visited);
    assert k in Keys(scanned);
    i :| 0 <= i < |scanned| && scanned[i].0 == k;
  }

  /** `site` occurs in the readable source of `k`. */
  ghost predicate OccursIn(program: Program, k: VisitKey, site: Site) {
    program(k).Source? && site in program(k).sites
  }

  /** The record that `site` leaves when its body is scanned under `tag`. */
  ghost predicate RecordedAs(site: Site, tag: string, c: CallRecord) {
    && c.site == tag && c.callee == site.callee && c.implicitly == site.implicitly
    && site.verdict == Some(c.category)
  }

  /** The call records are exactly those of the sites of the bodies scanned. */
  lemma {:induction false} RecordsAreSites(
    program: Program, visited: set<VisitKey>, scanned: seq<(VisitKey, string)>, calls: seq<CallRecord>, c: CallRecord)
    requires Accounts(program, visited, scanned, calls, multiset{})
    ensures c in calls <==>
              (exists i, site ::
                 0 <= i < |scanned| && OccursIn(program, scanned[i].0, site) && RecordedAs(site, scanned[i].1, c))
  {
    assert c in calls <==> c in multiset(calls);
    if c in calls {
      var i := RecordHasScan(program, scanned, c);
      var site := RecordHasSite(SitesOf(program(scanned[i].0)), scanned[i].1, c);
      assert OccursIn(program, scanned[i].0, site) && RecordedAs(site, scanned[i].1, c);
    }
    if i, site :| 0 <= i < |scanned| && OccursIn(program, scanned[i].0, site) && RecordedAs(site, scanned[i].1, c) {
      SiteIsRecorded(SitesOf(program(scanned[i].0)), scanned[i].1, site);
      ScanIsRecorded(program, scanned, i, c);
    }
  }

  /** No explicit (or no implicit) site of a visited body is unresolved. */
  ghost predicate SitesResolved(program: Program, visited: set<VisitKey>, implicitly: bool) {
    forall k, site | k in visited && OccursIn(program, k, site) && site.implicitly == implicitly ::
      site.verdict != Some(Unresolved)
  }

  lemma UnresolvedSiteIsCounted(
    program: Program, visited: set<VisitKey>, scanned: seq<(VisitKey, string)>, calls: seq<CallRecord>,
    k: VisitKey, site: Site)
    requires Accounts(program, visited, scanned, calls, multiset{}) && k in visited
    requires OccursIn(program, k, site) && site.verdict == Some(Unresolved)
    ensures exists c :: c in calls && c.implicitly == site.implicitly && c.category == Unresolved
  {
    var i := VisitedWasScanned(program, visited, scanned, calls, k);
    var c := CallRecord(scanned[i].1, site.callee, site.implicitly, Unresolved);
    assert RecordedAs(site, scanned[i].1, c);
    RecordsAreSites(program, visited, scanned, calls, c);
  }

  lemma CountedSiteIsUnresolved(
    program: Program, visited: set<VisitKey>, scanned: seq<(VisitKey, string)>, calls: seq<CallRecord>, c: CallRecord)
    requires Accounts(program, visited, scanned, calls, multiset{}) && c in calls && c.category == Unresolved
    ensures !SitesResolved(program, visited, c.implicitly)
  {
    RecordsAreSites(program, visited, scanned, calls, c);
    var i, site :| 0 <= i < |scanned| && OccursIn(program, scanned[i].0, site) && RecordedAs(site, scanned[i].1, c);
    assert scanned[i].0 in visited;
  }

  /** Each unresolved count is zero exactly when no site of that kind in a visited body is unresolved. */
  lemma ResolvedExactlyWhenUncounted(
    program: Program, visited: set<VisitKey>, scanned: seq<(VisitKey, string)>, calls: seq<CallRecord>)
    requires Accounts(program, visited, scanned, calls, multiset{})
    ensures Count(ExplicitUnresolved, calls) == 0 <==> SitesResolved(program, visited, false)
    ensures Count(ImplicitUnresolved, calls) == 0 <==> SitesResolved(program, visited, true)
  {
    CountZero(ExplicitUnresolved, calls);
    CountZero(ImplicitUnresolved, calls);
    forall k, site | k in visited && OccursIn(program, k, site) && site.verdict == Some(Unresolved)
      ensures exists c :: c in calls && c.implicitly == site.implicitly && c.category == Unresolved
    {
      UnresolvedSiteIsCounted(program, visited, scanned, calls, k, site);
    }
    forall c | c in calls && c.category == Unresolved
      ensures !SitesResolved(program, visited, c.implicitly)
    {
      CountedSiteIsUnresolved(program, visited, scanned, calls, c);
    }
  }

  /**
   * Exit code 0 says exactly: nothing unexplained and no parse error in the module state, no
   * parse error in discovery, the runtime denial held, every negative control was detected,
   * no root failed, the budget was never hit, and no site of a visited body and no
   * constructor or factory of a discovered class is unresolved.
   */
  lemma {:induction false} CleanGateExactly(
    program: Program, budget: nat, classes: Classes, resultClasses: seq<string>,
    seeds: seq<(VisitKey, string)>, rootErrors: seq<string>, o: OtherChecks,
    r: TraceResult, seeded: Trail, final: Trail, scanned: seq<(VisitKey, string)>)
    requires IsTrace(program, budget, classes, resultClasses, seeds, rootErrors, r, seeded, final, scanned)
    ensures ExitCode(r, o) == 0 <==>
            && o.moduleStateUnexplained == 0 && o.moduleStateParseErrors == 0 && o.discoveryParseErrors == 0
            && o.runtimeDenialOk && o.controlsDetected == o.controlsTotal
            && rootErrors == [] && final.exceeded == []
            && SitesResolved(program, final.visited, false) && SitesResolved(program, final.visited, true)
            && forall n | n in final.nodes :: ClassResolved(classes(n))
    ensures ExitCode(r, o) != 0 ==> ExitCode(r, o) == 1
  {
    ResolvedExactlyWhenUncounted(program, final.visited, scanned, r.calls);
    NodesClearExactly(classes, AsSet(final.nodes), r.nodes);
  }

  lemma NodesClearExactly(classes: Classes, nodes: set<string>, records: map<string, NodeRecord>)
    requires records == map n | n in nodes :: NodeRecordOf(n, classes(n))
    ensures |NodesUnresolved(records)| == 0 <==> forall n | n in nodes :: ClassResolved(classes(n))
  {
    forall n | n in nodes
      ensures n in NodesUnresolved(records) <==> !ClassResolved(classes(n))
    {
      UnresolvedExactly(n, classes(n));
    }
    assert NodesUnresolved(records) <= nodes;
  }

  // ---------- What was followed, on the fields of the sites and classes ----------

  /** Every target that is forced or source-available was visited, and every class named was discovered. */
  ghost predicate SitesFollowed(program: Program, visited: set<VisitKey>, nodes: seq<string>) {
    forall k, site | k in visited && OccursIn(program, k, site) ::
      && (site.target.Some? && (site.target.value.forced || site.verdict == Some(ProjectSource)) ==>
            site.target.value.key in visited)
      && (site.discovers.Some? ==> site.discovers.value in nodes)
  }

  /** While seeding, targets in always-followed modules were visited whatever their verdict. */
  ghost predicate MechanismFollowed(program: Program, visited: set<VisitKey>) {
    forall k, site | k in visited && OccursIn(program, k, site) && site.target.Some? && site.target.value.mechanism ::
      site.target.value.key in visited
  }

  ghost predicate ClassFollowed(info: ClassInfo, visited: set<VisitKey>, nodes: seq<string>) {
    && (info.init.Some? ==> info.init.value.key in visited)
    && (info.new_.Some? ==> info.new_.value.key in visited)
    && (info.postInit.Some? ==> info.postInit.value.key in visited)
    && forall f | f in info.factories :: if f.Calls? then f.key in visited else f.node in nodes
  }

  /** Why `k` was visited: it is a seed, a constructor or factory of a class, or called from a visited body. */
  ghost predicate HasReason(
    program: Program, classes: Classes, seeds: seq<(VisitKey, string)>, seeded: Trail, final: Trail, k: VisitKey)
  {
    || (exists s :: s in seeds && s.0 == k)
    || (exists n :: n in final.nodes && IsEntryOf(classes(n), k))
    || exists j, site :: j in final.visited && CallsFrom(program, seeded, j, site, k)
  }

  ghost predicate IsEntryOf(info: ClassInfo, k: VisitKey) {
    || (info.init.Some? && info.init.value.key == k)
    || (info.new_.Some? && info.new_.value.key == k)
    || (info.postInit.Some? && info.postInit.value.key == k)
    || exists f :: f in info.factories && f.Calls? && f.key == k
  }

  ghost predicate CallsFrom(program: Program, seeded: Trail, j: VisitKey, site: Site, k: VisitKey) {
    && OccursIn(program, j, site) && site.target.Some? && site.target.value.key == k
    && (site.target.value.forced || site.verdict == Some(ProjectSource)
        || (j in seeded.visited && site.target.value.mechanism))
  }

  lemma FollowedIsSucc(program: Program, mechanism: bool, j: VisitKey, site: Site)
    requires OccursIn(program, j, site) && site.target.Some?
    requires site.target.value.forced || site.verdict == Some(ProjectSource)
             || (mechanism && site.target.value.mechanism)
    ensures site.target.value.key in Succ(program, mechanism, j)
  {
    assert site in SitesOf(program(j));
  }

  lemma ClassIsFollowed(
    program: Program, classes: Classes, visited: set<VisitKey>, nodes: seq<string>, n: string)
    requires Settled(program, classes, visited, AsSet(nodes)) && n in nodes
    ensures ClassFollowed(classes(n), visited, nodes)
  {
    var info := classes(n);
    assert n in AsSet(nodes);
    assert CtorKey(info.init) <= visited && CtorKey(info.new_) <= visited && CtorKey(info.postInit) <= visited;
    forall f | f in info.factories
      ensures if f.Calls? then f.key in visited else f.node in nodes
    {
      if f.Calls? {
        assert f.key in FactoryKeys(info.factories);
      } else {
        assert f.node in FactoryNodes(info.factories);
        assert f.node in AsSet(nodes);
      }
    }
  }

  lemma SettledFollowsSites(program: Program, classes: Classes, visited: set<VisitKey>, nodes: seq<string>)
    requires Settled(program, classes, visited, AsSet(nodes))
    ensures SitesFollowed(program, visited, nodes)
  {
    forall k, site | k in visited && OccursIn(program, k, site)
      ensures site.target.Some? && (site.target.value.forced || site.verdict == Some(ProjectSource)) ==>
                site.target.value.key in visited
      ensures site.discovers.Some? ==> site.discovers.value in nodes
    {
      if site.target.Some? && (site.target.value.forced || site.verdict == Some(ProjectSource)) {
        FollowedIsSucc(program, false, k, site);
        assert Succ(program, false, k) <= visited;
      }
      if site.discovers.Some? {
        assert site in SitesOf(program(k)) && site.discovers.value in Discovers(program, k);
        assert site.discovers.value in AsSet(nodes);
      }
    }
  }

  lemma ClosedFollowsMechanisms(program: Program, visited: set<VisitKey>)
    requires Closed(program, true, visited)
    ensures MechanismFollowed(program, visited)
  {
    forall k, site | k in visited && OccursIn(program, k, site) && site.target.Some? && site.target.value.mechanism
      ensures site.target.value.key in visited
    {
      FollowedIsSucc(program, true, k, site);
    }
  }

  /** The last step of a path from the seeds. */
  lemma ReachedHasStep(program: Program, mechanism: bool, roots: set<VisitKey>, k: VisitKey) returns (j: VisitKey)
    requires ReachedFrom(program, mechanism, roots, k) && k !in roots
    ensures ReachedFrom(program, mechanism, roots, j) && k in Succ(program, mechanism, j)
  {
    var root :| root in roots && Reaches(program, mechanism, root, k);
    var path :| PathFromTo(program, mechanism, path, root, k);
    var n := |path| - 1;
    var front := path[..n];
    j := front[n - 1];
    assert path[n] in Succ(program, mechanism, path[n - 1]);
    assert IsPath(program, mechanism, front) by {
      forall i | 0 <= i < |front| - 1
        ensures front[i + 1] in Succ(program, mechanism, front[i])
      {
        assert path[i + 1] in Succ(program, mechanism, path[i]);
      }
    }
    assert PathFromTo(program, mechanism, front, root, j);
  }

  lemma SuccHasSite(program: Program, mechanism: bool, j: VisitKey, k: VisitKey) returns (site: Site)
    requires k in Succ(program, mechanism, j)
    ensures OccursIn(program, j, site) && site.target.Some? && site.target.value.key == k
    ensures site.target.value.forced || site.verdict == Some(ProjectSource)
            || (mechanism && site.target.value.mechanism)
  {
    site :| site in SitesOf(program(j)) && Follows(site, mechanism) && site.target.value.key == k;
  }

  lemma TargetIsEntry(info: ClassInfo, k: VisitKey)
    requires k in ClassTargets(info)
    ensures IsEntryOf(info, k)
  {
  }

  /** Without a reason to be visited, `k` could be left out of the covering pair. */
  lemma UnreasonedCouldGo(
    program: Program, budget: nat, classes: Classes, resultClasses: seq<string>, seeds: seq<(VisitKey, string)>,
    start: seq<string>, seeded: Trail, final: Trail, k: VisitKey)
    requires Progress(program, budget, true, Keys(seeds), Trail({}, [], start), seeded)
    requires seeded.exceeded == [] && seeded.visited <= final.visited
    requires Covers(program, classes, resultClasses, seeds, final.visited, AsSet(final.nodes))
    requires !HasReason(program, classes, seeds, seeded, final, k)
    ensures Covers(program, classes, resultClasses, seeds, final.visited - {k}, AsSet(final.nodes))
  {
    SeedingIsClosed(program, budget, seeds, start, seeded);
    forall x | ReachedFrom(program, true, Keys(seeds), x)
      ensures x in final.visited - {k}
    {
      if x == k {
        if k !in Keys(seeds) {
          var j := ReachedHasStep(program, true, Keys(seeds), k);
          var site := SuccHasSite(program, true, j, k);
          assert CallsFrom(program, seeded, j, site, k);
        }
        assert false;
      }
    }
    forall j | j in final.visited
      ensures Succ(program, false, j) <= final.visited - {k}
    {
      if k in Succ(program, false, j) {
        var site := SuccHasSite(program, false, j, k);
        assert CallsFrom(program, seeded, j, site, k);
        assert false;
      }
    }
    forall n | n in AsSet(final.nodes)
      ensures ClassTargets(classes(n)) <= final.visited - {k}
    {
      if k in ClassTargets(classes(n)) {
        TargetIsEntry(classes(n), k);
        assert false;
      }
    }
  }

  /** Why `n` was discovered: a result class, named in a visited body, or made by a default factory. */
  ghost predicate NodeHasReason(
    program: Program, classes: Classes, resultClasses: seq<string>, final: Trail, n: string)
  {
    || n in resultClasses
    || (exists k, site :: k in final.visited && OccursIn(program, k, site) && site.discovers == Some(n))
    || exists m, f :: m in final.nodes && IsMadeBy(classes(m), f, n)
  }

  ghost predicate IsMadeBy(info: ClassInfo, f: Factory, n: string) {
    f in info.factories && f.MakesClass? && f.node == n
  }

  lemma UnreasonedNodeCouldGo(
    program: Program, classes: Classes, resultClasses: seq<string>, seeds: seq<(VisitKey, string)>,
    final: Trail, n: string)
    requires Covers(program, classes, resultClasses, seeds, final.visited, AsSet(final.nodes))
    requires !NodeHasReason(program, classes, resultClasses, final, n)
    ensures Covers(program, classes, resultClasses, seeds, final.visited, AsSet(final.nodes) - {n})
  {
    assert n !in AsSet(resultClasses);
    forall k | k in final.visited
      ensures Discovers(program, k) <= AsSet(final.nodes) - {n}
    {
      if n in Discovers(program, k) {
        var site :| site in SitesOf(program(k)) && site.discovers == Some(n);
        assert OccursIn(program, k, site);
        assert false;
      }
    }
    forall m | m in AsSet(final.nodes)
      ensures FactoryNodes(classes(m).factories) <= AsSet(final.nodes) - {n}
    {
      if n in FactoryNodes(classes(m).factories) {
        var f :| f in classes(m).factories && f.MakesClass? && f.node == n;
        assert IsMadeBy(classes(m), f, n);
        assert false;
      }
    }
  }

  /**
   * After a run without the budget error every target that should be followed was, whatever
   * body or class it comes from; and nothing was visited without such a reason.
   */
  lemma {:induction false} RunFollowsExactly(
    program: Program, budget: nat, classes: Classes, resultClasses: seq<string>,
    seeds: seq<(VisitKey, string)>, rootErrors: seq<string>,
    r: TraceResult, seeded: Trail, final: Trail, scanned: seq<(VisitKey, string)>)
    requires IsTrace(program, budget, classes, resultClasses, seeds, rootErrors, r, seeded, final, scanned)
    requires r.rootsWithError == rootErrors
    ensures forall s | s in seeds :: s.0 in seeded.visited
    ensures seeded.visited <= final.visited && MechanismFollowed(program, seeded.visited)
    ensures forall n | n in resultClasses :: n in final.nodes
    ensures SitesFollowed(program, final.visited, final.nodes)
    ensures forall n | n in final.nodes :: ClassFollowed(classes(n), final.visited, final.nodes)
    ensures forall k | k in final.visited :: HasReason(program, classes, seeds, seeded, final, k)
    ensures forall n | n in final.nodes :: NodeHasReason(program, classes, resultClasses, final, n)
  {
    TraceIsLeastFixpoint(program, budget, classes, resultClasses, seeds, rootErrors, r, seeded, final, scanned);
    var start :| AsSet(start) == AsSet(resultClasses)
              && Progress(program, budget, true, Keys(seeds), Trail({}, [], start), seeded);
    assert seeded.exceeded == [];
    NodesHaveReasons(program, budget, classes, resultClasses, seeds, rootErrors, r, seeded, final, scanned);
    SeedingIsClosed(program, budget, seeds, start, seeded);
    SeedsVisited(program, budget, seeds, start, seeded);
    ClosedFollowsMechanisms(program, seeded.visited);
    SettledFollowsSites(program, classes, final.visited, final.nodes);
    forall n | n in resultClasses
      ensures n in final.nodes
    {
      assert n in AsSet(resultClasses) && n in AsSet(final.nodes);
    }
    forall n | n in final.nodes
      ensures ClassFollowed(classes(n), final.visited, final.nodes)
    {
      ClassIsFollowed(program, classes, final.visited, final.nodes, n);
    }
    forall k | k in final.visited
      ensures HasReason(program, classes, seeds, seeded, final, k)
    {
      if !HasReason(program, classes, seeds, seeded, final, k) {
        UnreasonedCouldGo(program, budget, classes, resultClasses, seeds, start, seeded, final, k);
        assert false;
      }
    }
  }

  lemma {:induction false} NodesHaveReasons(
    program: Program, budget: nat, classes: Classes, resultClasses: seq<string>,
    seeds: seq<(VisitKey, string)>, rootErrors: seq<string>,
    r: TraceResult, seeded: Trail, final: Trail, scanned: seq<(VisitKey, string)>)
    requires IsTrace(program, budget, classes, resultClasses, seeds, rootErrors, r, seeded, final, scanned)
    requires r.rootsWithError == rootErrors
    ensures forall n | n in final.nodes :: NodeHasReason(program, classes, resultClasses, final, n)
  {
    TraceIsLeastFixpoint(program, budget, classes, resultClasses, seeds, rootErrors, r, seeded, final, scanned);
    forall n | n in final.nodes
      ensures NodeHasReason(program, classes, resultClasses, final, n)
    {
      assert n in AsSet(final.nodes);
      if !NodeHasReason(program, classes, resultClasses, final, n) {
        UnreasonedNodeCouldGo(program, classes, resultClasses, seeds, final, n);
        assert false;
      }
    }
  }

  lemma SeedsVisited(
    program: Program, budget: nat, seeds: seq<(VisitKey, string)>, start: seq<string>, seeded: Trail)
    requires Progress(program, budget, true, Keys(seeds), Trail({}, [], start), seeded) && seeded.exceeded == []
    ensures forall s | s in seeds :: s.0 in seeded.visited
  {
    forall s | s in seeds
      ensures s.0 in seeded.visited
    {
      assert s.0 in Keys(seeds);
    }
  }

  /**
   * With exit code 0 the run is the least fixed point: every seed, every forced or
   * source-available target of a visited body, every class it names and every constructor and
   * factory of a discovered class was dealt with, and nothing was visited without a reason.
   */
  lemma {:induction false} CleanGateIsComplete(
    program: Program, budget: nat, classes: Classes, resultClasses: seq<string>,
    seeds: seq<(VisitKey, string)>, rootErrors: seq<string>, o: OtherChecks,
    r: TraceResult, seeded: Trail, final: Trail, scanned: seq<(VisitKey, string)>)
    requires IsTrace(program, budget, classes, resultClasses, seeds, rootErrors, r, seeded, final, scanned)
    requires ExitCode(r, o) == 0
    ensures Covers(program, classes, resultClasses, seeds, final.visited, AsSet(final.nodes))
    ensures r.nodes.Keys == AsSet(final.nodes)
    ensures forall keys, nodes | Covers(program, classes, resultClasses, seeds, keys, nodes) ::
              final.visited <= keys && AsSet(final.nodes) <= nodes
    ensures forall s | s in seeds :: s.0 in final.visited
    ensures seeded.visited <= final.visited && MechanismFollowed(program, seeded.visited)
    ensures SitesFollowed(program, final.visited, final.nodes)
    ensures forall n | n in final.nodes :: ClassFollowed(classes(n), final.visited, final.nodes)
    ensures forall k | k in final.visited :: HasReason(program, classes, seeds, seeded, final, k)
    ensures forall n | n in final.nodes :: NodeHasReason(program, classes, resultClasses, final, n)
  {
    assert r.rootsWithError == [] && rootErrors == [];
    RunFollowsExactly(program, budget, classes, resultClasses, seeds, rootErrors, r, seeded, final, scanned);
    TraceIsLeastFixpoint(program, budget, classes, resultClasses, seeds, rootErrors, r, seeded, final, scanned);
  }

  // ---------- The counts, as numbers of positions ----------

  ghost function Positions(p: CallRecord -> bool, calls: seq<CallRecord>): set<nat> {
    set i: nat | i < |calls| && p(calls[i])
  }

  lemma {:induction false} CountIsPositions(p: CallRecord -> bool, calls: seq<CallRecord>)
    ensures Count(p, calls) == |Positions(p, calls)|
  {
    if calls != [] {
      var n := |calls| - 1;
      CountIsPositions(p, calls[..n]);
      assert Positions(p, calls) == Positions(p, calls[..n]) + if p(calls[n]) then {n} else {};
    }
  }

  /** An explicit unresolved call at this site with this callee text. */
  predicate IsDetail(c: CallRecord, site: string, callee: string) {
    !c.implicitly && c.category == Unresolved && c.site == site && c.callee == callee
  }

  ghost function DetailPositions(calls: seq<CallRecord>, site: string, callee: string): set<nat> {
    set i: nat | i < |calls| && IsDetail(calls[i], site, callee)
  }

  lemma DetailPositionsStep(calls: seq<CallRecord>, site: string, callee: string)
    requires calls != []
    ensures var n := |calls| - 1;
            DetailPositions(calls, site, callee) ==
            DetailPositions(calls[..n], site, callee) + if IsDetail(calls[n], site, callee) then {n} else {}
  {
  }

  /** A detail's multiplicity is the number of explicit unresolved calls it stands for. */
  lemma {:induction false} MultiplicityIsPositions(calls: seq<CallRecord>, site: string, callee: string)
    ensures Multiplicity(calls, (site, callee)) == |DetailPositions(calls, site, callee)|
  {
    if calls != [] {
      var n := |calls| - 1;
      MultiplicityIsPositions(calls[..n], site, callee);
      DetailPositionsStep(calls, site, callee);
      assert n !in DetailPositions(calls[..n], site, callee);
      assert ExplicitUnresolved(calls[n]) && (calls[n].site, calls[n].callee) == (site, callee) <==>
             IsDetail(calls[n], site, callee);
    }
  }
}
