/** audit_harness/trace.py: the static call walker, its work budget and the node worklist. */
module Walker {
  import opened Wrappers
  import opened FiniteSets

  /** One (function, specialization) pair. */
  datatype VisitKey = VisitKey(func: nat, specialization: string)

  datatype Category = ProjectSource | ExactIdentity | Forbidden | Unresolved

  datatype CallRecord = CallRecord(site: string, callee: string, implicitly: bool, category: Category)

  /** `forced`: followed whatever the verdict; `mechanism`: defined in an always-followed module. */
  datatype Target = Target(key: VisitKey, forced: bool, mechanism: bool)

  /** One dispatch candidate of a body; an excluded non-descriptor site has no verdict. */
  datatype Site = Site(callee: string, implicitly: bool, verdict: Option<Category>,
                       discovers: Option<string>, target: Option<Target>)

  datatype Body = NoSource | Source(sites: seq<Site>)

  type Program = VisitKey -> Body

  function SitesOf(body: Body): seq<Site> {
    match body
    case NoSource => []
    case Source(sites) => sites
  }

  /** Whether the walk goes on into the site's target, under one setting of always_follow_modules. */
  predicate Follows(site: Site, mechanism: bool) {
    && site.target.Some?
    && (site.target.value.forced || site.verdict == Some(ProjectSource)
        || (mechanism && site.target.value.mechanism))
  }

  ghost function Succ(program: Program, mechanism: bool, k: VisitKey): set<VisitKey> {
    set site | site in SitesOf(program(k)) && Follows(site, mechanism) :: site.target.value.key
  }

  ghost function Discovers(program: Program, k: VisitKey): set<string> {
    set site | site in SitesOf(program(k)) && site.discovers.Some? :: site.discovers.value
  }

  // ---------- Reachability ----------

  ghost predicate IsPath(program: Program, mechanism: bool, path: seq<VisitKey>) {
    |path| > 0 && forall i | 0 <= i < |path| - 1 :: path[i + 1] in Succ(program, mechanism, path[i])
  }

  ghost predicate PathFromTo(program: Program, mechanism: bool, path: seq<VisitKey>, a: VisitKey, b: VisitKey) {
    IsPath(program, mechanism, path) && path[0] == a && path[|path| - 1] == b
  }

  ghost predicate Reaches(program: Program, mechanism: bool, a: VisitKey, b: VisitKey) {
    exists path :: PathFromTo(program, mechanism, path, a, b)
  }

  ghost predicate Closed(program: Program, mechanism: bool, s: set<VisitKey>) {
    forall k | k in s :: Succ(program, mechanism, k) <= s
  }

  lemma ReachesSelf(program: Program, mechanism: bool, a: VisitKey)
    ensures Reaches(program, mechanism, a, a)
  {
    assert PathFromTo(program, mechanism, [a], a, a);
  }

  lemma ReachesVia(program: Program, mechanism: bool, a: VisitKey, b: VisitKey, c: VisitKey)
    requires b in Succ(program, mechanism, a) && Reaches(program, mechanism, b, c)
    ensures Reaches(program, mechanism, a, c)
  {
    var path :| PathFromTo(program, mechanism, path, b, c);
    var longer := [a] + path;
    forall i | 0 <= i < |longer| - 1
      ensures longer[i + 1] in Succ(program, mechanism, longer[i])
    {
      if i > 0 {
        assert path[i] in Succ(program, mechanism, path[i - 1]);
      }
    }
    assert PathFromTo(program, mechanism, longer, a, c);
  }

  /** Whatever is reachable from a member of a closed set lies in it. */
  lemma ClosedHoldsReachable(program: Program, mechanism: bool, s: set<VisitKey>, a: VisitKey, b: VisitKey)
    requires Closed(program, mechanism, s) && a in s && Reaches(program, mechanism, a, b)
    ensures b in s
  {
    var path :| PathFromTo(program, mechanism, path, a, b);
    PathStaysIn(program, mechanism, s, path, |path| - 1);
  }

  lemma {:induction false} PathStaysIn(
    program: Program, mechanism: bool, s: set<VisitKey>, path: seq<VisitKey>, i: nat)
    requires Closed(program, mechanism, s) && IsPath(program, mechanism, path) && path[0] in s && i < |path|
    ensures path[i] in s
  {
    if i > 0 {
      PathStaysIn(program, mechanism, s, path, i - 1);
      assert path[i] in Succ(program, mechanism, path[i - 1]);
    }
  }

  // ---------- Records ----------

  ghost function RecordsOf(sites: seq<Site>, tag: string): multiset<CallRecord> {
    if sites == [] then multiset{}
    else RecordOf(sites[0], tag) + RecordsOf(sites[1..], tag)
  }

  ghost function RecordOf(site: Site, tag: string): multiset<CallRecord> {
    if site.verdict.None? then multiset{}
    else multiset{CallRecord(tag, site.callee, site.implicitly, site.verdict.value)}
  }

  /** Everything recorded by scanning each listed key once under its site label. */
  ghost function Contribution(program: Program, scanned: seq<(VisitKey, string)>): multiset<CallRecord> {
    if scanned == [] then multiset{}
    else
      var (k, tag) := scanned[|scanned| - 1];
      Contribution(program, scanned[..|scanned| - 1]) + RecordsOf(SitesOf(program(k)), tag)
  }

  // ---------- What walking does ----------

  datatype Trail = Trail(visited: set<VisitKey>, exceeded: seq<string>, nodes: seq<string>)

  /** What a stretch of walking from `roots` does to the trail. */
  ghost predicate Progress(program: Program, budget: nat, mechanism: bool, roots: set<VisitKey>, a: Trail, b: Trail) {
    && a.visited <= b.visited
    && a.exceeded <= b.exceeded
    && (forall k | k in b.visited && k !in a.visited :: ReachedFrom(program, mechanism, roots, k))
    && (b.exceeded == a.exceeded ==>
          && roots <= b.visited
          && forall k | k in b.visited && k !in a.visited :: Succ(program, mechanism, k) <= b.visited)
    && (b.exceeded != a.exceeded ==>
          && |b.visited| == budget
          && exists k :: ReachedFrom(program, mechanism, roots, k) && k !in b.visited)
    && (forall n :: n in b.nodes <==>
          n in a.nodes || exists k :: k in b.visited && k !in a.visited && n in Discovers(program, k))
  }

  ghost predicate ReachedFrom(program: Program, mechanism: bool, roots: set<VisitKey>, k: VisitKey) {
    exists r :: r in roots && Reaches(program, mechanism, r, k)
  }

  lemma ProgressCompose(
    program: Program, budget: nat, mechanism: bool, r1: set<VisitKey>, r2: set<VisitKey>, a: Trail, b: Trail, c: Trail)
    requires Progress(program, budget, mechanism, r1, a, b) && Progress(program, budget, mechanism, r2, b, c)
    requires |c.visited| <= budget
    ensures Progress(program, budget, mechanism, r1 + r2, a, c)
  {
    SubsetSize(b.visited, c.visited);
    forall k | ReachedFrom(program, mechanism, r1, k) || ReachedFrom(program, mechanism, r2, k)
      ensures ReachedFrom(program, mechanism, r1 + r2, k)
    {
      var r :| (r in r1 || r in r2) && Reaches(program, mechanism, r, k);
      assert r in r1 + r2;
    }
  }

  /** Part-way through the body of `key`, with the sites in `done` dealt with. */
  ghost predicate Scanning(
    program: Program, budget: nat, mechanism: bool, key: VisitKey, done: seq<Site>, a: Trail, b: Trail)
  {
    && a.visited <= b.visited && key in b.visited && key !in a.visited
    && a.exceeded <= b.exceeded
    && (forall k | k in b.visited && k !in a.visited :: Reaches(program, mechanism, key, k))
    && (b.exceeded == a.exceeded ==>
          && (forall site | site in done && Follows(site, mechanism) :: site.target.value.key in b.visited)
          && forall k | k in b.visited && k !in a.visited && k != key :: Succ(program, mechanism, k) <= b.visited)
    && (b.exceeded != a.exceeded ==>
          && |b.visited| == budget
          && exists k :: Reaches(program, mechanism, key, k) && k !in b.visited)
    && (forall n :: n in b.nodes <==>
          || n in a.nodes
          || (exists site :: site in done && site.discovers == Some(n))
          || exists k :: k in b.visited && k !in a.visited && k != key && n in Discovers(program, k))
  }

  lemma ScanningDone(program: Program, budget: nat, mechanism: bool, key: VisitKey, a: Trail, b: Trail)
    requires Scanning(program, budget, mechanism, key, SitesOf(program(key)), a, b)
    ensures Progress(program, budget, mechanism, {key}, a, b)
  {
    assert forall k | Reaches(program, mechanism, key, k) :: ReachedFrom(program, mechanism, {key}, k);
  }

  /** Dealing with one more site: record its node, then walk its target if it is followed. */
  lemma ScanningStep(
    program: Program, budget: nat, mechanism: bool, key: VisitKey, done: seq<Site>, site: Site,
    a: Trail, b: Trail, c: Trail)
    requires Scanning(program, budget, mechanism, key, done, a, b)
    requires site in SitesOf(program(key)) && |c.visited| <= budget
    requires var b1 := Noted(b, site);
             if Follows(site, mechanism)
             then Progress(program, budget, mechanism, {site.target.value.key}, b1, c)
             else c == b1
    ensures Scanning(program, budget, mechanism, key, done + [site], a, c)
  {
    SubsetSize(b.visited, c.visited);
    if Follows(site, mechanism) {
      var target := site.target.value.key;
      assert target in Succ(program, mechanism, key);
      forall k | ReachedFrom(program, mechanism, {target}, k)
        ensures Reaches(program, mechanism, key, k)
      {
        ReachesVia(program, mechanism, key, target, k);
      }
    }
    ScanningNodes(program, budget, mechanism, key, done, site, a, b, c);
  }

  lemma ScanningNodes(
    program: Program, budget: nat, mechanism: bool, key: VisitKey, done: seq<Site>, site: Site,
    a: Trail, b: Trail, c: Trail)
    requires Scanning(program, budget, mechanism, key, done, a, b)
    requires var b1 := Noted(b, site);
             if Follows(site, mechanism)
             then Progress(program, budget, mechanism, {site.target.value.key}, b1, c)
             else c == b1
    ensures forall n :: n in c.nodes <==>
              || n in a.nodes
              || (exists s :: s in done + [site] && s.discovers == Some(n))
              || exists k :: k in c.visited && k !in a.visited && k != key && n in Discovers(program, k)
  {
    assert forall s :: s in done + [site] <==> s in done || s == site;
    var b1 := Noted(b, site);
    assert forall n :: n in b1.nodes <==> n in b.nodes || site.discovers == Some(n);
  }

  function AddNode(nodes: seq<string>, n: string): seq<string> {
    if n in nodes then nodes else nodes + [n]
  }

  function Noted(t: Trail, site: Site): Trail {
    match site.discovers
    case None => t
    case Some(n) => t.(nodes := AddNode(t.nodes, n))
  }

  function SubTag(tag: string, callee: string): string {
    tag + " -> " + callee
  }

  lemma VisitedAlready(program: Program, budget: nat, mechanism: bool, key: VisitKey, a: Trail)
    requires key in a.visited
    ensures Progress(program, budget, mechanism, {key}, a, a)
  {
  }

  lemma BudgetExhausted(program: Program, budget: nat, mechanism: bool, key: VisitKey, a: Trail, tag: string)
    requires key !in a.visited && |a.visited| == budget
    ensures Progress(program, budget, mechanism, {key}, a, a.(exceeded := a.exceeded + [tag]))
  {
    ReachesSelf(program, mechanism, key);
    assert ReachedFrom(program, mechanism, {key}, key);
  }

  lemma ScanningStart(program: Program, budget: nat, mechanism: bool, key: VisitKey, a: Trail)
    requires key !in a.visited
    ensures Scanning(program, budget, mechanism, key, [], a, a.(visited := a.visited + {key}))
  {
    ReachesSelf(program, mechanism, key);
  }

  /** Each visited key was entered once, and all its records are in, or in `owed`. */
  ghost predicate Accounts(
    program: Program, visited: set<VisitKey>, scanned: seq<(VisitKey, string)>,
    records: seq<CallRecord>, owed: multiset<CallRecord>)
  {
    && |scanned| == |visited|
    && (forall i | 0 <= i < |scanned| :: scanned[i].0 in visited)
    && (forall i, j | 0 <= i < j < |scanned| :: scanned[i].0 != scanned[j].0)
    && multiset(records) + owed == Contribution(program, scanned)
  }

  /** The labels of the bodies entered whose source cannot be read, in order. */
  function Unreadable(program: Program, scanned: seq<(VisitKey, string)>): seq<string> {
    if scanned == [] then []
    else
      var (k, tag) := scanned[|scanned| - 1];
      Unreadable(program, scanned[..|scanned| - 1]) + if program(k).NoSource? then [tag] else []
  }

  lemma UnreadableStep(program: Program, scanned: seq<(VisitKey, string)>, key: VisitKey, tag: string)
    ensures Unreadable(program, scanned + [(key, tag)]) ==
            Unreadable(program, scanned) + if program(key).NoSource? then [tag] else []
  {
    var longer := scanned + [(key, tag)];
    assert longer[..|longer| - 1] == scanned;
  }

  lemma EnterAccounts(
    program: Program, visited: set<VisitKey>, scanned: seq<(VisitKey, string)>,
    records: seq<CallRecord>, owed: multiset<CallRecord>, key: VisitKey, tag: string)
    requires Accounts(program, visited, scanned, records, owed) && key !in visited
    ensures Accounts(program, visited + {key}, scanned + [(key, tag)], records,
                     owed + RecordsOf(SitesOf(program(key)), tag))
  {
    var longer := scanned + [(key, tag)];
    assert longer[..|longer| - 1] == scanned;
    assert forall i | 0 <= i < |scanned| :: longer[i] == scanned[i];
  }

  lemma PayAccounts(
    program: Program, visited: set<VisitKey>, scanned: seq<(VisitKey, string)>,
    records: seq<CallRecord>, owed: multiset<CallRecord>, site: Site, tag: string)
    requires Accounts(program, visited, scanned, records, RecordOf(site, tag) + owed)
    ensures Accounts(program, visited, scanned, Recorded(records, site, tag), owed)
  {
  }

  lemma OwedSplits(sites: seq<Site>, i: nat, tag: string, owed: multiset<CallRecord>)
    requires i < |sites|
    ensures owed + RecordsOf(sites[i..], tag) == RecordOf(sites[i], tag) + (owed + RecordsOf(sites[i + 1..], tag))
    ensures sites[..i] + [sites[i]] == sites[..i + 1]
  {
    assert sites[i..][0] == sites[i] && sites[i..][1..] == sites[i + 1..];
  }

  lemma NothingOwed(sites: seq<Site>, tag: string, owed: multiset<CallRecord>)
    ensures sites[0..] == sites && sites[..0] == [] && sites[..|sites|] == sites
    ensures owed + RecordsOf(sites[|sites|..], tag) == owed
  {
  }

  function Recorded(records: seq<CallRecord>, site: Site, tag: string): seq<CallRecord> {
    match site.verdict
    case None => records
    case Some(category) => records + [CallRecord(tag, site.callee, site.implicitly, category)]
  }

  // ---------- The walker ----------

  class StaticWalker {
    const program: Program
    const budget: nat
    var visited: set<VisitKey>
    var callRecords: seq<CallRecord>
    var depthExceeded: seq<string>
    var sitesWithoutSource: seq<string>
    var unifiedNodes: seq<string>
    ghost var scanned: seq<(VisitKey, string)>

    constructor (program: Program, budget: nat)
      ensures this.program == program && this.budget == budget
      ensures CurrentTrail() == Trail({}, [], []) && callRecords == []
      ensures Valid(multiset{})
    {
      this.program, this.budget := program, budget;
      visited, callRecords, depthExceeded, sitesWithoutSource, unifiedNodes := {}, [], [], [], [];
      scanned := [];
    }

    ghost function CurrentTrail(): Trail
      reads this
    {
      Trail(visited, depthExceeded, unifiedNodes)
    }

    ghost predicate Valid(owed: multiset<CallRecord>)
      reads this
    {
      && |visited| <= budget && Accounts(program, visited, scanned, callRecords, owed)
      && sitesWithoutSource == Unreadable(program, scanned)
    }

    /** `owed` is what enclosing, unfinished bodies have still to record. */
    method Walk(key: VisitKey, tag: string, mechanism: bool, ghost owed: multiset<CallRecord>)
      requires Valid(owed)
      modifies this
      ensures Valid(owed)
      ensures Progress(program, budget, mechanism, {key}, old(CurrentTrail()), CurrentTrail())
      decreases budget - |visited|, 1
    {
      ghost var a := CurrentTrail();
      if key in visited {
        VisitedAlready(program, budget, mechanism, key, a);
        return;
      }
      if |visited| >= budget {
        BudgetExhausted(program, budget, mechanism, key, a, tag);
        depthExceeded := depthExceeded + [tag];
        return;
      }
      ScanningStart(program, budget, mechanism, key, a);
      Enter(key, tag, owed);
      ScanBody(key, tag, mechanism, owed, a);
      ScanningDone(program, budget, mechanism, key, a, CurrentTrail());
    }

    /** Marks the key visited, and notes a body whose source cannot be read. */
    method Enter(key: VisitKey, tag: string, ghost owed: multiset<CallRecord>)
      requires Valid(owed) && key !in visited && |visited| < budget
      modifies this
      ensures Valid(owed + RecordsOf(SitesOf(program(key)), tag))
      ensures CurrentTrail() == old(CurrentTrail()).(visited := old(visited) + {key})
    {
      EnterAccounts(program, visited, scanned, callRecords, owed, key, tag);
      UnreadableStep(program, scanned, key, tag);
      visited := visited + {key};
      scanned := scanned + [(key, tag)];
      if program(key).NoSource? {
        sitesWithoutSource := sitesWithoutSource + [tag];
      }
    }

    method ScanBody(key: VisitKey, tag: string, mechanism: bool,
                    ghost owed: multiset<CallRecord>, ghost a: Trail)
      requires Valid(owed + RecordsOf(SitesOf(program(key)), tag))
      requires Scanning(program, budget, mechanism, key, [], a, CurrentTrail())
      modifies this
      ensures Valid(owed)
      ensures Scanning(program, budget, mechanism, key, SitesOf(program(key)), a, CurrentTrail())
      decreases budget - |visited|, 2
    {
      var sites := SitesOf(program(key));
      ghost var entered, done, pending := |visited|, [], owed + RecordsOf(sites, tag);
      NothingOwed(sites, tag, owed);
      for i := 0 to |sites|
        invariant entered <= |visited|
        invariant pending == owed + RecordsOf(sites[i..], tag) && done == sites[..i]
        invariant Valid(pending)
        invariant Scanning(program, budget, mechanism, key, done, a, CurrentTrail())
      {
        OwedSplits(sites, i, tag, owed);
        pending := owed + RecordsOf(sites[i + 1..], tag);
        ScanSite(key, tag, sites[i], mechanism, pending, done, a);
        done := done + [sites[i]];
      }
    }

    method ScanSite(key: VisitKey, tag: string, site: Site, mechanism: bool,
                    ghost owed: multiset<CallRecord>, ghost done: seq<Site>, ghost a: Trail)
      requires site in SitesOf(program(key))
      requires Valid(RecordOf(site, tag) + owed)
      requires Scanning(program, budget, mechanism, key, done, a, CurrentTrail())
      modifies this
      ensures Valid(owed) && |old(visited)| <= |visited|
      ensures Scanning(program, budget, mechanism, key, done + [site], a, CurrentTrail())
      decreases budget - |visited|, 2, 0
    {
      ghost var b := CurrentTrail();
      PayAccounts(program, visited, scanned, callRecords, owed, site, tag);
      if site.verdict.Some? {
        callRecords := callRecords + [CallRecord(tag, site.callee, site.implicitly, site.verdict.value)];
      }
      if site.discovers.Some? {
        unifiedNodes := AddNode(unifiedNodes, site.discovers.value);
      }
      assert CurrentTrail() == Noted(b, site);
      if Follows(site, mechanism) {
        Walk(site.target.value.key, SubTag(tag, site.callee), mechanism, owed);
      }
      SubsetSize(old(visited), visited);
      ScanningStep(program, budget, mechanism, key, done, site, a, b, CurrentTrail());
    }
  }
}
