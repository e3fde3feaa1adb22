/** app/bootstrap.py, app/preflight.py and the derived fields of app/models.py. */
module Bootstrap {
  import opened Wrappers
  import opened Planner

  datatype PreflightEntry = PreflightEntry(componentId: string, serviceKey: string, resolved: bool)

  /** The counts are derived from `entries`, never supplied. */
  datatype PreflightReport = PreflightReport(
    entries: seq<PreflightEntry>, totalChecks: nat, passedChecks: nat, failedChecks: int)

  datatype LifecyclePlan = LifecyclePlan(startOrder: seq<string>, stopOrder: seq<string>)

  datatype BootstrapError =
    | GraphInvalid | ServiceKeyInvalid | FactoryFailed | RegistrationFailed | PreflightFailed

  datatype BootstrapResult =
    | Failed(error: BootstrapError)
    | Succeeded(plan: seq<Entry>, report: PreflightReport,
                registeredIds: seq<string>, lifecycle: LifecyclePlan)

  /**
   * The outside world of one run: the two allow-lists, whether the container
   * factory raises, and how the candidate answers. An answer may depend on
   * everything done to the candidate before.
   */
  datatype World = World(
    knownIds: set<string>,
    safeKeys: set<string>,
    factoryOk: bool,
    registers: (seq<string>, string) -> bool,
    resolves: (seq<string>, seq<PreflightEntry>, string) -> bool)

  function Passed(entries: seq<PreflightEntry>): nat {
    if entries == [] then 0
    else Passed(entries[..|entries| - 1]) + if entries[|entries| - 1].resolved then 1 else 0
  }

  function MakeReport(entries: seq<PreflightEntry>): PreflightReport {
    PreflightReport(entries, |entries|, Passed(entries), |entries| - Passed(entries))
  }

  function Reversed(s: seq<string>): (r: seq<string>)
    ensures |r| == |s|
    ensures forall i | 0 <= i < |s| :: r[i] == s[|s| - 1 - i]
  {
    if s == [] then [] else [s[|s| - 1]] + Reversed(s[..|s| - 1])
  }

  function MakeLifecycle(start: seq<string>, stop: seq<string>): Option<LifecyclePlan> {
    if stop != Reversed(start) then None else Some(LifecyclePlan(start, stop))
  }

  /** One check per declared service key, in plan order; nothing invented, nothing skipped. */
  function Declared(plan: seq<Entry>): seq<(string, string)> {
    if plan == [] then []
    else
      var e := plan[|plan| - 1];
      Declared(plan[..|plan| - 1]) + Labelled(e.componentId, e.serviceKeys)
  }

  function Labelled(id: string, keys: seq<string>): (r: seq<(string, string)>)
    ensures |r| == |keys| && forall i | 0 <= i < |keys| :: r[i] == (id, keys[i])
  {
    seq(|keys|, i requires 0 <= i < |keys| => (id, keys[i]))
  }

  ghost predicate KeysSafe(plan: seq<Entry>, safeKeys: set<string>) {
    forall e, k | e in plan && k in e.serviceKeys :: k in safeKeys
  }

  ghost predicate AllRegister(w: World, ids: seq<string>) {
    forall i | 0 <= i < |ids| :: w.registers(ids[..i], ids[i])
  }

  /** The entries record exactly the candidate's answer to each declared check. */
  ghost predicate Answers(w: World, ids: seq<string>, checks: seq<(string, string)>, entries: seq<PreflightEntry>) {
    && |entries| == |checks|
    && forall i | 0 <= i < |checks| ::
         && entries[i].componentId == checks[i].0
         && entries[i].serviceKey == checks[i].1
         && entries[i].resolved == w.resolves(ids, entries[..i], checks[i].1)
  }

  lemma {:induction false} PassedCountsAll(entries: seq<PreflightEntry>)
    ensures Passed(entries) <= |entries|
    ensures Passed(entries) == |entries| <==> forall e | e in entries :: e.resolved
  {
    if entries != [] {
      var front := entries[..|entries| - 1];
      PassedCountsAll(front);
      assert entries == front + [entries[|entries| - 1]];
      assert forall e :: e in entries <==> e in front || e == entries[|entries| - 1];
    }
  }

  method ValidateServiceKeys(plan: seq<Entry>, safeKeys: set<string>) returns (ok: bool)
    ensures ok <==> KeysSafe(plan, safeKeys)
  {
    for i := 0 to |plan|
      invariant forall e, k | e in plan[..i] && k in e.serviceKeys :: k in safeKeys
    {
      var keys := plan[i].serviceKeys;
      for j := 0 to |keys|
        invariant forall k | k in keys[..j] :: k in safeKeys
      {
        if keys[j] !in safeKeys {
          assert plan[i] in plan && keys[j] in plan[i].serviceKeys;
          return false;
        }
        assert keys[..j + 1] == keys[..j] + [keys[j]];
      }
      assert keys[..|keys|] == keys;
      assert plan[..i + 1] == plan[..i] + [plan[i]];
    }
    assert plan[..|plan|] == plan;
    return true;
  }

  /** Asks for every declared key in plan order; no answer stops the pass. */
  method RunPreflight(w: World, ids: seq<string>, plan: seq<Entry>) returns (report: PreflightReport)
    ensures Answers(w, ids, Declared(plan), report.entries)
    ensures report == MakeReport(report.entries)
  {
    var entries: seq<PreflightEntry> := [];
    for i := 0 to |plan|
      invariant Answers(w, ids, Declared(plan[..i]), entries)
    {
      var e := plan[i];
      for j := 0 to |e.serviceKeys|
        invariant Answers(w, ids, Declared(plan[..i]) + Labelled(e.componentId, e.serviceKeys)[..j], entries)
      {
        var key := e.serviceKeys[j];
        var entry := PreflightEntry(e.componentId, key, w.resolves(ids, entries, key));
        AnswersExtend(w, ids, Declared(plan[..i]) + Labelled(e.componentId, e.serviceKeys)[..j],
                      entries, (e.componentId, key), entry);
        entries := entries + [entry];
        assert Labelled(e.componentId, e.serviceKeys)[..j + 1] ==
               Labelled(e.componentId, e.serviceKeys)[..j] + [(e.componentId, key)];
        assert Declared(plan[..i]) + Labelled(e.componentId, e.serviceKeys)[..j + 1] ==
               Declared(plan[..i]) + Labelled(e.componentId, e.serviceKeys)[..j] + [(e.componentId, key)];
      }
      assert Labelled(e.componentId, e.serviceKeys)[..|e.serviceKeys|] == Labelled(e.componentId, e.serviceKeys);
      assert plan[..i + 1][..i] == plan[..i];
    }
    assert plan[..|plan|] == plan;
    report := MakeReport(entries);
  }

  lemma AnswersExtend(w: World, ids: seq<string>, checks: seq<(string, string)>, entries: seq<PreflightEntry>,
                      check: (string, string), entry: PreflightEntry)
    requires Answers(w, ids, checks, entries)
    requires entry == PreflightEntry(check.0, check.1, w.resolves(ids, entries, check.1))
    ensures Answers(w, ids, checks + [check], entries + [entry])
  {
    var more := entries + [entry];
    assert forall i | 0 <= i <= |entries| :: more[..i] == entries[..i];
    assert entries[..|entries|] == entries;
  }

  method RunDryRunBootstrap(w: World, m: Manifest) returns (r: BootstrapResult, factoryCalls: nat)
    ensures exists planned :: IsPlan(m, w.knownIds, planned) && IsBootstrap(w, planned, r, factoryCalls)
  {
    factoryCalls := 0;
    var planned := Plan(m, w.knownIds);
    if planned.Failure? {
      return Failed(GraphInvalid), factoryCalls;
    }
    var safe := ValidateServiceKeys(planned.value, w.safeKeys);
    if !safe {
      return Failed(ServiceKeyInvalid), factoryCalls;
    }
    factoryCalls := factoryCalls + 1;
    if !w.factoryOk {
      return Failed(FactoryFailed), factoryCalls;
    }
    r := UseCandidate(w, planned.value);
  }

  /** Registration, preflight and artifacts, once the factory has produced a candidate. */
  method UseCandidate(w: World, plan: seq<Entry>) returns (r: BootstrapResult)
    ensures IsUse(w, plan, r)
  {
    var registered: seq<string> := [];
    for i := 0 to |plan|
      invariant registered == OrderOf(plan)[..i]
      invariant forall j | 0 <= j < i :: w.registers(OrderOf(plan)[..j], OrderOf(plan)[j])
    {
      if !w.registers(registered, plan[i].componentId) {
        return Failed(RegistrationFailed);
      }
      registered := registered + [plan[i].componentId];
    }
    assert registered == OrderOf(plan);
    var report := RunPreflight(w, registered, plan);
    PassedCountsAll(report.entries);
    if report.failedChecks > 0 {
      return Failed(PreflightFailed);
    }
    var lifecycle := MakeLifecycle(registered, Reversed(registered));
    r := Succeeded(plan, report, registered, lifecycle.value);
  }

  /** What one run may return, stage by stage, given the planner's answer. */
  ghost predicate IsBootstrap(
    w: World, planned: Result<seq<Entry>, PlanningError>, r: BootstrapResult, factoryCalls: nat)
  {
    if planned.Failure? then r == Failed(GraphInvalid) && factoryCalls == 0
    else if !KeysSafe(planned.value, w.safeKeys) then r == Failed(ServiceKeyInvalid) && factoryCalls == 0
    else
      && factoryCalls == 1
      && if !w.factoryOk then r == Failed(FactoryFailed) else IsUse(w, planned.value, r)
  }

  ghost predicate IsUse(w: World, plan: seq<Entry>, r: BootstrapResult) {
    var ids := OrderOf(plan);
    if !AllRegister(w, ids) then r == Failed(RegistrationFailed)
    else exists entries :: Answers(w, ids, Declared(plan), entries) && r == Outcome(plan, entries)
  }

  function Outcome(plan: seq<Entry>, entries: seq<PreflightEntry>): BootstrapResult {
    var ids := OrderOf(plan);
    if Passed(entries) < |entries| then Failed(PreflightFailed)
    else Succeeded(plan, MakeReport(entries), ids, LifecyclePlan(ids, Reversed(ids)))
  }

  ghost function AllPassed(checks: seq<(string, string)>): seq<PreflightEntry> {
    seq(|checks|, i requires 0 <= i < |checks| => PreflightEntry(checks[i].0, checks[i].1, true))
  }

  /** The i-th answer is a function of the earlier ones, so a run has only one transcript. */
  lemma {:induction false} AnswersUnique(
    w: World, ids: seq<string>, checks: seq<(string, string)>,
    a: seq<PreflightEntry>, b: seq<PreflightEntry>, n: nat)
    requires Answers(w, ids, checks, a) && Answers(w, ids, checks, b) && n <= |checks|
    ensures a[..n] == b[..n]
  {
    if n > 0 {
      AnswersUnique(w, ids, checks, a, b, n - 1);
      assert a[..n] == a[..n - 1] + [a[n - 1]] && b[..n] == b[..n - 1] + [b[n - 1]];
    }
  }

  /** All or nothing: artifacts exist exactly when every stage goes through. */
  lemma {:induction false} AllOrNothing(w: World, m: Manifest, planned: Result<seq<Entry>, PlanningError>,
                     r: BootstrapResult, factoryCalls: nat)
    requires IsPlan(m, w.knownIds, planned) && IsBootstrap(w, planned, r, factoryCalls)
    ensures factoryCalls == 1 <==>
            WellFormed(m, w.knownIds) && Acyclic(m) && KeysSafe(planned.value, w.safeKeys)
    ensures factoryCalls <= 1
    ensures r.Succeeded? <==>
            && factoryCalls == 1 && w.factoryOk && EveryIdRegisters(w, OrderOf(planned.value))
            && EveryKeyResolves(w, OrderOf(planned.value), Declared(planned.value))
    ensures r.Succeeded? ==>
            && IsOrdering(m, r.plan) && r.registeredIds == OrderOf(r.plan)
            && r.report.entries == AllPassed(Declared(r.plan)) && r.report.failedChecks == 0
  {
    if planned.Success? && KeysSafe(planned.value, w.safeKeys) && w.factoryOk
       && AllRegister(w, OrderOf(planned.value)) {
      SucceedsWhenAllPass(w, planned.value, r);
      AllPassedAnswers(w, OrderOf(planned.value), Declared(planned.value));
    }
  }

  /** Each failure names the first stage that did not go through. */
  lemma FailureNamesStage(w: World, m: Manifest, planned: Result<seq<Entry>, PlanningError>,
                          r: BootstrapResult, factoryCalls: nat)
    requires IsPlan(m, w.knownIds, planned) && IsBootstrap(w, planned, r, factoryCalls)
    ensures r == Failed(GraphInvalid) <==> planned.Failure?
    ensures r == Failed(ServiceKeyInvalid) <==>
              planned.Success? && exists e, k :: e in planned.value && k in e.serviceKeys && k !in w.safeKeys
    ensures r == Failed(FactoryFailed) <==> factoryCalls == 1 && !w.factoryOk
    ensures r == Failed(RegistrationFailed) <==>
              factoryCalls == 1 && w.factoryOk && !EveryIdRegisters(w, OrderOf(planned.value))
    ensures r == Failed(PreflightFailed) <==>
              && factoryCalls == 1 && w.factoryOk && EveryIdRegisters(w, OrderOf(planned.value))
              && !EveryKeyResolves(w, OrderOf(planned.value), Declared(planned.value))
  {
    if planned.Success? && KeysSafe(planned.value, w.safeKeys) && w.factoryOk
       && AllRegister(w, OrderOf(planned.value)) {
      SucceedsWhenAllPass(w, planned.value, r);
      AllPassedAnswers(w, OrderOf(planned.value), Declared(planned.value));
    }
  }

  /** Each component registers after the ones before it in the plan. */
  ghost predicate EveryIdRegisters(w: World, ids: seq<string>) {
    forall i | 0 <= i < |ids| :: w.registers(ids[..i], ids[i])
  }

  /** Each declared key resolves once all earlier ones have. */
  ghost predicate EveryKeyResolves(w: World, ids: seq<string>, checks: seq<(string, string)>) {
    forall i | 0 <= i < |checks| :: w.resolves(ids, AllPassed(checks)[..i], checks[i].1)
  }

  lemma AllPassedAnswers(w: World, ids: seq<string>, checks: seq<(string, string)>)
    ensures Answers(w, ids, checks, AllPassed(checks)) <==> EveryKeyResolves(w, ids, checks)
  {
  }

  lemma SucceedsWhenAllPass(w: World, plan: seq<Entry>, r: BootstrapResult)
    requires IsUse(w, plan, r) && AllRegister(w, OrderOf(plan))
    ensures r.Succeeded? <==> Answers(w, OrderOf(plan), Declared(plan), AllPassed(Declared(plan)))
    ensures r.Succeeded? ==> r.report.entries == AllPassed(Declared(plan)) && r.report.failedChecks == 0
  {
    var ids, checks := OrderOf(plan), Declared(plan);
    var entries :| Answers(w, ids, checks, entries) && r == Outcome(plan, entries);
    AllPassedIsTheTranscript(w, ids, checks, entries);
  }

  lemma AllPassedIsTheTranscript(w: World, ids: seq<string>, checks: seq<(string, string)>, entries: seq<PreflightEntry>)
    requires Answers(w, ids, checks, entries)
    ensures Passed(entries) <= |entries|
    ensures Passed(entries) == |entries| <==> Answers(w, ids, checks, AllPassed(checks))
    ensures Passed(entries) == |entries| ==> entries == AllPassed(checks)
  {
    PassedCountsAll(entries);
    if Passed(entries) == |entries| {
      assert forall i | 0 <= i < |entries| :: entries[i] in entries;
      assert entries == AllPassed(checks);
    } else if Answers(w, ids, checks, AllPassed(checks)) {
      var e :| e in entries && !e.resolved;
      var i :| 0 <= i < |entries| && entries[i] == e;
      AnswersUnique(w, ids, checks, entries, AllPassed(checks), i);
    }
  }

  /** A component starts after everything it depends on and stops before all of it. */
  lemma {:induction false} StartsAfterStopsBefore(w: World, m: Manifest, planned: Result<seq<Entry>, PlanningError>,
                               r: BootstrapResult, factoryCalls: nat, d: Dependency)
    requires IsPlan(m, w.knownIds, planned) && IsBootstrap(w, planned, r, factoryCalls)
    requires r.Succeeded? && d in m.dependencies
    ensures Precedes(r.lifecycle.startOrder, d.dependsOn, d.componentId)
    ensures Precedes(r.lifecycle.stopOrder, d.componentId, d.dependsOn)
  {
    SucceededLifecycle(w, m, planned, r, factoryCalls);
    LifecycleOrders(m, r.lifecycle.startOrder, d);
  }

  /** Both occur, and every `a` is strictly before every `b`. */
  ghost predicate Precedes(s: seq<string>, a: string, b: string) {
    a in s && b in s && forall i, j | 0 <= i < |s| && 0 <= j < |s| && s[i] == a && s[j] == b :: i < j
  }

  lemma SucceededLifecycle(w: World, m: Manifest, planned: Result<seq<Entry>, PlanningError>,
                           r: BootstrapResult, factoryCalls: nat)
    requires IsPlan(m, w.knownIds, planned) && IsBootstrap(w, planned, r, factoryCalls) && r.Succeeded?
    ensures Topological(m, r.lifecycle.startOrder) && References(m)
    ensures r.lifecycle.stopOrder == Reversed(r.lifecycle.startOrder)
  {
  }

  lemma LifecycleOrders(m: Manifest, start: seq<string>, d: Dependency)
    requires Topological(m, start) && References(m) && d in m.dependencies
    ensures Precedes(start, d.dependsOn, d.componentId)
    ensures Precedes(Reversed(start), d.componentId, d.dependsOn)
  {
    assert d.componentId in start && d.dependsOn in start;
    forall i, j | 0 <= i < |start| && 0 <= j < |start| && start[i] == d.dependsOn && start[j] == d.componentId
      ensures i < j
    {
      var k :| 0 <= k < j && start[k] == d.dependsOn;
    }
    PrecedesReversed(start, d.dependsOn, d.componentId);
  }

  lemma PrecedesReversed(s: seq<string>, a: string, b: string)
    requires Precedes(s, a, b)
    ensures Precedes(Reversed(s), b, a)
  {
    var r, n := Reversed(s), |s|;
    var i :| 0 <= i < n && s[i] == a;
    var j :| 0 <= j < n && s[j] == b;
    assert r[n - 1 - i] == a && r[n - 1 - j] == b;
    forall p, q | 0 <= p < n && 0 <= q < n && r[p] == b && r[q] == a
      ensures p < q
    {
      assert r[p] == s[n - 1 - p] && r[q] == s[n - 1 - q];
    }
  }

  // ---------- The report against the manifest ----------

  /** How often the entries of component `x` declare key `k`. */
  function KeyCount(plan: seq<Entry>, x: string, k: string): nat {
    if plan == [] then 0
    else
      var e := plan[|plan| - 1];
      KeyCount(plan[..|plan| - 1], x, k) + if e.componentId == x then multiset(e.serviceKeys)[k] else 0
  }

  lemma {:induction false} LabelledCount(id: string, keys: seq<string>, x: string, k: string)
    ensures multiset(Labelled(id, keys))[(x, k)] == if x == id then multiset(keys)[k] else 0
  {
    if keys != [] {
      var n := |keys| - 1;
      LabelledCount(id, keys[..n], x, k);
      assert keys == keys[..n] + [keys[n]];
      assert Labelled(id, keys) == Labelled(id, keys[..n]) + [(id, keys[n])];
    }
  }

  lemma {:induction false} DeclaredCount(plan: seq<Entry>, x: string, k: string)
    ensures multiset(Declared(plan))[(x, k)] == KeyCount(plan, x, k)
  {
    if plan != [] {
      var e := plan[|plan| - 1];
      DeclaredCount(plan[..|plan| - 1], x, k);
      LabelledCount(e.componentId, e.serviceKeys, x, k);
    }
  }

  /** Checks come in plan order: an earlier one never belongs to a later component. */
  lemma {:induction false} DeclaredInOrder(plan: seq<Entry>, i: nat, j: nat)
    requires i <= j < |Declared(plan)|
    ensures exists p, q :: 0 <= p <= q < |plan|
              && plan[p].componentId == Declared(plan)[i].0 && plan[q].componentId == Declared(plan)[j].0
  {
    var n := |plan| - 1;
    var front := Declared(plan[..n]);
    if j < |front| {
      DeclaredInOrder(plan[..n], i, j);
      var p, q :| 0 <= p <= q < n
        && plan[..n][p].componentId == front[i].0 && plan[..n][q].componentId == front[j].0;
      assert plan[p].componentId == Declared(plan)[i].0 && plan[q].componentId == Declared(plan)[j].0;
    } else if i < |front| {
      DeclaredInOrder(plan[..n], i, i);
      var p, q :| 0 <= p <= q < n
        && plan[..n][p].componentId == front[i].0 && plan[..n][q].componentId == front[i].0;
      assert plan[p].componentId == Declared(plan)[i].0 && plan[n].componentId == Declared(plan)[j].0;
    } else {
      assert plan[n].componentId == Declared(plan)[i].0 && plan[n].componentId == Declared(plan)[j].0;
    }
  }

  /** Keys are safe in a plan exactly when they are in its manifest. */
  lemma SafeKeysOfManifest(m: Manifest, known: set<string>, plan: seq<Entry>, safe: set<string>)
    requires IsPlan(m, known, Success(plan))
    ensures KeysSafe(plan, safe) <==> forall c, k | c in m.components && k in c.serviceKeys :: k in safe
  {
    if KeysSafe(plan, safe) {
      forall c, k | c in m.components && k in c.serviceKeys
        ensures k in safe
      {
        var i := EntryOfComponent(m, known, plan, c);
        assert plan[i] in plan;
      }
    } else {
      var e, k :| e in plan && k in e.serviceKeys && k !in safe;
      var c := ComponentOfEntry(m, known, plan, e);
    }
  }

  lemma ComponentOfEntry(m: Manifest, known: set<string>, plan: seq<Entry>, e: Entry) returns (c: Component)
    requires IsPlan(m, known, Success(plan)) && e in plan
    ensures c in m.components && c.id == e.componentId && c.serviceKeys == e.serviceKeys
  {
    PlanDescribesManifest(m, known, plan);
    var i :| 0 <= i < |plan| && plan[i] == e;
    assert Describes(m, i, e);
    c :| c in m.components && c.id == e.componentId && c.serviceKeys == e.serviceKeys;
  }

  lemma EntryOfComponent(m: Manifest, known: set<string>, plan: seq<Entry>, c: Component) returns (i: nat)
    requires IsPlan(m, known, Success(plan)) && c in m.components
    ensures i < |plan| && plan[i].componentId == c.id && plan[i].serviceKeys == c.serviceKeys
  {
    PlanDescribesManifest(m, known, plan);
    i :| 0 <= i < |plan| && plan[i].componentId == c.id;
    assert Describes(m, i, plan[i]);
    var d :| d in m.components && d.id == plan[i].componentId && d.serviceKeys == plan[i].serviceKeys;
    SameIdSameComponent(m, c, d);
  }

  lemma SameIdSameComponent(m: Manifest, c: Component, d: Component)
    requires UniqueIds(m) && c in m.components && d in m.components && c.id == d.id
    ensures c == d
  {
    assert ById(m)[c.id] == c && ById(m)[d.id] == d;
  }

  /**
   * A component that declares a key outside the allow-list makes bootstrap fail before the
   * factory is called, whatever else is in the manifest.
   */
  lemma UnsafeKeyStopsBootstrap(
    w: World, m: Manifest, planned: Result<seq<Entry>, PlanningError>, r: BootstrapResult, factoryCalls: nat,
    c: Component, k: string)
    requires IsPlan(m, w.knownIds, planned) && IsBootstrap(w, planned, r, factoryCalls)
    requires c in m.components && k in c.serviceKeys && k !in w.safeKeys
    ensures r.Failed? && factoryCalls == 0
    ensures planned.Success? ==> r == Failed(ServiceKeyInvalid)
  {
    if planned.Success? {
      SafeKeysOfManifest(m, w.knownIds, planned.value, w.safeKeys);
    }
  }

  /** After success the report holds one passed entry per key that each component declares, repeats included. */
  lemma ReportCoversManifest(
    w: World, m: Manifest, planned: Result<seq<Entry>, PlanningError>, r: BootstrapResult, factoryCalls: nat,
    c: Component, k: string)
    requires IsPlan(m, w.knownIds, planned) && IsBootstrap(w, planned, r, factoryCalls) && r.Succeeded?
    requires c in m.components
    ensures multiset(r.report.entries)[PreflightEntry(c.id, k, true)] == multiset(c.serviceKeys)[k]
    ensures r.report.totalChecks == r.report.passedChecks == |r.report.entries| && r.report.failedChecks == 0
    ensures c.id in r.registeredIds && |r.registeredIds| == |m.components|
    ensures r.lifecycle.startOrder == r.registeredIds
  {
    AllOrNothing(w, m, planned, r, factoryCalls);
    PlanDescribesManifest(m, w.knownIds, planned.value);
    var plan := planned.value;
    var i := EntryOfComponent(m, w.knownIds, plan, c);
    AllPassedCount(Declared(plan), c.id, k);
    DeclaredCount(plan, c.id, k);
    KeysOfOneEntry(plan, i, k);
  }

  lemma {:induction false} AllPassedCount(checks: seq<(string, string)>, x: string, k: string)
    ensures multiset(AllPassed(checks))[PreflightEntry(x, k, true)] == multiset(checks)[(x, k)]
  {
    if checks != [] {
      var n := |checks| - 1;
      AllPassedCount(checks[..n], x, k);
      assert checks == checks[..n] + [checks[n]];
      assert AllPassed(checks) == AllPassed(checks[..n]) + [PreflightEntry(checks[n].0, checks[n].1, true)];
    }
  }

  lemma {:induction false} KeysOfOneEntry(plan: seq<Entry>, i: nat, k: string)
    requires i < |plan| && forall p, q | 0 <= p < q < |plan| :: plan[p].componentId != plan[q].componentId
    ensures KeyCount(plan, plan[i].componentId, k) == multiset(plan[i].serviceKeys)[k]
  {
    var n := |plan| - 1;
    if i < n {
      KeysOfOneEntry(plan[..n], i, k);
    } else {
      NoEntryNoKeys(plan[..n], plan[n].componentId, k);
    }
  }

  lemma {:induction false} NoEntryNoKeys(plan: seq<Entry>, x: string, k: string)
    requires forall p | 0 <= p < |plan| :: plan[p].componentId != x
    ensures KeyCount(plan, x, k) == 0
  {
    if plan != [] {
      NoEntryNoKeys(plan[..|plan| - 1], x, k);
    }
  }
}
