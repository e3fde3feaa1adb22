/** audit_harness/trace.py: seeding, `classify_nodes`, and the budget tail of `run_trace`. */
module Trace {
  import opened Wrappers
  import opened FiniteSets
  import opened Walker

  // ---------- Seeding ----------

  ghost function Keys(seeds: seq<(VisitKey, string)>): set<VisitKey> {
    set s | s in seeds :: s.0
  }

  method WalkSeeds(w: StaticWalker, seeds: seq<(VisitKey, string)>, mechanism: bool)
    requires w.Valid(multiset{})
    modifies w
    ensures w.Valid(multiset{})
    ensures Progress(w.program, w.budget, mechanism, Keys(seeds), old(w.CurrentTrail()), w.CurrentTrail())
  {
    KeysEnds(seeds);
    for i := 0 to |seeds|
      invariant w.Valid(multiset{})
      invariant Progress(w.program, w.budget, mechanism, Keys(seeds[..i]), old(w.CurrentTrail()), w.CurrentTrail())
    {
      ghost var b := w.CurrentTrail();
      w.Walk(seeds[i].0, seeds[i].1, mechanism, multiset{});
      ProgressCompose(w.program, w.budget, mechanism, Keys(seeds[..i]), {seeds[i].0},
                      old(w.CurrentTrail()), b, w.CurrentTrail());
      KeysStep(seeds, i);
    }
  }

  lemma KeysStep(seeds: seq<(VisitKey, string)>, i: nat)
    requires i < |seeds|
    ensures Keys(seeds[..i + 1]) == Keys(seeds[..i]) + {seeds[i].0}
  {
    assert seeds[..i + 1] == seeds[..i] + [seeds[i]];
  }

  lemma KeysEnds(seeds: seq<(VisitKey, string)>)
    ensures Keys(seeds[..0]) == {} && Keys(seeds[..|seeds|]) == Keys(seeds)
  {
    assert seeds[..|seeds|] == seeds;
  }

  /** A finite set closed under the followed edges and holding every seed. */
  ghost predicate Encloses(program: Program, mechanism: bool, seeds: seq<(VisitKey, string)>, s: set<VisitKey>) {
    Keys(seeds) <= s && Closed(program, mechanism, s)
  }

  /**
   * From a fresh walker: the budget is exhausted exactly when the reachable keys do not fit
   * it; otherwise what was visited is exactly what is reachable, and it is closed.
   */
  lemma ExhaustedExactlyWhenTooBig(
    program: Program, budget: nat, mechanism: bool, seeds: seq<(VisitKey, string)>, nodes: seq<string>, t: Trail)
    requires Progress(program, budget, mechanism, Keys(seeds), Trail({}, [], nodes), t)
    requires |t.visited| <= budget
    ensures t.exceeded == [] <==> exists s :: Encloses(program, mechanism, seeds, s) && |s| <= budget
    ensures t.exceeded == [] ==> Encloses(program, mechanism, seeds, t.visited)
    ensures t.exceeded == [] ==>
              forall k :: k in t.visited <==> ReachedFrom(program, mechanism, Keys(seeds), k)
  {
    if t.exceeded == [] {
      forall k | ReachedFrom(program, mechanism, Keys(seeds), k)
        ensures k in t.visited
      {
        EnclosesReached(program, mechanism, seeds, t.visited, k);
      }
    } else {
      forall s | Encloses(program, mechanism, seeds, s)
        ensures |s| > budget
      {
        var k :| ReachedFrom(program, mechanism, Keys(seeds), k) && k !in t.visited;
        EnclosesReached(program, mechanism, seeds, s, k);
        forall v | v in t.visited
          ensures v in s
        {
          EnclosesReached(program, mechanism, seeds, s, v);
        }
        SubsetSize(t.visited, s);
      }
    }
  }

  lemma EnclosesReached(
    program: Program, mechanism: bool, seeds: seq<(VisitKey, string)>, s: set<VisitKey>, k: VisitKey)
    requires Encloses(program, mechanism, seeds, s) && ReachedFrom(program, mechanism, Keys(seeds), k)
    ensures k in s
  {
    var r :| r in Keys(seeds) && Reaches(program, mechanism, r, k);
    ClosedHoldsReachable(program, mechanism, s, r, k);
  }

  // ---------- Node classification ----------

  datatype Ctor = Ctor(key: VisitKey, category: Category)

  datatype Factory =
    | MakesClass(field: string, node: string, category: Category)
    | Calls(field: string, key: VisitKey, category: Category)

  /** A class's customised constructors and, for a dataclass, its default factories. */
  datatype ClassInfo = ClassInfo(
    init: Option<Ctor>, new_: Option<Ctor>, postInit: Option<Ctor>, factories: seq<Factory>)

  type Classes = string -> ClassInfo

  datatype NodeRecord = NodeRecord(
    qualname: string, init: Category, new_: Category, postInit: Option<Category>, factories: seq<Category>)
  {
    predicate IsUnresolved() {
      init == Unresolved || new_ == Unresolved || postInit == Some(Unresolved) || Unresolved in factories
    }
  }

  function CategoryOf(c: Option<Ctor>): Category {
    if c.Some? then c.value.category else ProjectSource
  }

  function NodeRecordOf(qn: string, info: ClassInfo): NodeRecord {
    NodeRecord(qn, CategoryOf(info.init), CategoryOf(info.new_),
               if info.postInit.Some? then Some(info.postInit.value.category) else None,
               seq(|info.factories|, i requires 0 <= i < |info.factories| => info.factories[i].category))
  }

  /** No customised constructor and no default factory of the class is unresolved. */
  ghost predicate ClassResolved(info: ClassInfo) {
    && (info.init.Some? ==> info.init.value.category != Unresolved)
    && (info.new_.Some? ==> info.new_.value.category != Unresolved)
    && (info.postInit.Some? ==> info.postInit.value.category != Unresolved)
    && forall f | f in info.factories :: f.category != Unresolved
  }

  lemma UnresolvedExactly(qn: string, info: ClassInfo)
    ensures NodeRecordOf(qn, info).IsUnresolved() <==> !ClassResolved(info)
  {
    var categories := NodeRecordOf(qn, info).factories;
    assert forall i | 0 <= i < |categories| :: categories[i] == info.factories[i].category;
    if f :| f in info.factories && f.category == Unresolved {
      var i :| 0 <= i < |info.factories| && info.factories[i] == f;
      assert categories[i] in categories;
    }
  }

  ghost function CtorKey(c: Option<Ctor>): set<VisitKey> {
    if c.Some? then {c.value.key} else {}
  }

  ghost function FactoryKeys(fs: seq<Factory>): set<VisitKey> {
    set f | f in fs && f.Calls? :: f.key
  }

  ghost function FactoryNodes(fs: seq<Factory>): set<string> {
    set f | f in fs && f.MakesClass? :: f.node
  }

  ghost function CtorKeys(info: ClassInfo): set<VisitKey> {
    CtorKey(info.init) + CtorKey(info.new_) + CtorKey(info.postInit)
  }

  ghost function ClassTargets(info: ClassInfo): set<VisitKey> {
    CtorKeys(info) + FactoryKeys(info.factories)
  }

  ghost function TargetsOf(classes: Classes, nodes: set<string>): set<VisitKey> {
    set n, k | n in nodes && k in ClassTargets(classes(n)) :: k
  }

  ghost function MadeBy(classes: Classes, nodes: set<string>): set<string> {
    set n, m | n in nodes && m in FactoryNodes(classes(n).factories) :: m
  }

  /** `b` is `a` after walking `targets` (no always-followed modules) and adding the nodes `made`. */
  ghost predicate Grown(
    program: Program, budget: nat, targets: set<VisitKey>, made: set<string>, a: Trail, b: Trail)
  {
    && a.visited <= b.visited && |b.visited| <= budget && a.exceeded <= b.exceeded
    && (forall k | k in b.visited && k !in a.visited :: ReachedFrom(program, false, targets, k))
    && (b.exceeded == a.exceeded ==>
          && targets <= b.visited
          && forall k | k in b.visited && k !in a.visited :: Succ(program, false, k) <= b.visited)
    && (b.exceeded != a.exceeded ==>
          && |b.visited| == budget
          && exists k :: ReachedFrom(program, false, targets, k) && k !in b.visited)
    && (forall n :: n in b.nodes <==>
          || n in a.nodes || n in made
          || exists k :: k in b.visited && k !in a.visited && n in Discovers(program, k))
  }

  lemma GrownCompose(
    program: Program, budget: nat, t1: set<VisitKey>, m1: set<string>, t2: set<VisitKey>, m2: set<string>,
    a: Trail, b: Trail, c: Trail)
    requires Grown(program, budget, t1, m1, a, b) && Grown(program, budget, t2, m2, b, c)
    ensures Grown(program, budget, t1 + t2, m1 + m2, a, c)
  {
    SubsetSize(b.visited, c.visited);
    forall k
      ensures ReachedFrom(program, false, t1 + t2, k) <==>
                ReachedFrom(program, false, t1, k) || ReachedFrom(program, false, t2, k)
    {
      ReachedFromUnion(program, t1, t2, k);
    }
  }

  lemma ReachedFromUnion(program: Program, t1: set<VisitKey>, t2: set<VisitKey>, k: VisitKey)
    ensures ReachedFrom(program, false, t1 + t2, k) <==>
              ReachedFrom(program, false, t1, k) || ReachedFrom(program, false, t2, k)
  {
    if r :| (r in t1 || r in t2) && Reaches(program, false, r, k) {
      assert r in t1 + t2;
    }
  }

  lemma ProgressIsGrown(
    program: Program, budget: nat, roots: set<VisitKey>, a: Trail, b: Trail)
    requires Progress(program, budget, false, roots, a, b) && |b.visited| <= budget
    ensures Grown(program, budget, roots, {}, a, b)
  {
  }

  method WalkCtor(w: StaticWalker, ctor: Option<Ctor>, tag: string)
    requires w.Valid(multiset{})
    modifies w
    ensures w.Valid(multiset{})
    ensures Grown(w.program, w.budget, CtorKey(ctor), {}, old(w.CurrentTrail()), w.CurrentTrail())
  {
    if ctor.Some? {
      w.Walk(ctor.value.key, tag, false, multiset{});
      ProgressIsGrown(w.program, w.budget, CtorKey(ctor), old(w.CurrentTrail()), w.CurrentTrail());
    }
  }

  method WalkFactory(w: StaticWalker, f: Factory, tag: string)
    requires w.Valid(multiset{})
    modifies w
    ensures w.Valid(multiset{})
    ensures Grown(w.program, w.budget, FactoryKeys([f]), FactoryNodes([f]), old(w.CurrentTrail()), w.CurrentTrail())
  {
    assert f in [f];
    match f
    case MakesClass(_, node, _) =>
      assert FactoryNodes([f]) == {node} && FactoryKeys([f]) == {};
      w.unifiedNodes := AddNode(w.unifiedNodes, node);
    case Calls(field, key, _) =>
      assert FactoryNodes([f]) == {} && FactoryKeys([f]) == {key};
      w.Walk(key, tag + "." + field, false, multiset{});
      ProgressIsGrown(w.program, w.budget, {key}, old(w.CurrentTrail()), w.CurrentTrail());
  }

  method WalkFactories(w: StaticWalker, fs: seq<Factory>, tag: string)
    requires w.Valid(multiset{})
    modifies w
    ensures w.Valid(multiset{})
    ensures Grown(w.program, w.budget, FactoryKeys(fs), FactoryNodes(fs), old(w.CurrentTrail()), w.CurrentTrail())
  {
    for i := 0 to |fs|
      invariant w.Valid(multiset{})
      invariant Grown(w.program, w.budget, FactoryKeys(fs[..i]), FactoryNodes(fs[..i]),
                      old(w.CurrentTrail()), w.CurrentTrail())
    {
      ghost var b := w.CurrentTrail();
      WalkFactory(w, fs[i], tag);
      GrownCompose(w.program, w.budget, FactoryKeys(fs[..i]), FactoryNodes(fs[..i]),
                   FactoryKeys([fs[i]]), FactoryNodes([fs[i]]), old(w.CurrentTrail()), b, w.CurrentTrail());
      FactoriesAppend(fs, i);
    }
    assert fs[..|fs|] == fs;
  }

  lemma FactoriesAppend(fs: seq<Factory>, i: nat)
    requires i < |fs|
    ensures FactoryKeys(fs[..i + 1]) == FactoryKeys(fs[..i]) + FactoryKeys([fs[i]])
    ensures FactoryNodes(fs[..i + 1]) == FactoryNodes(fs[..i]) + FactoryNodes([fs[i]])
  {
    assert fs[..i + 1] == fs[..i] + [fs[i]];
    assert forall f :: f in fs[..i + 1] <==> f in fs[..i] || f in [fs[i]];
  }

  method WalkCtors(w: StaticWalker, qn: string, info: ClassInfo)
    requires w.Valid(multiset{})
    modifies w
    ensures w.Valid(multiset{})
    ensures Grown(w.program, w.budget, CtorKeys(info), {}, old(w.CurrentTrail()), w.CurrentTrail())
  {
    ghost var a := w.CurrentTrail();
    WalkCtor(w, info.init, "__init__:" + qn);
    ghost var b := w.CurrentTrail();
    WalkCtor(w, info.new_, "__new__:" + qn);
    ghost var c := w.CurrentTrail();
    WalkCtor(w, info.postInit, "__post_init__:" + qn);
    CtorsCompose(w.program, w.budget, info, a, b, c, w.CurrentTrail());
  }

  lemma CtorsCompose(program: Program, budget: nat, info: ClassInfo, a: Trail, b: Trail, c: Trail, d: Trail)
    requires Grown(program, budget, CtorKey(info.init), {}, a, b)
    requires Grown(program, budget, CtorKey(info.new_), {}, b, c)
    requires Grown(program, budget, CtorKey(info.postInit), {}, c, d)
    ensures Grown(program, budget, CtorKeys(info), {}, a, d)
  {
    var none: set<string> := {};
    assert none + none == none;
    GrownCompose(program, budget, CtorKey(info.init), {}, CtorKey(info.new_), {}, a, b, c);
    GrownCompose(program, budget, CtorKey(info.init) + CtorKey(info.new_), {}, CtorKey(info.postInit), {}, a, c, d);
  }

  /** One node: its constructors in order, then its default factories. */
  method ClassifyNode(w: StaticWalker, qn: string, info: ClassInfo) returns (record: NodeRecord)
    requires w.Valid(multiset{})
    modifies w
    ensures w.Valid(multiset{})
    ensures record == NodeRecordOf(qn, info) && (record.IsUnresolved() <==> !ClassResolved(info))
    ensures Grown(w.program, w.budget, ClassTargets(info), FactoryNodes(info.factories),
                  old(w.CurrentTrail()), w.CurrentTrail())
  {
    ghost var a := w.CurrentTrail();
    WalkCtors(w, qn, info);
    ghost var b := w.CurrentTrail();
    WalkFactories(w, info.factories, "default_factory:" + qn);
    NodeCompose(w.program, w.budget, info, a, b, w.CurrentTrail());
    record := NodeRecordOf(qn, info);
    UnresolvedExactly(qn, info);
  }

  lemma NodeCompose(program: Program, budget: nat, info: ClassInfo, a: Trail, b: Trail, c: Trail)
    requires Grown(program, budget, CtorKeys(info), {}, a, b)
    requires Grown(program, budget, FactoryKeys(info.factories), FactoryNodes(info.factories), b, c)
    ensures Grown(program, budget, ClassTargets(info), FactoryNodes(info.factories), a, c)
  {
    assert {} + FactoryNodes(info.factories) == FactoryNodes(info.factories);
    GrownCompose(program, budget, CtorKeys(info), {}, FactoryKeys(info.factories), FactoryNodes(info.factories), a, b, c);
  }

  /** Every node a body or a dataclass can lead to lies in the finite set of loaded classes. */
  ghost predicate Within(program: Program, classes: Classes, universe: set<string>) {
    && (forall k :: Discovers(program, k) <= universe)
    && (forall n :: FactoryNodes(classes(n).factories) <= universe)
  }

  ghost function AsSet(nodes: seq<string>): set<string> {
    set n | n in nodes
  }

  lemma GrownWithin(
    program: Program, classes: Classes, universe: set<string>, budget: nat, t: set<VisitKey>, made: set<string>,
    a: Trail, b: Trail)
    requires Within(program, classes, universe) && Grown(program, budget, t, made, a, b)
    requires made <= universe && AsSet(a.nodes) <= universe
    ensures AsSet(b.nodes) <= universe && AsSet(a.nodes) <= AsSet(b.nodes)
  {
    forall n | n in b.nodes
      ensures n in universe
    {
      if n !in a.nodes && n !in made {
        var k :| k in b.visited && k !in a.visited && n in Discovers(program, k);
        assert Discovers(program, k) <= universe;
      }
    }
  }

  /** Bodies closed under following, nodes closed under discovery, each covering the other. */
  ghost predicate Settled(program: Program, classes: Classes, keys: set<VisitKey>, nodes: set<string>) {
    && Closed(program, false, keys)
    && (forall k | k in keys :: Discovers(program, k) <= nodes)
    && (forall n | n in nodes :: ClassTargets(classes(n)) <= keys && FactoryNodes(classes(n).factories) <= nodes)
  }

  /** Everything in `b` belongs to every settled pair that holds what was in `a`. */
  ghost predicate Needed(program: Program, classes: Classes, a: Trail, b: Trail) {
    forall keys, nodes | Settled(program, classes, keys, nodes) && a.visited <= keys && AsSet(a.nodes) <= nodes ::
      b.visited <= keys && AsSet(b.nodes) <= nodes
  }

  lemma GrowthStaysSettled(
    program: Program, classes: Classes, budget: nat, t: set<VisitKey>, made: set<string>, a: Trail, b: Trail,
    keys: set<VisitKey>, nodes: set<string>)
    requires Grown(program, budget, t, made, a, b) && Settled(program, classes, keys, nodes)
    requires t <= keys && made <= nodes && a.visited <= keys && AsSet(a.nodes) <= nodes
    ensures b.visited <= keys && AsSet(b.nodes) <= nodes
    ensures forall k | ReachedFrom(program, false, t, k) :: k in keys
  {
    forall k | ReachedFrom(program, false, t, k)
      ensures k in keys
    {
      var r :| r in t && Reaches(program, false, r, k);
      ClosedHoldsReachable(program, false, keys, r, k);
    }
    forall n | n in b.nodes
      ensures n in nodes
    {
      if n in a.nodes {
        assert n in AsSet(a.nodes);
      } else if n !in made {
        var k :| k in b.visited && k !in a.visited && n in Discovers(program, k);
        assert Discovers(program, k) <= nodes;
      }
    }
  }

  /** Classifying a node that is needed adds only what is needed. */
  lemma NeededStep(program: Program, classes: Classes, budget: nat, qn: string, a: Trail, b: Trail, c: Trail)
    requires Needed(program, classes, a, b) && qn in b.nodes
    requires Grown(program, budget, ClassTargets(classes(qn)), FactoryNodes(classes(qn).factories), b, c)
    ensures Needed(program, classes, a, c)
  {
    forall keys, nodes | Settled(program, classes, keys, nodes) && a.visited <= keys && AsSet(a.nodes) <= nodes
      ensures c.visited <= keys && AsSet(c.nodes) <= nodes
    {
      assert qn in AsSet(b.nodes);
      GrowthStaysSettled(program, classes, budget, ClassTargets(classes(qn)),
                         FactoryNodes(classes(qn).factories), b, c, keys, nodes);
    }
  }

  /** The worklist's state after `processed` nodes. */
  ghost predicate Classifying(
    program: Program, classes: Classes, budget: nat, processed: set<string>,
    records: map<string, NodeRecord>, a: Trail, b: Trail)
  {
    && processed <= AsSet(b.nodes)
    && Grown(program, budget, TargetsOf(classes, processed), MadeBy(classes, processed), a, b)
    && Needed(program, classes, a, b)
    && records == map n | n in processed :: NodeRecordOf(n, classes(n))
  }

  lemma ClassifyingStep(
    program: Program, classes: Classes, budget: nat, processed: set<string>,
    records: map<string, NodeRecord>, qn: string, a: Trail, b: Trail, c: Trail)
    requires Classifying(program, classes, budget, processed, records, a, b) && qn in b.nodes
    requires Grown(program, budget, ClassTargets(classes(qn)), FactoryNodes(classes(qn).factories), b, c)
    ensures Classifying(program, classes, budget, processed + {qn},
                        records[qn := NodeRecordOf(qn, classes(qn))], a, c)
  {
    GrownStep(program, classes, budget, processed, qn, a, b, c);
    NeededStep(program, classes, budget, qn, a, b, c);
    NodesKept(program, budget, ClassTargets(classes(qn)), FactoryNodes(classes(qn).factories), b, c);
    StillKnown(processed, qn, b.nodes, c.nodes);
    RecordsStep(classes, processed, records, qn);
  }

  lemma StillKnown(processed: set<string>, qn: string, before: seq<string>, after: seq<string>)
    requires processed <= AsSet(before) <= AsSet(after) && qn in before
    ensures processed + {qn} <= AsSet(after)
  {
    assert qn in AsSet(before);
  }

  lemma RecordsStep(classes: Classes, processed: set<string>, records: map<string, NodeRecord>, qn: string)
    requires records == map n | n in processed :: NodeRecordOf(n, classes(n))
    ensures records[qn := NodeRecordOf(qn, classes(qn))] ==
            map n | n in processed + {qn} :: NodeRecordOf(n, classes(n))
  {
  }

  lemma GrownStep(
    program: Program, classes: Classes, budget: nat, processed: set<string>, qn: string, a: Trail, b: Trail, c: Trail)
    requires Grown(program, budget, TargetsOf(classes, processed), MadeBy(classes, processed), a, b)
    requires Grown(program, budget, ClassTargets(classes(qn)), FactoryNodes(classes(qn).factories), b, c)
    ensures Grown(program, budget, TargetsOf(classes, processed + {qn}), MadeBy(classes, processed + {qn}), a, c)
  {
    GrownCompose(program, budget, TargetsOf(classes, processed), MadeBy(classes, processed),
                 ClassTargets(classes(qn)), FactoryNodes(classes(qn).factories), a, b, c);
    OneMoreProcessed(classes, processed, qn);
  }

  lemma NodesKept(
    program: Program, budget: nat, targets: set<VisitKey>, made: set<string>, b: Trail, c: Trail)
    requires Grown(program, budget, targets, made, b, c)
    ensures AsSet(b.nodes) <= AsSet(c.nodes)
  {
  }

  lemma AsSetEnds(nodes: seq<string>)
    ensures AsSet(nodes[..0]) == {} && AsSet(nodes[..|nodes|]) == AsSet(nodes)
  {
    assert nodes[..|nodes|] == nodes;
  }

  lemma AsSetStep(nodes: seq<string>, i: nat)
    requires i < |nodes|
    ensures AsSet(nodes[..i + 1]) == AsSet(nodes[..i]) + {nodes[i]}
    ensures nodes[i] in AsSet(nodes)
  {
    assert nodes[..i + 1] == nodes[..i] + [nodes[i]];
  }

  lemma OneMoreProcessed(classes: Classes, processed: set<string>, qn: string)
    ensures TargetsOf(classes, processed + {qn}) == TargetsOf(classes, processed) + ClassTargets(classes(qn))
    ensures MadeBy(classes, processed + {qn}) == MadeBy(classes, processed) + FactoryNodes(classes(qn).factories)
  {
  }

  /** Walks every discovered node to a fixed point, although walking may discover more. */
  method ClassifyNodes(w: StaticWalker, classes: Classes, ghost universe: set<string>)
    returns (records: map<string, NodeRecord>)
    requires w.Valid(multiset{})
    requires Within(w.program, classes, universe) && AsSet(w.unifiedNodes) <= universe
    modifies w
    ensures w.Valid(multiset{})
    ensures Classifying(w.program, classes, w.budget, AsSet(w.unifiedNodes), records,
                        old(w.CurrentTrail()), w.CurrentTrail())
  {
    records := map[];
    var processed: set<string> := {};
    var changed := true;
    assert TargetsOf(classes, {}) == {} && MadeBy(classes, {}) == {};
    while changed
      invariant w.Valid(multiset{})
      invariant AsSet(w.unifiedNodes) <= universe
      invariant Classifying(w.program, classes, w.budget, processed, records, old(w.CurrentTrail()), w.CurrentTrail())
      invariant !changed ==> processed == AsSet(w.unifiedNodes)
      decreases universe - processed, changed
    {
      changed, processed, records := ClassifyPass(w, classes, universe, processed, records, old(w.CurrentTrail()));
    }
  }

  /** One pass over a snapshot of the nodes known at its start. */
  method ClassifyPass(
    w: StaticWalker, classes: Classes, ghost universe: set<string>, processed0: set<string>,
    records0: map<string, NodeRecord>, ghost a: Trail)
    returns (changed: bool, processed: set<string>, records: map<string, NodeRecord>)
    requires w.Valid(multiset{})
    requires Within(w.program, classes, universe) && AsSet(w.unifiedNodes) <= universe
    requires Classifying(w.program, classes, w.budget, processed0, records0, a, w.CurrentTrail())
    modifies w
    ensures w.Valid(multiset{}) && AsSet(w.unifiedNodes) <= universe
    ensures Classifying(w.program, classes, w.budget, processed, records, a, w.CurrentTrail())
    ensures processed == processed0 + AsSet(old(w.unifiedNodes))
    ensures if changed then processed0 < processed else w.unifiedNodes == old(w.unifiedNodes)
  {
    changed, processed, records := false, processed0, records0;
    var snapshot := w.unifiedNodes;
    ghost var seen := {};
    AsSetEnds(snapshot);
    for i := 0 to |snapshot|
      invariant w.Valid(multiset{})
      invariant AsSet(snapshot) <= AsSet(w.unifiedNodes) <= universe
      invariant Classifying(w.program, classes, w.budget, processed, records, a, w.CurrentTrail())
      invariant seen == AsSet(snapshot[..i]) && processed == processed0 + seen
      invariant if changed then processed0 < processed else w.unifiedNodes == snapshot
    {
      var qn := snapshot[i];
      AsSetStep(snapshot, i);
      seen := seen + {qn};
      if qn !in processed {
        changed := true;
        records := ClassifyNew(w, classes, universe, processed, records, qn, a);
        processed := processed + {qn};
      }
    }
  }

  /** Classifies a node met for the first time; its bodies may discover further nodes. */
  method ClassifyNew(
    w: StaticWalker, classes: Classes, ghost universe: set<string>, ghost processed: set<string>,
    records: map<string, NodeRecord>, qn: string, ghost a: Trail)
    returns (more: map<string, NodeRecord>)
    requires w.Valid(multiset{})
    requires Within(w.program, classes, universe) && qn in AsSet(w.unifiedNodes)
    requires AsSet(w.unifiedNodes) <= universe
    requires Classifying(w.program, classes, w.budget, processed, records, a, w.CurrentTrail())
    modifies w
    ensures w.Valid(multiset{})
    ensures AsSet(old(w.unifiedNodes)) <= AsSet(w.unifiedNodes) <= universe
    ensures Classifying(w.program, classes, w.budget, processed + {qn}, more, a, w.CurrentTrail())
  {
    ghost var b := w.CurrentTrail();
    var record := ClassifyNode(w, qn, classes(qn));
    GrownWithin(w.program, classes, universe, w.budget, ClassTargets(classes(qn)),
                FactoryNodes(classes(qn).factories), b, w.CurrentTrail());
    ClassifyingStep(w.program, classes, w.budget, processed, records, qn, a, b, w.CurrentTrail());
    more := records[qn := record];
  }
}
