/** When an alias still answers with its target's object: the staleness condition, exactly. */
module ContainerAliases {
  import opened Wrappers
  import opened Container
  import opened ContainerRuns

  /** `obj` already existed when `n` objects had been built. */
  ghost predicate Older(obj: Obj, n: nat) {
    obj.Built? ==> obj.id < n
  }

  ghost predicate Dated(regs: Registrations, s: Store) {
    && (forall k | k in regs && regs[k].provider.Return? :: Older(regs[k].provider.obj, |s.built|))
    && (forall k | k in s.cache :: Older(s.cache[k], |s.built|))
    && (forall i | 0 <= i < |s.log| && s.log[i].Completed? :: Older(s.log[i].obj, |s.built|))
    && (forall j | 0 <= j < |s.log| && !s.log[j].Completed? :: s.log[j].heapSize <= |s.built|)
  }

  /** Objects completed before an invalidation are older than it. */
  ghost predicate CompletionsPrecede(log: seq<Event>) {
    forall i, j | 0 <= i < j < |log| && log[i].Completed? && !log[j].Completed? ::
      Older(log[i].obj, log[j].heapSize)
  }

  /** `obj` was built after every invalidation of `k` so far. */
  ghost predicate NewerThan(log: seq<Event>, k: Key, obj: Obj) {
    obj.Built? && forall j | 0 <= j < |log| && Invalidates(log[j], k) :: log[j].heapSize <= obj.id
  }

  ghost predicate ConstructedAreNew(regs: Registrations, s: Store) {
    forall k | k in s.cache && k in regs && regs[k].provider.Construct? :: NewerThan(s.log, k, s.cache[k])
  }

  ghost predicate Ages(regs: Registrations, s: Store) {
    Dated(regs, s) && CompletionsPrecede(s.log) && ConstructedAreNew(regs, s)
  }

  lemma CompleteAges(regs: Registrations, s: Store, key: Key, obj: Obj)
    requires Ages(regs, s) && key in regs && Older(obj, |s.built|)
    requires regs[key].provider.Construct? ==> NewerThan(s.log, key, obj)
    ensures Ages(regs, Complete(s, key, obj, regs[key].lifetime))
    ensures forall k, o | NewerThan(s.log, k, o) ::
              NewerThan(Complete(s, key, obj, regs[key].lifetime).log, k, o)
  {
    var t := Complete(s, key, obj, regs[key].lifetime);
    assert forall i | 0 <= i < |s.log| :: t.log[i] == s.log[i];
    assert t.log[|s.log|].Completed?;
    assert CompletionsPrecede(t.log) by {
      forall i, j | 0 <= i < j < |t.log| && t.log[i].Completed? && !t.log[j].Completed?
        ensures Older(t.log[i].obj, t.log[j].heapSize)
      {
        assert j < |s.log|;
      }
    }
  }

  lemma BuildAges(regs: Registrations, s: Store, instance: Instance)
    requires Ages(regs, s)
    ensures Ages(regs, s.(built := s.built + [instance]))
    ensures forall k :: NewerThan(s.log, k, Built(|s.built|))
  {
  }

  lemma {:induction false} ResolvedAges(regs: Registrations, s: Store, busy: set<Key>, key: Key)
    requires Ages(regs, s)
    ensures var (r, t) := Resolved(regs, s, busy, key);
            && Ages(regs, t)
            && (r.Success? ==> Older(r.value, |t.built|))
            && (r.Success? && key in regs && regs[key].provider.Construct? ==> NewerThan(t.log, key, r.value))
    decreases regs.Keys - busy, 0
  {
    if key !in s.cache && key in regs && key !in busy {
      ProvidedAges(regs, s, busy + {key}, regs[key].provider);
      var (r, t) := Provided(regs, s, busy + {key}, regs[key].provider);
      if r.Success? {
        CompleteAges(regs, t, key, r.value);
      }
    }
  }

  lemma {:induction false} ProvidedAges(regs: Registrations, s: Store, busy: set<Key>, provider: Provider)
    requires Ages(regs, s) && (provider.Return? ==> Older(provider.obj, |s.built|))
    ensures var (r, t) := Provided(regs, s, busy, provider);
            && Ages(regs, t)
            && (r.Success? ==> Older(r.value, |t.built|))
            && (r.Success? && provider.Construct? ==> forall k :: NewerThan(t.log, k, r.value))
    decreases regs.Keys - busy, if provider.Construct? then |provider.params| + 2 else 1
  {
    match provider
    case Return(_) =>
    case Alias(target) => ResolvedAges(regs, s, busy, target);
    case Construct(cls, params) =>
      InjectedAges(regs, s, busy, params, map[]);
      var (r, t) := Injected(regs, s, busy, params, map[]);
      if r.Success? {
        BuildAges(regs, t, Instance(cls, r.value));
      }
  }

  lemma {:induction false} InjectedAges(
    regs: Registrations, s: Store, busy: set<Key>, params: seq<Param>, kwargs: map<string, Obj>)
    requires Ages(regs, s)
    ensures Ages(regs, Injected(regs, s, busy, params, kwargs).1)
    decreases regs.Keys - busy, |params| + 1
  {
    if params != [] {
      var p := params[0];
      if p.annotation.Class? && Has(regs, s.cache, p.annotation.key) {
        ResolvedAges(regs, s, busy, p.annotation.key);
        var (r, t) := Resolved(regs, s, busy, p.annotation.key);
        if r.Success? {
          InjectedAges(regs, t, busy, params[1..], kwargs[p.name := r.value]);
        }
      } else if p.hasDefault {
        InjectedAges(regs, s, busy, params[1..], kwargs);
      }
    }
  }

  // ---------- Runs whose callers only hand in objects that exist ----------

  ghost predicate Legal(st: State, op: Op) {
    && (op.DoRegister? && op.provider.Return? ==> Older(op.provider.obj, |st.store.built|))
    && (op.DoRegisterInstance? ==> Older(op.obj, |st.store.built|))
  }

  ghost predicate LegalRun(ops: seq<Op>) {
    forall i | 0 <= i < |ops| :: Legal(Run(EMPTY, ops[..i]), ops[i])
  }

  lemma InvalidationAges(regs: Registrations, s: Store, regs1: Registrations, s1: Store, e: Event)
    requires Ages(regs, s) && Forgets(regs, s, regs1, s1, e)
    requires s1.built == s.built && e.heapSize == |s.built|
    requires forall k | k in regs1 && Invalidates(e, k) && regs1[k].provider.Return? ::
      Older(regs1[k].provider.obj, |s.built|)
    requires forall k | k in s1.cache && Invalidates(e, k) ::
      Older(s1.cache[k], |s.built|) && regs1[k].provider.Return?
    requires forall k | k in s1.cache && !Invalidates(e, k) :: k in s.cache
    ensures Ages(regs1, s1)
  {
    assert forall i | 0 <= i < |s.log| :: s1.log[i] == s.log[i];
    assert s1.log[|s.log|] == e;
  }

  lemma StepAges(st: State, op: Op)
    requires Inv(st.regs, st.store) && Ages(st.regs, st.store) && Legal(st, op)
    ensures Ages(Step(st, op).regs, Step(st, op).store)
  {
    var st1 := Step(st, op);
    StepKeeps(st, op);
    match op
    case DoResolve(key) => ResolvedAges(st.regs, st.store, {}, key);
    case DoCreate(cls, params) => ProvidedAges(st.regs, st.store, {}, Construct(cls, params));
    case DoRegister(_, _, _) =>
      InvalidationAges(st.regs, st.store, st1.regs, st1.store, Invalidated(op.key, |st.store.built|));
    case DoRegisterInstance(_, _) =>
      InvalidationAges(st.regs, st.store, st1.regs, st1.store, Invalidated(op.key, |st.store.built|));
    case DoReset =>
      InvalidationAges(st.regs, st.store, st1.regs, st1.store, InvalidatedAll(|st.store.built|));
  }

  lemma {:induction false} RunAges(ops: seq<Op>)
    requires LegalRun(ops)
    ensures var st := Run(EMPTY, ops); Inv(st.regs, st.store) && Ages(st.regs, st.store)
  {
    RunInvariant(ops);
    if ops != [] {
      var front := ops[..|ops| - 1];
      forall i | 0 <= i < |front|
        ensures Legal(Run(EMPTY, front[..i]), front[i])
      {
        assert front[..i] == ops[..i];
      }
      RunAges(front);
      StepAges(Run(EMPTY, front), ops[|ops| - 1]);
    }
  }

  // ---------- The `_resolving` set does not show in a success ----------

  /** A successful resolve would have gone the same way with fewer keys being resolved. */
  lemma {:induction false} ResolvedIgnoresBusy(regs: Registrations, s: Store, busy: set<Key>, fewer: set<Key>, key: Key)
    requires fewer <= busy && Resolved(regs, s, busy, key).0.Success?
    ensures Resolved(regs, s, fewer, key) == Resolved(regs, s, busy, key)
    decreases regs.Keys - busy, 0
  {
    if key !in s.cache {
      ProvidedIgnoresBusy(regs, s, busy + {key}, fewer + {key}, regs[key].provider);
    }
  }

  lemma {:induction false} ProvidedIgnoresBusy(
    regs: Registrations, s: Store, busy: set<Key>, fewer: set<Key>, provider: Provider)
    requires fewer <= busy && Provided(regs, s, busy, provider).0.Success?
    ensures Provided(regs, s, fewer, provider) == Provided(regs, s, busy, provider)
    decreases regs.Keys - busy, if provider.Construct? then |provider.params| + 2 else 1
  {
    match provider
    case Return(_) =>
    case Alias(target) => ResolvedIgnoresBusy(regs, s, busy, fewer, target);
    case Construct(cls, params) => InjectedIgnoresBusy(regs, s, busy, fewer, params, map[]);
  }

  lemma {:induction false} InjectedIgnoresBusy(
    regs: Registrations, s: Store, busy: set<Key>, fewer: set<Key>, params: seq<Param>, kwargs: map<string, Obj>)
    requires fewer <= busy && Injected(regs, s, busy, params, kwargs).0.Success?
    ensures Injected(regs, s, fewer, params, kwargs) == Injected(regs, s, busy, params, kwargs)
    decreases regs.Keys - busy, |params| + 1
  {
    if params != [] {
      var p := params[0];
      if p.annotation.Class? && Has(regs, s.cache, p.annotation.key) {
        var (r, s1) := Resolved(regs, s, busy, p.annotation.key);
        ResolvedIgnoresBusy(regs, s, busy, fewer, p.annotation.key);
        InjectedIgnoresBusy(regs, s1, busy, fewer, params[1..], kwargs[p.name := r.value]);
      } else {
        InjectedIgnoresBusy(regs, s, busy, fewer, params[1..], kwargs);
      }
    }
  }

  /** The end of the alias chain from `t`: the first key that is cached or is not an alias. */
  ghost function Source(regs: Registrations, cache: map<Key, Obj>, t: Key, seen: set<Key>): Key
    decreases regs.Keys - seen
  {
    if t !in cache && t in regs && t !in seen && regs[t].provider.Alias?
    then Source(regs, cache, regs[t].provider.target, seen + {t})
    else t
  }

  /** A key that resolves answers as the end of its alias chain does. */
  lemma {:induction false} SourceAnswers(regs: Registrations, s: Store, t: Key, seen: set<Key>)
    requires Resolved(regs, s, seen, t).0.Success?
    ensures var z := Source(regs, s.cache, t, seen);
            && (z in s.cache || (z in regs && !regs[z].provider.Alias?))
            && Resolved(regs, s, {}, z).0 == Resolved(regs, s, seen, t).0
    decreases regs.Keys - seen
  {
    if t !in s.cache && regs[t].provider.Alias? {
      assert Resolved(regs, s, seen, t).0 == Resolved(regs, s, seen + {t}, regs[t].provider.target).0;
      SourceAnswers(regs, s, regs[t].provider.target, seen + {t});
    } else {
      ResolvedIgnoresBusy(regs, s, seen, {}, t);
    }
  }

  // ---------- Alias and target ----------

  /** `a` is a registered singleton alias of `t` whose cached object was completed at log position `i`. */
  ghost predicate IsLiveAlias(st: State, a: Key, t: Key, i: nat) {
    && a in st.regs && st.regs[a] == Registration(Alias(t), Singleton)
    && CompletedAt(st.store.log, i, a) && Live(st.store.log, i, a)
  }

  /** The end of the target's alias chain is cached as `obj`, or is registered as that very instance. */
  ghost predicate Agrees(regs: Registrations, cache: map<Key, Obj>, t: Key, obj: Obj) {
    var z := Source(regs, cache, t, {});
    if z in cache then cache[z] == obj else z in regs && regs[z].provider == Return(obj)
  }

  /** Whatever its provider, a singleton target not touched since the alias was built agrees with it. */
  lemma {:induction false} UntouchedTargetAgrees(ops: seq<Op>, a: Key, t: Key, i: nat)
    requires IsLiveAlias(Run(EMPTY, ops), a, t, i)
    requires IsSingleton(Run(EMPTY, ops).regs, t) && Live(Run(EMPTY, ops).store.log, i, t)
    ensures var st := Run(EMPTY, ops);
            var alias := Resolved(st.regs, st.store, {}, a).0;
            alias.Success? && alias == Resolved(st.regs, st.store, {}, t).0
  {
    RunInvariant(ops);
  }

  /**
   * For every target: a live alias and its target resolve to the same object exactly when the
   * target agrees with it. A constructed singleton does so exactly when it was not
   * re-registered or reset since; otherwise the alias answers with the old object.
   */
  lemma {:induction false} AliasFollowsTargetExactly(ops: seq<Op>, a: Key, t: Key, i: nat)
    requires LegalRun(ops) && IsLiveAlias(Run(EMPTY, ops), a, t, i)
    requires var st := Run(EMPTY, ops); Resolved(st.regs, st.store, {}, t).0.Success?
    ensures var st := Run(EMPTY, ops);
            var alias := Resolved(st.regs, st.store, {}, a).0;
            var target := Resolved(st.regs, st.store, {}, t).0;
            && alias == Success(st.store.log[i].obj)
            && (alias == target <==> Agrees(st.regs, st.store.cache, t, alias.value))
            && (IsSingleton(st.regs, t) && st.regs[t].provider.Construct? ==>
                  (alias == target <==> Live(st.store.log, i, t)))
  {
    var st := Run(EMPTY, ops);
    RunAges(ops);
    LiveAliasHolds(st, a, t, i);
    TargetAnswer(st.regs, st.store, t, i);
    if IsSingleton(st.regs, t) && st.regs[t].provider.Construct? && !Live(st.store.log, i, t) {
      StaleTargetIsNewer(st.regs, st.store, t, i);
    }
  }

  lemma LiveAliasHolds(st: State, a: Key, t: Key, i: nat)
    requires Inv(st.regs, st.store) && IsLiveAlias(st, a, t, i)
    ensures Resolved(st.regs, st.store, {}, a).0 == Success(st.store.log[i].obj)
    ensures IsSingleton(st.regs, t) && Live(st.store.log, i, t) ==>
              t in st.store.cache && st.store.cache[t] == st.store.log[i].obj
  {
  }

  /** What `t` resolves to was there when position `i` was logged only if it agrees. */
  lemma TargetAnswer(regs: Registrations, s: Store, t: Key, i: nat)
    requires Inv(regs, s) && Ages(regs, s) && i < |s.log| && s.log[i].Completed?
    requires Resolved(regs, s, {}, t).0.Success?
    ensures Resolved(regs, s, {}, t).0.value == s.log[i].obj <==> Agrees(regs, s.cache, t, s.log[i].obj)
  {
    SourceAnswers(regs, s, t, {});
    var z := Source(regs, s.cache, t, {});
    if z !in s.cache && regs[z].provider.Construct? {
      UncachedIsFresh(regs, s, z);
    }
  }

  /** Building a key that is not cached yields an object that did not exist before. */
  lemma UncachedIsFresh(regs: Registrations, s: Store, t: Key)
    requires Inv(regs, s) && t in regs && regs[t].provider.Construct? && t !in s.cache
    ensures var r := Resolved(regs, s, {}, t).0; r.Success? ==> r.value.Built? && r.value.id >= |s.built|
  {
    InjectedKeeps(regs, s, {} + {t}, regs[t].provider.params, map[]);
  }

  /** Once `t` was invalidated after log position `i`, it resolves to a different object. */
  lemma StaleTargetIsNewer(regs: Registrations, s: Store, t: Key, i: nat)
    requires Inv(regs, s) && Ages(regs, s)
    requires IsSingleton(regs, t) && regs[t].provider.Construct?
    requires i < |s.log| && s.log[i].Completed? && !Live(s.log, i, t)
    ensures var r := Resolved(regs, s, {}, t).0; r.Success? ==> r.value != s.log[i].obj
  {
    ResolvedAges(regs, s, {}, t);
    ResolvedKeeps(regs, s, {}, t);
    var (r, s1) := Resolved(regs, s, {}, t);
    if r.Success? {
      var j :| 0 <= j < |s.log| && i < j && Invalidates(s.log[j], t);
      assert s1.log[j] == s.log[j];
      assert s.log[j].heapSize <= r.value.id;
    }
  }

  lemma ResolvesNullary(regs: Registrations, s: Store, busy: set<Key>, key: Key, cls: string)
    requires key in regs && regs[key] == Registration(Construct(cls, []), Singleton)
    requires key !in s.cache && key !in busy
    ensures var obj := Built(|s.built|);
            Resolved(regs, s, busy, key) ==
            (Success(obj), Store(s.cache[key := obj], s.built + [Instance(cls, map[])], s.log + [Completed(key, obj)]))
  {
    assert Injected(regs, s, busy + {key}, [], map[]) == (Success(map[]), s);
  }

  lemma RunAppend(ops: seq<Op>, op: Op)
    ensures Run(EMPTY, ops + [op]) == Step(Run(EMPTY, ops), op)
  {
    assert (ops + [op])[..|ops|] == ops;
  }

  lemma ResolvesAlias(regs: Registrations, s: Store, a: Key, t: Key)
    requires a in regs && regs[a] == Registration(Alias(t), Singleton) && a !in s.cache
    ensures var (r, s1) := Resolved(regs, s, {a}, t);
            r.Success? ==> (Resolved(regs, s, {}, a) ==
              (r, Store(s1.cache[a := r.value], s1.built, s1.log + [Completed(a, r.value)])))
  {
    assert {} + {a} == {a};
  }

  /** A target and an alias to it are registered, and the alias is resolved. */
  lemma AliasResolved(a: Key, t: Key)
    requires a != t
    ensures var c := Construct("C", []);
            var st := Run(EMPTY, [DoRegister(t, c, Singleton)] + [DoRegister(a, Alias(t), Singleton)] + [DoResolve(a)]);
            && a in st.store.cache && st.store.cache[a] == Built(0) && |st.store.built| == 1
  {
    var c := Construct("C", []);
    var o0, o1 := DoRegister(t, c, Singleton), DoRegister(a, Alias(t), Singleton);
    RunAppend([], o0);
    assert [] + [o0] == [o0];
    RunAppend([o0], o1);
    RunAppend([o0] + [o1], DoResolve(a));
    var st := Run(EMPTY, [o0] + [o1]);
    ResolvesNullary(st.regs, st.store, {a}, t, "C");
    ResolvesAlias(st.regs, st.store, a, t);
  }

  /** The stale case does occur: re-registering the target under a resolved alias. */
  lemma ReRegisteringLeavesAliasStale(a: Key, t: Key)
    requires a != t
    ensures var c := Construct("C", []);
            var ops := [DoRegister(t, c, Singleton)] + [DoRegister(a, Alias(t), Singleton)]
                       + [DoResolve(a)] + [DoRegister(t, c, Singleton)];
            var st := Run(EMPTY, ops);
            && Resolved(st.regs, st.store, {}, a).0 == Success(Built(0))
            && Resolved(st.regs, st.store, {}, t).0 == Success(Built(1))
  {
    var again := DoRegister(t, Construct("C", []), Singleton);
    var ops := [again] + [DoRegister(a, Alias(t), Singleton)] + [DoResolve(a)];
    AliasResolved(a, t);
    RunAppend(ops, again);
    var st := Run(EMPTY, ops + [again]);
    ResolvesNullary(st.regs, st.store, {}, t, "C");
  }
}
