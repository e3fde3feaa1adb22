/** Singleton guarantees over whole runs of register, resolve, create and reset. */
module ContainerRuns {
  import opened Container

  ghost predicate Invalidates(e: Event, k: Key) {
    e.InvalidatedAll? || (e.Invalidated? && e.key == k)
  }

  ghost predicate CompletedAt(log: seq<Event>, i: int, k: Key) {
    0 <= i < |log| && log[i].Completed? && log[i].key == k
  }

  /** Nothing after position `i` invalidates `k`. */
  ghost predicate Live(log: seq<Event>, i: int, k: Key) {
    forall j | 0 <= j < |log| && i < j :: !Invalidates(log[j], k)
  }

  ghost predicate IsSingleton(regs: Registrations, k: Key) {
    k in regs && regs[k].lifetime == Singleton
  }

  ghost predicate Extends(m: map<Key, Obj>, n: map<Key, Obj>) {
    forall k | k in m :: k in n && n[k] == m[k]
  }

  // ---------- The invariant ----------

  /** Cached keys are registered singletons; one registered with an instance caches that instance. */
  ghost predicate CachedAreSingletons(regs: Registrations, s: Store) {
    forall k | k in s.cache ::
      IsSingleton(regs, k) && (regs[k].provider.Return? ==> s.cache[k] == regs[k].provider.obj)
  }

  /** A live completion of a singleton is what the cache holds. */
  ghost predicate CacheMatchesLog(regs: Registrations, s: Store) {
    forall k, i | CompletedAt(s.log, i, k) && Live(s.log, i, k) && IsSingleton(regs, k) ::
      k in s.cache && s.cache[k] == s.log[i].obj
  }

  /** A singleton's provider completes at most once between invalidations of its key. */
  ghost predicate CompletesAtMostOnce(regs: Registrations, log: seq<Event>) {
    forall k, i, j | CompletedAt(log, i, k) && CompletedAt(log, j, k) && i < j && IsSingleton(regs, k) ::
      !Live(log, i, k)
  }

  /** A live alias holds the object its live target holds. */
  ghost predicate AliasesMatch(regs: Registrations, s: Store) {
    forall a, t, i | CompletedAt(s.log, i, a) && Live(s.log, i, a) && Live(s.log, i, t)
                     && IsSingleton(regs, a) && regs[a].provider == Alias(t) && IsSingleton(regs, t) ::
      t in s.cache && s.cache[t] == s.log[i].obj
  }

  ghost predicate Inv(regs: Registrations, s: Store) {
    && CachedAreSingletons(regs, s)
    && CacheMatchesLog(regs, s)
    && CompletesAtMostOnce(regs, s.log)
    && AliasesMatch(regs, s)
  }

  /** What resolving may do to a store: only add cache entries, objects and completions. */
  ghost predicate Advances(s: Store, t: Store) {
    && Extends(s.cache, t.cache)
    && s.built <= t.built
    && s.log <= t.log
    && forall i | |s.log| <= i < |t.log| :: t.log[i].Completed?
  }

  lemma AdvancesTransitive(s: Store, t: Store, u: Store)
    requires Advances(s, t) && Advances(t, u)
    ensures Advances(s, u)
  {
  }

  /** Appending an event only matters to the keys it invalidates. */
  lemma LiveAppend(log: seq<Event>, e: Event, i: int, k: Key)
    requires 0 <= i < |log|
    ensures Live(log + [e], i, k) <==> Live(log, i, k) && !Invalidates(e, k)
  {
    assert forall j | 0 <= j < |log| :: (log + [e])[j] == log[j];
    assert (log + [e])[|log|] == e;
    if Live(log + [e], i, k) {
      assert forall j | 0 <= j < |log| && i < j :: !Invalidates((log + [e])[j], k);
    }
  }

  lemma CompleteKeepsMatch(regs: Registrations, s: Store, key: Key, obj: Obj)
    requires CacheMatchesLog(regs, s) && key in regs && key !in s.cache
    ensures CacheMatchesLog(regs, Complete(s, key, obj, regs[key].lifetime))
  {
    var t := Complete(s, key, obj, regs[key].lifetime);
    forall k, i | CompletedAt(t.log, i, k) && Live(t.log, i, k) && IsSingleton(regs, k)
      ensures k in t.cache && t.cache[k] == t.log[i].obj
    {
      if i < |s.log| {
        LiveAppend(s.log, Completed(key, obj), i, k);
        assert CompletedAt(s.log, i, k);
      }
    }
  }

  lemma CompleteKeepsOnce(regs: Registrations, s: Store, key: Key, obj: Obj)
    requires CompletesAtMostOnce(regs, s.log) && CacheMatchesLog(regs, s) && key in regs && key !in s.cache
    ensures CompletesAtMostOnce(regs, s.log + [Completed(key, obj)])
  {
    var e := Completed(key, obj);
    var log := s.log + [e];
    forall k, i, j | CompletedAt(log, i, k) && CompletedAt(log, j, k) && i < j && IsSingleton(regs, k)
      ensures !Live(log, i, k)
    {
      LiveAppend(s.log, e, i, k);
      assert CompletedAt(s.log, i, k);
      if j < |s.log| {
        assert CompletedAt(s.log, j, k);
      }
    }
  }

  lemma CompleteKeepsAliases(regs: Registrations, s: Store, key: Key, obj: Obj)
    requires AliasesMatch(regs, s) && key in regs && key !in s.cache
    requires regs[key].provider.Alias? && IsSingleton(regs, regs[key].provider.target) ==>
               regs[key].provider.target in s.cache && s.cache[regs[key].provider.target] == obj
    ensures AliasesMatch(regs, Complete(s, key, obj, regs[key].lifetime))
  {
    var t := Complete(s, key, obj, regs[key].lifetime);
    forall a, target, i | CompletedAt(t.log, i, a) && Live(t.log, i, a) && Live(t.log, i, target)
                          && IsSingleton(regs, a) && regs[a].provider == Alias(target) && IsSingleton(regs, target)
      ensures target in t.cache && t.cache[target] == t.log[i].obj
    {
      if i < |s.log| {
        LiveAppend(s.log, Completed(key, obj), i, a);
        LiveAppend(s.log, Completed(key, obj), i, target);
        assert CompletedAt(s.log, i, a);
      }
    }
  }

  lemma CompleteKeeps(regs: Registrations, s: Store, key: Key, obj: Obj)
    requires Inv(regs, s) && key in regs && key !in s.cache
    requires regs[key].provider.Return? ==> regs[key].provider.obj == obj
    requires regs[key].provider.Alias? && IsSingleton(regs, regs[key].provider.target) ==>
               regs[key].provider.target in s.cache && s.cache[regs[key].provider.target] == obj
    ensures var t := Complete(s, key, obj, regs[key].lifetime);
            Inv(regs, t) && Advances(s, t) && (IsSingleton(regs, key) ==> key in t.cache && t.cache[key] == obj)
            && forall k | k in t.cache :: k in s.cache || k == key
  {
    CompleteKeepsMatch(regs, s, key, obj);
    CompleteKeepsOnce(regs, s, key, obj);
    CompleteKeepsAliases(regs, s, key, obj);
  }

  lemma {:induction false} ResolvedKeeps(regs: Registrations, s: Store, busy: set<Key>, key: Key)
    requires Inv(regs, s) && busy !! s.cache.Keys
    ensures var (r, t) := Resolved(regs, s, busy, key);
            && Inv(regs, t) && busy !! t.cache.Keys && Advances(s, t)
            && (r.Success? && IsSingleton(regs, key) ==> key in t.cache && t.cache[key] == r.value)
    decreases regs.Keys - busy, 0
  {
    if key !in s.cache && key in regs && key !in busy {
      ProvidedKeeps(regs, s, busy + {key}, regs[key].provider);
      var (r, t) := Provided(regs, s, busy + {key}, regs[key].provider);
      if r.Success? {
        CompleteKeeps(regs, t, key, r.value);
        AdvancesTransitive(s, t, Complete(t, key, r.value, regs[key].lifetime));
      }
    }
  }

  lemma BuildingKeeps(regs: Registrations, s: Store, t: Store, instance: Instance)
    requires Inv(regs, t) && Advances(s, t)
    ensures var u := t.(built := t.built + [instance]); Inv(regs, u) && Advances(s, u)
  {
    BuildingKeepsInv(regs, t, t.built + [instance]);
  }

  /** The invariant does not look at the objects built. */
  lemma BuildingKeepsInv(regs: Registrations, t: Store, built: seq<Instance>)
    requires Inv(regs, t)
    ensures Inv(regs, t.(built := built))
  {
  }

  lemma {:induction false} ProvidedKeeps(regs: Registrations, s: Store, busy: set<Key>, provider: Provider)
    requires Inv(regs, s) && busy !! s.cache.Keys
    ensures var (r, t) := Provided(regs, s, busy, provider);
            && Inv(regs, t) && busy !! t.cache.Keys && Advances(s, t)
            && (r.Success? && provider.Alias? && IsSingleton(regs, provider.target) ==>
                  provider.target in t.cache && t.cache[provider.target] == r.value)
    decreases regs.Keys - busy, if provider.Construct? then |provider.params| + 2 else 1
  {
    match provider
    case Return(_) =>
    case Alias(target) => ResolvedKeeps(regs, s, busy, target);
    case Construct(cls, params) =>
      InjectedKeeps(regs, s, busy, params, map[]);
      var (r, t) := Injected(regs, s, busy, params, map[]);
      if r.Success? {
        BuildingKeeps(regs, s, t, Instance(cls, r.value));
      }
  }

  lemma {:induction false} InjectedKeeps(
    regs: Registrations, s: Store, busy: set<Key>, params: seq<Param>, kwargs: map<string, Obj>)
    requires Inv(regs, s) && busy !! s.cache.Keys
    ensures var t := Injected(regs, s, busy, params, kwargs).1;
            Inv(regs, t) && busy !! t.cache.Keys && Advances(s, t)
    decreases regs.Keys - busy, |params| + 1
  {
    if params != [] {
      var p := params[0];
      if p.annotation.Class? && Has(regs, s.cache, p.annotation.key) {
        ResolvedKeeps(regs, s, busy, p.annotation.key);
        var (r, t) := Resolved(regs, s, busy, p.annotation.key);
        if r.Success? {
          InjectedKeeps(regs, t, busy, params[1..], kwargs[p.name := r.value]);
          AdvancesTransitive(s, t, Injected(regs, t, busy, params[1..], kwargs[p.name := r.value]).1);
        }
      } else if p.hasDefault {
        InjectedKeeps(regs, s, busy, params[1..], kwargs);
      }
    }
  }

  // ---------- Steps and runs ----------

  /** `e` invalidates some keys; nothing about the others changes. */
  ghost predicate Forgets(regs: Registrations, s: Store, regs1: Registrations, s1: Store, e: Event) {
    && !e.Completed? && s1.log == s.log + [e]
    && (forall k | !Invalidates(e, k) :: (k in regs <==> k in regs1) && (k in regs ==> regs1[k] == regs[k]))
    && (forall k | !Invalidates(e, k) && k in s.cache :: k in s1.cache && s1.cache[k] == s.cache[k])
    && CachedAreSingletons(regs1, s1)
  }

  lemma StillLive(log: seq<Event>, e: Event, i: int, k: Key)
    requires !e.Completed? && CompletedAt(log + [e], i, k)
    ensures CompletedAt(log, i, k) && (log + [e])[i] == log[i]
    ensures forall x :: Live(log + [e], i, x) <==> Live(log, i, x) && !Invalidates(e, x)
  {
    forall x
      ensures Live(log + [e], i, x) <==> Live(log, i, x) && !Invalidates(e, x)
    {
      LiveAppend(log, e, i, x);
    }
  }

  lemma InvalidationKeepsMatch(regs: Registrations, s: Store, regs1: Registrations, s1: Store, e: Event)
    requires CacheMatchesLog(regs, s) && Forgets(regs, s, regs1, s1, e)
    ensures CacheMatchesLog(regs1, s1)
  {
    forall k, i | CompletedAt(s1.log, i, k) && Live(s1.log, i, k) && IsSingleton(regs1, k)
      ensures k in s1.cache && s1.cache[k] == s1.log[i].obj
    {
      StillLive(s.log, e, i, k);
    }
  }

  lemma InvalidationKeepsOnce(regs: Registrations, s: Store, regs1: Registrations, s1: Store, e: Event)
    requires CompletesAtMostOnce(regs, s.log) && Forgets(regs, s, regs1, s1, e)
    ensures CompletesAtMostOnce(regs1, s1.log)
  {
    forall k, i, j | CompletedAt(s1.log, i, k) && CompletedAt(s1.log, j, k) && i < j && IsSingleton(regs1, k)
      ensures !Live(s1.log, i, k)
    {
      StillLive(s.log, e, i, k);
      StillLive(s.log, e, j, k);
    }
  }

  lemma InvalidationKeepsAliases(regs: Registrations, s: Store, regs1: Registrations, s1: Store, e: Event)
    requires AliasesMatch(regs, s) && Forgets(regs, s, regs1, s1, e)
    ensures AliasesMatch(regs1, s1)
  {
    forall a, t, i | CompletedAt(s1.log, i, a) && Live(s1.log, i, a) && Live(s1.log, i, t)
                     && IsSingleton(regs1, a) && regs1[a].provider == Alias(t) && IsSingleton(regs1, t)
      ensures t in s1.cache && s1.cache[t] == s1.log[i].obj
    {
      StillLive(s.log, e, i, a);
    }
  }

  lemma InvalidationKeeps(regs: Registrations, s: Store, regs1: Registrations, s1: Store, e: Event)
    requires Inv(regs, s) && Forgets(regs, s, regs1, s1, e)
    ensures Inv(regs1, s1)
  {
    InvalidationKeepsMatch(regs, s, regs1, s1, e);
    InvalidationKeepsOnce(regs, s, regs1, s1, e);
    InvalidationKeepsAliases(regs, s, regs1, s1, e);
  }

  lemma StepKeeps(st: State, op: Op)
    requires Inv(st.regs, st.store)
    ensures Inv(Step(st, op).regs, Step(st, op).store)
  {
    var st1 := Step(st, op);
    match op
    case DoResolve(key) => ResolvedKeeps(st.regs, st.store, {}, key);
    case DoCreate(cls, params) => ProvidedKeeps(st.regs, st.store, {}, Construct(cls, params));
    case DoRegister(_, _, _) =>
      InvalidationKeeps(st.regs, st.store, st1.regs, st1.store, Invalidated(op.key, |st.store.built|));
    case DoRegisterInstance(_, _) =>
      InvalidationKeeps(st.regs, st.store, st1.regs, st1.store, Invalidated(op.key, |st.store.built|));
    case DoReset =>
      InvalidationKeeps(st.regs, st.store, st1.regs, st1.store, InvalidatedAll(|st.store.built|));
  }

  /** A key registered with an instance always answers with that very instance. */
  lemma {:induction false} InstanceAlwaysAnswers(ops: seq<Op>, k: Key)
    requires k in Run(EMPTY, ops).regs && Run(EMPTY, ops).regs[k].provider.Return?
    ensures var st := Run(EMPTY, ops);
            Resolved(st.regs, st.store, {}, k).0.Success?
            && Resolved(st.regs, st.store, {}, k).0.value == st.regs[k].provider.obj
  {
    RunInvariant(ops);
  }

  // ---------- The registry over a run ----------

  ghost predicate Registers(op: Op, k: Key) {
    (op.DoRegister? || op.DoRegisterInstance?) && op.key == k
  }

  ghost function RegistrationOf(op: Op): Registration
    requires op.DoRegister? || op.DoRegisterInstance?
  {
    if op.DoRegister? then Registration(op.provider, op.lifetime) else Registration(Return(op.obj), Singleton)
  }

  /** Operation `i` is the last one of the run to register `k`. */
  ghost predicate LastAt(ops: seq<Op>, i: nat, k: Key) {
    && i < |ops| && Registers(ops[i], k)
    && forall j | i < j < |ops| :: !Registers(ops[j], k)
  }

  lemma LastAtStep(ops: seq<Op>, op: Op, i: nat, k: Key)
    ensures LastAt(ops + [op], i, k) <==> if Registers(op, k) then i == |ops| else LastAt(ops, i, k)
  {
    var more := ops + [op];
    assert more[|ops|] == op;
    assert forall j | 0 <= j < |ops| :: more[j] == ops[j];
    if LastAt(more, i, k) && i < |ops| {
      assert forall j | i < j < |ops| :: !Registers(ops[j], k);
    }
  }

  lemma RegistersStep(st: State, op: Op, k: Key)
    ensures Registers(op, k) ==> k in Step(st, op).regs && Step(st, op).regs[k] == RegistrationOf(op)
    ensures !Registers(op, k) && k in st.regs ==> k in Step(st, op).regs && Step(st, op).regs[k] == st.regs[k]
    ensures !Registers(op, k) && k !in st.regs ==> k !in Step(st, op).regs
  {
  }

  /** A key is registered exactly when some operation registered it, and the last one to do so counts. */
  lemma {:induction false} LastRegistrationCounts(ops: seq<Op>, k: Key)
    ensures k in Run(EMPTY, ops).regs <==> exists i: nat :: LastAt(ops, i, k)
    ensures forall i: nat | LastAt(ops, i, k) :: Run(EMPTY, ops).regs[k] == RegistrationOf(ops[i])
  {
    if ops != [] {
      var front, op := ops[..|ops| - 1], ops[|ops| - 1];
      LastRegistrationCounts(front, k);
      assert ops == front + [op];
      forall i: nat
        ensures LastAt(ops, i, k) <==> if Registers(op, k) then i == |front| else LastAt(front, i, k)
      {
        LastAtStep(front, op, i, k);
      }
      RegistersStep(Run(EMPTY, front), op, k);
      if Registers(op, k) {
        assert LastAt(ops, |front|, k);
      } else if i: nat :| LastAt(front, i, k) {
        assert LastAt(ops, i, k);
      }
    }
  }

  /** Over any run: cached keys are registered singletons, built at most once per validity period. */
  lemma {:induction false} RunInvariant(ops: seq<Op>)
    ensures var st := Run(EMPTY, ops); Inv(st.regs, st.store)
  {
    if ops != [] {
      RunInvariant(ops[..|ops| - 1]);
      StepKeeps(Run(EMPTY, ops[..|ops| - 1]), ops[|ops| - 1]);
    }
  }

  ghost predicate Touches(op: Op, k: Key) {
    op.DoReset? || (op.DoRegister? && op.key == k) || (op.DoRegisterInstance? && op.key == k)
  }

  lemma {:induction false} CachedStays(st: State, ops: seq<Op>, k: Key)
    requires Inv(st.regs, st.store) && k in st.store.cache
    requires forall i | 0 <= i < |ops| :: !Touches(ops[i], k)
    ensures var st1 := Run(st, ops);
            Inv(st1.regs, st1.store) && k in st1.store.cache && st1.store.cache[k] == st.store.cache[k]
  {
    if ops != [] {
      var front := ops[..|ops| - 1];
      CachedStays(st, front, k);
      var mid, op := Run(st, front), ops[|ops| - 1];
      StepKeeps(mid, op);
      assert !Touches(op, k);
      match op
      case DoResolve(key) => ResolvedKeeps(mid.regs, mid.store, {}, key);
      case DoCreate(cls, params) => ProvidedKeeps(mid.regs, mid.store, {}, Construct(cls, params));
      case _ =>
    }
  }

  /** Every resolve of a singleton returns the same object until its key is touched. */
  lemma {:induction false} SameObjectUntilTouched(before: seq<Op>, k: Key, between: seq<Op>)
    requires forall i | 0 <= i < |between| :: !Touches(between[i], k)
    requires var st := Run(EMPTY, before);
             IsSingleton(st.regs, k) && Resolved(st.regs, st.store, {}, k).0.Success?
    ensures var st := Run(EMPTY, before);
            var later := Run(Step(st, DoResolve(k)), between);
            Resolved(later.regs, later.store, {}, k) == (Resolved(st.regs, st.store, {}, k).0, later.store)
  {
    RunInvariant(before);
    var st := Run(EMPTY, before);
    ResolvedKeeps(st.regs, st.store, {}, k);
    CachedStays(Step(st, DoResolve(k)), between, k);
  }
}
