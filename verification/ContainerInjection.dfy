/** What constructor injection hands to the object that gets built. */
module ContainerInjection {
  import opened Wrappers
  import opened Container
  import opened ContainerRuns

  ghost predicate DistinctNames(params: seq<Param>) {
    forall i, j | 0 <= i < j < |params| :: params[i].name != params[j].name
  }

  /** The parameter is annotated with a class that is registered or cached. */
  ghost predicate IsInjected(regs: Registrations, cached: set<Key>, p: Param) {
    match p.annotation
    case Class(k) => k in regs || k in cached
    case _ => false
  }

  /**
   * `obj` is what resolving the parameter's class gave, at some moment between `s` and `t`;
   * for a singleton it is what the cache holds in the end.
   */
  ghost predicate GivenTo(regs: Registrations, s: Store, t: Store, busy: set<Key>, p: Param, obj: Obj) {
    && p.annotation.Class?
    && (exists s1 :: Advances(s, s1) && Resolved(regs, s1, busy, p.annotation.key).0 == Success(obj)
                     && Advances(Resolved(regs, s1, busy, p.annotation.key).1, t))
    && (IsSingleton(regs, p.annotation.key) ==>
          p.annotation.key in t.cache && t.cache[p.annotation.key] == obj)
  }

  /** The keyword arguments are those of the injected parameters, each with its own object. */
  ghost predicate Arguments(
    regs: Registrations, s: Store, t: Store, busy: set<Key>, params: seq<Param>, kwargs: map<string, Obj>)
  {
    && (forall x | x in kwargs :: exists p :: p in params && p.name == x)
    && forall p | p in params ::
         && (p.name in kwargs <==> IsInjected(regs, s.cache.Keys, p))
         && (p.name in kwargs ==> GivenTo(regs, s, t, busy, p, kwargs[p.name]))
  }

  lemma AdvancesReflexive(s: Store)
    ensures Advances(s, s)
  {
  }

  /** What was given stays given when the stretch is widened. */
  lemma GivenWidens(
    regs: Registrations, s: Store, s1: Store, t1: Store, t: Store, busy: set<Key>, p: Param, obj: Obj)
    requires GivenTo(regs, s1, t1, busy, p, obj) && Advances(s, s1) && Advances(t1, t)
    ensures GivenTo(regs, s, t, busy, p, obj)
  {
    var m :| Advances(s1, m) && Resolved(regs, m, busy, p.annotation.key).0 == Success(obj)
             && Advances(Resolved(regs, m, busy, p.annotation.key).1, t1);
    AdvancesTransitive(s, s1, m);
    AdvancesTransitive(Resolved(regs, m, busy, p.annotation.key).1, t1, t);
  }

  /** The accumulated arguments `kwargs` are kept, and those of the remaining parameters added. */
  ghost predicate ArgumentsAdded(
    regs: Registrations, s: Store, t: Store, busy: set<Key>, params: seq<Param>,
    kwargs: map<string, Obj>, all: map<string, Obj>)
  {
    && (forall x | x in kwargs :: x in all && all[x] == kwargs[x])
    && (forall x | x in all :: x in kwargs || exists p :: p in params && p.name == x)
    && forall p | p in params ::
         && (p.name in all <==> IsInjected(regs, s.cache.Keys, p))
         && (p.name in all ==> GivenTo(regs, s, t, busy, p, all[p.name]))
  }

  ghost predicate Unused(params: seq<Param>, kwargs: map<string, Obj>) {
    forall p | p in params :: p.name !in kwargs
  }

  lemma UnusedRest(params: seq<Param>, kwargs: map<string, Obj>, obj: Obj)
    requires params != [] && DistinctNames(params) && Unused(params, kwargs)
    ensures DistinctNames(params[1..]) && Unused(params[1..], kwargs)
    ensures Unused(params[1..], kwargs[params[0].name := obj])
  {
    forall p | p in params[1..]
      ensures p.name != params[0].name && p.name !in kwargs
    {
      var i :| 0 <= i < |params[1..]| && params[1..][i] == p;
      assert params[i + 1] == p;
    }
    assert forall i | 0 <= i < |params[1..]| :: params[1..][i] == params[i + 1];
  }

  /** A key cached meanwhile was registered all along, so the same parameters get injected. */
  lemma SameInjected(regs: Registrations, s: Store, s1: Store, p: Param)
    requires Inv(regs, s) && Inv(regs, s1) && Advances(s, s1)
    ensures IsInjected(regs, s.cache.Keys, p) <==> IsInjected(regs, s1.cache.Keys, p)
  {
  }

  lemma FirstInjected(
    regs: Registrations, s: Store, s1: Store, t: Store, busy: set<Key>, params: seq<Param>,
    kwargs: map<string, Obj>, obj: Obj, all: map<string, Obj>)
    requires params != [] && DistinctNames(params) && Unused(params, kwargs)
    requires Inv(regs, s) && Inv(regs, s1) && Advances(s, s1) && Advances(s1, t)
    requires IsInjected(regs, s.cache.Keys, params[0]) && GivenTo(regs, s, s1, busy, params[0], obj)
    requires ArgumentsAdded(regs, s1, t, busy, params[1..], kwargs[params[0].name := obj], all)
    ensures ArgumentsAdded(regs, s, t, busy, params, kwargs, all)
  {
    var first := params[0];
    assert forall p :: p in params <==> p == first || p in params[1..];
    AdvancesReflexive(s);
    GivenWidens(regs, s, s, s1, t, busy, first, obj);
    forall p | p in params[1..]
      ensures p.name in all <==> IsInjected(regs, s.cache.Keys, p)
      ensures p.name in all ==> GivenTo(regs, s, t, busy, p, all[p.name])
    {
      SameInjected(regs, s, s1, p);
      AdvancesReflexive(t);
      if p.name in all {
        GivenWidens(regs, s, s1, t, t, busy, p, all[p.name]);
      }
    }
    forall x | x in kwargs
      ensures x in all && all[x] == kwargs[x]
    {
      assert x != first.name;
    }
  }

  lemma FirstSkipped(
    regs: Registrations, s: Store, t: Store, busy: set<Key>, params: seq<Param>,
    kwargs: map<string, Obj>, all: map<string, Obj>)
    requires params != [] && DistinctNames(params) && Unused(params, kwargs)
    requires !IsInjected(regs, s.cache.Keys, params[0])
    requires ArgumentsAdded(regs, s, t, busy, params[1..], kwargs, all)
    ensures ArgumentsAdded(regs, s, t, busy, params, kwargs, all)
  {
    var first := params[0];
    assert forall p :: p in params <==> p == first || p in params[1..];
  }

  lemma {:induction false} InjectionIsExact(
    regs: Registrations, s: Store, busy: set<Key>, params: seq<Param>, kwargs: map<string, Obj>)
    requires Inv(regs, s) && busy !! s.cache.Keys && DistinctNames(params) && Unused(params, kwargs)
    ensures var (r, t) := Injected(regs, s, busy, params, kwargs);
            r.Success? ==> ArgumentsAdded(regs, s, t, busy, params, kwargs, r.value)
    decreases |params|
  {
    var (r, t) := Injected(regs, s, busy, params, kwargs);
    if params != [] && r.Success? {
      var p := params[0];
      if p.annotation.Class? && Has(regs, s.cache, p.annotation.key) {
        var (obj, s1) := Resolved(regs, s, busy, p.annotation.key);
        ResolvedKeeps(regs, s, busy, p.annotation.key);
        UnusedRest(params, kwargs, obj.value);
        InjectionIsExact(regs, s1, busy, params[1..], kwargs[p.name := obj.value]);
        InjectedKeeps(regs, s1, busy, params[1..], kwargs[p.name := obj.value]);
        AdvancesReflexive(s);
        AdvancesReflexive(s1);
        assert GivenTo(regs, s, s1, busy, p, obj.value);
        FirstInjected(regs, s, s1, t, busy, params, kwargs, obj.value, r.value);
      } else {
        UnusedRest(params, kwargs, External(0));
        InjectionIsExact(regs, s, busy, params[1..], kwargs);
        FirstSkipped(regs, s, t, busy, params, kwargs, r.value);
      }
    }
  }

  /** The object is a new instance of `cls`, built with exactly its injected arguments. */
  ghost predicate IsNewInstance(
    regs: Registrations, s: Store, t: Store, busy: set<Key>, cls: string, params: seq<Param>, obj: Obj)
  {
    && obj.Built? && |s.built| <= obj.id < |t.built|
    && t.built[obj.id].cls == cls
    && Arguments(regs, s, t, busy, params, t.built[obj.id].kwargs)
  }

  /** `create` builds one new instance of the class with exactly its injected arguments. */
  lemma CreateBuildsInstance(
    regs: Registrations, s: Store, busy: set<Key>, cls: string, params: seq<Param>)
    requires Inv(regs, s) && busy !! s.cache.Keys && DistinctNames(params)
    ensures var (r, t) := Provided(regs, s, busy, Construct(cls, params));
            r.Success? ==> IsNewInstance(regs, s, t, busy, cls, params, r.value)
  {
    InjectionIsExact(regs, s, busy, params, map[]);
    InjectedKeeps(regs, s, busy, params, map[]);
    var (r, t1) := Injected(regs, s, busy, params, map[]);
    if r.Success? {
      var t := Provided(regs, s, busy, Construct(cls, params)).1;
      ArgumentsWiden(regs, s, t1, t, busy, params, r.value);
    }
  }

  /**
   * After any run, resolving an uncached constructed key returns a new instance of its class:
   * the keyword arguments are exactly those of the parameters whose class is registered, each
   * holding the object that resolving that class gave, for a singleton the cached one.
   */
  lemma {:induction false} ResolveBuildsInstance(ops: seq<Op>, key: Key)
    requires var st := Run(EMPTY, ops);
             && key in st.regs && key !in st.store.cache && st.regs[key].provider.Construct?
             && DistinctNames(st.regs[key].provider.params)
    ensures var st := Run(EMPTY, ops);
            var (r, t) := Resolved(st.regs, st.store, {}, key);
            var provider := st.regs[key].provider;
            r.Success? ==> IsNewInstance(st.regs, st.store, t, {key}, provider.cls, provider.params, r.value)
  {
    RunInvariant(ops);
    var st := Run(EMPTY, ops);
    UncachedBuildsInstance(st.regs, st.store, key);
  }

  lemma UncachedBuildsInstance(regs: Registrations, s: Store, key: Key)
    requires Inv(regs, s) && key in regs && key !in s.cache && regs[key].provider.Construct?
    requires DistinctNames(regs[key].provider.params)
    ensures var (r, t) := Resolved(regs, s, {}, key);
            r.Success? ==>
              IsNewInstance(regs, s, t, {key}, regs[key].provider.cls, regs[key].provider.params, r.value)
  {
    var provider := regs[key].provider;
    assert {} + {key} == {key};
    CreateBuildsInstance(regs, s, {key}, provider.cls, provider.params);
    ProvidedKeeps(regs, s, {key}, provider);
    var (r, t1) := Provided(regs, s, {key}, provider);
    if r.Success? {
      var t := Resolved(regs, s, {}, key).1;
      CompleteKeeps(regs, t1, key, r.value);
      ArgumentsWiden(regs, s, t1, t, {key}, provider.params, t1.built[r.value.id].kwargs);
    }
  }

  lemma ArgumentsWiden(
    regs: Registrations, s: Store, t1: Store, t: Store, busy: set<Key>, params: seq<Param>, kwargs: map<string, Obj>)
    requires Arguments(regs, s, t1, busy, params, kwargs) && Advances(t1, t)
    ensures Arguments(regs, s, t, busy, params, kwargs)
  {
    AdvancesReflexive(s);
    forall p | p in params && p.name in kwargs
      ensures GivenTo(regs, s, t, busy, p, kwargs[p.name])
    {
      GivenWidens(regs, s, s, t1, t, busy, p, kwargs[p.name]);
    }
  }
}
