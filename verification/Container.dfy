/** core/registry.py and core/container.py: constructor-injecting dependency resolution. */
module Container {
  import opened Wrappers

  type Key = string

  /** An object: handed in from outside, or the n-th one the container built. */
  datatype Obj = External(id: nat) | Built(id: nat)

  datatype Instance = Instance(cls: string, kwargs: map<string, Obj>)

  datatype Lifetime = Singleton | Transient

  datatype Annotation = Missing | NotAClass | Class(key: Key)

  datatype Param = Param(name: string, annotation: Annotation, hasDefault: bool)

  /** Provider code as data: inject a constructor, delegate to another key, return an instance. */
  datatype Provider =
    | Construct(cls: string, params: seq<Param>)
    | Alias(target: Key)
    | Return(obj: Obj)

  datatype Registration = Registration(provider: Provider, lifetime: Lifetime)

  datatype ResolveError = NotRegistered | Circular | Uninjectable

  /** What happened so far; `heapSize` is the number of objects built at that moment. */
  datatype Event =
    | Completed(key: Key, obj: Obj)
    | Invalidated(key: Key, heapSize: nat)
    | InvalidatedAll(heapSize: nat)

  datatype Store = Store(cache: map<Key, Obj>, built: seq<Instance>, log: seq<Event>)

  type Registrations = map<Key, Registration>

  predicate Has(regs: Registrations, cache: map<Key, Obj>, key: Key) {
    key in cache || key in regs
  }

  // ---------- Resolution as a function ----------

  function Resolved(regs: Registrations, s: Store, busy: set<Key>, key: Key): (Result<Obj, ResolveError>, Store)
    decreases regs.Keys - busy, 0
  {
    if key in s.cache then (Success(s.cache[key]), s)
    else if key !in regs then (Failure(NotRegistered), s)
    else if key in busy then (Failure(Circular), s)
    else
      var (r, s1) := Provided(regs, s, busy + {key}, regs[key].provider);
      match r
      case Failure(_) => (r, s1)
      case Success(obj) => (r, Complete(s1, key, obj, regs[key].lifetime))
  }

  function Complete(s: Store, key: Key, obj: Obj, lifetime: Lifetime): Store {
    var s1 := s.(log := s.log + [Completed(key, obj)]);
    if lifetime == Singleton then s1.(cache := s1.cache[key := obj]) else s1
  }

  function Provided(regs: Registrations, s: Store, busy: set<Key>, provider: Provider)
    : (Result<Obj, ResolveError>, Store)
    decreases regs.Keys - busy, if provider.Construct? then |provider.params| + 2 else 1
  {
    match provider
    case Return(obj) => (Success(obj), s)
    case Alias(target) => Resolved(regs, s, busy, target)
    case Construct(cls, params) =>
      var (r, s1) := Injected(regs, s, busy, params, map[]);
      match r
      case Failure(e) => (Failure(e), s1)
      case Success(kwargs) => (Success(Built(|s1.built|)), s1.(built := s1.built + [Instance(cls, kwargs)]))
  }

  function Injected(regs: Registrations, s: Store, busy: set<Key>, params: seq<Param>, kwargs: map<string, Obj>)
    : (Result<map<string, Obj>, ResolveError>, Store)
    decreases regs.Keys - busy, |params| + 1
  {
    if params == [] then (Success(kwargs), s)
    else
      var p := params[0];
      if p.annotation.Class? && Has(regs, s.cache, p.annotation.key) then
        var (r, s1) := Resolved(regs, s, busy, p.annotation.key);
        match r
        case Failure(e) => (Failure(e), s1)
        case Success(obj) => Injected(regs, s1, busy, params[1..], kwargs[p.name := obj])
      else if p.hasDefault then Injected(regs, s, busy, params[1..], kwargs)
      else (Failure(if p.annotation.Missing? then Uninjectable else NotRegistered), s)
  }

  // ---------- The classes ----------

  class ServiceRegistry {
    var registrations: Registrations

    constructor ()
      ensures registrations == map[]
    {
      registrations := map[];
    }

    method Register(key: Key, provider: Provider, lifetime: Lifetime)
      modifies this
      ensures registrations == old(registrations)[key := Registration(provider, lifetime)]
    {
      registrations := registrations[key := Registration(provider, lifetime)];
    }

    method Get(key: Key) returns (r: Result<Registration, ResolveError>)
      ensures r == if key in registrations then Success(registrations[key]) else Failure(NotRegistered)
    {
      r := if key in registrations then Success(registrations[key]) else Failure(NotRegistered);
    }

    method Contains(key: Key) returns (b: bool)
      ensures b <==> key in registrations
    {
      b := key in registrations;
    }
  }

  class ServiceContainer {
    const registry: ServiceRegistry
    var singletons: map<Key, Obj>
    var resolving: set<Key>
    var heap: seq<Instance>
    ghost var log: seq<Event>

    constructor (registry: ServiceRegistry)
      ensures this.registry == registry
      ensures resolving == {} && Contents() == Store(map[], [], [])
    {
      this.registry := registry;
      singletons, resolving, heap, log := map[], {}, [], [];
    }

    ghost function Contents(): Store
      reads this
    {
      Store(singletons, heap, log)
    }

    ghost function Snapshot(): State
      reads this, registry
    {
      State(registry.registrations, Contents())
    }

    method Register(key: Key, provider: Provider, lifetime: Lifetime)
      modifies this, registry
      ensures Snapshot() == Step(old(Snapshot()), DoRegister(key, provider, lifetime))
      ensures resolving == old(resolving)
    {
      registry.Register(key, provider, lifetime);
      singletons := singletons - {key};
      log := log + [Invalidated(key, |heap|)];
    }

    method RegisterInstance(key: Key, obj: Obj)
      modifies this, registry
      ensures Snapshot() == Step(old(Snapshot()), DoRegisterInstance(key, obj))
      ensures resolving == old(resolving)
    {
      registry.Register(key, Return(obj), Singleton);
      singletons := singletons[key := obj];
      log := log + [Invalidated(key, |heap|)];
    }

    method HasKey(key: Key) returns (b: bool)
      ensures b <==> Has(registry.registrations, singletons, key)
    {
      var registered := registry.Contains(key);
      b := key in singletons || registered;
    }

    method Resolve(key: Key) returns (r: Result<Obj, ResolveError>)
      modifies this
      ensures (r, Contents()) == Resolved(registry.registrations, old(Contents()), old(resolving), key)
      ensures resolving == old(resolving)
      decreases registry.registrations.Keys - resolving, 0
    {
      if key in singletons {
        return Success(singletons[key]);
      }
      var registration := registry.Get(key);
      if registration.Failure? {
        return Failure(registration.error);
      }
      if key in resolving {
        return Failure(Circular);
      }
      resolving := resolving + {key};
      r := Provide(registration.value.provider);
      resolving := resolving - {key};
      if r.Success? {
        log := log + [Completed(key, r.value)];
        if registration.value.lifetime == Singleton {
          singletons := singletons[key := r.value];
        }
      }
    }

    method Provide(provider: Provider) returns (r: Result<Obj, ResolveError>)
      modifies this
      ensures (r, Contents()) == Provided(registry.registrations, old(Contents()), old(resolving), provider)
      ensures resolving == old(resolving)
      decreases registry.registrations.Keys - resolving, if provider.Construct? then |provider.params| + 2 else 1
    {
      match provider
      case Return(obj) => r := Success(obj);
      case Alias(target) => r := Resolve(target);
      case Construct(cls, params) => r := Build(cls, params);
    }

    method Build(cls: string, params: seq<Param>) returns (r: Result<Obj, ResolveError>)
      modifies this
      ensures (r, Contents()) ==
              Provided(registry.registrations, old(Contents()), old(resolving), Construct(cls, params))
      ensures resolving == old(resolving)
      decreases registry.registrations.Keys - resolving, |params| + 1
    {
      var kwargs: map<string, Obj> := map[];
      ghost var goal := Injected(registry.registrations, Contents(), resolving, params, map[]);
      for i := 0 to |params|
        invariant resolving == old(resolving) && registry.registrations == old(registry.registrations)
        invariant Injected(registry.registrations, Contents(), resolving, params[i..], kwargs) == goal
      {
        var p := params[i];
        assert params[i..][0] == p && params[i..][1..] == params[i + 1..];
        var injectable := false;
        if p.annotation.Class? {
          injectable := HasKey(p.annotation.key);
        }
        if injectable {
          var dependency := Resolve(p.annotation.key);
          if dependency.Failure? {
            return Failure(dependency.error);
          }
          kwargs := kwargs[p.name := dependency.value];
        } else if !p.hasDefault {
          return Failure(if p.annotation.Missing? then Uninjectable else NotRegistered);
        }
      }
      r := Success(Built(|heap|));
      heap := heap + [Instance(cls, kwargs)];
    }

    method Create(cls: string, params: seq<Param>) returns (r: Result<Obj, ResolveError>)
      modifies this
      ensures (r, Contents()) ==
              Provided(registry.registrations, old(Contents()), old(resolving), Construct(cls, params))
      ensures old(resolving) == {} ==> Snapshot() == Step(old(Snapshot()), DoCreate(cls, params))
      ensures resolving == old(resolving)
    {
      r := Build(cls, params);
    }

    method Reset()
      modifies this
      ensures Snapshot() == Step(old(Snapshot()), DoReset)
      ensures resolving == old(resolving)
    {
      singletons := map[];
      log := log + [InvalidatedAll(|heap|)];
    }
  }

  // ---------- Runs ----------

  datatype State = State(regs: Registrations, store: Store)

  datatype Op =
    | DoRegister(key: Key, provider: Provider, lifetime: Lifetime)
    | DoRegisterInstance(key: Key, obj: Obj)
    | DoResolve(key: Key)
    | DoCreate(cls: string, params: seq<Param>)
    | DoReset

  ghost function Step(st: State, op: Op): State {
    var s := st.store;
    match op
    case DoRegister(key, provider, lifetime) =>
      State(st.regs[key := Registration(provider, lifetime)],
            Store(s.cache - {key}, s.built, s.log + [Invalidated(key, |s.built|)]))
    case DoRegisterInstance(key, obj) =>
      State(st.regs[key := Registration(Return(obj), Singleton)],
            Store(s.cache[key := obj], s.built, s.log + [Invalidated(key, |s.built|)]))
    case DoResolve(key) => State(st.regs, Resolved(st.regs, s, {}, key).1)
    case DoCreate(cls, params) => State(st.regs, Provided(st.regs, s, {}, Construct(cls, params)).1)
    case DoReset => State(st.regs, Store(map[], s.built, s.log + [InvalidatedAll(|s.built|)]))
  }

  ghost function Run(st: State, ops: seq<Op>): State {
    if ops == [] then st else Step(Run(st, ops[..|ops| - 1]), ops[|ops| - 1])
  }

  const EMPTY := State(map[], Store(map[], [], []))
}
