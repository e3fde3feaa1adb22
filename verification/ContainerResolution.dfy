/** When `resolve` succeeds, in terms of the graph of uncached keys alone. */
module ContainerResolution {
  import opened Container

  // ---------- The dependency graph ----------

  /** Building `k` makes the container resolve the uncached key `d`. */
  ghost predicate Edge(regs: Registrations, cached: set<Key>, k: Key, d: Key) {
    && k in regs
    && d !in cached
    && match regs[k].provider
       case Return(_) => false
       case Alias(target) => d == target
       case Construct(_, params) => d in regs && exists p :: p in params && p.annotation == Class(d)
  }

  ghost predicate Injectable(regs: Registrations, cached: set<Key>, p: Param) {
    p.hasDefault || (p.annotation.Class? && (p.annotation.key in cached || p.annotation.key in regs))
  }

  /** `k` is registered and its constructor has no required parameter that cannot be injected. */
  ghost predicate Sound(regs: Registrations, cached: set<Key>, k: Key) {
    && k in regs
    && (regs[k].provider.Construct? ==>
          forall p :: p in regs[k].provider.params ==> Injectable(regs, cached, p))
  }

  ghost predicate IsPath(regs: Registrations, cached: set<Key>, path: seq<Key>) {
    && |path| > 0
    && forall i | 0 <= i < |path| - 1 :: Edge(regs, cached, path[i], path[i + 1])
  }

  ghost predicate Distinct(path: seq<Key>) {
    forall i, j | 0 <= i < j < |path| :: path[i] != path[j]
  }

  /** Everything reachable from `k` is sound and no reachable path closes a cycle. */
  ghost predicate Healthy(regs: Registrations, cached: set<Key>, k: Key) {
    forall path | IsPath(regs, cached, path) && path[0] == k ::
      Sound(regs, cached, path[|path| - 1]) && Distinct(path)
  }

  /** No path from `k` meets `busy`. */
  ghost predicate Avoids(regs: Registrations, cached: set<Key>, k: Key, busy: set<Key>) {
    forall path, i | IsPath(regs, cached, path) && path[0] == k && 0 <= i < |path| :: path[i] !in busy
  }

  lemma Prepend(regs: Registrations, cached: set<Key>, k: Key, path: seq<Key>)
    requires IsPath(regs, cached, path) && Edge(regs, cached, k, path[0])
    ensures IsPath(regs, cached, [k] + path)
  {
    var longer := [k] + path;
    forall i | 0 <= i < |longer| - 1
      ensures Edge(regs, cached, longer[i], longer[i + 1])
    {
      if i > 0 {
        assert Edge(regs, cached, path[i - 1], path[i]);
      }
    }
  }

  lemma HealthyDescends(regs: Registrations, cached: set<Key>, k: Key, d: Key)
    requires Healthy(regs, cached, k) && Edge(regs, cached, k, d)
    ensures Healthy(regs, cached, d)
  {
    forall path | IsPath(regs, cached, path) && path[0] == d
      ensures Sound(regs, cached, path[|path| - 1]) && Distinct(path)
    {
      Prepend(regs, cached, k, path);
      assert ([k] + path)[|path|] == path[|path| - 1];
      forall i, j | 0 <= i < j < |path|
        ensures path[i] != path[j]
      {
        assert ([k] + path)[i + 1] == path[i] && ([k] + path)[j + 1] == path[j];
      }
    }
  }

  lemma HealthyIsSound(regs: Registrations, cached: set<Key>, k: Key)
    requires Healthy(regs, cached, k)
    ensures Sound(regs, cached, k)
  {
    assert IsPath(regs, cached, [k]);
  }

  lemma HealthyStep(regs: Registrations, cached: set<Key>, k: Key)
    requires Sound(regs, cached, k)
    requires forall d | Edge(regs, cached, k, d) :: Healthy(regs, cached, d)
    ensures Healthy(regs, cached, k)
  {
    forall path | IsPath(regs, cached, path) && path[0] == k
      ensures Sound(regs, cached, path[|path| - 1]) && Distinct(path)
    {
      if |path| > 1 {
        var d, rest := path[1], path[1..];
        assert Edge(regs, cached, path[0], path[1]);
        assert IsPath(regs, cached, rest) by {
          forall i | 0 <= i < |rest| - 1
            ensures Edge(regs, cached, rest[i], rest[i + 1])
          {
            assert Edge(regs, cached, path[i + 1], path[i + 2]);
          }
        }
        NeverReturns(regs, cached, k, rest);
        forall i, j | 0 <= i < j < |path|
          ensures path[i] != path[j]
        {
          assert path[j] == rest[j - 1];
          if i > 0 {
            assert path[i] == rest[i - 1];
          }
        }
      }
    }
  }

  lemma CloseLoop(regs: Registrations, cached: set<Key>, k: Key, rest: seq<Key>, i: nat)
    requires IsPath(regs, cached, rest) && Edge(regs, cached, k, rest[0])
    requires i < |rest| && rest[i] == k
    ensures var loop := rest[..i + 1] + [rest[0]];
            IsPath(regs, cached, loop) && loop[0] == rest[0] && !Distinct(loop)
  {
    var loop := rest[..i + 1] + [rest[0]];
    assert loop[0] == loop[i + 1];
  }

  /** A path from a healthy successor of `k` cannot come back to `k`. */
  lemma NeverReturns(regs: Registrations, cached: set<Key>, k: Key, rest: seq<Key>)
    requires IsPath(regs, cached, rest) && Edge(regs, cached, k, rest[0])
    requires Healthy(regs, cached, rest[0])
    ensures k !in rest
  {
    if k in rest {
      var i :| 0 <= i < |rest| && rest[i] == k;
      CloseLoop(regs, cached, k, rest, i);
    }
  }

  lemma AvoidsDescends(regs: Registrations, cached: set<Key>, k: Key, busy: set<Key>, d: Key)
    requires Healthy(regs, cached, k) && Avoids(regs, cached, k, busy) && Edge(regs, cached, k, d)
    ensures Avoids(regs, cached, d, busy + {k})
  {
    forall path, i | IsPath(regs, cached, path) && path[0] == d && 0 <= i < |path|
      ensures path[i] !in busy + {k}
    {
      var longer := [k] + path;
      Prepend(regs, cached, k, path);
      assert longer[i + 1] == path[i];
      assert Distinct(longer);
      assert longer[0] != longer[i + 1];
    }
  }

  // ---------- The cache while resolving ----------

  /** `cache` extends the initial one by healthy keys only. */
  ghost predicate Grown(regs: Registrations, cached: set<Key>, cache: map<Key, Obj>) {
    && cached <= cache.Keys
    && forall k | k in cache && k !in cached :: Healthy(regs, cached, k) && k in regs
  }

  lemma {:induction false} SuccessMeansHealthy(
    regs: Registrations, cached: set<Key>, s: Store, busy: set<Key>, key: Key)
    requires Grown(regs, cached, s.cache)
    ensures var (r, s1) := Resolved(regs, s, busy, key);
            Grown(regs, cached, s1.cache) && (r.Success? ==> key in cached || Healthy(regs, cached, key))
    decreases regs.Keys - busy, 0
  {
    if key !in s.cache && key in regs && key !in busy {
      var provider := regs[key].provider;
      var (r, s1) := Provided(regs, s, busy + {key}, provider);
      match provider
      case Return(_) =>
        HealthyStep(regs, cached, key);
      case Alias(target) =>
        SuccessMeansHealthy(regs, cached, s, busy + {key}, target);
        if r.Success? {
          HealthyStep(regs, cached, key);
        }
      case Construct(cls, params) =>
        InjectionMeansHealthy(regs, cached, s, busy + {key}, params, map[]);
        if r.Success? {
          assert forall p | p in params :: Injectable(regs, cached, p);
          HealthyStep(regs, cached, key);
        }
    }
  }

  lemma {:induction false} InjectionMeansHealthy(
    regs: Registrations, cached: set<Key>, s: Store, busy: set<Key>, params: seq<Param>, kwargs: map<string, Obj>)
    requires Grown(regs, cached, s.cache)
    ensures var (r, s1) := Injected(regs, s, busy, params, kwargs);
            && Grown(regs, cached, s1.cache)
            && (r.Success? ==> forall p | p in params ::
                  && Injectable(regs, cached, p)
                  && (p.annotation.Class? && p.annotation.key in regs && p.annotation.key !in cached ==>
                        Healthy(regs, cached, p.annotation.key)))
    decreases regs.Keys - busy, |params| + 1
  {
    if params != [] {
      var p := params[0];
      assert forall q :: q in params ==> q == p || q in params[1..];
      if p.annotation.Class? && Has(regs, s.cache, p.annotation.key) {
        SuccessMeansHealthy(regs, cached, s, busy, p.annotation.key);
        var (r, s1) := Resolved(regs, s, busy, p.annotation.key);
        if r.Success? {
          InjectionMeansHealthy(regs, cached, s1, busy, params[1..], kwargs[p.name := r.value]);
        }
      } else if p.hasDefault {
        InjectionMeansHealthy(regs, cached, s, busy, params[1..], kwargs);
      }
    }
  }

  lemma {:induction false} HealthyMeansSuccess(
    regs: Registrations, cached: set<Key>, s: Store, busy: set<Key>, key: Key)
    requires Grown(regs, cached, s.cache)
    requires key in cached || (Healthy(regs, cached, key) && Avoids(regs, cached, key, busy))
    ensures Resolved(regs, s, busy, key).0.Success?
    decreases regs.Keys - busy, 0
  {
    if key !in s.cache {
      HealthyIsSound(regs, cached, key);
      assert key !in busy by {
        assert IsPath(regs, cached, [key]) && [key][0] == key;
      }
      match regs[key].provider
      case Return(_) =>
      case Alias(target) =>
        if target !in cached {
          HealthyDescends(regs, cached, key, target);
          AvoidsDescends(regs, cached, key, busy, target);
        }
        HealthyMeansSuccess(regs, cached, s, busy + {key}, target);
      case Construct(cls, params) =>
        forall d | Edge(regs, cached, key, d)
          ensures Healthy(regs, cached, d) && Avoids(regs, cached, d, busy + {key})
        {
          HealthyDescends(regs, cached, key, d);
          AvoidsDescends(regs, cached, key, busy, d);
        }
        InjectionSucceeds(regs, cached, s, busy + {key}, params, map[]);
    }
  }

  lemma {:induction false} InjectionSucceeds(
    regs: Registrations, cached: set<Key>, s: Store, busy: set<Key>, params: seq<Param>, kwargs: map<string, Obj>)
    requires Grown(regs, cached, s.cache)
    requires forall p | p in params :: Injectable(regs, cached, p)
    requires forall p | p in params && p.annotation.Class? && p.annotation.key in regs && p.annotation.key !in cached ::
      Healthy(regs, cached, p.annotation.key) && Avoids(regs, cached, p.annotation.key, busy)
    ensures Injected(regs, s, busy, params, kwargs).0.Success?
    decreases regs.Keys - busy, |params| + 1
  {
    if params != [] {
      var p := params[0];
      assert p in params && forall q :: q in params[1..] ==> q in params;
      if p.annotation.Class? && Has(regs, s.cache, p.annotation.key) {
        HealthyMeansSuccess(regs, cached, s, busy, p.annotation.key);
        SuccessMeansHealthy(regs, cached, s, busy, p.annotation.key);
        var (r, s1) := Resolved(regs, s, busy, p.annotation.key);
        InjectionSucceeds(regs, cached, s1, busy, params[1..], kwargs[p.name := r.value]);
      } else {
        InjectionSucceeds(regs, cached, s, busy, params[1..], kwargs);
      }
    }
  }

  // ---------- Which failure ----------

  /** What `k` lacks: its registration, an annotation of a required parameter, or that parameter's class. */
  ghost predicate Lacks(regs: Registrations, cached: set<Key>, k: Key, e: ResolveError) {
    match e
    case Circular => false
    case NotRegistered =>
      k !in regs || (regs[k].provider.Construct? && exists p ::
                       p in regs[k].provider.params && !Injectable(regs, cached, p) && !p.annotation.Missing?)
    case Uninjectable =>
      k in regs && regs[k].provider.Construct? && exists p ::
        p in regs[k].provider.params && !p.hasDefault && p.annotation.Missing?
  }

  /** A path from `root` that explains the error: it closes a cycle, or ends where that is missing. */
  ghost predicate Explains(
    regs: Registrations, cached: set<Key>, root: Key, path: seq<Key>, e: ResolveError)
  {
    && IsPath(regs, cached, path) && path[0] == root
    && if e == Circular then !Distinct(path) else Lacks(regs, cached, path[|path| - 1], e)
  }

  lemma ExtendPath(regs: Registrations, cached: set<Key>, path: seq<Key>, d: Key)
    requires IsPath(regs, cached, path) && Edge(regs, cached, path[|path| - 1], d)
    ensures IsPath(regs, cached, path + [d]) && (path + [d])[..|path|] == path
  {
  }

  ghost function Members(keys: seq<Key>): set<Key> {
    set k | k in keys
  }

  /** Resolution came to `key` along `before`, whose keys are the busy ones. */
  lemma {:induction false} FailureIsExplained(
    regs: Registrations, cached: set<Key>, s: Store, before: seq<Key>, key: Key)
    returns (cause: seq<Key>)
    requires Grown(regs, cached, s.cache) && IsPath(regs, cached, before + [key])
    ensures var r := Resolved(regs, s, Members(before), key).0;
            r.Failure? ==> Explains(regs, cached, (before + [key])[0], cause, r.error)
    decreases regs.Keys - Members(before), 0
  {
    var path := before + [key];
    cause := path;
    var r := Resolved(regs, s, Members(before), key).0;
    if r.Failure? {
      if key !in regs {
        assert Lacks(regs, cached, path[|path| - 1], NotRegistered);
      } else if key in Members(before) {
        var i :| 0 <= i < |before| && before[i] == key;
        assert path[i] == path[|before|];
      } else {
        assert Members(before) + {key} == Members(path);
        assert r == Provided(regs, s, Members(path), regs[key].provider).0;
        match regs[key].provider
        case Alias(target) =>
          assert r == Resolved(regs, s, Members(path), target).0;
          ExtendPath(regs, cached, path, target);
          cause := FailureIsExplained(regs, cached, s, path, target);
          assert (path + [target])[0] == path[0];
        case Construct(cls, params) =>
          cause := InjectionFailureIsExplained(regs, cached, s, path, params, map[]);
          assert Injected(regs, s, Members(path), params, map[]).0.Failure?;
      }
    }
  }

  lemma {:induction false} InjectionFailureIsExplained(
    regs: Registrations, cached: set<Key>, s: Store, path: seq<Key>,
    params: seq<Param>, kwargs: map<string, Obj>)
    returns (cause: seq<Key>)
    requires Grown(regs, cached, s.cache) && IsPath(regs, cached, path)
    requires var key := path[|path| - 1];
             key in regs && regs[key].provider.Construct?
             && forall p | p in params :: p in regs[key].provider.params
    ensures var r := Injected(regs, s, Members(path), params, kwargs).0;
            r.Failure? ==> Explains(regs, cached, path[0], cause, r.error)
    decreases regs.Keys - Members(path), |params| + 1
  {
    cause := path;
    if params != [] {
      var p := params[0];
      assert p in params && forall q :: q in params[1..] ==> q in params;
      if p.annotation.Class? && Has(regs, s.cache, p.annotation.key) {
        var d := p.annotation.key;
        var (r, s1) := Resolved(regs, s, Members(path), d);
        SuccessMeansHealthy(regs, cached, s, Members(path), d);
        if r.Success? {
          cause := InjectionFailureIsExplained(regs, cached, s1, path, params[1..], kwargs[p.name := r.value]);
        } else {
          ExtendPath(regs, cached, path, d);
          cause := FailureIsExplained(regs, cached, s, path, d);
          assert (path + [d])[0] == path[0];
        }
      } else if p.hasDefault {
        cause := InjectionFailureIsExplained(regs, cached, s, path, params[1..], kwargs);
      } else {
        assert !Injectable(regs, cached, p);
      }
    }
  }

  // ---------- Main theorem ----------

  /**
   * From an empty `_resolving`, resolve(k) returns normally exactly when k is cached or
   * the graph reachable from k through uncached keys is acyclic with nothing missing.
   */
  lemma ResolvesExactlyWhenHealthy(regs: Registrations, s: Store, key: Key)
    ensures Resolved(regs, s, {}, key).0.Success? <==>
            key in s.cache || Healthy(regs, s.cache.Keys, key)
  {
    SuccessMeansHealthy(regs, s.cache.Keys, s, {}, key);
    if key in s.cache || Healthy(regs, s.cache.Keys, key) {
      HealthyMeansSuccess(regs, s.cache.Keys, s, {}, key);
    }
  }

  /** A circularity error exhibits a reachable cycle; any other error a reachable key that lacks just that. */
  lemma ErrorNamesItsCause(regs: Registrations, s: Store, key: Key)
    requires Resolved(regs, s, {}, key).0.Failure?
    ensures exists path :: Explains(regs, s.cache.Keys, key, path, Resolved(regs, s, {}, key).0.error)
  {
    var cause := FailureIsExplained(regs, s.cache.Keys, s, [], key);
    assert Members([]) == {} && ([] + [key])[0] == key;
  }
}
