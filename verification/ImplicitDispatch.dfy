/**
 * audit_harness/trace.py: which method an attribute access or a `with` statement runs,
 * judged statically, against the Python 3.12 attribute-lookup rules (Language Reference,
 * section 3.3.2.3, "Invoking Descriptors", and type/object.__getattribute__).
 */
module ImplicitDispatch {
  import opened Wrappers

  /** Load, store and delete, with the descriptor method each one looks for. */
  datatype Op = Get | Set | Delete

  /** A function written somewhere, or one of `property`'s own C slots. */
  datatype Func = User(id: nat) | PropertySlot(op: Op)

  /** A class attribute: a `property`, or a value whose type defines some of the three dunders. */
  datatype Attr =
    | Property(fget: Option<Func>, fset: Option<Func>, fdel: Option<Func>)
    | Plain(get: Option<Func>, set_: Option<Func>, delete_: Option<Func>)

  /** Class dictionaries along the MRO, and the access hooks the class overrides. */
  datatype Class = Class(mro: seq<map<string, Attr>>, overrides: set<Op>)

  function Lookup(mro: seq<map<string, Attr>>, name: string): Option<Attr> {
    if mro == [] then None
    else if name in mro[0] then Some(mro[0][name])
    else Lookup(mro[1..], name)
  }

  function Accessor(a: Attr, op: Op): Option<Func> {
    match (a, op)
    case (Property(fget, _, _), Get) => fget
    case (Property(_, fset, _), Set) => fset
    case (Property(_, _, fdel), Delete) => fdel
    case (Plain(get, _, _), Get) => get
    case (Plain(_, set_, _), Set) => set_
    case (Plain(_, _, delete_), Delete) => delete_
  }

  predicate Implements(a: Attr, op: Op) {
    a.Property? || Accessor(a, op).Some?
  }

  predicate IsDataDescriptor(a: Attr) {
    Implements(a, Set) || Implements(a, Delete)
  }

  // ---------- The static verdict ----------

  datatype Outcome = NoDispatch | Resolved(target: Func) | Ambiguous(candidate: Option<Func>)

  /** A property stands for its accessor, or for its own slot when the accessor is missing. */
  function Unwrap(a: Attr, op: Op): Option<Func> {
    if a.Property? && Accessor(a, op).None? then Some(PropertySlot(op)) else Accessor(a, op)
  }

  function ResolvedTo(target: Option<Func>): Outcome {
    match target
    case None => NoDispatch
    case Some(f) => Resolved(f)
  }

  function OutcomeForInstanceDefault(cls: Class, name: string, op: Op): Outcome {
    match Lookup(cls.mro, name)
    case None => NoDispatch
    case Some(raw) =>
      if op == Get then
        if !Implements(raw, Get) then NoDispatch
        else if !IsDataDescriptor(raw) then Ambiguous(Unwrap(raw, Get))
        else ResolvedTo(Unwrap(raw, Get))
      else if !Implements(raw, op) then NoDispatch
      else ResolvedTo(Unwrap(raw, op))
  }

  function OutcomeForInstance(cls: Class, name: string, op: Op): Outcome {
    var outcome := OutcomeForInstanceDefault(cls, name, op);
    if op in cls.overrides then
      Ambiguous(match outcome
                case NoDispatch => None
                case Resolved(f) => Some(f)
                case Ambiguous(c) => c)
    else outcome
  }

  function OutcomeForClassDefault(meta: Class, cls: Class, name: string, op: Op): Outcome {
    var metaRaw := Lookup(meta.mro, name);
    if op != Get then
      if metaRaw.Some? && Implements(metaRaw.value, op) then ResolvedTo(Unwrap(metaRaw.value, op)) else NoDispatch
    else if metaRaw.Some? && IsDataDescriptor(metaRaw.value) then ResolvedTo(Unwrap(metaRaw.value, Get))
    else
      match Lookup(cls.mro, name)
      case Some(raw) => if Implements(raw, Get) then ResolvedTo(Unwrap(raw, Get)) else NoDispatch
      case None =>
        if metaRaw.Some? && Implements(metaRaw.value, Get) then ResolvedTo(Unwrap(metaRaw.value, Get))
        else NoDispatch
  }

  function OutcomeForClass(meta: Class, cls: Class, name: string, op: Op): Outcome {
    if op in meta.overrides then Ambiguous(None) else OutcomeForClassDefault(meta, cls, name, op)
  }

  // ---------- What Python runs ----------

  // The reference side reads the attribute's own fields and shares nothing with the verdict but `Lookup`.

  /** The attribute's type defines `__get__`, `__set__` or `__delete__`; `property` defines all three. */
  predicate Defines(a: Attr, op: Op) {
    match a
    case Property(_, _, _) => true
    case Plain(get, set_, delete_) =>
      (op == Get && get.Some?) || (op == Set && set_.Some?) || (op == Delete && delete_.Some?)
  }

  /** A data descriptor defines `__set__` or `__delete__`. */
  predicate TakesPriority(a: Attr) {
    a.Property? || a.set_.Some? || a.delete_.Some?
  }

  function Calls(f: Option<Func>): seq<Func> {
    if f.Some? then [f.value] else []
  }

  /** Invoking a descriptor for an object: a property's slot calls the accessor, if there is one. */
  function Invoke(a: Attr, op: Op): seq<Func> {
    match (a, op)
    case (Property(fget, _, _), Get) => [PropertySlot(Get)] + Calls(fget)
    case (Property(_, fset, _), Set) => [PropertySlot(Set)] + Calls(fset)
    case (Property(_, _, fdel), Delete) => [PropertySlot(Delete)] + Calls(fdel)
    case (Plain(get, _, _), Get) => Calls(get)
    case (Plain(_, set_, _), Set) => Calls(set_)
    case (Plain(_, _, delete_), Delete) => Calls(delete_)
  }

  /** `a.__get__(None, cls)`: a property returns itself without calling its accessor. */
  function InvokeOnOwner(a: Attr): seq<Func> {
    match a
    case Property(_, _, _) => [PropertySlot(Get)]
    case Plain(get, _, _) => Calls(get)
  }

  /**
   * The functions run by one access on an instance whose dictionary holds `dict`:
   * data descriptors first, then the instance dictionary, then non-data descriptors.
   * A store or delete that meets a data descriptor without that method raises.
   */
  function OnInstance(cls: Class, dict: set<string>, name: string, op: Op): seq<Func> {
    match Lookup(cls.mro, name)
    case None => []
    case Some(raw) =>
      if op == Get then
        if TakesPriority(raw) && Defines(raw, Get) then Invoke(raw, Get)
        else if name in dict then []
        else if Defines(raw, Get) then Invoke(raw, Get)
        else []
      else if TakesPriority(raw) && Defines(raw, op) then Invoke(raw, op)
      else []
  }

  /** The functions run by one access on the class object itself, metaclass first. */
  function OnClass(meta: Class, cls: Class, name: string, op: Op): seq<Func> {
    var metaRaw := Lookup(meta.mro, name);
    if op != Get then
      if metaRaw.Some? && TakesPriority(metaRaw.value) && Defines(metaRaw.value, op)
      then Invoke(metaRaw.value, op) else []
    else if metaRaw.Some? && TakesPriority(metaRaw.value) && Defines(metaRaw.value, Get)
    then Invoke(metaRaw.value, Get)
    else
      match Lookup(cls.mro, name)
      case Some(raw) => if Defines(raw, Get) then InvokeOnOwner(raw) else []
      case None =>
        if metaRaw.Some? && Defines(metaRaw.value, Get) then Invoke(metaRaw.value, Get) else []
  }

  /** The innermost function an access ran: the accessor behind a property's slot. */
  function Ran(trace: seq<Func>): Option<Func> {
    if trace == [] then None else Some(trace[|trace| - 1])
  }

  // ---------- Instance receivers: the verdicts are exact ----------

  lemma InstanceOutcomeExact(cls: Class, name: string, op: Op)
    requires op !in cls.overrides
    ensures forall f :: OutcomeForInstance(cls, name, op) == Resolved(f) <==>
              forall dict :: Ran(OnInstance(cls, dict, name, op)) == Some(f)
    ensures OutcomeForInstance(cls, name, op) == NoDispatch <==>
              forall dict :: OnInstance(cls, dict, name, op) == []
    ensures OutcomeForInstance(cls, name, op).Ambiguous? <==>
              && (exists dict :: OnInstance(cls, dict, name, op) != [])
              && (exists dict :: OnInstance(cls, dict, name, op) == [])
  {
    var empty, shadowed := OnInstance(cls, {}, name, op), OnInstance(cls, {name}, name, op);
    forall f
      ensures OutcomeForInstance(cls, name, op) == Resolved(f) <==>
                forall dict :: Ran(OnInstance(cls, dict, name, op)) == Some(f)
    {
      if forall dict :: Ran(OnInstance(cls, dict, name, op)) == Some(f) {
        assert Ran(empty) == Some(f) && Ran(shadowed) == Some(f);
      }
    }
    assert OnInstance(cls, {}, name, op) == empty;
    assert OnInstance(cls, {name}, name, op) == shadowed;
  }

  /** Lookup gives the attribute of the first class along the MRO that has the name, if any does. */
  lemma {:induction false} LookupIsFirst(mro: seq<map<string, Attr>>, name: string)
    ensures forall a :: Lookup(mro, name) == Some(a) <==>
              exists i :: 0 <= i < |mro| && name in mro[i] && mro[i][name] == a
                          && forall j | 0 <= j < i :: name !in mro[j]
    ensures Lookup(mro, name) == None <==> forall i | 0 <= i < |mro| :: name !in mro[i]
  {
    if mro != [] && name !in mro[0] {
      var rest := mro[1..];
      LookupIsFirst(rest, name);
      forall a
        ensures Lookup(mro, name) == Some(a) <==>
                  exists i :: 0 <= i < |mro| && name in mro[i] && mro[i][name] == a
                              && forall j | 0 <= j < i :: name !in mro[j]
      {
        if i :| 0 <= i < |rest| && name in rest[i] && rest[i][name] == a && forall j | 0 <= j < i :: name !in rest[j] {
          assert name in mro[i + 1] && mro[i + 1][name] == a;
          assert forall j | 0 < j < i + 1 :: mro[j] == rest[j - 1];
        }
        if i :| 0 <= i < |mro| && name in mro[i] && mro[i][name] == a && forall j | 0 <= j < i :: name !in mro[j] {
          assert name in rest[i - 1] && rest[i - 1][name] == a;
          assert forall j | 0 <= j < i - 1 :: rest[j] == mro[j + 1];
        }
      }
      assert forall i | 0 < i < |mro| :: mro[i] == rest[i - 1];
    }
  }

  /**
   * An overridden access hook is never trusted: the verdict is ambiguous whatever the class
   * holds. On an instance it still names what the default protocol would have run.
   */
  lemma OverrideIsAmbiguous(meta: Class, cls: Class, name: string, op: Op)
    ensures op in cls.overrides ==>
              OutcomeForInstance(cls, name, op) == Ambiguous(Ran(OnInstance(cls, {}, name, op)))
    ensures OutcomeForClass(meta, cls, name, op).Ambiguous? <==> op in meta.overrides
    ensures op in meta.overrides ==> OutcomeForClass(meta, cls, name, op) == Ambiguous(None)
  {
  }

  /** The candidate of an ambiguous verdict is what runs on every unshadowed instance. */
  lemma AmbiguousCandidateRuns(cls: Class, name: string, op: Op, dict: set<string>)
    requires op !in cls.overrides && OutcomeForInstance(cls, name, op).Ambiguous?
    ensures Ran(OnInstance(cls, dict, name, op)) ==
            if name in dict then None else OutcomeForInstance(cls, name, op).candidate
  {
  }

  // ---------- Class receivers: exact but for two shapes ----------

  ghost predicate ClassOutcomeExact(meta: Class, cls: Class, name: string, op: Op) {
    match OutcomeForClass(meta, cls, name, op)
    case Resolved(f) => Ran(OnClass(meta, cls, name, op)) == Some(f)
    case NoDispatch => OnClass(meta, cls, name, op) == []
    case Ambiguous(_) => false
  }

  /** A metaclass data descriptor without `__get__` in front of a class attribute that has one. */
  predicate SetOnlyMetaShadows(meta: Class, cls: Class, name: string) {
    var metaRaw, raw := Lookup(meta.mro, name), Lookup(cls.mro, name);
    && metaRaw.Some? && TakesPriority(metaRaw.value) && !Defines(metaRaw.value, Get)
    && raw.Some? && Defines(raw.value, Get)
  }

  /** A property with a getter read through the class that owns it. */
  predicate PropertyReadOnOwner(meta: Class, cls: Class, name: string) {
    var metaRaw, raw := Lookup(meta.mro, name), Lookup(cls.mro, name);
    && !(metaRaw.Some? && TakesPriority(metaRaw.value))
    && raw.Some? && raw.value.Property? && raw.value.fget.Some?
    && raw.value.fget != Some(PropertySlot(Get))
  }

  lemma ClassOutcomeExactly(meta: Class, cls: Class, name: string, op: Op)
    requires op !in meta.overrides
    ensures ClassOutcomeExact(meta, cls, name, op) <==>
            !(op == Get && (SetOnlyMetaShadows(meta, cls, name) || PropertyReadOnOwner(meta, cls, name)))
  {
  }

  /** Nothing that runs escapes the class verdict, save behind a set-only metaclass descriptor. */
  lemma ClassVerdictMissesNothing(meta: Class, cls: Class, name: string, op: Op)
    requires op !in meta.overrides && OutcomeForClass(meta, cls, name, op) == NoDispatch
    ensures OnClass(meta, cls, name, op) != [] <==> op == Get && SetOnlyMetaShadows(meta, cls, name)
  {
  }

  lemma InexactShapesExist(f: Func, g: Func)
    requires f.User?
    ensures exists meta: Class, cls: Class, name: string :: meta.overrides == {} && SetOnlyMetaShadows(meta, cls, name)
    ensures exists meta: Class, cls: Class, name: string :: meta.overrides == {} && PropertyReadOnOwner(meta, cls, name)
  {
    var meta := Class([map["x" := Plain(None, Some(g), None)]], {});
    var reader := Class([map["x" := Plain(Some(f), None, None)]], {});
    assert SetOnlyMetaShadows(meta, reader, "x");
    var bare := Class([map[]], {});
    var owner := Class([map["x" := Property(Some(f), None, None)]], {});
    assert Lookup(bare.mro, "x") == None by { assert bare.mro[1..] == []; }
    assert PropertyReadOnOwner(bare, owner, "x");
  }

  // ---------- `with` statements ----------

  datatype ContextEvent = Enter(item: nat) | Exit(item: nat)

  /** The source's two loops: enter each item in order, then exit them in reverse. */
  method HandleWith(items: seq<nat>) returns (events: seq<ContextEvent>)
    ensures events == Nested(items)
  {
    events := [];
    for i := 0 to |items|
      invariant events == Enters(items[..i])
    {
      assert items[..i + 1] == items[..i] + [items[i]];
      EntersAppend(items[..i], items[i]);
      events := events + [Enter(items[i])];
    }
    assert items[..|items|] == items;
    var j := |items|;
    ghost var entered := events;
    while j > 0
      invariant 0 <= j <= |items|
      invariant events == entered + ExitsBack(items[j..])
    {
      j := j - 1;
      assert items[j..] == [items[j]] + items[j + 1..];
      events := events + [Exit(items[j])];
    }
    assert items[0..] == items;
    EntersThenExitsNest(items);
  }

  function Enters(items: seq<nat>): seq<ContextEvent> {
    if items == [] then [] else [Enter(items[0])] + Enters(items[1..])
  }

  function ExitsBack(items: seq<nat>): seq<ContextEvent> {
    if items == [] then [] else ExitsBack(items[1..]) + [Exit(items[0])]
  }

  /** `with a, b:` means `with a:` around `with b:`. */
  function Nested(items: seq<nat>): seq<ContextEvent> {
    if items == [] then [] else [Enter(items[0])] + Nested(items[1..]) + [Exit(items[0])]
  }

  lemma {:induction false} EntersAppend(items: seq<nat>, x: nat)
    ensures Enters(items + [x]) == Enters(items) + [Enter(x)]
  {
    if items != [] {
      EntersAppend(items[1..], x);
      assert (items + [x])[1..] == items[1..] + [x];
    }
  }

  lemma {:induction false} EntersThenExitsNest(items: seq<nat>)
    ensures Enters(items) + ExitsBack(items) == Nested(items)
  {
    if items != [] {
      EntersThenExitsNest(items[1..]);
      assert Enters(items) + ExitsBack(items) ==
             [Enter(items[0])] + (Enters(items[1..]) + ExitsBack(items[1..])) + [Exit(items[0])];
    }
  }
}
