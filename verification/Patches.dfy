/** audit_harness/runtime_denial.py: the save / patch / restore stack of `_apply_patches`. */
module Patches {
  import opened Wrappers

  type Obj = nat

  /** An attribute slot of one object's own namespace. */
  datatype Slot = Slot(obj: Obj, attr: string)

  datatype Value = Original(id: nat) | Boom(tag: string)

  datatype Target = Target(tag: string, slot: Slot)

  datatype Patch = Patch(slot: Slot, original: Value)

  type Store = map<Slot, Value>

  /** Where attributes are inherited from, and which slots refuse assignment. */
  datatype World = World(mro: Obj -> seq<Obj>, settable: Slot -> bool)

  /** `inspect.getattr_static`: the stored value of the first class along the MRO that has it. */
  function Inherited(store: Store, owners: seq<Obj>, attr: string): Option<Value> {
    if owners == [] then None
    else if Slot(owners[0], attr) in store then Some(store[Slot(owners[0], attr)])
    else Inherited(store, owners[1..], attr)
  }

  function SaveOriginal(w: World, store: Store, slot: Slot): Option<Value> {
    Inherited(store, [slot.obj] + w.mro(slot.obj), slot.attr)
  }

  datatype Patching = Patching(store: Store, applied: seq<Patch>, failed: bool)

  /** Patching the targets in order, stopping for good at the first one that raises. */
  function PatchAll(w: World, store: Store, targets: seq<Target>): Patching {
    if targets == [] then Patching(store, [], false)
    else
      var p, t := PatchAll(w, store, targets[..|targets| - 1]), targets[|targets| - 1];
      if p.failed then p
      else
        var saved := SaveOriginal(w, p.store, t.slot);
        if saved.None? || !w.settable(t.slot) then p.(failed := true)
        else Patching(p.store[t.slot := Boom(t.tag)], p.applied + [Patch(t.slot, saved.value)], false)
  }

  /** The `finally` block: the last patch is undone first. */
  function Undo(store: Store, applied: seq<Patch>): Store
    decreases applied
  {
    if applied == [] then store
    else
      var last := applied[|applied| - 1];
      Undo(store[last.slot := last.original], applied[..|applied| - 1])
  }

  class Namespace {
    const world: World
    var attrs: Store

    constructor (world: World, attrs: Store)
      ensures this.world == world && this.attrs == attrs
    {
      this.world, this.attrs := world, attrs;
    }

    /** Up to the `yield`: what the patched body sees. */
    method Apply(targets: seq<Target>) returns (applied: seq<Patch>, failed: bool)
      modifies this
      ensures Patching(attrs, applied, failed) == PatchAll(world, old(attrs), targets)
    {
      applied, failed := [], false;
      for i := 0 to |targets|
        invariant Patching(attrs, applied, failed) == PatchAll(world, old(attrs), targets[..i])
      {
        assert targets[..i + 1][..i] == targets[..i];
        if !failed {
          var saved := SaveOriginal(world, attrs, targets[i].slot);
          if saved.None? || !world.settable(targets[i].slot) {
            failed := true;
          } else {
            attrs := attrs[targets[i].slot := Boom(targets[i].tag)];
            applied := applied + [Patch(targets[i].slot, saved.value)];
          }
        }
      }
      assert targets[..|targets|] == targets;
    }

    method Restore(applied: seq<Patch>)
      modifies this
      ensures attrs == Undo(old(attrs), applied)
    {
      var i := |applied|;
      assert applied[..i] == applied;
      while i > 0
        invariant 0 <= i <= |applied|
        invariant Undo(attrs, applied[..i]) == Undo(old(attrs), applied)
      {
        i := i - 1;
        assert applied[..i + 1][..i] == applied[..i];
        attrs := attrs[applied[i].slot := applied[i].original];
      }
    }

    /** A whole `with _apply_patches(targets):` whose body assigns no attribute itself. */
    method WithPatches(targets: seq<Target>) returns (applied: seq<Patch>, failed: bool)
      modifies this
      ensures attrs == old(attrs) <==> OwnUntilFailure(world, old(attrs), targets)
      ensures (forall t | t in targets :: t.slot in old(attrs)) ==> attrs == old(attrs)
      ensures |applied| <= |targets| && (failed <==> |applied| < |targets|)
      ensures forall i | 0 <= i < |applied| :: applied[i].slot == targets[i].slot
    {
      applied, failed := Apply(targets);
      Restore(applied);
      RestoredExactlyWhenOwn(world, old(attrs), targets);
      ReachedAreBooms(world, old(attrs), targets);
    }
  }

  lemma {:induction false} UndoKeys(store: Store, applied: seq<Patch>)
    ensures Undo(store, applied).Keys == store.Keys + set p | p in applied :: p.slot
    decreases applied
  {
    if applied != [] {
      var last, front := applied[|applied| - 1], applied[..|applied| - 1];
      UndoKeys(store[last.slot := last.original], front);
      assert applied == front + [last];
      assert (set p | p in applied :: p.slot) == (set p | p in front :: p.slot) + {last.slot};
    }
  }

  /** While active, every target reached raises, and the targets reached are a prefix. */
  lemma {:induction false} ReachedAreBooms(w: World, store: Store, targets: seq<Target>)
    ensures var p := PatchAll(w, store, targets);
            && |p.applied| <= |targets| && (p.failed <==> |p.applied| < |targets|)
            && (forall i | 0 <= i < |p.applied| ::
                  p.applied[i].slot == targets[i].slot
                  && targets[i].slot in p.store && p.store[targets[i].slot].Boom?)
  {
    if targets != [] {
      ReachedAreBooms(w, store, targets[..|targets| - 1]);
    }
  }

  lemma OwnIsSaved(w: World, store: Store, slot: Slot)
    requires slot in store
    ensures SaveOriginal(w, store, slot) == Some(store[slot])
  {
  }

  ghost predicate AllOwn(applied: seq<Patch>, store: Store) {
    forall p | p in applied :: p.slot in store
  }

  lemma {:induction false} OwnAreRestored(w: World, store: Store, targets: seq<Target>)
    requires AllOwn(PatchAll(w, store, targets).applied, store)
    ensures var p := PatchAll(w, store, targets);
            Undo(p.store, p.applied) == store && p.store.Keys == store.Keys
  {
    if targets != [] {
      var front, t := targets[..|targets| - 1], targets[|targets| - 1];
      var p, q := PatchAll(w, store, front), PatchAll(w, store, targets);
      assert p.applied <= q.applied;
      assert AllOwn(p.applied, store) by {
        forall x | x in p.applied ensures x.slot in store { assert x in q.applied; }
      }
      OwnAreRestored(w, store, front);
      if q.applied != p.applied {
        assert q.applied[|p.applied|].slot == t.slot;
        OwnIsSaved(w, p.store, t.slot);
        assert q.store[t.slot := p.store[t.slot]] == p.store;
      }
    }
  }

  /** What can be seen on entry: there is something to save, and the slot accepts assignment. */
  predicate Patchable(w: World, store: Store, t: Target) {
    SaveOriginal(w, store, t.slot).Some? && w.settable(t.slot)
  }

  /** Every target before the first one that cannot be patched is the object's own attribute. */
  ghost predicate OwnUntilFailure(w: World, store: Store, targets: seq<Target>) {
    forall i | 0 <= i < |targets| && AllPatchable(w, store, targets[..i + 1]) :: targets[i].slot in store
  }

  ghost predicate AllPatchable(w: World, store: Store, targets: seq<Target>) {
    forall t | t in targets :: Patchable(w, store, t)
  }

  lemma {:induction false} InheritedByKeys(a: Store, b: Store, owners: seq<Obj>, attr: string)
    requires a.Keys == b.Keys
    ensures Inherited(a, owners, attr).Some? <==> Inherited(b, owners, attr).Some?
  {
    if owners != [] {
      assert Slot(owners[0], attr) in a <==> Slot(owners[0], attr) in b;
      InheritedByKeys(a, b, owners[1..], attr);
    }
  }

  lemma OwnStep(w: World, store: Store, front: seq<Target>, t: Target)
    ensures OwnUntilFailure(w, store, front + [t]) <==>
              && OwnUntilFailure(w, store, front)
              && (AllPatchable(w, store, front + [t]) ==> t.slot in store)
  {
    var all := front + [t];
    assert all[..|all|] == all;
    assert forall i | 0 <= i < |front| :: all[..i + 1] == front[..i + 1] && all[i] == front[i];
    if !OwnUntilFailure(w, store, front) {
      var i :| 0 <= i < |front| && AllPatchable(w, store, front[..i + 1]) && front[i].slot !in store;
      assert AllPatchable(w, store, all[..i + 1]) && all[i].slot !in store;
    }
    if OwnUntilFailure(w, store, all) && AllPatchable(w, store, all) {
      assert AllPatchable(w, store, all[..|front| + 1]);
      assert all[|front|] == t;
    }
  }

  /** While only own attributes have been patched, the entry store decides which targets fail. */
  lemma {:induction false} EntryDecides(w: World, store: Store, targets: seq<Target>)
    ensures var p := PatchAll(w, store, targets);
            && (AllOwn(p.applied, store) <==> OwnUntilFailure(w, store, targets))
            && (AllOwn(p.applied, store) ==> (p.failed <==> !AllPatchable(w, store, targets)))
  {
    if targets != [] {
      var front, t := targets[..|targets| - 1], targets[|targets| - 1];
      var p, q := PatchAll(w, store, front), PatchAll(w, store, targets);
      assert targets == front + [t];
      EntryDecides(w, store, front);
      OwnStep(w, store, front, t);
      assert AllPatchable(w, store, targets) <==> AllPatchable(w, store, front) && Patchable(w, store, t);
      PatchStep(w, store, front, t);
    }
  }

  lemma PatchStep(w: World, store: Store, front: seq<Target>, t: Target)
    ensures var p, q := PatchAll(w, store, front), PatchAll(w, store, front + [t]);
            && (AllOwn(q.applied, store) ==> AllOwn(p.applied, store))
            && (p.failed ==> q == p)
            && (AllOwn(p.applied, store) && !p.failed ==>
                  && (q.failed <==> !Patchable(w, store, t))
                  && (AllOwn(q.applied, store) <==> (Patchable(w, store, t) ==> t.slot in store)))
  {
    var all := front + [t];
    assert all[..|all| - 1] == front;
    var p, q := PatchAll(w, store, front), PatchAll(w, store, all);
    assert p.applied <= q.applied;
    assert forall x | x in p.applied :: x in q.applied;
    if AllOwn(p.applied, store) && !p.failed {
      OwnAreRestored(w, store, front);
      InheritedByKeys(store, p.store, [t.slot.obj] + w.mro(t.slot.obj), t.slot.attr);
      if Patchable(w, store, t) {
        var x := q.applied[|p.applied|];
        assert q.applied == p.applied + [x] && x.slot == t.slot && x in q.applied;
      }
    }
  }

  /**
   * On exit the store is exactly what it was on entry if and only if, in the store on entry,
   * every target before the first unpatchable one is an attribute of the object itself:
   * restoring an inherited one leaves a copy behind.
   */
  lemma RestoredExactlyWhenOwn(w: World, store: Store, targets: seq<Target>)
    ensures var p := PatchAll(w, store, targets);
            Undo(p.store, p.applied) == store <==> OwnUntilFailure(w, store, targets)
  {
    var p := PatchAll(w, store, targets);
    EntryDecides(w, store, targets);
    UndoKeys(p.store, p.applied);
    if AllOwn(p.applied, store) {
      OwnAreRestored(w, store, targets);
    } else {
      var x :| x in p.applied && x.slot !in store;
      assert x.slot in Undo(p.store, p.applied).Keys;
    }
  }

  /** An inherited attribute patched on a subclass stays behind as the subclass's own. */
  lemma InheritedLeavesCopy(tag: string, v: Value)
    ensures var w := World(_ => [0], _ => true);
            var store: Store := map[Slot(0, "start") := v];
            var p := PatchAll(w, store, [Target(tag, Slot(1, "start"))]);
            !p.failed && Slot(1, "start") in Undo(p.store, p.applied)
  {
    var w := World(_ => [0], _ => true);
    var store: Store := map[Slot(0, "start") := v];
    var t := Target(tag, Slot(1, "start"));
    assert [t][..0] == [];
    assert PatchAll(w, store, []) == Patching(store, [], false);
    assert ([1] + w.mro(1))[1..] == [0];
    assert Inherited(store, [0], "start") == Some(v);
    assert SaveOriginal(w, store, t.slot) == Some(v);
    var p := PatchAll(w, store, [t]);
    UndoKeys(p.store, p.applied);
    assert Patch(t.slot, v) in p.applied;
  }

  /** The value saved is that of the first object, from the patched one along its MRO, that has the attribute. */
  lemma {:induction false} InheritedIsFirst(store: Store, owners: seq<Obj>, attr: string)
    ensures forall v :: Inherited(store, owners, attr) == Some(v) <==>
              exists i :: 0 <= i < |owners| && Slot(owners[i], attr) in store && store[Slot(owners[i], attr)] == v
                          && forall j | 0 <= j < i :: Slot(owners[j], attr) !in store
  {
    if owners != [] && Slot(owners[0], attr) !in store {
      var rest := owners[1..];
      InheritedIsFirst(store, rest, attr);
      forall v
        ensures Inherited(store, owners, attr) == Some(v) <==>
                  exists i :: 0 <= i < |owners| && Slot(owners[i], attr) in store && store[Slot(owners[i], attr)] == v
                              && forall j | 0 <= j < i :: Slot(owners[j], attr) !in store
      {
        if i :| 0 <= i < |rest| && Slot(rest[i], attr) in store && store[Slot(rest[i], attr)] == v
                && forall j | 0 <= j < i :: Slot(rest[j], attr) !in store {
          assert owners[i + 1] == rest[i];
          assert forall j | 0 < j < i + 1 :: owners[j] == rest[j - 1];
        }
        if i :| 0 <= i < |owners| && Slot(owners[i], attr) in store && store[Slot(owners[i], attr)] == v
                && forall j | 0 <= j < i :: Slot(owners[j], attr) !in store {
          assert rest[i - 1] == owners[i];
          assert forall j | 0 <= j < i - 1 :: rest[j] == owners[j + 1];
        }
      }
    }
  }
}
