/** events/bus.py and events/subscriber.py: handler lists with cancellable subscriptions. */
module Events {

  type EventType = string

  /** A handler's identity under Python's `==`; the same one may be subscribed many times. */
  type Handler = nat

  type Table = map<EventType, seq<Handler>>

  function ListAt(t: Table, ty: EventType): seq<Handler> {
    if ty in t then t[ty] else []
  }

  /** `list.remove`: drops the first occurrence. */
  function RemoveFirst(s: seq<Handler>, h: Handler): seq<Handler>
    requires h in s
  {
    if s[0] == h then s[1..] else [s[0]] + RemoveFirst(s[1..], h)
  }

  function Appended(t: Table, ty: EventType, h: Handler): Table {
    t[ty := ListAt(t, ty) + [h]]
  }

  /** The cancel closure: remove one occurrence, and the list itself once it is empty. */
  function Cancelled(t: Table, ty: EventType, h: Handler): Table {
    if h !in ListAt(t, ty) then t
    else
      var rest := RemoveFirst(t[ty], h);
      if rest == [] then t - {ty} else t[ty := rest]
  }

  /** The snapshot `publish` dispatches to: one list after another along the event's MRO. */
  function Matching(t: Table, mro: seq<EventType>): seq<Handler> {
    if mro == [] then [] else Matching(t, mro[..|mro| - 1]) + ListAt(t, mro[|mro| - 1])
  }

  // ---------- Runs as a state machine ----------

  datatype Sub = Sub(eventType: EventType, handler: Handler, active: bool)

  datatype State = State(table: Table, subs: seq<Sub>, cleared: bool)

  /** Tokens are named by the order in which they were handed out. */
  datatype Op = Subscribe(eventType: EventType, handler: Handler) | Unsubscribe(token: nat) | Clear

  function Step(st: State, op: Op): State {
    match op
    case Subscribe(ty, h) => State(Appended(st.table, ty, h), st.subs + [Sub(ty, h, true)], st.cleared)
    case Unsubscribe(i) =>
      if i >= |st.subs| || !st.subs[i].active then st
      else
        var sub := st.subs[i];
        st.(table := Cancelled(st.table, sub.eventType, sub.handler), subs := st.subs[i := sub.(active := false)])
    case Clear => State(map[], st.subs, true)
  }

  function Run(ops: seq<Op>): State {
    if ops == [] then State(map[], [], false) else Step(Run(ops[..|ops| - 1]), ops[|ops| - 1])
  }

  function Active(subs: seq<Sub>, ty: EventType): multiset<Handler> {
    if subs == [] then multiset{}
    else
      var last := subs[|subs| - 1];
      Active(subs[..|subs| - 1], ty) +
      if last.active && last.eventType == ty then multiset{last.handler} else multiset{}
  }

  /** No empty list is kept, and every listed handler is backed by an active subscription. */
  ghost predicate Inv(st: State) {
    && (forall ty | ty in st.table :: st.table[ty] != [])
    && (forall ty :: Backed(st, ty))
  }

  ghost predicate Backed(st: State, ty: EventType) {
    && multiset(ListAt(st.table, ty)) <= Active(st.subs, ty)
    && (!st.cleared ==> multiset(ListAt(st.table, ty)) == Active(st.subs, ty))
  }

  lemma {:induction false} RemoveFirstCounts(s: seq<Handler>, h: Handler)
    requires h in s
    ensures multiset(RemoveFirst(s, h)) == multiset(s) - multiset{h}
  {
    assert s == [s[0]] + s[1..];
    if s[0] != h {
      RemoveFirstCounts(s[1..], h);
    }
  }

  lemma {:induction false} ActiveAfterCancel(subs: seq<Sub>, i: nat, ty: EventType)
    requires i < |subs| && subs[i].active
    ensures Active(subs, ty) == Active(subs[i := subs[i].(active := false)], ty) +
              if subs[i].eventType == ty then multiset{subs[i].handler} else multiset{}
  {
    var off := subs[i := subs[i].(active := false)];
    var n := |subs| - 1;
    if i == n {
      assert off[..n] == subs[..n];
    } else {
      ActiveAfterCancel(subs[..n], i, ty);
      assert off[..n] == subs[..n][i := subs[i].(active := false)];
    }
  }

  lemma CancelledAt(t: Table, ty: EventType, h: Handler, x: EventType)
    ensures multiset(ListAt(Cancelled(t, ty, h), x)) ==
            if x == ty then multiset(ListAt(t, x)) - multiset{h} else multiset(ListAt(t, x))
  {
    if h in ListAt(t, ty) {
      RemoveFirstCounts(t[ty], h);
    }
  }

  lemma SubscribeKeeps(st: State, ty: EventType, h: Handler, x: EventType)
    requires Backed(st, x)
    ensures Backed(Step(st, Subscribe(ty, h)), x)
  {
    ActiveAfterSubscribe(st.subs, Sub(ty, h, true), x);
    AppendedAt(st.table, ty, h, x);
  }

  lemma ActiveAfterSubscribe(subs: seq<Sub>, sub: Sub, ty: EventType)
    ensures Active(subs + [sub], ty) ==
            Active(subs, ty) + if sub.active && sub.eventType == ty then multiset{sub.handler} else multiset{}
  {
    assert (subs + [sub])[..|subs|] == subs;
  }

  lemma AppendedAt(t: Table, ty: EventType, h: Handler, x: EventType)
    ensures multiset(ListAt(Appended(t, ty, h), x)) ==
            multiset(ListAt(t, x)) + if x == ty then multiset{h} else multiset{}
  {
  }

  lemma UnsubscribeKeeps(st: State, i: nat, x: EventType)
    requires Backed(st, x)
    ensures Backed(Step(st, Unsubscribe(i)), x)
  {
    if i < |st.subs| && st.subs[i].active {
      ActiveAfterCancel(st.subs, i, x);
      CancelledAt(st.table, st.subs[i].eventType, st.subs[i].handler, x);
      var listed, now := multiset(ListAt(st.table, x)), multiset(ListAt(Step(st, Unsubscribe(i)).table, x));
      var active, still := Active(st.subs, x), Active(Step(st, Unsubscribe(i)).subs, x);
      if st.subs[i].eventType == x {
        RemoveFromBoth(listed, still, st.subs[i].handler);
        assert now == listed - multiset{st.subs[i].handler} && active == still + multiset{st.subs[i].handler};
      } else {
        assert now == listed && still == active;
      }
    }
  }

  lemma RemoveFromBoth(listed: multiset<Handler>, still: multiset<Handler>, h: Handler)
    ensures listed <= still + multiset{h} ==> listed - multiset{h} <= still
    ensures listed == still + multiset{h} ==> listed - multiset{h} == still
  {
  }

  lemma StepKeeps(st: State, op: Op)
    requires Inv(st)
    ensures Inv(Step(st, op))
  {
    forall x
      ensures Backed(Step(st, op), x)
    {
      match op
      case Clear =>
      case Subscribe(ty, h) => SubscribeKeeps(st, ty, h, x);
      case Unsubscribe(i) => UnsubscribeKeeps(st, i, x);
    }
  }

  lemma {:induction false} RunInvariant(ops: seq<Op>)
    ensures Inv(Run(ops))
  {
    if ops != [] {
      RunInvariant(ops[..|ops| - 1]);
      StepKeeps(Run(ops[..|ops| - 1]), ops[|ops| - 1]);
    }
  }

  lemma {:induction false} ClearedExactly(ops: seq<Op>)
    ensures Run(ops).cleared <==> Clear in ops
  {
    if ops != [] {
      ClearedExactly(ops[..|ops| - 1]);
      assert ops == ops[..|ops| - 1] + [ops[|ops| - 1]];
    }
  }

  /** Unsubscribing twice is unsubscribing once. */
  lemma UnsubscribeIdempotent(st: State, i: nat)
    ensures Step(Step(st, Unsubscribe(i)), Unsubscribe(i)) == Step(st, Unsubscribe(i))
  {
  }

  // ---------- Order ----------

  /** Types earlier in the MRO are served first, each with its whole list. */
  lemma {:induction false} ServedInOrder(t: Table, first: seq<EventType>, ty: EventType, rest: seq<EventType>)
    ensures Matching(t, first + [ty] + rest) == Matching(t, first) + ListAt(t, ty) + Matching(t, rest)
  {
    var mro := first + [ty] + rest;
    if rest == [] {
      assert mro[..|mro| - 1] == first;
    } else {
      ServedInOrder(t, first, ty, rest[..|rest| - 1]);
      assert mro[..|mro| - 1] == first + [ty] + rest[..|rest| - 1];
    }
  }

  /** Cancelling takes out the first occurrence of the handler. */
  lemma {:induction false} RemovesFirstOccurrence(s: seq<Handler>, h: Handler) returns (i: nat)
    requires h in s
    ensures i < |s| && s[i] == h && h !in s[..i] && RemoveFirst(s, h) == s[..i] + s[i + 1..]
  {
    if s[0] == h {
      i := 0;
    } else {
      var j := RemovesFirstOccurrence(s[1..], h);
      i := j + 1;
      ShiftedSlices(s, j);
    }
  }

  lemma ShiftedSlices(s: seq<Handler>, j: nat)
    requires j + 1 < |s|
    ensures s[..j + 1] == [s[0]] + s[1..][..j] && s[j + 2..] == s[1..][j + 1..]
  {
  }

  /** A new handler is served after those subscribed before it. */
  lemma NewestIsLast(st: State, ty: EventType, h: Handler, x: EventType)
    ensures var after := Step(st, Subscribe(ty, h));
            && ListAt(after.table, x) == ListAt(st.table, x) + (if x == ty then [h] else [])
            && after.subs == st.subs + [Sub(ty, h, true)]
  {
  }

  // ---------- Exactly when a list is complete ----------

  /**
   * At some moment since the last `clear` (or since the start, if there was none) no
   * subscription of `h` to `ty` was active.
   */
  ghost predicate CaughtUp(ops: seq<Op>, ty: EventType, h: Handler) {
    exists k: nat :: k <= |ops| && IdleAt(ops, k, ty, h)
  }

  ghost predicate IdleAt(ops: seq<Op>, k: nat, ty: EventType, h: Handler)
    requires k <= |ops|
  {
    Clear !in ops[k..] && Active(Run(ops[..k]).subs, ty)[h] == 0
  }

  function Listed(st: State, ty: EventType, h: Handler): nat {
    multiset(ListAt(st.table, ty))[h]
  }

  lemma IdleBefore(ops: seq<Op>, op: Op, k: nat, ty: EventType, h: Handler)
    requires k <= |ops|
    ensures IdleAt(ops + [op], k, ty, h) <==> IdleAt(ops, k, ty, h) && op != Clear
  {
    assert (ops + [op])[k..] == ops[k..] + [op];
    assert (ops + [op])[..k] == ops[..k];
  }

  lemma CaughtUpStep(ops: seq<Op>, op: Op, ty: EventType, h: Handler)
    ensures CaughtUp(ops + [op], ty, h) <==>
              || (op != Clear && CaughtUp(ops, ty, h))
              || Active(Run(ops + [op]).subs, ty)[h] == 0
  {
    if Active(Run(ops + [op]).subs, ty)[h] == 0 {
      IdleNow(ops + [op], ty, h);
    } else if CaughtUp(ops + [op], ty, h) {
      WasCaughtUp(ops, op, ty, h);
    } else if op != Clear && CaughtUp(ops, ty, h) {
      StaysCaughtUp(ops, op, ty, h);
    }
  }

  lemma WasCaughtUp(ops: seq<Op>, op: Op, ty: EventType, h: Handler)
    requires CaughtUp(ops + [op], ty, h) && Active(Run(ops + [op]).subs, ty)[h] != 0
    ensures op != Clear && CaughtUp(ops, ty, h)
  {
    IdleNow(ops + [op], ty, h);
    var k: nat :| k <= |ops + [op]| && IdleAt(ops + [op], k, ty, h);
    assert k != |ops| + 1;
    IdleBefore(ops, op, k, ty, h);
  }

  lemma StaysCaughtUp(ops: seq<Op>, op: Op, ty: EventType, h: Handler)
    requires op != Clear && CaughtUp(ops, ty, h)
    ensures CaughtUp(ops + [op], ty, h)
  {
    var k: nat :| k <= |ops| && IdleAt(ops, k, ty, h);
    IdleBefore(ops, op, k, ty, h);
  }

  lemma IdleNow(ops: seq<Op>, ty: EventType, h: Handler)
    ensures IdleAt(ops, |ops|, ty, h) <==> Active(Run(ops).subs, ty)[h] == 0
  {
    assert ops[..|ops|] == ops;
  }

  /** Away from `clear`, listed and active counts move together, until the list runs out. */
  lemma CountsMoveTogether(st: State, op: Op, ty: EventType, h: Handler)
    requires op != Clear
    ensures var l, a := Listed(st, ty, h), Active(st.subs, ty)[h];
            var l1, a1 := Listed(Step(st, op), ty, h), Active(Step(st, op).subs, ty)[h];
            || (l1 == l && a1 == a)
            || (l1 == l + 1 && a1 == a + 1)
            || (a1 + 1 == a && l1 == if l == 0 then 0 else l - 1)
  {
    match op
    case Subscribe(x, g) =>
      ActiveAfterSubscribe(st.subs, Sub(x, g, true), ty);
      AppendedAt(st.table, x, g, ty);
    case Unsubscribe(i) => CancelMovesTogether(st, i, ty, h);
  }

  lemma CancelMovesTogether(st: State, i: nat, ty: EventType, h: Handler)
    ensures var l, a := Listed(st, ty, h), Active(st.subs, ty)[h];
            var st1 := Step(st, Unsubscribe(i));
            var l1, a1 := Listed(st1, ty, h), Active(st1.subs, ty)[h];
            (l1 == l && a1 == a) || (a1 + 1 == a && l1 == if l == 0 then 0 else l - 1)
  {
    if i < |st.subs| && st.subs[i].active {
      ActiveAfterCancel(st.subs, i, ty);
      CancelledAt(st.table, st.subs[i].eventType, st.subs[i].handler, ty);
    }
  }

  /** A handler is listed once per active subscription exactly when it has caught up. */
  lemma {:induction false} CompleteExactlyWhenCaughtUp(ops: seq<Op>, ty: EventType, h: Handler)
    ensures Listed(Run(ops), ty, h) <= Active(Run(ops).subs, ty)[h]
    ensures Listed(Run(ops), ty, h) == Active(Run(ops).subs, ty)[h] <==> CaughtUp(ops, ty, h)
  {
    if ops == [] {
      assert IdleAt(ops, 0, ty, h);
    } else {
      var front, op := ops[..|ops| - 1], ops[|ops| - 1];
      assert ops == front + [op];
      CompleteExactlyWhenCaughtUp(front, ty, h);
      CaughtUpStep(front, op, ty, h);
      if op == Clear {
        assert Listed(Run(ops), ty, h) == 0;
      } else {
        CountsMoveTogether(Run(front), op, ty, h);
      }
    }
  }

  function ActiveAlong(subs: seq<Sub>, mro: seq<EventType>): multiset<Handler> {
    if mro == [] then multiset{} else ActiveAlong(subs, mro[..|mro| - 1]) + Active(subs, mro[|mro| - 1])
  }

  /** How many active subscriptions of `h` are to some type in `mro`. */
  function Subscriptions(subs: seq<Sub>, mro: seq<EventType>, h: Handler): nat {
    if subs == [] then 0
    else
      var last := subs[|subs| - 1];
      Subscriptions(subs[..|subs| - 1], mro, h) +
      if last.active && last.eventType in mro && last.handler == h then 1 else 0
  }

  lemma {:induction false} ActiveCounts(subs: seq<Sub>, mro: seq<EventType>, ty: EventType, h: Handler)
    requires ty !in mro
    ensures Subscriptions(subs, mro + [ty], h) == Subscriptions(subs, mro, h) + Active(subs, ty)[h]
  {
    if subs != [] {
      ActiveCounts(subs[..|subs| - 1], mro, ty, h);
    }
  }

  lemma {:induction false} NoSubscriptions(subs: seq<Sub>, h: Handler)
    ensures Subscriptions(subs, [], h) == 0
  {
    if subs != [] {
      NoSubscriptions(subs[..|subs| - 1], h);
    }
  }

  lemma {:induction false} AlongCounts(subs: seq<Sub>, mro: seq<EventType>, h: Handler)
    requires forall i, j | 0 <= i < j < |mro| :: mro[i] != mro[j]
    ensures ActiveAlong(subs, mro)[h] == Subscriptions(subs, mro, h)
  {
    if mro == [] {
      NoSubscriptions(subs, h);
    } else {
      var front, ty := mro[..|mro| - 1], mro[|mro| - 1];
      AlongCounts(subs, front, h);
      ActiveCounts(subs, front, ty, h);
      assert mro == front + [ty];
    }
  }

  /** Summed along the MRO, the counts agree exactly when they agree for every type in it. */
  lemma {:induction false} MatchingCounts(ops: seq<Op>, mro: seq<EventType>, h: Handler)
    ensures var st := Run(ops);
            var delivered, due := multiset(Matching(st.table, mro))[h], ActiveAlong(st.subs, mro)[h];
            delivered <= due && (delivered == due <==> forall ty | ty in mro :: CaughtUp(ops, ty, h))
  {
    if mro != [] {
      var front, ty := mro[..|mro| - 1], mro[|mro| - 1];
      assert mro == front + [ty];
      MatchingCounts(ops, front, h);
      CompleteExactlyWhenCaughtUp(ops, ty, h);
      assert forall x :: x in mro <==> x in front || x == ty;
    }
  }

  /**
   * Over any run, an event is delivered to a handler at most once per active subscription to
   * a type in the event's MRO; exactly once per subscription if and only if the handler has
   * caught up on each of those types, as it always has when `clear` never ran.
   */
  lemma DeliveredOncePerSubscription(ops: seq<Op>, mro: seq<EventType>, h: Handler)
    requires forall i, j | 0 <= i < j < |mro| :: mro[i] != mro[j]
    ensures var st := Run(ops);
            var delivered, due := multiset(Matching(st.table, mro))[h], Subscriptions(st.subs, mro, h);
            && delivered <= due
            && (delivered == due <==> forall ty | ty in mro :: CaughtUp(ops, ty, h))
            && (Clear !in ops ==> delivered == due)
  {
    MatchingCounts(ops, mro, h);
    AlongCounts(Run(ops).subs, mro, h);
    if Clear !in ops {
      assert ops[0..] == ops && ops[..0] == [];
      forall ty
        ensures CaughtUp(ops, ty, h)
      {
        assert IdleAt(ops, 0, ty, h);
      }
    }
  }

  /** After `clear`, a stale token can cancel a later subscription of the same handler. */
  lemma StaleTokenCancelsSuccessor(ty: EventType, h: Handler)
    ensures var st := Run([Subscribe(ty, h)] + [Clear] + [Subscribe(ty, h)] + [Unsubscribe(0)]);
            st.subs == [Sub(ty, h, false), Sub(ty, h, true)] && ListAt(st.table, ty) == []
  {
    var o0, o1, o2, o3 := Subscribe(ty, h), Clear, Subscribe(ty, h), Unsubscribe(0);
    RunAppend([], o0);
    assert [] + [o0] == [o0];
    RunAppend([o0], o1);
    RunAppend([o0] + [o1], o2);
    RunAppend([o0] + [o1] + [o2], o3);
    assert Run([o0]).subs == [Sub(ty, h, true)];
    assert Run([o0] + [o1]) == State(map[], [Sub(ty, h, true)], true);
    var s2 := Run([o0] + [o1] + [o2]);
    assert ListAt(map[], ty) + [h] == [h];
    assert s2.table == map[ty := [h]] && s2.subs == [Sub(ty, h, true), Sub(ty, h, true)];
    assert RemoveFirst([h], h) == [];
  }

  lemma RunAppend(ops: seq<Op>, op: Op)
    ensures Run(ops + [op]) == Step(Run(ops), op)
  {
    assert (ops + [op])[..|ops|] == ops;
  }

  // ---------- The classes ----------

  class Subscription {
    const bus: EventBus
    const eventType: EventType
    const handler: Handler
    var active: bool

    constructor (bus: EventBus, eventType: EventType, handler: Handler)
      ensures this.bus == bus && this.eventType == eventType && this.handler == handler && active
    {
      this.bus, this.eventType, this.handler, active := bus, eventType, handler, true;
    }

    method Unsubscribe(ghost i: nat)
      requires bus.Valid() && i < |bus.tokens| && bus.tokens[i] == this
      modifies this, bus
      ensures bus.Valid() && bus.tokens == old(bus.tokens)
      ensures bus.Abstract() == Step(old(bus.Abstract()), Op.Unsubscribe(i))
    {
      if active {
        active := false;
        bus.RemoveHandler(eventType, handler);
      }
      assert forall j | 0 <= j < |bus.tokens| && j != i :: bus.tokens[j].active == old(bus.tokens[j].active);
    }
  }

  class EventBus {
    var handlers: Table
    ghost var tokens: seq<Subscription>
    ghost var cleared: bool

    constructor ()
      ensures Valid() && Abstract() == Run([]) && tokens == []
    {
      handlers, tokens, cleared := map[], [], false;
    }

    ghost predicate Valid()
      reads this
    {
      && (forall i | 0 <= i < |tokens| :: tokens[i].bus == this)
      && (forall i, j | 0 <= i < j < |tokens| :: tokens[i] != tokens[j])
    }

    /** The state-machine view of the bus and of every token it has handed out. */
    ghost function Abstract(): State
      reads this, tokens
    {
      State(handlers,
            seq(|tokens|, i requires 0 <= i < |tokens| reads this, tokens =>
              Sub(tokens[i].eventType, tokens[i].handler, tokens[i].active)),
            cleared)
    }

    method Subscribe(eventType: EventType, handler: Handler) returns (sub: Subscription)
      requires Valid()
      modifies this
      ensures Valid() && fresh(sub) && tokens == old(tokens) + [sub]
      ensures Abstract() == Step(old(Abstract()), Op.Subscribe(eventType, handler))
    {
      handlers := handlers[eventType := (if eventType in handlers then handlers[eventType] else []) + [handler]];
      sub := new Subscription(this, eventType, handler);
      tokens := tokens + [sub];
    }

    method RemoveHandler(eventType: EventType, handler: Handler)
      modifies this
      ensures handlers == Cancelled(old(handlers), eventType, handler)
      ensures tokens == old(tokens) && cleared == old(cleared)
    {
      if eventType in handlers && handler in handlers[eventType] {
        var rest := RemoveFirst(handlers[eventType], handler);
        handlers := if rest == [] then handlers - {eventType} else handlers[eventType := rest];
      }
    }

    method Publish(mro: seq<EventType>) returns (delivered: seq<Handler>)
      ensures delivered == Matching(handlers, mro)
    {
      delivered := [];
      for i := 0 to |mro|
        invariant delivered == Matching(handlers, mro[..i])
      {
        assert mro[..i + 1][..i] == mro[..i];
        if mro[i] in handlers {
          delivered := delivered + handlers[mro[i]];
        }
      }
      assert mro[..|mro|] == mro;
    }

    method HandlerCount(eventType: EventType) returns (n: nat)
      ensures n == |ListAt(handlers, eventType)|
    {
      n := if eventType in handlers then |handlers[eventType]| else 0;
    }

    method Clear()
      requires Valid()
      modifies this
      ensures Valid() && tokens == old(tokens)
      ensures Abstract() == Step(old(Abstract()), Op.Clear)
    {
      handlers := map[];
      cleared := true;
    }
  }
}
