/** market_data/service.py and cache.py: the latest-snapshot cache and its events. */
module MarketData {
  import opened Wrappers

  datatype CacheKey = CacheKey(exchange: string, symbol: string, timeframe: Option<string>)

  datatype Model =
    | PriceTick(exchange: string, symbol: string, price: real, timestamp: int)
    | TradeTick(exchange: string, symbol: string, price: real, quantity: real, timestamp: int)
    | Candle(exchange: string, symbol: string, timeframe: string, close: real, isClosed: bool, openTime: int)
    | OrderBook(exchange: string, symbol: string, bids: seq<(real, real)>, asks: seq<(real, real)>, timestamp: int)

  datatype Snapshot = Snapshot(
    exchange: string, symbol: string, timeframe: Option<string>,
    lastPrice: Option<real>, lastTick: Option<Model>, lastTrade: Option<Model>,
    candle: Option<Model>, orderBook: Option<Model>, updatedAt: Option<int>)

  datatype Event =
    | MarketDataReceived | ProviderErrorOccurred
    | PriceUpdated(model: Model) | TradeReceived(model: Model) | OrderBookUpdated(model: Model)
    | CandleOpened(model: Model) | CandleUpdated(model: Model) | CandleClosed(model: Model)

  function KeyOf(m: Model): CacheKey {
    CacheKey(m.exchange, m.symbol, if m.Candle? then Some(m.timeframe) else None)
  }

  function Merge(current: Option<Snapshot>, key: CacheKey, m: Model, now: int): Snapshot {
    var base := (if current.Some? then current.value
                 else Snapshot(key.exchange, key.symbol, key.timeframe, None, None, None, None, None, None))
                .(updatedAt := Some(now));
    match m
    case PriceTick(_, _, price, _) => base.(lastPrice := Some(price), lastTick := Some(m))
    case TradeTick(_, _, price, _, _) => base.(lastPrice := Some(price), lastTrade := Some(m))
    case Candle(_, _, _, close, _, _) => base.(candle := Some(m), lastPrice := Some(close))
    case OrderBook(_, _, _, _, _) => base.(orderBook := Some(m))
  }

  function EventFor(m: Model, existed: bool): Event {
    match m
    case PriceTick(_, _, _, _) => PriceUpdated(m)
    case TradeTick(_, _, _, _, _) => TradeReceived(m)
    case OrderBook(_, _, _, _, _) => OrderBookUpdated(m)
    case Candle(_, _, _, _, isClosed, _) =>
      if !existed then CandleOpened(m) else if isClosed then CandleClosed(m) else CandleUpdated(m)
  }

  // ---------- The classes ----------

  class Cache {
    var store: map<CacheKey, Snapshot>

    constructor ()
      ensures store == map[]
    {
      store := map[];
    }

    method Update(key: CacheKey, snapshot: Snapshot)
      modifies this
      ensures store == old(store)[key := snapshot]
    {
      store := store[key := snapshot];
    }

    method Get(key: CacheKey) returns (r: Option<Snapshot>)
      ensures r == At(store, key)
    {
      r := if key in store then Some(store[key]) else None;
    }

    method Exists(key: CacheKey) returns (b: bool)
      ensures b <==> key in store
    {
      b := key in store;
    }

    method Clear()
      modifies this
      ensures store == map[]
    {
      store := map[];
    }
  }

  function At(store: map<CacheKey, Snapshot>, key: CacheKey): Option<Snapshot> {
    if key in store then Some(store[key]) else None
  }

  class PipelineService {
    const cache: Cache
    var published: seq<Event>

    constructor (cache: Cache)
      ensures this.cache == cache && published == []
    {
      this.cache, published := cache, [];
    }

    ghost function Contents(): State
      reads this, cache
    {
      State(cache.store, published)
    }

    /** `normalized` is None when the normalizer rejects the payload. */
    method OnRaw(normalized: Option<Model>, now: int)
      modifies this, cache
      ensures Contents() == Step(old(Contents()), Raw(normalized, now))
    {
      published := published + [MarketDataReceived];
      if normalized.None? {
        published := published + [ProviderErrorOccurred];
        return;
      }
      var m := normalized.value;
      var key := KeyOf(m);
      var existed := cache.Exists(key);
      var current := cache.Get(key);
      cache.Update(key, Merge(current, key, m, now));
      published := published + [EventFor(m, existed)];
    }
  }

  // ---------- Runs ----------

  datatype Op = Raw(normalized: Option<Model>, now: int) | ClearCache

  datatype State = State(store: map<CacheKey, Snapshot>, published: seq<Event>)

  function Step(st: State, op: Op): State {
    match op
    case ClearCache => st.(store := map[])
    case Raw(None, _) => st.(published := st.published + [MarketDataReceived] + [ProviderErrorOccurred])
    case Raw(Some(m), now) =>
      var key := KeyOf(m);
      State(st.store[key := Merge(At(st.store, key), key, m, now)],
            st.published + [MarketDataReceived] + [EventFor(m, key in st.store)])
  }

  function Run(ops: seq<Op>): State {
    if ops == [] then State(map[], []) else Step(Run(ops[..|ops| - 1]), ops[|ops| - 1])
  }

  // ---------- What the cache should hold, read off the inputs ----------

  /** The model is about the key's exchange and symbol; a candle also about its timeframe, other models about none. */
  predicate Concerns(m: Model, key: CacheKey) {
    && m.exchange == key.exchange && m.symbol == key.symbol
    && match m
       case Candle(_, _, timeframe, _, _, _) => key.timeframe == Some(timeframe)
       case _ => key.timeframe == None
  }

  lemma KeyConcerns(m: Model, key: CacheKey)
    ensures KeyOf(m) == key <==> Concerns(m, key)
  {
  }

  /** The models accepted for `key` since the last clear, with their times. */
  function Accepted(ops: seq<Op>, key: CacheKey): seq<(Model, int)> {
    if ops == [] then []
    else
      var before := Accepted(ops[..|ops| - 1], key);
      match ops[|ops| - 1]
      case ClearCache => []
      case Raw(None, _) => before
      case Raw(Some(m), now) => if Concerns(m, key) then before + [(m, now)] else before
  }

  /** The most recent model satisfying `p`. */
  function Latest(p: Model -> bool, ms: seq<(Model, int)>): Option<Model> {
    if ms == [] then None
    else if p(ms[|ms| - 1].0) then Some(ms[|ms| - 1].0)
    else Latest(p, ms[..|ms| - 1])
  }

  predicate IsPriceTick(m: Model) { m.PriceTick? }

  predicate IsTradeTick(m: Model) { m.TradeTick? }

  predicate IsCandle(m: Model) { m.Candle? }

  predicate IsOrderBook(m: Model) { m.OrderBook? }

  predicate IsPriced(m: Model) { !m.OrderBook? }

  function PriceOf(m: Model): Option<real> {
    match m
    case PriceTick(_, _, price, _) => Some(price)
    case TradeTick(_, _, price, _, _) => Some(price)
    case Candle(_, _, _, close, _, _) => Some(close)
    case OrderBook(_, _, _, _, _) => None
  }

  function LatestPrice(ms: seq<(Model, int)>): Option<real> {
    var m := Latest(IsPriced, ms);
    if m.None? then None else PriceOf(m.value)
  }

  function Expected(key: CacheKey, ms: seq<(Model, int)>): Snapshot
    requires |ms| > 0
  {
    Snapshot(key.exchange, key.symbol, key.timeframe,
             LatestPrice(ms),
             Latest(IsPriceTick, ms),
             Latest(IsTradeTick, ms),
             Latest(IsCandle, ms),
             Latest(IsOrderBook, ms),
             Some(ms[|ms| - 1].1))
  }

  lemma MergeExtends(key: CacheKey, ms: seq<(Model, int)>, m: Model, now: int)
    ensures Merge(if ms == [] then None else Some(Expected(key, ms)), key, m, now) == Expected(key, ms + [(m, now)])
  {
    LatestAppend(IsPriced, ms, m, now);
    LatestAppend(IsPriceTick, ms, m, now);
    LatestAppend(IsTradeTick, ms, m, now);
    LatestAppend(IsCandle, ms, m, now);
    LatestAppend(IsOrderBook, ms, m, now);
  }

  lemma LatestAppend(p: Model -> bool, ms: seq<(Model, int)>, m: Model, now: int)
    ensures Latest(p, ms + [(m, now)]) == if p(m) then Some(m) else Latest(p, ms)
  {
    var more := ms + [(m, now)];
    assert more[..|more| - 1] == ms;
    assert more[|more| - 1] == (m, now);
  }

  lemma {:induction false} AcceptedHaveKey(ops: seq<Op>, key: CacheKey)
    ensures forall i | 0 <= i < |Accepted(ops, key)| :: Concerns(Accepted(ops, key)[i].0, key)
  {
    if ops != [] {
      AcceptedHaveKey(ops[..|ops| - 1], key);
    }
  }

  /**
   * For any interleaving of payloads and clears, the cached snapshot of a key holds the
   * latest price, tick, trade, candle and book accepted for that key, and nothing else.
   */
  lemma {:induction false} CacheIsLatest(ops: seq<Op>, key: CacheKey)
    ensures At(Run(ops).store, key) ==
            if Accepted(ops, key) == [] then None else Some(Expected(key, Accepted(ops, key)))
  {
    if ops != [] {
      CacheIsLatest(ops[..|ops| - 1], key);
      match ops[|ops| - 1]
      case ClearCache =>
      case Raw(None, _) =>
      case Raw(Some(m), now) =>
        KeyConcerns(m, key);
        if Concerns(m, key) {
          MergeExtends(key, Accepted(ops[..|ops| - 1], key), m, now);
        }
    }
  }

  lemma {:induction false} LatestNone(p: Model -> bool, ms: seq<(Model, int)>)
    requires forall i | 0 <= i < |ms| :: !p(ms[i].0)
    ensures Latest(p, ms) == None
  {
    if ms != [] {
      LatestNone(p, ms[..|ms| - 1]);
    }
  }

  /** Candle keys hold just the last candle, priced at its close; other keys never hold one. */
  lemma {:induction false} CandleKeysHoldOnlyCandles(ops: seq<Op>, key: CacheKey)
    requires key in Run(ops).store
    ensures var s := Run(ops).store[key];
            && (s.exchange, s.symbol, s.timeframe) == (key.exchange, key.symbol, key.timeframe)
            && (key.timeframe.Some? ==>
                  && s.candle.Some? && s.candle.value.Candle? && s.lastPrice == Some(s.candle.value.close)
                  && s.lastTick == s.lastTrade == s.orderBook == None)
            && (key.timeframe.None? ==> s.candle == None)
  {
    CacheIsLatest(ops, key);
    AcceptedHaveKey(ops, key);
    var ms := Accepted(ops, key);
    assert ms != [];
    if key.timeframe.Some? {
      assert forall i | 0 <= i < |ms| :: Concerns(ms[i].0, key) && ms[i].0.Candle?;
      LatestNone(IsPriceTick, ms);
      LatestNone(IsTradeTick, ms);
      LatestNone(IsOrderBook, ms);
    } else {
      assert forall i | 0 <= i < |ms| :: Concerns(ms[i].0, key) && !ms[i].0.Candle?;
      LatestNone(IsCandle, ms);
    }
  }

  // ---------- Events ----------

  /** The market events published about `key`, in order. */
  function EventsFor(events: seq<Event>, key: CacheKey): seq<Event> {
    if events == [] then []
    else
      var e := events[|events| - 1];
      EventsFor(events[..|events| - 1], key) +
      if e.MarketDataReceived? || e.ProviderErrorOccurred? || !Concerns(e.model, key) then [] else [e]
  }

  lemma EventsForStep(events: seq<Event>, e: Event, key: CacheKey)
    ensures EventsFor(events + [MarketDataReceived] + [e], key) ==
            EventsFor(events, key) +
            if e.MarketDataReceived? || e.ProviderErrorOccurred? || !Concerns(e.model, key) then [] else [e]
  {
    var a := events + [MarketDataReceived];
    var b := a + [e];
    assert b[..|b| - 1] == a && a[..|a| - 1] == events;
  }

  /** The event that announces `m`, for a candle by whether it is the key's first or a closed one. */
  ghost predicate Announces(e: Event, m: Model, first: bool) {
    match m
    case PriceTick(_, _, _, _) => e == PriceUpdated(m)
    case TradeTick(_, _, _, _, _) => e == TradeReceived(m)
    case OrderBook(_, _, _, _, _) => e == OrderBookUpdated(m)
    case Candle(_, _, _, _, isClosed, _) =>
      && (first ==> e == CandleOpened(m))
      && (!first && isClosed ==> e == CandleClosed(m))
      && (!first && !isClosed ==> e == CandleUpdated(m))
  }

  /** Event i announces model i; only the first can open a candle. */
  ghost predicate Corresponds(es: seq<Event>, ms: seq<(Model, int)>) {
    |es| == |ms| && forall i | 0 <= i < |ms| :: Announces(es[i], ms[i].0, i == 0)
  }

  lemma EventForModel(m: Model, existed: bool)
    ensures var e := EventFor(m, existed);
            !e.MarketDataReceived? && !e.ProviderErrorOccurred? && e.model == m && Announces(e, m, !existed)
  {
  }

  /**
   * Without a clear, each accepted model yields exactly one event, in order; for a candle
   * key the first is CandleOpened and every later one is CandleClosed or CandleUpdated.
   */
  lemma {:induction false} OneEventPerModel(ops: seq<Op>, key: CacheKey)
    requires ClearCache !in ops
    ensures Corresponds(EventsFor(Run(ops).published, key), Accepted(ops, key))
  {
    if ops != [] {
      var front, op := ops[..|ops| - 1], ops[|ops| - 1];
      OneEventPerModel(front, key);
      CacheIsLatest(front, key);
      assert op in ops;
      match op.normalized
      case None =>
        EventsForStep(Run(front).published, ProviderErrorOccurred, key);
      case Some(m) =>
        var e := EventFor(m, KeyOf(m) in Run(front).store);
        EventForModel(m, KeyOf(m) in Run(front).store);
        EventsForStep(Run(front).published, e, key);
        KeyConcerns(m, key);
    }
  }

  lemma CandleOpenedExactlyOnce(ops: seq<Op>, key: CacheKey)
    requires ClearCache !in ops && key.timeframe.Some?
    ensures var es := EventsFor(Run(ops).published, key);
            forall i | 0 <= i < |es| :: es[i].CandleOpened? <==> i == 0
  {
    OneEventPerModel(ops, key);
    AcceptedHaveKey(ops, key);
    var ms := Accepted(ops, key);
    assert forall i | 0 <= i < |ms| :: Concerns(ms[i].0, key) && ms[i].0.Candle?;
  }

  /** The payloads received, rejected ones included. */
  function Payloads(ops: seq<Op>): seq<Option<Model>> {
    if ops == [] then []
    else
      match ops[|ops| - 1]
      case ClearCache => Payloads(ops[..|ops| - 1])
      case Raw(normalized, _) => Payloads(ops[..|ops| - 1]) + [normalized]
  }

  ghost predicate Answers(first: Event, second: Event, payload: Option<Model>) {
    && first == MarketDataReceived
    && match payload
       case None => second == ProviderErrorOccurred
       case Some(m) => Announces(second, m, true) || Announces(second, m, false)
  }

  /** Every payload is announced on receipt, then answered by its market event or by the error. */
  lemma {:induction false} EveryPayloadAnswered(ops: seq<Op>)
    ensures var published, payloads := Run(ops).published, Payloads(ops);
            && |published| == 2 * |payloads|
            && forall i | 0 <= i < |payloads| :: Answers(published[2 * i], published[2 * i + 1], payloads[i])
  {
    if ops != [] {
      EveryPayloadAnswered(ops[..|ops| - 1]);
      var op := ops[|ops| - 1];
      if op.Raw? && op.normalized.Some? {
        EventForModel(op.normalized.value, KeyOf(op.normalized.value) in Run(ops[..|ops| - 1]).store);
      }
    }
  }
}
