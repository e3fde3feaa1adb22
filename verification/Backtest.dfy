/** backtesting/manager.py, scheduler.py and simulator.py: the replay loop over opaque engines. */
module Backtest {
  import opened Wrappers

  /** The private state of the strategy and the engines, and payloads this model never opens. */
  type World(!new)
  type Data(!new)

  datatype Candle = Candle(close: real, closeTime: int, detail: Data)
  datatype Signal = Signal(hold: bool, detail: Data)
  datatype Decision = Decision(approved: bool, detail: Data)
  datatype OrderResult = OrderResult(ready: bool, detail: Data)
  datatype OrderRequest = OrderRequest(symbol: string, buy: bool, quantity: real)
  datatype ExecutionResult = ExecutionResult(ready: bool, request: Option<OrderRequest>, detail: Data)
  datatype PortfolioResult = PortfolioResult(succeeded: bool, totalValue: Option<real>, detail: Data)
  datatype PositionResult = PositionResult(succeeded: bool, detail: Data)
  datatype Trade = Trade(id: string, detail: Data)
  datatype TradeResult = TradeResult(succeeded: bool, trade: Option<Trade>, detail: Data)

  /** An engine call: it may raise, and may change the engines' state. */
  datatype Answer<T> = Raised | Returned(world: World, value: T)

  /** Every engine is optional and an arbitrary deterministic transition. */
  datatype Engines = Engines(
    strategy: Option<(World, Candle, seq<Candle>) -> Answer<seq<Signal>>>,
    risk: Option<(World, Signal) -> Answer<Decision>>,
    order: Option<(World, Decision, Signal) -> Answer<OrderResult>>,
    execution: Option<(World, OrderResult, Decision, Signal) -> Answer<ExecutionResult>>,
    portfolio: Option<(World, ExecutionResult, string, real) -> Answer<PortfolioResult>>,
    position: Option<(World, PortfolioResult, real) -> Answer<PositionResult>>,
    trade: Option<(World, PositionResult) -> Answer<TradeResult>>)

  datatype Parameters = Parameters(
    initialCash: real, slippageBps: real, commissionBps: real, latencySteps: int,
    replaySpeed: int, cancelAfterSteps: Option<int>)

  datatype Context = Context(
    candles: seq<Candle>, engines: Engines, parameters: Parameters, world: World,
    portfolio: Option<PortfolioResult>, position: Option<PositionResult>, trade: Option<TradeResult>)

  datatype Fill = Fill(
    symbol: string, buy: bool, quantity: real, price: real, commission: real,
    slippage: real, latencySteps: int, timestamp: int)

  datatype StepRecord = StepRecord(index: nat, timestamp: int, close: real, equity: real, fill: Option<Fill>)

  const WINDOW := 128

  // ---------- Scheduler ----------

  /** `range(start, length, speed)`. */
  function Strided(length: nat, speed: int, start: nat): (r: seq<nat>)
    requires speed >= 1
    ensures forall i | 0 <= i < |r| :: start <= r[i] < length
    decreases length - start
  {
    if start >= length then [] else [start] + Strided(length, speed, start + speed)
  }

  function Schedule(ctx: Context): (r: Option<seq<nat>>)
    ensures r.Some? ==> forall i | 0 <= i < |r.value| :: r.value[i] < |ctx.candles|
  {
    if ctx.parameters.replaySpeed < 1 then None
    else Some(Strided(|ctx.candles|, ctx.parameters.replaySpeed, 0))
  }

  lemma {:induction false} StridedAt(length: nat, speed: int, start: nat, k: nat)
    requires speed >= 1
    ensures k < |Strided(length, speed, start)| <==> start + k * speed < length
    ensures k < |Strided(length, speed, start)| ==> Strided(length, speed, start)[k] == start + k * speed
    decreases k
  {
    if k == 0 {
    } else if start < length {
      StridedAt(length, speed, start + speed, k - 1);
      assert k * speed == speed + (k - 1) * speed;
    } else {
      assert k * speed >= 0;
    }
  }

  // ---------- Simulator ----------

  function Simulate(e: ExecutionResult, candle: Candle, p: Parameters): Option<Fill> {
    if !e.ready || e.request.None? || e.request.value.quantity <= 0.0 then None
    else Some(FillOf(e.request.value, candle, p.slippageBps, p.commissionBps, p.latencySteps))
  }

  /** Slippage moves against the taker; commission is on the filled notional. */
  function FillOf(order: OrderRequest, candle: Candle, slippageBps: real, commissionBps: real, latency: int): Fill {
    var slippage := candle.close * slippageBps / 10000.0;
    var price := if order.buy then candle.close + slippage else candle.close - slippage;
    var commission := price * order.quantity * commissionBps / 10000.0;
    Fill(order.symbol, order.buy, order.quantity, price, commission, slippage, latency, candle.closeTime)
  }

  /**
   * Buying and selling the same quantity at one candle loses exactly twice the slippage and
   * the commission on twice the close: simulated costs are never in the taker's favour.
   */
  lemma RoundTripCost(buy: OrderRequest, sell: OrderRequest, candle: Candle, slip: real, rate: real, latency: int)
    requires buy.buy && !sell.buy && buy.quantity == sell.quantity > 0.0
    ensures var q, b, s := buy.quantity, FillOf(buy, candle, slip, rate, latency), FillOf(sell, candle, slip, rate, latency);
            var paid, received := b.price * q + b.commission, s.price * q - s.commission;
            && paid - received == 2.0 * (b.slippage * q) + 2.0 * (candle.close * q * rate / 10000.0)
            && (candle.close >= 0.0 && slip >= 0.0 && rate >= 0.0 ==> received <= paid)
  {
    var q, b, s := buy.quantity, FillOf(buy, candle, slip, rate, latency), FillOf(sell, candle, slip, rate, latency);
    var c := candle.close;
    assert b.price * q == c * q + b.slippage * q && s.price * q == c * q - b.slippage * q;
    assert b.commission == (c * q + b.slippage * q) * rate / 10000.0;
    assert s.commission == (c * q - b.slippage * q) * rate / 10000.0;
    Distribute(c * q, b.slippage * q, rate);
    if c >= 0.0 && slip >= 0.0 && rate >= 0.0 {
      assert c * slip >= 0.0 && b.slippage >= 0.0;
      assert b.slippage * q >= 0.0 && c * q >= 0.0;
      assert c * q * rate >= 0.0;
    }
  }

  lemma Distribute(x: real, y: real, rate: real)
    ensures (x + y) * rate / 10000.0 + (x - y) * rate / 10000.0 == 2.0 * (x * rate / 10000.0)
  {
    assert (x + y) * rate + (x - y) * rate == 2.0 * (x * rate);
  }

  // ---------- One step ----------

  /** The pipeline for one signal; None when some stage is absent or declines. */
  function TrySignal(e: Engines, p: Parameters, w: World, candle: Candle, signal: Signal)
    : Answer<Option<(ExecutionResult, Fill)>>
  {
    if signal.hold || e.risk.None? then Returned(w, None)
    else
      match e.risk.value(w, signal)
      case Raised => Raised
      case Returned(w1, decision) =>
        if !decision.approved || e.order.None? then Returned(w1, None)
        else
          match e.order.value(w1, decision, signal)
          case Raised => Raised
          case Returned(w2, order) =>
            if !order.ready || e.execution.None? then Returned(w2, None)
            else
              match e.execution.value(w2, order, decision, signal)
              case Raised => Raised
              case Returned(w3, execution) =>
                if !execution.ready then Returned(w3, None)
                else
                  match Simulate(execution, candle, p)
                  case None => Raised
                  case Some(fill) => Returned(w3, Some((execution, fill)))
  }

  /** The first signal whose pipeline goes through wins. */
  function FirstFill(e: Engines, p: Parameters, w: World, candle: Candle, signals: seq<Signal>)
    : Answer<Option<(ExecutionResult, Fill)>>
  {
    if signals == [] then Returned(w, None)
    else
      match TrySignal(e, p, w, candle, signals[0])
      case Raised => Raised
      case Returned(w1, Some(filled)) => Returned(w1, Some(filled))
      case Returned(w1, None) => FirstFill(e, p, w1, candle, signals[1..])
  }

  /** The world left behind when every signal in turn is declined. */
  function AfterDeclining(e: Engines, p: Parameters, w: World, candle: Candle, signals: seq<Signal>): Option<World> {
    if signals == [] then Some(w)
    else
      var attempt := TrySignal(e, p, w, candle, signals[0]);
      if Decisive(attempt) then None else AfterDeclining(e, p, attempt.world, candle, signals[1..])
  }

  /** The attempt ends the step: it raised or it filled. */
  predicate Decisive(attempt: Answer<Option<(ExecutionResult, Fill)>>) {
    attempt.Raised? || attempt.value.Some?
  }

  /** All signals before position `i` are declined, and the one at `i` is decided as `r`. */
  ghost predicate DecidesAt(
    e: Engines, p: Parameters, w: World, candle: Candle, signals: seq<Signal>, i: nat,
    r: Answer<Option<(ExecutionResult, Fill)>>)
    requires i < |signals|
  {
    && Decisive(r)
    && AfterDeclining(e, p, w, candle, signals[..i]).Some?
    && TrySignal(e, p, AfterDeclining(e, p, w, candle, signals[..i]).value, candle, signals[i]) == r
  }

  lemma DecidesLater(
    e: Engines, p: Parameters, w: World, candle: Candle, signals: seq<Signal>, i: nat,
    r: Answer<Option<(ExecutionResult, Fill)>>)
    requires 0 < i < |signals|
    ensures DecidesAt(e, p, w, candle, signals, i, r) <==>
              var attempt := TrySignal(e, p, w, candle, signals[0]);
              !Decisive(attempt) && DecidesAt(e, p, attempt.world, candle, signals[1..], i - 1, r)
  {
    assert signals[..i][0] == signals[0] && signals[..i][1..] == signals[1..][..i - 1];
  }

  /**
   * A step is decided by the first signal that is not declined, which sees the world that the
   * declined ones left behind; without such a signal the step leaves just that world.
   */
  lemma {:induction false} FirstSurvivorDecides(
    e: Engines, p: Parameters, w: World, candle: Candle, signals: seq<Signal>)
    ensures forall r | Decisive(r) ::
              FirstFill(e, p, w, candle, signals) == r <==>
                exists i :: 0 <= i < |signals| && DecidesAt(e, p, w, candle, signals, i, r)
    ensures forall w1 ::
              FirstFill(e, p, w, candle, signals) == Returned(w1, None) <==>
                AfterDeclining(e, p, w, candle, signals) == Some(w1)
  {
    if signals != [] {
      var attempt := TrySignal(e, p, w, candle, signals[0]);
      assert signals[..0] == [];
      if !Decisive(attempt) {
        FirstSurvivorDecides(e, p, attempt.world, candle, signals[1..]);
      }
      forall r | Decisive(r)
        ensures FirstFill(e, p, w, candle, signals) == r <==>
                  exists i :: 0 <= i < |signals| && DecidesAt(e, p, w, candle, signals, i, r)
      {
        DecidedFirstOrLater(e, p, w, candle, signals, r);
      }
    }
  }

  lemma DecidedFirstOrLater(
    e: Engines, p: Parameters, w: World, candle: Candle, signals: seq<Signal>,
    r: Answer<Option<(ExecutionResult, Fill)>>)
    requires signals != [] && Decisive(r)
    ensures var attempt := TrySignal(e, p, w, candle, signals[0]);
            (exists i :: 0 <= i < |signals| && DecidesAt(e, p, w, candle, signals, i, r)) <==>
              if Decisive(attempt) then attempt == r
              else exists i :: 0 <= i < |signals[1..]| && DecidesAt(e, p, attempt.world, candle, signals[1..], i, r)
  {
    var attempt := TrySignal(e, p, w, candle, signals[0]);
    assert signals[..0] == [];
    assert DecidesAt(e, p, w, candle, signals, 0, r) <==> attempt == r;
    forall i | 0 < i < |signals|
      ensures DecidesAt(e, p, w, candle, signals, i, r) <==>
                !Decisive(attempt) && DecidesAt(e, p, attempt.world, candle, signals[1..], i - 1, r)
    {
      DecidesLater(e, p, w, candle, signals, i, r);
    }
    if i :| !Decisive(attempt) && 0 <= i < |signals[1..]| && DecidesAt(e, p, attempt.world, candle, signals[1..], i, r) {
      assert DecidesAt(e, p, w, candle, signals, i + 1, r);
    }
  }

  function Window(candles: seq<Candle>, idx: nat): seq<Candle>
    requires idx < |candles|
  {
    candles[(if idx < WINDOW - 1 then 0 else idx - WINDOW + 1)..idx + 1]
  }

  function StepAt(ctx: Context, w: World, idx: nat): Answer<Option<(ExecutionResult, Fill)>>
    requires idx < |ctx.candles|
  {
    if ctx.engines.strategy.None? then Returned(w, None)
    else
      match ctx.engines.strategy.value(w, ctx.candles[idx], Window(ctx.candles, idx))
      case Raised => Raised
      case Returned(w1, signals) => FirstFill(ctx.engines, ctx.parameters, w1, ctx.candles[idx], signals)
  }

  method RunStep(ctx: Context, w: World, idx: nat) returns (r: Answer<Option<(ExecutionResult, Fill)>>)
    requires idx < |ctx.candles|
    ensures r == StepAt(ctx, w, idx)
  {
    var candle := ctx.candles[idx];
    if ctx.engines.strategy.None? {
      return Returned(w, None);
    }
    var evaluated := ctx.engines.strategy.value(w, candle, Window(ctx.candles, idx));
    if evaluated.Raised? {
      return Raised;
    }
    var signals := evaluated.value;
    var world := evaluated.world;
    for i := 0 to |signals|
      invariant FirstFill(ctx.engines, ctx.parameters, evaluated.world, candle, signals) ==
                FirstFill(ctx.engines, ctx.parameters, world, candle, signals[i..])
    {
      assert signals[i..][0] == signals[i] && signals[i..][1..] == signals[i + 1..];
      var attempt := TrySignal(ctx.engines, ctx.parameters, world, candle, signals[i]);
      if attempt.Raised? || attempt.value.Some? {
        return attempt;
      }
      world := attempt.world;
    }
    return Returned(world, None);
  }

  // ---------- Booking a fill ----------

  datatype Books = Books(
    world: World, portfolio: Option<PortfolioResult>, position: Option<PositionResult>, trade: Option<TradeResult>)

  function Book(engines: Engines, b: Books, e: ExecutionResult, fill: Fill): Option<Books> {
    if engines.portfolio.None? then Some(b)
    else
      match engines.portfolio.value(b.world, e, fill.symbol, fill.price)
      case Raised => None
      case Returned(w, r) => Some(b.(world := w, portfolio := if r.succeeded then Some(r) else b.portfolio))
  }

  function Position(engines: Engines, b: Books, close: real): Option<Books> {
    if engines.position.None? || b.portfolio.None? then Some(b)
    else
      match engines.position.value(b.world, b.portfolio.value, close)
      case Raised => None
      case Returned(w, r) => Some(b.(world := w, position := if r.succeeded then Some(r) else b.position))
  }

  function Track(engines: Engines, b: Books): Option<Books> {
    if engines.trade.None? || b.position.None? then Some(b)
    else
      match engines.trade.value(b.world, b.position.value)
      case Raised => None
      case Returned(w, r) => Some(b.(world := w, trade := if r.succeeded then Some(r) else b.trade))
  }

  function Booked(engines: Engines, b: Books, e: ExecutionResult, fill: Fill, close: real): Option<Books> {
    match Book(engines, b, e, fill)
    case None => None
    case Some(b1) =>
      match Position(engines, b1, close)
      case None => None
      case Some(b2) => Track(engines, b2)
  }

  /** Replaces the trade with the same id (or appends), keeping the latest state last. */
  function UpsertTrade(trades: seq<Trade>, result: Option<TradeResult>): seq<Trade> {
    if result.None? || result.value.trade.None? then trades
    else
      var trade := result.value.trade.value;
      WithoutId(trades, trade.id) + [trade]
  }

  function WithoutId(trades: seq<Trade>, id: string): (r: seq<Trade>)
    ensures forall t :: t in r <==> t in trades && t.id != id
  {
    if trades == [] then []
    else (if trades[0].id != id then [trades[0]] else []) + WithoutId(trades[1..], id)
  }

  function Equity(portfolio: Option<PortfolioResult>, fallback: real): real {
    if portfolio.None? || portfolio.value.totalValue.None? then fallback else portfolio.value.totalValue.value
  }

  // ---------- The loop as a function ----------

  datatype LoopState = LoopState(
    books: Books, trades: seq<Trade>, equityCurve: seq<real>, gains: seq<real>,
    history: seq<StepRecord>, fills: nat, commission: real)

  function Start(ctx: Context): LoopState {
    LoopState(Books(ctx.world, ctx.portfolio, ctx.position, ctx.trade),
              [], [ctx.parameters.initialCash], [], [], 0, 0.0)
  }

  function Return(prev: real, equity: real): real {
    if prev > 0.0 then (equity - prev) / prev else 0.0
  }

  function Recorded(ctx: Context, s: LoopState, idx: nat, fill: Option<Fill>): LoopState
    requires idx < |ctx.candles| && |s.equityCurve| > 0
  {
    var candle := ctx.candles[idx];
    var equity := Equity(s.books.portfolio, ctx.parameters.initialCash);
    s.(equityCurve := s.equityCurve + [equity],
       gains := s.gains + [Return(s.equityCurve[|s.equityCurve| - 1], equity)],
       history := s.history + [StepRecord(idx, candle.closeTime, candle.close, equity, fill)])
  }

  /** One pass of the loop body; None when something raised. */
  function Advance(ctx: Context, s: LoopState, idx: nat): (r: Option<LoopState>)
    requires idx < |ctx.candles| && |s.equityCurve| > 0
    ensures r.Some? ==>
              && |r.value.equityCurve| == |s.equityCurve| + 1 && s.equityCurve <= r.value.equityCurve
              && |r.value.history| == |s.history| + 1 && s.history <= r.value.history
              && |r.value.gains| == |s.gains| + 1 && s.gains <= r.value.gains
  {
    match StepAt(ctx, s.books.world, idx)
    case Raised => None
    case Returned(w, None) => Some(Recorded(ctx, s.(books := s.books.(world := w)), idx, None))
    case Returned(w, Some((execution, fill))) =>
      match Booked(ctx.engines, s.books.(world := w), execution, fill, ctx.candles[idx].close)
      case None => None
      case Some(books) =>
        Some(Recorded(ctx, s.(books := books, trades := UpsertTrade(s.trades, books.trade),
                              fills := s.fills + 1, commission := s.commission + fill.commission),
                      idx, Some(fill)))
  }

  /** The loop state after the first `n` scheduled steps. */
  function After(ctx: Context, n: nat): (r: Option<LoopState>)
    requires Schedule(ctx).Some? && n <= |Schedule(ctx).value|
    ensures r.Some? ==> |r.value.equityCurve| == n + 1 && |r.value.history| == |r.value.gains| == n
  {
    if n == 0 then Some(Start(ctx))
    else
      match After(ctx, n - 1)
      case None => None
      case Some(s) => Advance(ctx, s, Schedule(ctx).value[n - 1])
  }

  /** How many steps run: `cancel_after_steps` stops before step c + 1. */
  function StepsRun(total: nat, cancelAfter: Option<int>): (n: nat)
    ensures n <= total
  {
    match cancelAfter
    case None => total
    case Some(c) => if c < 0 then 0 else if c < total then c else total
  }

  datatype RunResult = Failed | Finished(cancelled: bool, totalSteps: nat, state: LoopState)

  function Outcome(ctx: Context): (r: RunResult)
    ensures r.Finished? ==>
              && |r.state.equityCurve| == r.totalSteps + 1
              && |r.state.history| == |r.state.gains| == r.totalSteps
  {
    match Schedule(ctx)
    case None => Failed
    case Some(schedule) =>
      var n := StepsRun(|schedule|, ctx.parameters.cancelAfterSteps);
      match After(ctx, n)
      case None => Failed
      case Some(s) => Finished(n < |schedule|, n, s)
  }

  lemma FinishedState(ctx: Context)
    requires Outcome(ctx).Finished?
    ensures var r := Outcome(ctx);
            && Schedule(ctx).Some?
            && r.totalSteps == StepsRun(|Schedule(ctx).value|, ctx.parameters.cancelAfterSteps)
            && After(ctx, r.totalSteps) == Some(r.state)
  {
  }

  // ---------- The run ----------

  /** The loop body past the cancellation test. */
  method Replay(ctx: Context, s0: LoopState, idx: nat) returns (r: Option<LoopState>)
    requires idx < |ctx.candles| && |s0.equityCurve| > 0
    ensures r == Advance(ctx, s0, idx)
  {
    var s, fill: Option<Fill> := s0, None;
    var stepped := RunStep(ctx, s.books.world, idx);
    if stepped.Raised? {
      return None;
    }
    s := s.(books := s.books.(world := stepped.world));
    if stepped.value.Some? {
      var (execution, f) := stepped.value.value;
      fill := Some(f);
      s := s.(fills := s.fills + 1, commission := s.commission + f.commission);
      var books := Booked(ctx.engines, s.books, execution, f, ctx.candles[idx].close);
      if books.None? {
        return None;
      }
      s := s.(books := books.value, trades := UpsertTrade(s.trades, books.value.trade));
    }
    return Some(Recorded(ctx, s, idx, fill));
  }

  method Run(ctx: Context) returns (r: RunResult)
    ensures r == Outcome(ctx)
  {
    var scheduled := Schedule(ctx);
    if scheduled.None? {
      return Failed;
    }
    var schedule, cancelAfter := scheduled.value, ctx.parameters.cancelAfterSteps;
    ghost var last := StepsRun(|schedule|, cancelAfter);
    var s := Start(ctx);
    var stepNo, cancelled := 0, false;
    while stepNo < |schedule| && !cancelled
      invariant 0 <= stepNo <= last
      invariant cancelled ==> stepNo == last < |schedule|
      invariant After(ctx, stepNo) == Some(s)
      decreases |schedule| - stepNo, !cancelled
    {
      stepNo := stepNo + 1;
      if cancelAfter.Some? && stepNo > cancelAfter.value {
        cancelled := true;
        stepNo := stepNo - 1;
      } else {
        var next := Replay(ctx, s, schedule[stepNo - 1]);
        if next.None? {
          RaisedForGood(ctx, stepNo, last);
          return Failed;
        }
        s := next.value;
      }
    }
    return Finished(cancelled, stepNo, s);
  }

  lemma {:induction false} RaisedForGood(ctx: Context, n: nat, m: nat)
    requires Schedule(ctx).Some? && n <= m <= |Schedule(ctx).value|
    requires After(ctx, n) == None
    ensures After(ctx, m) == None
  {
    if n < m {
      RaisedForGood(ctx, n, m - 1);
    }
  }

  // ---------- Accounting over every run ----------

  function FillsIn(history: seq<StepRecord>): nat {
    if history == [] then 0
    else FillsIn(history[..|history| - 1]) + if history[|history| - 1].fill.Some? then 1 else 0
  }

  function CommissionIn(history: seq<StepRecord>): real {
    if history == [] then 0.0
    else
      var fill := history[|history| - 1].fill;
      CommissionIn(history[..|history| - 1]) + if fill.Some? then fill.value.commission else 0.0
  }

  ghost predicate UniqueIds(trades: seq<Trade>) {
    forall i, j | 0 <= i < j < |trades| :: trades[i].id != trades[j].id
  }

  /** Every figure the summary reports, re-derived from the history. */
  ghost predicate Reconciled(ctx: Context, s: LoopState) {
    && |s.equityCurve| == |s.history| + 1 && |s.gains| == |s.history|
    && s.equityCurve[0] == ctx.parameters.initialCash
    && (forall k | 0 <= k < |s.history| ::
          && s.equityCurve[k + 1] == s.history[k].equity
          && s.gains[k] == Return(s.equityCurve[k], s.equityCurve[k + 1])
          && s.history[k].index < |ctx.candles|
          && s.history[k].close == ctx.candles[s.history[k].index].close
          && s.history[k].timestamp == ctx.candles[s.history[k].index].closeTime)
    && s.fills == FillsIn(s.history)
    && s.commission == CommissionIn(s.history)
    && UniqueIds(s.trades)
  }

  lemma {:induction false} WithoutIdUnique(trades: seq<Trade>, id: string)
    requires UniqueIds(trades)
    ensures UniqueIds(WithoutId(trades, id))
  {
    if trades != [] {
      var rest := trades[1..];
      assert UniqueIds(rest);
      WithoutIdUnique(rest, id);
      assert forall t | t in rest :: t.id != trades[0].id;
    }
  }

  lemma UpsertUnique(trades: seq<Trade>, result: Option<TradeResult>)
    requires UniqueIds(trades)
    ensures UniqueIds(UpsertTrade(trades, result))
  {
    if result.Some? && result.value.trade.Some? {
      var id := result.value.trade.value.id;
      WithoutIdUnique(trades, id);
      assert forall t | t in WithoutId(trades, id) :: t.id != id;
    }
  }

  lemma RecordedReconciles(ctx: Context, s: LoopState, t: LoopState, idx: nat, fill: Option<Fill>)
    requires Reconciled(ctx, s) && idx < |ctx.candles| && |t.equityCurve| > 0
    requires t.equityCurve == s.equityCurve && t.gains == s.gains && t.history == s.history
    requires t.fills == s.fills + (if fill.Some? then 1 else 0)
    requires t.commission == s.commission + (if fill.Some? then fill.value.commission else 0.0)
    requires UniqueIds(t.trades)
    ensures Reconciled(ctx, Recorded(ctx, t, idx, fill))
  {
    var u := Recorded(ctx, t, idx, fill);
    assert u.history[..|u.history| - 1] == s.history;
  }

  lemma AdvanceReconciles(ctx: Context, s: LoopState, idx: nat)
    requires Reconciled(ctx, s) && idx < |ctx.candles|
    ensures Advance(ctx, s, idx).Some? ==> Reconciled(ctx, Advance(ctx, s, idx).value)
  {
    match StepAt(ctx, s.books.world, idx)
    case Raised =>
    case Returned(w, None) =>
      RecordedReconciles(ctx, s, s.(books := s.books.(world := w)), idx, None);
    case Returned(w, Some((execution, fill))) =>
      var booked := Booked(ctx.engines, s.books.(world := w), execution, fill, ctx.candles[idx].close);
      if booked.Some? {
        UpsertUnique(s.trades, booked.value.trade);
        RecordedReconciles(ctx, s, s.(books := booked.value, trades := UpsertTrade(s.trades, booked.value.trade),
                                      fills := s.fills + 1, commission := s.commission + fill.commission),
                           idx, Some(fill));
      }
  }

  lemma {:induction false} EveryStateReconciles(ctx: Context, n: nat)
    requires Schedule(ctx).Some? && n <= |Schedule(ctx).value|
    ensures After(ctx, n).Some? ==> Reconciled(ctx, After(ctx, n).value)
  {
    if n > 0 && After(ctx, n - 1).Some? {
      EveryStateReconciles(ctx, n - 1);
      AdvanceReconciles(ctx, After(ctx, n - 1).value, Schedule(ctx).value[n - 1]);
    }
  }

  /** History entry k was recorded at the k-th scheduled candle. */
  lemma {:induction false} HistoryFollowsSchedule(ctx: Context, n: nat, k: nat)
    requires Schedule(ctx).Some? && k < n <= |Schedule(ctx).value| && After(ctx, n).Some?
    ensures After(ctx, n).value.history[k].index == Schedule(ctx).value[k]
  {
    var s, idx := After(ctx, n - 1).value, Schedule(ctx).value[n - 1];
    assert After(ctx, n) == Advance(ctx, s, idx);
    if k < n - 1 {
      HistoryFollowsSchedule(ctx, n - 1, k);
      assert After(ctx, n).value.history[k] == s.history[k];
    }
  }

  function Compounded(cash: real, gains: seq<real>): real {
    if gains == [] then cash
    else Compounded(cash, gains[..|gains| - 1]) * (1.0 + gains[|gains| - 1])
  }

  lemma ReturnCompounds(prev: real, last: real)
    requires prev > 0.0
    ensures prev * (1.0 + Return(prev, last)) == last
  {
    var gain := Return(prev, last);
    assert gain * prev == last - prev;
  }

  lemma {:induction false} CompoundingReachesEquity(cash: real, curve: seq<real>, gains: seq<real>)
    requires |curve| == |gains| + 1 && curve[0] == cash
    requires forall k | 0 <= k < |gains| :: gains[k] == Return(curve[k], curve[k + 1])
    requires forall k | 0 <= k < |curve| :: curve[k] > 0.0
    ensures Compounded(cash, gains) == curve[|curve| - 1]
  {
    if gains != [] {
      var n := |gains|;
      CompoundingReachesEquity(cash, curve[..n], gains[..n - 1]);
      ReturnCompounds(curve[n - 1], curve[n]);
    }
  }

  /** Every finished run: counts, sums and unique trades, and the returns compound to the end. */
  lemma FinishedRunReconciles(ctx: Context)
    requires Outcome(ctx).Finished?
    ensures var r := Outcome(ctx);
            && Reconciled(ctx, r.state)
            && |r.state.history| == |r.state.gains| == |r.state.equityCurve| - 1 == r.totalSteps
            && ((forall k | 0 <= k < |r.state.equityCurve| :: r.state.equityCurve[k] > 0.0) ==>
                  Compounded(ctx.parameters.initialCash, r.state.gains) == r.state.equityCurve[r.totalSteps])
  {
    var r := Outcome(ctx);
    EveryStateReconciles(ctx, r.totalSteps);
    if forall k | 0 <= k < |r.state.equityCurve| :: r.state.equityCurve[k] > 0.0 {
      CompoundingReachesEquity(ctx.parameters.initialCash, r.state.equityCurve, r.state.gains);
    }
  }

  // ---------- Cancellation is a prefix ----------

  lemma {:induction false} HistoryGrows(ctx: Context, n: nat, m: nat)
    requires Schedule(ctx).Some? && n <= m <= |Schedule(ctx).value| && After(ctx, m).Some?
    ensures After(ctx, n).Some? && IsPrefixState(After(ctx, n).value, After(ctx, m).value)
    decreases m - n
  {
    if n < m {
      NextGrows(ctx, m);
      HistoryGrows(ctx, n, m - 1);
      PrefixTransitive(After(ctx, n).value, After(ctx, m - 1).value, After(ctx, m).value);
    }
  }

  lemma NextGrows(ctx: Context, m: nat)
    requires Schedule(ctx).Some? && 0 < m <= |Schedule(ctx).value| && After(ctx, m).Some?
    ensures After(ctx, m - 1).Some? && IsPrefixState(After(ctx, m - 1).value, After(ctx, m).value)
  {
    AdvanceGrows(ctx, After(ctx, m - 1).value, Schedule(ctx).value[m - 1]);
  }

  lemma AdvanceGrows(ctx: Context, s: LoopState, idx: nat)
    requires idx < |ctx.candles| && |s.equityCurve| > 0 && Advance(ctx, s, idx).Some?
    ensures IsPrefixState(s, Advance(ctx, s, idx).value)
  {
  }

  lemma PrefixTransitive(s: LoopState, t: LoopState, u: LoopState)
    requires IsPrefixState(s, t) && IsPrefixState(t, u)
    ensures IsPrefixState(s, u)
  {
  }

  ghost predicate IsPrefixState(s: LoopState, t: LoopState) {
    s.history <= t.history && s.equityCurve <= t.equityCurve && s.gains <= t.gains
  }

  lemma {:induction false} CancelIgnoredInside(a: Context, b: Context, n: nat)
    requires b == a.(parameters := a.parameters.(cancelAfterSteps := b.parameters.cancelAfterSteps))
    requires Schedule(a).Some? && n <= |Schedule(a).value|
    ensures Schedule(a) == Schedule(b) && After(a, n) == After(b, n)
  {
    if n > 0 {
      CancelIgnoredInside(a, b, n - 1);
      SameNext(a, b, n);
    }
  }

  /** Runs in the same state before step n are in the same state after it. */
  lemma SameNext(a: Context, b: Context, n: nat)
    requires Schedule(a).Some? && 0 < n <= |Schedule(a).value|
    requires Schedule(b).Some? && n <= |Schedule(b).value| && Schedule(a).value[n - 1] == Schedule(b).value[n - 1]
    requires AgreeUpTo(a, b, Schedule(a).value[n - 1]) && After(a, n - 1) == After(b, n - 1)
    ensures After(a, n) == After(b, n)
  {
    if After(a, n - 1).Some? {
      SameAdvance(a, b, After(a, n - 1).value, Schedule(a).value[n - 1]);
    }
  }

  /** `b` may differ from `a` in its cancellation point and in candles after `idx`. */
  ghost predicate AgreeUpTo(a: Context, b: Context, idx: nat) {
    && a.engines == b.engines
    && a.parameters.(cancelAfterSteps := b.parameters.cancelAfterSteps) == b.parameters
    && idx < |a.candles| && idx < |b.candles| && a.candles[..idx + 1] == b.candles[..idx + 1]
  }

  lemma SameWindow(a: Context, b: Context, idx: nat)
    requires AgreeUpTo(a, b, idx)
    ensures a.candles[idx] == b.candles[idx] && Window(a.candles, idx) == Window(b.candles, idx)
  {
    assert a.candles[idx] == a.candles[..idx + 1][idx] == b.candles[..idx + 1][idx];
    var from := if idx < WINDOW - 1 then 0 else idx - WINDOW + 1;
    assert Window(a.candles, idx) == a.candles[..idx + 1][from..] == b.candles[..idx + 1][from..]
        == Window(b.candles, idx);
  }

  lemma {:induction false} SameFirstFill(
    e: Engines, p: Parameters, q: Parameters, w: World, candle: Candle, signals: seq<Signal>)
    requires p.(cancelAfterSteps := q.cancelAfterSteps) == q
    ensures FirstFill(e, p, w, candle, signals) == FirstFill(e, q, w, candle, signals)
  {
    if signals != [] {
      SameTrySignal(e, p, q, w, candle, signals[0]);
      var attempt := TrySignal(e, p, w, candle, signals[0]);
      if attempt.Returned? && attempt.value.None? {
        SameFirstFill(e, p, q, attempt.world, candle, signals[1..]);
      }
    }
  }

  lemma SameTrySignal(e: Engines, p: Parameters, q: Parameters, w: World, candle: Candle, signal: Signal)
    requires p.(cancelAfterSteps := q.cancelAfterSteps) == q
    ensures TrySignal(e, p, w, candle, signal) == TrySignal(e, q, w, candle, signal)
  {
    assert p.slippageBps == q.slippageBps && p.commissionBps == q.commissionBps && p.latencySteps == q.latencySteps;
    forall x
      ensures Simulate(x, candle, p) == Simulate(x, candle, q)
    {
    }
  }

  lemma SameStep(a: Context, b: Context, w: World, idx: nat)
    requires AgreeUpTo(a, b, idx)
    ensures StepAt(a, w, idx) == StepAt(b, w, idx)
  {
    SameWindow(a, b, idx);
    if a.engines.strategy.Some? {
      var evaluated := a.engines.strategy.value(w, a.candles[idx], Window(a.candles, idx));
      if evaluated.Returned? {
        SameFirstFill(a.engines, a.parameters, b.parameters, evaluated.world, a.candles[idx], evaluated.value);
      }
    }
  }

  /** One pass reads nothing but the engines, the other parameters and the window. */
  lemma SameAdvance(a: Context, b: Context, s: LoopState, idx: nat)
    requires AgreeUpTo(a, b, idx) && |s.equityCurve| > 0
    ensures Advance(a, s, idx) == Advance(b, s, idx)
  {
    SameStep(a, b, s.books.world, idx);
    SameWindow(a, b, idx);
    forall t: LoopState, fill | |t.equityCurve| > 0
      ensures Recorded(a, t, idx, fill) == Recorded(b, t, idx, fill)
    {
    }
  }

  /** With `cancel_after_steps = c >= 0` a run is exactly the first min(c, total) uncancelled steps. */
  lemma CancelledRunIsPrefix(full: Context, c: nat)
    requires full.parameters.cancelAfterSteps.None? && Outcome(full).Finished?
    ensures var cut := Outcome(full.(parameters := full.parameters.(cancelAfterSteps := Some(c))));
            var total := Outcome(full).totalSteps;
            && cut.Finished?
            && cut.totalSteps == (if c < total then c else total)
            && (cut.cancelled <==> c < total)
            && Schedule(full).Some? && cut.totalSteps <= |Schedule(full).value|
            && After(full, cut.totalSteps) == Some(cut.state)
            && IsPrefixState(cut.state, Outcome(full).state)
  {
    var short := full.(parameters := full.parameters.(cancelAfterSteps := Some(c)));
    FinishedState(full);
    var total := Outcome(full).totalSteps;
    var n := if c < total then c else total;
    HistoryGrows(full, n, total);
    CancelIgnoredInside(full, short, n);
    assert Schedule(short) == Schedule(full);
  }

  // ---------- No look-ahead ----------

  lemma SameSchedule(a: Context, b: Context, i: nat, n: nat)
    requires b == a.(candles := b.candles) && i < |a.candles| && i < |b.candles|
    requires Schedule(a).Some? && 0 < n <= |Schedule(a).value| && Schedule(a).value[n - 1] <= i
    ensures Schedule(b).Some? && n <= |Schedule(b).value|
    ensures Schedule(a).value[n - 1] == Schedule(b).value[n - 1]
    ensures n > 1 ==> Schedule(a).value[n - 2] <= i
  {
    var speed := a.parameters.replaySpeed;
    StridedAt(|a.candles|, speed, 0, n - 1);
    StridedAt(|b.candles|, speed, 0, n - 1);
    if n > 1 {
      StridedAt(|a.candles|, speed, 0, n - 2);
      assert (n - 2) * speed <= (n - 1) * speed;
    }
  }

  /** The state after n steps depends only on candles up to the n-th scheduled index. */
  lemma {:induction false} NoLookAhead(a: Context, b: Context, i: nat, n: nat)
    requires b == a.(candles := b.candles) && AgreeUpTo(a, b, i)
    requires Schedule(a).Some? && n <= |Schedule(a).value| && (n > 0 ==> Schedule(a).value[n - 1] <= i)
    ensures Schedule(b).Some? && n <= |Schedule(b).value|
    ensures After(a, n) == After(b, n)
  {
    if n > 0 {
      SameSchedule(a, b, i, n);
      NoLookAhead(a, b, i, n - 1);
      var idx := Schedule(a).value[n - 1];
      assert a.candles[..idx + 1] == a.candles[..i + 1][..idx + 1] == b.candles[..idx + 1];
      SameNext(a, b, n);
    }
  }

  /**
   * Two finished backtests whose candles agree up to index i have the same history (and so
   * fills and commission), equity and returns for every step scheduled up to i.
   */
  lemma FinishedRunsAgreeUpTo(a: Context, b: Context, i: nat, n: nat)
    requires b == a.(candles := b.candles) && AgreeUpTo(a, b, i)
    requires Outcome(a).Finished? && Outcome(b).Finished?
    requires n <= Outcome(a).totalSteps && n <= Outcome(b).totalSteps
    requires n > 0 ==> Outcome(a).state.history[n - 1].index <= i
    ensures var s, t := Outcome(a).state, Outcome(b).state;
            && s.history[..n] == t.history[..n] && s.gains[..n] == t.gains[..n]
            && s.equityCurve[..n + 1] == t.equityCurve[..n + 1]
  {
    FinishedState(a);
    FinishedState(b);
    if n > 0 {
      HistoryFollowsSchedule(a, Outcome(a).totalSteps, n - 1);
    }
    NoLookAhead(a, b, i, n);
    HistoryGrows(a, n, Outcome(a).totalSteps);
    HistoryGrows(b, n, Outcome(b).totalSteps);
    SharedPrefix(After(a, n).value, Outcome(a).state, Outcome(b).state, n);
  }

  lemma SharedPrefix(p: LoopState, s: LoopState, t: LoopState, n: nat)
    requires IsPrefixState(p, s) && IsPrefixState(p, t)
    requires |p.history| == |p.gains| == n && |p.equityCurve| == n + 1
    ensures s.history[..n] == t.history[..n] && s.gains[..n] == t.gains[..n]
    ensures s.equityCurve[..n + 1] == t.equityCurve[..n + 1]
  {
    assert s.history[..n] == p.history == t.history[..n];
    assert s.gains[..n] == p.gains == t.gains[..n];
    assert s.equityCurve[..n + 1] == p.equityCurve == t.equityCurve[..n + 1];
  }
}
