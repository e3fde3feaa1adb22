/** The steps of a backtest read off the engines' answers, stage by stage. */
module BacktestSteps {
  import opened Wrappers
  import opened Backtest

  // ---------- One signal ----------

  /** The risk engine let the signal through. */
  ghost predicate Approved(e: Engines, w: World, signal: Signal, w1: World, decision: Decision) {
    && !signal.hold && e.risk.Some?
    && e.risk.value(w, signal) == Returned(w1, decision) && decision.approved
  }

  ghost predicate Ordered(
    e: Engines, w1: World, decision: Decision, signal: Signal, w2: World, order: OrderResult)
  {
    e.order.Some? && e.order.value(w1, decision, signal) == Returned(w2, order) && order.ready
  }

  ghost predicate Executed(
    e: Engines, w2: World, order: OrderResult, decision: Decision, signal: Signal,
    w3: World, execution: ExecutionResult)
  {
    && e.execution.Some?
    && e.execution.value(w2, order, decision, signal) == Returned(w3, execution) && execution.ready
  }

  ghost predicate OrderPlaced(
    e: Engines, w: World, signal: Signal, w1: World, decision: Decision, w2: World, order: OrderResult)
  {
    Approved(e, w, signal, w1, decision) && Ordered(e, w1, decision, signal, w2, order)
  }

  /** Risk approved, the order was ready and so was the execution. */
  ghost predicate Passes(e: Engines, w: World, signal: Signal, w3: World, execution: ExecutionResult) {
    exists w1, decision, w2, order ::
      OrderPlaced(e, w, signal, w1, decision, w2, order)
      && Executed(e, w2, order, decision, signal, w3, execution)
  }

  ghost predicate Fillable(execution: ExecutionResult) {
    execution.request.Some? && execution.request.value.quantity > 0.0
  }

  /** The order filled at the close plus slippage against the taker, with commission on the notional. */
  ghost predicate FillGiven(execution: ExecutionResult, candle: Candle, p: Parameters, fill: Fill) {
    && Fillable(execution)
    && var order := execution.request.value;
       && fill.symbol == order.symbol && fill.buy == order.buy && fill.quantity == order.quantity
       && fill.slippage == candle.close * p.slippageBps / 10000.0
       && (order.buy ==> fill.price == candle.close + candle.close * p.slippageBps / 10000.0)
       && (!order.buy ==> fill.price == candle.close - candle.close * p.slippageBps / 10000.0)
       && fill.commission == fill.price * order.quantity * p.commissionBps / 10000.0
       && fill.latencySteps == p.latencySteps && fill.timestamp == candle.closeTime
  }

  ghost predicate Fills(
    e: Engines, p: Parameters, w: World, candle: Candle, signal: Signal,
    w3: World, execution: ExecutionResult, fill: Fill)
  {
    Passes(e, w, signal, w3, execution) && FillGiven(execution, candle, p, fill)
  }

  /** Some stage is missing or says no, and the world is left as the last stage asked left it. */
  ghost predicate Declines(e: Engines, w: World, signal: Signal, after: World) {
    || ((signal.hold || e.risk.None?) && after == w)
    || (exists decision :: VetoedOrUnordered(e, w, signal, after, decision))
    || (exists w1, decision, order :: OrderDropped(e, w, signal, w1, decision, after, order))
    || exists w1, decision, w2, order, execution ::
         OrderPlaced(e, w, signal, w1, decision, w2, order)
         && ExecutionDropped(e, w2, order, decision, signal, after, execution)
  }

  ghost predicate VetoedOrUnordered(e: Engines, w: World, signal: Signal, after: World, decision: Decision) {
    && !signal.hold && e.risk.Some? && e.risk.value(w, signal) == Returned(after, decision)
    && (!decision.approved || e.order.None?)
  }

  ghost predicate OrderDropped(
    e: Engines, w: World, signal: Signal, w1: World, decision: Decision, after: World, order: OrderResult)
  {
    && Approved(e, w, signal, w1, decision)
    && e.order.Some? && e.order.value(w1, decision, signal) == Returned(after, order)
    && (!order.ready || e.execution.None?)
  }

  ghost predicate ExecutionDropped(
    e: Engines, w2: World, order: OrderResult, decision: Decision, signal: Signal,
    after: World, execution: ExecutionResult)
  {
    && e.execution.Some?
    && e.execution.value(w2, order, decision, signal) == Returned(after, execution) && !execution.ready
  }

  /** Some stage asked raised, or the simulator refused to fill. */
  ghost predicate Raises(e: Engines, w: World, signal: Signal) {
    || (!signal.hold && e.risk.Some? && e.risk.value(w, signal).Raised?)
    || (exists w1, decision :: Approved(e, w, signal, w1, decision)
                               && e.order.Some? && e.order.value(w1, decision, signal).Raised?)
    || (exists w1, decision, w2, order ::
          OrderPlaced(e, w, signal, w1, decision, w2, order)
          && e.execution.Some? && e.execution.value(w2, order, decision, signal).Raised?)
    || exists w3, execution :: Passes(e, w, signal, w3, execution) && !Fillable(execution)
  }

  lemma FillExactly(execution: ExecutionResult, candle: Candle, p: Parameters, fill: Fill)
    requires execution.ready
    ensures Simulate(execution, candle, p) == Some(fill) <==> FillGiven(execution, candle, p, fill)
    ensures Simulate(execution, candle, p) == None <==> !Fillable(execution)
  {
  }

  /** An attempt yields this execution and fill exactly when every stage passed and the fill is the right one. */
  lemma AttemptFillsExactly(
    e: Engines, p: Parameters, w: World, candle: Candle, signal: Signal,
    w3: World, execution: ExecutionResult, fill: Fill)
    ensures TrySignal(e, p, w, candle, signal) == Returned(w3, Some((execution, fill))) <==>
              Fills(e, p, w, candle, signal, w3, execution, fill)
  {
    if Approves(e, w, signal) {
      var approval := e.risk.value(w, signal);
      var w1, decision := approval.world, approval.value;
      assert Approved(e, w, signal, w1, decision);
      if PlacesOrder(e, w1, decision, signal) {
        var placed := e.order.value(w1, decision, signal);
        var w2, order := placed.world, placed.value;
        assert OrderPlaced(e, w, signal, w1, decision, w2, order);
        if Executes(e, w2, order, decision, signal) {
          var done := e.execution.value(w2, order, decision, signal);
          assert Executed(e, w2, order, decision, signal, done.world, done.value);
          FillExactly(done.value, candle, p, fill);
        }
      }
    }
  }

  ghost predicate Approves(e: Engines, w: World, signal: Signal) {
    && !signal.hold && e.risk.Some?
    && e.risk.value(w, signal).Returned? && e.risk.value(w, signal).value.approved
  }

  ghost predicate PlacesOrder(e: Engines, w1: World, decision: Decision, signal: Signal) {
    && e.order.Some?
    && e.order.value(w1, decision, signal).Returned? && e.order.value(w1, decision, signal).value.ready
  }

  ghost predicate Executes(e: Engines, w2: World, order: OrderResult, decision: Decision, signal: Signal) {
    && e.execution.Some?
    && e.execution.value(w2, order, decision, signal).Returned?
    && e.execution.value(w2, order, decision, signal).value.ready
  }

  lemma AttemptDeclinesExactly(e: Engines, p: Parameters, w: World, candle: Candle, signal: Signal, after: World)
    ensures TrySignal(e, p, w, candle, signal) == Returned(after, None) <==> Declines(e, w, signal, after)
  {
    if !signal.hold && e.risk.Some? && e.risk.value(w, signal).Returned? {
      var w1, decision := e.risk.value(w, signal).world, e.risk.value(w, signal).value;
      assert VetoedOrUnordered(e, w, signal, w1, decision) <==> !decision.approved || e.order.None?;
      if decision.approved && e.order.Some? && e.order.value(w1, decision, signal).Returned? {
        var placed := e.order.value(w1, decision, signal);
        var w2, order := placed.world, placed.value;
        assert Approved(e, w, signal, w1, decision);
        assert OrderDropped(e, w, signal, w1, decision, w2, order) <==> !order.ready || e.execution.None?;
        if order.ready && e.execution.Some? && e.execution.value(w2, order, decision, signal).Returned? {
          var done := e.execution.value(w2, order, decision, signal);
          assert OrderPlaced(e, w, signal, w1, decision, w2, order);
          assert ExecutionDropped(e, w2, order, decision, signal, done.world, done.value) <==> !done.value.ready;
        }
      }
    }
  }

  lemma AttemptRaisesExactly(e: Engines, p: Parameters, w: World, candle: Candle, signal: Signal)
    ensures TrySignal(e, p, w, candle, signal) == Raised <==> Raises(e, w, signal)
  {
    if Approves(e, w, signal) {
      var approval := e.risk.value(w, signal);
      var w1, decision := approval.world, approval.value;
      assert Approved(e, w, signal, w1, decision);
      if PlacesOrder(e, w1, decision, signal) {
        var placed := e.order.value(w1, decision, signal);
        var w2, order := placed.world, placed.value;
        assert OrderPlaced(e, w, signal, w1, decision, w2, order);
        if Executes(e, w2, order, decision, signal) {
          var done := e.execution.value(w2, order, decision, signal);
          assert Executed(e, w2, order, decision, signal, done.world, done.value);
          assert Passes(e, w, signal, done.world, done.value);
        }
      }
    }
  }

  // ---------- One step ----------

  /** The strategy saw the candle and at most the last 128 up to it, and answered `signals`. */
  ghost predicate StrategySays(ctx: Context, w: World, idx: nat, w0: World, signals: seq<Signal>)
    requires idx < |ctx.candles|
  {
    && ctx.engines.strategy.Some?
    && ctx.engines.strategy.value(w, ctx.candles[idx], LastCandles(ctx.candles, idx)) == Returned(w0, signals)
  }

  /** The candles up to `idx`, but not more than 128 of them. */
  ghost function LastCandles(candles: seq<Candle>, idx: nat): (r: seq<Candle>)
    requires idx < |candles|
    ensures |r| == if idx + 1 <= 128 then idx + 1 else 128
    ensures forall k | 0 <= k < |r| :: r[k] == candles[idx + 1 - |r| + k]
  {
    candles[..idx + 1][(if idx < 128 then 0 else idx - 127)..]
  }

  lemma WindowIsLastCandles(candles: seq<Candle>, idx: nat)
    requires idx < |candles|
    ensures Window(candles, idx) == LastCandles(candles, idx)
  {
  }

  /** The signals are declined one after the other, each in the world the one before left. */
  ghost predicate DeclinedInTurn(e: Engines, w: World, signals: seq<Signal>, after: World) {
    if signals == [] then after == w
    else exists w1 :: Declines(e, w, signals[0], w1) && DeclinedInTurn(e, w1, signals[1..], after)
  }

  lemma {:induction false} AfterDecliningExactly(
    e: Engines, p: Parameters, w: World, candle: Candle, signals: seq<Signal>, after: World)
    ensures AfterDeclining(e, p, w, candle, signals) == Some(after) <==> DeclinedInTurn(e, w, signals, after)
  {
    if signals != [] {
      var attempt := TrySignal(e, p, w, candle, signals[0]);
      forall w1
        ensures attempt == Returned(w1, None) <==> Declines(e, w, signals[0], w1)
      {
        AttemptDeclinesExactly(e, p, w, candle, signals[0], w1);
      }
      if !Decisive(attempt) {
        AfterDecliningExactly(e, p, attempt.world, candle, signals[1..], after);
      }
    }
  }

  /** Signal `i` is the first not declined, and it fills. */
  ghost predicate FilledBySignal(
    ctx: Context, idx: nat, w0: World, signals: seq<Signal>, i: nat, wi: World,
    w3: World, execution: ExecutionResult, fill: Fill)
    requires idx < |ctx.candles| && i < |signals|
  {
    && DeclinedInTurn(ctx.engines, w0, signals[..i], wi)
    && Fills(ctx.engines, ctx.parameters, wi, ctx.candles[idx], signals[i], w3, execution, fill)
  }

  ghost predicate StepFills(
    ctx: Context, w: World, idx: nat, w3: World, execution: ExecutionResult, fill: Fill)
    requires idx < |ctx.candles|
  {
    exists w0, signals, i: nat, wi ::
      StrategySays(ctx, w, idx, w0, signals) && i < |signals|
      && FilledBySignal(ctx, idx, w0, signals, i, wi, w3, execution, fill)
  }

  /** No strategy, or it answered and every one of its signals was declined. */
  ghost predicate StepPasses(ctx: Context, w: World, idx: nat, after: World)
    requires idx < |ctx.candles|
  {
    || (ctx.engines.strategy.None? && after == w)
    || exists w0, signals ::
         StrategySays(ctx, w, idx, w0, signals) && DeclinedInTurn(ctx.engines, w0, signals, after)
  }

  /** A decisive fill at position `i`, in terms of the engines. */
  lemma DecidesByFill(
    ctx: Context, idx: nat, w0: World, signals: seq<Signal>, i: nat,
    w3: World, execution: ExecutionResult, fill: Fill)
    requires idx < |ctx.candles| && i < |signals|
    ensures DecidesAt(ctx.engines, ctx.parameters, w0, ctx.candles[idx], signals, i,
                      Returned(w3, Some((execution, fill)))) <==>
              (exists wi :: FilledBySignal(ctx, idx, w0, signals, i, wi, w3, execution, fill))
  {
    var e, p, candle := ctx.engines, ctx.parameters, ctx.candles[idx];
    var declined := AfterDeclining(e, p, w0, candle, signals[..i]);
    forall wi
      ensures declined == Some(wi) <==> DeclinedInTurn(e, w0, signals[..i], wi)
    {
      AfterDecliningExactly(e, p, w0, candle, signals[..i], wi);
    }
    if declined.Some? {
      AttemptFillsExactly(e, p, declined.value, candle, signals[i], w3, execution, fill);
      if Fills(e, p, declined.value, candle, signals[i], w3, execution, fill) {
        assert FilledBySignal(ctx, idx, w0, signals, i, declined.value, w3, execution, fill);
      }
    }
  }

  /** A step fills exactly when the engines let some signal through after all earlier ones were declined. */
  lemma StepFillsExactly(ctx: Context, w: World, idx: nat, w3: World, execution: ExecutionResult, fill: Fill)
    requires idx < |ctx.candles|
    ensures StepAt(ctx, w, idx) == Returned(w3, Some((execution, fill))) <==>
              StepFills(ctx, w, idx, w3, execution, fill)
  {
    WindowIsLastCandles(ctx.candles, idx);
    if ctx.engines.strategy.Some? {
      var answer := ctx.engines.strategy.value(w, ctx.candles[idx], Window(ctx.candles, idx));
      if answer.Returned? {
        SaysOnce(ctx, w, idx, answer.world, answer.value, w3, execution, fill);
        FirstFillExactly(ctx, idx, answer.world, answer.value, w3, execution, fill);
      }
    }
  }

  lemma FirstFillExactly(
    ctx: Context, idx: nat, w0: World, signals: seq<Signal>, w3: World, execution: ExecutionResult, fill: Fill)
    requires idx < |ctx.candles|
    ensures FirstFill(ctx.engines, ctx.parameters, w0, ctx.candles[idx], signals) ==
              Returned(w3, Some((execution, fill))) <==>
            exists i: nat, wi :: i < |signals| && FilledBySignal(ctx, idx, w0, signals, i, wi, w3, execution, fill)
  {
    var e, p, candle := ctx.engines, ctx.parameters, ctx.candles[idx];
    var r: Answer<Option<(ExecutionResult, Fill)>> := Returned(w3, Some((execution, fill)));
    FirstSurvivorDecides(e, p, w0, candle, signals);
    assert Decisive(r);
    if FirstFill(e, p, w0, candle, signals) == r {
      var i :| 0 <= i < |signals| && DecidesAt(e, p, w0, candle, signals, i, r);
      DecidesByFill(ctx, idx, w0, signals, i, w3, execution, fill);
    }
    if i: nat, wi :| i < |signals| && FilledBySignal(ctx, idx, w0, signals, i, wi, w3, execution, fill) {
      DecidesByFill(ctx, idx, w0, signals, i, w3, execution, fill);
    }
  }

  /** The strategy gives one answer, so the witnesses of a fill share its world and signals. */
  lemma SaysOnce(
    ctx: Context, w: World, idx: nat, w0: World, signals: seq<Signal>,
    w3: World, execution: ExecutionResult, fill: Fill)
    requires idx < |ctx.candles| && StrategySays(ctx, w, idx, w0, signals)
    ensures StepFills(ctx, w, idx, w3, execution, fill) <==>
              exists i: nat, wi :: i < |signals| && FilledBySignal(ctx, idx, w0, signals, i, wi, w3, execution, fill)
  {
  }

  /** A step leaves no fill exactly when there is no strategy or all of its signals are declined. */
  lemma StepPassesExactly(ctx: Context, w: World, idx: nat, after: World)
    requires idx < |ctx.candles|
    ensures StepAt(ctx, w, idx) == Returned(after, None) <==> StepPasses(ctx, w, idx, after)
  {
    WindowIsLastCandles(ctx.candles, idx);
    if ctx.engines.strategy.Some? {
      var answer := ctx.engines.strategy.value(w, ctx.candles[idx], Window(ctx.candles, idx));
      if answer.Returned? {
        var w0, signals := answer.world, answer.value;
        assert StrategySays(ctx, w, idx, w0, signals);
        FirstSurvivorDecides(ctx.engines, ctx.parameters, w0, ctx.candles[idx], signals);
        AfterDecliningExactly(ctx.engines, ctx.parameters, w0, ctx.candles[idx], signals, after);
      }
    }
  }

  // ---------- Booking a fill ----------

  ghost predicate PortfolioBooked(e: Engines, b: Books, execution: ExecutionResult, fill: Fill, b1: Books) {
    if e.portfolio.None? then b1 == b
    else
      && b1.position == b.position && b1.trade == b.trade
      && exists r :: e.portfolio.value(b.world, execution, fill.symbol, fill.price) == Returned(b1.world, r)
                     && (r.succeeded ==> b1.portfolio == Some(r)) && (!r.succeeded ==> b1.portfolio == b.portfolio)
  }

  ghost predicate PositionBooked(e: Engines, b: Books, close: real, b1: Books) {
    if e.position.None? || b.portfolio.None? then b1 == b
    else
      && b1.portfolio == b.portfolio && b1.trade == b.trade
      && exists r :: e.position.value(b.world, b.portfolio.value, close) == Returned(b1.world, r)
                     && (r.succeeded ==> b1.position == Some(r)) && (!r.succeeded ==> b1.position == b.position)
  }

  ghost predicate TradeBooked(e: Engines, b: Books, b1: Books) {
    if e.trade.None? || b.position.None? then b1 == b
    else
      && b1.portfolio == b.portfolio && b1.position == b.position
      && exists r :: e.trade.value(b.world, b.position.value) == Returned(b1.world, r)
                     && (r.succeeded ==> b1.trade == Some(r)) && (!r.succeeded ==> b1.trade == b.trade)
  }

  /** The portfolio first, then the position from it, then the trade from that; failures keep what was there. */
  ghost predicate BookedInTurn(
    e: Engines, b: Books, execution: ExecutionResult, fill: Fill, close: real, after: Books)
  {
    exists b1, b2 ::
      PortfolioBooked(e, b, execution, fill, b1) && PositionBooked(e, b1, close, b2) && TradeBooked(e, b2, after)
  }

  lemma BookedExactly(e: Engines, b: Books, execution: ExecutionResult, fill: Fill, close: real, after: Books)
    ensures Booked(e, b, execution, fill, close) == Some(after) <==> BookedInTurn(e, b, execution, fill, close, after)
  {
    forall b1
      ensures Book(e, b, execution, fill) == Some(b1) <==> PortfolioBooked(e, b, execution, fill, b1)
    {
      BookExactly(e, b, execution, fill, b1);
    }
    forall b1, b2
      ensures Position(e, b1, close) == Some(b2) <==> PositionBooked(e, b1, close, b2)
    {
      PositionExactly(e, b1, close, b2);
    }
    forall b2
      ensures Track(e, b2) == Some(after) <==> TradeBooked(e, b2, after)
    {
      TrackExactly(e, b2, after);
    }
  }

  lemma BookExactly(e: Engines, b: Books, execution: ExecutionResult, fill: Fill, b1: Books)
    ensures Book(e, b, execution, fill) == Some(b1) <==> PortfolioBooked(e, b, execution, fill, b1)
  {
  }

  lemma PositionExactly(e: Engines, b: Books, close: real, b1: Books)
    ensures Position(e, b, close) == Some(b1) <==> PositionBooked(e, b, close, b1)
  {
  }

  lemma TrackExactly(e: Engines, b: Books, b1: Books)
    ensures Track(e, b) == Some(b1) <==> TradeBooked(e, b, b1)
  {
  }

  // ---------- One pass of the loop ----------

  /** What a pass appends: the equity of the books after it, the gain on the equity before it, and the record. */
  ghost predicate PassRecorded(ctx: Context, s: LoopState, idx: nat, fill: Option<Fill>, t: LoopState)
    requires idx < |ctx.candles| && |s.equityCurve| > 0
  {
    exists equity, gain ::
      && EquityIs(t.books.portfolio, ctx.parameters.initialCash, equity)
      && GainIs(s.equityCurve[|s.equityCurve| - 1], equity, gain)
      && t.equityCurve == s.equityCurve + [equity]
      && t.gains == s.gains + [gain]
      && t.history == s.history +
           [StepRecord(idx, ctx.candles[idx].closeTime, ctx.candles[idx].close, equity, fill)]
  }

  /** The value of the portfolio's snapshot, or the initial cash while there is none. */
  ghost predicate EquityIs(portfolio: Option<PortfolioResult>, cash: real, equity: real) {
    match portfolio
    case Some(PortfolioResult(_, Some(value), _)) => equity == value
    case _ => equity == cash
  }

  /** `gain` takes `before` to `equity`; it is zero when there was nothing to gain on. */
  ghost predicate GainIs(before: real, equity: real, gain: real) {
    if before > 0.0 then before * (1.0 + gain) == equity else gain == 0.0
  }

  /** The trade of the latest result replaces the one with its id, at the end of the list. */
  ghost predicate TradesUpserted(before: seq<Trade>, result: Option<TradeResult>, after: seq<Trade>) {
    match result
    case Some(TradeResult(_, Some(trade), _)) =>
      && |after| > 0 && after[|after| - 1] == trade
      && forall t :: multiset(after[..|after| - 1])[t] == if t.id == trade.id then 0 else multiset(before)[t]
    case _ => after == before
  }

  ghost predicate PassedWithoutFill(ctx: Context, s: LoopState, idx: nat, t: LoopState, w: World)
    requires idx < |ctx.candles| && |s.equityCurve| > 0
  {
    && StepPasses(ctx, s.books.world, idx, w)
    && t.books == Books(w, s.books.portfolio, s.books.position, s.books.trade)
    && t.trades == s.trades && t.fills == s.fills && t.commission == s.commission
    && PassRecorded(ctx, s, idx, None, t)
  }

  ghost predicate PassedWithFill(
    ctx: Context, s: LoopState, idx: nat, t: LoopState, w: World, execution: ExecutionResult, fill: Fill)
    requires idx < |ctx.candles| && |s.equityCurve| > 0
  {
    && StepFills(ctx, s.books.world, idx, w, execution, fill)
    && BookedInTurn(ctx.engines, Books(w, s.books.portfolio, s.books.position, s.books.trade),
                    execution, fill, ctx.candles[idx].close, t.books)
    && TradesUpserted(s.trades, t.books.trade, t.trades)
    && t.fills == s.fills + 1 && t.commission == s.commission + fill.commission
    && PassRecorded(ctx, s, idx, Some(fill), t)
  }

  lemma {:induction false} WithoutIdCounts(trades: seq<Trade>, id: string)
    ensures forall t :: multiset(WithoutId(trades, id))[t] == if t.id == id then 0 else multiset(trades)[t]
  {
    if trades != [] {
      WithoutIdCounts(trades[1..], id);
      assert trades == [trades[0]] + trades[1..];
    }
  }

  lemma UpsertExactly(before: seq<Trade>, result: Option<TradeResult>)
    ensures TradesUpserted(before, result, UpsertTrade(before, result))
  {
    if result.Some? && result.value.trade.Some? {
      var trade := result.value.trade.value;
      WithoutIdCounts(before, trade.id);
      var after := UpsertTrade(before, result);
      assert after[..|after| - 1] == WithoutId(before, trade.id);
    }
  }

  lemma RecordedExactly(ctx: Context, s: LoopState, s1: LoopState, idx: nat, fill: Option<Fill>)
    requires idx < |ctx.candles| && |s.equityCurve| > 0
    requires s1.equityCurve == s.equityCurve && s1.gains == s.gains && s1.history == s.history
    ensures PassRecorded(ctx, s, idx, fill, Recorded(ctx, s1, idx, fill))
  {
    var equity := Equity(s1.books.portfolio, ctx.parameters.initialCash);
    var before := s.equityCurve[|s.equityCurve| - 1];
    if before > 0.0 {
      ReturnCompounds(before, equity);
    }
    assert EquityIs(s1.books.portfolio, ctx.parameters.initialCash, equity);
    assert GainIs(before, equity, Return(before, equity));
  }

  /** A pass of the loop that does not raise does exactly what the engines' answers say. */
  lemma AdvanceExactly(ctx: Context, s: LoopState, idx: nat)
    requires idx < |ctx.candles| && |s.equityCurve| > 0
    ensures Advance(ctx, s, idx).Some? ==>
              var t := Advance(ctx, s, idx).value;
              || (exists w :: PassedWithoutFill(ctx, s, idx, t, w))
              || (exists w, execution, fill :: PassedWithFill(ctx, s, idx, t, w, execution, fill))
    ensures Advance(ctx, s, idx).Some? <==>
              || (exists w :: StepPasses(ctx, s.books.world, idx, w))
              || (exists w, execution, fill, after :: FillIsBooked(ctx, s, idx, w, execution, fill, after))
  {
    match StepAt(ctx, s.books.world, idx)
    case Raised =>
      NothingWhenRaised(ctx, s, idx);
    case Returned(w, None) =>
      StepPassesExactly(ctx, s.books.world, idx, w);
      var s1 := s.(books := s.books.(world := w));
      RecordedExactly(ctx, s, s1, idx, None);
      assert PassedWithoutFill(ctx, s, idx, Recorded(ctx, s1, idx, None), w);
    case Returned(w, Some((execution, fill))) =>
      FilledPass(ctx, s, idx, w, execution, fill);
  }

  ghost predicate FillIsBooked(
    ctx: Context, s: LoopState, idx: nat, w: World, execution: ExecutionResult, fill: Fill, after: Books)
    requires idx < |ctx.candles|
  {
    && StepFills(ctx, s.books.world, idx, w, execution, fill)
    && BookedInTurn(ctx.engines, Books(w, s.books.portfolio, s.books.position, s.books.trade),
                    execution, fill, ctx.candles[idx].close, after)
  }

  lemma NothingWhenRaised(ctx: Context, s: LoopState, idx: nat)
    requires idx < |ctx.candles| && StepAt(ctx, s.books.world, idx) == Raised
    ensures forall w :: !StepPasses(ctx, s.books.world, idx, w)
    ensures forall w, execution, fill :: !StepFills(ctx, s.books.world, idx, w, execution, fill)
  {
    forall w
      ensures !StepPasses(ctx, s.books.world, idx, w)
    {
      StepPassesExactly(ctx, s.books.world, idx, w);
    }
    forall w, execution, fill
      ensures !StepFills(ctx, s.books.world, idx, w, execution, fill)
    {
      StepFillsExactly(ctx, s.books.world, idx, w, execution, fill);
    }
  }

  lemma FilledPass(ctx: Context, s: LoopState, idx: nat, w: World, execution: ExecutionResult, fill: Fill)
    requires idx < |ctx.candles| && |s.equityCurve| > 0
    requires StepAt(ctx, s.books.world, idx) == Returned(w, Some((execution, fill)))
    ensures Advance(ctx, s, idx).Some? ==> PassedWithFill(ctx, s, idx, Advance(ctx, s, idx).value, w, execution, fill)
    ensures Advance(ctx, s, idx).Some? <==> exists after :: FillIsBooked(ctx, s, idx, w, execution, fill, after)
    ensures forall w1 :: !StepPasses(ctx, s.books.world, idx, w1)
    ensures forall w1, x, f :: StepFills(ctx, s.books.world, idx, w1, x, f) ==> w1 == w && x == execution && f == fill
  {
    var start := Books(w, s.books.portfolio, s.books.position, s.books.trade);
    var close := ctx.candles[idx].close;
    assert start == s.books.(world := w);
    forall w1
      ensures !StepPasses(ctx, s.books.world, idx, w1)
    {
      StepPassesExactly(ctx, s.books.world, idx, w1);
    }
    forall w1, x, f
      ensures StepFills(ctx, s.books.world, idx, w1, x, f) <==> w1 == w && x == execution && f == fill
    {
      StepFillsExactly(ctx, s.books.world, idx, w1, x, f);
    }
    forall after
      ensures Booked(ctx.engines, start, execution, fill, close) == Some(after) <==>
                FillIsBooked(ctx, s, idx, w, execution, fill, after)
    {
      BookedExactly(ctx.engines, start, execution, fill, close, after);
    }
    var booked := Booked(ctx.engines, start, execution, fill, close);
    if booked.Some? {
      assert FillIsBooked(ctx, s, idx, w, execution, fill, booked.value);
      var trades := UpsertTrade(s.trades, booked.value.trade);
      UpsertExactly(s.trades, booked.value.trade);
      RecordedExactly(ctx, s, s.(books := booked.value, trades := trades, fills := s.fills + 1,
                                 commission := s.commission + fill.commission), idx, Some(fill));
    }
  }

  // ---------- Whole runs ----------

  /** How many steps a run takes: every speed-th candle, but at most the cancellation point. */
  ghost predicate TakesSteps(ctx: Context, n: nat) {
    && ctx.parameters.replaySpeed >= 1
    && forall k: nat :: k < n <==>
         k * ctx.parameters.replaySpeed < |ctx.candles|
         && (ctx.parameters.cancelAfterSteps.Some? ==> k < ctx.parameters.cancelAfterSteps.value)
  }

  lemma ScheduleExactly(ctx: Context)
    ensures Schedule(ctx).None? <==> ctx.parameters.replaySpeed < 1
    ensures Schedule(ctx).Some? ==> forall k: nat ::
              && (k < |Schedule(ctx).value| <==> k * ctx.parameters.replaySpeed < |ctx.candles|)
              && (k < |Schedule(ctx).value| ==> Schedule(ctx).value[k] == k * ctx.parameters.replaySpeed)
  {
    if ctx.parameters.replaySpeed >= 1 {
      forall k: nat
        ensures k < |Schedule(ctx).value| <==> k * ctx.parameters.replaySpeed < |ctx.candles|
        ensures k < |Schedule(ctx).value| ==> Schedule(ctx).value[k] == k * ctx.parameters.replaySpeed
      {
        StridedAt(|ctx.candles|, ctx.parameters.replaySpeed, 0, k);
      }
    }
  }

  /** The states of a run: the first is the initial one, each next is one pass at the next scheduled candle. */
  ghost predicate IsRun(ctx: Context, states: seq<LoopState>) {
    && |states| > 0
    && (forall k | 0 <= k < |states| :: |states[k].equityCurve| > 0)
    && states[0] == LoopState(Books(ctx.world, ctx.portfolio, ctx.position, ctx.trade), [],
                              [ctx.parameters.initialCash], [], [], 0, 0.0)
    && forall k | 0 <= k < |states| - 1 :: IsPass(ctx, states[k], k * ctx.parameters.replaySpeed, states[k + 1])
  }

  ghost predicate IsPass(ctx: Context, s: LoopState, idx: int, t: LoopState)
    requires |s.equityCurve| > 0
  {
    && 0 <= idx < |ctx.candles|
    && ((exists w :: PassedWithoutFill(ctx, s, idx, t, w))
        || exists w, execution, fill :: PassedWithFill(ctx, s, idx, t, w, execution, fill))
  }

  lemma {:induction false} StatesOfRun(ctx: Context, n: nat) returns (states: seq<LoopState>)
    requires Schedule(ctx).Some? && n <= |Schedule(ctx).value| && After(ctx, n).Some?
    ensures IsRun(ctx, states) && |states| == n + 1 && After(ctx, n) == Some(states[n])
  {
    if n == 0 {
      states := [After(ctx, 0).value];
    } else {
      states := StatesOfRun(ctx, n - 1);
      var next := After(ctx, n).value;
      NextIsPass(ctx, n, states[n - 1]);
      RunExtends(ctx, states, next);
      states := states + [next];
    }
  }

  lemma NextIsPass(ctx: Context, n: nat, s: LoopState)
    requires Schedule(ctx).Some? && 0 < n <= |Schedule(ctx).value|
    requires After(ctx, n - 1) == Some(s) && After(ctx, n).Some?
    ensures IsPass(ctx, s, (n - 1) * ctx.parameters.replaySpeed, After(ctx, n).value)
  {
    StridedAt(|ctx.candles|, ctx.parameters.replaySpeed, 0, n - 1);
    AdvanceExactly(ctx, s, Schedule(ctx).value[n - 1]);
  }

  lemma RunExtends(ctx: Context, states: seq<LoopState>, next: LoopState)
    requires IsRun(ctx, states) && |next.equityCurve| > 0
    requires IsPass(ctx, states[|states| - 1], (|states| - 1) * ctx.parameters.replaySpeed, next)
    ensures IsRun(ctx, states + [next])
  {
    var more := states + [next];
    forall k | 0 <= k < |more| - 1
      ensures IsPass(ctx, more[k], k * ctx.parameters.replaySpeed, more[k + 1])
    {
      if k < |states| - 1 {
        assert more[k] == states[k] && more[k + 1] == states[k + 1];
      }
    }
  }

  /**
   * A finished run takes exactly the scheduled steps before its cancellation point, each doing
   * what the engines' answers at that candle say, from the initial cash and empty history.
   */
  lemma FinishedRunFollowsEngines(ctx: Context) returns (states: seq<LoopState>)
    requires Outcome(ctx).Finished?
    ensures TakesSteps(ctx, Outcome(ctx).totalSteps)
    ensures Outcome(ctx).cancelled <==> Outcome(ctx).totalSteps * ctx.parameters.replaySpeed < |ctx.candles|
    ensures IsRun(ctx, states) && |states| == Outcome(ctx).totalSteps + 1
    ensures Outcome(ctx).state == states[Outcome(ctx).totalSteps]
  {
    FinishedState(ctx);
    ScheduleExactly(ctx);
    states := StatesOfRun(ctx, Outcome(ctx).totalSteps);
  }

  /** No pass at `idx` is possible: a stage raised, the simulator refused, or the booking raised. */
  ghost predicate IsStuck(ctx: Context, s: LoopState, idx: int) {
    && 0 <= idx < |ctx.candles|
    && (forall w :: !StepPasses(ctx, s.books.world, idx, w))
    && forall w, execution, fill, after :: !FillIsBooked(ctx, s, idx, w, execution, fill, after)
  }

  lemma {:induction false} FirstFailure(ctx: Context, m: nat) returns (n: nat)
    requires Schedule(ctx).Some? && m <= |Schedule(ctx).value| && After(ctx, m) == None
    ensures n < m && After(ctx, n).Some? && After(ctx, n + 1) == None
  {
    if After(ctx, m - 1).Some? {
      n := m - 1;
    } else {
      n := FirstFailure(ctx, m - 1);
    }
  }

  /** A failed run had a bad replay speed, or got stuck at a candle it still had to replay. */
  lemma FailedRunIsStuck(ctx: Context) returns (states: seq<LoopState>)
    requires Outcome(ctx).Failed? && ctx.parameters.replaySpeed >= 1
    ensures IsRun(ctx, states)
    ensures ctx.parameters.cancelAfterSteps.Some? ==> |states| - 1 < ctx.parameters.cancelAfterSteps.value
    ensures IsStuck(ctx, states[|states| - 1], (|states| - 1) * ctx.parameters.replaySpeed)
  {
    ScheduleExactly(ctx);
    var total := StepsRun(|Schedule(ctx).value|, ctx.parameters.cancelAfterSteps);
    var n := FirstFailure(ctx, total);
    states := StatesOfRun(ctx, n);
    NoneIsStuck(ctx, n, states[n]);
  }

  lemma NoneIsStuck(ctx: Context, n: nat, s: LoopState)
    requires Schedule(ctx).Some? && n < |Schedule(ctx).value|
    requires After(ctx, n) == Some(s) && After(ctx, n + 1) == None
    ensures IsStuck(ctx, s, n * ctx.parameters.replaySpeed)
  {
    StridedAt(|ctx.candles|, ctx.parameters.replaySpeed, 0, n);
    AdvanceExactly(ctx, s, Schedule(ctx).value[n]);
  }
}
