/** src/reference/reference_model.cpp: the per-event specification of the pipeline. */
module ReferenceModel {
  import opened MarketTypes
  import opened FixedPoint
  import opened Features
  import opened FeatureWindow
  import opened BookFlow
  import BookModel
  import OrderBookCpp
  import Strategy

  /** The market state that events change, parameters and signal aside. */
  datatype Market = Market(book: Book, window: Window, prior: Option<int>)

  const EMPTY_MARKET: Market := Market(EMPTY_BOOK, EMPTY_WINDOW, None)

  function MidpointChange(prior: Option<int>, midpoint: Option<int>): int {
    if prior.Some? && midpoint.Some? then Abs(midpoint.value - prior.value) else 0
  }

  /** What one event does to book, window and prior midpoint; an error changes nothing. */
  function Advance(m: Market, e: MarketEvent, allowCrossed: bool): Market {
    var o := BookModel.Apply(m.book, e, allowCrossed);
    if o.error != NoError then m
    else
      var midpoint := Midpoint(o.book);
      Market(o.book,
             PushEntry(m.window, Entry(o.orderFlow, o.tradeFlow, MidpointChange(m.prior, midpoint))),
             if midpoint.Some? then midpoint else m.prior)
  }

  function RunMarket(events: seq<MarketEvent>, allowCrossed: bool): Market {
    if |events| == 0 then EMPTY_MARKET
    else Advance(RunMarket(events[..|events| - 1], allowCrossed), events[|events| - 1], allowCrossed)
  }

  datatype Signal = Signal(timestamp: U64, index: nat, verdict: Strategy.Verdict, version: U64)

  const NO_SIGNAL: Signal := Signal(0, 0, Strategy.NO_VERDICT, 0)

  /** The object's whole state. */
  datatype State = State(market: Market, features: FeatureVector, signal: Signal)

  const START: State := State(EMPTY_MARKET, NO_FEATURES, NO_SIGNAL)

  /** `process`: a failed event leaves every field alone, a successful one refreshes all. */
  function Process(s: State, e: MarketEvent, index: nat, parameters: Strategy.Parameters, allowCrossed: bool): State {
    if BookModel.Apply(s.market.book, e, allowCrossed).error != NoError then s
    else
      var market := Advance(s.market, e, allowCrossed);
      var features := CalculateFeatures(market.book, market.window);
      var verdict := Strategy.Evaluate(features, parameters.bank);
      State(market, features, Signal(e.timestamp, index, verdict, parameters.version))
  }

  // ---------- Facts every reachable market keeps ----------

  ghost predicate MarketOk(m: Market, allowCrossed: bool) {
    && BookModel.BookOk(m.book, allowCrossed)
    && (m.prior.Some? ==> 0 <= m.prior.value <= I32_MAX)
    && WindowOk(m.window)
  }

  lemma {:induction false} MidpointFits(book: Book, allowCrossed: bool)
    requires BookModel.BookOk(book, allowCrossed) && Midpoint(book).Some?
    ensures 0 < Midpoint(book).value <= I32_MAX
  {
    assert book.bids[0].price > 0 && book.asks[0].price > 0;
  }

  lemma {:induction false} FlowFits(book: Book, e: MarketEvent, allowCrossed: bool)
    ensures var o := BookModel.Apply(book, e, allowCrossed);
      -U32_MAX <= o.orderFlow <= U32_MAX && -U32_MAX <= o.tradeFlow <= U32_MAX
  {
  }

  lemma {:induction false} AdvanceOk(m: Market, e: MarketEvent, allowCrossed: bool)
    requires MarketOk(m, allowCrossed)
    ensures MarketOk(Advance(m, e, allowCrossed), allowCrossed)
  {
    var o := BookModel.Apply(m.book, e, allowCrossed);
    BookModel.ApplyKeepsBook(m.book, e, allowCrossed);
    if o.error == NoError {
      var midpoint := Midpoint(o.book);
      if midpoint.Some? { MidpointFits(o.book, allowCrossed); }
      FlowFits(m.book, e, allowCrossed);
      PushOk(m.window, Entry(o.orderFlow, o.tradeFlow, MidpointChange(m.prior, midpoint)));
    }
  }

  /** In every reachable market the book is healthy, the sums are plain sums of bounded
      entries, and so no accumulated 64-bit value overflows. */
  lemma {:induction false} RunMarketOk(events: seq<MarketEvent>, allowCrossed: bool)
    ensures MarketOk(RunMarket(events, allowCrossed), allowCrossed)
    ensures var w := RunMarket(events, allowCrossed).window;
      && Abs(w.sums.orderFlow) <= WINDOW * U32_MAX
      && Abs(w.sums.tradeFlow) <= WINDOW * U32_MAX
      && 0 <= w.sums.midpointChange <= WINDOW * I32_MAX
    decreases |events|
  {
    if |events| == 0 {
      EmptyOk();
    } else {
      RunMarketOk(events[..|events| - 1], allowCrossed);
      AdvanceOk(RunMarket(events[..|events| - 1], allowCrossed), events[|events| - 1], allowCrossed);
    }
    OkMarketFits(RunMarket(events, allowCrossed), allowCrossed);
  }

  lemma {:induction false} OkMarketFits(m: Market, allowCrossed: bool)
    requires MarketOk(m, allowCrossed)
    ensures Abs(m.window.sums.orderFlow) <= WINDOW * U32_MAX
    ensures Abs(m.window.sums.tradeFlow) <= WINDOW * U32_MAX
    ensures 0 <= m.window.sums.midpointChange <= WINDOW * I32_MAX
  {
    var history: seq<Entry> :| Holds(m.window, history) && AllBounded(history);
    WindowFitsI64(m.window, history);
  }

  // ---------- The object ----------

  /** The two accumulating loops over one side's quantities. */
  method TotalQuantity(levels: array<Level>) returns (total: int)
    ensures total == Total(levels[..])
  {
    total := 0;
    for index := 0 to levels.Length
      invariant total == Total(levels[..index])
    {
      assert levels[..index + 1] == levels[..index] + [levels[index]];
      TotalConcat(levels[..index], [levels[index]]);
      total := total + levels[index].quantity;
    }
    assert levels[..levels.Length] == levels[..];
  }

  /** The eight quotients of a two-sided book. */
  method Quotients(bid: Level, ask: Level, bidTotal: int, askTotal: int, sums: Entry, size: nat,
                   ghost book: Book, ghost window: Window) returns (result: FeatureVector)
    requires bid == book.bids[0] && ask == book.asks[0] && bid.quantity != 0 && ask.quantity != 0
    requires bidTotal == Total(book.bids) && askTotal == Total(book.asks)
    requires sums == window.sums && size == window.size
    ensures result == CalculateFeatures(book, window)
  {
    var mid := TruncDivide(bid.price as int + ask.price as int, 2);
    if mid <= 0 { return NO_FEATURES; }
    var l1Total := bid.quantity as int + ask.quantity as int;
    var micro := RoundedDivide(ask.price as int * bid.quantity as int + bid.price as int * ask.quantity as int, l1Total);
    var count := if size < 1 then 1 else size;
    result := FeatureVector([
      Ratio(ask.price as int - bid.price as int, mid),
      Ratio(bid.quantity as int - ask.quantity as int, l1Total),
      Ratio(bidTotal - askTotal, bidTotal + askTotal),
      Ratio(micro - mid, mid),
      Ratio(sums.orderFlow, bidTotal + askTotal),
      Ratio(sums.tradeFlow, bidTotal + askTotal),
      Ratio(sums.midpointChange, mid * count),
      ONE], true);
  }

  class Model {
    const book: OrderBookCpp.OrderBook
    const window: RollingWindow
    var priorMidpoint: Option<int>
    var features: FeatureVector
    var signal: Signal
    const parameters: Strategy.Parameters

    ghost function Parts(): set<object> {
      {this, book, book.bids, book.asks, window, window.entries}
    }

    ghost predicate Valid()
      reads Parts()
    {
      book.Valid() && window.Valid()
    }

    ghost function Value(): State
      requires Valid()
      reads Parts()
    {
      State(Market(book.Snapshot(), window.Value(), priorMidpoint), features, signal)
    }

    constructor (allowCrossed: bool, parameters: Strategy.Parameters)
      ensures Valid() && fresh(Parts())
      ensures book.allowCrossed == allowCrossed && this.parameters == parameters
      ensures Value() == START
    {
      book := new OrderBookCpp.OrderBook(allowCrossed);
      window := new RollingWindow();
      priorMidpoint, features, signal := None, NO_FEATURES, NO_SIGNAL;
      this.parameters := parameters;
    }

    /** The two totalling loops. */
    method SideTotals() returns (bidTotal: int, askTotal: int)
      requires Valid()
      ensures bidTotal == Total(book.Snapshot().bids) && askTotal == Total(book.Snapshot().asks)
    {
      bidTotal := TotalQuantity(book.bids);
      askTotal := TotalQuantity(book.asks);
    }

    /** `calculate_features` on the two best levels, the totals and the window's sums. */
    method Calculate() returns (result: FeatureVector)
      requires Valid()
      ensures result == CalculateFeatures(book.Snapshot(), window.Value())
    {
      result := NO_FEATURES;
      var bid, ask := book.bids[0], book.asks[0];
      if bid.quantity == 0 || ask.quantity == 0 { return; }
      var bidTotal, askTotal := SideTotals();
      var sums := Entry(window.orderFlowSum, window.tradeFlowSum, window.midpointChangeSum);
      result := Quotients(bid, ask, bidTotal, askTotal, sums, window.size, book.Snapshot(), window.Value());
    }

    /** The window and the prior midpoint take one accepted event. */
    method PushFlows(orderFlow: int, tradeFlow: int)
      requires Valid()
      modifies window, window.entries, `priorMidpoint
      ensures Valid() && book.Snapshot() == old(book.Snapshot())
      ensures var midpoint := Midpoint(book.Snapshot());
        && window.Value() ==
           PushEntry(old(window.Value()), Entry(orderFlow, tradeFlow, MidpointChange(old(priorMidpoint), midpoint)))
        && priorMidpoint == if midpoint.Some? then midpoint else old(priorMidpoint)
    {
      var bid, ask := book.bids[0], book.asks[0];
      var midpoint := if bid.quantity == 0 || ask.quantity == 0 then None
                      else Some(TruncDivide(bid.price as int + ask.price as int, 2));
      var change := MidpointChange(priorMidpoint, midpoint);
      window.Push(orderFlow, tradeFlow, change);
      if midpoint.Some? { priorMidpoint := midpoint; }
    }

    /** The book, and unless it refused the event the window and the prior midpoint. */
    method AdvanceMarket(e: MarketEvent) returns (error: BookError, orderFlow: int, tradeFlow: int)
      requires Valid()
      modifies book, book.bids, book.asks, window, window.entries, `priorMidpoint
      ensures Valid()
      ensures Market(book.Snapshot(), window.Value(), priorMidpoint) ==
              Advance(Market(old(book.Snapshot()), old(window.Value()), old(priorMidpoint)), e, book.allowCrossed)
      ensures BookModel.Outcome(book.Snapshot(), error, orderFlow, tradeFlow) ==
              BookModel.Apply(old(book.Snapshot()), e, book.allowCrossed)
    {
      error, orderFlow, tradeFlow := book.Apply(e);
      if error == NoError { PushFlows(orderFlow, tradeFlow); }
    }

    method ProcessEvent(e: MarketEvent, index: nat) returns (error: BookError, orderFlow: int, tradeFlow: int)
      requires Valid()
      modifies Parts()
      ensures Valid()
      ensures Value() == Process(old(Value()), e, index, parameters, book.allowCrossed)
      ensures BookModel.Outcome(book.Snapshot(), error, orderFlow, tradeFlow) ==
              BookModel.Apply(old(book.Snapshot()), e, book.allowCrossed)
    {
      ghost var before := Value();
      error, orderFlow, tradeFlow := AdvanceMarket(e);
      if error != NoError { return; }
      features := Calculate();
      var verdict := Strategy.EvaluateStrategy(features, parameters.bank);
      signal := Signal(e.timestamp, index, verdict, parameters.version);
    }
  }
}
