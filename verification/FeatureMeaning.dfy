/** What a run's features and signal mean, in the raw fields of its events and books: the
    window's sums as sums over the last 64 accepted events, the features as nearest values
    of their quotients, the action on the registered score. */
module FeatureMeaning {
  import opened MarketTypes
  import opened FixedPoint
  import opened Features
  import opened FeatureWindow
  import opened ReferenceModel
  import opened SignalPath
  import BookFlow
  import BookModel
  import Strategy

  // ---------- The accepted events of a run ----------

  /** One accepted event, the book it left, and the flows it reported. */
  datatype Accepted = Accepted(event: MarketEvent, after: Book, orderFlow: int, tradeFlow: int)

  function AcceptedEvents(events: seq<MarketEvent>, allowCrossed: bool): seq<Accepted> {
    if |events| == 0 then []
    else
      var n := |events| - 1;
      var o := BookModel.Apply(BookFlow.RunBook(EMPTY_BOOK, events[..n], allowCrossed), events[n], allowCrossed);
      AcceptedEvents(events[..n], allowCrossed) +
      if o.error == NoError then [Accepted(events[n], o.book, o.orderFlow, o.tradeFlow)] else []
  }

  predicate BothSides(book: Book) {
    book.bids[0].quantity > 0 && book.asks[0].quantity > 0
  }

  /** Half the sum of the best prices, rounded down. */
  ghost predicate IsMidpoint(book: Book, m: int) {
    BothSides(book) && 2 * m <= book.bids[0].price + book.asks[0].price <= 2 * m + 1
  }

  /** The last two-sided book that the accepted events left. */
  function LastTwoSided(steps: seq<Accepted>): Option<Book> {
    if |steps| == 0 then None
    else if BothSides(steps[|steps| - 1].after) then Some(steps[|steps| - 1].after)
    else LastTwoSided(steps[..|steps| - 1])
  }

  /** How far the midpoint moved from the last two-sided book to a new one: the absolute
      difference if both are there, and nothing otherwise. */
  ghost predicate Moved(c: int, earlier: Option<Book>, later: Book) {
    && (earlier.Some? && BothSides(later) ==>
          c >= 0 && forall p, q | IsMidpoint(earlier.value, p) && IsMidpoint(later, q) :: q == p + c || q == p - c)
    && (earlier.None? || !BothSides(later) ==> c == 0)
  }

  /** One movement for each accepted event. */
  ghost predicate Movements(moves: seq<int>, steps: seq<Accepted>) {
    && |moves| == |steps|
    && forall k | 0 <= k < |steps| :: Moved(moves[k], LastTwoSided(steps[..k]), steps[k].after)
  }

  function Total64(xs: seq<int>): int {
    PlainSum(if |xs| <= 64 then xs else xs[|xs| - 64..])
  }

  function PlainSum(xs: seq<int>): int {
    if |xs| == 0 then 0 else PlainSum(xs[..|xs| - 1]) + xs[|xs| - 1]
  }

  function OrderFlows(steps: seq<Accepted>): seq<int> {
    seq(|steps|, k requires 0 <= k < |steps| => steps[k].orderFlow)
  }

  function TradeFlows(steps: seq<Accepted>): seq<int> {
    seq(|steps|, k requires 0 <= k < |steps| => steps[k].tradeFlow)
  }

  // ---------- The window of a run ----------

  /** The entries a window was fed, one for each accepted event. */
  ghost predicate Feeds(history: seq<Entry>, steps: seq<Accepted>, moves: seq<int>) {
    && |history| == |steps| == |moves|
    && forall k | 0 <= k < |steps| :: history[k] == Entry(steps[k].orderFlow, steps[k].tradeFlow, moves[k])
  }

  /** The market's prior midpoint is that of the last two-sided book. */
  ghost predicate PriorIs(prior: Option<int>, last: Option<Book>) {
    && (prior.None? <==> last.None?)
    && (last.Some? ==> IsMidpoint(last.value, prior.value))
  }

  lemma {:induction false} MidpointIs(book: Book, allowCrossed: bool)
    requires BookModel.BookOk(book, allowCrossed)
    ensures Midpoint(book).Some? <==> BothSides(book)
    ensures BothSides(book) ==> IsMidpoint(book, Midpoint(book).value) && Midpoint(book).value > 0
  {
    if BothSides(book) { assert book.bids[0].price > 0 && book.asks[0].price > 0; }
  }

  /** One entry, without its computation: a movement both ways counts in full. */
  lemma {:induction false} ChangeIsMovement(prior: Option<int>, last: Option<Book>, book: Book, allowCrossed: bool)
    requires PriorIs(prior, last) && BookModel.BookOk(book, allowCrossed)
    ensures Moved(MidpointChange(prior, Midpoint(book)), last, book)
  {
    MidpointIs(book, allowCrossed);
  }

  lemma {:induction false} RunBookIs(events: seq<MarketEvent>, allowCrossed: bool)
    ensures RunMarket(events, allowCrossed).book == BookFlow.RunBook(EMPTY_BOOK, events, allowCrossed)
    decreases |events|
  {
    if |events| > 0 {
      RunBookIs(events[..|events| - 1], allowCrossed);
    }
  }

  lemma {:induction false} MovementsGrow(moves: seq<int>, steps: seq<Accepted>, c: int, step: Accepted)
    requires Movements(moves, steps) && Moved(c, LastTwoSided(steps), step.after)
    ensures Movements(moves + [c], steps + [step])
  {
    var more := steps + [step];
    forall k | 0 <= k < |more| ensures Moved((moves + [c])[k], LastTwoSided(more[..k]), more[k].after) {
      if k < |steps| {
        assert more[..k] == steps[..k];
      } else {
        assert more[..k] == steps;
      }
    }
  }

  lemma {:induction false} FeedsGrow(history: seq<Entry>, steps: seq<Accepted>, moves: seq<int>, entry: Entry,
                                     step: Accepted)
    requires Feeds(history, steps, moves) && entry.orderFlow == step.orderFlow && entry.tradeFlow == step.tradeFlow
    ensures Feeds(history + [entry], steps + [step], moves + [entry.midpointChange])
  {
  }

  lemma {:induction false} LastGrows(steps: seq<Accepted>, step: Accepted)
    ensures LastTwoSided(steps + [step]) == if BothSides(step.after) then Some(step.after) else LastTwoSided(steps)
  {
    assert (steps + [step])[..|steps|] == steps;
  }

  ghost predicate Fed(m: Market, steps: seq<Accepted>, history: seq<Entry>, moves: seq<int>) {
    && Holds(m.window, history) && Feeds(history, steps, moves) && Movements(moves, steps)
    && PriorIs(m.prior, LastTwoSided(steps))
  }

  /** Every run's window holds the entries of its accepted events. */
  lemma {:induction false} RunFeeds(events: seq<MarketEvent>, allowCrossed: bool)
    returns (history: seq<Entry>, moves: seq<int>)
    ensures Fed(RunMarket(events, allowCrossed), AcceptedEvents(events, allowCrossed), history, moves)
    decreases |events|
  {
    if |events| == 0 {
      history, moves := [], [];
      EmptyHolds();
    } else {
      var before, e := events[..|events| - 1], events[|events| - 1];
      assert before + [e] == events;
      var shorter, fewer := RunFeeds(before, allowCrossed);
      history, moves := StepFeeds(before, e, shorter, fewer, allowCrossed);
    }
  }

  lemma {:induction false} StepFeeds(before: seq<MarketEvent>, e: MarketEvent, history: seq<Entry>, moves: seq<int>,
                                     allowCrossed: bool) returns (longer: seq<Entry>, more: seq<int>)
    requires Fed(RunMarket(before, allowCrossed), AcceptedEvents(before, allowCrossed), history, moves)
    ensures var events := before + [e];
      Fed(RunMarket(events, allowCrossed), AcceptedEvents(events, allowCrossed), longer, more)
  {
    var m, steps := RunMarket(before, allowCrossed), AcceptedEvents(before, allowCrossed);
    assert (before + [e])[..|before|] == before;
    RunBookIs(before, allowCrossed);
    var o := BookModel.Apply(m.book, e, allowCrossed);
    if o.error != NoError {
      longer, more := history, moves;
      assert AcceptedEvents(before + [e], allowCrossed) == steps;
    } else {
      RunMarketOk(before, allowCrossed);
      BookModel.ApplyKeepsBook(m.book, e, allowCrossed);
      var c, step := MidpointChange(m.prior, Midpoint(o.book)), Accepted(e, o.book, o.orderFlow, o.tradeFlow);
      var entry := Entry(o.orderFlow, o.tradeFlow, c);
      ChangeIsMovement(m.prior, LastTwoSided(steps), o.book, allowCrossed);
      MidpointIs(o.book, allowCrossed);
      PushHolds(m.window, history, entry);
      MovementsGrow(moves, steps, c, step);
      FeedsGrow(history, steps, moves, entry, step);
      LastGrows(steps, step);
      longer, more := history + [entry], moves + [c];
    }
  }

  /** The last accepted event left the run's book. */
  lemma {:induction false} LastBook(events: seq<MarketEvent>, allowCrossed: bool)
    ensures var book, steps := RunMarket(events, allowCrossed).book, AcceptedEvents(events, allowCrossed);
      book == if |steps| == 0 then EMPTY_BOOK else steps[|steps| - 1].after
    decreases |events|
  {
    if |events| > 0 {
      LastBook(events[..|events| - 1], allowCrossed);
      RunBookIs(events[..|events| - 1], allowCrossed);
    }
  }

  // ---------- The three sums ----------

  lemma {:induction false} SumIsPlain(entries: seq<Entry>, a: seq<int>, b: seq<int>, c: seq<int>)
    requires |entries| == |a| == |b| == |c|
    requires forall k | 0 <= k < |entries| :: entries[k] == Entry(a[k], b[k], c[k])
    ensures Sum(entries) == Entry(PlainSum(a), PlainSum(b), PlainSum(c))
    decreases |entries|
  {
    if |entries| > 0 {
      var n := |entries| - 1;
      SumIsPlain(entries[..n], a[..n], b[..n], c[..n]);
    }
  }

  lemma {:induction false} LatestIsPlain(history: seq<Entry>, steps: seq<Accepted>, moves: seq<int>)
    requires Feeds(history, steps, moves)
    ensures Sum(Latest(history)) == Entry(Total64(OrderFlows(steps)), Total64(TradeFlows(steps)), Total64(moves))
  {
    var from := if |history| <= 64 then 0 else |history| - 64;
    var a, b := OrderFlows(steps), TradeFlows(steps);
    assert history[0..] == history && a[0..] == a && b[0..] == b && moves[0..] == moves;
    SumIsPlain(history[from..], a[from..], b[from..], moves[from..]);
  }

  /** For every run the window's three sums are the plain sums, over the last 64 accepted
      events, of the order flows, of the trade flows, and of the absolute movements between
      successive two-sided midpoints. */
  lemma {:induction false} WindowSums(events: seq<MarketEvent>, allowCrossed: bool) returns (moves: seq<int>)
    ensures var w, steps := RunMarket(events, allowCrossed).window, AcceptedEvents(events, allowCrossed);
      && Movements(moves, steps)
      && w.sums == Entry(Total64(OrderFlows(steps)), Total64(TradeFlows(steps)), Total64(moves))
      && w.size == if |steps| < 64 then |steps| else 64
  {
    var history;
    history, moves := RunFeeds(events, allowCrossed);
    LatestIsPlain(history, AcceptedEvents(events, allowCrossed), moves);
  }

  lemma {:induction false} HasMidpoint(book: Book) returns (m: int)
    requires BothSides(book)
    ensures IsMidpoint(book, m)
  {
    var sum := book.bids[0].price as int + book.asks[0].price as int;
    m := sum / 2;
  }

  /** The movements are a function of the accepted events. */
  lemma {:induction false} MovementsUnique(some: seq<int>, others: seq<int>, steps: seq<Accepted>)
    requires Movements(some, steps) && Movements(others, steps)
    ensures some == others
  {
    forall k | 0 <= k < |steps| ensures some[k] == others[k] {
      var earlier, later := LastTwoSided(steps[..k]), steps[k].after;
      assert Moved(some[k], earlier, later) && Moved(others[k], earlier, later);
      if earlier.Some? && BothSides(later) {
        LastIsTwoSided(steps[..k]);
        var p := HasMidpoint(earlier.value);
        var q := HasMidpoint(later);
      }
    }
  }

  lemma {:induction false} LastIsTwoSided(steps: seq<Accepted>)
    requires LastTwoSided(steps).Some?
    ensures BothSides(LastTwoSided(steps).value)
    decreases |steps|
  {
    if !BothSides(steps[|steps| - 1].after) { LastIsTwoSided(steps[..|steps| - 1]); }
  }

  // ---------- The eight features ----------

  /** A Q16.16 value is the one nearest to a quotient, ties away from zero, cut to 32 bits. */
  ghost predicate IsQ16(v: int, n: int, d: int) {
    && d > 0
    && exists q :: IsNearest(q, n * 0x1_0000, d) &&
                   v == if q > 0x7FFF_FFFF then 0x7FFF_FFFF else if q < -0x8000_0000 then -0x8000_0000 else q
  }

  lemma {:induction false} RatioIsQ16(n: int, d: int)
    requires d > 0
    ensures IsQ16(Ratio(n, d), n, d)
  {
    var q := RoundedDivide(n * SCALE, d);
    RoundedIsNearest(n * SCALE, d);
    SaturateExactly(q, Ratio(n, d));
  }

  /** The quantity of all ten levels. */
  function Visible(s: Levels): int {
    s[0].quantity + s[1].quantity + s[2].quantity + s[3].quantity + s[4].quantity +
    s[5].quantity + s[6].quantity + s[7].quantity + s[8].quantity + s[9].quantity
  }

  lemma {:induction false} TotalFrom(s: Levels, k: nat)
    requires k < DEPTH
    ensures BookFlow.Total(s[k..]) == s[k].quantity + BookFlow.Total(s[k + 1..])
  {
    assert s[k..][1..] == s[k + 1..];
  }

  lemma {:induction false} VisibleIsTotal(s: Levels)
    ensures BookFlow.Total(s) == Visible(s)
  {
    assert s[0..] == s && BookFlow.Total(s[10..]) == 0;
    TotalFrom(s, 0); TotalFrom(s, 1); TotalFrom(s, 2); TotalFrom(s, 3); TotalFrom(s, 4);
    TotalFrom(s, 5); TotalFrom(s, 6); TotalFrom(s, 7); TotalFrom(s, 8); TotalFrom(s, 9);
  }

  /** The features of the two best levels and of the ten visible ones. */
  ghost predicate QuoteFeatures(v: Values, book: Book, mid: int, micro: int) {
    var b, a := book.bids[0], book.asks[0];
    && IsMidpoint(book, mid)
    && IsNearest(micro, a.price * b.quantity + b.price * a.quantity, b.quantity + a.quantity)
    && IsQ16(v[0], a.price - b.price, mid)
    && IsQ16(v[1], b.quantity - a.quantity, b.quantity + a.quantity)
    && IsQ16(v[2], Visible(book.bids) - Visible(book.asks), Visible(book.bids) + Visible(book.asks))
    && IsQ16(v[3], micro - mid, mid)
  }

  /** The features of the window, and the constant. */
  ghost predicate FlowFeatures(v: Values, book: Book, steps: seq<Accepted>, moves: seq<int>, mid: int) {
    var total := Visible(book.bids) + Visible(book.asks);
    && IsQ16(v[4], Total64(OrderFlows(steps)), total)
    && IsQ16(v[5], Total64(TradeFlows(steps)), total)
    && IsQ16(v[6], Total64(moves), mid * (if |steps| < 64 then |steps| else 64))
    && v[7] == 0x1_0000
  }

  /** All eight features of a two-sided book, from its levels and the accepted events. */
  ghost predicate FeaturesAre(f: FeatureVector, book: Book, steps: seq<Accepted>, moves: seq<int>, mid: int, micro: int) {
    f.valid && QuoteFeatures(f.values, book, mid, micro) && FlowFeatures(f.values, book, steps, moves, mid)
  }

  /** The quotients the calculation forms, each still to be rounded. */
  lemma {:induction false} Quotients(book: Book, w: Window, mid: int, micro: int)
    requires BothSides(book) && mid > 0 && Midpoint(book) == Some(mid) && Microprice(book) == Some(micro)
    ensures var f, total := CalculateFeatures(book, w), Visible(book.bids) + Visible(book.asks);
      && f.valid
      && f.values[0] == Ratio(book.asks[0].price - book.bids[0].price, mid)
      && f.values[1] == Ratio(book.bids[0].quantity - book.asks[0].quantity, L1Total(book))
      && f.values[2] == Ratio(Visible(book.bids) - Visible(book.asks), total)
      && f.values[3] == Ratio(micro - mid, mid)
      && f.values[4] == Ratio(w.sums.orderFlow, total)
      && f.values[5] == Ratio(w.sums.tradeFlow, total)
      && f.values[6] == Ratio(w.sums.midpointChange, mid * (if w.size < 1 then 1 else w.size))
      && f.values[7] == 0x1_0000
  {
    VisibleIsTotal(book.bids);
    VisibleIsTotal(book.asks);
  }

  lemma {:induction false} QuotesMean(v: Values, book: Book, mid: int, micro: int)
    requires BothSides(book) && mid > 0 && IsMidpoint(book, mid) && Microprice(book) == Some(micro)
    requires v[0] == Ratio(book.asks[0].price - book.bids[0].price, mid)
    requires v[1] == Ratio(book.bids[0].quantity - book.asks[0].quantity, L1Total(book))
    requires v[2] == Ratio(Visible(book.bids) - Visible(book.asks), Visible(book.bids) + Visible(book.asks))
    requires v[3] == Ratio(micro - mid, mid)
    ensures QuoteFeatures(v, book, mid, micro)
  {
    RoundedIsNearest(Weighted(book), L1Total(book));
    RatioIsQ16(book.asks[0].price - book.bids[0].price, mid);
    RatioIsQ16(book.bids[0].quantity - book.asks[0].quantity, L1Total(book));
    RatioIsQ16(Visible(book.bids) - Visible(book.asks), Visible(book.bids) + Visible(book.asks));
    RatioIsQ16(micro - mid, mid);
  }

  lemma {:induction false} FlowsMean(v: Values, book: Book, order: int, trade: int, movement: int, span: int)
    requires BothSides(book) && span > 0
    requires v[4] == Ratio(order, Visible(book.bids) + Visible(book.asks))
    requires v[5] == Ratio(trade, Visible(book.bids) + Visible(book.asks))
    requires v[6] == Ratio(movement, span)
    ensures IsQ16(v[4], order, Visible(book.bids) + Visible(book.asks))
    ensures IsQ16(v[5], trade, Visible(book.bids) + Visible(book.asks))
    ensures IsQ16(v[6], movement, span)
  {
    RatioIsQ16(order, Visible(book.bids) + Visible(book.asks));
    RatioIsQ16(trade, Visible(book.bids) + Visible(book.asks));
    RatioIsQ16(movement, span);
  }

  /** The feature vector of any book a run can leave: a one-sided book has none. */
  ghost predicate VectorIs(f: FeatureVector, book: Book, steps: seq<Accepted>, moves: seq<int>, mid: int, micro: int) {
    if BothSides(book) then |steps| > 0 && FeaturesAre(f, book, steps, moves, mid, micro)
    else !f.valid && forall k | 0 <= k < FEATURES :: f.values[k] == 0
  }

  lemma {:induction false} CalculationMeans(book: Book, w: Window, steps: seq<Accepted>, moves: seq<int>,
                                            allowCrossed: bool) returns (mid: int, micro: int)
    requires BookModel.BookOk(book, allowCrossed) && BothSides(book) && |steps| > 0
    requires w.sums == Entry(Total64(OrderFlows(steps)), Total64(TradeFlows(steps)), Total64(moves))
    requires w.size == if |steps| < 64 then |steps| else 64
    ensures VectorIs(CalculateFeatures(book, w), book, steps, moves, mid, micro)
  {
    MidpointIs(book, allowCrossed);
    mid, micro := Midpoint(book).value, Microprice(book).value;
    var v := CalculateFeatures(book, w).values;
    Quotients(book, w, mid, micro);
    QuotesMean(v, book, mid, micro);
    SpanPositive(mid, w.size);
    FlowsMean(v, book, w.sums.orderFlow, w.sums.tradeFlow, w.sums.midpointChange, mid * w.size);
  }

  lemma {:induction false} OneSidedHasNone(book: Book, w: Window, steps: seq<Accepted>, moves: seq<int>)
    requires !BothSides(book)
    ensures VectorIs(CalculateFeatures(book, w), book, steps, moves, 0, 0)
  {
  }

  lemma {:induction false} SpanPositive(mid: int, size: int)
    requires mid > 0 && size > 0
    ensures mid * size > 0
  {
  }

  /** For every run that ends two-sided, each feature in the raw terms of the book and of
      the last 64 accepted events; and for one that does not, none. */
  lemma {:induction false} RunFeatures(events: seq<MarketEvent>, allowCrossed: bool)
    returns (moves: seq<int>, mid: int, micro: int)
    ensures var m, steps := RunMarket(events, allowCrossed), AcceptedEvents(events, allowCrossed);
      Movements(moves, steps) && VectorIs(CalculateFeatures(m.book, m.window), m.book, steps, moves, mid, micro)
  {
    moves := WindowSums(events, allowCrossed);
    mid, micro := 0, 0;
    var m, steps := RunMarket(events, allowCrossed), AcceptedEvents(events, allowCrossed);
    LastBook(events, allowCrossed);
    RunMarketOk(events, allowCrossed);
    if BothSides(m.book) {
      mid, micro := CalculationMeans(m.book, m.window, steps, moves, allowCrossed);
    } else {
      OneSidedHasNone(m.book, m.window, steps, moves);
    }
  }

  /** The RTL's engine, where the weighted sum fits. */
  lemma {:induction false} RunEngineFeatures(events: seq<MarketEvent>, allowCrossed: bool)
    returns (moves: seq<int>, mid: int, micro: int)
    requires WeightedFits(RunMarket(events, allowCrossed).book)
    ensures var m, steps := RunMarket(events, allowCrossed), AcceptedEvents(events, allowCrossed);
      Movements(moves, steps) && VectorIs(FeatureEngine(m.book, m.window), m.book, steps, moves, mid, micro)
  {
    var m := RunMarket(events, allowCrossed);
    EngineIsCalculation(m.book, m.window);
    moves, mid, micro := RunFeatures(events, allowCrossed);
  }

  // ---------- Consequences ----------

  lemma {:induction false} ZeroSum(xs: seq<int>)
    requires forall k | 0 <= k < |xs| :: xs[k] == 0
    ensures PlainSum(xs) == 0
    decreases |xs|
  {
    if |xs| > 0 { ZeroSum(xs[..|xs| - 1]); }
  }

  /** Only a Trade reports trade flow. */
  lemma {:induction false} OnlyTradesFlow(events: seq<MarketEvent>, allowCrossed: bool)
    ensures forall s | s in AcceptedEvents(events, allowCrossed) :: s.event.kind != Trade ==> s.tradeFlow == 0
    decreases |events|
  {
    if |events| > 0 {
      OnlyTradesFlow(events[..|events| - 1], allowCrossed);
    }
  }

  lemma {:induction false} NoTradesNoSum(events: seq<MarketEvent>, allowCrossed: bool)
    requires var steps := AcceptedEvents(events, allowCrossed);
      forall k | 0 <= k < |steps| && k >= |steps| - 64 :: steps[k].event.kind != Trade
    ensures Total64(TradeFlows(AcceptedEvents(events, allowCrossed))) == 0
  {
    OnlyTradesFlow(events, allowCrossed);
    var steps := AcceptedEvents(events, allowCrossed);
    var from := if |steps| <= 64 then 0 else |steps| - 64;
    var last := TradeFlows(steps)[from..];
    forall k | 0 <= k < |last| ensures last[k] == 0 {
      assert last[k] == steps[from + k].tradeFlow && steps[from + k] in steps;
    }
    ZeroSum(last);
    assert TradeFlows(steps)[0..] == TradeFlows(steps);
  }

  /** Without a Trade among the last 64 accepted events feature 5 is zero. */
  lemma {:induction false} NoTradesNoTradeFlow(events: seq<MarketEvent>, allowCrossed: bool)
    requires var steps := AcceptedEvents(events, allowCrossed);
      forall k | 0 <= k < |steps| && k >= |steps| - 64 :: steps[k].event.kind != Trade
    ensures var m := RunMarket(events, allowCrossed);
      CalculateFeatures(m.book, m.window).values[5] == 0
  {
    var m, steps := RunMarket(events, allowCrossed), AcceptedEvents(events, allowCrossed);
    var moves, mid, micro := RunFeatures(events, allowCrossed);
    NoTradesNoSum(events, allowCrossed);
    var f := CalculateFeatures(m.book, m.window);
    if BothSides(m.book) { TradeFeatureZero(f, m.book, steps, moves, mid, micro); }
  }

  lemma {:induction false} TradeFeatureZero(f: FeatureVector, book: Book, steps: seq<Accepted>, moves: seq<int>, mid: int,
                                            micro: int)
    requires FeaturesAre(f, book, steps, moves, mid, micro) && Total64(TradeFlows(steps)) == 0
    ensures f.values[5] == 0
  {
    ZeroQ16(f.values[5], Visible(book.bids) + Visible(book.asks));
  }

  lemma {:induction false} ZeroQ16(v: int, d: int)
    requires IsQ16(v, 0, d)
    ensures v == 0
  {
    var q :| IsNearest(q, 0 * 0x1_0000, d) &&
             v == if q > 0x7FFF_FFFF then 0x7FFF_FFFF else if q < -0x8000_0000 then -0x8000_0000 else q;
    assert IsNearest(0, 0, d);
    NearestIsUnique(q, 0, 0, d);
  }

  // ---------- The signal of an event ----------

  /** An accepted event's signal carries its own timestamp and index, the version of the
      parameters in force, and their action on its own features; a refused one changes
      nothing. */
  lemma {:induction false} LastSignal(events: seq<MarketEvent>, banks: seq<Strategy.Parameters>, allowCrossed: bool)
    requires |events| == |banks| > 0
    ensures var n := |events| - 1;
      var before, s := RunReference(events[..n], banks[..n], allowCrossed), RunReference(events, banks, allowCrossed);
      var accepted :=
        BookModel.Apply(BookFlow.RunBook(EMPTY_BOOK, events[..n], allowCrossed), events[n], allowCrossed).error == NoError;
      && (!accepted ==> s == before)
      && (accepted ==>
            && s.signal.timestamp == events[n].timestamp && s.signal.index == n && s.signal.version == banks[n].version
            && s.features == CalculateFeatures(s.market.book, s.market.window)
            && s.signal.verdict.valid == s.features.valid
            && (s.signal.verdict.action == Buy <==> s.features.valid && s.signal.verdict.score > banks[n].bank.buy)
            && (s.signal.verdict.action == Sell <==>
                  s.features.valid && s.signal.verdict.score <= banks[n].bank.buy
                  && s.signal.verdict.score < banks[n].bank.sell))
  {
    var n := |events| - 1;
    ReferenceMarket(events[..n], banks[..n], allowCrossed);
    RunBookIs(events[..n], allowCrossed);
    Strategy.ActionExactly(RunReference(events, banks, allowCrossed).features, banks[n].bank);
  }
}
