/** rtl/market_pipeline.sv: book, window, feature engine and strategy on one clock,
    every register reading its neighbours' pre-edge values. */
module Pipeline {
  import opened MarketTypes
  import opened FixedPoint
  import opened Features
  import opened FeatureWindow
  import opened ReferenceModel
  import BookModel
  import Rtl = OrderBookRtl
  import Strategy

  datatype PipelineState = WAIT_BOOK | EMIT_FEATURE | EMIT_ERROR

  datatype Regs = Regs(
    book: Rtl.Regs, window: Window, strategy: Strategy.Regs,
    state: PipelineState, done: bool, error: BookError,
    priorMidpoint: int, priorValid: bool,
    acceptedTimestamp: U64, signalTimestamp: U64, signalIndex: nat, nextIndex: nat)

  const RESET: Regs := Regs(
    Rtl.RESET, EMPTY_WINDOW, Strategy.RESET, WAIT_BOOK, false, NoError, 0, false, 0, 0, 0, 0)

  datatype Input = Input(valid: bool, event: RtlEvent, write: Option<Strategy.Write>, commit: bool)

  predicate InReady(p: Regs) {
    Rtl.InReady(p.book) && p.state == WAIT_BOOK
  }

  function CurrentMidpoint(p: Regs): int {
    TruncDivide(p.book.live.bids[0].price as int + p.book.live.asks[0].price as int, 2)
  }

  function CurrentChange(p: Regs): int {
    if p.priorValid && TwoSided(p.book.live) then
      if CurrentMidpoint(p) >= p.priorMidpoint then CurrentMidpoint(p) - p.priorMidpoint
      else p.priorMidpoint - CurrentMidpoint(p)
    else 0
  }

  predicate WindowPush(p: Regs) {
    p.state == WAIT_BOOK && p.book.done && p.book.error == NoError
  }

  predicate StrategyCommit(p: Regs, i: Input) {
    i.commit && p.state == WAIT_BOOK && Rtl.InReady(p.book)
  }

  /** The book sees the raw valid line, not one gated by the pipeline's ready. */
  function BookInput(i: Input): Rtl.Input {
    Rtl.Input(i.valid, i.event)
  }

  function StrategyInput(p: Regs, i: Input): Strategy.Input {
    Strategy.Input(p.state == EMIT_FEATURE, FeatureEngine(p.book.live, p.window), i.write, StrategyCommit(p, i))
  }

  /** What the control registers sample at an edge. */
  datatype Wires = Wires(
    accepts: bool, timestamp: U64, bookDone: bool, bookError: BookError, midpointValid: bool, midpoint: int)

  function WiresOf(p: Regs, i: Input): Wires {
    Wires(i.valid && InReady(p), i.event.timestamp, p.book.done, p.book.error,
          TwoSided(p.book.live), CurrentMidpoint(p))
  }

  /** The pipeline's own clocked block. */
  function Control(p: Regs, w: Wires): Regs {
    var r := p.(done := false, acceptedTimestamp := if w.accepts then w.timestamp else p.acceptedTimestamp);
    match p.state
    case WAIT_BOOK =>
      if !w.bookDone then r
      else if w.bookError == NoError then
        r.(error := w.bookError, state := EMIT_FEATURE,
           priorMidpoint := if w.midpointValid then w.midpoint else p.priorMidpoint,
           priorValid := p.priorValid || w.midpointValid)
      else r.(error := w.bookError, state := EMIT_ERROR)
    case EMIT_FEATURE =>
      r.(signalTimestamp := p.acceptedTimestamp, signalIndex := p.nextIndex,
         nextIndex := p.nextIndex + 1, done := true, state := WAIT_BOOK)
    case EMIT_ERROR => r.(done := true, state := WAIT_BOOK)
  }

  /** The contained modules' edges, from the same pre-edge values. */
  function ModuleEdges(p: Regs, i: Input, allowCrossed: bool): Regs {
    p.(book := Rtl.Edge(p.book, BookInput(i), allowCrossed),
       window := if WindowPush(p)
                 then PushEntry(p.window, Entry(p.book.orderFlow, p.book.tradeFlow, CurrentChange(p)))
                 else p.window,
       strategy := Strategy.Edge(p.strategy, StrategyInput(p, i)))
  }

  /** One rising edge with reset inactive. */
  function Edge(p: Regs, i: Input, allowCrossed: bool): Regs {
    Control(ModuleEdges(p, i, allowCrossed), WiresOf(p, i))
  }

  // ---------- The stages one event passes through ----------

  function Prior(p: Regs): Option<int> {
    if p.priorValid then Some(p.priorMidpoint) else None
  }

  function MarketOf(p: Regs): Market {
    Market(p.book.live, p.window, Prior(p))
  }

  ghost predicate Quiet(p: Regs, m: Market) {
    p.state == WAIT_BOOK && !p.done && p.book.state == Rtl.ST_IDLE && !p.book.done && MarketOf(p) == m
  }

  datatype Stage = InBook | Answered | Emitting | Emitted

  ghost predicate At(p: Regs, stage: Stage, m: Market, e: RtlEvent, allowCrossed: bool) {
    var o := Rtl.RtlApply(m.book, e, allowCrossed);
    p.acceptedTimestamp == e.timestamp &&
    match stage
    case InBook =>
      && p.state == WAIT_BOOK && !p.done && p.window == m.window && Prior(p) == m.prior
      && Rtl.Busy(p.book, m.book, e, allowCrossed)
    case Answered =>
      && p.state == WAIT_BOOK && !p.done && p.window == m.window && Prior(p) == m.prior
      && p.book.state == Rtl.ST_IDLE && p.book.done && Rtl.Answers(p.book, o)
    case Emitting =>
      && p.state == (if o.error == NoError then EMIT_FEATURE else EMIT_ERROR) && !p.done
      && p.error == o.error && p.book.state == Rtl.ST_IDLE && !p.book.done
      && p.book.orderFlow == o.orderFlow && p.book.tradeFlow == o.tradeFlow
      && MarketOf(p) == Advance(m, e, allowCrossed)
    case Emitted =>
      && p.state == WAIT_BOOK && p.done
      && p.error == o.error && p.book.state == Rtl.ST_IDLE && !p.book.done
      && p.book.orderFlow == o.orderFlow && p.book.tradeFlow == o.tradeFlow
      && MarketOf(p) == Advance(m, e, allowCrossed)
  }

  /** The stage an event in flight is at, read off the registers. */
  function StageOf(p: Regs): Stage {
    if p.state != WAIT_BOOK then Emitting else if p.done then Emitted else if p.book.done then Answered else InBook
  }

  lemma {:induction false} StageIs(p: Regs, stage: Stage, m: Market, e: RtlEvent, allowCrossed: bool)
    requires At(p, stage, m, e, allowCrossed)
    ensures stage == StageOf(p)
  {
  }

  /** Edges from a stage until the pipeline's own done pulse. */
  function EdgesLeft(p: Regs, stage: Stage, m: Market, allowCrossed: bool): int {
    match stage
    case InBook => Rtl.EdgesLeft(p.book, m.book, allowCrossed) + 2
    case Answered => 2
    case Emitting => 1
    case Emitted => 0
  }

  lemma {:induction false} IdleBookStays(b: Rtl.Regs, i: Rtl.Input, allowCrossed: bool)
    requires b.state == Rtl.ST_IDLE && !i.valid
    ensures Rtl.Edge(b, i, allowCrossed) == b.(done := false)
  {
  }

  lemma {:induction false} AcceptEnters(p: Regs, i: Input, m: Market, allowCrossed: bool)
    requires Quiet(p, m) && i.valid
    ensures At(Edge(p, i, allowCrossed), InBook, m, i.event, allowCrossed)
    ensures Rtl.EdgesLeft(Edge(p, i, allowCrossed).book, m.book, allowCrossed) == Rtl.Latency(m.book, i.event, allowCrossed)
  {
    Rtl.AcceptStarts(p.book, BookInput(i), allowCrossed);
  }

  lemma {:induction false} QuietStays(p: Regs, i: Input, m: Market, allowCrossed: bool)
    requires Quiet(p, m) && !i.valid
    ensures Quiet(Edge(p, i, allowCrossed), m)
  {
    IdleBookStays(p.book, BookInput(i), allowCrossed);
  }

  /** Inside the book, whatever the inputs do. */
  lemma {:induction false} InBookStep(p: Regs, i: Input, m: Market, e: RtlEvent, allowCrossed: bool)
    returns (next: Stage)
    requires At(p, InBook, m, e, allowCrossed) && BookModel.BookOk(m.book, allowCrossed)
    ensures At(Edge(p, i, allowCrossed), next, m, e, allowCrossed)
    ensures EdgesLeft(Edge(p, i, allowCrossed), next, m, allowCrossed) == EdgesLeft(p, InBook, m, allowCrossed) - 1
  {
    Rtl.BusyLeft(p.book, m.book, e, allowCrossed);
    Rtl.BusyShows(p.book, m.book, e, allowCrossed, Rtl.EdgesLeft(p.book, m.book, allowCrossed));
    if p.book.state == Rtl.ST_FINISH {
      Rtl.FinishShows(p.book, BookInput(i), allowCrossed);
      next := Answered;
    } else {
      Rtl.BusyEdge(p.book, BookInput(i), m.book, allowCrossed);
      next := InBook;
    }
  }

  /** The done cycle: the market advances by exactly the reference step. */
  lemma {:induction false} AnsweredStep(p: Regs, i: Input, m: Market, e: RtlEvent, allowCrossed: bool)
    requires At(p, Answered, m, e, allowCrossed) && !i.valid
    ensures At(Edge(p, i, allowCrossed), Emitting, m, e, allowCrossed)
  {
    IdleBookStays(p.book, BookInput(i), allowCrossed);
  }

  lemma {:induction false} EmittingStep(p: Regs, i: Input, m: Market, e: RtlEvent, allowCrossed: bool)
    requires At(p, Emitting, m, e, allowCrossed) && !i.valid
    ensures At(Edge(p, i, allowCrossed), Emitted, m, e, allowCrossed)
  {
    IdleBookStays(p.book, BookInput(i), allowCrossed);
  }

  lemma {:induction false} EmittedStep(p: Regs, i: Input, m: Market, e: RtlEvent, allowCrossed: bool)
    requires At(p, Emitted, m, e, allowCrossed) && !i.valid
    ensures Quiet(Edge(p, i, allowCrossed), Advance(m, e, allowCrossed))
  {
    IdleBookStays(p.book, BookInput(i), allowCrossed);
  }

  /** One edge of an event in flight, with no new event offered to an idle book. */
  lemma {:induction false} StageStep(p: Regs, i: Input, stage: Stage, m: Market, e: RtlEvent, allowCrossed: bool)
    returns (next: Stage)
    requires At(p, stage, m, e, allowCrossed) && BookModel.BookOk(m.book, allowCrossed)
    requires stage != Emitted && (stage != InBook ==> !i.valid)
    ensures At(Edge(p, i, allowCrossed), next, m, e, allowCrossed)
    ensures EdgesLeft(Edge(p, i, allowCrossed), next, m, allowCrossed) == EdgesLeft(p, stage, m, allowCrossed) - 1
  {
    match stage
    case InBook => next := InBookStep(p, i, m, e, allowCrossed);
    case Answered => AnsweredStep(p, i, m, e, allowCrossed); next := Emitting;
    case Emitting => EmittingStep(p, i, m, e, allowCrossed); next := Emitted;
  }

  // ---------- Why the pipeline needs the adapter in front of it ----------

  /** In the cycle the book reports done, the pipeline already shows ready. The
      timestamp it then attaches to the finished event's signal is the finished
      event's own exactly when no event with another timestamp is accepted there. */
  lemma {:induction false} DoneCycleTimestamp(p: Regs, i: Input, j: Input, m: Market, e: RtlEvent, allowCrossed: bool)
    requires At(p, Answered, m, e, allowCrossed)
    requires Rtl.RtlApply(m.book, e, allowCrossed).error == NoError
    ensures InReady(p)
    ensures var q := Edge(Edge(p, i, allowCrossed), j, allowCrossed);
      q.done && (q.signalTimestamp == e.timestamp <==> !i.valid || i.event.timestamp == e.timestamp)
  {
  }

  /** While the pipeline emits a result and shows not ready, its book is idle and takes an
      offered event all the same, without a handshake and under the old timestamp. */
  lemma {:induction false} UnreadyPipelineTakesEvent(p: Regs, i: Input, m: Market, e: RtlEvent, allowCrossed: bool)
    requires At(p, Emitting, m, e, allowCrossed)
    ensures !InReady(p)
    ensures Edge(p, i, allowCrossed).book.state == Rtl.ST_VALIDATE <==> i.valid
    ensures i.valid ==> Edge(p, i, allowCrossed).acceptedTimestamp == e.timestamp
  {
  }

  /** The gate on parameter commits is open in that same done cycle, between an event's
      acceptance and its evaluation. */
  lemma {:induction false} DoneCycleCommitGate(p: Regs, i: Input, m: Market, e: RtlEvent, stage: Stage,
                                               allowCrossed: bool)
    requires At(p, stage, m, e, allowCrossed) && stage != Emitted
    ensures StrategyCommit(p, i) <==> i.commit && stage == Answered
  {
    if stage == InBook {
      Rtl.BusyLeft(p.book, m.book, e, allowCrossed);
      Rtl.BusyShows(p.book, m.book, e, allowCrossed, Rtl.EdgesLeft(p.book, m.book, allowCrossed));
    }
  }
}
