/** The whole clocked path against the reference model: after every run in which the
    host commits parameters only while the adapter is ready, book, window, features,
    score and action are the reference model's. */
module SignalPath {
  import opened MarketTypes
  import opened Features
  import opened ReferenceModel
  import opened StreamAdapter
  import BookModel
  import Rtl = OrderBookRtl
  import Pipeline
  import Strategy

  /** The reference model over a run, with the parameters in force for each event. */
  function RunReference(events: seq<MarketEvent>, banks: seq<Strategy.Parameters>, allowCrossed: bool): State
    requires |banks| == |events|
  {
    if |events| == 0 then ReferenceModel.START
    else
      var n := |events| - 1;
      Process(RunReference(events[..n], banks[..n], allowCrossed), events[n], n, banks[n], allowCrossed)
  }

  /** No microprice sum of the run leaves 64 bits, so the C++ is defined throughout. */
  ghost predicate AllFit(events: seq<MarketEvent>, allowCrossed: bool) {
    forall k | 0 <= k <= |events| :: WeightedFits(RunMarket(events[..k], allowCrossed).book)
  }

  function Successes(events: seq<MarketEvent>, allowCrossed: bool): nat {
    if |events| == 0 then 0
    else
      var n := |events| - 1;
      var ok := BookModel.Apply(RunMarket(events[..n], allowCrossed).book, events[n], allowCrossed).error == NoError;
      Successes(events[..n], allowCrossed) + if ok then 1 else 0
  }

  lemma {:induction false} ReferenceMarket(events: seq<MarketEvent>, banks: seq<Strategy.Parameters>, allowCrossed: bool)
    requires |banks| == |events|
    ensures RunReference(events, banks, allowCrossed).market == RunMarket(events, allowCrossed)
    decreases |events|
  {
    if |events| > 0 {
      ReferenceMarket(events[..|events| - 1], banks[..|events| - 1], allowCrossed);
    }
  }

  function ActiveParameters(r: Strategy.Regs): Strategy.Parameters {
    Strategy.Parameters(r.active, r.version)
  }

  /** A run with, beside it, the parameters active right after each acceptance. */
  datatype Banked = Banked(run: Run, banks: seq<Strategy.Parameters>)

  const BANKED_START: Banked := Banked(StreamAdapter.START, [])

  function BankedStep(t: Banked, i: Input, allowCrossed: bool): Banked {
    var u := Step(t.run, i, allowCrossed);
    Banked(u, if Accepts(t.run.regs, i) then t.banks + [ActiveParameters(u.regs.pipe.strategy)] else t.banks)
  }

  function BankedRun(inputs: seq<Input>, allowCrossed: bool): (t: Banked)
    ensures |t.banks| == |t.run.accepted|
  {
    if |inputs| == 0 then BANKED_START
    else BankedStep(BankedRun(inputs[..|inputs| - 1], allowCrossed), inputs[|inputs| - 1], allowCrossed)
  }

  /** The host's discipline: a commit is only requested while the input is ready, so never
      between an event's acceptance and its evaluation. */
  ghost predicate CommitsAtBoundaries(inputs: seq<Input>, allowCrossed: bool) {
    forall k | 0 <= k < |inputs| && inputs[k].commit :: InReady(BankedRun(inputs[..k], allowCrossed).run.regs)
  }

  lemma {:induction false} CommitsBefore(inputs: seq<Input>, n: nat, allowCrossed: bool)
    requires CommitsAtBoundaries(inputs, allowCrossed) && n <= |inputs|
    ensures CommitsAtBoundaries(inputs[..n], allowCrossed)
  {
    forall k | 0 <= k < n && inputs[..n][k].commit ensures InReady(BankedRun(inputs[..n][..k], allowCrossed).run.regs) {
      assert inputs[..n][..k] == inputs[..k];
    }
  }

  lemma {:induction false} BankedRunIsRun(inputs: seq<Input>, allowCrossed: bool)
    ensures BankedRun(inputs, allowCrossed).run == RunFrom(StreamAdapter.START, inputs, allowCrossed)
    decreases |inputs|
  {
    if |inputs| > 0 { BankedRunIsRun(inputs[..|inputs| - 1], allowCrossed); }
  }

  /** The signal registers hold what the reference model's signal holds. */
  predicate SignalIs(p: Pipeline.Regs, s: State, successes: nat) {
    && p.strategy.verdict == s.signal.verdict
    && p.signalTimestamp == s.signal.timestamp
    && p.nextIndex == successes
    && (successes > 0 ==> p.signalIndex == successes - 1)
  }

  ghost predicate SignalPending(t: Run, stage: Pipeline.Stage) {
    t.regs.inFlight && stage != Pipeline.Emitted
  }

  ghost predicate Signalling(t: Banked, stage: Pipeline.Stage, allowCrossed: bool) {
    var n := |t.run.accepted|;
    && Streaming(t.run, stage, allowCrossed) && |t.banks| == n
    && (t.run.regs.inFlight ==> ActiveParameters(t.run.regs.pipe.strategy) == t.banks[n - 1])
    && if SignalPending(t.run, stage) then
         SignalIs(t.run.regs.pipe, RunReference(t.run.accepted[..n - 1], t.banks[..n - 1], allowCrossed),
                  Successes(t.run.accepted[..n - 1], allowCrossed))
       else
         SignalIs(t.run.regs.pipe, RunReference(t.run.accepted, t.banks, allowCrossed),
                  Successes(t.run.accepted, allowCrossed))
  }

  /** An edge that does not evaluate leaves the signal registers alone. */
  lemma {:induction false} SignalHeld(p: Pipeline.Regs, i: Pipeline.Input, allowCrossed: bool)
    requires p.state != Pipeline.EMIT_FEATURE
    ensures var q := Pipeline.Edge(p, i, allowCrossed);
      && q.strategy.verdict == p.strategy.verdict && q.signalTimestamp == p.signalTimestamp
      && q.nextIndex == p.nextIndex && q.signalIndex == p.signalIndex
      && (!i.commit ==> ActiveParameters(q.strategy) == ActiveParameters(p.strategy))
  {
  }

  lemma {:induction false} AcceptSignal(t: Banked, i: Input, stage: Pipeline.Stage, allowCrossed: bool)
    requires Signalling(t, stage, allowCrossed) && Accepts(t.run.regs, i)
    ensures Signalling(BankedStep(t, i, allowCrossed), Pipeline.InBook, allowCrossed)
  {
    AcceptStep(t.run, i, stage, allowCrossed);
    SignalHeld(t.run.regs.pipe, PipeInput(t.run.regs, i), allowCrossed);
    var u, n := BankedStep(t, i, allowCrossed), |t.run.accepted|;
    assert u.run.accepted[..n] == t.run.accepted && u.banks[..n] == t.banks;
  }

  lemma {:induction false} QuietSignal(t: Banked, i: Input, stage: Pipeline.Stage, allowCrossed: bool)
    requires Signalling(t, stage, allowCrossed) && !SignalPending(t.run, stage) && !Accepts(t.run.regs, i)
    ensures Signalling(BankedStep(t, i, allowCrossed), stage, allowCrossed)
  {
    SignalHeld(t.run.regs.pipe, PipeInput(t.run.regs, i), allowCrossed);
    if t.run.regs.inFlight {
      CaptureStep(t.run, i, allowCrossed);
    } else {
      QuietStep(t.run, i, stage, allowCrossed);
    }
  }

  lemma {:induction false} EmitKeepsStream(t: Banked, i: Input, allowCrossed: bool)
    requires Signalling(t, Pipeline.Emitting, allowCrossed) && t.run.regs.inFlight
    ensures var u := BankedStep(t, i, allowCrossed);
      && Streaming(u.run, Pipeline.Emitted, allowCrossed) && u.run.accepted == t.run.accepted && u.banks == t.banks
      && u.run.regs.inFlight && u.run.regs.pipe == Pipeline.Edge(t.run.regs.pipe, PipeInput(t.run.regs, i), allowCrossed)
  {
    var n := |t.run.accepted|;
    var p, e := t.run.regs.pipe, t.run.accepted[n - 1];
    var next := FlightStep(t.run, i, Pipeline.Emitting, allowCrossed);
    Pipeline.EmittingStep(p, PipeInput(t.run.regs, i), RunMarket(t.run.accepted[..n - 1], allowCrossed), e, allowCrossed);
  }

  lemma {:induction false} EmitVerdict(t: Banked, i: Input, allowCrossed: bool)
    requires Signalling(t, Pipeline.Emitting, allowCrossed) && t.run.regs.inFlight
    requires AllFit(t.run.accepted, allowCrossed)
    ensures SignalIs(Pipeline.Edge(t.run.regs.pipe, PipeInput(t.run.regs, i), allowCrossed),
                     RunReference(t.run.accepted, t.banks, allowCrossed), Successes(t.run.accepted, allowCrossed))
  {
    var n := |t.run.accepted|;
    var p := t.run.regs.pipe;
    ReferenceMarket(t.run.accepted[..n - 1], t.banks[..n - 1], allowCrossed);
    assert t.run.accepted[..n] == t.run.accepted;
    assert WeightedFits(RunMarket(t.run.accepted[..n], allowCrossed).book);
    EmitMatches(p, PipeInput(t.run.regs, i), t.run.accepted, t.banks, allowCrossed);
  }

  /** The evaluating edge registers the reference model's verdict for this event. */
  lemma {:induction false} EmitSignal(t: Banked, i: Input, allowCrossed: bool)
    requires Signalling(t, Pipeline.Emitting, allowCrossed) && t.run.regs.inFlight && !i.commit
    requires AllFit(t.run.accepted, allowCrossed)
    ensures Signalling(BankedStep(t, i, allowCrossed), Pipeline.Emitted, allowCrossed)
  {
    EmitKeepsStream(t, i, allowCrossed);
    EmitVerdict(t, i, allowCrossed);
    ParametersHeld(t.run.regs.pipe, PipeInput(t.run.regs, i), allowCrossed);
  }

  lemma {:induction false} ParametersHeld(p: Pipeline.Regs, i: Pipeline.Input, allowCrossed: bool)
    requires !i.commit
    ensures ActiveParameters(Pipeline.Edge(p, i, allowCrossed).strategy) == ActiveParameters(p.strategy)
  {
  }

  /** The emitting edge turns the signal before the last event into the one after it. */
  lemma {:induction false} EmitMatches(p: Pipeline.Regs, i: Pipeline.Input, events: seq<MarketEvent>,
                                       banks: seq<Strategy.Parameters>, allowCrossed: bool)
    requires |events| == |banks| > 0
    requires var n := |events| - 1;
      var before := RunMarket(events[..n], allowCrossed);
      && p.acceptedTimestamp == events[n].timestamp && p.strategy.active == banks[n].bank
      && p.state == (if BookModel.Apply(before.book, events[n], allowCrossed).error == NoError
                     then Pipeline.EMIT_FEATURE else Pipeline.EMIT_ERROR)
      && Pipeline.MarketOf(p) == Advance(before, events[n], allowCrossed)
      && RunReference(events[..n], banks[..n], allowCrossed).market == before
      && SignalIs(p, RunReference(events[..n], banks[..n], allowCrossed), Successes(events[..n], allowCrossed))
    requires WeightedFits(p.book.live)
    ensures SignalIs(Pipeline.Edge(p, i, allowCrossed), RunReference(events, banks, allowCrossed),
                     Successes(events, allowCrossed))
  {
    EngineIsCalculation(p.book.live, p.window);
    if p.state != Pipeline.EMIT_FEATURE {
      SignalHeld(p, i, allowCrossed);
    }
  }

  /** Nothing about the signal moved between two states of one event in flight. */
  lemma {:induction false} SignalCarries(t: Banked, u: Banked, stage: Pipeline.Stage, next: Pipeline.Stage,
                                         allowCrossed: bool)
    requires Signalling(t, stage, allowCrossed) && SignalPending(t.run, stage)
    requires Streaming(u.run, next, allowCrossed) && SignalPending(u.run, next)
    requires u.run.accepted == t.run.accepted && u.banks == t.banks
    requires var p, q := t.run.regs.pipe, u.run.regs.pipe;
      && q.strategy.verdict == p.strategy.verdict && q.signalTimestamp == p.signalTimestamp
      && q.nextIndex == p.nextIndex && q.signalIndex == p.signalIndex
      && ActiveParameters(q.strategy) == ActiveParameters(p.strategy)
    ensures Signalling(u, next, allowCrossed)
  {
  }

  lemma {:induction false} FlightSignal(t: Banked, i: Input, stage: Pipeline.Stage, allowCrossed: bool)
    returns (next: Pipeline.Stage)
    requires Signalling(t, stage, allowCrossed) && SignalPending(t.run, stage) && !i.commit
    requires AllFit(t.run.accepted, allowCrossed)
    ensures Signalling(BankedStep(t, i, allowCrossed), next, allowCrossed)
  {
    if stage == Pipeline.Emitting {
      EmitSignal(t, i, allowCrossed);
      next := Pipeline.Emitted;
    } else {
      next := FlightStep(t.run, i, stage, allowCrossed);
      WaitingState(t.run, stage, allowCrossed);
      SignalHeld(t.run.regs.pipe, PipeInput(t.run.regs, i), allowCrossed);
      FlightNotDone(t.run, i, stage, next, allowCrossed);
      SignalCarries(t, BankedStep(t, i, allowCrossed), stage, next, allowCrossed);
    }
  }

  lemma {:induction false} WaitingState(t: Run, stage: Pipeline.Stage, allowCrossed: bool)
    requires Streaming(t, stage, allowCrossed) && t.regs.inFlight
    requires stage == Pipeline.InBook || stage == Pipeline.Answered
    ensures t.regs.pipe.state == Pipeline.WAIT_BOOK && !InReady(t.regs)
  {
  }

  /** Two edges at least remain before the done pulse while the book works or answers. */
  lemma {:induction false} FlightNotDone(t: Run, i: Input, stage: Pipeline.Stage, next: Pipeline.Stage,
                                         allowCrossed: bool)
    requires Streaming(t, stage, allowCrossed) && t.regs.inFlight
    requires stage == Pipeline.InBook || stage == Pipeline.Answered
    requires Streaming(Step(t, i, allowCrossed), next, allowCrossed) && Step(t, i, allowCrossed).regs.inFlight
    ensures next != Pipeline.Emitted
  {
  }

  lemma {:induction false} SignallingStep(t: Banked, i: Input, stage: Pipeline.Stage, allowCrossed: bool)
    returns (next: Pipeline.Stage)
    requires Signalling(t, stage, allowCrossed) && AllFit(t.run.accepted, allowCrossed)
    requires i.commit ==> InReady(t.run.regs)
    ensures Signalling(BankedStep(t, i, allowCrossed), next, allowCrossed)
  {
    if Accepts(t.run.regs, i) {
      AcceptSignal(t, i, stage, allowCrossed);
      next := Pipeline.InBook;
    } else if SignalPending(t.run, stage) {
      next := FlightSignal(t, i, stage, allowCrossed);
    } else {
      QuietSignal(t, i, stage, allowCrossed);
      next := stage;
    }
  }

  lemma {:induction false} StartSignalling(allowCrossed: bool)
    ensures Signalling(BANKED_START, Pipeline.InBook, allowCrossed)
  {
    StartStreaming(allowCrossed);
  }

  lemma {:induction false} AllFitPrefix(events: seq<MarketEvent>, more: seq<MarketEvent>, allowCrossed: bool)
    requires AllFit(more, allowCrossed) && |events| <= |more| && events == more[..|events|]
    ensures AllFit(events, allowCrossed)
  {
    forall k | 0 <= k <= |events| ensures WeightedFits(RunMarket(events[..k], allowCrossed).book) {
      assert events[..k] == more[..k];
    }
  }

  lemma {:induction false} RunsSignal(inputs: seq<Input>, allowCrossed: bool) returns (stage: Pipeline.Stage)
    requires CommitsAtBoundaries(inputs, allowCrossed)
    requires AllFit(BankedRun(inputs, allowCrossed).run.accepted, allowCrossed)
    ensures Signalling(BankedRun(inputs, allowCrossed), stage, allowCrossed)
    decreases |inputs|
  {
    if |inputs| == 0 {
      StartSignalling(allowCrossed);
      stage := Pipeline.InBook;
    } else {
      var before, i := inputs[..|inputs| - 1], inputs[|inputs| - 1];
      CommitsBefore(inputs, |inputs| - 1, allowCrossed);
      var t := BankedRun(before, allowCrossed);
      AllFitPrefix(t.run.accepted, BankedRun(inputs, allowCrossed).run.accepted, allowCrossed);
      stage := RunsSignal(before, allowCrossed);
      stage := SignallingStep(t, i, stage, allowCrossed);
    }
  }

  /** Main refinement: whenever no event is in flight, the clocked path shows exactly the
      reference model's state after the accepted events, each scored with the bank in
      force when it was accepted; the signal index counts successes, so it is the
      reference's event index on error-free prefixes. */
  lemma {:induction false} PathRefinesReference(inputs: seq<Input>, allowCrossed: bool)
    requires CommitsAtBoundaries(inputs, allowCrossed)
    requires AllFit(BankedRun(inputs, allowCrossed).run.accepted, allowCrossed)
    requires !BankedRun(inputs, allowCrossed).run.regs.inFlight
    ensures var t := BankedRun(inputs, allowCrossed);
      var p, events := t.run.regs.pipe, t.run.accepted;
      var s := RunReference(events, t.banks, allowCrossed);
      && Pipeline.MarketOf(p) == s.market
      && (Successes(events, allowCrossed) > 0 ==> FeatureEngine(p.book.live, p.window) == s.features)
      && p.strategy.verdict == s.signal.verdict
      && p.signalTimestamp == s.signal.timestamp
      && (0 < Successes(events, allowCrossed) == |events| ==> p.signalIndex == s.signal.index)
  {
    var t := BankedRun(inputs, allowCrossed);
    var stage := RunsSignal(inputs, allowCrossed);
    var events := t.run.accepted;
    ReferenceMarket(events, t.banks, allowCrossed);
    assert events[..|events|] == events;
    EngineIsCalculation(t.run.regs.pipe.book.live, t.run.regs.pipe.window);
    ReferenceFeatures(events, t.banks, allowCrossed);
  }

  /** After a success the reference's stored features are those of its market; after an
      error-free run its last signal carries the last event's index. */
  lemma {:induction false} ReferenceFeatures(events: seq<MarketEvent>, banks: seq<Strategy.Parameters>, allowCrossed: bool)
    requires |banks| == |events|
    ensures var s := RunReference(events, banks, allowCrossed);
      && Successes(events, allowCrossed) <= |events|
      && (Successes(events, allowCrossed) > 0 ==> s.features == CalculateFeatures(s.market.book, s.market.window))
      && (0 < Successes(events, allowCrossed) == |events| ==> s.signal.index == |events| - 1)
    decreases |events|
  {
    if |events| > 0 {
      var n := |events| - 1;
      ReferenceFeatures(events[..n], banks[..n], allowCrossed);
      ReferenceMarket(events[..n], banks[..n], allowCrossed);
    }
  }

  // ---------- A bound on prices is enough ----------

  ghost predicate SmallPrices(book: Book) {
    forall k | 0 <= k < DEPTH :: 0 <= book.bids[k].price <= 0x4000_0000 && 0 <= book.asks[k].price <= 0x4000_0000
  }

  lemma {:induction false} ApplySmall(book: Book, e: MarketEvent, allowCrossed: bool)
    requires SmallPrices(book) && e.price <= 0x4000_0000
    ensures SmallPrices(BookModel.Apply(book, e, allowCrossed).book)
  {
    if ValidateEvent(e) == Valid {
      var s := BookModel.SideOf(book, e.side);
      var f := BookModel.EffectOf(s, e);
      var r := BookModel.Rank(s, e.side, e.price);
      if f.Effect? {
        forall k | 0 <= k < DEPTH ensures 0 <= f.levels[k].price <= 0x4000_0000 {
          if r < DEPTH {
            BookModel.InsertedLevel(s, r, Level(e.price, e.quantity), k);
            BookModel.RemovedLevel(s, r, k);
          }
        }
      }
    }
  }

  /** Events priced at most 2^30 keep every sum of the run inside 64 bits. */
  lemma {:induction false} SmallPricesAllFit(events: seq<MarketEvent>, allowCrossed: bool)
    requires forall k | 0 <= k < |events| :: events[k].price <= 0x4000_0000
    ensures SmallPrices(RunMarket(events, allowCrossed).book) && AllFit(events, allowCrossed)
    decreases |events|
  {
    if |events| > 0 {
      var before := events[..|events| - 1];
      SmallPricesAllFit(before, allowCrossed);
      ApplySmall(RunMarket(before, allowCrossed).book, events[|events| - 1], allowCrossed);
    }
    SmallPricesFit(RunMarket(events, allowCrossed).book);
    forall k | 0 <= k <= |events| ensures WeightedFits(RunMarket(events[..k], allowCrossed).book) {
      if k < |events| {
        assert events[..|events| - 1][..k] == events[..k];
      } else {
        assert events[..k] == events;
      }
    }
  }
}
