/** The strategy, pipeline and adapter modules as objects clocked in place: each Clock
    computes its wires from pre-edge values, then clocks the modules it contains. */
module ClockedPath {
  import opened MarketTypes
  import opened FixedPoint
  import opened Features
  import opened FeatureWindow
  import Core = OrderBookCore
  import Rtl = OrderBookRtl
  import Strategy
  import Pipeline
  import StreamAdapter

  class StrategyModel {
    const activeWeights: array<I32>
    const shadowWeights: array<I32>
    var activeBuy: I32
    var activeSell: I32
    var shadowBuy: I32
    var shadowSell: I32
    var shadowVersion: U64
    var shadowWritten: Strategy.Flags
    var modelVersion: U64
    var updateCount: nat
    var score: I32
    var action: Action
    var signalValid: bool

    ghost function Memories(): set<object> {
      {this, activeWeights, shadowWeights}
    }

    ghost predicate Valid() {
      activeWeights.Length == FEATURES == shadowWeights.Length && activeWeights != shadowWeights
    }

    ghost function Value(): Strategy.Regs
      requires Valid()
      reads Memories()
    {
      Strategy.Regs(Strategy.Bank(activeWeights[..], activeBuy, activeSell), modelVersion, updateCount,
                    Strategy.Shadow(Strategy.Bank(shadowWeights[..], shadowBuy, shadowSell), shadowVersion, shadowWritten),
                    Strategy.Verdict(score, action, signalValid))
    }

    constructor ()
      ensures Valid() && fresh(Memories()) && Value() == Strategy.RESET
    {
      activeWeights := new I32[FEATURES](_ => 0);
      shadowWeights := new I32[FEATURES](_ => 0);
      activeBuy, activeSell, shadowBuy, shadowSell := 0, 0, 0, 0;
      shadowVersion, shadowWritten, modelVersion, updateCount := 0, Strategy.NO_WORDS, 0, 0;
      score, action, signalValid := 0, Hold, false;
    }

    /** The combinational weighted sum. */
    method Accumulate(features: Values) returns (sum: int)
      requires Valid()
      ensures sum == Strategy.ScoreSum(activeWeights[..], features, FEATURES)
    {
      sum := 0;
      for index := 0 to FEATURES
        invariant sum == Strategy.ScoreSum(activeWeights[..], features, index)
      {
        sum := sum + RtlRoundedDivide(features[index] as int * activeWeights[index] as int, SCALE);
      }
    }

    method EvaluateFeatures(features: FeatureVector)
      requires Valid()
      modifies this
      ensures Value() == old(Value()).(verdict := Strategy.Evaluate(features, old(Value()).active))
      ensures signalValid == features.valid && (action == Buy <==> features.valid && score > activeBuy)
      ensures action == Sell <==> features.valid && score <= activeBuy && score < activeSell
      ensures !features.valid ==> score == 0 && action == Hold
    {
      if !features.valid {
        score, action, signalValid := 0, Hold, false;
      } else {
        var sum := Accumulate(features.values);
        score, signalValid := Saturate(sum), true;
        action := if Saturate(sum) > activeBuy then Buy else if Saturate(sum) < activeSell then Sell else Hold;
      }
    }

    method CommitShadow()
      requires Valid()
      modifies Memories()
      ensures var before := old(Value());
        Value() == before.(active := before.shadow.bank, version := before.shadow.version,
                           updateCount := before.updateCount + 1, shadow := before.shadow.(written := Strategy.NO_WORDS))
    {
      for index := 0 to FEATURES
        invariant activeWeights[..index] == shadowWeights[..index]
        invariant shadowWeights[..] == old(shadowWeights[..])
        modifies activeWeights
      {
        activeWeights[index] := shadowWeights[index];
      }
      assert activeWeights[..] == activeWeights[..FEATURES] == shadowWeights[..FEATURES] == shadowWeights[..];
      activeBuy, activeSell := shadowBuy, shadowSell;
      modelVersion, updateCount := shadowVersion, updateCount + 1;
      shadowWritten := Strategy.NO_WORDS;
    }

    method WriteWord(w: Strategy.Write)
      requires Valid()
      modifies Memories()
      ensures Value() == old(Value()).(shadow := Strategy.WriteShadow(old(Value()).shadow, w))
    {
      if w.index < FEATURES {
        shadowWeights[w.index] := w.value;
        assert shadowWeights[..] == old(shadowWeights[..])[w.index := w.value];
        shadowWritten := shadowWritten[w.index := true];
      } else if w.index == FEATURES {
        shadowBuy := w.value;
        shadowWritten := shadowWritten[FEATURES := true];
      } else if w.index == FEATURES + 1 {
        shadowSell := w.value;
        shadowWritten := shadowWritten[FEATURES + 1 := true];
      }
      shadowVersion := w.version;
    }

    /** One rising edge. The evaluation and the commit read pre-edge banks, so they go
        before the write; a commit still clears the flag of a word written beside it. */
    method Clock(evaluate: bool, features: FeatureVector, write: Option<Strategy.Write>, commit: bool)
      requires Valid()
      modifies Memories()
      ensures Value() == Strategy.Edge(old(Value()), Strategy.Input(evaluate, features, write, commit))
      ensures evaluate ==> signalValid == features.valid
      ensures evaluate ==> (action == Buy <==> features.valid && score > old(activeBuy))
      ensures evaluate ==> (action == Sell <==> features.valid && score <= old(activeBuy) && score < old(activeSell))
      ensures evaluate && !features.valid ==> score == 0 && action == Hold
    {
      var commits := commit && shadowWritten == Strategy.ALL_WORDS && !evaluate;
      if evaluate { EvaluateFeatures(features); }
      if commits { CommitShadow(); }
      if write.Some? { WriteWord(write.value); }
      if commits { shadowWritten := Strategy.NO_WORDS; }
    }
  }

  class MarketPipeline {
    const book: Core.OrderBook
    const window: WindowRegisters
    const strategy: StrategyModel
    var state: Pipeline.PipelineState
    var eventDone: bool
    var eventError: BookError
    var priorMidpoint: int
    var priorValid: bool
    var acceptedTimestamp: U64
    var signalTimestamp: U64
    var signalIndex: nat
    var nextIndex: nat

    ghost function Memories(): set<object> {
      {this} + book.Memories() + window.Memories() + strategy.Memories()
    }

    ghost predicate Valid() {
      && book.Valid() && window.Valid() && strategy.Valid()
      && this !in book.Memories() + window.Memories() + strategy.Memories()
      && book.Memories() !! window.Memories() && book.Memories() !! strategy.Memories()
      && window.Memories() !! strategy.Memories()
    }

    ghost function Value(): Pipeline.Regs
      requires Valid()
      reads Memories()
    {
      Pipeline.Regs(book.Value(), window.Value(), strategy.Value(), state, eventDone, eventError,
                    priorMidpoint, priorValid, acceptedTimestamp, signalTimestamp, signalIndex, nextIndex)
    }

    constructor (allowCrossed: bool)
      ensures Valid() && fresh(Memories()) && book.allowCrossed == allowCrossed
      ensures Value() == Pipeline.RESET
    {
      book := new Core.OrderBook(allowCrossed);
      window := new WindowRegisters();
      strategy := new StrategyModel();
      state, eventDone, eventError := Pipeline.WAIT_BOOK, false, NoError;
      priorMidpoint, priorValid := 0, false;
      acceptedTimestamp, signalTimestamp, signalIndex, nextIndex := 0, 0, 0, 0;
    }

    /** The pipeline's own registers, from wires sampled before the edge. */
    method ClockControl(w: Pipeline.Wires)
      requires Valid()
      modifies this
      ensures Value() == Pipeline.Control(old(Value()), w)
    {
      eventDone := false;
      match state {
        case WAIT_BOOK =>
          if w.bookDone {
            eventError := w.bookError;
            if w.bookError == NoError {
              if w.midpointValid { priorMidpoint, priorValid := w.midpoint, true; }
              state := Pipeline.EMIT_FEATURE;
            } else {
              state := Pipeline.EMIT_ERROR;
            }
          }
        case EMIT_FEATURE =>
          signalTimestamp, signalIndex := acceptedTimestamp, nextIndex;
          nextIndex := nextIndex + 1;
          eventDone, state := true, Pipeline.WAIT_BOOK;
        case EMIT_ERROR =>
          eventDone, state := true, Pipeline.WAIT_BOOK;
      }
      if w.accepts { acceptedTimestamp := w.timestamp; }
    }

    method SampleWires(accepts: bool, timestamp: U64) returns (w: Pipeline.Wires)
      requires Valid()
      ensures w == Pipeline.Wires(accepts, timestamp, book.eventDone, book.eventError,
                                  TwoSided(book.Value().live), Pipeline.CurrentMidpoint(Value()))
    {
      var bid, ask := book.bids[0], book.asks[0];
      w := Pipeline.Wires(accepts, timestamp, book.eventDone, book.eventError,
                          bid.quantity != 0 && ask.quantity != 0,
                          TruncDivide(bid.price as int + ask.price as int, 2));
    }

    method SampleFeatures() returns (features: FeatureVector)
      requires Valid()
      ensures features == FeatureEngine(book.Value().live, window.Value())
    {
      features := FeatureEngine(Book(book.bids[..], book.asks[..]), WindowValue());
    }

    function WindowValue(): Window
      requires Valid()
      reads Memories()
      ensures WindowValue() == window.Value()
    {
      Window(Zip(window.orderFlowEntries[..], window.tradeFlowEntries[..], window.midpointEntries[..]),
             window.nextIndex, window.size,
             Entry(window.orderFlowSum, window.tradeFlowSum, window.midpointChangeSum))
    }

    method SampleEntry() returns (entry: Entry)
      requires Valid()
      ensures entry == Entry(book.orderFlowDelta, book.tradeFlowDelta, Pipeline.CurrentChange(Value()))
    {
      var wires := SampleWires(false, 0);
      var change := if priorValid && wires.midpointValid
                    then (if wires.midpoint >= priorMidpoint then wires.midpoint - priorMidpoint
                          else priorMidpoint - wires.midpoint)
                    else 0;
      entry := Entry(book.orderFlowDelta, book.tradeFlowDelta, change);
    }

    /** The three modules on the clock, each from wires sampled before the edge. */
    method ClockModules(si: Strategy.Input, push: bool, entry: Entry, bi: Rtl.Input)
      requires Valid()
      modifies book.Memories() + window.Memories() + strategy.Memories()
      ensures Value() == old(Value()).(
                book := Rtl.Edge(old(book.Value()), bi, book.allowCrossed),
                window := if push then PushEntry(old(window.Value()), entry) else old(window.Value()),
                strategy := Strategy.Edge(old(strategy.Value()), si))
    {
      strategy.Clock(si.evaluate, si.features, si.write, si.commit);
      window.Clock(true, push, entry.orderFlow, entry.tradeFlow, entry.midpointChange);
      book.Clock(true, bi.valid, bi.event);
    }

    method SampleStrategyInput(write: Option<Strategy.Write>, commit: bool, ghost input: Pipeline.Input)
      returns (si: Strategy.Input)
      requires Valid() && input.write == write && input.commit == commit
      ensures si == Pipeline.StrategyInput(Value(), input)
    {
      var features := SampleFeatures();
      si := Strategy.Input(state == Pipeline.EMIT_FEATURE, features, write,
                           commit && state == Pipeline.WAIT_BOOK && book.state == Rtl.ST_IDLE);
    }

    /** The edges of the three modules, on what they sample. */
    method ClockSampled(inValid: bool, inEvent: RtlEvent, write: Option<Strategy.Write>, commit: bool)
      requires Valid()
      modifies book.Memories() + window.Memories() + strategy.Memories()
      ensures var input := Pipeline.Input(inValid, inEvent, write, commit);
        Value() == Pipeline.ModuleEdges(old(Value()), input, book.allowCrossed)
    {
      var push := state == Pipeline.WAIT_BOOK && book.eventDone && book.eventError == NoError;
      var entry := SampleEntry();
      var si := SampleStrategyInput(write, commit, Pipeline.Input(inValid, inEvent, write, commit));
      ClockModules(si, push, entry, Rtl.Input(inValid, inEvent));
    }

    /** One rising edge of every module on the clock. */
    method Clock(inValid: bool, inEvent: RtlEvent, write: Option<Strategy.Write>, commit: bool)
      requires Valid()
      modifies Memories()
      ensures Value() == Pipeline.Edge(old(Value()), Pipeline.Input(inValid, inEvent, write, commit), book.allowCrossed)
    {
      var accepts := inValid && book.state == Rtl.ST_IDLE && state == Pipeline.WAIT_BOOK;
      var wires := SampleWires(accepts, inEvent.timestamp);
      ClockSampled(inValid, inEvent, write, commit);
      ClockControl(wires);
    }
  }

  class MarketStreamAdapter {
    const core: MarketPipeline
    var eventInFlight: bool
    var acceptedTimestamp: U64
    var acceptedIndex: nat
    var nextIndex: nat
    var resultValid: bool
    var result: StreamAdapter.Result

    ghost function Memories(): set<object> {
      {this} + core.Memories()
    }

    ghost predicate Valid() {
      core.Valid() && this !in core.Memories()
    }

    ghost function Value(): StreamAdapter.Regs
      requires Valid()
      reads Memories()
    {
      StreamAdapter.Regs(core.Value(), eventInFlight, acceptedTimestamp, acceptedIndex, nextIndex, resultValid, result)
    }

    constructor (allowCrossed: bool)
      ensures Valid() && fresh(Memories()) && core.book.allowCrossed == allowCrossed
      ensures Value() == StreamAdapter.RESET
    {
      core := new MarketPipeline(allowCrossed);
      eventInFlight, acceptedTimestamp, acceptedIndex, nextIndex := false, 0, 0, 0;
      resultValid, result := false, StreamAdapter.Result(0, 0, NoError, NO_FEATURES, EMPTY, EMPTY);
    }

    /** The combinational input gate. */
    function InReady(): bool
      requires Valid()
      reads Memories()
      ensures InReady() == StreamAdapter.InReady(Value())
    {
      core.book.state == Rtl.ST_IDLE && core.state == Pipeline.WAIT_BOOK && !eventInFlight && !resultValid
    }

    method ClockRegisters(w: StreamAdapter.Wires)
      requires Valid()
      modifies this
      ensures Value() == StreamAdapter.Control(old(Value()), w)
    {
      if resultValid && w.resultReady { resultValid := false; }
      if w.coreDone { resultValid, result := true, w.captured; }
      if w.accepts {
        acceptedTimestamp, acceptedIndex := w.timestamp, nextIndex;
        nextIndex := nextIndex + 1;
        eventInFlight := true;
      }
      if w.coreDone { eventInFlight := false; }
    }

    method Clock(inValid: bool, inEvent: RtlEvent, resultReady: bool, write: Option<Strategy.Write>, commit: bool)
      requires Valid()
      modifies Memories()
      ensures Value() == StreamAdapter.Edge(old(Value()),
                StreamAdapter.Input(inValid, inEvent, resultReady, write, commit), core.book.allowCrossed)
    {
      var accepts := inValid && InReady();
      var features := core.SampleFeatures();
      var captured := StreamAdapter.Result(acceptedIndex, acceptedTimestamp, core.eventError, features,
                                           core.book.bids[0], core.book.asks[0]);
      var wires := StreamAdapter.Wires(accepts, inEvent.timestamp, resultReady, core.eventDone, captured);
      core.Clock(accepts, inEvent, write, commit);
      ClockRegisters(wires);
    }
  }
}
