/** rtl/market_stream_adapter.sv in front of the pipeline, and the proof that over every
    run each accepted input gives exactly one result, its own, in order. */
module StreamAdapter {
  import opened MarketTypes
  import opened Features
  import opened ReferenceModel
  import BookModel
  import Rtl = OrderBookRtl
  import Pipeline
  import Strategy

  /** The compact held result. */
  datatype Result = Result(
    index: nat, timestamp: U64, error: BookError, features: FeatureVector, bestBid: Level, bestAsk: Level)

  datatype Regs = Regs(
    pipe: Pipeline.Regs, inFlight: bool, acceptedTimestamp: U64, acceptedIndex: nat, nextIndex: nat,
    resultValid: bool, result: Result)

  const RESET: Regs := Regs(
    Pipeline.RESET, false, 0, 0, 0, false, Result(0, 0, NoError, NO_FEATURES, EMPTY, EMPTY))

  datatype Input = Input(
    valid: bool, event: RtlEvent, resultReady: bool, write: Option<Strategy.Write>, commit: bool)

  predicate InReady(a: Regs) {
    Pipeline.InReady(a.pipe) && !a.inFlight && !a.resultValid
  }

  predicate Accepts(a: Regs, i: Input) {
    i.valid && InReady(a)
  }

  predicate Delivers(a: Regs, i: Input) {
    a.resultValid && i.resultReady
  }

  function PipeInput(a: Regs, i: Input): Pipeline.Input {
    Pipeline.Input(Accepts(a, i), i.event, i.write, i.commit)
  }

  function Captured(a: Regs): Result {
    Result(a.acceptedIndex, a.acceptedTimestamp, a.pipe.error, FeatureEngine(a.pipe.book.live, a.pipe.window),
           a.pipe.book.live.bids[0], a.pipe.book.live.asks[0])
  }

  /** What the adapter's own registers sample at an edge. */
  datatype Wires = Wires(accepts: bool, timestamp: U64, resultReady: bool, coreDone: bool, captured: Result)

  function WiresOf(a: Regs, i: Input): Wires {
    Wires(Accepts(a, i), i.event.timestamp, i.resultReady, a.pipe.done, Captured(a))
  }

  /** The adapter's two clocked blocks. */
  function Control(a: Regs, w: Wires): Regs {
    a.(inFlight := if w.coreDone then false else a.inFlight || w.accepts,
       acceptedTimestamp := if w.accepts then w.timestamp else a.acceptedTimestamp,
       acceptedIndex := if w.accepts then a.nextIndex else a.acceptedIndex,
       nextIndex := if w.accepts then a.nextIndex + 1 else a.nextIndex,
       resultValid := if w.coreDone then true else a.resultValid && !w.resultReady,
       result := if w.coreDone then w.captured else a.result)
  }

  /** One rising edge with reset inactive. */
  function Edge(a: Regs, i: Input, allowCrossed: bool): Regs {
    Control(a.(pipe := Pipeline.Edge(a.pipe, PipeInput(a, i), allowCrossed)), WiresOf(a, i))
  }

  // ---------- Runs ----------

  /** A run so far: the registers, the inputs accepted and the results taken. */
  datatype Run = Run(regs: Regs, accepted: seq<RtlEvent>, taken: seq<Result>)

  function Step(t: Run, i: Input, allowCrossed: bool): Run {
    Run(Edge(t.regs, i, allowCrossed),
        if Accepts(t.regs, i) then t.accepted + [i.event] else t.accepted,
        if Delivers(t.regs, i) then t.taken + [t.regs.result] else t.taken)
  }

  function RunFrom(t: Run, inputs: seq<Input>, allowCrossed: bool): Run {
    if |inputs| == 0 then t
    else Step(RunFrom(t, inputs[..|inputs| - 1], allowCrossed), inputs[|inputs| - 1], allowCrossed)
  }

  const START: Run := Run(RESET, [], [])

  /** The one right result for the k-th accepted event. */
  function Expected(accepted: seq<RtlEvent>, k: nat, allowCrossed: bool): Result
    requires k < |accepted|
  {
    var before := RunMarket(accepted[..k], allowCrossed);
    var after := Advance(before, accepted[k], allowCrossed);
    Result(k, accepted[k].timestamp, BookModel.Apply(before.book, accepted[k], allowCrossed).error,
           FeatureEngine(after.book, after.window), after.book.bids[0], after.book.asks[0])
  }

  /** An expected result by field: the event's position and timestamp, the book's error for
      it, and the engine's features and the best levels of the book it left. */
  lemma {:induction false} ExpectedByField(accepted: seq<RtlEvent>, k: nat, allowCrossed: bool)
    requires k < |accepted|
    ensures var x, before, after := Expected(accepted, k, allowCrossed),
        RunMarket(accepted[..k], allowCrossed), RunMarket(accepted[..k + 1], allowCrossed);
      && x.index == k && x.timestamp == accepted[k].timestamp
      && x.error == BookModel.Apply(before.book, accepted[k], allowCrossed).error
      && x.features == FeatureEngine(after.book, after.window)
      && x.bestBid == after.book.bids[0] && x.bestAsk == after.book.asks[0]
  {
    assert accepted[..k + 1][..k] == accepted[..k];
  }

  ghost predicate AllExpected(results: seq<Result>, accepted: seq<RtlEvent>, allowCrossed: bool) {
    |results| <= |accepted| && forall k | 0 <= k < |results| :: results[k] == Expected(accepted, k, allowCrossed)
  }

  /** Results taken, followed by the one being held. */
  function Published(t: Run): seq<Result> {
    if t.regs.resultValid then t.taken + [t.regs.result] else t.taken
  }

  /** The stream invariant, with the stage of the event in flight made explicit. */
  ghost predicate Streaming(t: Run, stage: Pipeline.Stage, allowCrossed: bool) {
    var n := |t.accepted|;
    && t.regs.nextIndex == n
    && AllExpected(Published(t), t.accepted, allowCrossed)
    && if t.regs.inFlight then
         && !t.regs.resultValid && n == |t.taken| + 1
         && t.regs.acceptedIndex == n - 1 && t.regs.acceptedTimestamp == t.accepted[n - 1].timestamp
         && Pipeline.At(t.regs.pipe, stage, RunMarket(t.accepted[..n - 1], allowCrossed), t.accepted[n - 1], allowCrossed)
       else
         && n == |Published(t)|
         && Pipeline.Quiet(t.regs.pipe, RunMarket(t.accepted, allowCrossed))
  }

  lemma {:induction false} ExpectedStable(accepted: seq<RtlEvent>, e: RtlEvent, results: seq<Result>,
                                          allowCrossed: bool)
    requires AllExpected(results, accepted, allowCrossed)
    ensures AllExpected(results, accepted + [e], allowCrossed)
  {
    forall k | 0 <= k < |results| ensures results[k] == Expected(accepted + [e], k, allowCrossed) {
      assert (accepted + [e])[..k] == accepted[..k];
    }
  }

  lemma {:induction false} AcceptStep(t: Run, i: Input, stage: Pipeline.Stage, allowCrossed: bool)
    requires Streaming(t, stage, allowCrossed) && Accepts(t.regs, i)
    ensures Streaming(Step(t, i, allowCrossed), Pipeline.InBook, allowCrossed)
  {
    var u := Step(t, i, allowCrossed);
    assert u.accepted[..|t.accepted|] == t.accepted;
    ExpectedStable(t.accepted, i.event, Published(t), allowCrossed);
    Pipeline.AcceptEnters(t.regs.pipe, PipeInput(t.regs, i), RunMarket(t.accepted, allowCrossed), allowCrossed);
  }

  lemma {:induction false} QuietStep(t: Run, i: Input, stage: Pipeline.Stage, allowCrossed: bool)
    requires Streaming(t, stage, allowCrossed) && !t.regs.inFlight && !Accepts(t.regs, i)
    ensures Streaming(Step(t, i, allowCrossed), stage, allowCrossed)
  {
    Pipeline.QuietStays(t.regs.pipe, PipeInput(t.regs, i), RunMarket(t.accepted, allowCrossed), allowCrossed);
  }

  /** With an event in flight and no done pulse, an edge moves only the pipeline. */
  lemma {:induction false} FlightHolds(t: Run, i: Input, allowCrossed: bool)
    requires t.regs.inFlight && !t.regs.resultValid && !t.regs.pipe.done
    ensures Step(t, i, allowCrossed) ==
            t.(regs := t.regs.(pipe := Pipeline.Edge(t.regs.pipe, PipeInput(t.regs, i), allowCrossed)))
  {
  }

  lemma {:induction false} FlightStep(t: Run, i: Input, stage: Pipeline.Stage, allowCrossed: bool)
    returns (next: Pipeline.Stage)
    requires Streaming(t, stage, allowCrossed) && t.regs.inFlight && stage != Pipeline.Emitted
    ensures Streaming(Step(t, i, allowCrossed), next, allowCrossed)
    ensures Step(t, i, allowCrossed).regs.inFlight
    ensures FlightLeft(Step(t, i, allowCrossed), next, allowCrossed) == FlightLeft(t, stage, allowCrossed) - 1
  {
    var m := RunMarket(t.accepted[..|t.accepted| - 1], allowCrossed);
    RunMarketOk(t.accepted[..|t.accepted| - 1], allowCrossed);
    FlightHolds(t, i, allowCrossed);
    next := Pipeline.StageStep(t.regs.pipe, PipeInput(t.regs, i), stage, m, t.accepted[|t.accepted| - 1], allowCrossed);
  }

  /** The done pulse is captured: the held result is the right one. */
  lemma {:induction false} EmittedIsExpected(t: Run, allowCrossed: bool)
    requires Streaming(t, Pipeline.Emitted, allowCrossed) && t.regs.inFlight
    ensures |t.accepted| > 0 && Captured(t.regs) == Expected(t.accepted, |t.accepted| - 1, allowCrossed)
  {
  }

  lemma {:induction false} CaptureStep(t: Run, i: Input, allowCrossed: bool)
    requires Streaming(t, Pipeline.Emitted, allowCrossed) && t.regs.inFlight
    ensures Streaming(Step(t, i, allowCrossed), Pipeline.Emitted, allowCrossed)
    ensures !Step(t, i, allowCrossed).regs.inFlight && Step(t, i, allowCrossed).regs.resultValid
  {
    var n, u := |t.accepted|, Step(t, i, allowCrossed);
    var m := RunMarket(t.accepted[..n - 1], allowCrossed);
    Pipeline.EmittedStep(t.regs.pipe, PipeInput(t.regs, i), m, t.accepted[n - 1], allowCrossed);
    EmittedIsExpected(t, allowCrossed);
    assert Published(u) == t.taken + [Captured(t.regs)];
  }

  /** Edges until the event in flight is held as a result. */
  function FlightLeft(t: Run, stage: Pipeline.Stage, allowCrossed: bool): int
    requires |t.accepted| > 0
  {
    Pipeline.EdgesLeft(t.regs.pipe, stage, RunMarket(t.accepted[..|t.accepted| - 1], allowCrossed), allowCrossed) + 1
  }

  lemma {:induction false} StreamingStep(t: Run, i: Input, stage: Pipeline.Stage, allowCrossed: bool)
    returns (next: Pipeline.Stage)
    requires Streaming(t, stage, allowCrossed)
    ensures Streaming(Step(t, i, allowCrossed), next, allowCrossed)
  {
    if Accepts(t.regs, i) {
      AcceptStep(t, i, stage, allowCrossed);
      next := Pipeline.InBook;
    } else if !t.regs.inFlight {
      QuietStep(t, i, stage, allowCrossed);
      next := stage;
    } else if stage == Pipeline.Emitted {
      CaptureStep(t, i, allowCrossed);
      next := stage;
    } else {
      next := FlightStep(t, i, stage, allowCrossed);
    }
  }

  lemma {:induction false} StartStreaming(allowCrossed: bool)
    ensures Streaming(START, Pipeline.InBook, allowCrossed)
  {
  }

  lemma {:induction false} RunsStream(inputs: seq<Input>, allowCrossed: bool) returns (stage: Pipeline.Stage)
    ensures Streaming(RunFrom(START, inputs, allowCrossed), stage, allowCrossed)
    decreases |inputs|
  {
    if |inputs| == 0 {
      StartStreaming(allowCrossed);
      stage := Pipeline.InBook;
    } else {
      stage := RunsStream(inputs[..|inputs| - 1], allowCrossed);
      var t := RunFrom(START, inputs[..|inputs| - 1], allowCrossed);
      stage := StreamingStep(t, inputs[|inputs| - 1], stage, allowCrossed);
    }
  }

  lemma {:induction false} OneOutstanding(t: Run, stage: Pipeline.Stage, allowCrossed: bool)
    requires Streaming(t, stage, allowCrossed)
    ensures |t.accepted| == |t.taken| + (if t.regs.resultValid || t.regs.inFlight then 1 else 0)
    ensures !(t.regs.resultValid && t.regs.inFlight)
    ensures t.regs.inFlight || t.regs.resultValid || InReady(t.regs)
  {
  }

  /** Main stream theorem, for every pattern of valid, event, ready, parameter writes and
      commits: the results taken are the accepted events' own, in order; at most one is
      outstanding; a held or pending result keeps the input closed. */
  lemma {:induction false} OneInOneOut(inputs: seq<Input>, allowCrossed: bool)
    ensures var t := RunFrom(START, inputs, allowCrossed);
      && AllExpected(Published(t), t.accepted, allowCrossed)
      && |t.accepted| == |t.taken| + (if t.regs.resultValid || t.regs.inFlight then 1 else 0)
      && !(t.regs.resultValid && t.regs.inFlight)
      && (|t.accepted| > |t.taken| ==> !InReady(t.regs))
  {
    var stage := RunsStream(inputs, allowCrossed);
  }

  /** A held result is never changed or dropped before it is taken. */
  lemma {:induction false} HeldResultStays(inputs: seq<Input>, i: Input, allowCrossed: bool)
    requires RunFrom(START, inputs, allowCrossed).regs.resultValid && !i.resultReady
    ensures var t := RunFrom(START, inputs, allowCrossed);
      Step(t, i, allowCrossed).regs.resultValid && Step(t, i, allowCrossed).regs.result == t.regs.result
  {
    var stage := RunsStream(inputs, allowCrossed);
  }

  // ---------- Every accepted event is answered in bounded time ----------

  lemma {:induction false} FlightLands(t: Run, inputs: seq<Input>, stage: Pipeline.Stage, allowCrossed: bool)
    returns (next: Pipeline.Stage)
    requires Streaming(t, stage, allowCrossed) && t.regs.inFlight
    requires |inputs| <= FlightLeft(t, stage, allowCrossed)
    ensures var u := RunFrom(t, inputs, allowCrossed);
      && Streaming(u, next, allowCrossed) && u.accepted == t.accepted
      && (|inputs| < FlightLeft(t, stage, allowCrossed) ==>
            u.regs.inFlight && FlightLeft(u, next, allowCrossed) == FlightLeft(t, stage, allowCrossed) - |inputs|)
      && (|inputs| == FlightLeft(t, stage, allowCrossed) ==> u.regs.resultValid)
    decreases |inputs|
  {
    next := stage;
    if |inputs| > 0 {
      var before, i := inputs[..|inputs| - 1], inputs[|inputs| - 1];
      next := FlightLands(t, before, stage, allowCrossed);
      next := OneFlightEdge(RunFrom(t, before, allowCrossed), i, next, allowCrossed);
    }
  }

  /** One edge of a flight: the last one captures the result. */
  lemma {:induction false} OneFlightEdge(t: Run, i: Input, stage: Pipeline.Stage, allowCrossed: bool)
    returns (next: Pipeline.Stage)
    requires Streaming(t, stage, allowCrossed) && t.regs.inFlight
    ensures var u, left := Step(t, i, allowCrossed), FlightLeft(t, stage, allowCrossed);
      && 1 <= left && Streaming(u, next, allowCrossed) && u.accepted == t.accepted
      && (1 < left ==> u.regs.inFlight && FlightLeft(u, next, allowCrossed) == left - 1)
      && (1 == left ==> u.regs.resultValid)
  {
    if stage == Pipeline.Emitted {
      CaptureStep(t, i, allowCrossed);
      next := stage;
    } else {
      FlightLeftPositive(t, stage, allowCrossed);
      next := FlightStep(t, i, stage, allowCrossed);
    }
  }

  lemma {:induction false} FlightLeftPositive(t: Run, stage: Pipeline.Stage, allowCrossed: bool)
    requires Streaming(t, stage, allowCrossed) && t.regs.inFlight && stage != Pipeline.Emitted
    ensures FlightLeft(t, stage, allowCrossed) >= 2
  {
    if stage == Pipeline.InBook {
      Rtl.BusyLeft(t.regs.pipe.book, RunMarket(t.accepted[..|t.accepted| - 1], allowCrossed).book,
                   t.accepted[|t.accepted| - 1], allowCrossed);
    }
  }

  /** From acceptance, the held result rises after exactly the book's latency plus three
      edges, so never later than 29, whatever the inputs do meanwhile. */
  lemma {:induction false} ResultArrives(inputs: seq<Input>, i: Input, more: seq<Input>, allowCrossed: bool)
    requires Accepts(RunFrom(START, inputs, allowCrossed).regs, i)
    ensures var t := RunFrom(START, inputs, allowCrossed);
      var latency := Rtl.Latency(RunMarket(t.accepted, allowCrossed).book, i.event, allowCrossed) + 3;
      && latency <= 29
      && (|more| < latency ==> !RunFrom(Step(t, i, allowCrossed), more, allowCrossed).regs.resultValid)
      && (|more| == latency ==> RunFrom(Step(t, i, allowCrossed), more, allowCrossed).regs.resultValid)
  {
    var t := RunFrom(START, inputs, allowCrossed);
    var stage := RunsStream(inputs, allowCrossed);
    var m := RunMarket(t.accepted, allowCrossed);
    Rtl.LatencyBound(m.book, i.event, allowCrossed);
    AcceptStep(t, i, stage, allowCrossed);
    Pipeline.AcceptEnters(t.regs.pipe, PipeInput(t.regs, i), m, allowCrossed);
    var u := Step(t, i, allowCrossed);
    assert u.accepted[..|u.accepted| - 1] == t.accepted;
    if |more| <= FlightLeft(u, Pipeline.InBook, allowCrossed) {
      var next := FlightLands(u, more, Pipeline.InBook, allowCrossed);
    }
  }
}
