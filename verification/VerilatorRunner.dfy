/** src/verilator/verilator_runner.cpp: the host-side driver of the clocked design. It ticks
    pins, waits for ready, submits events and uploads parameter banks. Its waits end in time
    except when it holds ready low against a result, and every commit it makes falls at an
    idle boundary, so what it reads back is the reference model's answer. */
module VerilatorRunner {
  import opened MarketTypes
  import opened Features
  import opened ReferenceModel
  import opened StreamAdapter
  import opened SignalPath
  import BookModel
  import Rtl = OrderBookRtl
  import Pipeline
  import Strategy
  import ClockedPath

  const CYCLE_LIMIT: nat := 64
  const NO_EVENT: RtlEvent := MarketEvent(0, Add, Bid, 0, 0)

  // ---------- What the host has done so far ----------

  /** The pins of every edge so far, and the run and parameters they led to. */
  datatype Record = Record(inputs: seq<Input>, run: Run, banks: seq<Strategy.Parameters>)

  const NO_RECORD: Record := Record([], StreamAdapter.START, [])

  /** The record is the run of its inputs, and every commit among them was requested while
      the input was ready. (The bound `edges` only keeps the run folded in the proofs about
      the objects that carry a record.) */
  ghost predicate Recorded(r: Record, allowCrossed: bool) {
    && (forall edges | edges == |r.inputs| :: Banked(r.run, r.banks) == BankedRun(r.inputs[..edges], allowCrossed))
    && CommitsAtBoundaries(r.inputs, allowCrossed)
  }

  lemma {:induction false} RecordedRun(r: Record, allowCrossed: bool)
    requires Recorded(r, allowCrossed)
    ensures Banked(r.run, r.banks) == BankedRun(r.inputs, allowCrossed)
  {
    assert r.inputs[..|r.inputs|] == r.inputs;
  }

  lemma {:induction false} RecordOf(inputs: seq<Input>, t: Banked, allowCrossed: bool)
    requires t == BankedRun(inputs, allowCrossed) && CommitsAtBoundaries(inputs, allowCrossed)
    ensures Recorded(Record(inputs, t.run, t.banks), allowCrossed)
  {
    assert inputs[..|inputs|] == inputs;
  }

  /** The second record is the first with one more edge. */
  ghost predicate OneMore(r: Record, i: Input, next: Record, allowCrossed: bool) {
    Recorded(r, allowCrossed) && Recorded(next, allowCrossed) && next.inputs == r.inputs + [i]
  }

  lemma {:induction false} StartRecorded(allowCrossed: bool)
    ensures Recorded(NO_RECORD, allowCrossed) && NO_RECORD.run.regs == StreamAdapter.RESET
  {
    RecordOf([], BANKED_START, allowCrossed);
  }

  lemma {:induction false} RunOneMore(inputs: seq<Input>, i: Input, allowCrossed: bool)
    requires CommitsAtBoundaries(inputs, allowCrossed)
    requires i.commit ==> InReady(BankedRun(inputs, allowCrossed).run.regs)
    ensures BankedRun(inputs + [i], allowCrossed) == BankedStep(BankedRun(inputs, allowCrossed), i, allowCrossed)
    ensures CommitsAtBoundaries(inputs + [i], allowCrossed)
  {
    var longer := inputs + [i];
    assert longer[..|inputs|] == inputs;
    forall k | 0 <= k < |longer| && longer[k].commit ensures InReady(BankedRun(longer[..k], allowCrossed).run.regs) {
      if k < |inputs| {
        assert inputs[k].commit && longer[..k] == inputs[..k];
      }
    }
  }

  lemma {:induction false} TickRecorded(r: Record, i: Input, allowCrossed: bool) returns (next: Record)
    requires Recorded(r, allowCrossed) && (i.commit ==> InReady(r.run.regs))
    ensures OneMore(r, i, next, allowCrossed) && next.run.regs == StreamAdapter.Edge(r.run.regs, i, allowCrossed)
    ensures BanksTick(BanksOf(r), i.write, i.commit, BanksOf(next))
  {
    var inputs, t := r.inputs + [i], BankedStep(Banked(r.run, r.banks), i, allowCrossed);
    next := Record(inputs, t.run, t.banks);
    RecordedRun(r, allowCrossed);
    RunOneMore(r.inputs, i, allowCrossed);
    RecordOf(inputs, t, allowCrossed);
    EdgeTicksBanks(r.run, i, allowCrossed);
  }

  lemma {:induction false} OneMoreSteps(r: Record, i: Input, next: Record, allowCrossed: bool)
    requires OneMore(r, i, next, allowCrossed)
    ensures Banked(next.run, next.banks) == BankedStep(Banked(r.run, r.banks), i, allowCrossed)
  {
    RecordedRun(r, allowCrossed);
    RecordedRun(next, allowCrossed);
    assert next.inputs[..|r.inputs|] == r.inputs;
  }


  /** What one edge accepts and delivers. */
  lemma {:induction false} OneMoreMoves(r: Record, i: Input, next: Record, allowCrossed: bool)
    requires OneMore(r, i, next, allowCrossed)
    ensures next.run.accepted == if Accepts(r.run.regs, i) then r.run.accepted + [i.event] else r.run.accepted
    ensures next.run.taken == if Delivers(r.run.regs, i) then r.run.taken + [r.run.regs.result] else r.run.taken
    ensures !Accepts(r.run.regs, i) ==> next.banks == r.banks
    ensures Accepts(r.run.regs, i) ==> next.banks == r.banks + [ActiveParameters(BanksOf(next))]
  {
    OneMoreSteps(r, i, next, allowCrossed);
  }

  function BanksOf(r: Record): Strategy.Regs {
    r.run.regs.pipe.strategy
  }

  function StageIn(t: Run): Pipeline.Stage {
    Pipeline.StageOf(t.regs.pipe)
  }

  ghost predicate Streams(t: Run, allowCrossed: bool) {
    Streaming(t, StageIn(t), allowCrossed)
  }

  lemma {:induction false} StageFixed(t: Run, stage: Pipeline.Stage, allowCrossed: bool)
    requires Streaming(t, stage, allowCrossed)
    ensures Streams(t, allowCrossed) && (t.regs.inFlight ==> stage == StageIn(t))
  {
    if t.regs.inFlight {
      var n := |t.accepted| - 1;
      Pipeline.StageIs(t.regs.pipe, stage, RunMarket(t.accepted[..n], allowCrossed), t.accepted[n], allowCrossed);
    }
  }

  lemma {:induction false} RecordStreams(r: Record, allowCrossed: bool)
    requires Recorded(r, allowCrossed)
    ensures Streams(r.run, allowCrossed)
  {
    RecordedRun(r, allowCrossed);
    BankedRunIsRun(r.inputs, allowCrossed);
    var stage := RunsStream(r.inputs, allowCrossed);
    StageFixed(r.run, stage, allowCrossed);
  }

  /** What the stream invariant says of a recorded run. */
  lemma {:induction false} RecordOutstanding(r: Record, allowCrossed: bool)
    requires Recorded(r, allowCrossed)
    ensures |r.run.accepted| == |r.run.taken| + (if r.run.regs.resultValid || r.run.regs.inFlight then 1 else 0)
    ensures r.run.regs.inFlight || r.run.regs.resultValid <==> !InReady(r.run.regs)
    ensures AllExpected(r.run.taken, r.run.accepted, allowCrossed)
    ensures r.run.regs.resultValid ==> !r.run.regs.inFlight
  {
    RecordStreams(r, allowCrossed);
    OneOutstanding(r.run, StageIn(r.run), allowCrossed);
    assert Published(r.run)[..|r.run.taken|] == r.run.taken;
    forall k | 0 <= k < |r.run.taken| ensures r.run.taken[k] == Expected(r.run.accepted, k, allowCrossed) {
      assert Published(r.run)[k] == r.run.taken[k];
    }
  }

  // ---------- How long readiness takes ----------

  /** Edges until the adapter is ready again, if results are always accepted. */
  function ReadyLeft(t: Run, allowCrossed: bool): int {
    if t.regs.inFlight && |t.accepted| > 0 then FlightLeft(t, StageIn(t), allowCrossed) + 1
    else if t.regs.resultValid then 1 else 0
  }

  lemma {:induction false} FlightBounded(t: Run, allowCrossed: bool)
    requires Streams(t, allowCrossed) && t.regs.inFlight
    ensures 1 <= FlightLeft(t, StageIn(t), allowCrossed) <= 29
  {
    var n := |t.accepted| - 1;
    var m := RunMarket(t.accepted[..n], allowCrossed);
    if StageIn(t) == Pipeline.InBook {
      BusyBounded(t.regs.pipe.book, m.book, t.accepted[n], allowCrossed);
    }
  }

  lemma {:induction false} BusyBounded(r: Rtl.Regs, book: Book, e: RtlEvent, allowCrossed: bool)
    requires Rtl.Busy(r, book, e, allowCrossed)
    ensures 1 <= Rtl.EdgesLeft(r, book, allowCrossed) <= 26
  {
    Rtl.BusyLeft(r, book, e, allowCrossed);
    Rtl.LatencyBound(book, e, allowCrossed);
  }

  lemma {:induction false} ReadyWhenNoneLeft(t: Run, allowCrossed: bool)
    requires Streams(t, allowCrossed)
    ensures 0 <= ReadyLeft(t, allowCrossed) <= 30
    ensures ReadyLeft(t, allowCrossed) == 0 <==> InReady(t.regs)
  {
    OneOutstanding(t, StageIn(t), allowCrossed);
    if t.regs.inFlight { FlightBounded(t, allowCrossed); }
  }

  /** One tick with nothing offered: with results accepted readiness comes one edge closer;
      otherwise an adapter that is not ready stays so. */
  lemma {:induction false} IdleStep(t: Run, i: Input, allowCrossed: bool)
    requires Streams(t, allowCrossed) && !i.valid
    ensures Streams(Step(t, i, allowCrossed), allowCrossed) && Step(t, i, allowCrossed).accepted == t.accepted
    ensures InReady(t.regs) ==> InReady(Step(t, i, allowCrossed).regs)
    ensures InReady(t.regs) ==> Step(t, i, allowCrossed).taken == t.taken
    ensures !InReady(t.regs) && !i.resultReady ==> !InReady(Step(t, i, allowCrossed).regs)
    ensures !InReady(t.regs) && i.resultReady ==>
      ReadyLeft(Step(t, i, allowCrossed), allowCrossed) == ReadyLeft(t, allowCrossed) - 1
  {
    var u := Step(t, i, allowCrossed);
    OneOutstanding(t, StageIn(t), allowCrossed);
    if t.regs.inFlight && StageIn(t) != Pipeline.Emitted {
      var next := FlightStep(t, i, StageIn(t), allowCrossed);
      StageFixed(u, next, allowCrossed);
    } else if t.regs.inFlight {
      CaptureStep(t, i, allowCrossed);
      StageFixed(u, Pipeline.Emitted, allowCrossed);
      LastEdge(t, allowCrossed);
    } else {
      QuietStep(t, i, StageIn(t), allowCrossed);
      StageFixed(u, StageIn(t), allowCrossed);
    }
  }

  lemma {:induction false} LastEdge(t: Run, allowCrossed: bool)
    requires Streams(t, allowCrossed) && t.regs.inFlight && StageIn(t) == Pipeline.Emitted
    ensures FlightLeft(t, StageIn(t), allowCrossed) == 1
  {
  }

  /** The edge that accepts an event starts its flight. */
  lemma {:induction false} AcceptFlight(t: Run, i: Input, allowCrossed: bool)
    requires Streams(t, allowCrossed) && Accepts(t.regs, i)
    ensures var u := Step(t, i, allowCrossed);
      Streams(u, allowCrossed) && u.regs.inFlight && StageIn(u) == Pipeline.InBook
  {
    AcceptStep(t, i, StageIn(t), allowCrossed);
    StageFixed(Step(t, i, allowCrossed), Pipeline.InBook, allowCrossed);
  }

  /** An edge of a flight before its done pulse. */
  lemma {:induction false} FlightEdge(t: Run, i: Input, allowCrossed: bool)
    requires Streams(t, allowCrossed) && t.regs.inFlight && StageIn(t) != Pipeline.Emitted
    ensures var u := Step(t, i, allowCrossed);
      && u.regs.inFlight && u.accepted == t.accepted
      && 1 <= FlightLeft(u, StageIn(u), allowCrossed) == FlightLeft(t, StageIn(t), allowCrossed) - 1
  {
    var u := Step(t, i, allowCrossed);
    OneOutstanding(t, StageIn(t), allowCrossed);
    FlightLeftPositive(t, StageIn(t), allowCrossed);
    var next := FlightStep(t, i, StageIn(t), allowCrossed);
    StageFixed(u, next, allowCrossed);
  }

  /** In flight, the pipeline's done pulse shows exactly at the last stage. */
  lemma {:induction false} FlightDone(t: Run, allowCrossed: bool)
    requires Streams(t, allowCrossed) && t.regs.inFlight
    ensures t.regs.pipe.done <==> StageIn(t) == Pipeline.Emitted
  {
  }

  /** The same three edges on records. */
  lemma {:induction false} IdleOneMore(r: Record, i: Input, next: Record, allowCrossed: bool)
    requires OneMore(r, i, next, allowCrossed) && !i.valid
    ensures next.run.accepted == r.run.accepted && next.banks == r.banks
    ensures InReady(r.run.regs) ==> InReady(next.run.regs) && next.run.taken == r.run.taken
    ensures !InReady(r.run.regs) && !i.resultReady ==> !InReady(next.run.regs)
    ensures !InReady(r.run.regs) && i.resultReady ==>
      ReadyLeft(next.run, allowCrossed) == ReadyLeft(r.run, allowCrossed) - 1
  {
    RecordStreams(r, allowCrossed);
    OneMoreSteps(r, i, next, allowCrossed);
    IdleStep(r.run, i, allowCrossed);
  }

  lemma {:induction false} AcceptOneMore(r: Record, i: Input, next: Record, allowCrossed: bool)
    requires OneMore(r, i, next, allowCrossed) && Accepts(r.run.regs, i)
    ensures next.run.regs.inFlight && StageIn(next.run) == Pipeline.InBook
    ensures 2 <= ReadyLeft(next.run, allowCrossed) <= 30
  {
    RecordStreams(r, allowCrossed);
    OneMoreSteps(r, i, next, allowCrossed);
    AcceptFlight(r.run, i, allowCrossed);
    FlightBounded(next.run, allowCrossed);
  }

  lemma {:induction false} FlightOneMore(r: Record, i: Input, next: Record, allowCrossed: bool)
    requires OneMore(r, i, next, allowCrossed) && !i.valid
    requires r.run.regs.inFlight && StageIn(r.run) != Pipeline.Emitted
    ensures next.run.regs.inFlight && next.run.accepted == r.run.accepted && next.banks == r.banks
    ensures 2 <= ReadyLeft(next.run, allowCrossed) == ReadyLeft(r.run, allowCrossed) - 1
    ensures next.run.regs.pipe.done <==> StageIn(next.run) == Pipeline.Emitted
  {
    RecordStreams(r, allowCrossed);
    RecordStreams(next, allowCrossed);
    OneMoreSteps(r, i, next, allowCrossed);
    FlightEdge(r.run, i, allowCrossed);
    FlightDone(next.run, allowCrossed);
  }

  // ---------- What an edge does to the banks ----------

  /** What the banks go through on an edge whose commit, if any, finds the adapter ready. */
  ghost predicate BanksTick(s: Strategy.Regs, write: Option<Strategy.Write>, commit: bool, t: Strategy.Regs) {
    if commit && s.shadow.written == Strategy.ALL_WORDS then
      ActiveParameters(t) == Strategy.Parameters(s.shadow.bank, s.shadow.version) && t.updateCount == s.updateCount + 1
    else
      && ActiveParameters(t) == ActiveParameters(s) && t.updateCount == s.updateCount
      && t.shadow == if write.Some? then Strategy.WriteShadow(s.shadow, write.value) else s.shadow
  }

  lemma {:induction false} EdgeTicksBanks(t: Run, i: Input, allowCrossed: bool)
    requires i.commit ==> InReady(t.regs)
    ensures BanksTick(t.regs.pipe.strategy, i.write, i.commit, Step(t, i, allowCrossed).regs.pipe.strategy)
  {
  }

  /** The banks, their flags and the update count are as they were. */
  ghost predicate SameBanks(s: Strategy.Regs, t: Strategy.Regs) {
    ActiveParameters(t) == ActiveParameters(s) && t.updateCount == s.updateCount && t.shadow == s.shadow
  }

  /** The first words of a bank stand in the shadow. */
  ghost predicate Uploaded(s: Strategy.Shadow, p: Strategy.Parameters, words: nat) {
    && (words > 0 ==> s.version == p.version)
    && (forall w: nat | w < words && w < Strategy.WORDS ::
          s.written[w] && Strategy.BankWord(s.bank, w) == Strategy.BankWord(p.bank, w))
  }

  lemma {:induction false} UploadOne(s: Strategy.Shadow, p: Strategy.Parameters, index: nat)
    requires Uploaded(s, p, index) && index < Strategy.WORDS
    ensures var w := Strategy.Write(index, Strategy.BankWord(p.bank, index), p.version);
      Uploaded(Strategy.WriteShadow(s, w), p, index + 1)
  {
    forall w: nat | w < index + 1
      ensures Strategy.BankWord(Strategy.SetWord(s.bank, index, Strategy.BankWord(p.bank, index)), w) ==
              Strategy.BankWord(p.bank, w)
    {
      Strategy.WordAfterSet(s.bank, index, Strategy.BankWord(p.bank, index), w);
    }
  }

  lemma {:induction false} AllWordsWritten(s: Strategy.Shadow, p: Strategy.Parameters)
    requires Uploaded(s, p, Strategy.WORDS)
    ensures s.written == Strategy.ALL_WORDS && s.bank == p.bank && s.version == p.version
  {
    forall w | 0 <= w < FEATURES ensures s.bank.weights[w] == p.bank.weights[w] {
      assert Strategy.BankWord(s.bank, w) == Strategy.BankWord(p.bank, w);
    }
    assert s.bank.weights == p.bank.weights;
    assert Strategy.BankWord(s.bank, FEATURES) == Strategy.BankWord(p.bank, FEATURES);
    assert Strategy.BankWord(s.bank, FEATURES + 1) == Strategy.BankWord(p.bank, FEATURES + 1);
  }

  // ---------- The snapshot of a completed event ----------

  datatype Snapshot = Snapshot(
    book: Book, features: FeatureVector, timestamp: U64, index: nat, verdict: Strategy.Verdict, version: U64,
    error: BookError, orderFlow: int, tradeFlow: int, updateCount: nat)

  /** The output ports as the registers drive them. */
  function SnapshotOf(a: StreamAdapter.Regs): Snapshot {
    var p := a.pipe;
    Snapshot(p.book.live, FeatureEngine(p.book.live, p.window), p.signalTimestamp, p.signalIndex, p.strategy.verdict,
             p.strategy.version, p.error, p.book.orderFlow, p.book.tradeFlow, p.strategy.updateCount)
  }

  /** The snapshot is the answer of the book, and of the reference model run on all events
      so far, each under the parameters active when it was accepted. */
  ghost predicate Answered(s: Snapshot, events: seq<MarketEvent>, banks: seq<Strategy.Parameters>, allowCrossed: bool)
    requires |events| == |banks| > 0
  {
    var n := |events| - 1;
    var before := RunReference(events[..n], banks[..n], allowCrossed);
    && BookShown(s, before.market.book, events[n], allowCrossed)
    && (AllFit(events, allowCrossed) ==>
          Signals(s, Process(before, events[n], n, banks[n], allowCrossed), Successes(events, allowCrossed)))
  }

  ghost predicate BookShown(s: Snapshot, before: Book, e: MarketEvent, allowCrossed: bool) {
    var o := Rtl.RtlApply(before, e, allowCrossed);
    s.book == o.book && s.error == o.error && s.orderFlow == o.orderFlow && s.tradeFlow == o.tradeFlow
  }

  ghost predicate Signals(s: Snapshot, after: State, successes: nat) {
    && s.features == CalculateFeatures(after.market.book, after.market.window)
    && s.verdict == after.signal.verdict && s.timestamp == after.signal.timestamp
    && (successes > 0 ==> s.index == successes - 1)
    && (s.error == NoError ==> s.features == after.features && s.version == after.signal.version)
  }

  lemma {:induction false} DoneShows(r: Record, allowCrossed: bool)
    requires Recorded(r, allowCrossed) && r.run.regs.inFlight && StageIn(r.run) == Pipeline.Emitted
    ensures |r.run.accepted| == |r.banks| > 0
    ensures Answered(SnapshotOf(r.run.regs), r.run.accepted, r.banks, allowCrossed)
  {
    var events, n := r.run.accepted, |r.run.accepted| - 1;
    RecordStreams(r, allowCrossed);
    DoneShowsBook(r.run, allowCrossed);
    SameCounts(r, allowCrossed);
    ReferenceMarket(events[..n], r.banks[..n], allowCrossed);
    if AllFit(events, allowCrossed) {
      DoneShowsSignals(r, allowCrossed);
    }
  }

  lemma {:induction false} SameCounts(r: Record, allowCrossed: bool)
    requires Recorded(r, allowCrossed)
    ensures |r.banks| == |r.run.accepted|
  {
    RecordedRun(r, allowCrossed);
  }

  lemma {:induction false} DoneShowsBook(t: Run, allowCrossed: bool)
    requires Streams(t, allowCrossed) && t.regs.inFlight && StageIn(t) == Pipeline.Emitted
    ensures |t.accepted| > 0
    ensures var n := |t.accepted| - 1;
      BookShown(SnapshotOf(t.regs), RunMarket(t.accepted[..n], allowCrossed).book, t.accepted[n], allowCrossed)
  {
  }

  lemma {:induction false} DoneShowsSignals(r: Record, allowCrossed: bool)
    requires Recorded(r, allowCrossed) && r.run.regs.inFlight && StageIn(r.run) == Pipeline.Emitted
    requires |r.run.accepted| == |r.banks| > 0 && AllFit(r.run.accepted, allowCrossed)
    ensures var n := |r.run.accepted| - 1;
      var before := RunReference(r.run.accepted[..n], r.banks[..n], allowCrossed);
      Signals(SnapshotOf(r.run.regs), Process(before, r.run.accepted[n], n, r.banks[n], allowCrossed),
              Successes(r.run.accepted, allowCrossed))
  {
    RecordedRun(r, allowCrossed);
    var stage := RunsSignal(r.inputs, allowCrossed);
    StageFixed(r.run, stage, allowCrossed);
    DoneSignals(Banked(r.run, r.banks), allowCrossed);
  }

  lemma {:induction false} DoneSignals(t: Banked, allowCrossed: bool)
    requires Signalling(t, Pipeline.Emitted, allowCrossed) && t.run.regs.inFlight && AllFit(t.run.accepted, allowCrossed)
    ensures var n := |t.run.accepted| - 1;
      var before := RunReference(t.run.accepted[..n], t.banks[..n], allowCrossed);
      Signals(SnapshotOf(t.run.regs), Process(before, t.run.accepted[n], n, t.banks[n], allowCrossed),
              Successes(t.run.accepted, allowCrossed))
  {
    var events, n, p := t.run.accepted, |t.run.accepted| - 1, t.run.regs.pipe;
    ReferenceMarket(events[..n], t.banks[..n], allowCrossed);
    ReferenceMarket(events, t.banks, allowCrossed);
    assert events[..n + 1] == events && t.banks[..n + 1] == t.banks;
    EngineIsCalculation(p.book.live, p.window);
  }

  // ---------- The driver ----------

  class Runner {
    const dut: ClockedPath.MarketStreamAdapter
    const allowCrossed: bool
    var resultReady: bool
    var cycles: nat
    var completedEvents: nat
    var latest: Snapshot
    ghost var record: Record

    ghost function Parts(): set<object> {
      {this} + dut.Memories()
    }

    ghost predicate Valid()
      reads Parts()
    {
      Mirrors() && Recorded(record, allowCrossed)
    }

    /** The adapter stands where the record says. */
    ghost predicate Mirrors()
      reads Parts()
    {
      && dut.Valid() && this !in dut.Memories() && dut.core.book.allowCrossed == allowCrossed
      && record.run.regs == dut.Value()
    }

    constructor (allowCrossed: bool)
      ensures Valid() && fresh(Parts()) && this.allowCrossed == allowCrossed
      ensures record == NO_RECORD && resultReady
    {
      this.allowCrossed := allowCrossed;
      dut := new ClockedPath.MarketStreamAdapter(allowCrossed);
      resultReady, cycles, completedEvents := true, 0, 0;
      latest := SnapshotOf(StreamAdapter.RESET);
      record := NO_RECORD;
      StartRecorded(allowCrossed);
    }

    function InputReady(): bool
      requires Valid()
      reads Parts()
      ensures InputReady() == InReady(record.run.regs)
    {
      dut.InReady()
    }

    /** One simulated clock with the pins as driven. Only a commit that finds the input ready
        may be driven, so no commit ever falls inside an event. */
    method Tick(valid: bool, event: RtlEvent, write: Option<Strategy.Write>, commit: bool)
      requires Valid() && (commit ==> InReady(record.run.regs))
      modifies Parts()
      ensures Valid() && resultReady == old(resultReady)
      ensures OneMore(old(record), Input(valid, event, old(resultReady), write, commit), record, allowCrossed)
      ensures BanksTick(BanksOf(old(record)), write, commit, BanksOf(record))
    {
      ghost var next := TickRecorded(record, Input(valid, event, resultReady, write, commit), allowCrossed);
      CountCycle();
      Drive(valid, event, write, commit, next);
    }

    /** The adapter's clock, with the record it leads to. */
    method Drive(valid: bool, event: RtlEvent, write: Option<Strategy.Write>, commit: bool, ghost next: Record)
      requires Mirrors()
      requires next.run.regs ==
               StreamAdapter.Edge(record.run.regs, Input(valid, event, resultReady, write, commit), allowCrossed)
      modifies Parts()
      ensures Mirrors() && record == next && resultReady == old(resultReady)
    {
      record := next;
      ClockDut(valid, event, write, commit, next.run.regs);
    }

    method CountCycle()
      requires Mirrors()
      modifies `cycles
      ensures Mirrors() && record == old(record) && resultReady == old(resultReady)
    {
      cycles := cycles + 1;
    }

    /** The adapter's clock, and no other field. */
    method ClockDut(valid: bool, event: RtlEvent, write: Option<Strategy.Write>, commit: bool,
                    ghost next: StreamAdapter.Regs)
      requires dut.Valid() && this !in dut.Memories()
      requires next == StreamAdapter.Edge(dut.Value(), Input(valid, event, resultReady, write, commit),
                                          dut.core.book.allowCrossed)
      modifies dut.Memories()
      ensures dut.Value() == next && resultReady == old(resultReady) && record == old(record)
    {
      dut.Clock(valid, event, resultReady, write, commit);
    }

    /** `step`: offer one event if ready, accept one result if held. */
    method Step(event: Option<RtlEvent>, acceptResult: bool) returns (inputAccepted: bool, resultAccepted: bool)
      requires Valid()
      modifies Parts()
      ensures Valid() && resultReady == acceptResult
      ensures inputAccepted == (event.Some? && InReady(old(record).run.regs))
      ensures resultAccepted == (acceptResult && old(record).run.regs.resultValid)
      ensures record.run.accepted ==
              if inputAccepted then old(record).run.accepted + [event.value] else old(record).run.accepted
      ensures record.run.taken ==
              if resultAccepted then old(record).run.taken + [old(record).run.regs.result] else old(record).run.taken
      ensures SameBanks(BanksOf(old(record)), BanksOf(record))
    {
      inputAccepted := event.Some? && InputReady();
      resultAccepted := dut.resultValid && acceptResult;
      HoldReady(acceptResult);
      OfferTick(inputAccepted, if inputAccepted then event.value else NO_EVENT);
      ShowIfTaken(resultAccepted);
    }

    method HoldReady(ready: bool)
      requires Mirrors()
      modifies `resultReady
      ensures Mirrors() && resultReady == ready
    {
      resultReady := ready;
    }

    /** A tick that offers an event to a ready adapter, or nothing. */
    method OfferTick(valid: bool, event: RtlEvent)
      requires Valid() && (valid ==> InReady(record.run.regs))
      modifies Parts()
      ensures Valid() && resultReady == old(resultReady)
      ensures record.run.accepted == if valid then old(record).run.accepted + [event] else old(record).run.accepted
      ensures record.run.taken == if resultReady && old(record).run.regs.resultValid
                                  then old(record).run.taken + [old(record).run.regs.result] else old(record).run.taken
      ensures SameBanks(BanksOf(old(record)), BanksOf(record))
    {
      Tick(valid, event, None, false);
      OneMoreMoves(old(record), Input(valid, event, resultReady, None, false), record, allowCrossed);
    }

    /** One more completed event, and the ports it leaves. */
    method ShowResult()
      requires Mirrors()
      modifies `completedEvents, `latest
      ensures Mirrors() && record == old(record) && resultReady == old(resultReady)
      ensures latest == SnapshotOf(record.run.regs)
    {
      completedEvents := completedEvents + 1;
      TakeSnapshot();
    }

    method ShowIfTaken(taken: bool)
      requires Valid()
      modifies `completedEvents, `latest
      ensures Valid() && record == old(record) && resultReady == old(resultReady)
    {
      if taken { ShowResult(); }
    }

    method TakeSnapshot()
      requires Mirrors()
      modifies `latest
      ensures Mirrors() && record == old(record) && resultReady == old(resultReady)
      ensures latest == SnapshotOf(record.run.regs)
    {
      latest := ReadSnapshot();
    }

    /** The decoded output ports. */
    method ReadSnapshot() returns (s: Snapshot)
      requires Mirrors()
      ensures s == SnapshotOf(record.run.regs)
    {
      var core := dut.core;
      var features := core.SampleFeatures();
      s := Snapshot(Book(core.book.bids[..], core.book.asks[..]), features, core.signalTimestamp, core.signalIndex,
                    Strategy.Verdict(core.strategy.score, core.strategy.action, core.strategy.signalValid),
                    core.strategy.modelVersion, core.eventError, core.book.orderFlowDelta, core.book.tradeFlowDelta,
                    core.strategy.updateCount);
    }

    /** One tick with nothing offered and nothing written. */
    method IdleTick()
      requires Valid()
      modifies Parts()
      ensures Valid() && resultReady == old(resultReady)
      ensures record.run.accepted == old(record).run.accepted && record.banks == old(record).banks
      ensures SameBanks(BanksOf(old(record)), BanksOf(record))
      ensures InReady(old(record).run.regs) ==> InReady(record.run.regs) && record.run.taken == old(record).run.taken
      ensures !InReady(old(record).run.regs) && !resultReady ==> !InReady(record.run.regs)
      ensures !InReady(old(record).run.regs) && resultReady ==>
        ReadyLeft(record.run, allowCrossed) == ReadyLeft(old(record).run, allowCrossed) - 1
    {
      Tick(false, NO_EVENT, None, false);
      IdleOneMore(old(record), Input(false, NO_EVENT, resultReady, None, false), record, allowCrossed);
    }

    /** `wait_until_ready`: it gives up exactly when ready is held low against an event in
        flight or a held result; otherwise thirty ticks are enough. */
    method WaitUntilReady() returns (timedOut: bool)
      requires Valid()
      modifies Parts()
      ensures Valid() && resultReady == old(resultReady)
      ensures timedOut <==> !resultReady && !InReady(old(record).run.regs)
      ensures timedOut <==> !InReady(record.run.regs)
      ensures record.run.accepted == old(record).run.accepted && record.banks == old(record).banks
      ensures SameBanks(BanksOf(old(record)), BanksOf(record))
      ensures InReady(old(record).run.regs) ==> record == old(record)
    {
      RecordReady(record, allowCrossed);
      ghost var start := ReadyLeft(record.run, allowCrossed);
      var waited := 0;
      while !InputReady() && waited < CYCLE_LIMIT
        invariant Valid() && resultReady == old(resultReady) && waited <= CYCLE_LIMIT
        invariant record.run.accepted == old(record).run.accepted && record.banks == old(record).banks
        invariant SameBanks(BanksOf(old(record)), BanksOf(record))
        invariant InReady(old(record).run.regs) ==> record == old(record)
        invariant !resultReady && !InReady(old(record).run.regs) ==> !InReady(record.run.regs)
        invariant resultReady ==> ReadyLeft(record.run, allowCrossed) == start - waited
        decreases CYCLE_LIMIT - waited
      {
        RecordReady(record, allowCrossed);
        IdleTick();
        waited := waited + 1;
      }
      RecordReady(record, allowCrossed);
      timedOut := !InputReady();
    }

    /** The tick that hands over one event. */
    method AcceptTick(event: RtlEvent)
      requires Valid() && InReady(record.run.regs)
      modifies Parts()
      ensures Valid() && resultReady == old(resultReady)
      ensures record.run.accepted == old(record).run.accepted + [event]
      ensures record.banks == old(record).banks + [ActiveParameters(BanksOf(old(record)))]
      ensures record.run.regs.inFlight && StageIn(record.run) == Pipeline.InBook
      ensures 2 <= ReadyLeft(record.run, allowCrossed) <= 30
    {
      Tick(true, event, None, false);
      OneMoreMoves(old(record), Input(true, event, resultReady, None, false), record, allowCrossed);
      AcceptOneMore(old(record), Input(true, event, resultReady, None, false), record, allowCrossed);
    }

    /** One tick of an event in flight. */
    method FlightTick()
      requires Valid() && record.run.regs.inFlight && StageIn(record.run) != Pipeline.Emitted
      modifies Parts()
      ensures Valid() && resultReady == old(resultReady)
      ensures record.run.accepted == old(record).run.accepted && record.banks == old(record).banks
      ensures record.run.regs.inFlight && (dut.core.eventDone <==> StageIn(record.run) == Pipeline.Emitted)
      ensures 2 <= ReadyLeft(record.run, allowCrossed) == ReadyLeft(old(record).run, allowCrossed) - 1
    {
      Tick(false, NO_EVENT, None, false);
      FlightOneMore(old(record), Input(false, NO_EVENT, resultReady, None, false), record, allowCrossed);
    }

    /** Clock an event in flight until the done pulse shows. */
    method ClockUntilDone() returns (timedOut: bool)
      requires Valid() && record.run.regs.inFlight && StageIn(record.run) != Pipeline.Emitted
      requires 2 <= ReadyLeft(record.run, allowCrossed) <= 30
      modifies Parts()
      ensures Valid() && resultReady == old(resultReady)
      ensures record.run.accepted == old(record).run.accepted && record.banks == old(record).banks
      ensures !timedOut && record.run.regs.inFlight && StageIn(record.run) == Pipeline.Emitted
    {
      var waited := 0;
      while waited < CYCLE_LIMIT
        invariant Valid() && resultReady == old(resultReady)
        invariant record.run.accepted == old(record).run.accepted && record.banks == old(record).banks
        invariant record.run.regs.inFlight && StageIn(record.run) != Pipeline.Emitted
        invariant 2 <= ReadyLeft(record.run, allowCrossed) <= 30 - waited
      {
        FlightTick();
        waited := waited + 1;
        if dut.core.eventDone { return false; }
      }
      return true;
    }

    /** One event through a ready adapter, up to its done pulse. */
    method RunEvent(event: RtlEvent) returns (timedOut: bool)
      requires Valid() && InReady(record.run.regs)
      modifies Parts()
      ensures Valid() && resultReady == old(resultReady) && !timedOut
      ensures record.run.accepted == old(record).run.accepted + [event]
      ensures record.banks == old(record).banks + [ActiveParameters(BanksOf(old(record)))]
      ensures record.run.regs.inFlight && StageIn(record.run) == Pipeline.Emitted
    {
      AcceptTick(event);
      timedOut := ClockUntilDone();
    }

    /** The snapshot taken at the done pulse is the reference model's answer. */
    method Answer()
      requires Valid() && record.run.regs.inFlight && StageIn(record.run) == Pipeline.Emitted
      modifies `completedEvents, `latest
      ensures Valid() && record == old(record) && resultReady == old(resultReady)
      ensures |record.run.accepted| == |record.banks| > 0
      ensures Answered(latest, record.run.accepted, record.banks, allowCrossed)
    {
      DoneShows(record, allowCrossed);
      ShowResult();
    }

    /** One event through a ready adapter, and its answer. */
    method ProcessReady(event: RtlEvent) returns (timedOut: bool)
      requires Valid() && InReady(record.run.regs)
      modifies Parts()
      ensures Valid() && resultReady == old(resultReady) && !timedOut
      ensures record.run.accepted == old(record).run.accepted + [event]
      ensures record.banks == old(record).banks + [ActiveParameters(BanksOf(old(record)))]
      ensures |record.run.accepted| == |record.banks|
      ensures Answered(latest, record.run.accepted, record.banks, allowCrossed)
    {
      timedOut := RunEvent(event);
      Answer();
    }

    /** `process`: one event in, its completed snapshot out. It gives up exactly when the wait
        does; otherwise the snapshot is the reference model's answer under the parameters
        that were active before the call. */
    method Process(event: RtlEvent) returns (timedOut: bool)
      requires Valid()
      modifies Parts()
      ensures Valid() && resultReady == old(resultReady)
      ensures timedOut <==> !resultReady && !InReady(old(record).run.regs)
      ensures !timedOut ==> record.run.accepted == old(record).run.accepted + [event]
      ensures !timedOut ==> record.banks == old(record).banks + [ActiveParameters(BanksOf(old(record)))]
      ensures !timedOut ==> |record.run.accepted| == |record.banks|
      ensures !timedOut ==> Answered(latest, record.run.accepted, record.banks, allowCrossed)
    {
      timedOut := WaitUntilReady();
      if !timedOut { timedOut := ProcessReady(event); }
    }

    /** One tick with nothing offered to a ready adapter: the strategy alone may move. */
    method QuietTick(write: Option<Strategy.Write>, commit: bool)
      requires Valid() && InReady(record.run.regs)
      modifies Parts()
      ensures Valid() && InReady(record.run.regs) && resultReady == old(resultReady)
      ensures record.run.accepted == old(record).run.accepted && record.run.taken == old(record).run.taken
      ensures record.banks == old(record).banks
      ensures BanksTick(BanksOf(old(record)), write, commit, BanksOf(record))
    {
      Tick(false, NO_EVENT, write, commit);
      IdleOneMore(old(record), Input(false, NO_EVENT, resultReady, write, commit), record, allowCrossed);
    }

    /** One parameter word: wait until ready, a write tick and an inactive tick. */
    method WriteWord(w: Strategy.Write) returns (timedOut: bool)
      requires Valid()
      modifies Parts()
      ensures Valid() && resultReady == old(resultReady)
      ensures timedOut <==> !resultReady && !InReady(old(record).run.regs)
      ensures timedOut <==> !InReady(record.run.regs)
      ensures record.run.accepted == old(record).run.accepted && record.banks == old(record).banks
      ensures InReady(old(record).run.regs) ==> record.run.taken == old(record).run.taken
      ensures timedOut ==> SameBanks(BanksOf(old(record)), BanksOf(record))
      ensures !timedOut ==> BanksTick(BanksOf(old(record)), Some(w), false, BanksOf(record))
    {
      timedOut := WaitUntilReady();
      if timedOut { return; }
      QuietTick(Some(w), false);
      QuietTick(None, false);
    }

    /** `write_model_parameters`: ten writes, each after waiting until ready, then one commit
        that always takes. It throws exactly when the first wait does. */
    method WriteModelParameters(p: Strategy.Parameters) returns (threw: bool)
      requires Valid()
      modifies Parts()
      ensures Valid() && resultReady == old(resultReady)
      ensures threw <==> !resultReady && !InReady(old(record).run.regs)
      ensures record.run.accepted == old(record).run.accepted && record.banks == old(record).banks
      ensures InReady(old(record).run.regs) ==> record.run.taken == old(record).run.taken
      ensures threw ==> SameBanks(BanksOf(old(record)), BanksOf(record))
      ensures !threw ==> InReady(record.run.regs) && ActiveParameters(BanksOf(record)) == p
      ensures !threw ==> BanksOf(record).updateCount == BanksOf(old(record)).updateCount + 1
    {
      var previous := dut.core.strategy.updateCount;
      threw := UploadWords(p);
      if !threw {
        CommitWords(p);
        threw := NotActive(p, previous);
      }
    }

    /** Read back what the commit was for. */
    method NotActive(p: Strategy.Parameters, previous: nat) returns (threw: bool)
      requires Valid()
      modifies `latest
      ensures Valid() && record == old(record) && resultReady == old(resultReady)
      ensures threw == (BanksOf(record).version != p.version || BanksOf(record).updateCount != previous + 1)
    {
      TakeSnapshot();
      threw := latest.version != p.version || latest.updateCount != previous + 1;
    }

    method UploadWords(p: Strategy.Parameters) returns (threw: bool)
      requires Valid()
      modifies Parts()
      ensures Valid() && resultReady == old(resultReady)
      ensures threw <==> !resultReady && !InReady(old(record).run.regs)
      ensures record.run.accepted == old(record).run.accepted && record.banks == old(record).banks
      ensures InReady(old(record).run.regs) ==> record.run.taken == old(record).run.taken
      ensures threw ==> SameBanks(BanksOf(old(record)), BanksOf(record))
      ensures !threw ==> InReady(record.run.regs) && Uploaded(BanksOf(record).shadow, p, Strategy.WORDS)
      ensures BanksOf(record).updateCount == BanksOf(old(record)).updateCount
    {
      for index := 0 to Strategy.WORDS
        invariant Valid() && resultReady == old(resultReady)
        invariant record.run.accepted == old(record).run.accepted && record.banks == old(record).banks
        invariant InReady(old(record).run.regs) ==> record.run.taken == old(record).run.taken
        invariant if index == 0 then record == old(record)
                  else InReady(record.run.regs) && (resultReady || InReady(old(record).run.regs))
        invariant Uploaded(BanksOf(record).shadow, p, index)
        invariant BanksOf(record).updateCount == BanksOf(old(record)).updateCount
      {
        UploadOne(BanksOf(record).shadow, p, index);
        threw := WriteWord(Strategy.Write(index, Strategy.BankWord(p.bank, index), p.version));
        if threw { return; }
      }
      threw := WaitUntilReady();
    }

    /** The commit tick and an inactive tick. */
    method CommitWords(p: Strategy.Parameters)
      requires Valid() && InReady(record.run.regs) && Uploaded(BanksOf(record).shadow, p, Strategy.WORDS)
      modifies Parts()
      ensures Valid() && InReady(record.run.regs) && resultReady == old(resultReady)
      ensures record.run.accepted == old(record).run.accepted && record.run.taken == old(record).run.taken
      ensures record.banks == old(record).banks && ActiveParameters(BanksOf(record)) == p
      ensures BanksOf(record).updateCount == BanksOf(old(record)).updateCount + 1
    {
      AllWordsWritten(BanksOf(record).shadow, p);
      QuietTick(None, true);
      QuietTick(None, false);
    }
  }

  lemma {:induction false} RecordReady(r: Record, allowCrossed: bool)
    requires Recorded(r, allowCrossed)
    ensures 0 <= ReadyLeft(r.run, allowCrossed) <= 30
    ensures ReadyLeft(r.run, allowCrossed) == 0 <==> InReady(r.run.regs)
  {
    RecordStreams(r, allowCrossed);
    ReadyWhenNoneLeft(r.run, allowCrossed);
  }
}
