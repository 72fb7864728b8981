/** src/verilator/verilator_worker.cpp together with the ring's consumer, the publisher of
    model updates and whoever requests a stop: the worker's loop is cut at its shared
    accesses, and any schedule may run the other threads' calls between two cuts. */
module VerilatorWorker {
  import opened MarketTypes
  import opened StreamAdapter
  import opened SignalPath
  import opened ModelMailbox
  import Strategy
  import SpscRing
  import VerilatorRunner

  /** Where the worker's thread stands inside its loop: the next shared access to make. */
  datatype Phase =
    | AtTop
    | Prepared(accept: bool)
    | Clocked(accept: bool, inputAccepted: bool, resultAccepted: bool)
    | Draining
    | AskingClosed
    | AskingUpdate
    | Idling
    | Stopped
    | Finished
    | Threw

  /** What the slot about to be written holds. */
  ghost function SlotContent(r: SpscRing.Ring<Result>): Result
    requires |r.slots| > 0
  {
    r.slots[r.writePosition % |r.slots|]
  }

  /** The adapter's run against the worker's own counter and the ring. */
  ghost predicate Tracks(phase: Phase, events: seq<RtlEvent>, next: nat, run: Run, ring: SpscRing.Ring<Result>)
    requires |ring.slots| > 0
  {
    next <= |events| &&
    match phase
    case Prepared(accept) =>
      && run.accepted == events[..next] && run.taken == ring.pushed && ring.reserved == accept
      && (accept ==> run.regs.resultValid && SlotContent(ring) == run.regs.result)
    case Clocked(accept, inputAccepted, resultAccepted) =>
      && resultAccepted == accept == ring.reserved && !(accept && inputAccepted)
      && (inputAccepted ==> next < |events|)
      && run.accepted == events[..if inputAccepted then next + 1 else next]
      && run.taken == (if accept then ring.pushed + [SlotContent(ring)] else ring.pushed)
      && (accept ==> |run.accepted| == |run.taken|) && (inputAccepted ==> |run.accepted| == |run.taken| + 1)
    case _ =>
      run.accepted == events[..next] && run.taken == ring.pushed && !ring.reserved
  }

  /** The phases of a worker that has stored `stream_drained`. */
  predicate AfterDrain(phase: Phase) {
    phase.Draining? || phase.AskingClosed? || phase.AskingUpdate? || phase.Idling? || phase.Finished?
  }

  /** Once drained every event has its published result; and a worker that saw its mailbox
      closed and empty leaves it so. */
  ghost predicate Drains(phase: Phase, drained: bool, events: nat, next: nat, published: nat, box: Box) {
    && (AfterDrain(phase) ==> drained)
    && (drained && phase != Stopped ==> next == published == events && !phase.Prepared? && !phase.Clocked?)
    && (phase.AskingUpdate? || phase.Finished? ==> box.closed)
    && (phase.Finished? ==> box.latest == None)
  }

  lemma {:induction false} ExpectedPrefix(events: seq<RtlEvent>, n: nat, k: nat, allowCrossed: bool)
    requires k < n <= |events|
    ensures Expected(events[..n], k, allowCrossed) == Expected(events, k, allowCrossed)
  {
    assert events[..n][..k] == events[..k];
  }

  /** What the published results are, whatever the phase. */
  lemma {:induction false} TracksExpected(phase: Phase, events: seq<RtlEvent>, next: nat, r: VerilatorRunner.Record,
                                          ring: SpscRing.Ring<Result>, allowCrossed: bool)
    requires |ring.slots| > 0 && Tracks(phase, events, next, r.run, ring)
    requires VerilatorRunner.Recorded(r, allowCrossed)
    ensures |ring.pushed| <= next <= |ring.pushed| + 1
    ensures AllExpected(ring.pushed, events, allowCrossed)
  {
    VerilatorRunner.RecordOutstanding(r, allowCrossed);
    forall k | 0 <= k < |ring.pushed| ensures ring.pushed[k] == Expected(events, k, allowCrossed) {
      assert r.run.taken[k] == ring.pushed[k];
      ExpectedPrefix(events, |r.run.accepted|, k, allowCrossed);
    }
  }

  /** The one clock of an iteration, on a run with at most one result outstanding. */
  lemma {:induction false} ClockTracks(accept: bool, events: seq<RtlEvent>, next: nat, t: Run, u: Run,
                                       ring: SpscRing.Ring<Result>, inputAccepted: bool, resultAccepted: bool)
    requires |ring.slots| > 0 && Tracks(Prepared(accept), events, next, t, ring)
    requires |t.accepted| == |t.taken| + (if t.regs.resultValid || t.regs.inFlight then 1 else 0)
    requires inputAccepted ==> InReady(t.regs) && next < |events|
    requires resultAccepted == (accept && t.regs.resultValid)
    requires u.accepted == if inputAccepted then t.accepted + [events[next]] else t.accepted
    requires u.taken == if resultAccepted then t.taken + [t.regs.result] else t.taken
    ensures Tracks(Clocked(accept, inputAccepted, resultAccepted), events, next, u, ring)
  {
    if inputAccepted { assert events[..next] + [events[next]] == events[..next + 1]; }
  }

  /** A call of the consumer is nothing to the worker. */
  lemma {:induction false} ConsumerTracks(phase: Phase, events: seq<RtlEvent>, next: nat, run: Run,
                                          ring: SpscRing.Ring<Result>, call: SpscRing.Call<Result>)
    requires |ring.slots| > 0 && Tracks(phase, events, next, run, ring) && (call.TryBegin? || call.FinishPop?)
    ensures |SpscRing.Next(ring, call).slots| > 0 && Tracks(phase, events, next, run, SpscRing.Next(ring, call))
    ensures SpscRing.Next(ring, call).pushed == ring.pushed
  {
  }

  function ParametersOf(u: ModelUpdate): Strategy.Parameters {
    Strategy.Parameters(u.bank, u.version)
  }

  /** A step of some thread: the worker's next phase, or a call of one of the others. */
  datatype Move =
    | WorkerMoves(seesStop: bool, timesOut: bool, loaded: nat)
    | ConsumerBegins(seen: nat) | ConsumerFinishes
    | Publishes(update: ModelUpdate) | Closes | RequestsStop

  class Worker {
    const events: seq<RtlEvent>
    const runner: VerilatorRunner.Runner
    const ring: SpscRing.Buffer<Result>
    const mailbox: Mailbox
    var nextEvent: nat
    var inputEventsAccepted: nat
    var resultsPublished: nat
    var errorEvents: nat
    var updatesApplied: nat
    var streamDrained: bool
    var stopRequested: bool
    var activeParameters: Strategy.Parameters
    var phase: Phase

    ghost function Parts(): set<object> {
      {this, ring, ring.storage, mailbox} + runner.Parts()
    }

    ghost predicate Separate() {
      && this !in runner.Parts() && ring !in runner.Parts() && ring.storage !in runner.Parts()
      && mailbox !in runner.Parts()
      && this as object != ring && this as object != ring.storage && this as object != mailbox
      && ring as object != ring.storage && ring as object != mailbox && ring.storage as object != mailbox
    }

    ghost predicate Valid()
      reads Parts()
    {
      ValidAt(phase)
    }

    /** The invariant for a worker that stands, or is about to stand, in the given phase. */
    ghost predicate ValidAt(p: Phase)
      reads ring, ring.storage, mailbox, runner.Parts()
      reads `nextEvent, `inputEventsAccepted, `resultsPublished, `streamDrained, `activeParameters
    {
      && Separate() && runner.Valid() && ring.Valid()
      && nextEvent == inputEventsAccepted && resultsPublished == |ring.pushed|
      && Tracks(p, events, nextEvent, runner.record.run, ring.Value())
      && ActiveParameters(VerilatorRunner.BanksOf(runner.record)) == activeParameters
      && Drains(p, streamDrained, |events|, nextEvent, |ring.pushed|, mailbox.Value())
    }

    method MoveTo(p: Phase)
      requires ValidAt(p)
      modifies `phase
      ensures Valid() && phase == p
    {
      phase := p;
    }

    constructor (events: seq<RtlEvent>, allowCrossed: bool, initial: Strategy.Parameters,
                 ring: SpscRing.Buffer<Result>, mailbox: Mailbox)
      requires ring.Valid() && ring.pushed == [] && !ring.producerHasReservation
      requires ring as object != mailbox && ring.storage as object != mailbox && ring as object != ring.storage
      ensures Valid() && fresh(runner.Parts()) && phase == AtTop && !streamDrained && !stopRequested
      ensures this.events == events && this.ring == ring && this.mailbox == mailbox
      ensures runner.allowCrossed == allowCrossed && activeParameters == initial
    {
      this.events, this.ring, this.mailbox := events, ring, mailbox;
      runner := new VerilatorRunner.Runner(allowCrossed);
      nextEvent, inputEventsAccepted, resultsPublished := 0, 0, 0;
      errorEvents, updatesApplied, streamDrained, stopRequested := 0, 0, false, false;
      activeParameters := initial;
      phase := AtTop;
      new;
      Start(initial);
    }

    /** The parameters used until the first update. */
    method Start(initial: Strategy.Parameters)
      requires Separate() && runner.Valid() && runner.record == VerilatorRunner.NO_RECORD
      requires ring.Valid() && ring.pushed == [] && !ring.producerHasReservation
      requires nextEvent == inputEventsAccepted == resultsPublished == 0
      requires phase == AtTop && !streamDrained && !stopRequested
      modifies runner.Parts(), `activeParameters
      ensures Valid() && activeParameters == initial && phase == AtTop && !streamDrained && !stopRequested
    {
      Upload(initial);
    }

    // ---------- The three shared objects, one at a time ----------

    /** Upload parameters to an idle adapter. */
    method Upload(p: Strategy.Parameters)
      requires Separate() && runner.Valid() && ring.Valid() && InReady(runner.record.run.regs)
      modifies runner.Parts(), `activeParameters
      ensures runner.Valid() && InReady(runner.record.run.regs) && activeParameters == p
      ensures runner.record.run.accepted == old(runner.record).run.accepted
      ensures runner.record.run.taken == old(runner.record).run.taken
      ensures ActiveParameters(VerilatorRunner.BanksOf(runner.record)) == p
      ensures ring.Valid() && ring.Value() == old(ring.Value()) && mailbox.Value() == old(mailbox.Value())
    {
      activeParameters := p;
      var threw := runner.WriteModelParameters(p);
      assert !threw;
    }

    /** What the rest of the program may rely on in every phase: the published results are
        the events' own, in input order, at most one behind; and no commit so far fell
        between an event's acceptance and its evaluation. */
    lemma {:induction false} StreamSafety()
      requires Valid()
      ensures |ring.pushed| <= nextEvent <= |ring.pushed| + 1
      ensures AllExpected(ring.pushed, events, runner.allowCrossed) && ring.popped <= ring.pushed
      ensures streamDrained && phase != Stopped ==> |ring.pushed| == |events|
      ensures CommitsAtBoundaries(runner.record.inputs, runner.allowCrossed)
    {
      TracksExpected(phase, events, nextEvent, runner.record, ring.Value(), runner.allowCrossed);
    }

    /** Clock the adapter once. */
    method StepRunner(offered: Option<RtlEvent>, accept: bool) returns (inputAccepted: bool, resultAccepted: bool)
      requires Separate() && runner.Valid() && ring.Valid()
      modifies runner.Parts()
      ensures runner.Valid()
      ensures inputAccepted == (offered.Some? && InReady(old(runner.record).run.regs))
      ensures resultAccepted == (accept && old(runner.record).run.regs.resultValid)
      ensures runner.record.run.accepted == if inputAccepted then old(runner.record).run.accepted + [offered.value]
                                            else old(runner.record).run.accepted
      ensures runner.record.run.taken ==
              if resultAccepted then old(runner.record).run.taken + [old(runner.record).run.regs.result]
              else old(runner.record).run.taken
      ensures ActiveParameters(VerilatorRunner.BanksOf(runner.record)) ==
              ActiveParameters(VerilatorRunner.BanksOf(old(runner.record)))
      ensures ring.Valid() && ring.Value() == old(ring.Value()) && mailbox.Value() == old(mailbox.Value())
    {
      inputAccepted, resultAccepted := runner.Step(offered, accept);
    }

    /** The newest update, if there is one. */
    method TakeUpdate() returns (update: Option<ModelUpdate>)
      requires Separate() && runner.Valid() && ring.Valid()
      modifies mailbox
      ensures runner.Valid() && runner.record == old(runner.record)
      ensures ring.Valid() && ring.Value() == old(ring.Value())
      ensures update == old(mailbox.latestUpdate) && mailbox.Value() == Box(None, old(mailbox.isClosed))
    {
      update := mailbox.Take();
    }

    /** Publish the reserved slot. */
    method PublishReserved()
      requires Separate() && runner.Valid() && ring.Valid() && ring.producerHasReservation
      requires resultsPublished == |ring.pushed|
      modifies ring, `resultsPublished
      ensures resultsPublished == |ring.pushed|
      ensures ring.popped == old(ring.popped)
      ensures runner.Valid() && runner.record == old(runner.record) && mailbox.Value() == old(mailbox.Value())
      ensures ring.Valid() && !ring.producerHasReservation
      ensures ring.pushed == old(ring.pushed + [SlotContent(ring.Value())])
    {
      resultsPublished := resultsPublished + 1;
      var threw := ring.PublishPush();
    }

    /** Reserve a slot if the ring has room, and write the result into it. */
    method ReserveAndWrite(loaded: nat, result: Result) returns (accept: bool)
      requires ring.Valid() && !ring.producerHasReservation
      requires SpscRing.LoadOk(ring.Value(), SpscRing.TryReserve(loaded))
      modifies `errorEvents, ring, ring.storage
      ensures ring.Valid() && ring.pushed == old(ring.pushed) && ring.popped == old(ring.popped)
      ensures ring.producerHasReservation == accept
      ensures accept ==> SlotContent(ring.Value()) == result
      ensures errorEvents == old(errorEvents) + if accept && result.error != NoError then 1 else 0
    {
      var slot, threw := ring.TryReservePush(loaded);
      accept := slot.Some?;
      if accept {
        if result.error != NoError { errorEvents := errorEvents + 1; }
        ring.Write(slot.value, result);
      }
    }

    predicate HasWork()
      requires Valid()
      reads Parts()
    {
      nextEvent < |events| || resultsPublished < inputEventsAccepted || runner.dut.resultValid
    }

    /** The same, beside a runner that it leaves alone. */
    method Reserve(loaded: nat, result: Result) returns (accept: bool)
      requires Separate() && runner.Valid() && ring.Valid() && !ring.producerHasReservation
      requires SpscRing.LoadOk(ring.Value(), SpscRing.TryReserve(loaded))
      modifies `errorEvents, ring, ring.storage
      ensures runner.Valid() && runner.record == old(runner.record) && mailbox.Value() == old(mailbox.Value())
      ensures runner.dut.resultValid == old(runner.dut.resultValid)
      ensures ring.Valid() && ring.pushed == old(ring.pushed) && ring.popped == old(ring.popped)
      ensures ring.producerHasReservation == accept
      ensures accept ==> SlotContent(ring.Value()) == result
      ensures errorEvents == old(errorEvents) + if accept && result.error != NoError then 1 else 0
    {
      accept := ReserveAndWrite(loaded, result);
    }

    method PrepareHeld(loaded: nat) returns (accept: bool)
      requires ValidAt(AtTop) && !streamDrained && runner.dut.resultValid
      requires SpscRing.LoadOk(ring.Value(), SpscRing.TryReserve(loaded))
      modifies `errorEvents, ring, ring.storage
      ensures ValidAt(Prepared(accept)) && ring.pushed == old(ring.pushed) && ring.popped == old(ring.popped)
      ensures errorEvents == old(errorEvents) + if accept && runner.dut.result.error != NoError then 1 else 0
    {
      accept := Reserve(loaded, runner.dut.result);
    }

    /** Loop top with work to do: reserve a slot for a held result, if there is one and
        the ring has room, and decode the result straight into it. */
    method Prepare(loaded: nat)
      requires Valid() && phase == AtTop && HasWork()
      requires SpscRing.LoadOk(ring.Value(), SpscRing.TryReserve(loaded))
      modifies `phase, `errorEvents, ring, ring.storage
      ensures Valid() && phase.Prepared? && ring.pushed == old(ring.pushed) && ring.popped == old(ring.popped)
    {
      NotDrained();
      var accept := false;
      if runner.dut.resultValid { accept := PrepareHeld(loaded); }
      MoveTo(Prepared(accept));
    }

    lemma {:induction false} NotDrained()
      requires Valid() && HasWork()
      ensures phase != Stopped ==> !streamDrained
    {
      VerilatorRunner.RecordOutstanding(runner.record, runner.allowCrossed);
    }

    /** `apply_waiting_model_update`: take the newest update, check it, upload it. It throws
        exactly on an update the check refuses. */
    method ApplyWaitingUpdate(p: Phase) returns (threw: bool)
      requires ValidAt(p) && InReady(runner.record.run.regs) && (p == Prepared(false) || p == Draining)
      modifies mailbox, runner.Parts(), `activeParameters, `updatesApplied
      ensures ValidAt(p) && ValidAt(Threw)
      ensures mailbox.Value() == Box(None, old(mailbox.isClosed))
      ensures threw == (old(mailbox.latestUpdate).Some? &&
                        (old(mailbox.latestUpdate).value.version <= old(activeParameters).version ||
                         old(mailbox.latestUpdate).value.bank.buy <= old(mailbox.latestUpdate).value.bank.sell))
      ensures activeParameters == if threw || old(mailbox.latestUpdate).None? then old(activeParameters)
                                  else ParametersOf(old(mailbox.latestUpdate).value)
      ensures runner.record.run.accepted == old(runner.record).run.accepted
      ensures runner.record.run.taken == old(runner.record).run.taken
      ensures updatesApplied == old(updatesApplied) + if threw || old(mailbox.latestUpdate).None? then 0 else 1
    {
      var update := TakeUpdate();
      threw := false;
      if update.Some? {
        threw := Validate(update.value, activeParameters.version).Some?;
        if !threw {
          Activate(p, ParametersOf(update.value));
          CountApplied(p);
        }
      }
    }

    method Activate(p: Phase, parameters: Strategy.Parameters)
      requires ValidAt(p) && InReady(runner.record.run.regs)
      requires p == Prepared(false) || p == Draining
      modifies runner.Parts(), `activeParameters
      ensures ValidAt(p) && activeParameters == parameters && mailbox.Value() == old(mailbox.Value())
      ensures runner.record.run.accepted == old(runner.record).run.accepted
      ensures runner.record.run.taken == old(runner.record).run.taken
    {
      Upload(parameters);
    }

    method CountApplied(p: Phase)
      requires ValidAt(p)
      modifies `updatesApplied
      ensures ValidAt(p) && runner.record == old(runner.record) && mailbox.Value() == old(mailbox.Value())
      ensures updatesApplied == old(updatesApplied) + 1
    {
      updatesApplied := updatesApplied + 1;
    }

    /** Updates are applied only while nothing is held and the input is ready. */
    method MaybeUpdate()
      requires Valid() && phase.Prepared?
      modifies `phase, mailbox, runner.Parts(), `activeParameters, `updatesApplied
      ensures Valid() && (phase == Threw || phase == old(phase))
    {
      if !runner.dut.resultValid && runner.InputReady() {
        var threw := ApplyWaitingUpdate(phase);
        if threw { MoveTo(Threw); }
      }
    }

    method ClockAt(accept: bool) returns (inputAccepted: bool, resultAccepted: bool)
      requires ValidAt(Prepared(accept))
      modifies runner.Parts()
      ensures ValidAt(Clocked(accept, inputAccepted, resultAccepted)) && resultAccepted == accept
    {
      ghost var before := runner.record.run;
      VerilatorRunner.RecordOutstanding(runner.record, runner.allowCrossed);
      inputAccepted, resultAccepted := StepRunner(if nextEvent < |events| then Some(events[nextEvent]) else None, accept);
      ClockTracks(accept, events, nextEvent, before, runner.record.run, ring.Value(), inputAccepted, resultAccepted);
    }

    /** The one clock of the iteration. */
    method Clock()
      requires Valid() && phase.Prepared?
      modifies `phase, runner.Parts()
      ensures Valid() && phase.Clocked? && phase.accept == old(phase).accept && phase.resultAccepted == phase.accept
    {
      var accept := phase.accept;
      var inputAccepted, resultAccepted := ClockAt(accept);
      MoveTo(Clocked(accept, inputAccepted, resultAccepted));
    }

    method PublishHeld(inputAccepted: bool)
      requires ValidAt(Clocked(true, inputAccepted, true))
      modifies ring, `resultsPublished
      ensures ValidAt(Clocked(false, inputAccepted, false))
      ensures ring.popped == old(ring.popped) && old(ring.pushed) <= ring.pushed
    {
      PublishReserved();
    }

    /** The source's other branch, which cancels the reservation because the result
        disappeared, cannot be reached. */
    method PublishIfAccepted(p: Phase)
      requires p.Clocked? && ValidAt(p)
      modifies ring, `resultsPublished
      ensures ValidAt(Clocked(false, p.inputAccepted, false))
      ensures ring.popped == old(ring.popped) && old(ring.pushed) <= ring.pushed
    {
      if p.accept {
        if !p.resultAccepted { assert false; }
        PublishHeld(p.inputAccepted);
      }
    }

    method CountInput(inputAccepted: bool)
      requires ValidAt(Clocked(false, inputAccepted, false))
      modifies `nextEvent, `inputEventsAccepted
      ensures ValidAt(AtTop)
    {
      if inputAccepted { nextEvent, inputEventsAccepted := nextEvent + 1, inputEventsAccepted + 1; }
    }

    /** Publish the reserved slot, if there is one, and count. */
    method Finish()
      requires Valid() && phase.Clocked?
      modifies `phase, ring, `resultsPublished, `nextEvent, `inputEventsAccepted
      ensures Valid() && phase == AtTop
      ensures ring.popped == old(ring.popped) && old(ring.pushed) <= ring.pushed
    {
      PublishIfAccepted(phase);
      CountInput(phase.inputAccepted);
      MoveTo(AtTop);
    }

    // ---------- The worker's loop once the stream is drained ----------

    /** Loop top without work. */
    method BeginDrain()
      requires Valid() && phase == AtTop && !HasWork()
      modifies `phase, `streamDrained
      ensures Valid() && phase == Draining
    {
      StreamSafety();
      StoreDrained(Draining);
    }

    method StoreDrained(p: Phase)
      requires ValidAt(AtTop)
      requires p == Stopped || (p == Draining && nextEvent == |events| == |ring.pushed|)
      modifies `streamDrained, `phase
      ensures Valid() && phase == p && streamDrained
    {
      streamDrained, phase := true, p;
    }

    /** A last update may still arrive. */
    method DrainUpdate()
      requires Valid() && phase == Draining
      modifies `phase, mailbox, runner.Parts(), `activeParameters, `updatesApplied
      ensures Valid() && (phase == Threw || phase == AskingClosed)
    {
      DrainedIsReady();
      var threw := ApplyWaitingUpdate(Draining);
      MoveTo(if threw then Threw else AskingClosed);
    }

    lemma {:induction false} DrainedIsReady()
      requires Valid() && phase == Draining
      ensures InReady(runner.record.run.regs)
    {
      VerilatorRunner.RecordOutstanding(runner.record, runner.allowCrossed);
    }

    method AskClosed()
      requires Valid() && phase == AskingClosed
      modifies `phase
      ensures Valid() && phase == if mailbox.isClosed then AskingUpdate else Idling
    {
      MoveTo(if mailbox.isClosed then AskingUpdate else Idling);
    }

    method AskUpdate()
      requires Valid() && phase == AskingUpdate
      modifies `phase
      ensures Valid() && phase == if mailbox.latestUpdate.Some? then Idling else Finished
    {
      MoveTo(if mailbox.latestUpdate.Some? then Idling else Finished);
    }

    method IdleStep()
      requires Valid() && phase == Idling
      modifies `phase, runner.Parts()
      ensures Valid() && phase == AtTop
    {
      var inputAccepted, resultAccepted := StepRunner(None, false);
      MoveTo(AtTop);
    }

    method LeaveOnStop()
      requires Valid() && phase == AtTop && stopRequested
      modifies `phase, `streamDrained
      ensures Valid() && phase == Stopped && streamDrained
    {
      StoreDrained(Stopped);
    }

    /** The ring stayed full for too long. */
    method TimeOut()
      requires Valid() && phase == Prepared(false) && runner.dut.resultValid
      modifies `phase
      ensures Valid() && phase == Threw
    {
      MoveTo(Threw);
    }

    // ---------- Calls of the other threads, between any two cuts ----------

    method BeginRead(loaded: nat) returns (value: Option<Result>)
      requires Separate() && runner.Valid() && ring.Valid() && !ring.consumerHasValue
      requires SpscRing.LoadOk(ring.Value(), SpscRing.TryBegin(loaded))
      modifies ring
      ensures runner.Valid() && runner.record == old(runner.record) && mailbox.Value() == old(mailbox.Value())
      ensures ring.Valid() && ring.Value() == SpscRing.Next(old(ring.Value()), SpscRing.TryBegin(loaded))
      ensures value.Some? ==> |ring.popped| < |ring.pushed| && value.value == ring.pushed[|ring.popped|]
    {
      var threw;
      value, threw := ring.TryBeginPop(loaded);
    }

    method FinishRead()
      requires Separate() && runner.Valid() && ring.Valid() && ring.consumerHasValue
      modifies ring
      ensures runner.Valid() && runner.record == old(runner.record) && mailbox.Value() == old(mailbox.Value())
      ensures ring.Valid() && ring.Value() == SpscRing.Next(old(ring.Value()), SpscRing.FinishPop)
    {
      var threw := ring.FinishPopped();
    }

    /** What the consumer reads is the expected result of the next event. */
    method ConsumerReads(loaded: nat) returns (value: Option<Result>)
      requires Valid() && !ring.consumerHasValue
      requires SpscRing.LoadOk(ring.Value(), SpscRing.TryBegin(loaded))
      modifies ring
      ensures Valid() && ring.pushed == old(ring.pushed) && ring.popped == old(ring.popped)
      ensures value.Some? ==>
        |ring.popped| < |events| && value.value == Expected(events, |ring.popped|, runner.allowCrossed) &&
        value.value.index == |ring.popped|
    {
      ConsumerTracks(phase, events, nextEvent, runner.record.run, ring.Value(), SpscRing.TryBegin(loaded));
      StreamSafety();
      value := BeginRead(loaded);
    }

    method ConsumerReleases()
      requires Valid() && ring.consumerHasValue
      modifies ring
      ensures Valid() && ring.pushed == old(ring.pushed) && |ring.popped| == |old(ring.popped)| + 1
      ensures old(ring.popped) <= ring.popped
    {
      ConsumerTracks(phase, events, nextEvent, runner.record.run, ring.Value(), SpscRing.FinishPop);
      FinishRead();
    }

    method PublisherPublishes(u: ModelUpdate) returns (refusal: Option<Refusal>)
      requires Valid()
      modifies mailbox
      ensures Valid() && refusal == PublishRefusal(old(mailbox.Value()), u)
      ensures mailbox.Value() == if refusal.None? then Box(Some(u), false) else old(mailbox.Value())
    {
      refusal := mailbox.Publish(u);
    }

    method PublisherCloses()
      requires Valid()
      modifies mailbox
      ensures Valid() && mailbox.Value() == Box(old(mailbox.latestUpdate), true)
    {
      mailbox.Close();
    }

    method RequestStop()
      requires Valid()
      modifies `stopRequested
      ensures Valid()
    {
      stopRequested := true;
    }

    // ---------- Any schedule ----------

    /** The worker's thread makes its next shared access and runs up to the one after. */
    method WorkerMoves(seesStop: bool, timesOut: bool, loaded: nat)
      requires Valid()
      modifies Parts()
      ensures Valid() && ring.popped == old(ring.popped) && old(ring.pushed) <= ring.pushed
    {
      match phase
      case AtTop => AtLoopTop(seesStop, loaded);
      case Prepared(accept) =>
        if timesOut && !accept && runner.dut.resultValid {
          TimeOut();
        } else {
          MaybeUpdate();
          if phase.Prepared? { Clock(); }
        }
      case Clocked(_, _, _) => Finish();
      case Draining => DrainUpdate();
      case AskingClosed => AskClosed();
      case AskingUpdate => AskUpdate();
      case Idling => IdleStep();
      case Stopped =>
      case Finished =>
      case Threw =>
    }

    method AtLoopTop(seesStop: bool, loaded: nat)
      requires Valid() && phase == AtTop
      modifies Parts()
      ensures Valid() && ring.popped == old(ring.popped) && ring.pushed == old(ring.pushed)
    {
      if seesStop && stopRequested {
        LeaveOnStop();
      } else if !HasWork() {
        BeginDrain();
      } else if ring.seenReleased <= loaded <= ring.releasedReadPosition {
        Prepare(loaded);
      }
    }

    /** One of the other threads makes its call. */
    method OthersMove(m: Move)
      requires Valid() && !m.WorkerMoves?
      modifies Parts()
      ensures Valid() && ring.pushed == old(ring.pushed) && old(ring.popped) <= ring.popped
    {
      match m
      case ConsumerBegins(seen) =>
        if !ring.consumerHasValue && ring.seenPublished <= seen <= ring.publishedWritePosition {
          var value := ConsumerReads(seen);
        }
      case ConsumerFinishes => if ring.consumerHasValue { ConsumerReleases(); }
      case Publishes(update) => var refusal := PublisherPublishes(update);
      case Closes => PublisherCloses();
      case RequestsStop => RequestStop();
    }

    /** Every schedule of the four threads, stale loads included (a move that is not possible
        where it stands is no move): what is published and read only grows, it is the events'
        own results in order, and a worker that finishes has published them all and leaves
        its mailbox closed and empty. */
    method Play(moves: seq<Move>)
      requires Valid()
      modifies Parts()
      ensures Valid() && old(ring.pushed) <= ring.pushed && old(ring.popped) <= ring.popped <= ring.pushed
      ensures AllExpected(ring.pushed, events, runner.allowCrossed)
      ensures phase == Finished ==> |ring.pushed| == |events| && mailbox.Value() == Box(None, true)
      ensures CommitsAtBoundaries(runner.record.inputs, runner.allowCrossed)
    {
      for k := 0 to |moves|
        invariant Valid() && old(ring.pushed) <= ring.pushed && old(ring.popped) <= ring.popped
      {
        match moves[k]
        case WorkerMoves(seesStop, timesOut, loaded) => WorkerMoves(seesStop, timesOut, loaded);
        case _ => OthersMove(moves[k]);
      }
      StreamSafety();
    }
  }
}
