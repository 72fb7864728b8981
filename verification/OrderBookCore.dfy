/** The registers of rtl/order_book.sv as an object clocked in place, and the
    drivers that push one event through it. */
module OrderBookCore {
  import opened MarketTypes
  import opened BookModel
  import opened OrderBookRtl

  class OrderBook {
    const allowCrossed: bool
    var state: State
    var currentEvent: RtlEvent
    var shiftIndex: nat
    var operationChangesBook: bool
    var scanIndex: nat
    var matchIndex: nat
    var insertIndex: nat
    var matchFound: bool
    var insertFound: bool
    var eventDone: bool
    var eventError: BookError
    var orderFlowDelta: int
    var tradeFlowDelta: int
    const bids: array<Level>
    const asks: array<Level>
    const workBids: array<Level>
    const workAsks: array<Level>

    ghost predicate Valid() {
      && bids.Length == asks.Length == workBids.Length == workAsks.Length == DEPTH
      && bids != asks && bids != workBids && bids != workAsks
      && asks != workBids && asks != workAsks && workBids != workAsks
    }

    ghost function Memories(): set<object> {
      {this, bids, asks, workBids, workAsks}
    }

    /** All registers as one value. */
    ghost function Value(): Regs
      requires Valid()
      reads Memories()
    {
      Regs(state, currentEvent, Book(bids[..], asks[..]), Book(workBids[..], workAsks[..]),
           shiftIndex, operationChangesBook, scanIndex, matchIndex, insertIndex,
           matchFound, insertFound, eventDone, eventError, orderFlowDelta, tradeFlowDelta)
    }

    constructor (allowCrossed: bool)
      ensures Valid() && fresh(Memories()) && this.allowCrossed == allowCrossed
      ensures Value() == RESET
    {
      this.allowCrossed := allowCrossed;
      bids := new Level[DEPTH](_ => EMPTY);
      asks := new Level[DEPTH](_ => EMPTY);
      workBids := new Level[DEPTH](_ => EMPTY);
      workAsks := new Level[DEPTH](_ => EMPTY);
      state, currentEvent := ST_IDLE, MarketEvent(0, Add, Bid, 0, 0);
      shiftIndex, scanIndex, matchIndex, insertIndex := 0, 0, 0, 0;
      operationChangesBook, matchFound, insertFound, eventDone := false, false, false, false;
      eventError, orderFlowDelta, tradeFlowDelta := NoError, 0, 0;
    }

    method ClearMemory(memory: array<Level>)
      requires memory.Length == DEPTH
      modifies memory
      ensures memory[..] == NO_LEVELS
    {
      for level := 0 to DEPTH
        invariant forall k | 0 <= k < level :: memory[k] == EMPTY
      {
        memory[level] := EMPTY;
      }
    }

    method CopyMemory(from: array<Level>, to: array<Level>)
      requires from.Length == DEPTH == to.Length && from != to
      modifies to
      ensures to[..] == from[..]
    {
      for level := 0 to DEPTH
        invariant forall k | 0 <= k < level :: to[k] == from[k]
      {
        to[level] := from[level];
      }
    }

    /** Write one level of the working side the current event names. */
    method WriteWork(index: nat, level: Level)
      requires Valid()
      modifies workBids, workAsks
      ensures Value() == old(Value().(work := SetWorkLevel(Value(), index, level)))
    {
      if index < DEPTH {
        var work := if currentEvent.side == Bid then workBids else workAsks;
        work[index] := level;
        assert work[..] == old(work[..])[index := level];
      }
    }

    method ReadWork(index: nat) returns (level: Level)
      requires Valid()
      ensures level == WorkLevel(Value(), index)
    {
      if index < DEPTH {
        level := if currentEvent.side == Bid then workBids[index] else workAsks[index];
      } else {
        level := EMPTY;
      }
    }

    method ClearMemories()
      requires Valid()
      modifies bids, asks, workBids, workAsks
      ensures bids[..] == asks[..] == workBids[..] == workAsks[..] == NO_LEVELS
    {
      ClearMemory(bids);
      ClearMemory(asks);
      ClearMemory(workBids);
      ClearMemory(workAsks);
    }

    method Reset()
      requires Valid()
      modifies Memories()
      ensures Value() == RESET
    {
      ClearMemories();
      state, currentEvent := ST_IDLE, MarketEvent(0, Add, Bid, 0, 0);
      shiftIndex, scanIndex, matchIndex, insertIndex := 0, 0, 0, 0;
      operationChangesBook, matchFound, insertFound, eventDone := false, false, false, false;
      eventError, orderFlowDelta, tradeFlowDelta := NoError, 0, 0;
    }

    method Accept(inEvent: RtlEvent)
      requires Valid()
      modifies Memories()
      ensures Value() == old(Value()).(event := inEvent, error := NoError, orderFlow := 0, tradeFlow := 0,
                           changes := false, work := old(Value()).live, state := ST_VALIDATE)
    {
      currentEvent := inEvent;
      eventError, orderFlowDelta, tradeFlowDelta := NoError, 0, 0;
      operationChangesBook := false;
      CopyMemory(bids, workBids);
      CopyMemory(asks, workAsks);
      state := ST_VALIDATE;
    }

    method Commit()
      requires Valid()
      modifies Memories()
      ensures Value() == old(Value()).(
                live := if old(Value()).changes then old(Value()).work else old(Value()).live, state := ST_FINISH)
    {
      if operationChangesBook {
        CopyMemory(workBids, bids);
        CopyMemory(workAsks, asks);
      }
      state := ST_FINISH;
    }

    method ValidateEvent()
      requires Valid()
      modifies this
      ensures var pre := old(Value());
        Value() == if !EventIsWellFormed(pre.event) then pre.(error := InvalidEvent, state := ST_FINISH)
                   else pre.(scanIndex := 0, matchIndex := 0, insertIndex := DEPTH,
                             matchFound := false, insertFound := false, state := ST_SEARCH)
    {
      if !EventIsWellFormed(currentEvent) {
        eventError := InvalidEvent;
        state := ST_FINISH;
      } else {
        scanIndex, matchIndex, insertIndex := 0, 0, DEPTH;
        matchFound, insertFound := false, false;
        state := ST_SEARCH;
      }
    }

    method CheckCross()
      requires Valid()
      modifies this
      ensures var pre := old(Value());
        Value() == if !allowCrossed && Crossed(pre.work)
                   then pre.(error := CrossedBook, orderFlow := 0, tradeFlow := 0, state := ST_FINISH)
                   else pre.(state := ST_COMMIT)
    {
      if !allowCrossed && workBids[0].quantity != 0 && workAsks[0].quantity != 0
         && workBids[0].price >= workAsks[0].price {
        eventError, orderFlowDelta, tradeFlowDelta := CrossedBook, 0, 0;
        state := ST_FINISH;
      } else {
        state := ST_COMMIT;
      }
    }

    method SearchOneLevel()
      requires Valid()
      modifies this
      ensures Value() == SearchEdge(old(Value()))
    {
      if scanIndex == DEPTH {
        state := ST_APPLY;
      } else {
        var level := ReadWork(scanIndex);
        if level.quantity == 0 {
          if !insertFound {
            insertIndex := scanIndex;
            insertFound := true;
          }
        } else if level.price == currentEvent.price {
          matchIndex := scanIndex;
          matchFound := true;
        } else if !insertFound && !Before(currentEvent.side, level.price, currentEvent.price) {
          insertIndex := scanIndex;
          insertFound := true;
        }
        scanIndex := scanIndex + 1;
      }
    }

    /** ST_APPLY, one method an event type. */
    method ApplyEvent()
      requires Valid()
      modifies Memories()
      ensures Value() == ApplyEdge(old(Value()))
    {
      if currentEvent.kind == Add {
        ApplyAdd();
      } else if currentEvent.kind == Update {
        ApplyUpdate();
      } else {
        ApplyTake();
      }
    }

    method ApplyAdd()
      requires Valid() && currentEvent.kind == Add
      modifies Memories()
      ensures Value() == ApplyEdge(old(Value()))
    {
      if matchFound {
        var level := ReadWork(matchIndex);
        var sum := SaturatedAdd(level.quantity, currentEvent.quantity);
        orderFlowDelta := Sign(currentEvent.side) * (sum - level.quantity);
        operationChangesBook := true;
        state := ST_CHECK_CROSS;
        WriteWork(matchIndex, level.(quantity := sum));
      } else if insertIndex == DEPTH {
        state := ST_CHECK_CROSS;
      } else {
        shiftIndex := LAST_INDEX;
        state := ST_SHIFT_RIGHT;
      }
    }

    method ApplyUpdate()
      requires Valid() && currentEvent.kind == Update
      modifies Memories()
      ensures Value() == ApplyEdge(old(Value()))
    {
      if !matchFound {
        eventError := MissingPrice;
        state := ST_FINISH;
        return;
      }
      var level := ReadWork(matchIndex);
      operationChangesBook := true;
      if currentEvent.quantity == 0 {
        orderFlowDelta := -Sign(currentEvent.side) * level.quantity;
        shiftIndex := matchIndex;
        state := ST_REMOVE;
      } else {
        orderFlowDelta := Sign(currentEvent.side) * (currentEvent.quantity - level.quantity);
        state := ST_CHECK_CROSS;
        WriteWork(matchIndex, level.(quantity := currentEvent.quantity));
      }
    }

    /** Cancel and Trade. */
    method ApplyTake()
      requires Valid() && currentEvent.kind != Add && currentEvent.kind != Update
      modifies Memories()
      ensures Value() == ApplyEdge(old(Value()))
    {
      if !matchFound {
        eventError := MissingPrice;
        state := ST_FINISH;
        return;
      }
      if currentEvent.quantity == 0 {
        eventError := InvalidEvent;
        state := ST_FINISH;
        return;
      }
      TakeFound();
    }

    method TakeFound()
      requires Valid() && currentEvent.kind != Add && currentEvent.kind != Update
      requires matchFound && currentEvent.quantity != 0
      modifies Memories()
      ensures Value() == ApplyEdge(old(Value()))
    {
      var level := ReadWork(matchIndex);
      var whole := currentEvent.quantity >= level.quantity;
      orderFlowDelta := -Sign(currentEvent.side) * (if whole then level.quantity else currentEvent.quantity);
      if currentEvent.kind == Trade { tradeFlowDelta := orderFlowDelta; }
      operationChangesBook := true;
      if whole {
        shiftIndex := matchIndex;
        state := ST_REMOVE;
      } else {
        state := ST_CHECK_CROSS;
        WriteWork(matchIndex, level.(quantity := level.quantity - currentEvent.quantity));
      }
    }

    method ShiftOneLevel()
      requires Valid()
      modifies Memories()
      ensures Value() == ShiftEdge(old(Value()))
    {
      if shiftIndex > insertIndex {
        var previous := ReadWork(shiftIndex - 1);
        WriteWork(shiftIndex, previous);
        shiftIndex := shiftIndex - 1;
      } else {
        WriteWork(insertIndex, Level(currentEvent.price, currentEvent.quantity));
        orderFlowDelta := Sign(currentEvent.side) * currentEvent.quantity;
        operationChangesBook := true;
        state := ST_CHECK_CROSS;
      }
    }

    method RemoveOneLevel()
      requires Valid()
      modifies Memories()
      ensures Value() == RemoveEdge(old(Value()))
    {
      if shiftIndex < LAST_INDEX {
        var next := ReadWork(shiftIndex + 1);
        WriteWork(shiftIndex, next);
        shiftIndex := shiftIndex + 1;
      } else {
        WriteWork(LAST_INDEX, EMPTY);
        operationChangesBook := true;
        state := ST_CHECK_CROSS;
      }
    }

    /** One rising clock edge. */
    method Clock(rstN: bool, inValid: bool, inEvent: RtlEvent)
      requires Valid()
      modifies Memories()
      ensures Value() == if !rstN then RESET else Edge(old(Value()), Input(inValid, inEvent), allowCrossed)
    {
      if !rstN {
        Reset();
        return;
      }
      eventDone := false;
      match state {
        case ST_IDLE =>
          if inValid { Accept(inEvent); }
        case ST_VALIDATE => ValidateEvent();
        case ST_SEARCH => SearchOneLevel();
        case ST_APPLY => ApplyEvent();
        case ST_SHIFT_RIGHT => ShiftOneLevel();
        case ST_REMOVE => RemoveOneLevel();
        case ST_CHECK_CROSS => CheckCross();
        case ST_COMMIT => Commit();
        case ST_FINISH =>
          eventDone := true;
          state := ST_IDLE;
      }
    }
  }

  const CYCLE_LIMIT: nat := 32

  /** The bench's first loop: clock until ready. A machine in the middle of an event it met
      on some book finishes that event, so the wait ends. */
  method WaitUntilReady(dut: OrderBook, pins: RtlEvent, ghost book: Book)
    requires dut.Valid() && BookOk(book, dut.allowCrossed) && BookOk(dut.Value().live, dut.allowCrossed)
    requires InReady(dut.Value()) || Busy(dut.Value(), book, dut.Value().event, dut.allowCrossed)
    modifies dut.Memories()
    ensures InReady(dut.Value()) && BookOk(dut.Value().live, dut.allowCrossed)
    ensures dut.Value().live == if InReady(old(dut.Value())) then old(dut.Value()).live
                                else RtlApply(book, old(dut.Value()).event, dut.allowCrossed).book
  {
    ghost var e, start := dut.Value().event, dut.Value();
    ghost var target := if InReady(start) then start.live else RtlApply(book, e, dut.allowCrossed).book;
    ghost var left := if InReady(start) then 0 else EdgesLeft(start, book, dut.allowCrossed);
    ApplyKeepsBook(book, e, dut.allowCrossed);
    while dut.state != ST_IDLE
      invariant InReady(dut.Value()) ==> dut.Value().live == target
      invariant !InReady(dut.Value()) ==> !InReady(start) && Busy(dut.Value(), book, e, dut.allowCrossed)
      invariant !InReady(dut.Value()) ==> left == EdgesLeft(dut.Value(), book, dut.allowCrossed)
      decreases left
    {
      left := ClockBusy(dut, pins, book, e);
    }
  }

  /** One clock of a busy machine: one edge fewer, or ready with the event's book. */
  method ClockBusy(dut: OrderBook, pins: RtlEvent, ghost book: Book, ghost e: RtlEvent) returns (ghost left: int)
    requires dut.Valid() && BookOk(book, dut.allowCrossed) && Busy(dut.Value(), book, e, dut.allowCrossed)
    modifies dut.Memories()
    ensures if InReady(dut.Value()) then dut.Value().live == RtlApply(book, e, dut.allowCrossed).book
            else Busy(dut.Value(), book, e, dut.allowCrossed) && left == EdgesLeft(dut.Value(), book, dut.allowCrossed)
    ensures 0 <= left < old(EdgesLeft(dut.Value(), book, dut.allowCrossed))
  {
    ghost var r, i := dut.Value(), Input(false, pins);
    BusyLeft(r, book, e, dut.allowCrossed);
    if dut.state == ST_FINISH {
      FinishShows(r, i, dut.allowCrossed);
    } else {
      BusyEdge(r, i, book, dut.allowCrossed);
      BusyLeft(Edge(r, i, dut.allowCrossed), book, e, dut.allowCrossed);
    }
    dut.Clock(true, false, pins);
    left := if InReady(dut.Value()) then 0 else EdgesLeft(dut.Value(), book, dut.allowCrossed);
  }

  /** The differential bench's driver: wait until the book is idle, offer one event, then
      clock until done. It never times out, and what it then reads is the atomic answer on
      the book the event met. */
  method Submit(dut: OrderBook, e: RtlEvent, ghost book: Book) returns (timedOut: bool, cycles: nat, ghost met: Book)
    requires dut.Valid() && BookOk(book, dut.allowCrossed) && BookOk(dut.Value().live, dut.allowCrossed)
    requires InReady(dut.Value()) || Busy(dut.Value(), book, dut.Value().event, dut.allowCrossed)
    modifies dut.Memories()
    ensures met == if InReady(old(dut.Value())) then old(dut.Value()).live
                   else RtlApply(book, old(dut.Value()).event, dut.allowCrossed).book
    ensures !timedOut && cycles == Latency(met, e, dut.allowCrossed)
    ensures dut.eventDone && InReady(dut.Value())
    ensures Answers(dut.Value(), RtlApply(met, e, dut.allowCrossed))
    ensures BookOk(dut.Value().live, dut.allowCrossed)
  {
    WaitUntilReady(dut, e, book);
    met := dut.Value().live;
    timedOut, cycles := Offer(dut, e);
  }

  method Offer(dut: OrderBook, e: RtlEvent) returns (timedOut: bool, cycles: nat)
    requires dut.Valid() && InReady(dut.Value()) && BookOk(dut.Value().live, dut.allowCrossed)
    modifies dut.Memories()
    ensures !timedOut && cycles == Latency(old(dut.Value().live), e, dut.allowCrossed)
    ensures dut.eventDone && InReady(dut.Value())
    ensures Answers(dut.Value(), RtlApply(old(dut.Value().live), e, dut.allowCrossed))
    ensures BookOk(dut.Value().live, dut.allowCrossed)
  {
    ghost var start, input := dut.Value(), Input(true, e);
    dut.Clock(true, true, e);
    ghost var accepted := dut.Value();
    ghost var inputs: seq<Input> := [];
    LatencyBound(start.live, e, dut.allowCrossed);
    EventRefinesApply(start, input, [], dut.allowCrossed);
    ApplyKeepsBook(start.live, e, dut.allowCrossed);
    cycles := 0;
    while cycles < CYCLE_LIMIT
      invariant |inputs| == cycles < Latency(start.live, e, dut.allowCrossed)
      invariant dut.Value() == Clocks(accepted, inputs, dut.allowCrossed)
    {
      dut.Clock(true, false, e);
      ghost var more := inputs + [Input(false, e)];
      assert more[..|more| - 1] == inputs;
      inputs := more;
      cycles := cycles + 1;
      EventRefinesApply(start, input, inputs, dut.allowCrossed);
      if dut.eventDone { return false, cycles; }
    }
    return true, cycles;
  }
}
