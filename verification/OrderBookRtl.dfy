/** rtl/order_book.sv as a clocked machine: its registers, one clock edge, and the
    proof that clocking one event through it is the atomic `BookModel.Apply`. */
module OrderBookRtl {
  import opened MarketTypes
  import opened BookModel
  import BookMap

  datatype State =
    | ST_IDLE | ST_VALIDATE | ST_SEARCH | ST_APPLY | ST_SHIFT_RIGHT
    | ST_REMOVE | ST_CHECK_CROSS | ST_COMMIT | ST_FINISH

  const LAST_INDEX: nat := DEPTH - 1

  /** Every register of the module, outputs included. */
  datatype Regs = Regs(
    state: State, event: RtlEvent, live: Book, work: Book,
    shiftIndex: nat, changes: bool, scanIndex: nat, matchIndex: nat, insertIndex: nat,
    matchFound: bool, insertFound: bool,
    done: bool, error: BookError, orderFlow: int, tradeFlow: int)

  const RESET: Regs := Regs(
    ST_IDLE, MarketEvent(0, Add, Bid, 0, 0), EMPTY_BOOK, EMPTY_BOOK,
    0, false, 0, 0, 0, false, false, false, NoError, 0, 0)

  /** The inputs sampled by one rising edge. */
  datatype Input = Input(valid: bool, event: RtlEvent)

  predicate InReady(r: Regs) {
    r.state == ST_IDLE
  }

  predicate Accepts(r: Regs, i: Input) {
    i.valid && InReady(r)
  }

  /** The working side of the current event, and a total read of one of its levels. */
  function WorkSide(r: Regs): Levels {
    SideOf(r.work, r.event.side)
  }

  function WorkLevel(r: Regs, index: nat): Level {
    if index < DEPTH then WorkSide(r)[index] else EMPTY
  }

  function SetWorkLevel(r: Regs, index: nat, level: Level): Book {
    if index < DEPTH then WithSide(r.work, r.event.side, WorkSide(r)[index := level]) else r.work
  }

  function SearchEdge(r: Regs): Regs {
    if r.scanIndex == DEPTH then r.(state := ST_APPLY)
    else
      var level := WorkLevel(r, r.scanIndex);
      var next := r.(scanIndex := r.scanIndex + 1);
      if level.quantity == 0 then
        if r.insertFound then next else next.(insertIndex := r.scanIndex, insertFound := true)
      else if level.price == r.event.price then
        next.(matchIndex := r.scanIndex, matchFound := true)
      else if !r.insertFound && !Before(r.event.side, level.price, r.event.price) then
        next.(insertIndex := r.scanIndex, insertFound := true)
      else next
  }

  function ApplyEdge(r: Regs): Regs {
    var e := r.event;
    var level := WorkLevel(r, r.matchIndex);
    var sign := Sign(e.side);
    match e.kind
    case Add =>
      if r.matchFound then
        var q := SaturatedAdd(level.quantity, e.quantity);
        r.(orderFlow := sign * (q - level.quantity),
           work := SetWorkLevel(r, r.matchIndex, level.(quantity := q)),
           changes := true, state := ST_CHECK_CROSS)
      else if r.insertIndex == DEPTH then r.(state := ST_CHECK_CROSS)
      else r.(shiftIndex := LAST_INDEX, state := ST_SHIFT_RIGHT)
    case Update =>
      if !r.matchFound then r.(error := MissingPrice, state := ST_FINISH)
      else if e.quantity == 0 then
        r.(orderFlow := -sign * level.quantity, changes := true,
           shiftIndex := r.matchIndex, state := ST_REMOVE)
      else
        r.(orderFlow := sign * (e.quantity - level.quantity),
           work := SetWorkLevel(r, r.matchIndex, level.(quantity := e.quantity)),
           changes := true, state := ST_CHECK_CROSS)
    case _ =>
      if !r.matchFound then r.(error := MissingPrice, state := ST_FINISH)
      else if e.quantity == 0 then r.(error := InvalidEvent, state := ST_FINISH)
      else if e.quantity >= level.quantity then
        r.(orderFlow := -sign * level.quantity,
           tradeFlow := if e.kind == Trade then -sign * level.quantity else r.tradeFlow,
           changes := true, shiftIndex := r.matchIndex, state := ST_REMOVE)
      else
        r.(work := SetWorkLevel(r, r.matchIndex, level.(quantity := level.quantity - e.quantity)),
           orderFlow := -sign * e.quantity,
           tradeFlow := if e.kind == Trade then -sign * e.quantity else r.tradeFlow,
           changes := true, state := ST_CHECK_CROSS)
  }

  function ShiftEdge(r: Regs): Regs {
    if r.shiftIndex > r.insertIndex then
      r.(work := SetWorkLevel(r, r.shiftIndex, WorkLevel(r, r.shiftIndex - 1)),
         shiftIndex := r.shiftIndex - 1)
    else
      r.(work := SetWorkLevel(r, r.insertIndex, Level(r.event.price, r.event.quantity)),
         orderFlow := Sign(r.event.side) * r.event.quantity,
         changes := true, state := ST_CHECK_CROSS)
  }

  function RemoveEdge(r: Regs): Regs {
    if r.shiftIndex < LAST_INDEX then
      r.(work := SetWorkLevel(r, r.shiftIndex, WorkLevel(r, r.shiftIndex + 1)),
         shiftIndex := r.shiftIndex + 1)
    else
      r.(work := SetWorkLevel(r, LAST_INDEX, EMPTY), changes := true, state := ST_CHECK_CROSS)
  }

  /** One rising edge with reset inactive; every right-hand side reads pre-edge values. */
  function Edge(pre: Regs, i: Input, allowCrossed: bool): Regs {
    var r := pre.(done := false);
    match pre.state
    case ST_IDLE =>
      if !Accepts(pre, i) then r
      else r.(event := i.event, error := NoError, orderFlow := 0, tradeFlow := 0,
              changes := false, work := pre.live, state := ST_VALIDATE)
    case ST_VALIDATE =>
      if !EventIsWellFormed(pre.event) then r.(error := InvalidEvent, state := ST_FINISH)
      else r.(scanIndex := 0, matchIndex := 0, insertIndex := DEPTH,
              matchFound := false, insertFound := false, state := ST_SEARCH)
    case ST_SEARCH => SearchEdge(r)
    case ST_APPLY => ApplyEdge(r)
    case ST_SHIFT_RIGHT => ShiftEdge(r)
    case ST_REMOVE => RemoveEdge(r)
    case ST_CHECK_CROSS =>
      if !allowCrossed && Crossed(pre.work)
      then r.(error := CrossedBook, orderFlow := 0, tradeFlow := 0, state := ST_FINISH)
      else r.(state := ST_COMMIT)
    case ST_COMMIT => r.(live := if pre.changes then pre.work else pre.live, state := ST_FINISH)
    case ST_FINISH => r.(done := true, state := ST_IDLE)
  }

  // ---------- The answer the machine owes for one event ----------

  /** The atomic answer, except that a crossing event reports no flow. */
  function RtlApply(book: Book, e: MarketEvent, allowCrossed: bool): Outcome {
    var o := Apply(book, e, allowCrossed);
    if o.error == CrossedBook then o.(orderFlow := 0, tradeFlow := 0) else o
  }

  lemma {:induction false} CrossingAddReportsFlow(book: Book, e: MarketEvent)
    requires BookOk(book, false) && ValidateEvent(e) == Valid && BookMap.AddsThroughOpposite(book, e)
    ensures Apply(book, e, false).error == CrossedBook
    ensures Apply(book, e, false).orderFlow == (if e.side == Bid then e.quantity else -(e.quantity as int))
    ensures Apply(book, e, false).tradeFlow == 0 && e.quantity > 0
  {
    BookMap.ApplyIsMapOperation(book, e, false);
    var s := SideOf(book, e.side);
    assert Rank(s, e.side, e.price) == 0 && !Found(s, e.side, e.price);
  }

  /** What a refused event reports: nothing, except that the C++ book reports the flow of an
      Add that it then finds crossing. */
  lemma {:induction false} RefusalFlows(book: Book, e: MarketEvent, allowCrossed: bool)
    requires BookOk(book, allowCrossed) && Apply(book, e, allowCrossed).error != NoError
    ensures var o, t := Apply(book, e, allowCrossed), RtlApply(book, e, allowCrossed);
      && t.orderFlow == 0 && t.tradeFlow == 0 && o.tradeFlow == 0
      && o.orderFlow == if o.error != CrossedBook then 0 else if e.side == Bid then e.quantity else -(e.quantity as int)
  {
    BookMap.ApplyIsMapOperation(book, e, allowCrossed);
    if Apply(book, e, allowCrossed).error == CrossedBook {
      ReasonsExactly(e);
      CrossingAddReportsFlow(book, e);
    }
  }

  /** The machine and the C++ book answer alike exactly when the event is not an accepted
      Add at or through the opposite best price. */
  lemma {:induction false} AnswersAlikeExactly(book: Book, e: MarketEvent, allowCrossed: bool)
    requires BookOk(book, allowCrossed)
    ensures RtlApply(book, e, allowCrossed) == Apply(book, e, allowCrossed) <==>
            allowCrossed || ValidateEvent(e) != Valid || !BookMap.AddsThroughOpposite(book, e)
  {
    BookMap.ApplyIsMapOperation(book, e, allowCrossed);
    if !allowCrossed && ValidateEvent(e) == Valid && BookMap.AddsThroughOpposite(book, e) {
      CrossingAddReportsFlow(book, e);
    }
  }

  /** The machine's answer refuses as invalid, and accepts, by the same raw conditions; its
      event register cannot hold an unknown type or side. */
  lemma {:induction false} AnswerAcceptsExactly(book: Book, e: RtlEvent, allowCrossed: bool)
    requires BookOk(book, allowCrossed)
    ensures RtlApply(book, e, allowCrossed).error == InvalidEvent <==>
            e.price <= 0 || (e.quantity == 0 && e.kind != Update)
    ensures var own := if e.side == Bid then book.bids else book.asks;
      RtlApply(book, e, allowCrossed).error == NoError <==>
      && e.price > 0 && (e.quantity > 0 || e.kind == Update)
      && (if e.kind == Add then
            || allowCrossed
            || (e.side == Bid && (book.asks[0].quantity == 0 || e.price < book.asks[0].price))
            || (e.side == Ask && (book.bids[0].quantity == 0 || book.bids[0].price < e.price))
          else exists k | 0 <= k < DEPTH :: own[k].quantity != 0 && own[k].price == e.price)
  {
    BookMap.InvalidExactly(book, e, allowCrossed);
    BookMap.AcceptedExactly(book, e, allowCrossed);
  }

  predicate Answers(r: Regs, o: Outcome) {
    r.live == o.book && r.error == o.error && r.orderFlow == o.orderFlow && r.tradeFlow == o.tradeFlow
  }

  /** Where the machine stands inside one event that met the given live book. */
  ghost predicate Busy(r: Regs, book: Book, e: RtlEvent, allowCrossed: bool) {
    && r.event == e && !r.done
    && (r.state != ST_FINISH ==> r.live == book && r.error == NoError)
    && (r.state != ST_VALIDATE && r.state != ST_FINISH ==> ValidateEvent(e) == Valid)
    && match r.state
       case ST_IDLE => false
       case ST_VALIDATE => r.work == book && !r.changes && r.orderFlow == 0 && r.tradeFlow == 0
       case ST_SEARCH => Searching(r, book)
       case ST_APPLY => Searching(r, book) && r.scanIndex == DEPTH
       case ST_SHIFT_RIGHT => Shifting(r, book)
       case ST_REMOVE => Removing(r, book)
       case ST_CHECK_CROSS => Prepared(r, book)
       case ST_COMMIT => Prepared(r, book) && (allowCrossed || !Crossed(r.work))
       case ST_FINISH => Answers(r, RtlApply(book, e, allowCrossed))
  }

  ghost predicate Searching(r: Regs, book: Book) {
    var s := SideOf(book, r.event.side);
    var rank := Rank(s, r.event.side, r.event.price);
    && r.work == book && !r.changes && r.orderFlow == 0 && r.tradeFlow == 0
    && r.scanIndex <= DEPTH
    && (r.matchFound <==> Found(s, r.event.side, r.event.price) && r.scanIndex > rank)
    && (r.matchFound ==> r.matchIndex == rank)
    && (!Found(s, r.event.side, r.event.price) ==>
          && (r.insertFound <==> r.scanIndex > rank)
          && r.insertIndex == if r.insertFound then rank else DEPTH)
  }

  /** Levels behind the shift index have already moved one slot back. */
  ghost predicate Shifting(r: Regs, book: Book) {
    var s := SideOf(book, r.event.side);
    var rank := Rank(s, r.event.side, r.event.price);
    && r.event.kind == Add && !Found(s, r.event.side, r.event.price)
    && r.insertIndex == rank < DEPTH && rank <= r.shiftIndex < DEPTH
    && r.orderFlow == 0 && r.tradeFlow == 0
    && r.work == WithSide(book, r.event.side, s[..r.shiftIndex + 1] + s[r.shiftIndex..LAST_INDEX])
  }

  /** Levels from the removed one up to the shift index have already moved forward. */
  ghost predicate Removing(r: Regs, book: Book) {
    var s := SideOf(book, r.event.side);
    var rank := Rank(s, r.event.side, r.event.price);
    var f := EffectOf(s, r.event);
    && rank <= r.shiftIndex < DEPTH
    && TakesWholeLevel(s, r.event) && f.Effect?
    && r.orderFlow == f.orderFlow && r.tradeFlow == f.tradeFlow
    && r.work == WithSide(book, r.event.side,
                   s[..rank] + s[rank + 1..r.shiftIndex + 1] + s[r.shiftIndex..])
  }

  ghost predicate Prepared(r: Regs, book: Book) {
    var s := SideOf(book, r.event.side);
    var f := EffectOf(s, r.event);
    && f.Effect? && r.work == WithSide(book, r.event.side, f.levels)
    && r.orderFlow == f.orderFlow && r.tradeFlow == f.tradeFlow
    && (!r.changes ==> r.work == book)
  }

  // ---------- Each busy edge keeps the invariant ----------

  lemma {:induction false} AcceptStarts(r: Regs, i: Input, allowCrossed: bool)
    requires Accepts(r, i)
    ensures Edge(r, i, allowCrossed).event == i.event
    ensures Advanced(Edge(r, i, allowCrossed), r.live, i.event, allowCrossed,
                     Latency(r.live, i.event, allowCrossed))
  {
  }

  lemma {:induction false} SearchKeeps(r: Regs, book: Book, allowCrossed: bool)
    requires Busy(r, book, r.event, allowCrossed) && r.state == ST_SEARCH && BookOk(book, allowCrossed)
    ensures Busy(SearchEdge(r), book, r.event, allowCrossed)
  {
    var s := SideOf(book, r.event.side);
    var rank := Rank(s, r.event.side, r.event.price);
    var k := r.scanIndex;
    if k < DEPTH && k > rank && s[k].quantity != 0 {
      assert s[rank].quantity != 0 && Before(r.event.side, s[rank].price, s[k].price);
    }
  }

  /** What the machine knows when the scan has ended. */
  lemma {:induction false} SearchEnds(r: Regs, book: Book, allowCrossed: bool)
    requires Busy(r, book, r.event, allowCrossed) && r.state == ST_APPLY
    ensures var s := SideOf(book, r.event.side);
      var rank := Rank(s, r.event.side, r.event.price);
      && WorkSide(r) == s && r.work == book && !r.changes && r.orderFlow == 0 && r.tradeFlow == 0
      && r.live == book && r.error == NoError && !r.done
      && r.matchFound == Found(s, r.event.side, r.event.price)
      && (r.matchFound ==> r.matchIndex == rank < DEPTH && s[rank].quantity != 0)
      && (!r.matchFound ==> r.insertIndex == rank)
  {
  }

  lemma {:induction false} ApplyAddKeeps(r: Regs, book: Book, allowCrossed: bool)
    requires Busy(r, book, r.event, allowCrossed) && r.state == ST_APPLY && r.event.kind == Add
    ensures Busy(ApplyEdge(r), book, r.event, allowCrossed)
  {
    SearchEnds(r, book, allowCrossed);
    var s := SideOf(book, r.event.side);
    assert s == s[..LAST_INDEX + 1] + s[LAST_INDEX..LAST_INDEX];
  }

  lemma {:induction false} ApplyUpdateKeeps(r: Regs, book: Book, allowCrossed: bool)
    requires Busy(r, book, r.event, allowCrossed) && r.state == ST_APPLY && r.event.kind == Update
    ensures Busy(ApplyEdge(r), book, r.event, allowCrossed)
  {
    SearchEnds(r, book, allowCrossed);
    if r.matchFound {
      if r.event.quantity == 0 {
        UpdateToZeroKeeps(r, book);
      } else {
        UpdateInPlaceKeeps(r, book);
      }
    }
  }

  lemma {:induction false} UpdateToZeroKeeps(r: Regs, book: Book)
    requires Searching(r, book) && r.scanIndex == DEPTH && r.matchFound
    requires r.event.kind == Update && r.event.quantity == 0
    ensures ApplyEdge(r).state == ST_REMOVE && Removing(ApplyEdge(r), book)
  {
    NothingMoved(SideOf(book, r.event.side), r.matchIndex);
  }

  lemma {:induction false} UpdateInPlaceKeeps(r: Regs, book: Book)
    requires Searching(r, book) && r.scanIndex == DEPTH && r.matchFound
    requires r.event.kind == Update && r.event.quantity != 0
    ensures ApplyEdge(r).state == ST_CHECK_CROSS && Prepared(ApplyEdge(r), book)
  {
  }

  lemma {:induction false} ApplyTakeKeeps(r: Regs, book: Book, allowCrossed: bool)
    requires Busy(r, book, r.event, allowCrossed) && r.state == ST_APPLY
    requires r.event.kind == Cancel || r.event.kind == Trade
    ensures Busy(ApplyEdge(r), book, r.event, allowCrossed)
  {
    SearchEnds(r, book, allowCrossed);
    if r.matchFound {
      if r.event.quantity >= WorkLevel(r, r.matchIndex).quantity {
        TakeWholeKeeps(r, book);
      } else {
        TakePartKeeps(r, book);
      }
    }
  }

  lemma {:induction false} TakeWholeKeeps(r: Regs, book: Book)
    requires Searching(r, book) && r.scanIndex == DEPTH && r.matchFound
    requires ValidateEvent(r.event) == Valid && (r.event.kind == Cancel || r.event.kind == Trade)
    requires r.event.quantity >= WorkLevel(r, r.matchIndex).quantity
    ensures ApplyEdge(r).state == ST_REMOVE && Removing(ApplyEdge(r), book)
  {
    NothingMoved(SideOf(book, r.event.side), r.matchIndex);
  }

  lemma {:induction false} TakePartKeeps(r: Regs, book: Book)
    requires Searching(r, book) && r.scanIndex == DEPTH && r.matchFound
    requires ValidateEvent(r.event) == Valid && (r.event.kind == Cancel || r.event.kind == Trade)
    requires r.event.quantity < WorkLevel(r, r.matchIndex).quantity
    ensures ApplyEdge(r).state == ST_CHECK_CROSS && Prepared(ApplyEdge(r), book)
  {
  }

  lemma {:induction false} NothingMoved(s: Levels, rank: nat)
    requires rank < DEPTH
    ensures s == s[..rank] + s[rank + 1..rank + 1] + s[rank..]
  {
  }

  lemma {:induction false} MovedBack(s: Levels, k: nat, level: Level)
    requires k < DEPTH
    ensures var shifted := s[..k + 1] + s[k..LAST_INDEX];
      && shifted[k := level] == InsertAt(s, k, level)
      && (k > 0 ==> shifted[k := shifted[k - 1]] == s[..k] + s[k - 1..LAST_INDEX])
  {
  }

  lemma {:induction false} ShiftMoves(r: Regs, book: Book)
    requires Shifting(r, book) && r.shiftIndex > r.insertIndex
    ensures Shifting(ShiftEdge(r), book)
  {
    MovedBack(SideOf(book, r.event.side), r.shiftIndex, Level(r.event.price, r.event.quantity));
  }

  lemma {:induction false} ShiftWrites(r: Regs, book: Book)
    requires Shifting(r, book) && r.shiftIndex <= r.insertIndex
    ensures Prepared(ShiftEdge(r), book)
  {
    MovedBack(SideOf(book, r.event.side), r.shiftIndex, Level(r.event.price, r.event.quantity));
  }

  lemma {:induction false} MovedForward(s: Levels, rank: nat, k: nat)
    requires rank <= k < DEPTH
    ensures var moved := s[..rank] + s[rank + 1..k + 1] + s[k..];
      && (k < LAST_INDEX ==> moved[k := moved[k + 1]] == s[..rank] + s[rank + 1..k + 2] + s[k + 1..])
      && (k == LAST_INDEX ==> moved[k := EMPTY] == RemoveAt(s, rank))
  {
    if k < LAST_INDEX {
      assert s[rank + 1..k + 2] == s[rank + 1..k + 1] + [s[k + 1]];
    }
  }

  lemma {:induction false} RemoveKeeps(r: Regs, book: Book, allowCrossed: bool)
    requires Busy(r, book, r.event, allowCrossed) && r.state == ST_REMOVE
    ensures Busy(RemoveEdge(r), book, r.event, allowCrossed)
  {
    var s := SideOf(book, r.event.side);
    MovedForward(s, Rank(s, r.event.side, r.event.price), r.shiftIndex);
  }

  // ---------- An exact count of the remaining edges ----------

  predicate TakesWholeLevel(s: Levels, e: MarketEvent) {
    var rank := Rank(s, e.side, e.price);
    Found(s, e.side, e.price) &&
    if e.kind == Update then e.quantity == 0
    else (e.kind == Cancel || e.kind == Trade) && e.quantity >= s[rank].quantity
  }

  /** Edges from ST_APPLY until `event_done` rises. */
  function ApplyCost(book: Book, e: MarketEvent, allowCrossed: bool): nat {
    var s := SideOf(book, e.side);
    var rank := Rank(s, e.side, e.price);
    match EffectOf(s, e)
    case Refused(_) => 2
    case Effect(levels, _, _) =>
      1 + (if TakesWholeLevel(s, e) || (e.kind == Add && !Found(s, e.side, e.price) && rank < DEPTH)
           then DEPTH - rank else 0)
        + CheckCost(WithSide(book, e.side, levels), allowCrossed)
  }

  function CheckCost(work: Book, allowCrossed: bool): nat {
    if !allowCrossed && Crossed(work) then 2 else 3
  }

  /** Edges from acceptance until `event_done` rises. */
  function Latency(book: Book, e: MarketEvent, allowCrossed: bool): nat {
    if ValidateEvent(e) != Valid then 2 else DEPTH + 2 + ApplyCost(book, e, allowCrossed)
  }

  function EdgesLeft(r: Regs, book: Book, allowCrossed: bool): int {
    match r.state
    case ST_IDLE => 0
    case ST_VALIDATE => Latency(book, r.event, allowCrossed)
    case ST_SEARCH => DEPTH - r.scanIndex + 1 + ApplyCost(book, r.event, allowCrossed)
    case ST_APPLY => ApplyCost(book, r.event, allowCrossed)
    case ST_SHIFT_RIGHT => ApplyCost(book, r.event, allowCrossed) - 1 - (LAST_INDEX - r.shiftIndex)
    case ST_REMOVE =>
      var rank := Rank(SideOf(book, r.event.side), r.event.side, r.event.price);
      ApplyCost(book, r.event, allowCrossed) - 1 - (r.shiftIndex - rank)
    case ST_CHECK_CROSS => CheckCost(r.work, allowCrossed)
    case ST_COMMIT => 2
    case ST_FINISH => 1
  }

  lemma {:induction false} LatencyBound(book: Book, e: MarketEvent, allowCrossed: bool)
    ensures 2 <= Latency(book, e, allowCrossed) <= 26
  {
  }

  // Each multi-edge state, one lemma a state: the invariant and one edge fewer.

  ghost predicate Advanced(t: Regs, book: Book, e: RtlEvent, allowCrossed: bool, left: int) {
    Busy(t, book, e, allowCrossed) && EdgesLeft(t, book, allowCrossed) == left
  }

  lemma {:induction false} SearchAdvances(r: Regs, book: Book, allowCrossed: bool)
    requires Busy(r, book, r.event, allowCrossed) && r.state == ST_SEARCH && BookOk(book, allowCrossed)
    ensures Advanced(SearchEdge(r), book, r.event, allowCrossed, EdgesLeft(r, book, allowCrossed) - 1)
  {
    SearchKeeps(r, book, allowCrossed);
    SearchUsesOne(r, book, allowCrossed);
  }

  lemma {:induction false} SearchUsesOne(r: Regs, book: Book, allowCrossed: bool)
    requires r.state == ST_SEARCH && r.scanIndex <= DEPTH
    ensures EdgesLeft(SearchEdge(r), book, allowCrossed) == EdgesLeft(r, book, allowCrossed) - 1
  {
    assert SearchEdge(r).event == r.event;
  }

  lemma {:induction false} ApplyAdvances(r: Regs, book: Book, allowCrossed: bool)
    requires Busy(r, book, r.event, allowCrossed) && r.state == ST_APPLY
    ensures Advanced(ApplyEdge(r), book, r.event, allowCrossed, EdgesLeft(r, book, allowCrossed) - 1)
  {
    SearchEnds(r, book, allowCrossed);
    match r.event.kind {
      case Add => ApplyAddKeeps(r, book, allowCrossed);
      case Update => ApplyUpdateKeeps(r, book, allowCrossed);
      case _ => ApplyTakeKeeps(r, book, allowCrossed);
    }
  }

  lemma {:induction false} ShiftAdvances(r: Regs, book: Book, allowCrossed: bool)
    requires Busy(r, book, r.event, allowCrossed) && r.state == ST_SHIFT_RIGHT
    ensures Advanced(ShiftEdge(r), book, r.event, allowCrossed, EdgesLeft(r, book, allowCrossed) - 1)
  {
    if r.shiftIndex > r.insertIndex { ShiftMoves(r, book); } else { ShiftWrites(r, book); }
  }

  lemma {:induction false} RemoveAdvances(r: Regs, book: Book, allowCrossed: bool)
    requires Busy(r, book, r.event, allowCrossed) && r.state == ST_REMOVE
    ensures Advanced(RemoveEdge(r), book, r.event, allowCrossed, EdgesLeft(r, book, allowCrossed) - 1)
  {
    RemoveKeeps(r, book, allowCrossed);
    RemoveUsesOne(r, book, allowCrossed);
  }

  lemma {:induction false} RemoveUsesOne(r: Regs, book: Book, allowCrossed: bool)
    requires Busy(r, book, r.event, allowCrossed) && r.state == ST_REMOVE
    ensures EdgesLeft(RemoveEdge(r), book, allowCrossed) == EdgesLeft(r, book, allowCrossed) - 1
  {
    var s := SideOf(book, r.event.side);
    MovedForward(s, Rank(s, r.event.side, r.event.price), r.shiftIndex);
  }

  /** The states that last one edge and touch no level. */
  lemma {:induction false} ValidateAdvances(r: Regs, i: Input, book: Book, allowCrossed: bool)
    requires Busy(r, book, r.event, allowCrossed) && r.state == ST_VALIDATE
    ensures Advanced(Edge(r, i, allowCrossed), book, r.event, allowCrossed, EdgesLeft(r, book, allowCrossed) - 1)
  {
  }

  lemma {:induction false} CheckCrossAdvances(r: Regs, i: Input, book: Book, allowCrossed: bool)
    requires Busy(r, book, r.event, allowCrossed) && r.state == ST_CHECK_CROSS
    ensures Advanced(Edge(r, i, allowCrossed), book, r.event, allowCrossed, EdgesLeft(r, book, allowCrossed) - 1)
  {
  }

  lemma {:induction false} CommitAdvances(r: Regs, i: Input, book: Book, allowCrossed: bool)
    requires Busy(r, book, r.event, allowCrossed) && r.state == ST_COMMIT
    ensures Advanced(Edge(r, i, allowCrossed), book, r.event, allowCrossed, EdgesLeft(r, book, allowCrossed) - 1)
  {
  }

  /** A busy edge keeps the invariant and uses up exactly one edge, whatever the inputs do. */
  lemma {:induction false} BusyEdge(r: Regs, i: Input, book: Book, allowCrossed: bool)
    requires Busy(r, book, r.event, allowCrossed) && r.state != ST_FINISH && BookOk(book, allowCrossed)
    ensures Advanced(Edge(r, i, allowCrossed), book, r.event, allowCrossed, EdgesLeft(r, book, allowCrossed) - 1)
  {
    match r.state
    case ST_SEARCH => SearchAdvances(r, book, allowCrossed);
    case ST_APPLY => ApplyAdvances(r, book, allowCrossed);
    case ST_SHIFT_RIGHT => ShiftAdvances(r, book, allowCrossed);
    case ST_REMOVE => RemoveAdvances(r, book, allowCrossed);
    case ST_VALIDATE => ValidateAdvances(r, i, book, allowCrossed);
    case ST_CHECK_CROSS => CheckCrossAdvances(r, i, book, allowCrossed);
    case _ => CommitAdvances(r, i, book, allowCrossed);
  }

  lemma {:induction false} OnlyCommitWrites(r: Regs, i: Input, allowCrossed: bool)
    ensures Edge(r, i, allowCrossed).live != r.live ==> r.state == ST_COMMIT
  {
  }

  // ---------- Runs ----------

  /** The registers after a sequence of edges. */
  function Clocks(r: Regs, inputs: seq<Input>, allowCrossed: bool): Regs {
    if |inputs| == 0 then r
    else Edge(Clocks(r, inputs[..|inputs| - 1], allowCrossed), inputs[|inputs| - 1], allowCrossed)
  }

  lemma {:induction false} StaysBusy(r: Regs, inputs: seq<Input>, book: Book, allowCrossed: bool)
    requires Busy(r, book, r.event, allowCrossed) && BookOk(book, allowCrossed)
    requires |inputs| < EdgesLeft(r, book, allowCrossed)
    ensures Advanced(Clocks(r, inputs, allowCrossed), book, r.event, allowCrossed,
                     EdgesLeft(r, book, allowCrossed) - |inputs|)
    decreases |inputs|
  {
    if |inputs| > 0 {
      var before := inputs[..|inputs| - 1];
      StaysBusy(r, before, book, allowCrossed);
      BusyEdge(Clocks(r, before, allowCrossed), inputs[|inputs| - 1], book, allowCrossed);
    }
  }

  /** What a busy machine shows outside. */
  lemma {:induction false} BusyShows(t: Regs, book: Book, e: RtlEvent, allowCrossed: bool, left: int)
    requires Advanced(t, book, e, allowCrossed, left) && left > 0
    ensures !t.done && !InReady(t)
    ensures left == 1 <==> t.state == ST_FINISH
    ensures left > 1 ==> t.live == book
    ensures left == 1 ==> Answers(t, RtlApply(book, e, allowCrossed))
  {
  }

  lemma {:induction false} FinishShows(t: Regs, i: Input, allowCrossed: bool)
    requires t.state == ST_FINISH
    ensures Edge(t, i, allowCrossed) == t.(done := true, state := ST_IDLE)
  {
  }

  lemma {:induction false} BusyLeft(r: Regs, book: Book, e: RtlEvent, allowCrossed: bool)
    requires Busy(r, book, e, allowCrossed)
    ensures EdgesLeft(r, book, allowCrossed) > 0
  {
  }

  /** From acceptance the machine is busy, unready and silent for a known number of
      edges, then pulses done with exactly the atomic answer; until it finishes, and
      throughout a rejected event, the live book is the one the event met. */
  lemma {:induction false} EventRefinesApply(r: Regs, i: Input, inputs: seq<Input>, allowCrossed: bool)
    requires Accepts(r, i) && BookOk(r.live, allowCrossed)
    requires |inputs| <= Latency(r.live, i.event, allowCrossed)
    ensures var t := Clocks(Edge(r, i, allowCrossed), inputs, allowCrossed);
      var o := RtlApply(r.live, i.event, allowCrossed);
      && (|inputs| == Latency(r.live, i.event, allowCrossed) ==> t.done && InReady(t) && Answers(t, o))
      && (|inputs| < Latency(r.live, i.event, allowCrossed) ==> !t.done && !InReady(t))
      && (o.error != NoError ==> t.live == r.live)
      && (|inputs| + 1 < Latency(r.live, i.event, allowCrossed) ==> t.live == r.live)
  {
    var left := Latency(r.live, i.event, allowCrossed);
    BusyFrom(r, i, inputs[..if |inputs| < left then |inputs| else left - 1], allowCrossed);
    ErrorKeepsBook(r.live, i.event, allowCrossed);
    if |inputs| < left {
      assert inputs[..|inputs|] == inputs;
    } else {
      FinishShows(Clocks(Edge(r, i, allowCrossed), inputs[..left - 1], allowCrossed), inputs[left - 1], allowCrossed);
    }
  }

  /** At the done pulse the error register tells by the event's raw fields alone whether the
      event was malformed. */
  lemma {:induction false} MachineRefusesExactly(r: Regs, i: Input, inputs: seq<Input>, allowCrossed: bool)
    requires Accepts(r, i) && BookOk(r.live, allowCrossed)
    requires |inputs| == Latency(r.live, i.event, allowCrossed)
    ensures Clocks(Edge(r, i, allowCrossed), inputs, allowCrossed).error == InvalidEvent <==>
            i.event.price <= 0 || (i.event.quantity == 0 && i.event.kind != Update)
  {
    EventRefinesApply(r, i, inputs, allowCrossed);
    AnswerAcceptsExactly(r.live, i.event, allowCrossed);
  }

  lemma {:induction false} ErrorKeepsBook(book: Book, e: MarketEvent, allowCrossed: bool)
    ensures RtlApply(book, e, allowCrossed).error != NoError ==> RtlApply(book, e, allowCrossed).book == book
  {
  }

  lemma {:induction false} BusyFrom(r: Regs, i: Input, inputs: seq<Input>, allowCrossed: bool)
    requires Accepts(r, i) && BookOk(r.live, allowCrossed)
    requires |inputs| < Latency(r.live, i.event, allowCrossed)
    ensures var t := Clocks(Edge(r, i, allowCrossed), inputs, allowCrossed);
      var left := Latency(r.live, i.event, allowCrossed) - |inputs|;
      && !t.done && !InReady(t)
      && (left == 1 ==> t.state == ST_FINISH && Answers(t, RtlApply(r.live, i.event, allowCrossed)))
      && (left > 1 ==> t.live == r.live)
  {
    AcceptStarts(r, i, allowCrossed);
    var start := Edge(r, i, allowCrossed);
    StaysBusy(start, inputs, r.live, allowCrossed);
    BusyShows(Clocks(start, inputs, allowCrossed), r.live, i.event, allowCrossed,
              Latency(r.live, i.event, allowCrossed) - |inputs|);
  }

  /** A register state some reset-and-clock history can be in. */
  ghost predicate Healthy(r: Regs, allowCrossed: bool) {
    && BookOk(r.live, allowCrossed)
    && (r.state == ST_IDLE ||
        exists book :: BookOk(book, allowCrossed) && Busy(r, book, r.event, allowCrossed))
  }

  lemma {:induction false} HealthyBusyEdge(r: Regs, i: Input, book: Book, allowCrossed: bool)
    requires BookOk(book, allowCrossed) && Busy(r, book, r.event, allowCrossed) && r.state != ST_FINISH
    ensures Healthy(Edge(r, i, allowCrossed), allowCrossed)
  {
    var t := Edge(r, i, allowCrossed);
    BusyEdge(r, i, book, allowCrossed);
    BusyLeft(t, book, r.event, allowCrossed);
    BusyShows(t, book, r.event, allowCrossed, EdgesLeft(t, book, allowCrossed));
    ApplyKeepsBook(book, r.event, allowCrossed);
  }

  lemma {:induction false} HealthyEdge(r: Regs, i: Input, allowCrossed: bool)
    requires Healthy(r, allowCrossed)
    ensures Healthy(Edge(r, i, allowCrossed), allowCrossed)
  {
    if r.state == ST_IDLE {
      if Accepts(r, i) {
        AcceptStarts(r, i, allowCrossed);
        OnlyCommitWrites(r, i, allowCrossed);
      }
    } else if r.state == ST_FINISH {
      FinishShows(r, i, allowCrossed);
    } else {
      var book :| BookOk(book, allowCrossed) && Busy(r, book, r.event, allowCrossed);
      HealthyBusyEdge(r, i, book, allowCrossed);
    }
  }

  /** Whatever the inputs were, every book the machine ever shows is healthy. */
  lemma {:induction false} ResetRunsHealthy(inputs: seq<Input>, allowCrossed: bool)
    ensures Healthy(Clocks(RESET, inputs, allowCrossed), allowCrossed)
    decreases |inputs|
  {
    if |inputs| > 0 {
      ResetRunsHealthy(inputs[..|inputs| - 1], allowCrossed);
      HealthyEdge(Clocks(RESET, inputs[..|inputs| - 1], allowCrossed), inputs[|inputs| - 1], allowCrossed);
    }
  }
}
