/** src/market/order_book.cpp: the in-place search, insertion and removal, the
    invariant scan, and the copy-validate-commit of `OrderBook::apply`. */
module OrderBookCpp {
  import opened MarketTypes
  import opened BookModel
  import BookMap

  datatype Fault =
    | UnusedLevelHasPrice | UsedAfterUnused | NonPositivePriceUsed | OutOfOrder(side: Side) | BookIsCrossed

  method Lookup(levels: array<Level>, side: Side, price: I32) returns (found: bool, index: nat)
    requires levels.Length == DEPTH
    ensures index == Rank(levels[..], side, price)
    ensures found == Found(levels[..], side, price)
  {
    ghost var s := levels[..];
    for k := 0 to DEPTH
      invariant RankFrom(s, side, price, 0) == RankFrom(s, side, price, k)
    {
      if levels[k].quantity == 0 || Before(side, price, levels[k].price) {
        return false, k;
      }
      if levels[k].price == price {
        return true, k;
      }
    }
    return false, DEPTH;
  }

  method Remove(levels: array<Level>, index: nat)
    requires levels.Length == DEPTH && index < DEPTH
    modifies levels
    ensures levels[..] == RemoveAt(old(levels[..]), index)
  {
    ghost var was: Levels := levels[..];
    var k := index;
    while k + 1 < DEPTH
      invariant index <= k < DEPTH
      invariant forall j | index <= j < k :: levels[j] == was[j + 1]
      invariant forall j | 0 <= j < DEPTH && !(index <= j < k) :: levels[j] == was[j]
    {
      levels[k] := levels[k + 1];
      k := k + 1;
    }
    levels[DEPTH - 1] := EMPTY;
    forall j | 0 <= j < DEPTH ensures levels[..][j] == RemoveAt(was, index)[j] {
      RemovedLevel(was, index, j);
    }
  }

  method Insert(levels: array<Level>, index: nat, level: Level)
    requires levels.Length == DEPTH && index <= DEPTH
    modifies levels
    ensures levels[..] == if index == DEPTH then old(levels[..]) else InsertAt(old(levels[..]), index, level)
  {
    if index == DEPTH { return; }
    ghost var was: Levels := levels[..];
    var cursor := DEPTH - 1;
    while cursor > index
      invariant index <= cursor < DEPTH
      invariant forall j | cursor < j < DEPTH :: levels[j] == was[j - 1]
      invariant forall j | 0 <= j <= cursor :: levels[j] == was[j]
    {
      levels[cursor] := levels[cursor - 1];
      cursor := cursor - 1;
    }
    levels[index] := level;
    forall j | 0 <= j < DEPTH ensures levels[..][j] == InsertAt(was, index, level)[j] {
      InsertedLevel(was, index, level, j);
    }
  }

  /** The scan's verdict on one side is exactly the side invariant. */
  method SideFault(levels: array<Level>, side: Side) returns (fault: Option<Fault>)
    requires levels.Length == DEPTH
    ensures fault.None? <==> SideOk(levels[..], side)
    ensures fault.Some? ==> fault.value != BookIsCrossed
  {
    var sawEmpty := false;
    for k := 0 to DEPTH
      invariant sawEmpty <==> k > 0 && levels[k - 1].quantity == 0
      invariant forall i | 0 <= i < k :: levels[i].quantity == 0 ==> levels[i].price == 0
      invariant forall i | 0 <= i < k :: levels[i].quantity != 0 ==> levels[i].price > 0
      invariant forall i, j | 0 <= i < j < k :: levels[j].quantity != 0 ==>
                  levels[i].quantity != 0 && Before(side, levels[i].price, levels[j].price)
    {
      var level := levels[k];
      if level.quantity == 0 {
        if level.price != 0 { return Some(UnusedLevelHasPrice); }
        sawEmpty := true;
        continue;
      }
      if sawEmpty {
        assert !SideOk(levels[..], side) by {
          assert levels[..][k - 1].quantity == 0 && levels[..][k].quantity != 0;
        }
        return Some(UsedAfterUnused);
      }
      if level.price <= 0 { return Some(NonPositivePriceUsed); }
      if k > 0 && levels[k - 1].quantity != 0 && !Before(side, levels[k - 1].price, level.price) {
        assert !SideOk(levels[..], side) by {
          assert !Before(side, levels[..][k - 1].price, levels[..][k].price);
        }
        return Some(OutOfOrder(side));
      }
    }
    return None;
  }

  method Invariants(bids: array<Level>, asks: array<Level>, allowCrossed: bool) returns (fault: Option<Fault>)
    requires bids.Length == DEPTH == asks.Length
    ensures fault.None? <==> BookOk(Book(bids[..], asks[..]), allowCrossed)
    ensures fault == Some(BookIsCrossed) <==>
            SideOk(bids[..], Bid) && SideOk(asks[..], Ask) && !allowCrossed && Crossed(Book(bids[..], asks[..]))
  {
    fault := SideFault(bids, Bid);
    if fault.Some? { return; }
    fault := SideFault(asks, Ask);
    if fault.Some? { return; }
    if !allowCrossed && bids[0].quantity != 0 && asks[0].quantity != 0 && bids[0].price >= asks[0].price {
      fault := Some(BookIsCrossed);
    }
  }

  class OrderBook {
    const allowCrossed: bool
    const bids: array<Level>
    const asks: array<Level>

    ghost predicate Shaped() {
      bids.Length == DEPTH == asks.Length && bids != asks
    }

    ghost function Snapshot(): Book
      requires Shaped()
      reads bids, asks
    {
      Book(bids[..], asks[..])
    }

    ghost predicate Valid()
      reads bids, asks
    {
      Shaped() && BookOk(Snapshot(), allowCrossed)
    }

    constructor (allowCrossed: bool)
      ensures Valid() && fresh(bids) && fresh(asks)
      ensures this.allowCrossed == allowCrossed && Snapshot() == EMPTY_BOOK
    {
      this.allowCrossed := allowCrossed;
      bids := new Level[DEPTH](_ => EMPTY);
      asks := new Level[DEPTH](_ => EMPTY);
    }

    /** All work happens on a copy; only a candidate that passes the scan is
        copied back, and the scan never reports anything but a crossed book. */
    method Apply(e: MarketEvent) returns (error: BookError, orderFlow: int, tradeFlow: int)
      requires Valid()
      modifies bids, asks
      ensures Valid()
      ensures Outcome(Snapshot(), error, orderFlow, tradeFlow) ==
              BookModel.Apply(old(Snapshot()), e, allowCrossed)
      ensures error != InvariantViolation
      ensures error == InvalidEvent <==>
              e.kind.UnknownType? || e.side.UnknownSide? || e.price <= 0 || (e.quantity == 0 && e.kind != Update)
    {
      BookMap.InvalidExactly(Snapshot(), e, allowCrossed);
      if ValidateEvent(e) != ValidationError.Valid {
        return InvalidEvent, 0, 0;
      }
      ghost var before := Snapshot();
      var candidateBids := Clone(bids);
      var candidateAsks := Clone(asks);
      var levels := if e.side == Bid then candidateBids else candidateAsks;
      error, orderFlow, tradeFlow := ApplyToSide(levels, e);
      if error != NoError { return error, 0, 0; }
      assert Book(candidateBids[..], candidateAsks[..]) == Candidate(before, e);
      Verdict(before, e, allowCrossed);

      var fault := Invariants(candidateBids, candidateAsks, allowCrossed);
      if fault.Some? {
        error := if fault.value == BookIsCrossed then CrossedBook else InvariantViolation;
        return;
      }
      Copy(candidateBids, bids);
      Copy(candidateAsks, asks);
      assert Snapshot() == Candidate(before, e);
    }
  }

  method Copy(from: array<Level>, to: array<Level>)
    requires from.Length == DEPTH == to.Length && from != to
    modifies to
    ensures to[..] == from[..]
  {
    forall k | 0 <= k < DEPTH { to[k] := from[k]; }
  }

  method Clone(from: array<Level>) returns (to: array<Level>)
    requires from.Length == DEPTH
    ensures fresh(to) && to.Length == DEPTH && to[..] == from[..]
  {
    to := new Level[DEPTH];
    Copy(from, to);
  }

  ghost function Candidate(book: Book, e: MarketEvent): Book
    requires EffectOf(SideOf(book, e.side), e).Effect?
  {
    WithSide(book, e.side, EffectOf(SideOf(book, e.side), e).levels)
  }

  /** The candidate of a healthy book can only fail the scan by crossing. */
  lemma {:induction false} Verdict(book: Book, e: MarketEvent, allowCrossed: bool)
    requires BookOk(book, allowCrossed) && ValidateEvent(e) == Valid
    requires EffectOf(SideOf(book, e.side), e).Effect?
    ensures var f := EffectOf(SideOf(book, e.side), e);
      var c := Candidate(book, e);
      && SideOk(c.bids, Bid) && SideOk(c.asks, Ask)
      && BookModel.Apply(book, e, allowCrossed) ==
         if BookOk(c, allowCrossed) then Outcome(c, NoError, f.orderFlow, f.tradeFlow)
         else Outcome(book, CrossedBook, f.orderFlow, f.tradeFlow)
  {
    EffectKeepsSide(SideOf(book, e.side), e);
  }

  /** The switch over event types, working in place on one candidate side. */
  method ApplyToSide(levels: array<Level>, e: MarketEvent)
    returns (error: BookError, orderFlow: int, tradeFlow: int)
    requires levels.Length == DEPTH && !e.side.UnknownSide?
    modifies levels
    ensures var f := EffectOf(old(levels[..]), e);
      if f.Refused? then error == f.error != NoError && levels[..] == old(levels[..])
      else error == NoError && levels[..] == f.levels && orderFlow == f.orderFlow && tradeFlow == f.tradeFlow
  {
    var found, index := Lookup(levels, e.side, e.price);
    var sign := Sign(e.side);
    error, orderFlow, tradeFlow := NoError, 0, 0;
    match e.kind {
      case Add =>
        if found {
          var was := levels[index].quantity;
          levels[index] := levels[index].(quantity := SaturatedAdd(was, e.quantity));
          orderFlow := sign * (levels[index].quantity - was);
        } else {
          Insert(levels, index, Level(e.price, e.quantity));
          if index < DEPTH { orderFlow := sign * e.quantity; }
        }
      case Update =>
        if !found { return MissingPrice, 0, 0; }
        orderFlow := sign * (e.quantity - levels[index].quantity);
        if e.quantity == 0 {
          Remove(levels, index);
        } else {
          levels[index] := levels[index].(quantity := e.quantity);
        }
      case UnknownType(_) =>
        return InvalidEvent, 0, 0;
      case _ =>
        if !found { return MissingPrice, 0, 0; }
        var removed := if e.quantity < levels[index].quantity then e.quantity else levels[index].quantity;
        ghost var level := levels[index];
        levels[index] := levels[index].(quantity := levels[index].quantity - removed);
        orderFlow := -sign * removed;
        if e.kind == Trade { tradeFlow := if e.side == Ask then removed else -removed; }
        if levels[index].quantity == 0 {
          assert RemoveAt(levels[..], index) == RemoveAt(old(levels[..]), index);
          Remove(levels, index);
        }
    }
  }
}
