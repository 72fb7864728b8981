/** Where the flow deltas go: every unit of visible quantity that enters or leaves
    the book is either reported as signed order flow or evicted off the tenth level. */
module BookFlow {
  import opened MarketTypes
  import opened BookModel

  function Total(s: seq<Level>): int {
    if |s| == 0 then 0 else s[0].quantity + Total(s[1..])
  }

  /** Quantity that falls off the tenth level when an eleventh price is inserted. */
  function EvictedBy(s: Levels, e: MarketEvent): int {
    if e.kind == Add && !Found(s, e.side, e.price) && Rank(s, e.side, e.price) < DEPTH
    then s[DEPTH - 1].quantity else 0
  }

  lemma {:induction false} TotalConcat(a: seq<Level>, b: seq<Level>)
    ensures Total(a + b) == Total(a) + Total(b)
  {
    if |a| == 0 {
      assert a + b == b;
    } else {
      assert (a + b)[1..] == a[1..] + b;
      TotalConcat(a[1..], b);
    }
  }

  lemma {:induction false} TotalSplit(s: Levels, r: nat)
    requires r < DEPTH
    ensures Total(s) == Total(s[..r]) + s[r].quantity + Total(s[r + 1..])
  {
    assert s == s[..r] + [s[r]] + s[r + 1..];
    TotalConcat(s[..r] + [s[r]], s[r + 1..]);
    TotalConcat(s[..r], [s[r]]);
  }

  lemma {:induction false} TotalSet(s: Levels, r: nat, quantity: U32)
    requires r < DEPTH
    ensures Total(s[r := s[r].(quantity := quantity)]) == Total(s) - s[r].quantity + quantity
  {
    var t: Levels := s[r := s[r].(quantity := quantity)];
    TotalSplit(s, r);
    TotalSplit(t, r);
    assert t[..r] == s[..r] && t[r + 1..] == s[r + 1..];
  }

  lemma {:induction false} TotalRemove(s: Levels, r: nat)
    requires r < DEPTH
    ensures Total(RemoveAt(s, r)) == Total(s) - s[r].quantity
  {
    TotalSplit(s, r);
    TotalConcat(s[..r] + s[r + 1..], [EMPTY]);
    TotalConcat(s[..r], s[r + 1..]);
  }

  lemma {:induction false} TotalInsert(s: Levels, r: nat, level: Level)
    requires r < DEPTH
    ensures Total(InsertAt(s, r, level)) == Total(s) + level.quantity - s[DEPTH - 1].quantity
  {
    TotalConcat(s[..r] + [level], s[r..DEPTH - 1]);
    TotalConcat(s[..r], [level]);
    assert s[..DEPTH - 1] == s[..r] + s[r..DEPTH - 1];
    TotalConcat(s[..r], s[r..DEPTH - 1]);
    TotalSplit(s, DEPTH - 1);
  }

  /** One accepted effect: signed flow is the change of the side's visible total,
      corrected by what was evicted; a trade reports the same number twice. */
  lemma {:induction false} EffectConservesFlow(s: Levels, e: MarketEvent)
    requires EffectOf(s, e).Effect?
    ensures var f := EffectOf(s, e);
      && Sign(e.side) * f.orderFlow == Total(f.levels) - Total(s) + EvictedBy(s, e)
      && f.tradeFlow == if e.kind == Trade then f.orderFlow else 0
  {
    var r := Rank(s, e.side, e.price);
    if Found(s, e.side, e.price) {
      TotalRemove(s, r);
      if e.kind == Add {
        TotalSet(s, r, SaturatedAdd(s[r].quantity, e.quantity));
      } else if e.kind == Update {
        TotalSet(s, r, e.quantity);
      } else if e.quantity < s[r].quantity {
        TotalSet(s, r, s[r].quantity - e.quantity);
      }
    } else if r < DEPTH {
      TotalInsert(s, r, Level(e.price, e.quantity));
    }
  }

  // ---------- Whole runs ----------

  function RunBook(book: Book, events: seq<MarketEvent>, allowCrossed: bool): Book {
    if |events| == 0 then book
    else Apply(RunBook(book, events[..|events| - 1], allowCrossed), events[|events| - 1], allowCrossed).book
  }

  /** Sum of the order-flow deltas the successful events of a run report. */
  function FlowSum(book: Book, events: seq<MarketEvent>, allowCrossed: bool): int {
    if |events| == 0 then 0
    else
      var before := events[..|events| - 1];
      var o := Apply(RunBook(book, before, allowCrossed), events[|events| - 1], allowCrossed);
      FlowSum(book, before, allowCrossed) + if o.error == NoError then o.orderFlow else 0
  }

  /** Signed quantity a run evicted off the two tenth levels. */
  function EvictedSum(book: Book, events: seq<MarketEvent>, allowCrossed: bool): int {
    if |events| == 0 then 0
    else
      var before, e := events[..|events| - 1], events[|events| - 1];
      var start := RunBook(book, before, allowCrossed);
      EvictedSum(book, before, allowCrossed) +
      if Apply(start, e, allowCrossed).error == NoError
      then Sign(e.side) * EvictedBy(SideOf(start, e.side), e) else 0
  }

  function Imbalance(book: Book): int {
    Total(book.bids) - Total(book.asks)
  }

  lemma {:induction false} ApplyConservesFlow(book: Book, e: MarketEvent, allowCrossed: bool)
    requires Apply(book, e, allowCrossed).error == NoError
    ensures var o := Apply(book, e, allowCrossed);
      && o.orderFlow == Imbalance(o.book) - Imbalance(book) + Sign(e.side) * EvictedBy(SideOf(book, e.side), e)
      && o.tradeFlow == if e.kind == Trade then o.orderFlow else 0
  {
    EffectConservesFlow(SideOf(book, e.side), e);
  }

  /** Over any run, reported flow plus nothing else explains the final imbalance. */
  lemma {:induction false} RunConservesFlow(book: Book, events: seq<MarketEvent>, allowCrossed: bool)
    ensures FlowSum(book, events, allowCrossed) ==
            Imbalance(RunBook(book, events, allowCrossed)) - Imbalance(book)
            + EvictedSum(book, events, allowCrossed)
    decreases |events|
  {
    if |events| > 0 {
      var before, e := events[..|events| - 1], events[|events| - 1];
      RunConservesFlow(book, before, allowCrossed);
      var start := RunBook(book, before, allowCrossed);
      if Apply(start, e, allowCrossed).error == NoError {
        ApplyConservesFlow(start, e, allowCrossed);
      } else {
        ErrorKeepsBook(start, e, allowCrossed);
      }
    }
  }

  lemma {:induction false} ErrorKeepsBook(book: Book, e: MarketEvent, allowCrossed: bool)
    requires Apply(book, e, allowCrossed).error != NoError
    ensures Apply(book, e, allowCrossed).book == book
  {
  }

  /** Every book reachable from a healthy one is healthy. */
  lemma {:induction false} RunKeepsBook(book: Book, events: seq<MarketEvent>, allowCrossed: bool)
    requires BookOk(book, allowCrossed)
    ensures BookOk(RunBook(book, events, allowCrossed), allowCrossed)
    decreases |events|
  {
    if |events| > 0 {
      RunKeepsBook(book, events[..|events| - 1], allowCrossed);
      ApplyKeepsBook(RunBook(book, events[..|events| - 1], allowCrossed), events[|events| - 1], allowCrossed);
    }
  }
}
