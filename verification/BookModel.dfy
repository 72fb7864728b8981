/** The ten-level book as a value: what one event does to it. */
module BookModel {
  import opened MarketTypes

  predicate Before(side: Side, left: int, right: int) {
    if side == Bid then left > right else left < right
  }

  function Sign(side: Side): int {
    if side == Bid then 1 else -1
  }

  function SideOf(book: Book, side: Side): Levels {
    if side == Bid then book.bids else book.asks
  }

  function WithSide(book: Book, side: Side, levels: Levels): Book {
    if side == Bid then book.(bids := levels) else book.(asks := levels)
  }

  function SaturatedAdd(left: U32, right: U32): U32 {
    if left + right > U32_MAX then U32_MAX else left + right
  }

  /** One side of a healthy book: active levels first, strictly ordered by price,
      positive prices, and all-zero unused slots. */
  ghost predicate SideOk(s: Levels, side: Side) {
    && (forall i | 0 <= i < DEPTH :: s[i].quantity == 0 ==> s[i].price == 0)
    && (forall i | 0 <= i < DEPTH :: s[i].quantity != 0 ==> s[i].price > 0)
    && (forall i, j | 0 <= i < j < DEPTH :: s[j].quantity != 0 ==>
          s[i].quantity != 0 && Before(side, s[i].price, s[j].price))
  }

  predicate Crossed(book: Book) {
    book.bids[0].quantity != 0 && book.asks[0].quantity != 0 &&
    book.bids[0].price >= book.asks[0].price
  }

  ghost predicate BookOk(book: Book, allowCrossed: bool) {
    SideOk(book.bids, Bid) && SideOk(book.asks, Ask) && (allowCrossed || !Crossed(book))
  }

  /** The first index from i on that is empty or not strictly better than the price. */
  function RankFrom(s: seq<Level>, side: Side, price: int, i: nat): (r: nat)
    requires i <= |s|
    ensures i <= r <= |s|
    ensures forall k | i <= k < r :: s[k].quantity != 0 && Before(side, s[k].price, price)
    ensures r < |s| ==> s[r].quantity == 0 || !Before(side, s[r].price, price)
    decreases |s| - i
  {
    if i == |s| || s[i].quantity == 0 || !Before(side, s[i].price, price) then i
    else RankFrom(s, side, price, i + 1)
  }

  /** How many leading levels are active and strictly better than the price. */
  function Rank(s: seq<Level>, side: Side, price: int): nat {
    RankFrom(s, side, price, 0)
  }

  predicate Found(s: seq<Level>, side: Side, price: int) {
    var r := Rank(s, side, price);
    r < |s| && s[r].quantity != 0 && s[r].price == price
  }

  /** A new level at an index; the last level falls off. */
  function InsertAt(s: Levels, index: nat, level: Level): Levels
    requires index < DEPTH
  {
    s[..index] + [level] + s[index..DEPTH - 1]
  }

  function RemoveAt(s: Levels, index: nat): Levels
    requires index < DEPTH
  {
    s[..index] + s[index + 1..] + [EMPTY]
  }

  /** What an event would do to its own side, before the crossed-book check. */
  datatype Effect =
    | Refused(error: BookError)
    | Effect(levels: Levels, orderFlow: int, tradeFlow: int)

  function EffectOf(s: Levels, e: MarketEvent): Effect {
    var r := Rank(s, e.side, e.price);
    var found := Found(s, e.side, e.price);
    var sign := Sign(e.side);
    match e.kind
    case Add =>
      if found then
        var q := SaturatedAdd(s[r].quantity, e.quantity);
        Effect(s[r := s[r].(quantity := q)], sign * (q - s[r].quantity), 0)
      else if r == DEPTH then Effect(s, 0, 0)
      else Effect(InsertAt(s, r, Level(e.price, e.quantity)), sign * e.quantity, 0)
    case Update =>
      if !found then Refused(MissingPrice)
      else
        Effect(if e.quantity == 0 then RemoveAt(s, r) else s[r := s[r].(quantity := e.quantity)],
               sign * (e.quantity - s[r].quantity), 0)
    case UnknownType(_) => Refused(InvalidEvent)
    case _ =>
      if !found then Refused(MissingPrice)
      else
        var removed := if e.quantity < s[r].quantity then e.quantity else s[r].quantity;
        Effect(if removed == s[r].quantity then RemoveAt(s, r)
               else s[r := s[r].(quantity := s[r].quantity - removed)],
               -sign * removed,
               if e.kind == Trade then -sign * removed else 0)
  }

  datatype Outcome = Outcome(book: Book, error: BookError, orderFlow: int, tradeFlow: int)

  /** One event against the whole book, as the C++ order book answers it. */
  function Apply(book: Book, e: MarketEvent, allowCrossed: bool): Outcome {
    if ValidateEvent(e) != Valid then Outcome(book, InvalidEvent, 0, 0)
    else
      match EffectOf(SideOf(book, e.side), e)
      case Refused(error) => Outcome(book, error, 0, 0)
      case Effect(levels, orderFlow, tradeFlow) =>
        var candidate := WithSide(book, e.side, levels);
        if !allowCrossed && Crossed(candidate)
        then Outcome(book, CrossedBook, orderFlow, tradeFlow)
        else Outcome(candidate, NoError, orderFlow, tradeFlow)
  }

  // ---------- The invariant every event keeps ----------

  lemma {:induction false} InsertedLevel(s: Levels, index: nat, level: Level, k: nat)
    requires index < DEPTH && k < DEPTH
    ensures InsertAt(s, index, level)[k] ==
            if k < index then s[k] else if k == index then level else s[k - 1]
  {
  }

  /** Behind its rank a healthy side holds only strictly worse prices. */
  lemma {:induction false} BehindRank(s: Levels, side: Side, price: int, k: nat)
    requires SideOk(s, side) && !Found(s, side, price)
    requires Rank(s, side, price) <= k < DEPTH && s[k].quantity != 0
    ensures Before(side, price, s[k].price)
  {
    var r := Rank(s, side, price);
    assert s[r].quantity != 0;
  }

  lemma {:induction false} InsertKeepsSide(s: Levels, side: Side, level: Level)
    requires SideOk(s, side) && !Found(s, side, level.price)
    requires level.price > 0 && level.quantity != 0
    requires Rank(s, side, level.price) < DEPTH
    ensures SideOk(InsertAt(s, Rank(s, side, level.price), level), side)
  {
    var r := Rank(s, side, level.price);
    var t := InsertAt(s, r, level);
    forall k | 0 <= k < DEPTH
      ensures t[k].quantity == 0 ==> t[k].price == 0
      ensures t[k].quantity != 0 ==> t[k].price > 0
    {
      InsertedLevel(s, r, level, k);
    }
    forall i, j | 0 <= i < j < DEPTH && t[j].quantity != 0
      ensures t[i].quantity != 0 && Before(side, t[i].price, t[j].price)
    {
      InsertedLevel(s, r, level, i);
      InsertedLevel(s, r, level, j);
      if i <= r < j {
        BehindRank(s, side, level.price, j - 1);
      }
    }
  }

  lemma {:induction false} RemovedLevel(s: Levels, index: nat, k: nat)
    requires index < DEPTH && k < DEPTH
    ensures RemoveAt(s, index)[k] ==
            if k < index then s[k] else if k < DEPTH - 1 then s[k + 1] else EMPTY
  {
  }

  lemma {:induction false} RemoveKeepsSide(s: Levels, side: Side, index: nat)
    requires SideOk(s, side) && index < DEPTH
    ensures SideOk(RemoveAt(s, index), side)
  {
    var t := RemoveAt(s, index);
    forall k | 0 <= k < DEPTH
      ensures t[k].quantity == 0 ==> t[k].price == 0
      ensures t[k].quantity != 0 ==> t[k].price > 0
    {
      RemovedLevel(s, index, k);
    }
    forall i, j | 0 <= i < j < DEPTH && t[j].quantity != 0
      ensures t[i].quantity != 0 && Before(side, t[i].price, t[j].price)
    {
      RemovedLevel(s, index, i);
      RemovedLevel(s, index, j);
    }
  }

  lemma {:induction false} EffectKeepsSide(s: Levels, e: MarketEvent)
    requires SideOk(s, e.side) && ValidateEvent(e) == Valid && EffectOf(s, e).Effect?
    ensures SideOk(EffectOf(s, e).levels, e.side)
  {
    var r := Rank(s, e.side, e.price);
    if Found(s, e.side, e.price) {
      RemoveKeepsSide(s, e.side, r);
    } else if r < DEPTH {
      InsertKeepsSide(s, e.side, Level(e.price, e.quantity));
    }
  }

  /** Every event leaves the book healthy, an error leaves it untouched, and the
      invariant-violation error is never the answer. */
  lemma {:induction false} ApplyKeepsBook(book: Book, e: MarketEvent, allowCrossed: bool)
    requires BookOk(book, allowCrossed)
    ensures var o := Apply(book, e, allowCrossed);
      && BookOk(o.book, allowCrossed)
      && o.error != InvariantViolation
      && (o.error != NoError ==> o.book == book)
  {
    if ValidateEvent(e) == Valid && EffectOf(SideOf(book, e.side), e).Effect? {
      EffectKeepsSide(SideOf(book, e.side), e);
    }
  }
}
