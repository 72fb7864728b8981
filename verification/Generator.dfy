/** src/app/market_data_generator.cpp: the event loop over two price maps, and how the
    order book follows it. */
module Generator {
  import opened MarketTypes
  import opened BookModel
  import opened BookMap
  import opened BookFlow
  import opened Decoding
  import CsvCodec

  /** One ordered map per side, from price to quantity. */
  datatype Maps = Maps(bids: map<int, int>, asks: map<int, int>)

  const NO_MAPS: Maps := Maps(map[], map[])
  const PRICES: nat := 10

  function LowPrice(side: Side): int {
    if side == Bid then 9991 else 10002
  }

  ghost predicate LevelsOk(m: map<int, int>, side: Side) {
    forall p | p in m :: LowPrice(side) <= p < LowPrice(side) + PRICES && 1 <= m[p] <= U32_MAX
  }

  ghost predicate MapsOk(maps: Maps) {
    LevelsOk(maps.bids, Bid) && LevelsOk(maps.asks, Ask)
  }

  function LevelsOf(maps: Maps, side: Side): map<int, int> {
    if side == Bid then maps.bids else maps.asks
  }

  function WithLevels(maps: Maps, side: Side, m: map<int, int>): Maps {
    if side == Bid then maps.(bids := m) else maps.(asks := m)
  }

  // ---------- The selected entry of an ordered map ----------

  /** How many of the n prices from low on are in the map. */
  function CountKeys(m: map<int, int>, low: int, n: nat): nat {
    if n == 0 then 0 else CountKeys(m, low, n - 1) + if low + n - 1 in m then 1 else 0
  }

  /** The key an iterator reaches k steps from the beginning: exactly k keys are smaller. */
  function KthKey(m: map<int, int>, low: int, n: nat, k: nat): (x: int)
    requires k < CountKeys(m, low, n)
    ensures x in m && low <= x < low + n && CountKeys(m, low, x - low) == k
  {
    if low + n - 1 in m && CountKeys(m, low, n - 1) == k then low + n - 1 else KthKey(m, low, n - 1, k)
  }

  /** The size of a side's map, whose keys all lie in its window. */
  function Size(m: map<int, int>, side: Side): nat {
    CountKeys(m, LowPrice(side), PRICES)
  }

  // ---------- One event ----------

  type Draws = nat -> U64

  function Uniform(draw: U64, low: nat, high: nat): (r: nat)
    requires low <= high
    ensures low <= r <= high
  {
    low + draw % (high - low + 1)
  }

  function Truncate32(x: nat): U32 {
    x % 0x1_0000_0000
  }

  function TimestampOf(index: nat): U64 {
    (1000 + index * 10) % 0x1_0000_0000_0000_0000
  }

  datatype Turn = Turn(event: MarketEvent, maps: Maps, at: nat)

  function SumTo(m: map<int, int>, price: int, quantity: int): int {
    var sum := (if price in m then m[price] else 0) + quantity;
    if sum > U32_MAX then U32_MAX else sum
  }

  function AddTurn(maps: Maps, side: Side, random: Draws, at: nat, index: nat): Turn {
    var m := LevelsOf(maps, side);
    var price := Uniform(random(at), LowPrice(side), LowPrice(side) + PRICES - 1);
    var quantity := Uniform(random(at + 1), 1, 1000);
    Turn(MarketEvent(TimestampOf(index), Add, side, price, quantity),
         WithLevels(maps, side, m[price := SumTo(m, price, quantity)]), at + 2)
  }

  /** The quantity a Cancel or Trade draws: up to 500 more than is there, cut to 32 bits. */
  function TakenQuantity(draw: U64, present: nat): U32 {
    Truncate32(Uniform(draw, 1, present + 500))
  }

  function Selected(m: map<int, int>, side: Side, draw: U64): (x: int)
    requires Size(m, side) > 0
    ensures x in m && LowPrice(side) <= x < LowPrice(side) + PRICES
  {
    KthKey(m, LowPrice(side), PRICES, Uniform(draw, 0, Size(m, side) - 1))
  }

  function Taken(m: map<int, int>, price: int, kind: EventType, quantity: U32): map<int, int>
    requires price in m
  {
    if kind == Update then (if quantity == 0 then m - {price} else m[price := quantity])
    else if quantity >= m[price] then m - {price} else m[price := m[price] - quantity]
  }

  function TakeTurn(maps: Maps, side: Side, kind: EventType, random: Draws, at: nat, index: nat): Turn
    requires MapsOk(maps) && Size(LevelsOf(maps, side), side) > 0
  {
    var m := LevelsOf(maps, side);
    var price := Selected(m, side, random(at));
    var quantity :=
      if kind == Update then Uniform(random(at + 1), 0, 1000) else TakenQuantity(random(at + 1), m[price]);
    Turn(MarketEvent(TimestampOf(index), kind, side, price, quantity),
         WithLevels(maps, side, Taken(m, price, kind, quantity)), at + 2)
  }

  function KindOf(choice: nat): EventType {
    if choice < 45 then Add else if choice < 60 then Update else if choice < 80 then Cancel else Trade
  }

  function SideTurn(maps: Maps, side: Side, random: Draws, at: nat, index: nat): Turn
    requires MapsOk(maps)
  {
    if Size(LevelsOf(maps, side), side) == 0 then AddTurn(maps, side, random, at, index)
    else
      var kind := KindOf(Uniform(random(at), 0, 99));
      if kind == Add then AddTurn(maps, side, random, at + 1, index)
      else TakeTurn(maps, side, kind, random, at + 1, index)
  }

  function NextTurn(maps: Maps, random: Draws, at: nat, index: nat): Turn
    requires MapsOk(maps)
  {
    SideTurn(maps, if Uniform(random(at), 0, 1) == 0 then Bid else Ask, random, at + 1, index)
  }

  lemma {:induction false} TurnKeepsMaps(maps: Maps, random: Draws, at: nat, index: nat)
    requires MapsOk(maps)
    ensures MapsOk(NextTurn(maps, random, at, index).maps)
  {
  }

  // ---------- A turn on the raw draws ----------

  lemma {:induction false} NoKeysNone(m: map<int, int>, low: int, n: nat)
    ensures CountKeys(m, low, n) == 0 <==> forall p | low <= p < low + n :: p !in m
    decreases n
  {
    if n > 0 { NoKeysNone(m, low, n - 1); }
  }

  lemma {:induction false} EmptyExactly(m: map<int, int>, side: Side)
    requires LevelsOk(m, side)
    ensures Size(m, side) == 0 <==> forall p :: p !in m
  {
    NoKeysNone(m, LowPrice(side), PRICES);
  }

  /** Which event a turn draws: the side by parity; on an empty side an Add; otherwise 45 in
      a hundred Add, 15 Update, 20 Cancel and 20 Trade. */
  lemma {:induction false} TurnKindExactly(maps: Maps, random: Draws, at: nat, index: nat)
    requires MapsOk(maps)
    ensures var e := NextTurn(maps, random, at, index).event;
      var m, choice := if random(at) % 2 == 0 then maps.bids else maps.asks, random(at + 1) % 100;
      var empty := forall p :: p !in m;
      && (e.side == Bid <==> random(at) % 2 == 0) && (e.side == Ask <==> random(at) % 2 == 1)
      && e.timestamp == (1000 + 10 * index) % 0x1_0000_0000_0000_0000
      && (e.kind == Add <==> empty || choice < 45)
      && (e.kind == Update <==> !empty && 45 <= choice < 60)
      && (e.kind == Cancel <==> !empty && 60 <= choice < 80)
      && (e.kind == Trade <==> !empty && 80 <= choice)
  {
    var side := if random(at) % 2 == 0 then Bid else Ask;
    EmptyExactly(LevelsOf(maps, side), side);
  }

  /** Price and quantity on the last two draws of a turn: an Add draws one of ten prices on
      its side of the middle and up to a thousand; the others take the selected entry, an
      Update up to a thousand, a Cancel or Trade up to 500 more than is there, cut to 32
      bits. */
  ghost predicate DrawnAmounts(turn: Turn, m: map<int, int>, random: Draws) {
    var e := turn.event;
    && turn.at >= 2
    && (if e.kind == Add then
          && e.price == (if e.side == Bid then 9991 else 10002) + random(turn.at - 2) % 10
          && e.quantity == 1 + random(turn.at - 1) % 1000
        else
          && e.price in m && m[e.price] > 0 && Size(m, e.side) > 0 && e.price >= LowPrice(e.side)
          && CountKeys(m, LowPrice(e.side), e.price - LowPrice(e.side)) == random(turn.at - 2) % Size(m, e.side)
          && e.quantity == (if e.kind == Update then random(turn.at - 1) % 1001
                            else (1 + random(turn.at - 1) % (m[e.price] + 500)) % 0x1_0000_0000))
  }

  lemma {:induction false} TurnAmountsExactly(maps: Maps, random: Draws, at: nat, index: nat)
    requires MapsOk(maps)
    ensures DrawnAmounts(NextTurn(maps, random, at, index), if random(at) % 2 == 0 then maps.bids else maps.asks, random)
  {
    SideAmounts(maps, if random(at) % 2 == 0 then Bid else Ask, random, at + 1, index);
  }

  lemma {:induction false} SideAmounts(maps: Maps, side: Side, random: Draws, at: nat, index: nat)
    requires MapsOk(maps) && (side == Bid || side == Ask)
    ensures DrawnAmounts(SideTurn(maps, side, random, at, index), LevelsOf(maps, side), random)
  {
    if Size(LevelsOf(maps, side), side) == 0 {
      AddAmounts(maps, side, random, at, index);
    } else {
      var kind := KindOf(Uniform(random(at), 0, 99));
      if kind == Add {
        AddAmounts(maps, side, random, at + 1, index);
      } else {
        TakeAmounts(maps, side, kind, random, at + 1, index);
      }
    }
  }

  lemma {:induction false} AddAmounts(maps: Maps, side: Side, random: Draws, at: nat, index: nat)
    requires side == Bid || side == Ask
    ensures DrawnAmounts(AddTurn(maps, side, random, at, index), LevelsOf(maps, side), random)
  {
  }

  lemma {:induction false} TakeAmounts(maps: Maps, side: Side, kind: EventType, random: Draws, at: nat, index: nat)
    requires MapsOk(maps) && Size(LevelsOf(maps, side), side) > 0
    requires (side == Bid || side == Ask) && (kind == Update || kind == Cancel || kind == Trade)
    ensures DrawnAmounts(TakeTurn(maps, side, kind, random, at, index), LevelsOf(maps, side), random)
  {
  }

  // ---------- The loop ----------

  datatype Progress = Progress(events: seq<MarketEvent>, maps: Maps, at: nat)

  function Generated(random: Draws, count: nat): (r: Progress)
    ensures MapsOk(r.maps) && |r.events| == count
  {
    if count == 0 then Progress([], NO_MAPS, 0)
    else
      var before := Generated(random, count - 1);
      var turn := NextTurn(before.maps, random, before.at, count - 1);
      TurnKeepsMaps(before.maps, random, before.at, count - 1);
      Progress(before.events + [turn.event], turn.maps, turn.at)
  }

  /** The Add branch of the loop, on one side's map. */
  method DrawAdd(m: map<int, int>, side: Side, random: Draws, at: nat)
    returns (price: I32, quantity: U32, levels: map<int, int>)
    ensures price == Uniform(random(at), LowPrice(side), LowPrice(side) + PRICES - 1)
    ensures quantity == Uniform(random(at + 1), 1, 1000) && levels == m[price := SumTo(m, price, quantity)]
  {
    price := Uniform(random(at), if side == Bid then 9991 else 10002, if side == Bid then 10000 else 10011);
    quantity := Uniform(random(at + 1), 1, 1000);
    var sum := (if price in m then m[price] else 0) + quantity;
    levels := m[price := if sum > U32_MAX then U32_MAX else sum];
  }

  /** The other branch, on the entry the iterator was advanced to. */
  method DrawTake(m: map<int, int>, price: int, kind: EventType, random: Draws, at: nat)
    returns (quantity: U32, levels: map<int, int>)
    requires price in m && 1 <= m[price] <= U32_MAX && kind != Add
    ensures quantity == if kind == Update then Uniform(random(at), 0, 1000) else TakenQuantity(random(at), m[price])
    ensures levels == Taken(m, price, kind, quantity)
  {
    if kind == Update {
      quantity := Uniform(random(at), 0, 1000);
      levels := if quantity == 0 then m - {price} else m[price := quantity];
    } else {
      quantity := Truncate32(Uniform(random(at), 1, m[price] + 500));
      levels := if quantity >= m[price] then m - {price} else m[price := m[price] - quantity];
    }
  }

  /** The body of the loop once the side is drawn, on that side's map. */
  method DrawEvent(maps: Maps, side: Side, random: Draws, start: nat, index: nat)
    returns (e: MarketEvent, levels: map<int, int>, at: nat)
    requires MapsOk(maps)
    ensures Turn(e, WithLevels(maps, side, levels), at) == SideTurn(maps, side, random, start, index)
  {
    at, levels := start, LevelsOf(maps, side);
    var kind := Add;
    if Size(levels, side) > 0 {
      kind := KindOf(Uniform(random(at), 0, 99));
      at := at + 1;
    }
    var price, quantity := 0, 0;
    if kind == Add {
      price, quantity, levels := DrawAdd(levels, side, random, at);
    } else {
      price := Selected(levels, side, random(at));
      quantity, levels := DrawTake(levels, price, kind, random, at + 1);
    }
    at := at + 2;
    e := MarketEvent(TimestampOf(index), kind, side, price, quantity);
  }

  /** One turn of the loop, on the two maps. */
  method DrawTurn(bids: map<int, int>, asks: map<int, int>, random: Draws, at: nat, index: nat)
    returns (e: MarketEvent, newBids: map<int, int>, newAsks: map<int, int>, next: nat)
    requires MapsOk(Maps(bids, asks))
    ensures Turn(e, Maps(newBids, newAsks), next) == NextTurn(Maps(bids, asks), random, at, index)
  {
    var side := if Uniform(random(at), 0, 1) == 0 then Bid else Ask;
    var levels;
    e, levels, next := DrawEvent(Maps(bids, asks), side, random, at + 1, index);
    newBids, newAsks := bids, asks;
    if side == Bid { newBids := levels; } else { newAsks := levels; }
  }

  lemma {:induction false} OneMoreEvent(random: Draws, index: nat, before: Progress, turn: Turn, after: Progress)
    requires before == Generated(random, index) && after == Generated(random, index + 1)
    requires turn == NextTurn(before.maps, random, before.at, index)
    ensures after == Progress(before.events + [turn.event], turn.maps, turn.at)
  {
  }

  /** `None` stands for the exception on an empty request. */
  method GenerateMarketEvents(random: Draws, count: nat) returns (result: Option<seq<MarketEvent>>)
    ensures result == if count == 0 then None else Some(Generated(random, count).events)
  {
    if count == 0 { return None; }
    var bids: map<int, int>, asks: map<int, int> := map[], map[];
    var at, events := 0, [];
    for index := 0 to count
      invariant Progress(events, Maps(bids, asks), at) == Generated(random, index)
    {
      ghost var before := Progress(events, Maps(bids, asks), at);
      var e, newBids, newAsks, next := DrawTurn(bids, asks, random, at, index);
      OneMoreEvent(random, index, before, Turn(e, Maps(newBids, newAsks), next), Generated(random, index + 1));
      bids, asks, events, at := newBids, newAsks, events + [e], next;
    }
    return Some(events);
  }

  // ---------- The book follows the maps ----------

  ghost predicate Mirrors(book: Book, maps: Maps) {
    BookOk(book, false) && Quantities(book.bids) == maps.bids && Quantities(book.asks) == maps.asks
  }

  /** Prices of one side all lie in its window. */
  ghost predicate InWindow(s: Levels, side: Side) {
    forall k | 0 <= k < DEPTH && s[k].quantity != 0 :: LowPrice(side) <= s[k].price < LowPrice(side) + PRICES
  }

  /** Ten ordered prices in a window of ten are the window. */
  lemma {:induction false} FullSide(s: Levels, side: Side, k: nat)
    requires SideOk(s, side) && InWindow(s, side) && s[DEPTH - 1].quantity != 0 && k < DEPTH
    requires side == Bid || side == Ask
    ensures if side == Bid then s[k].price <= LowPrice(side) + PRICES - 1 - k else s[k].price >= LowPrice(side) + k
    decreases k
  {
    if k > 0 {
      FullSide(s, side, k - 1);
      assert Before(side, s[k - 1].price, s[k].price);
    }
  }

  lemma {:induction false} FullSideUp(s: Levels, side: Side, k: nat)
    requires SideOk(s, side) && InWindow(s, side) && s[DEPTH - 1].quantity != 0 && k < DEPTH
    requires side == Bid || side == Ask
    ensures s[k].price == if side == Bid then LowPrice(side) + PRICES - 1 - k else LowPrice(side) + k
    decreases DEPTH - k
  {
    FullSide(s, side, k);
    if k < DEPTH - 1 {
      FullSideUp(s, side, k + 1);
      assert Before(side, s[k].price, s[k + 1].price);
    }
  }

  lemma {:induction false} FullFinds(s: Levels, side: Side, price: int)
    requires SideOk(s, side) && InWindow(s, side) && s[DEPTH - 1].quantity != 0 && (side == Bid || side == Ask)
    requires LowPrice(side) <= price < LowPrice(side) + PRICES
    ensures Found(s, side, price)
  {
    var k := if side == Bid then LowPrice(side) + PRICES - 1 - price else price - LowPrice(side);
    FullSideUp(s, side, k);
    assert Rank(s, side, price) == k;
  }

  /** So a price of the window that is not listed always finds room. */
  lemma {:induction false} RoomInside(s: Levels, side: Side, price: int)
    requires SideOk(s, side) && InWindow(s, side) && (side == Bid || side == Ask)
    requires LowPrice(side) <= price < LowPrice(side) + PRICES && !Found(s, side, price)
    ensures s[DEPTH - 1].quantity == 0 && Rank(s, side, price) < DEPTH
  {
    if s[DEPTH - 1].quantity != 0 { FullFinds(s, side, price); }
  }

  lemma {:induction false} MirrorWindow(s: Levels, m: map<int, int>, side: Side)
    requires SideOk(s, side) && Quantities(s) == m && LevelsOk(m, side)
    ensures InWindow(s, side)
  {
    SideIsDistinct(s, side);
    forall k | 0 <= k < DEPTH && s[k].quantity != 0
      ensures LowPrice(side) <= s[k].price < LowPrice(side) + PRICES
    {
      LevelInMap(s, k);
    }
  }

  /** An insertion with room to spare adds the new price and drops nothing. */
  lemma {:induction false} InsertAdds(s: Levels, side: Side, level: Level, t: Levels)
    requires Inserted(s, side, level, t) && s[DEPTH - 1].quantity == 0
    ensures Quantities(t) == Quantities(s)[level.price := level.quantity]
  {
    var all, kept := Quantities(s)[level.price := level.quantity], Quantities(t);
    forall p | p in kept ensures p in all && all[p] == kept[p] {
      KeptIsListed(s, side, level, t, p);
    }
    forall p | p in all ensures p in kept {
      KeptOrLast(s, side, level, t, p);
    }
  }

  lemma {:induction false} BestPriceInMap(book: Book, maps: Maps, side: Side)
    requires Mirrors(book, maps) && SideOf(book, side)[0].quantity != 0 && (side == Bid || side == Ask)
    ensures SideOf(book, side)[0].price in LevelsOf(maps, side)
  {
    SideIsDistinct(SideOf(book, side), side);
    LevelInMap(SideOf(book, side), 0);
  }

  /** What a turn's event is, and what it does to its own map. */
  ghost predicate TurnOf(m: map<int, int>, e: MarketEvent, after: map<int, int>) {
    && (e.side == Bid || e.side == Ask) && !e.kind.UnknownType?
    && LowPrice(e.side) <= e.price < LowPrice(e.side) + PRICES
    && (e.quantity == 0 ==> e.kind != Add && (e.kind != Update ==> after == m))
    && (e.kind == Add || e.price in m)
    && (match e.kind
        case Add => after == m[e.price := SumTo(m, e.price, e.quantity)]
        case _ => after == Taken(m, e.price, e.kind, e.quantity))
  }

  lemma {:induction false} TurnShape(maps: Maps, random: Draws, at: nat, index: nat)
    requires MapsOk(maps)
    ensures var turn := NextTurn(maps, random, at, index);
      && turn.maps == WithLevels(maps, turn.event.side, LevelsOf(turn.maps, turn.event.side))
      && TurnOf(LevelsOf(maps, turn.event.side), turn.event, LevelsOf(turn.maps, turn.event.side))
  {
    var turn := NextTurn(maps, random, at, index);
    var m := LevelsOf(maps, turn.event.side);
    if turn.event.quantity == 0 && turn.event.kind != Update {
      assert m[turn.event.price := m[turn.event.price]] == m;
    }
  }

  lemma {:induction false} NeverThroughOpposite(book: Book, maps: Maps, e: MarketEvent)
    requires MapsOk(maps) && Mirrors(book, maps) && (e.side == Bid || e.side == Ask)
    requires LowPrice(e.side) <= e.price < LowPrice(e.side) + PRICES
    ensures !AddsThroughOpposite(book, e)
  {
    var other := if e.side == Bid then Ask else Bid;
    if SideOf(book, other)[0].quantity != 0 {
      BestPriceInMap(book, maps, other);
    }
  }

  lemma {:induction false} InsertFollows(s: Levels, m: map<int, int>, e: MarketEvent)
    requires SideOk(s, e.side) && Quantities(s) == m && LevelsOk(m, e.side) && ValidateEvent(e) == Valid
    requires e.kind == Add && !Found(s, e.side, e.price) && (e.side == Bid || e.side == Ask)
    requires LowPrice(e.side) <= e.price < LowPrice(e.side) + PRICES
    ensures EffectOf(s, e).Effect? && EvictedBy(s, e) == 0
    ensures Quantities(EffectOf(s, e).levels) == m[e.price := e.quantity]
  {
    MirrorWindow(s, m, e.side);
    RoomInside(s, e.side, e.price);
    InsertKeepsSide(s, e.side, Level(e.price, e.quantity));
    InsertAdds(s, e.side, Level(e.price, e.quantity), EffectOf(s, e).levels);
  }

  /** On one side, the array does what the map did, with room for every price. */
  lemma {:induction false} SideFollows(s: Levels, m: map<int, int>, e: MarketEvent, after: map<int, int>)
    requires SideOk(s, e.side) && Quantities(s) == m && LevelsOk(m, e.side) && TurnOf(m, e, after)
    requires ValidateEvent(e) == Valid
    ensures EffectOf(s, e).Effect? && Quantities(EffectOf(s, e).levels) == after && EvictedBy(s, e) == 0
  {
    PriceListed(s, e.side, e.price);
    if e.kind == Add && e.price !in m {
      InsertFollows(s, m, e);
    } else {
      EffectIsMapStep(s, e);
    }
  }

  /** An event with a quantity is accepted, mirrors the map step and evicts nothing; one
      whose quantity was cut to zero is refused and changes neither side. */
  lemma {:induction false} BookFollowsTurn(book: Book, maps: Maps, random: Draws, at: nat, index: nat)
    requires MapsOk(maps) && Mirrors(book, maps)
    ensures var turn := NextTurn(maps, random, at, index);
      var o := Apply(book, turn.event, false);
      && Mirrors(o.book, turn.maps)
      && o.error == (if ValidateEvent(turn.event) == Valid then NoError else InvalidEvent)
      && (o.error == NoError ==> EvictedBy(SideOf(book, turn.event.side), turn.event) == 0)
  {
    var turn := NextTurn(maps, random, at, index);
    TurnShape(maps, random, at, index);
    BookFollowsEvent(book, maps, turn.event, turn.maps);
  }

  lemma {:induction false} BookFollowsEvent(book: Book, maps: Maps, e: MarketEvent, after: Maps)
    requires MapsOk(maps) && Mirrors(book, maps)
    requires after == WithLevels(maps, e.side, LevelsOf(after, e.side))
    requires TurnOf(LevelsOf(maps, e.side), e, LevelsOf(after, e.side))
    ensures var o := Apply(book, e, false);
      && Mirrors(o.book, after)
      && o.error == (if ValidateEvent(e) == Valid then NoError else InvalidEvent)
      && (o.error == NoError ==> EvictedBy(SideOf(book, e.side), e) == 0)
  {
    ApplyKeepsBook(book, e, false);
    if ValidateEvent(e) == Valid {
      SideFollows(SideOf(book, e.side), LevelsOf(maps, e.side), e, LevelsOf(after, e.side));
      NeverThroughOpposite(book, maps, e);
      CrossedExactly(book, e);
    }
  }

  // ---------- Whole streams ----------

  /** For every random stream and every length: the book fed the generated events ends with
      the generator's two maps, and evicts nothing on the way. */
  lemma {:induction false} BookFollowsGenerator(random: Draws, count: nat)
    ensures Mirrors(RunBook(EMPTY_BOOK, Generated(random, count).events, false), Generated(random, count).maps)
    ensures EvictedSum(EMPTY_BOOK, Generated(random, count).events, false) == 0
    decreases count
  {
    if count == 0 {
      assert Quantities(NO_LEVELS) == map[] by { EmptyQuantities(DEPTH); }
    } else {
      BookFollowsGenerator(random, count - 1);
      var before := Generated(random, count - 1);
      BookFollowsTurn(RunBook(EMPTY_BOOK, before.events, false), before.maps, random, before.at, count - 1);
      assert Generated(random, count).events[..count - 1] == before.events;
    }
  }

  lemma {:induction false} EmptyQuantities(n: nat)
    requires n <= DEPTH
    ensures Quantities(NO_LEVELS[..n]) == map[]
    ensures NO_LEVELS[..DEPTH] == NO_LEVELS
    decreases n
  {
    if n > 0 {
      EmptyQuantities(n - 1);
      assert NO_LEVELS[..n][..n - 1] == NO_LEVELS[..n - 1];
    }
  }

  // ---------- When every generated event is valid ----------

  /** The turn draws, for a Cancel or Trade of a level near the 32-bit limit, exactly 2^32. */
  ghost predicate DrawsCut(maps: Maps, random: Draws, at: nat, index: nat)
    requires MapsOk(maps)
  {
    var turn := NextTurn(maps, random, at, index);
    var m := LevelsOf(maps, turn.event.side);
    && (turn.event.kind == Cancel || turn.event.kind == Trade)
    && turn.event.price in m && m[turn.event.price] >= U32_MAX + 1 - 500
    && random(turn.at - 1) % (m[turn.event.price] + 500) == U32_MAX
  }

  lemma {:induction false} TakenZero(draw: U64, present: nat)
    requires 0 < present <= U32_MAX
    ensures TakenQuantity(draw, present) == 0 <==>
              present >= U32_MAX + 1 - 500 && draw % (present + 500) == U32_MAX
  {
    var rest := draw % (present + 500);
    assert Uniform(draw, 1, present + 500) == 1 + rest;
    if rest < U32_MAX {
      SmallRemainder(1 + rest, 0x1_0000_0000);
    } else {
      assert (1 + rest) % 0x1_0000_0000 == rest - U32_MAX;
    }
  }

  lemma {:induction false} TakeTurnCut(maps: Maps, side: Side, kind: EventType, random: Draws, at: nat, index: nat)
    requires MapsOk(maps) && Size(LevelsOf(maps, side), side) > 0
    requires (side == Bid || side == Ask) && (kind == Update || kind == Cancel || kind == Trade)
    ensures var turn := TakeTurn(maps, side, kind, random, at, index);
      var m := LevelsOf(maps, side);
      && turn.event.price in m
      && ValidateEvent(turn.event) ==
         (if kind != Update && m[turn.event.price] >= U32_MAX + 1 - 500
             && random(turn.at - 1) % (m[turn.event.price] + 500) == U32_MAX then ZeroQuantity else Valid)
  {
    var m := LevelsOf(maps, side);
    var price := Selected(m, side, random(at));
    TakenZero(random(at + 1), m[price]);
  }

  /** The exact condition, turn by turn: an event is refused if and only if it is a Cancel
      or Trade of a level of at least 2^32 - 500 whose draw leaves remainder 2^32 - 1. */
  lemma {:induction false} RefusedExactly(maps: Maps, random: Draws, at: nat, index: nat)
    requires MapsOk(maps)
    ensures ValidateEvent(NextTurn(maps, random, at, index).event) ==
              if DrawsCut(maps, random, at, index) then ZeroQuantity else Valid
  {
    var side := if Uniform(random(at), 0, 1) == 0 then Bid else Ask;
    if Size(LevelsOf(maps, side), side) > 0 {
      var kind := KindOf(Uniform(random(at + 1), 0, 99));
      if kind != Add { TakeTurnCut(maps, side, kind, random, at + 2, index); }
    }
  }

  ghost predicate CutAt(random: Draws, k: nat) {
    DrawsCut(Generated(random, k).maps, random, Generated(random, k).at, k)
  }

  lemma {:induction false} EventValidExactly(random: Draws, count: nat, k: nat)
    requires k < count
    ensures ValidateEvent(Generated(random, count).events[k]) == if CutAt(random, k) then ZeroQuantity else Valid
  {
    GeneratedAt(random, k, count);
    RefusedExactly(Generated(random, k).maps, random, Generated(random, k).at, k);
  }

  /** So a stream of draws gives valid events only if and only if no turn draws the cut. */
  lemma {:induction false} StreamValidExactly(random: Draws, count: nat)
    ensures AllValid(Generated(random, count).events) <==> forall k: nat | k < count :: !CutAt(random, k)
  {
    forall k: nat | k < count
      ensures ValidateEvent(Generated(random, count).events[k]) == if CutAt(random, k) then ZeroQuantity else Valid
    {
      EventValidExactly(random, count, k);
    }
  }

  /** The longest stream in which no quantity can come near 32 bits. */
  const SAFE_COUNT: nat := 4_294_967

  ghost predicate LevelsUpTo(m: map<int, int>, limit: int) {
    forall p | p in m :: m[p] <= limit
  }

  ghost predicate MapsUpTo(maps: Maps, limit: int) {
    LevelsUpTo(maps.bids, limit) && LevelsUpTo(maps.asks, limit)
  }

  lemma {:induction false} AddGrowth(maps: Maps, side: Side, random: Draws, at: nat, index: nat, limit: nat)
    requires MapsUpTo(maps, limit) && (side == Bid || side == Ask)
    ensures MapsUpTo(AddTurn(maps, side, random, at, index).maps, limit + 1000)
    ensures ValidateEvent(AddTurn(maps, side, random, at, index).event) == Valid
  {
    var m := LevelsOf(maps, side);
    var e := AddTurn(maps, side, random, at, index).event;
    assert SumTo(m, e.price, e.quantity) <= limit + 1000;
  }

  lemma {:induction false} TakeGrowth(maps: Maps, side: Side, kind: EventType, random: Draws, at: nat, index: nat,
                                      limit: nat)
    requires MapsOk(maps) && Size(LevelsOf(maps, side), side) > 0 && MapsUpTo(maps, limit)
    requires (side == Bid || side == Ask) && (kind == Update || kind == Cancel || kind == Trade)
    ensures MapsUpTo(TakeTurn(maps, side, kind, random, at, index).maps, limit + 1000)
    ensures limit + 500 <= U32_MAX ==> ValidateEvent(TakeTurn(maps, side, kind, random, at, index).event) == Valid
  {
    var m := LevelsOf(maps, side);
    var e := TakeTurn(maps, side, kind, random, at, index).event;
    assert e.price in m && m[e.price] <= limit;
    assert LevelsUpTo(Taken(m, e.price, kind, e.quantity), limit + 1000);
  }

  /** One turn adds at most a thousand to a level, and is valid while levels leave room. */
  lemma {:induction false} TurnGrowth(maps: Maps, random: Draws, at: nat, index: nat, limit: nat)
    requires MapsOk(maps) && MapsUpTo(maps, limit)
    ensures MapsUpTo(NextTurn(maps, random, at, index).maps, limit + 1000)
    ensures limit + 500 <= U32_MAX ==> ValidateEvent(NextTurn(maps, random, at, index).event) == Valid
  {
    var side := if Uniform(random(at), 0, 1) == 0 then Bid else Ask;
    if Size(LevelsOf(maps, side), side) == 0 {
      AddGrowth(maps, side, random, at + 1, index, limit);
    } else {
      var kind := KindOf(Uniform(random(at + 1), 0, 99));
      if kind == Add {
        AddGrowth(maps, side, random, at + 2, index, limit);
      } else {
        TakeGrowth(maps, side, kind, random, at + 2, index, limit);
      }
    }
  }

  lemma {:induction false} LevelGrowth(random: Draws, count: nat)
    ensures MapsUpTo(Generated(random, count).maps, 1000 * count)
    decreases count
  {
    if count > 0 {
      LevelGrowth(random, count - 1);
      var before := Generated(random, count - 1);
      TurnGrowth(before.maps, random, before.at, count - 1, 1000 * (count - 1));
    }
  }

  lemma {:induction false} ShortStreamsValid(random: Draws, count: nat)
    requires count <= SAFE_COUNT
    ensures AllValid(Generated(random, count).events)
    decreases count
  {
    if count > 0 {
      ShortStreamsValid(random, count - 1);
      LevelGrowth(random, count - 1);
      var before := Generated(random, count - 1);
      TurnGrowth(before.maps, random, before.at, count - 1, 1000 * (count - 1));
    }
  }

  /** Draws that add a thousand to the lowest bid n times, then cancel exactly 2^32. */
  function Cutting(n: nat, i: nat): U64 {
    if i < 4 * n then (if i % 4 == 2 then 999 else 0)
    else if i == 4 * n then 60
    else if i == 4 * n + 2 then U32_MAX
    else 0
  }

  lemma {:induction false} NoEntries(m: map<int, int>, low: int, n: nat)
    requires m == map[]
    ensures CountKeys(m, low, n) == 0
    decreases n
  {
    if n > 0 { NoEntries(m, low, n - 1); }
  }

  lemma {:induction false} OneEntry(m: map<int, int>, quantity: int, n: nat)
    requires n > 0 && m == map[9991 := quantity]
    ensures CountKeys(m, 9991, n) == 1
    decreases n
  {
    if n > 1 {
      OneEntry(m, quantity, n - 1);
    } else {
      assert CountKeys(m, 9991, 0) == 0;
    }
  }

  lemma {:induction false} FirstAdd(maps: Maps, random: Draws)
    requires random(0) == 0 && random(1) == 0 && random(2) == 999 && maps == NO_MAPS
    ensures NextTurn(maps, random, 0, 0).maps == Maps(map[9991 := 1000], map[])
    ensures NextTurn(maps, random, 0, 0).at == 3
  {
    NoEntries(maps.bids, LowPrice(Bid), PRICES);
    assert NextTurn(maps, random, 0, 0) == AddTurn(maps, Bid, random, 1, 0);
  }

  lemma {:induction false} AddDraws(n: nat, k: nat)
    requires 0 < k < n
    ensures Cutting(n, 4 * k - 1) == Cutting(n, 4 * k) == Cutting(n, 4 * k + 1) == 0
    ensures Cutting(n, 4 * k + 2) == 999
  {
    assert (4 * k - 1) % 4 == 3 && (4 * k) % 4 == 0 && (4 * k + 1) % 4 == 1 && (4 * k + 2) % 4 == 2;
  }

  lemma {:induction false} CancelDraws(n: nat)
    requires 0 < n
    ensures Cutting(n, 4 * n - 1) == 0 && Cutting(n, 4 * n) == 60 && Cutting(n, 4 * n + 2) == U32_MAX
  {
    assert (4 * n - 1) % 4 == 3;
  }

  lemma {:induction false} NextAdd(random: Draws, at: nat, k: nat, quantity: nat, maps: Maps)
    requires random(at) == random(at + 1) == random(at + 2) == 0 && random(at + 3) == 999
    requires maps == Maps(map[9991 := quantity], map[]) && 0 < quantity && quantity + 1000 <= U32_MAX
    ensures NextTurn(maps, random, at, k).maps == Maps(map[9991 := quantity + 1000], map[])
    ensures NextTurn(maps, random, at, k).at == at + 4
  {
    OneEntry(maps.bids, quantity, PRICES);
    assert NextTurn(maps, random, at, k) == AddTurn(maps, Bid, random, at + 2, k);
    assert maps.bids[9991 := quantity + 1000] == map[9991 := quantity + 1000];
  }

  lemma {:induction false} OnlyAdds(random: Draws, n: nat, k: nat)
    requires 0 < k <= n && 1000 * n <= U32_MAX && forall i :: random(i) == Cutting(n, i)
    ensures Generated(random, k).maps == Maps(map[9991 := 1000 * k], map[])
    ensures Generated(random, k).at == 4 * k - 1
    decreases k
  {
    if k == 1 {
      assert Generated(random, 0) == Progress([], NO_MAPS, 0);
      assert Cutting(n, 0) == 0 && Cutting(n, 1) == 0 && Cutting(n, 2) == 999;
      FirstAdd(NO_MAPS, random);
    } else {
      var j := k - 1;
      OnlyAdds(random, n, j);
      AddDraws(n, j);
      var before, next := Generated(random, j), Generated(random, k);
      GeneratedTurn(random, j, before, next);
      OneMoreAdd(random, j, before, next);
    }
  }

  lemma {:induction false} GeneratedTurn(random: Draws, j: nat, before: Progress, next: Progress)
    requires before == Generated(random, j) && next == Generated(random, j + 1)
    ensures next.maps == NextTurn(before.maps, random, before.at, j).maps
    ensures next.at == NextTurn(before.maps, random, before.at, j).at
  {
  }

  lemma {:induction false} OneMoreAdd(random: Draws, j: nat, before: Progress, next: Progress)
    requires 0 < j && 1000 * (j + 1) <= U32_MAX
    requires MapsOk(before.maps) && before.maps == Maps(map[9991 := 1000 * j], map[]) && before.at == 4 * j - 1
    requires next.maps == NextTurn(before.maps, random, before.at, j).maps
    requires next.at == NextTurn(before.maps, random, before.at, j).at
    requires random(4 * j - 1) == random(4 * j) == random(4 * j + 1) == 0 && random(4 * j + 2) == 999
    ensures next.maps == Maps(map[9991 := 1000 * (j + 1)], map[])
    ensures next.at == 4 * (j + 1) - 1
  {
    NextAdd(random, before.at, j, 1000 * j, before.maps);
  }

  lemma {:induction false} CutQuantity(present: nat)
    requires present <= U32_MAX < present + 500
    ensures TakenQuantity(U32_MAX, present) == 0
  {
    SmallRemainder(U32_MAX, present + 500);
    assert Uniform(U32_MAX, 1, present + 500) == 0x1_0000_0000;
  }

  lemma {:induction false} SmallRemainder(x: nat, d: nat)
    requires x < d
    ensures x % d == x
  {
  }

  lemma {:induction false} OnlySelected(m: map<int, int>, quantity: int, draw: U64)
    requires m == map[9991 := quantity]
    ensures Size(m, Bid) == 1 && Selected(m, Bid, draw) == 9991
  {
    OneEntry(m, quantity, PRICES);
  }

  /** The next Cancel draws exactly 2^32, cut to zero. */
  lemma {:induction false} CancelCut(random: Draws, n: nat, maps: Maps)
    requires n > 0 && 1000 * n <= U32_MAX < 1000 * n + 500 && forall i :: random(i) == Cutting(n, i)
    requires maps == Maps(map[9991 := 1000 * n], map[])
    ensures ValidateEvent(NextTurn(maps, random, 4 * n - 1, n).event) == ZeroQuantity
  {
    CancelDraws(n);
    CutQuantity(1000 * n);
    CancelTurn(maps, random, 4 * n - 1, n, 1000 * n);
  }

  lemma {:induction false} CancelTurn(maps: Maps, random: Draws, at: nat, index: nat, quantity: nat)
    requires random(at) == 0 && random(at + 1) == 60
    requires maps == Maps(map[9991 := quantity], map[]) && 0 < quantity <= U32_MAX
    ensures var e := NextTurn(maps, random, at, index).event;
      e.kind == Cancel && e.side == Bid && e.price == 9991 && e.quantity == TakenQuantity(random(at + 3), quantity)
  {
    OnlySelected(maps.bids, quantity, random(at + 2));
  }

  lemma {:induction false} GeneratedPrefix(random: Draws, k: nat, count: nat)
    requires k <= count
    ensures Generated(random, count).events[..k] == Generated(random, k).events
  {
    var streams := (i: nat) => Generated(random, i).events;
    forall i: nat | i < count ensures Extends(streams, i) {
      GeneratedStep(random, i + 1);
    }
    ChainPrefix(streams, k, count);
  }

  ghost predicate Extends<T>(lists: nat -> seq<T>, i: nat) {
    |lists(i)| == i && |lists(i + 1)| == i + 1 && lists(i + 1)[..i] == lists(i)
  }

  /** Lists that each extend the one before are all prefixes of the last. */
  lemma {:induction false} ChainPrefix<T>(lists: nat -> seq<T>, k: nat, count: nat)
    requires k <= count && |lists(0)| == 0 && forall i: nat | i < count :: Extends(lists, i)
    ensures |lists(count)| == count && lists(count)[..k] == lists(k)
    decreases count
  {
    if 0 < count {
      assert Extends(lists, count - 1);
      if k < count {
        ChainPrefix(lists, k, count - 1);
        assert lists(count)[..count - 1][..k] == lists(count)[..k];
      }
    }
  }

  lemma {:induction false} GeneratedStep(random: Draws, count: nat)
    requires count > 0
    ensures Generated(random, count).events[..count - 1] == Generated(random, count - 1).events
  {
  }

  /** Each event of a stream is the one drawn at its turn. */
  lemma {:induction false} GeneratedAt(random: Draws, k: nat, count: nat)
    requires k < count
    ensures Generated(random, count).events[k] == Generated(random, k + 1).events[k]
  {
    GeneratedPrefix(random, k + 1, count);
    assert Generated(random, count).events[..k + 1][k] == Generated(random, count).events[k];
  }

  lemma {:induction false} CutStream(random: Draws, count: nat, n: nat)
    requires 0 < n < count && 1000 * n <= U32_MAX < 1000 * n + 500 && forall i :: random(i) == Cutting(n, i)
    ensures !AllValid(Generated(random, count).events)
  {
    OnlyAdds(random, n, n);
    CancelCut(random, n, Generated(random, n).maps);
    GeneratedAt(random, n, count);
    assert ValidateEvent(Generated(random, count).events[n]) != Valid;
  }

  lemma {:induction false} LongStreamsFail(count: nat, n: nat)
    requires 0 < n < count && 1000 * n <= U32_MAX < 1000 * n + 500
    ensures exists random: Draws :: !AllValid(Generated(random, count).events)
  {
    var random: Draws := (i: nat) => Cutting(n, i);
    CutStream(random, count, n);
  }

  /** Every stream of draws gives a valid stream of events exactly up to 4294967 events.
      Which streams of draws a seed of the source's engine can give is not modelled: from
      4294968 events on, validity is not a matter of the count alone. */
  lemma {:induction false} ValidExactlyUpToSafeCount(count: nat)
    ensures (forall random: Draws :: AllValid(Generated(random, count).events)) <==> count <= SAFE_COUNT
  {
    if count <= SAFE_COUNT {
      forall random: Draws ensures AllValid(Generated(random, count).events) {
        ShortStreamsValid(random, count);
      }
    } else {
      LongStreamsFail(count, SAFE_COUNT);
    }
  }

  datatype Outcome = EmptyRequest | Refused(reason: ValidationError) | Written(text: string)

  /** `generate_market_csv`: the events, written as text, or the exception that ends it. */
  method GenerateMarketCsv(random: Draws, count: nat) returns (outcome: Outcome)
    ensures outcome.EmptyRequest? <==> count == 0
    ensures outcome.Written? <==> count > 0 && AllValid(Generated(random, count).events)
    ensures outcome.Written? ==> outcome.text == CsvCodec.Text(Generated(random, count).events)
    ensures outcome.Refused? ==> outcome.reason == ZeroQuantity
    ensures 0 < count <= SAFE_COUNT ==> outcome.Written?
  {
    var events := GenerateMarketEvents(random, count);
    if events.None? { return EmptyRequest; }
    var text, refusal := CsvCodec.WriteCsv(events.value);
    if refusal.Some? { RefusalIsCut(random, count, refusal.value); }
    if count <= SAFE_COUNT { ShortStreamsValid(random, count); }
    outcome := if refusal.Some? then Outcome.Refused(refusal.value) else Written(text);
  }

  /** The only rule a generated event can break. */
  lemma {:induction false} RefusalIsCut(random: Draws, count: nat, reason: ValidationError)
    requires reason != Valid && exists k | 0 <= k < count :: ValidateEvent(Generated(random, count).events[k]) == reason
    ensures reason == ZeroQuantity
  {
    var k :| 0 <= k < count && ValidateEvent(Generated(random, count).events[k]) == reason;
    EventValidExactly(random, count, k);
  }

  /** A written stream, read back and fed to an empty book, is accepted whole: the book is
      the generator's maps, and reported flow alone explains its imbalance. */
  lemma {:induction false} WrittenStreamReplays(random: Draws, count: nat)
    requires AllValid(Generated(random, count).events)
    ensures var read := CsvCodec.Decode(CsvCodec.Text(Generated(random, count).events));
      && read == Ok(Generated(random, count).events)
      && Mirrors(RunBook(EMPTY_BOOK, read.value, false), Generated(random, count).maps)
      && FlowSum(EMPTY_BOOK, read.value, false) == Imbalance(RunBook(EMPTY_BOOK, read.value, false))
  {
    var events := Generated(random, count).events;
    CsvCodec.CsvRoundTrip(events);
    BookFollowsGenerator(random, count);
    RunConservesFlow(EMPTY_BOOK, events, false);
    assert Imbalance(EMPTY_BOOK) == 0;
  }

  /** Each valid event of a stream is accepted at its turn. */
  lemma {:induction false} EveryEventAccepted(random: Draws, count: nat, k: nat)
    requires k < count && ValidateEvent(Generated(random, count).events[k]) == Valid
    ensures var events := Generated(random, count).events;
      Apply(RunBook(EMPTY_BOOK, events[..k], false), events[k], false).error == NoError
  {
    GeneratedPrefix(random, k, count);
    GeneratedAt(random, k, count);
    BookFollowsGenerator(random, k);
    var before := Generated(random, k);
    BookFollowsTurn(RunBook(EMPTY_BOOK, before.events, false), before.maps, random, before.at, k);
  }
}
