/** Shared event, book and signal types of the market engine, with the integer
    widths of the C++ headers and of the RTL type package. */
module MarketTypes {

  const DEPTH: nat := 10
  const FEATURES: nat := 8
  const U32_MAX: int := 0xFFFF_FFFF
  const I32_MAX: int := 0x7FFF_FFFF
  const I32_MIN: int := -0x8000_0000
  const I64_MAX: int := 0x7FFF_FFFF_FFFF_FFFF
  const I64_MIN: int := -0x8000_0000_0000_0000

  type U8 = x: int | 0 <= x < 0x100
  type U32 = x: int | 0 <= x <= U32_MAX
  type I32 = x: int | I32_MIN <= x <= I32_MAX
  type U64 = x: int | 0 <= x < 0x1_0000_0000_0000_0000

  datatype Side = Bid | Ask | UnknownSide(sideCode: U8)

  datatype EventType = Add | Update | Cancel | Trade | UnknownType(typeCode: U8)

  datatype MarketEvent = MarketEvent(
    timestamp: U64, kind: EventType, side: Side, price: I32, quantity: U32)

  /** The RTL carries the type in two bits and the side in one, so its event
      register cannot hold an unknown code. */
  type RtlEvent = e: MarketEvent | !e.kind.UnknownType? && !e.side.UnknownSide?
    witness MarketEvent(0, Add, Bid, 0, 0)

  datatype Level = Level(price: I32, quantity: U32)

  const EMPTY: Level := Level(0, 0)

  type Levels = s: seq<Level> | |s| == DEPTH witness seq(DEPTH, _ => EMPTY)

  datatype Book = Book(bids: Levels, asks: Levels)

  const NO_LEVELS: Levels :=
    [EMPTY, EMPTY, EMPTY, EMPTY, EMPTY, EMPTY, EMPTY, EMPTY, EMPTY, EMPTY]
  const EMPTY_BOOK: Book := Book(NO_LEVELS, NO_LEVELS)

  datatype BookError = NoError | InvalidEvent | MissingPrice | CrossedBook | InvariantViolation

  datatype ValidationError =
    | Valid | InvalidEventType | InvalidSide | NonPositivePrice | ZeroQuantity

  datatype Action = Hold | Buy | Sell

  datatype Option<+T> = None | Some(value: T)

  /** The first rule an event breaks, in the order the C++ checks them. */
  function ValidateEvent(e: MarketEvent): ValidationError {
    if e.kind.UnknownType? then InvalidEventType
    else if e.side.UnknownSide? then InvalidSide
    else if e.price <= 0 then NonPositivePrice
    else if e.quantity == 0 && e.kind != Update then ZeroQuantity
    else Valid
  }

  /** Each reason on the raw fields: the type's before the side's, the side's before the
      price's, the price's before the quantity's. */
  lemma {:induction false} ReasonsExactly(e: MarketEvent)
    ensures ValidateEvent(e) == InvalidEventType <==> e.kind.UnknownType?
    ensures ValidateEvent(e) == InvalidSide <==> !e.kind.UnknownType? && e.side.UnknownSide?
    ensures ValidateEvent(e) == NonPositivePrice <==>
            !e.kind.UnknownType? && !e.side.UnknownSide? && e.price <= 0
    ensures ValidateEvent(e) == ZeroQuantity <==>
            !e.kind.UnknownType? && !e.side.UnknownSide? && e.price > 0 && e.quantity == 0 && e.kind != Update
    ensures ValidateEvent(e) == Valid <==>
            !e.kind.UnknownType? && !e.side.UnknownSide? && e.price > 0 && (e.quantity > 0 || e.kind == Update)
  {
  }

  /** The RTL's own well-formedness test. */
  predicate EventIsWellFormed(e: RtlEvent) {
    if e.price <= 0 then false
    else if e.kind == Add || e.kind == Cancel || e.kind == Trade then e.quantity != 0
    else true
  }
}
