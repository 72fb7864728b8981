/** src/market/event.cpp, binary half: the strict little-endian MKT1 format, its writer and
    its reader. */
module BinaryCodec {
  import opened MarketTypes
  import opened Decoding

  type Bytes = seq<U8>

  datatype Field =
    | VersionField | HeaderSizeField | RecordSizeField | CountField
    | TimestampField | EventCodesField | ReservedField | PriceField | QuantityField

  datatype CodecError =
    | BadMagic | Truncated(field: Field) | UnsupportedLayout
    | NonZeroReserved(index: nat) | InvalidRecord(index: nat, reason: ValidationError)
    | TrailingBytes | TooManyEvents | Unwritable(reason: ValidationError)

  type Result<+T> = Decoded<T, CodecError>

  /** What was read, and the input behind it. */
  datatype Taken<+T> = Taken(value: T, rest: Bytes)

  // ---------- Little-endian integers ----------

  function Pow256(n: nat): nat {
    if n == 0 then 1 else 0x100 * Pow256(n - 1)
  }

  function ToLe(value: nat, n: nat): (b: Bytes)
    ensures |b| == n
  {
    if n == 0 then [] else [value % 0x100] + ToLe(value / 0x100, n - 1)
  }

  function FromLe(b: Bytes): nat {
    if |b| == 0 then 0 else b[0] + 0x100 * FromLe(b[1..])
  }

  lemma {:induction false} FromLeBound(b: Bytes)
    ensures FromLe(b) < Pow256(|b|)
    decreases |b|
  {
    if |b| > 0 { FromLeBound(b[1..]); }
  }

  lemma {:induction false} FromToLe(value: nat, n: nat)
    requires value < Pow256(n)
    ensures FromLe(ToLe(value, n)) == value
    decreases n
  {
    if n > 0 {
      FromToLe(value / 0x100, n - 1);
      assert ToLe(value, n)[1..] == ToLe(value / 0x100, n - 1);
    }
  }

  lemma {:induction false} ToFromLe(b: Bytes)
    ensures ToLe(FromLe(b), |b|) == b
    decreases |b|
  {
    if |b| > 0 {
      ToFromLe(b[1..]);
      assert FromLe(b) % 0x100 == b[0] && FromLe(b) / 0x100 == FromLe(b[1..]);
    }
  }

  lemma {:induction false} FromLeAppend(b: Bytes, last: U8)
    ensures FromLe(b + [last]) == FromLe(b) + last * Pow256(|b|)
    decreases |b|
  {
    if |b| == 0 {
      assert b + [last] == [last];
      assert FromLe([last][1..]) == 0;
    } else {
      FromLeAppend(b[1..], last);
      assert (b + [last])[1..] == b[1..] + [last];
      assert last * Pow256(|b|) == 0x100 * (last * Pow256(|b| - 1));
    }
  }

  lemma {:induction false} PowValues()
    ensures Pow256(2) == 0x1_0000 && Pow256(4) == 0x1_0000_0000 && Pow256(8) == 0x1_0000_0000_0000_0000
  {
    assert Pow256(1) == 0x100 && Pow256(3) == 0x100_0000;
    assert Pow256(5) == 0x100_0000_0000 && Pow256(6) == 0x1_0000_0000_0000 && Pow256(7) == 0x100_0000_0000_0000;
  }

  // ---------- The format ----------

  const MAGIC: Bytes := [0x4D, 0x4B, 0x54, 0x31]
  const VERSION: nat := 1
  const HEADER_SIZE: nat := 16
  const RECORD_SIZE: nat := 20

  function TypeCode(kind: EventType): U8 {
    match kind
    case Add => 0
    case Update => 1
    case Cancel => 2
    case Trade => 3
    case UnknownType(code) => code
  }

  function TypeOf(code: U8): EventType {
    if code == 0 then Add else if code == 1 then Update else if code == 2 then Cancel else if code == 3 then Trade
    else UnknownType(code)
  }

  function SideCode(side: Side): U8 {
    match side
    case Bid => 0
    case Ask => 1
    case UnknownSide(code) => code
  }

  function SideOf(code: U8): Side {
    if code == 0 then Bid else if code == 1 then Ask else UnknownSide(code)
  }

  function Signed(bits: U32): I32 {
    if bits > I32_MAX then bits - 0x1_0000_0000 else bits
  }

  function Unsigned(price: I32): U32 {
    if price < 0 then price + 0x1_0000_0000 else price
  }

  function Record(e: MarketEvent): (b: Bytes)
    ensures |b| == RECORD_SIZE
  {
    ToLe(e.timestamp, 8) + ([TypeCode(e.kind), SideCode(e.side)] +
    (ToLe(0, 2) + (ToLe(Unsigned(e.price), 4) + ToLe(e.quantity, 4))))
  }

  lemma {:induction false} Pieces(a: Bytes, codes: Bytes, zeros: Bytes, price: Bytes, quantity: Bytes)
    requires |a| == 8 && |codes| == 2 && |zeros| == 2 && |price| == 4 && |quantity| == 4
    ensures var b := a + (codes + (zeros + (price + quantity)));
      && |b| == 20 && b[..8] == a && b[8..10] == codes && b[10..12] == zeros && b[12..16] == price && b[16..20] == quantity
  {
  }

  /** Where the fields of a record stand, and the code of each type and side. */
  lemma {:induction false} RecordLayout(e: MarketEvent)
    ensures var b := Record(e);
      && |b| == 20 && FromLe(b[..8]) == e.timestamp
      && (e.kind == Add ==> b[8] == 0) && (e.kind == Update ==> b[8] == 1)
      && (e.kind == Cancel ==> b[8] == 2) && (e.kind == Trade ==> b[8] == 3)
      && (e.side == Bid ==> b[9] == 0) && (e.side == Ask ==> b[9] == 1)
      && b[10] == 0 && b[11] == 0
      && FromLe(b[12..16]) == (if e.price < 0 then e.price + 0x1_0000_0000 else e.price)
      && FromLe(b[16..20]) == e.quantity
  {
    var codes := [TypeCode(e.kind), SideCode(e.side)];
    PowValues();
    Pieces(ToLe(e.timestamp, 8), codes, ToLe(0, 2), ToLe(Unsigned(e.price), 4), ToLe(e.quantity, 4));
    FromToLe(e.timestamp, 8);
    FromToLe(Unsigned(e.price), 4);
    FromToLe(e.quantity, 4);
    var b := Record(e);
    assert b[8] == b[8..10][0] && b[9] == b[8..10][1];
    ZeroBytes();
    assert b[10] == b[10..12][0] && b[11] == b[10..12][1];
  }

  lemma {:induction false} ZeroBytes()
    ensures ToLe(0, 2) == [0, 0]
  {
    assert ToLe(0, 1) == [0] + ToLe(0, 0);
  }

  /** Items one after another. */
  function PutMany<T>(put: T -> Bytes, items: seq<T>): Bytes
    decreases |items|
  {
    if |items| == 0 then [] else put(items[0]) + PutMany(put, items[1..])
  }

  function Records(es: seq<MarketEvent>): Bytes {
    PutMany(Record, es)
  }

  function Encode(es: seq<MarketEvent>): Bytes {
    MAGIC + (ToLe(VERSION, 2) + (ToLe(HEADER_SIZE, 2) + (ToLe(RECORD_SIZE, 4) + (ToLe(|es|, 4) + Records(es)))))
  }

  lemma {:induction false} HeaderPieces(version: Bytes, header: Bytes, record: Bytes, count: Bytes, rest: Bytes)
    requires |version| == 2 && |header| == 2 && |record| == 4 && |count| == 4
    ensures var b := MAGIC + (version + (header + (record + (count + rest))));
      && |b| == 16 + |rest| && b[..4] == MAGIC && b[4..6] == version && b[6..8] == header && b[8..12] == record
      && b[12..16] == count && b[16..] == rest
  {
  }

  /** The sixteen bytes of the header: MKT1, version 1, header size 16, record size 20 and
      the number of records. */
  lemma {:induction false} HeaderLayout(es: seq<MarketEvent>)
    requires |es| <= U32_MAX
    ensures var b := Encode(es);
      && |b| >= 16 && b[..4] == [0x4D, 0x4B, 0x54, 0x31]
      && FromLe(b[4..6]) == 1 && FromLe(b[6..8]) == 16 && FromLe(b[8..12]) == 20 && FromLe(b[12..16]) == |es|
      && b[16..] == Records(es)
  {
    PowValues();
    HeaderPieces(ToLe(VERSION, 2), ToLe(HEADER_SIZE, 2), ToLe(RECORD_SIZE, 4), ToLe(|es|, 4), Records(es));
    FromToLe(VERSION, 2);
    FromToLe(HEADER_SIZE, 2);
    FromToLe(RECORD_SIZE, 4);
    FromToLe(|es|, 4);
  }

  predicate Writable(es: seq<MarketEvent>) {
    |es| <= U32_MAX && AllValid(es)
  }

  // ---------- Decoding as a function of the bytes ----------

  function TakeLe(b: Bytes, n: nat, field: Field): (r: Result<Taken<int>>)
    ensures r.Ok? ==> 0 <= r.value.value < Pow256(n)
  {
    if |b| < n then Err(Truncated(field))
    else
      FromLeBound(b[..n]);
      Ok(Taken(FromLe(b[..n]), b[n..]))
  }

  function DecodeRecord(b: Bytes, index: nat): Result<Taken<MarketEvent>> {
    PowValues();
    var timestamp :- TakeLe(b, 8, TimestampField);
    if |timestamp.rest| < 2 then Err(Truncated(EventCodesField))
    else
      var kind, side := TypeOf(timestamp.rest[0]), SideOf(timestamp.rest[1]);
      var reserved :- TakeLe(timestamp.rest[2..], 2, ReservedField);
      if reserved.value != 0 then Err(NonZeroReserved(index))
      else
        var price :- TakeLe(reserved.rest, 4, PriceField);
        var quantity :- TakeLe(price.rest, 4, QuantityField);
        var e := MarketEvent(timestamp.value, kind, side, Signed(price.value), quantity.value);
        if ValidateEvent(e) != Valid then Err(InvalidRecord(index, ValidateEvent(e)))
        else Ok(Taken(e, quantity.rest))
  }

  /** A given number of items one after another, stopping at the first error. */
  function TakeMany<T>(take: (Bytes, nat) -> Result<Taken<T>>, b: Bytes, index: nat, count: nat): Result<Taken<seq<T>>>
    decreases count
  {
    if count == 0 then Ok(Taken([], b))
    else
      var first :- take(b, index);
      var others :- TakeMany(take, first.rest, index + 1, count - 1);
      Ok(Taken([first.value] + others.value, others.rest))
  }

  function DecodeRecords(b: Bytes, index: nat, count: nat): Result<Taken<seq<MarketEvent>>> {
    TakeMany(DecodeRecord, b, index, count)
  }

  function DecodeHeader(b: Bytes): (r: Result<Taken<int>>)
    ensures r.Ok? ==> 0 <= r.value.value <= U32_MAX
  {
    PowValues();
    if |b| < 4 || b[..4] != MAGIC then Err(BadMagic)
    else
      var version :- TakeLe(b[4..], 2, VersionField);
      var headerSize :- TakeLe(version.rest, 2, HeaderSizeField);
      var recordSize :- TakeLe(headerSize.rest, 4, RecordSizeField);
      var count :- TakeLe(recordSize.rest, 4, CountField);
      if version.value != VERSION || headerSize.value != HEADER_SIZE || recordSize.value != RECORD_SIZE
      then Err(UnsupportedLayout)
      else Ok(count)
  }

  function Decode(b: Bytes): Result<seq<MarketEvent>> {
    var count :- DecodeHeader(b);
    var events :- DecodeRecords(count.rest, 0, count.value);
    if |events.rest| > 0 then Err(TrailingBytes) else Ok(events.value)
  }

  // ---------- Round trip ----------

  lemma {:induction false} TakeBack(b: Bytes, value: nat, n: nat, rest: Bytes, field: Field)
    requires value < Pow256(n) && b == ToLe(value, n) + rest
    ensures TakeLe(b, n, field) == Ok(Taken(value, rest))
  {
    FromToLe(value, n);
    assert b[..n] == ToLe(value, n) && b[n..] == rest;
  }

  /** The two ways a record's five parts are put together with what follows. */
  lemma {:induction false} Regroup(a: Bytes, b: Bytes, c: Bytes, d: Bytes, e: Bytes, rest: Bytes)
    ensures a + (b + (c + (d + (e + rest)))) == a + (b + (c + (d + e))) + rest
  {
    assert d + (e + rest) == d + e + rest;
    assert c + (d + e + rest) == c + (d + e) + rest;
    assert b + (c + (d + e) + rest) == b + (c + (d + e)) + rest;
  }

  lemma {:induction false} RecordBack(b: Bytes, e: MarketEvent, rest: Bytes, index: nat)
    requires ValidateEvent(e) == Valid && b == Record(e) + rest
    ensures DecodeRecord(b, index) == Ok(Taken(e, rest))
  {
    PowValues();
    var quantity := ToLe(e.quantity, 4) + rest;
    var price := ToLe(Unsigned(e.price), 4) + quantity;
    var reserved := ToLe(0, 2) + price;
    var codes := [TypeCode(e.kind), SideCode(e.side)] + reserved;
    Regroup(ToLe(e.timestamp, 8), [TypeCode(e.kind), SideCode(e.side)], ToLe(0, 2), ToLe(Unsigned(e.price), 4),
            ToLe(e.quantity, 4), rest);
    TakeBack(b, e.timestamp, 8, codes, TimestampField);
    assert codes[2..] == reserved;
    TakeBack(reserved, 0, 2, price, ReservedField);
    TakeBack(price, Unsigned(e.price), 4, quantity, PriceField);
    TakeBack(quantity, e.quantity, 4, rest, QuantityField);
  }

  /** If one item is taken back as it was put, so is a list of them. */
  lemma {:induction false} ManyBack<T(!new)>(put: T -> Bytes, take: (Bytes, nat) -> Result<Taken<T>>, items: seq<T>,
                                             index: nat)
    requires forall k, rest, i | 0 <= k < |items| :: take(put(items[k]) + rest, i) == Ok(Taken(items[k], rest))
    ensures TakeMany(take, PutMany(put, items), index, |items|) == Ok(Taken(items, []))
    decreases |items|
  {
    if |items| > 0 {
      var others := items[1..];
      assert forall k | 0 <= k < |others| :: others[k] == items[k + 1];
      ManyBack(put, take, others, index + 1);
      assert take(put(items[0]) + PutMany(put, others), index) == Ok(Taken(items[0], PutMany(put, others)));
      assert items == [items[0]] + others;
    }
  }

  lemma {:induction false} RecordsBack(es: seq<MarketEvent>)
    requires AllValid(es)
    ensures DecodeRecords(Records(es), 0, |es|) == Ok(Taken(es, []))
  {
    forall k, rest, i: nat | 0 <= k < |es| ensures DecodeRecord(Record(es[k]) + rest, i) == Ok(Taken(es[k], rest)) {
      RecordBack(Record(es[k]) + rest, es[k], rest, i);
    }
    ManyBack(Record, DecodeRecord, es, 0);
  }

  lemma {:induction false} HeaderBack(b: Bytes, count: nat, rest: Bytes)
    requires count <= U32_MAX
    requires b == MAGIC + (ToLe(VERSION, 2) + (ToLe(HEADER_SIZE, 2) + (ToLe(RECORD_SIZE, 4) + (ToLe(count, 4) + rest))))
    ensures DecodeHeader(b) == Ok(Taken(count, rest))
  {
    PowValues();
    var d := ToLe(count, 4) + rest;
    var c := ToLe(RECORD_SIZE, 4) + d;
    var a := ToLe(HEADER_SIZE, 2) + c;
    assert b[..4] == MAGIC && b[4..] == ToLe(VERSION, 2) + a;
    TakeBack(b[4..], VERSION, 2, a, VersionField);
    TakeBack(a, HEADER_SIZE, 2, c, HeaderSizeField);
    TakeBack(c, RECORD_SIZE, 4, d, RecordSizeField);
    TakeBack(d, count, 4, rest, CountField);
  }

  /** Reading what was written gives the events back. */
  lemma {:induction false} BinaryRoundTrip(es: seq<MarketEvent>)
    requires Writable(es)
    ensures Decode(Encode(es)) == Ok(es)
  {
    HeaderBack(Encode(es), |es|, Records(es));
    RecordsBack(es);
  }

  // ---------- Canonicity ----------

  lemma {:induction false} TakeGives(b: Bytes, n: nat, field: Field)
    requires TakeLe(b, n, field).Ok?
    ensures b == ToLe(TakeLe(b, n, field).value.value, n) + TakeLe(b, n, field).value.rest
  {
    ToFromLe(b[..n]);
  }

  lemma {:induction false} RecordGives(b: Bytes, index: nat)
    requires DecodeRecord(b, index).Ok?
    ensures var t := DecodeRecord(b, index).value;
      ValidateEvent(t.value) == Valid && b == Record(t.value) + t.rest
  {
    PowValues();
    var timestamp := TakeLe(b, 8, TimestampField).value;
    var reserved := TakeLe(timestamp.rest[2..], 2, ReservedField).value;
    var price := TakeLe(reserved.rest, 4, PriceField).value;
    var quantity := TakeLe(price.rest, 4, QuantityField).value;
    TakeGives(b, 8, TimestampField);
    TakeGives(timestamp.rest[2..], 2, ReservedField);
    TakeGives(reserved.rest, 4, PriceField);
    TakeGives(price.rest, 4, QuantityField);
    var e := DecodeRecord(b, index).value.value;
    var codes := [TypeCode(e.kind), SideCode(e.side)];
    assert timestamp.rest == codes + timestamp.rest[2..];
    assert Unsigned(e.price) == price.value;
    Regroup(ToLe(e.timestamp, 8), codes, ToLe(0, 2), ToLe(price.value, 4), ToLe(e.quantity, 4), quantity.rest);
  }

  /** If whatever one item is taken from was put, so was whatever a list is taken from. */
  lemma {:induction false} ManyGive<T(!new)>(put: T -> Bytes, take: (Bytes, nat) -> Result<Taken<T>>, good: T -> bool,
                                             b: Bytes, index: nat, count: nat)
    requires forall c, i | take(c, i).Ok? ::
      good(take(c, i).value.value) && c == put(take(c, i).value.value) + take(c, i).value.rest
    requires TakeMany(take, b, index, count).Ok?
    ensures var t := TakeMany(take, b, index, count).value;
      |t.value| == count && (forall k | 0 <= k < count :: good(t.value[k])) && b == PutMany(put, t.value) + t.rest
    decreases count
  {
    if count > 0 {
      var first := take(b, index).value;
      ManyGive(put, take, good, first.rest, index + 1, count - 1);
      var others := TakeMany(take, first.rest, index + 1, count - 1).value;
      assert ([first.value] + others.value)[1..] == others.value;
    }
  }

  lemma {:induction false} RecordsGive(b: Bytes, count: nat)
    requires DecodeRecords(b, 0, count).Ok?
    ensures var t := DecodeRecords(b, 0, count).value;
      |t.value| == count && AllValid(t.value) && b == Records(t.value) + t.rest
  {
    var good := (e: MarketEvent) => ValidateEvent(e) == Valid;
    forall c, i: nat | DecodeRecord(c, i).Ok?
      ensures good(DecodeRecord(c, i).value.value)
      ensures c == Record(DecodeRecord(c, i).value.value) + DecodeRecord(c, i).value.rest
    {
      RecordGives(c, i);
    }
    ManyGive(Record, DecodeRecord, good, b, 0, count);
    var t := DecodeRecords(b, 0, count).value;
    assert forall k | 0 <= k < count :: good(t.value[k]);
  }

  lemma {:induction false} HeaderGives(b: Bytes)
    requires DecodeHeader(b).Ok?
    ensures var t := DecodeHeader(b).value;
      b == MAGIC + (ToLe(VERSION, 2) + (ToLe(HEADER_SIZE, 2) + (ToLe(RECORD_SIZE, 4) + (ToLe(t.value, 4) + t.rest))))
  {
    PowValues();
    var version := TakeLe(b[4..], 2, VersionField).value;
    var headerSize := TakeLe(version.rest, 2, HeaderSizeField).value;
    var recordSize := TakeLe(headerSize.rest, 4, RecordSizeField).value;
    TakeGives(b[4..], 2, VersionField);
    TakeGives(version.rest, 2, HeaderSizeField);
    TakeGives(headerSize.rest, 4, RecordSizeField);
    TakeGives(recordSize.rest, 4, CountField);
    assert b == b[..4] + b[4..];
  }

  /** The reader accepts exactly the writer's outputs: an accepted byte string is the
      encoding of the writable events it decodes to, and of nothing else. */
  lemma {:induction false} BinaryCanonical(b: Bytes, es: seq<MarketEvent>)
    ensures Decode(b) == Ok(es) <==> Writable(es) && b == Encode(es)
  {
    if Writable(es) && b == Encode(es) {
      BinaryRoundTrip(es);
    }
    if Decode(b) == Ok(es) {
      var count := DecodeHeader(b).value;
      HeaderGives(b);
      RecordsGive(count.rest, count.value);
    }
  }

  // ---------- The reader and writer over streams ----------

  /** What a reading call returns, and where it leaves the stream unless it throws. */
  ghost predicate Gives<T>(decoded: Result<Taken<T>>, r: Result<T>, rest: Bytes) {
    match decoded
    case Ok(taken) => r == Ok(taken.value) && rest == taken.rest
    case Err(error) => r == Err(error)
  }

  class ByteReader {
    const bytes: Bytes
    var position: nat

    ghost predicate InBounds()
      reads this
    {
      position <= |bytes|
    }

    ghost function Rest(): Bytes
      requires InBounds()
      reads this
    {
      bytes[position..]
    }

    constructor (bytes: Bytes)
      ensures InBounds() && Rest() == bytes && this.bytes == bytes
    {
      this.bytes, position := bytes, 0;
    }

    method Get() returns (next: Option<U8>)
      requires InBounds()
      modifies this
      ensures InBounds()
      ensures old(Rest()) == [] ==> next == None && Rest() == []
      ensures old(Rest()) != [] ==> next == Some(old(Rest())[0]) && Rest() == old(Rest())[1..]
    {
      if position == |bytes| { return None; }
      next := Some(bytes[position]);
      position := position + 1;
    }

    /** `read_le`: one byte at a time, each shifted into place. */
    method ReadLe(n: nat, field: Field) returns (r: Result<int>)
      requires InBounds()
      modifies this
      ensures InBounds()
      ensures Gives(TakeLe(old(Rest()), n, field), r, Rest())
    {
      var value: nat, weight: nat := 0, 1;
      ghost var input := Rest();
      for i := 0 to n
        invariant InBounds() && i <= |input| && Rest() == input[i..]
        invariant value == FromLe(input[..i]) && weight == Pow256(i)
      {
        var next := Get();
        if next.None? { return Err(Truncated(field)); }
        FromLeAppend(input[..i], next.value);
        assert input[..i + 1] == input[..i] + [next.value];
        value, weight := value + next.value * weight, weight * 0x100;
      }
      return Ok(value);
    }

    method ReadRecord(index: nat) returns (r: Result<MarketEvent>)
      requires InBounds()
      modifies this
      ensures InBounds()
      ensures Gives(DecodeRecord(old(Rest()), index), r, Rest())
    {
      PowValues();
      var timestamp :- ReadLe(8, TimestampField);
      ghost var codes := Rest();
      var kind := Get();
      var side := Get();
      if kind.None? || side.None? { return Err(Truncated(EventCodesField)); }
      assert Rest() == codes[2..];
      var reserved :- ReadLe(2, ReservedField);
      if reserved != 0 { return Err(NonZeroReserved(index)); }
      var price :- ReadLe(4, PriceField);
      var quantity :- ReadLe(4, QuantityField);
      var e := MarketEvent(timestamp, TypeOf(kind.value), SideOf(side.value), Signed(price), quantity);
      if ValidateEvent(e) != Valid { return Err(InvalidRecord(index, ValidateEvent(e))); }
      return Ok(e);
    }

    /** One more record behind those already read. */
    method ReadOneMore(index: nat, count: nat, events: seq<MarketEvent>, ghost all: Result<Taken<seq<MarketEvent>>>)
      returns (r: Result<seq<MarketEvent>>)
      requires InBounds() && index < count && Ahead(all, events, Rest(), index, count - index)
      modifies this
      ensures InBounds() && (r.Err? ==> all == Err(r.error))
      ensures r.Ok? ==> Ahead(all, r.value, Rest(), index + 1, count - index - 1)
    {
      ghost var b := Rest();
      var next := ReadRecord(index);
      AheadNext(all, events, b, index, count - index, next, Rest());
      r := if next.Ok? then Ok(events + [next.value]) else Err(next.error);
    }

    method ReadRecords(count: nat) returns (r: Result<seq<MarketEvent>>)
      requires InBounds()
      modifies this
      ensures InBounds()
      ensures Gives(DecodeRecords(old(Rest()), 0, count), r, Rest())
    {
      ghost var all := DecodeRecords(Rest(), 0, count);
      var events: seq<MarketEvent> := [];
      AheadFirst(all, Rest(), count);
      for index := 0 to count
        invariant InBounds() && Ahead(all, events, Rest(), index, count - index)
      {
        var more := ReadOneMore(index, count, events, all);
        if more.Err? {
          assert Gives(all, Err(more.error), Rest());
          return Err(more.error);
        }
        events := more.value;
      }
      AheadLast(all, events, Rest(), count);
      return Ok(events);
    }

    method ReadHeader() returns (r: Result<int>)
      requires InBounds() && position == 0
      modifies this
      ensures InBounds()
      ensures Gives(DecodeHeader(bytes), r, Rest())
    {
      if |bytes| < 4 || bytes[..4] != MAGIC { return Err(BadMagic); }
      position := 4;
      var version :- ReadLe(2, VersionField);
      var headerSize :- ReadLe(2, HeaderSizeField);
      var recordSize :- ReadLe(4, RecordSizeField);
      var count :- ReadLe(4, CountField);
      if version != VERSION || headerSize != HEADER_SIZE || recordSize != RECORD_SIZE { return Err(UnsupportedLayout); }
      return Ok(count);
    }
  }

  /** The same answer with events already read put in front. */
  ghost function Behind(events: seq<MarketEvent>, r: Result<Taken<seq<MarketEvent>>>): Result<Taken<seq<MarketEvent>>> {
    match r
    case Ok(taken) => Ok(Taken(events + taken.value, taken.rest))
    case Err(error) => Err(error)
  }

  /** The result of a whole reading, once some events are read and the rest lies ahead. */
  ghost predicate Ahead(all: Result<Taken<seq<MarketEvent>>>, events: seq<MarketEvent>, b: Bytes, index: nat, count: nat) {
    all == Behind(events, DecodeRecords(b, index, count))
  }

  lemma {:induction false} AheadFirst(all: Result<Taken<seq<MarketEvent>>>, b: Bytes, count: nat)
    requires all == DecodeRecords(b, 0, count)
    ensures Ahead(all, [], b, 0, count)
  {
    if all.Ok? { assert [] + all.value.value == all.value.value; }
  }

  lemma {:induction false} BehindOneMore(events: seq<MarketEvent>, e: MarketEvent,
                                         others: Result<Taken<seq<MarketEvent>>>)
    ensures Behind(events, Behind([e], others)) == Behind(events + [e], others)
  {
    if others.Ok? { assert events + ([e] + others.value.value) == events + [e] + others.value.value; }
  }

  lemma {:induction false} AheadNext(all: Result<Taken<seq<MarketEvent>>>, events: seq<MarketEvent>, b: Bytes, index: nat,
                                     count: nat, next: Result<MarketEvent>, rest: Bytes)
    requires count > 0 && Ahead(all, events, b, index, count)
    requires Gives(DecodeRecord(b, index), next, rest)
    ensures next.Err? ==> all == Err(next.error)
    ensures next.Ok? ==> Ahead(all, events + [next.value], rest, index + 1, count - 1)
  {
    if next.Ok? { BehindOneMore(events, next.value, DecodeRecords(rest, index + 1, count - 1)); }
  }

  lemma {:induction false} AheadLast(all: Result<Taken<seq<MarketEvent>>>, events: seq<MarketEvent>, b: Bytes, index: nat)
    requires Ahead(all, events, b, index, 0)
    ensures Gives(all, Ok(events), b)
  {
    assert events + [] == events;
  }

  method ReadBinary(bytes: Bytes) returns (r: Result<seq<MarketEvent>>)
    ensures r == Decode(bytes)
  {
    var input := new ByteReader(bytes);
    var count :- input.ReadHeader();
    var events :- input.ReadRecords(count);
    var next := input.Get();
    if next.Some? { return Err(TrailingBytes); }
    return Ok(events);
  }

  /** `write_u16`, `write_u32`, `write_u64`: the low byte first. */
  method WriteLe(output: Bytes, value: nat, n: nat) returns (written: Bytes)
    ensures written == output + ToLe(value, n)
  {
    written := output;
    var left := value;
    for i := 0 to n
      invariant written + ToLe(left, n - i) == output + ToLe(value, n)
    {
      NextByte(written, left, n - i);
      written, left := written + [left % 0x100], left / 0x100;
    }
  }

  lemma {:induction false} NextByte(written: Bytes, left: nat, n: nat)
    requires n > 0
    ensures written + ToLe(left, n) == written + [left % 0x100] + ToLe(left / 0x100, n - 1)
  {
  }

  method WriteRecord(output: Bytes, e: MarketEvent, ghost rest: Bytes) returns (written: Bytes)
    ensures written == output + Record(e)
    ensures written + rest == output + (Record(e) + rest)
  {
    var codes := [TypeCode(e.kind), SideCode(e.side)];
    written := WriteLe(output, e.timestamp, 8);
    written := written + codes;
    written := WriteLe(written, 0, 2);
    written := WriteLe(written, Unsigned(e.price), 4);
    written := WriteLe(written, e.quantity, 4);
    Appended(output, ToLe(e.timestamp, 8), codes, ToLe(0, 2), ToLe(Unsigned(e.price), 4), ToLe(e.quantity, 4));
    Behind3(output, Record(e), rest);
  }

  /** The first rule that an event of the list breaks. */
  method FirstUnwritable(es: seq<MarketEvent>) returns (reason: Option<ValidationError>)
    ensures reason.None? <==> AllValid(es)
    ensures reason.Some? ==> exists k | 0 <= k < |es| ::
      AllValid(es[..k]) && ValidateEvent(es[k]) != Valid && reason == Some(ValidateEvent(es[k]))
  {
    for k := 0 to |es|
      invariant AllValid(es[..k])
    {
      if ValidateEvent(es[k]) != Valid { return Some(ValidateEvent(es[k])); }
    }
    assert es[..|es|] == es;
    return None;
  }

  method WriteRecords(header: Bytes, es: seq<MarketEvent>) returns (output: Bytes)
    ensures output == header + Records(es)
  {
    output := header;
    for k := 0 to |es|
      invariant output + Records(es[k..]) == header + Records(es)
    {
      assert es[k..][1..] == es[k + 1..];
      output := WriteRecord(output, es[k], Records(es[k + 1..]));
    }
    assert Records(es[|es|..]) == [];
  }

  /** `write_binary`: an unwritable list leaves the output untouched. */
  method WriteBinary(es: seq<MarketEvent>) returns (r: Result<Bytes>)
    ensures r.Ok? <==> Writable(es)
    ensures r.Ok? ==> r.value == Encode(es)
    ensures r == Err(TooManyEvents) <==> |es| > U32_MAX
    ensures r.Err? && r.error.Unwritable? ==> exists k | 0 <= k < |es| ::
      AllValid(es[..k]) && ValidateEvent(es[k]) != Valid && r.error == Unwritable(ValidateEvent(es[k]))
  {
    if |es| > U32_MAX { return Err(TooManyEvents); }
    var reason := FirstUnwritable(es);
    if reason.Some? { return Err(Unwritable(reason.value)); }
    var output := WriteWhole(es);
    return Ok(output);
  }

  method WriteWhole(es: seq<MarketEvent>) returns (output: Bytes)
    ensures output == Encode(es)
  {
    output := WriteLe(MAGIC, VERSION, 2);
    output := WriteLe(output, HEADER_SIZE, 2);
    output := WriteLe(output, RECORD_SIZE, 4);
    output := WriteLe(output, |es|, 4);
    Appended(MAGIC, ToLe(VERSION, 2), ToLe(HEADER_SIZE, 2), ToLe(RECORD_SIZE, 4), ToLe(|es|, 4), Records(es));
    output := WriteRecords(output, es);
  }

  lemma {:induction false} Behind3(a: Bytes, b: Bytes, c: Bytes)
    ensures a + b + c == a + (b + c)
  {
  }

  lemma {:induction false} Appended(output: Bytes, a: Bytes, b: Bytes, c: Bytes, d: Bytes, e: Bytes)
    ensures output + a + b + c + d + e == output + (a + (b + (c + (d + e))))
  {
  }
}
