/** src/market/event.cpp, text half: the CSV format, its writer and its reader. */
module CsvCodec {
  import opened MarketTypes
  import opened Decoding

  datatype CsvField = TimestampField | PriceField | QuantityField

  /** Lines are numbered from one, the header being line 1. */
  datatype CsvError =
    | BadHeader | ExpectedFiveFields(line: nat)
    | BadNumber(line: nat, field: CsvField) | BadType(line: nat) | BadSide(line: nat)
    | RefusedEvent(line: nat, reason: ValidationError)

  type Result<+T> = Decoded<T, CsvError>

  const HEADER: string := "timestamp_ns," + "event_type," + "side," + "price_ticks," + "quantity"

  // ---------- Cutting text at a separator ----------

  /** `find`: the first index from a start on that holds the character, or the end. */
  function Find(s: string, c: char, from: nat): (i: nat)
    requires from <= |s|
    ensures from <= i <= |s|
    decreases |s| - from
  {
    if from == |s| || s[from] == c then from else Find(s, c, from + 1)
  }

  lemma {:induction false} FindFirst(s: string, c: char, from: nat)
    requires from <= |s|
    ensures forall k | from <= k < Find(s, c, from) :: s[k] != c
    ensures Find(s, c, from) < |s| ==> s[Find(s, c, from)] == c
    decreases |s| - from
  {
    if from < |s| && s[from] != c { FindFirst(s, c, from + 1); }
  }

  predicate Without(s: string, c: char) {
    forall k | 0 <= k < |s| :: s[k] != c
  }

  /** Text that begins with a separator-free part and the separator is cut right there. */
  lemma {:induction false} CutAt(s: string, start: nat, part: string, c: char, rest: string)
    requires start <= |s| && Without(part, c) && s[start..] == part + [c] + rest
    ensures var end := start + |part|;
      end < |s| && Find(s, c, start) == end && s[start..end] == part && s[end + 1..] == rest
  {
    FindFirst(s, c, start);
    var tail := s[start..];
    assert forall k | 0 <= k < |part| :: s[start + k] == tail[k] == part[k];
    assert s[start + |part|] == tail[|part|] == c;
    assert tail[..|part|] == part && tail[|part| + 1..] == rest;
    assert s[start..start + |part|] == tail[..|part|] && s[start + |part| + 1..] == tail[|part| + 1..];
  }

  lemma {:induction false} NoCut(s: string, start: nat, c: char)
    requires start <= |s| && Without(s[start..], c)
    ensures Find(s, c, start) == |s|
  {
    FindFirst(s, c, start);
    assert forall k | start <= k < |s| :: s[k] == s[start..][k - start];
  }

  /** The fields from a start on: one more field than separators. */
  function FieldsFrom(s: string, start: nat): seq<string>
    requires start <= |s|
    decreases |s| - start
  {
    var comma := Find(s, ',', start);
    if comma == |s| then [s[start..]] else [s[start..comma]] + FieldsFrom(s, comma + 1)
  }

  function Fields(s: string): seq<string> {
    FieldsFrom(s, 0)
  }

  /** `std::getline` until the end: an empty last line is not a line. */
  function LinesFrom(s: string, start: nat): seq<string>
    requires start <= |s|
    decreases |s| - start
  {
    if start == |s| then []
    else
      var end := Find(s, '\n', start);
      if end == |s| then [s[start..]] else [s[start..end]] + LinesFrom(s, end + 1)
  }

  function Lines(s: string): seq<string> {
    LinesFrom(s, 0)
  }

  /** `split`. */
  method Split(line: string) returns (result: seq<string>)
    ensures result == Fields(line)
  {
    result := [];
    var start := 0;
    assert [] + FieldsFrom(line, 0) == FieldsFrom(line, 0);
    while true
      invariant start <= |line| && Fields(line) == result + FieldsFrom(line, start)
      decreases |line| - start
    {
      var comma := Find(line, ',', start);
      FieldCut(line, start, comma, result);
      result := result + [line[start..comma]];
      if comma == |line| { return; }
      start := comma + 1;
    }
  }

  lemma {:induction false} TailIsSlice(s: string, start: nat)
    requires start <= |s|
    ensures s[start..|s|] == s[start..]
  {
    assert s[..|s|] == s;
  }

  lemma {:induction false} FieldCut(line: string, start: nat, comma: nat, before: seq<string>)
    requires start <= |line| && comma == Find(line, ',', start)
    requires Fields(line) == before + FieldsFrom(line, start)
    ensures comma == |line| ==> Fields(line) == before + [line[start..comma]]
    ensures comma < |line| ==> Fields(line) == before + [line[start..comma]] + FieldsFrom(line, comma + 1)
  {
    if comma == |line| {
      TailIsSlice(line, start);
    } else {
      OneMoreField(before, line[start..comma], FieldsFrom(line, comma + 1));
    }
  }

  lemma {:induction false} OneMoreField(before: seq<string>, field: string, rest: seq<string>)
    ensures before + ([field] + rest) == before + [field] + rest
    ensures rest == [] ==> before + [field] == before + [field] + rest
  {
  }

  // ---------- Decimal numbers ----------

  predicate IsDigit(c: char) {
    '0' <= c <= '9'
  }

  predicate AllDigits(s: string) {
    |s| > 0 && forall k | 0 <= k < |s| :: IsDigit(s[k])
  }

  function DigitValue(c: char): int {
    c as int - '0' as int
  }

  function Value(s: string): int
    decreases |s|
  {
    if |s| == 0 then 0 else 10 * Value(s[..|s| - 1]) + DigitValue(s[|s| - 1])
  }

  /** How `<<` prints an unsigned number. */
  function Print(n: nat): (s: string)
    ensures AllDigits(s)
  {
    var last := [('0' as int + n % 10) as char];
    if n < 10 then last else Print(n / 10) + last
  }

  lemma {:induction false} PrintValue(n: nat)
    ensures Value(Print(n)) == n
    decreases n
  {
    var last := ('0' as int + n % 10) as char;
    if n < 10 {
      assert Print(n) == [last] && Value([last][..0]) == 0;
    } else {
      PrintValue(n / 10);
      assert Print(n)[..|Print(n)| - 1] == Print(n / 10);
    }
  }

  /** And no leading zero but that of zero itself. */
  lemma {:induction false} PrintShortest(n: nat)
    ensures Print(n)[0] == '0' <==> n == 0
    decreases n
  {
    if n >= 10 { PrintShortest(n / 10); }
  }

  /** `std::from_chars` taking the whole field: digits only, any number of leading zeros,
      a minus sign only for signed types, no overflow. */
  function ParseUnsigned(s: string, limit: nat): (r: Option<nat>)
    ensures r.Some? ==> r.value <= limit
  {
    if AllDigits(s) && 0 <= Value(s) <= limit then Some(Value(s)) else None
  }

  function ParsePrice(s: string): Option<I32> {
    if |s| > 0 && s[0] == '-' then
      var magnitude := ParseUnsigned(s[1..], 0x8000_0000);
      if magnitude.None? then None else
        var m: int := magnitude.value;
        Some(-m)
    else
      ParseUnsigned(s, I32_MAX)
  }

  // ---------- Names ----------

  function TypeName(kind: EventType): string {
    match kind
    case Add => "Add"
    case Update => "Update"
    case Cancel => "Cancel"
    case Trade => "Trade"
    case UnknownType(_) => "InvalidEventType"
  }

  function ParseType(s: string): Option<EventType> {
    if s == "Add" then Some(Add) else if s == "Update" then Some(Update)
    else if s == "Cancel" then Some(Cancel) else if s == "Trade" then Some(Trade) else None
  }

  function SideName(side: Side): string {
    match side
    case Bid => "Bid"
    case Ask => "Ask"
    case UnknownSide(_) => "InvalidSide"
  }

  function ParseSide(s: string): Option<Side> {
    if s == "Bid" then Some(Bid) else if s == "Ask" then Some(Ask) else None
  }

  // ---------- The format ----------

  function Join(parts: seq<string>): string
    requires |parts| > 0
    decreases |parts|
  {
    if |parts| == 1 then parts[0] else parts[0] + [','] + Join(parts[1..])
  }

  function PrintPrice(price: I32): string {
    if price < 0 then ['-'] + Print(-(price as int)) else Print(price)
  }

  function Parts(e: MarketEvent): seq<string> {
    [Print(e.timestamp), TypeName(e.kind), SideName(e.side), PrintPrice(e.price), Print(e.quantity)]
  }

  function Line(e: MarketEvent): string {
    Join(Parts(e))
  }

  /** A line's five fields in order, with the names of the types and sides. */
  lemma {:induction false} LineLayout(e: MarketEvent)
    requires ValidateEvent(e) == Valid
    ensures var kind := if e.kind == Add then "Add" else if e.kind == Update then "Update"
                        else if e.kind == Cancel then "Cancel" else "Trade";
      var side := if e.side == Bid then "Bid" else "Ask";
      Line(e) == Print(e.timestamp) + "," + kind + "," + side + "," + Print(e.price) + "," + Print(e.quantity)
  {
    JoinFive(Print(e.timestamp), TypeName(e.kind), SideName(e.side), Print(e.price), Print(e.quantity));
  }

  lemma {:induction false} JoinFive(a: string, b: string, c: string, d: string, e: string)
    ensures Join([a, b, c, d, e]) == a + "," + b + "," + c + "," + d + "," + e
  {
    assert [a, b, c, d, e][1..] == [b, c, d, e] && [b, c, d, e][1..] == [c, d, e];
    assert [c, d, e][1..] == [d, e] && [d, e][1..] == [e];
    assert Join([d, e]) == d + [','] + e;
    assert Join([c, d, e]) == c + [','] + (d + [','] + e);
    assert Join([b, c, d, e]) == b + [','] + (c + [','] + (d + [','] + e));
  }

  /** The header names the five columns in order. */
  lemma {:induction false} HeaderLayout()
    ensures HEADER == "timestamp_ns" + "," + "event_type" + "," + "side" + "," + "price_ticks" + "," + "quantity"
  {
    assert "timestamp_ns" + "," == "timestamp_ns,";
    assert "event_type" + "," == "event_type,";
    assert "side" + "," == "side,";
    assert "price_ticks" + "," == "price_ticks,";
    FiveColumns("timestamp_ns", "event_type", "side", "price_ticks", "quantity");
  }

  lemma {:induction false} FiveColumns(a: string, b: string, c: string, d: string, e: string)
    ensures a + "," + b + "," + c + "," + d + "," + e == (a + ",") + (b + ",") + (c + ",") + (d + ",") + e
  {
  }

  function LinesOf(es: seq<MarketEvent>): seq<string>
    decreases |es|
  {
    if |es| == 0 then [] else [Line(es[0])] + LinesOf(es[1..])
  }

  /** Lines, each followed by a newline. */
  function Terminated(lines: seq<string>): string
    decreases |lines|
  {
    if |lines| == 0 then [] else lines[0] + ['\n'] + Terminated(lines[1..])
  }

  function Body(es: seq<MarketEvent>): string {
    Terminated(LinesOf(es))
  }

  function Text(es: seq<MarketEvent>): string {
    HEADER + ['\n'] + Body(es)
  }

  // ---------- Decoding as a function of the text ----------

  function DecodeFields(f: seq<string>, line: nat): Result<MarketEvent> {
    if |f| != 5 then Err(ExpectedFiveFields(line))
    else if ParseUnsigned(f[0], 0xFFFF_FFFF_FFFF_FFFF).None? then Err(BadNumber(line, TimestampField))
    else if ParseType(f[1]).None? then Err(BadType(line))
    else if ParseSide(f[2]).None? then Err(BadSide(line))
    else if ParsePrice(f[3]).None? then Err(BadNumber(line, PriceField))
    else if ParseUnsigned(f[4], U32_MAX).None? then Err(BadNumber(line, QuantityField))
    else
      var timestamp, quantity := ParseUnsigned(f[0], 0xFFFF_FFFF_FFFF_FFFF).value, ParseUnsigned(f[4], U32_MAX).value;
      var e := MarketEvent(timestamp, ParseType(f[1]).value, ParseSide(f[2]).value, ParsePrice(f[3]).value, quantity);
      if ValidateEvent(e) != Valid then Err(RefusedEvent(line, ValidateEvent(e))) else Ok(e)
  }

  function DecodeLines(lines: seq<string>, number: nat): Result<seq<MarketEvent>>
    decreases |lines|
  {
    if |lines| == 0 then Ok([])
    else
      var first :- DecodeFields(Fields(lines[0]), number);
      var others :- DecodeLines(lines[1..], number + 1);
      Ok([first] + others)
  }

  function Decode(text: string): Result<seq<MarketEvent>> {
    var lines := Lines(text);
    if |lines| == 0 || lines[0] != HEADER then Err(BadHeader) else DecodeLines(lines[1..], 2)
  }

  /** The field lists that are events, on the raw characters: digits with any number of
      leading zeros, the four and the two names, a positive price, and a quantity that only
      an Update may have zero. */
  lemma {:induction false} FieldsAcceptedExactly(f: seq<string>, line: nat)
    ensures DecodeFields(f, line).Ok? <==>
      && |f| == 5
      && AllDigits(f[0]) && 0 <= Value(f[0]) < 0x1_0000_0000_0000_0000
      && (f[1] == "Add" || f[1] == "Update" || f[1] == "Cancel" || f[1] == "Trade")
      && (f[2] == "Bid" || f[2] == "Ask")
      && AllDigits(f[3]) && 0 < Value(f[3]) < 0x8000_0000
      && AllDigits(f[4]) && 0 <= Value(f[4]) < 0x1_0000_0000
      && (Value(f[4]) > 0 || f[1] == "Update")
    ensures DecodeFields(f, line).Ok? ==>
      var e := DecodeFields(f, line).value;
      && e.timestamp == Value(f[0]) && e.price == Value(f[3]) && e.quantity == Value(f[4])
      && (e.kind == Add <==> f[1] == "Add") && (e.kind == Update <==> f[1] == "Update")
      && (e.kind == Cancel <==> f[1] == "Cancel") && (e.kind == Trade <==> f[1] == "Trade")
      && (e.side == Bid <==> f[2] == "Bid") && (e.side == Ask <==> f[2] == "Ask")
  {
    if |f| == 5 && |f[3]| > 0 && f[3][0] == '-' { assert !IsDigit(f[3][0]); }
  }

  /** Which field is blamed: the first that does not parse, and the event's own rules last. */
  lemma {:induction false} BlameExactly(f: seq<string>, line: nat)
    ensures |f| != 5 <==> DecodeFields(f, line) == Err(ExpectedFiveFields(line))
    ensures |f| == 5 ==>
      var r := DecodeFields(f, line);
      var time := AllDigits(f[0]) && 0 <= Value(f[0]) < 0x1_0000_0000_0000_0000;
      var kind := f[1] == "Add" || f[1] == "Update" || f[1] == "Cancel" || f[1] == "Trade";
      var side := f[2] == "Bid" || f[2] == "Ask";
      var price := ParsePrice(f[3]).Some?;
      var quantity := AllDigits(f[4]) && 0 <= Value(f[4]) < 0x1_0000_0000;
      && (r == Err(BadNumber(line, TimestampField)) <==> !time)
      && (r == Err(BadType(line)) <==> time && !kind)
      && (r == Err(BadSide(line)) <==> time && kind && !side)
      && (r == Err(BadNumber(line, PriceField)) <==> time && kind && side && !price)
      && (r == Err(BadNumber(line, QuantityField)) <==> time && kind && side && price && !quantity)
      && (r == Err(RefusedEvent(line, NonPositivePrice)) <==>
            time && kind && side && price && quantity && ParsePrice(f[3]).value <= 0)
      && (r == Err(RefusedEvent(line, ZeroQuantity)) <==>
            && time && kind && side && price && quantity && ParsePrice(f[3]).value > 0
            && Value(f[4]) == 0 && f[1] != "Update")
  {
  }

  /** Whether line k of a list, which begins at the given number, is an event. */
  predicate IsEventLine(lines: seq<string>, number: nat, k: nat)
    requires k < |lines|
  {
    DecodeFields(Fields(lines[k]), number + k).Ok?
  }

  lemma {:induction false} LaterLine(lines: seq<string>, number: nat, k: nat)
    requires k + 1 < |lines|
    ensures IsEventLine(lines[1..], number + 1, k) == IsEventLine(lines, number, k + 1)
  {
  }

  /** The first line that is no event is blamed, by its own number. */
  lemma {:induction false} FirstIsBlamed(lines: seq<string>, number: nat) returns (k: nat)
    requires DecodeLines(lines, number).Err?
    ensures k < |lines| && DecodeFields(Fields(lines[k]), number + k) == Err(DecodeLines(lines, number).error)
    ensures forall j: nat | j < k :: IsEventLine(lines, number, j)
    decreases |lines|
  {
    k := 0;
    if DecodeFields(Fields(lines[0]), number).Ok? {
      var later := FirstIsBlamed(lines[1..], number + 1);
      k := later + 1;
      assert IsEventLine(lines, number, 0);
      forall j: nat | 0 < j < k ensures IsEventLine(lines, number, j) {
        LaterLine(lines, number, j - 1);
      }
    }
  }

  lemma {:induction false} ReadLineIsEvent(lines: seq<string>, number: nat, k: nat)
    requires DecodeLines(lines, number).Ok? && k < |lines|
    ensures IsEventLine(lines, number, k)
    decreases |lines|
  {
    if k > 0 {
      ReadLineIsEvent(lines[1..], number + 1, k - 1);
      LaterLine(lines, number, k - 1);
    }
  }

  /** A text's lines are read if and only if each is an event. */
  lemma {:induction false} LinesDecodeExactly(lines: seq<string>, number: nat)
    ensures DecodeLines(lines, number).Ok? <==> forall k: nat | k < |lines| :: IsEventLine(lines, number, k)
  {
    if DecodeLines(lines, number).Ok? {
      forall k: nat | k < |lines| ensures IsEventLine(lines, number, k) {
        ReadLineIsEvent(lines, number, k);
      }
    } else {
      var k := FirstIsBlamed(lines, number);
      assert !IsEventLine(lines, number, k);
    }
  }

  // ---------- Round trip ----------

  lemma {:induction false} DigitsWithout(n: nat)
    ensures Without(Print(n), ',') && Without(Print(n), '\n')
  {
    var s := Print(n);
    assert forall k | 0 <= k < |s| :: IsDigit(s[k]);
  }

  lemma {:induction false} HeadAndTail(parts: seq<string>)
    requires |parts| > 0
    ensures parts == [parts[0]] + parts[1..]
  {
  }

  /** Separator-free parts come apart again. */
  lemma {:induction false} FieldsOfJoin(s: string, start: nat, parts: seq<string>)
    requires |parts| > 0 && forall k | 0 <= k < |parts| :: Without(parts[k], ',')
    requires start <= |s| && s[start..] == Join(parts)
    ensures FieldsFrom(s, start) == parts
    decreases |parts|
  {
    if |parts| == 1 {
      NoCut(s, start, ',');
    } else {
      var others := parts[1..];
      assert parts == [parts[0]] + others && forall k | 0 <= k < |others| :: Without(others[k], ',');
      CutAt(s, start, parts[0], ',', Join(others));
      FieldsOfJoin(s, start + |parts[0]| + 1, others);
    }
  }

  lemma {:induction false} JoinWithout(parts: seq<string>, c: char)
    requires |parts| > 0 && c != ',' && forall k | 0 <= k < |parts| :: Without(parts[k], c)
    ensures Without(Join(parts), c)
    decreases |parts|
  {
    if |parts| > 1 { JoinWithout(parts[1..], c); }
  }

  lemma {:induction false} NamesWithout(kind: EventType, side: Side)
    ensures Without(TypeName(kind), ',') && Without(TypeName(kind), '\n')
    ensures Without(SideName(side), ',') && Without(SideName(side), '\n')
  {
  }

  lemma {:induction false} PrintParsed(n: nat, limit: nat)
    requires n <= limit
    ensures ParseUnsigned(Print(n), limit) == Some(n)
  {
    PrintValue(n);
  }

  lemma {:induction false} PriceParsed(price: I32)
    requires price > 0
    ensures ParsePrice(PrintPrice(price)) == Some(price)
  {
    PrintParsed(price, I32_MAX);
    assert IsDigit(Print(price)[0]);
  }

  lemma {:induction false} LineParts(e: MarketEvent)
    ensures forall k | 0 <= k < 5 :: Without(Parts(e)[k], ',') && Without(Parts(e)[k], '\n')
  {
    DigitsWithout(e.timestamp);
    DigitsWithout(if e.price < 0 then -(e.price as int) else e.price);
    DigitsWithout(e.quantity);
    NamesWithout(e.kind, e.side);
  }

  lemma {:induction false} LineBack(e: MarketEvent, number: nat)
    requires ValidateEvent(e) == Valid
    ensures DecodeFields(Fields(Line(e)), number) == Ok(e)
  {
    LineParts(e);
    assert Line(e)[0..] == Line(e);
    FieldsOfJoin(Line(e), 0, Parts(e));
    PrintParsed(e.timestamp, 0xFFFF_FFFF_FFFF_FFFF);
    PriceParsed(e.price);
    PrintParsed(e.quantity, U32_MAX);
  }

  lemma {:induction false} LineWithout(e: MarketEvent)
    ensures Without(Line(e), '\n')
  {
    LineParts(e);
    JoinWithout(Parts(e), '\n');
  }

  ghost predicate AllWithout(lines: seq<string>, c: char)
    decreases |lines|
  {
    |lines| > 0 ==> Without(lines[0], c) && AllWithout(lines[1..], c)
  }

  lemma {:induction false} FirstLine(s: string, start: nat, first: string, others: seq<string>)
    requires Without(first, '\n') && start <= |s| && s[start..] == first + ['\n'] + Terminated(others)
    ensures var next := start + |first| + 1;
      next <= |s| && s[next..] == Terminated(others) && LinesFrom(s, start) == [first] + LinesFrom(s, next)
  {
    CutAt(s, start, first, '\n', Terminated(others));
  }

  /** Newline-free lines come apart again. */
  lemma {:induction false} LinesOfTerminated(s: string, start: nat, lines: seq<string>)
    requires AllWithout(lines, '\n') && start <= |s| && s[start..] == Terminated(lines)
    ensures LinesFrom(s, start) == lines
  {
    LinesFound(s, start, lines, LinesFrom(s, start));
  }

  lemma {:induction false} LinesFound(s: string, start: nat, lines: seq<string>, found: seq<string>)
    requires AllWithout(lines, '\n') && start <= |s| && s[start..] == Terminated(lines)
    requires found == LinesFrom(s, start)
    ensures found == lines
    decreases |lines|
  {
    if |lines| > 0 {
      assert found == [lines[0]] + lines[1..] by {
        var next := start + |lines[0]| + 1;
        FirstLine(s, start, lines[0], lines[1..]);
        LinesFound(s, next, lines[1..], LinesFrom(s, next));
      }
      HeadAndTail(lines);
    }
  }

  lemma {:induction false} EachLineWithout(es: seq<MarketEvent>)
    ensures AllWithout(LinesOf(es), '\n')
    decreases |es|
  {
    if |es| > 0 {
      LineWithout(es[0]);
      EachLineWithout(es[1..]);
    }
  }

  lemma {:induction false} EachLineBack(es: seq<MarketEvent>, number: nat)
    requires AllValid(es)
    ensures DecodeLines(LinesOf(es), number) == Ok(es)
    decreases |es|
  {
    if |es| > 0 {
      LineBack(es[0], number);
      EachLineBack(es[1..], number + 1);
      assert es == [es[0]] + es[1..] && LinesOf(es)[1..] == LinesOf(es[1..]);
    }
  }

  lemma {:induction false} HeaderWithout()
    ensures Without(HEADER, '\n')
  {
    assert Without("timestamp_ns,", '\n') && Without("event_type,", '\n') && Without("side,", '\n');
    assert Without("price_ticks,", '\n') && Without("quantity", '\n');
  }

  lemma {:induction false} LinesOfText(es: seq<MarketEvent>)
    ensures Lines(Text(es)) == [HEADER] + LinesOf(es)
  {
    var text := Text(es);
    HeaderWithout();
    assert text[0..] == text;
    FirstLine(text, 0, HEADER, LinesOf(es));
    EachLineWithout(es);
    LinesOfTerminated(text, |HEADER| + 1, LinesOf(es));
  }

  /** Reading what was written gives the events back. */
  lemma {:induction false} CsvRoundTrip(es: seq<MarketEvent>)
    requires AllValid(es)
    ensures Decode(Text(es)) == Ok(es)
  {
    LinesOfText(es);
    EachLineBack(es, 2);
    assert ([HEADER] + LinesOf(es))[1..] == LinesOf(es);
  }

  /** Without a final newline an accepted text is not what the writer writes. */
  lemma {:induction false} CsvNotCanonical()
    ensures Decode(HEADER) == Ok([]) && Text([]) != HEADER
  {
    HeaderWithout();
    assert HEADER[0..] == HEADER;
    NoCut(HEADER, 0, '\n');
    assert Lines(HEADER) == [HEADER] && [HEADER][1..] == [];
    assert |Text([])| == |HEADER| + 1;
  }

  lemma {:induction false} DecodedValid(lines: seq<string>, number: nat)
    ensures DecodeLines(lines, number).Ok? ==> AllValid(DecodeLines(lines, number).value)
    ensures DecodeLines(lines, number).Ok? ==> |DecodeLines(lines, number).value| == |lines|
    decreases |lines|
  {
    if |lines| > 0 && DecodeLines(lines, number).Ok? {
      DecodedValid(lines[1..], number + 1);
    }
  }

  /** The reader is not canonical, but rewriting an accepted text loses nothing. */
  lemma {:induction false} CsvNormalises(text: string)
    requires Decode(text).Ok?
    ensures Decode(Text(Decode(text).value)) == Decode(text)
  {
    DecodedValid(Lines(text)[1..], 2);
    CsvRoundTrip(Decode(text).value);
  }

  // ---------- The reader and writer ----------

  /** `read_csv`: line by line until the end or the first error. */
  method ReadCsv(text: string) returns (r: Result<seq<MarketEvent>>)
    ensures r == Decode(text)
  {
    var lines := Lines(text);
    if |lines| == 0 || lines[0] != HEADER { return Err(BadHeader); }
    ghost var all := DecodeLines(lines[1..], 2);
    var events: seq<MarketEvent> := [];
    BehindNothing(all);
    for k := 1 to |lines|
      invariant all == Behind(events, DecodeLines(lines[k..], k + 1))
    {
      var fields := Split(lines[k]);
      var e :- DecodeFields(fields, k + 1);
      BehindFirst(lines, k, events, e);
      events := events + [e];
    }
    assert lines[|lines|..] == [] && events + [] == events;
    return Ok(events);
  }

  /** The same answer with events already read put in front. */
  ghost function Behind(events: seq<MarketEvent>, r: Result<seq<MarketEvent>>): Result<seq<MarketEvent>> {
    match r
    case Ok(others) => Ok(events + others)
    case Err(error) => Err(error)
  }

  lemma {:induction false} BehindNothing(r: Result<seq<MarketEvent>>)
    ensures Behind([], r) == r
  {
    if r.Ok? { assert [] + r.value == r.value; }
  }

  lemma {:induction false} BehindFirst(lines: seq<string>, k: nat, events: seq<MarketEvent>, e: MarketEvent)
    requires k < |lines| && DecodeFields(Fields(lines[k]), k + 1) == Ok(e)
    ensures Behind(events, DecodeLines(lines[k..], k + 1)) == Behind(events + [e], DecodeLines(lines[k + 1..], k + 2))
  {
    assert lines[k..][1..] == lines[k + 1..];
    var others := DecodeLines(lines[k + 1..], k + 2);
    if others.Ok? { assert events + ([e] + others.value) == events + [e] + others.value; }
  }

  /** `write_csv`: an invalid event stops it, with the lines before it already written. */
  method WriteCsv(es: seq<MarketEvent>) returns (output: string, refusal: Option<ValidationError>)
    ensures refusal.None? <==> AllValid(es)
    ensures refusal.None? ==> output == Text(es)
    ensures refusal.Some? ==> exists k | 0 <= k < |es| ::
      && AllValid(es[..k]) && output == Text(es[..k])
      && refusal == Some(ValidateEvent(es[k])) && ValidateEvent(es[k]) != Valid
  {
    output := HEADER + ['\n'];
    assert LinesOf(es[..0]) == [] && Body(es[..0]) == [] && output + [] == output;
    for k := 0 to |es|
      invariant AllValid(es[..k]) && output == Text(es[..k])
    {
      if ValidateEvent(es[k]) != Valid { return output, Some(ValidateEvent(es[k])); }
      TextAppend(es[..k], es[k]);
      assert es[..k + 1] == es[..k] + [es[k]];
      output := output + Line(es[k]) + ['\n'];
    }
    assert es[..|es|] == es;
    return output, None;
  }

  lemma {:induction false} TerminatedAppend(lines: seq<string>, line: string)
    ensures Terminated(lines + [line]) == Terminated(lines) + (line + ['\n'])
    decreases |lines|
  {
    if |lines| == 0 {
      assert lines + [line] == [line] && [line][1..] == [];
    } else {
      TerminatedAppend(lines[1..], line);
      assert (lines + [line])[1..] == lines[1..] + [line];
    }
  }

  lemma {:induction false} LinesAppend(es: seq<MarketEvent>, e: MarketEvent)
    ensures LinesOf(es + [e]) == LinesOf(es) + [Line(e)]
    decreases |es|
  {
    if |es| == 0 {
      assert es + [e] == [e] && [e][1..] == [];
    } else {
      LinesAppend(es[1..], e);
      assert (es + [e])[1..] == es[1..] + [e];
    }
  }

  lemma {:induction false} TextAppend(es: seq<MarketEvent>, e: MarketEvent)
    ensures Text(es + [e]) == Text(es) + Line(e) + ['\n']
  {
    LinesAppend(es, e);
    TerminatedAppend(LinesOf(es), Line(e));
    Joined(HEADER + ['\n'], Terminated(LinesOf(es)), Line(e), ['\n']);
  }

  lemma {:induction false} Joined(a: string, b: string, c: string, d: string)
    ensures a + (b + (c + d)) == a + b + c + d
  {
  }
}
