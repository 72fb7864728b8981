/** The eight features: the C++ calculation over the book and the window, the RTL's
    combinational engine, and the bounds they obey. */
module Features {
  import opened MarketTypes
  import opened BookModel
  import opened BookFlow
  import opened FixedPoint
  import opened FeatureWindow

  type Values = s: seq<I32> | |s| == FEATURES witness seq(FEATURES, _ => 0)

  const NO_VALUES: Values := [0, 0, 0, 0, 0, 0, 0, 0]

  datatype FeatureVector = FeatureVector(values: Values, valid: bool)

  const NO_FEATURES: FeatureVector := FeatureVector(NO_VALUES, false)

  predicate TwoSided(book: Book) {
    book.bids[0].quantity != 0 && book.asks[0].quantity != 0
  }

  function Midpoint(book: Book): Option<int> {
    if TwoSided(book) then Some(TruncDivide(book.bids[0].price + book.asks[0].price, 2)) else None
  }

  /** The cross-weighted price sum whose 64-bit overflow decides whether C++ and RTL
      compute the microprice at all. */
  function Weighted(book: Book): int {
    book.asks[0].price * book.bids[0].quantity + book.bids[0].price * book.asks[0].quantity
  }

  function L1Total(book: Book): int {
    book.bids[0].quantity + book.asks[0].quantity
  }

  function Microprice(book: Book): Option<int> {
    if TwoSided(book) then Some(RoundedDivide(Weighted(book), L1Total(book))) else None
  }

  /** `calculate_features`, with C++'s integers taken as exact. */
  function CalculateFeatures(book: Book, window: Window): FeatureVector {
    var midpoint := Midpoint(book);
    var microprice := Microprice(book);
    if midpoint.None? || microprice.None? || midpoint.value <= 0 then NO_FEATURES
    else
      var mid := midpoint.value;
      var bid, ask := book.bids[0], book.asks[0];
      var bidTotal, askTotal := Total(book.bids), Total(book.asks);
      FeatureVector([
        Ratio(ask.price - bid.price, mid),
        Ratio(bid.quantity - ask.quantity, L1Total(book)),
        Ratio(bidTotal - askTotal, bidTotal + askTotal),
        Ratio(microprice.value - mid, mid),
        Ratio(window.sums.orderFlow, bidTotal + askTotal),
        Ratio(window.sums.tradeFlow, bidTotal + askTotal),
        Ratio(window.sums.midpointChange, mid * (if window.size < 1 then 1 else window.size)),
        ONE], true)
  }

  /** rtl/feature_engine.sv: the same eight quotients, from 64-bit registers. */
  function FeatureEngine(book: Book, window: Window): FeatureVector {
    var bidPrice, askPrice := book.bids[0].price, book.asks[0].price;
    var bidQuantity, askQuantity := book.bids[0].quantity, book.asks[0].quantity;
    var bidTotal, askTotal := Total(book.bids), Total(book.asks);
    var l1Total, l10Total := bidQuantity + askQuantity, bidTotal + askTotal;
    var midpoint := TruncDivide(bidPrice + askPrice, 2);
    var weightedPrice := Wrap64(askPrice * bidQuantity + bidPrice * askQuantity);
    var microprice := RtlRoundedDivide(weightedPrice, l1Total);
    var windowCount := if window.size == 0 then 1 else window.size;
    if bidQuantity != 0 && askQuantity != 0 && midpoint > 0 && l1Total > 0 && l10Total > 0 then
      FeatureVector([
        Ratio(askPrice - bidPrice, midpoint),
        Ratio(bidQuantity - askQuantity, l1Total),
        Ratio(bidTotal - askTotal, l10Total),
        Ratio(microprice - midpoint, midpoint),
        Ratio(window.sums.orderFlow, l10Total),
        Ratio(window.sums.tradeFlow, l10Total),
        Ratio(window.sums.midpointChange, midpoint * windowCount),
        ONE], true)
    else NO_FEATURES
  }

  // ---------- C++ and RTL agree exactly when the C++ sum fits ----------

  /** The weighted sum fits a signed 64-bit integer. */
  predicate WeightedFits(book: Book) {
    I64_MIN <= Weighted(book) <= I64_MAX
  }

  lemma {:induction false} TotalAtLeastFirst(s: seq<Level>)
    ensures Total(s) >= 0
    ensures |s| > 0 ==> Total(s) >= s[0].quantity
    decreases |s|
  {
    if |s| > 0 { TotalAtLeastFirst(s[1..]); }
  }

  lemma {:induction false} TotalBounded(s: seq<Level>)
    ensures 0 <= Total(s) <= |s| * U32_MAX
    decreases |s|
  {
    if |s| > 0 { TotalBounded(s[1..]); }
  }

  lemma {:induction false} WrapIsIdentity(x: int)
    ensures Wrap64(x) == x <==> I64_MIN <= x <= I64_MAX
  {
  }

  /** Where the C++ arithmetic is defined, the RTL engine computes the same vector. */
  lemma {:induction false} EngineIsCalculation(book: Book, window: Window)
    requires WeightedFits(book)
    ensures FeatureEngine(book, window) == CalculateFeatures(book, window)
  {
    TotalAtLeastFirst(book.bids);
    TotalAtLeastFirst(book.asks);
    WrapIsIdentity(Weighted(book));
  }

  /** Prices up to 2^30 always fit, whatever the quantities. */
  lemma {:induction false} SmallPricesFit(book: Book)
    requires 0 <= book.bids[0].price <= 0x4000_0000 && 0 <= book.asks[0].price <= 0x4000_0000
    ensures WeightedFits(book)
  {
    ProductBound(book.asks[0].price, book.bids[0].quantity, 0x4000_0000, U32_MAX);
    ProductBound(book.bids[0].price, book.asks[0].quantity, 0x4000_0000, U32_MAX);
  }

  lemma {:induction false} ProductBound(a: int, b: int, aMax: int, bMax: int)
    requires 0 <= a <= aMax && 0 <= b <= bMax
    ensures 0 <= a * b <= aMax * bMax
  {
    assert a * b <= aMax * b <= aMax * bMax;
  }

  /** The RTL's microprice register, from the wrapped sum. */
  function RtlMicroprice(book: Book): int {
    RtlRoundedDivide(Wrap64(Weighted(book)), L1Total(book))
  }

  lemma {:induction false} ProductAtLeast(a: int, b: int)
    requires a > 0 && b > 0
    ensures a * b >= b
  {
    assert a * b == b + (a - 1) * b;
  }

  lemma {:induction false} WeightedPositive(book: Book)
    requires TwoSided(book) && book.bids[0].price > 0 && book.asks[0].price > 0
    ensures L1Total(book) <= Weighted(book) < 0x1_0000_0000_0000_0000
  {
    ProductBound(book.asks[0].price, book.bids[0].quantity, I32_MAX, U32_MAX);
    ProductBound(book.bids[0].price, book.asks[0].quantity, I32_MAX, U32_MAX);
    ProductAtLeast(book.asks[0].price, book.bids[0].quantity);
    ProductAtLeast(book.bids[0].price, book.asks[0].quantity);
  }

  /** An unfit sum is at least 2^63, so the true microprice is at least 2^30. */
  lemma {:induction false} UnfitMicroprice(book: Book)
    requires TwoSided(book) && book.bids[0].price > 0 && book.asks[0].price > 0 && !WeightedFits(book)
    ensures Microprice(book).value >= 0x4000_0000 && RtlMicroprice(book) <= 0
  {
    var total := L1Total(book);
    WeightedPositive(book);
    assert Wrap64(Weighted(book)) == Weighted(book) - 0x1_0000_0000_0000_0000 < 0;
    RoundedBelowZero(Wrap64(Weighted(book)), total);
    assert 0x4000_0000 * total <= Weighted(book);
    ProductAtLeast(total, Weighted(book));
    RoundedBetween(Weighted(book), total, 0x4000_0000, Weighted(book));
  }

  /** On a two-sided book the RTL microprice is the true one exactly when the sum fits
      64 bits: a wrapped sum is negative and rounds to a non-positive price. */
  lemma {:induction false} MicropriceExactlyWhenFits(book: Book)
    requires TwoSided(book) && book.bids[0].price > 0 && book.asks[0].price > 0
    ensures RtlMicroprice(book) == Microprice(book).value <==> WeightedFits(book)
  {
    WrapIsIdentity(Weighted(book));
    if !WeightedFits(book) { UnfitMicroprice(book); }
  }

  lemma {:induction false} RoundedBelowZero(n: int, d: int)
    requires n < 0 && d > 0
    ensures RoundedDivide(n, d) <= 0
  {
    assert n * d <= n by { assert (-n) * d >= -n; }
    RoundedBetween(n, d, n, 0);
  }

  /** A price at most zero gives an offset of at most -1.0, a price of at least 2^30 more. */
  lemma {:induction false} OffsetsDiffer(low: int, high: int, mid: int)
    requires low <= 0 && high >= 0x4000_0000 && 0 < mid <= I32_MAX
    ensures Ratio(low - mid, mid) < Ratio(high - mid, mid)
  {
    LowOffset(low - mid, mid);
    HighOffset(high, mid);
  }

  lemma {:induction false} LowOffset(n: int, mid: int)
    requires 0 < mid && n <= -mid
    ensures RoundedDivide(n * SCALE, mid) <= -SCALE
  {
    assert n * SCALE <= -SCALE * mid;
    assert n * SCALE * mid <= n * SCALE by { ProductAtLeast(mid, -(n * SCALE)); MulSigns(n * SCALE, mid); }
    RoundedBetween(n * SCALE, mid, n * SCALE, -SCALE);
  }

  lemma {:induction false} HighOffset(high: int, mid: int)
    requires high >= 0x4000_0000 && 0 < mid <= I32_MAX
    ensures RoundedDivide((high - mid) * SCALE, mid) >= 1 - SCALE
  {
    var n := (high - mid) * SCALE;
    assert (1 - SCALE) * mid == mid - SCALE * mid <= n;
    var top := Abs(n);
    assert n <= top * mid by { if n > 0 { ProductAtLeast(mid, n); } else { ProductBound(0, mid, top, mid); } }
    RoundedBetween(n, mid, 1 - SCALE, top);
  }

  lemma {:induction false} EngineOffset(book: Book, window: Window)
    requires TwoSided(book) && book.bids[0].price > 0 && book.asks[0].price > 0
    ensures var mid := Midpoint(book).value;
      && 0 < mid <= I32_MAX
      && FeatureEngine(book, window).values[3] == Ratio(RtlMicroprice(book) - mid, mid)
      && CalculateFeatures(book, window).values[3] == Ratio(Microprice(book).value - mid, mid)
  {
    TotalAtLeastFirst(book.bids);
    TotalAtLeastFirst(book.asks);
  }

  /** On every healthy book the RTL engine's feature vector is the C++ one if and only if
      the book is one-sided or the weighted sum fits 64 bits. */
  lemma {:induction false} EngineExactlyWhenFits(book: Book, window: Window, allowCrossed: bool)
    requires BookOk(book, allowCrossed)
    ensures FeatureEngine(book, window) == CalculateFeatures(book, window) <==> !TwoSided(book) || WeightedFits(book)
  {
    if TwoSided(book) {
      assert book.bids[0].price > 0 && book.asks[0].price > 0;
      if WeightedFits(book) {
        EngineIsCalculation(book, window);
      } else {
        EngineOffset(book, window);
        UnfitMicroprice(book);
        OffsetsDiffer(RtlMicroprice(book), Microprice(book).value, Midpoint(book).value);
      }
    }
  }

  /** Two Adds with high prices reach a book on which the RTL's microprice is wrong. */
  lemma {:induction false} MicropriceOverflows(bid: MarketEvent, ask: MarketEvent)
    requires bid.kind == Add && bid.side == Bid && bid.price == 0x7FFF_FFF0 && bid.quantity == U32_MAX
    requires ask.kind == Add && ask.side == Ask && ask.price == 0x7FFF_FFF1 && ask.quantity == U32_MAX
    ensures var book := RunBook(EMPTY_BOOK, [bid, ask], false);
      BookOk(book, false) && TwoSided(book) && RtlMicroprice(book) != Microprice(book).value
  {
    var first := AddToEmpty(EMPTY_BOOK, bid);
    var book := AddToEmpty(first, ask);
    assert [bid, ask][..1] == [bid] && [bid][..0] == [];
    assert RunBook(EMPTY_BOOK, [], false) == EMPTY_BOOK;
    assert RunBook(EMPTY_BOOK, [bid], false) == first;
    MicropriceExactlyWhenFits(book);
  }

  lemma {:induction false} AddToEmpty(book: Book, e: MarketEvent) returns (after: Book)
    requires BookOk(book, false) && ValidateEvent(e) == Valid && e.kind == Add && SideOf(book, e.side) == NO_LEVELS
    requires e.side == Bid || e.side == Ask
    requires var other := if e.side == Bid then book.asks[0] else book.bids[0];
      other.quantity != 0 ==> Before(e.side, other.price, e.price)
    ensures after == Apply(book, e, false).book == WithSide(book, e.side, NO_LEVELS[0 := Level(e.price, e.quantity)])
    ensures BookOk(after, false)
  {
    ApplyKeepsBook(book, e, false);
    after := Apply(book, e, false).book;
    assert InsertAt(NO_LEVELS, 0, Level(e.price, e.quantity)) == NO_LEVELS[0 := Level(e.price, e.quantity)];
  }

  // ---------- Bounds on an uncrossed two-sided book ----------

  ghost predicate Quoted(book: Book) {
    TwoSided(book) && 0 < book.bids[0].price < book.asks[0].price
  }

  lemma {:induction false} MicropriceBetweenQuotes(book: Book)
    requires Quoted(book)
    ensures book.bids[0].price <= Microprice(book).value <= book.asks[0].price
  {
    var b, a := book.bids[0], book.asks[0];
    var total := L1Total(book);
    assert b.price * total == b.price * b.quantity + b.price * a.quantity;
    assert a.price * total == a.price * b.quantity + a.price * a.quantity;
    assert b.price * b.quantity <= a.price * b.quantity;
    assert b.price * a.quantity <= a.price * a.quantity;
    RoundedBetween(Weighted(book), total, b.price, a.price);
  }

  lemma {:induction false} MidpointBetweenQuotes(book: Book)
    requires Quoted(book)
    ensures Midpoint(book).Some? && book.bids[0].price <= Midpoint(book).value < book.asks[0].price
    ensures book.bids[0].price + book.asks[0].price - 1 <= 2 * Midpoint(book).value
  {
  }

  /** The spread lies in [0, 2.0] and the two imbalances and the microprice offset in
      ±1.0, none of them saturated. */
  lemma {:induction false} QuotedFeatureBounds(book: Book, window: Window)
    requires Quoted(book)
    ensures var f := CalculateFeatures(book, window);
      && f.valid
      && 0 <= f.values[0] <= 2 * SCALE
      && -SCALE <= f.values[1] <= SCALE
      && -SCALE <= f.values[2] <= SCALE
      && -SCALE <= f.values[3] <= SCALE
      && f.values[7] == SCALE
  {
    var b, a := book.bids[0], book.asks[0];
    var mid, micro := Midpoint(book).value, Microprice(book).value;
    MidpointBetweenQuotes(book);
    MicropriceBetweenQuotes(book);
    TotalAtLeastFirst(book.bids);
    TotalAtLeastFirst(book.asks);
    RatioBetween(a.price - b.price, mid, 0, 2);
    RatioBetween(b.quantity - a.quantity, L1Total(book), -1, 1);
    RatioBetween(Total(book.bids) - Total(book.asks), Total(book.bids) + Total(book.asks), -1, 1);
    RatioBetween(micro - mid, mid, -1, 1);
  }

  lemma {:induction false} MicropriceBounded(book: Book, high: int)
    requires TwoSided(book) && 0 < book.bids[0].price <= high && 0 < book.asks[0].price <= high
    ensures 0 <= Microprice(book).value <= high && 0 <= Midpoint(book).value <= high
  {
    var b, a := book.bids[0], book.asks[0];
    var total := L1Total(book);
    assert high * total == high * b.quantity + high * a.quantity;
    ProductBound(a.price, b.quantity, high, b.quantity);
    ProductBound(b.price, a.quantity, high, a.quantity);
    RoundedBetween(Weighted(book), total, 0, high);
  }

  predicate FitsI64(x: int) {
    I64_MIN <= x <= I64_MAX
  }

  /** With prices up to 2^30 and book-fed sums, every 64-bit product the two engines
      form before dividing fits. */
  lemma {:induction false} FeatureProductsFit(book: Book, window: Window)
    requires TwoSided(book) && window.size <= WINDOW
    requires 0 < book.bids[0].price <= 0x4000_0000 && 0 < book.asks[0].price <= 0x4000_0000
    requires -(WINDOW * U32_MAX) <= window.sums.orderFlow <= WINDOW * U32_MAX
    requires -(WINDOW * U32_MAX) <= window.sums.tradeFlow <= WINDOW * U32_MAX
    requires 0 <= window.sums.midpointChange <= WINDOW * I32_MAX
    ensures WeightedFits(book)
    ensures FitsI64((book.asks[0].price - book.bids[0].price) * SCALE)
    ensures FitsI64((book.bids[0].quantity - book.asks[0].quantity) * SCALE)
    ensures FitsI64((Total(book.bids) - Total(book.asks)) * SCALE)
    ensures FitsI64((Microprice(book).value - Midpoint(book).value) * SCALE)
    ensures FitsI64(window.sums.orderFlow * SCALE) && FitsI64(window.sums.tradeFlow * SCALE)
    ensures FitsI64(window.sums.midpointChange * SCALE)
    ensures FitsI64(Midpoint(book).value * (if window.size < 1 then 1 else window.size))
  {
    SmallPricesFit(book);
    TotalBounded(book.bids);
    TotalBounded(book.asks);
    MicropriceBounded(book, 0x4000_0000);
    ProductBound(Midpoint(book).value, if window.size < 1 then 1 else window.size, 0x4000_0000, WINDOW);
  }
}
