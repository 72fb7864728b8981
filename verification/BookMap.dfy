/** What a book side means: a finite map from price to visible quantity, of which
    the array is the price-sorted listing. */
module BookMap {
  import opened MarketTypes
  import opened BookModel

  function Quantities(s: seq<Level>): map<int, int> {
    if |s| == 0 then map[]
    else
      var level := s[|s| - 1];
      if level.quantity == 0 then Quantities(s[..|s| - 1])
      else Quantities(s[..|s| - 1])[level.price := level.quantity]
  }

  /** The best ten prices of a map, and nothing else. */
  ghost predicate BestTen(all: map<int, int>, kept: map<int, int>, side: Side) {
    && (forall p | p in kept :: p in all && kept[p] == all[p])
    && |kept| <= DEPTH
    && (kept != all ==> |kept| == DEPTH)
    && (forall k, d | k in kept && d in all && d !in kept :: Before(side, k, d))
  }

  /** What an accepted event does to the map of its own side. */
  ghost predicate MapStep(m: map<int, int>, e: MarketEvent, after: map<int, int>) {
    var p := e.price;
    match e.kind
    case Add =>
      if p in m then after == m[p := if m[p] + e.quantity > U32_MAX then U32_MAX else m[p] + e.quantity]
      else BestTen(m[p := e.quantity], after, e.side)
    case Update =>
      p in m && after == if e.quantity == 0 then m - {p} else m[p := e.quantity]
    case UnknownType(_) => false
    case _ =>
      p in m && after == if e.quantity >= m[p] then m - {p} else m[p := m[p] - e.quantity]
  }

  // ---------- The listing is canonical ----------

  ghost predicate DistinctPrices(s: seq<Level>) {
    forall i, j | 0 <= i < j < |s| :: s[i].quantity != 0 && s[j].quantity != 0 ==> s[i].price != s[j].price
  }

  lemma {:induction false} LevelInMap(s: seq<Level>, i: nat)
    requires DistinctPrices(s) && i < |s| && s[i].quantity != 0
    ensures s[i].price in Quantities(s)
    ensures Quantities(s)[s[i].price] == s[i].quantity
    decreases |s|
  {
    if i < |s| - 1 {
      LevelInMap(s[..|s| - 1], i);
    }
  }

  lemma {:induction false} IndexOf(s: seq<Level>, price: int) returns (i: nat)
    requires price in Quantities(s)
    ensures i < |s| && s[i].quantity != 0 && s[i].price == price
    ensures Quantities(s)[price] == s[i].quantity
    decreases |s|
  {
    var last := s[|s| - 1];
    if last.quantity != 0 && last.price == price {
      i := |s| - 1;
    } else {
      i := IndexOf(s[..|s| - 1], price);
    }
  }

  lemma {:induction false} SideIsDistinct(s: Levels, side: Side)
    requires SideOk(s, side)
    ensures DistinctPrices(s)
  {
  }

  /** The array search finds exactly the prices of the map. */
  lemma {:induction false} PriceListed(s: Levels, side: Side, price: int)
    requires SideOk(s, side)
    ensures price in Quantities(s) <==> Found(s, side, price)
    ensures Found(s, side, price) ==> Quantities(s)[price] == s[Rank(s, side, price)].quantity
  {
    SideIsDistinct(s, side);
    if Found(s, side, price) {
      LevelInMap(s, Rank(s, side, price));
    }
    if price in Quantities(s) {
      var i := IndexOf(s, price);
      assert i == Rank(s, side, price);
    }
  }

  /** The number of active levels of a side. */
  function Active(s: seq<Level>): (n: nat)
    ensures n <= |s|
    ensures forall k | 0 <= k < n :: s[k].quantity != 0
    ensures n < |s| ==> s[n].quantity == 0
  {
    if |s| == 0 || s[0].quantity == 0 then 0 else 1 + Active(s[1..])
  }

  lemma {:induction false} CountActive(s: seq<Level>, n: nat)
    requires DistinctPrices(s) && n <= |s|
    requires forall k | 0 <= k < |s| :: s[k].quantity != 0 <==> k < n
    ensures |Quantities(s)| == n
    decreases |s|
  {
    if |s| > 0 {
      var init := s[..|s| - 1];
      CountActive(init, if n == |s| then n - 1 else n);
      var price := s[|s| - 1].price;
      if n == |s| && price in Quantities(init) {
        var i := IndexOf(init, price);
      }
    }
  }

  lemma {:induction false} CountQuantities(s: Levels, side: Side)
    requires SideOk(s, side)
    ensures |Quantities(s)| == Active(s) <= DEPTH
  {
    SideIsDistinct(s, side);
    CountActive(s, Active(s));
  }

  /** An active level of one side sits, in the other, at the same index or later. */
  lemma {:induction false} LevelListed(s: Levels, t: Levels, side: Side, k: nat)
    requires SideOk(s, side) && SideOk(t, side) && k < DEPTH && s[k].quantity != 0
    requires Quantities(s) == Quantities(t)
    requires forall j | 0 <= j < k :: s[j] == t[j]
    ensures t[k].quantity != 0 && (t[k] == s[k] || Before(side, t[k].price, s[k].price))
  {
    SideIsDistinct(s, side);
    LevelInMap(s, k);
    var j := IndexOf(t, s[k].price);
    assert j >= k;
  }

  lemma {:induction false} SameMapSameLevel(s: Levels, t: Levels, side: Side, k: nat)
    requires SideOk(s, side) && SideOk(t, side) && k < DEPTH
    requires Quantities(s) == Quantities(t)
    ensures s[k] == t[k]
    decreases k
  {
    forall j | 0 <= j < k ensures s[j] == t[j] {
      SameMapSameLevel(s, t, side, j);
    }
    if s[k].quantity != 0 { LevelListed(s, t, side, k); }
    if t[k].quantity != 0 { LevelListed(t, s, side, k); }
  }

  /** Two healthy sides with the same map are the same array. */
  lemma {:induction false} ListingIsCanonical(s: Levels, t: Levels, side: Side)
    requires SideOk(s, side) && SideOk(t, side) && Quantities(s) == Quantities(t)
    ensures s == t
  {
    forall k | 0 <= k < DEPTH ensures s[k] == t[k] {
      SameMapSameLevel(s, t, side, k);
    }
  }

  // ---------- Each array operation is a map operation ----------

  lemma {:induction false} SetLevel(s: Levels, side: Side, r: nat, quantity: U32)
    requires SideOk(s, side) && r < DEPTH && s[r].quantity != 0 && quantity != 0
    ensures Quantities(s[r := s[r].(quantity := quantity)]) == Quantities(s)[s[r].price := quantity]
  {
    var t: Levels := s[r := s[r].(quantity := quantity)];
    SideIsDistinct(s, side);
    assert DistinctPrices(t);
    var m, m' := Quantities(s)[s[r].price := quantity], Quantities(t);
    forall p | p in m' ensures p in m && m[p] == m'[p] {
      var i := IndexOf(t, p);
      if i != r { LevelInMap(s, i); }
    }
    forall p | p in m ensures p in m' {
      if p == s[r].price {
        LevelInMap(t, r);
      } else {
        var i := IndexOf(s, p);
        LevelInMap(t, i);
      }
    }
  }

  lemma {:induction false} RemoveLevel(s: Levels, side: Side, r: nat)
    requires SideOk(s, side) && r < DEPTH && s[r].quantity != 0
    ensures Quantities(RemoveAt(s, r)) == Quantities(s) - {s[r].price}
  {
    var t := RemoveAt(s, r);
    RemoveKeepsSide(s, side, r);
    SideIsDistinct(s, side);
    SideIsDistinct(t, side);
    var m, m' := Quantities(s) - {s[r].price}, Quantities(t);
    forall p | p in m' ensures p in m && m[p] == m'[p] {
      var i := IndexOf(t, p);
      RemovedLevel(s, r, i);
      LevelInMap(s, if i < r then i else i + 1);
    }
    forall p | p in m ensures p in m' {
      var i := IndexOf(s, p);
      RemovedLevel(s, r, if i < r then i else i - 1);
      LevelInMap(t, if i < r then i else i - 1);
    }
  }

  /** The side after a new level found its place. */
  ghost predicate Inserted(s: Levels, side: Side, level: Level, t: Levels) {
    && SideOk(s, side) && !Found(s, side, level.price) && level.quantity != 0
    && Rank(s, side, level.price) < DEPTH
    && t == InsertAt(s, Rank(s, side, level.price), level)
    && SideOk(t, side)
  }

  lemma {:induction false} KeptOrLast(s: Levels, side: Side, level: Level, t: Levels, p: int)
    requires Inserted(s, side, level, t)
    requires p in Quantities(s)[level.price := level.quantity]
    ensures p in Quantities(t) || (s[DEPTH - 1].quantity != 0 && p == s[DEPTH - 1].price)
  {
    var r := Rank(s, side, level.price);
    SideIsDistinct(t, side);
    if p == level.price {
      InsertedLevel(s, r, level, r);
      LevelInMap(t, r);
    } else {
      var i := IndexOf(s, p);
      var j := if i < r then i else i + 1;
      if j < DEPTH {
        InsertedLevel(s, r, level, j);
        LevelInMap(t, j);
      }
    }
  }

  lemma {:induction false} KeptIsListed(s: Levels, side: Side, level: Level, t: Levels, p: int)
    requires Inserted(s, side, level, t) && p in Quantities(t)
    ensures p in Quantities(s)[level.price := level.quantity]
    ensures Quantities(s)[level.price := level.quantity][p] == Quantities(t)[p]
    ensures s[DEPTH - 1].quantity != 0 ==> Before(side, p, s[DEPTH - 1].price)
  {
    var r := Rank(s, side, level.price);
    var i := IndexOf(t, p);
    InsertedLevel(s, r, level, i);
    if i == r {
      if s[DEPTH - 1].quantity != 0 { BehindRank(s, side, level.price, DEPTH - 1); }
    } else {
      PriceListed(s, side, level.price);
      SideIsDistinct(s, side);
      LevelInMap(s, if i < r then i else i - 1);
    }
  }

  /** Inserting keeps the best ten of the old levels and the new one. */
  lemma {:induction false} InsertLevel(s: Levels, side: Side, level: Level, t: Levels)
    requires Inserted(s, side, level, t)
    ensures BestTen(Quantities(s)[level.price := level.quantity], Quantities(t), side)
  {
    var all, kept := Quantities(s)[level.price := level.quantity], Quantities(t);
    forall p | p in kept
      ensures p in all && kept[p] == all[p]
      ensures s[DEPTH - 1].quantity != 0 ==> Before(side, p, s[DEPTH - 1].price)
    {
      KeptIsListed(s, side, level, t, p);
    }
    forall d | d in all && d !in kept
      ensures s[DEPTH - 1].quantity != 0 && d == s[DEPTH - 1].price
    {
      KeptOrLast(s, side, level, t, d);
    }
    CountQuantities(t, side);
    if s[DEPTH - 1].quantity != 0 {
      InsertedLevel(s, Rank(s, side, level.price), level, DEPTH - 1);
    }
  }

  lemma {:induction false} IgnoredLevel(s: Levels, side: Side, level: Level)
    requires SideOk(s, side) && Rank(s, side, level.price) == DEPTH
    ensures BestTen(Quantities(s)[level.price := level.quantity], Quantities(s), side)
  {
    PriceListed(s, side, level.price);
    CountQuantities(s, side);
    forall p | p in Quantities(s) ensures Before(side, p, level.price) {
      var i := IndexOf(s, p);
    }
  }

  // ---------- The event as a map operation ----------

  lemma {:induction false} FoundIsMapStep(s: Levels, e: MarketEvent)
    requires SideOk(s, e.side) && ValidateEvent(e) == Valid && Found(s, e.side, e.price)
    requires EffectOf(s, e).Effect?
    ensures MapStep(Quantities(s), e, Quantities(EffectOf(s, e).levels))
  {
    var r := Rank(s, e.side, e.price);
    PriceListed(s, e.side, e.price);
    if e.kind == Add {
      SetLevel(s, e.side, r, SaturatedAdd(s[r].quantity, e.quantity));
    } else if e.kind == Update && e.quantity != 0 {
      SetLevel(s, e.side, r, e.quantity);
    } else if e.kind != Update && e.quantity < s[r].quantity {
      SetLevel(s, e.side, r, s[r].quantity - e.quantity);
    } else {
      RemoveLevel(s, e.side, r);
    }
  }

  lemma {:induction false} EffectIsMapStep(s: Levels, e: MarketEvent)
    requires SideOk(s, e.side) && ValidateEvent(e) == Valid
    ensures EffectOf(s, e).Refused? <==> e.kind != Add && e.price !in Quantities(s)
    ensures EffectOf(s, e).Refused? ==> EffectOf(s, e).error == MissingPrice
    ensures EffectOf(s, e).Effect? ==> MapStep(Quantities(s), e, Quantities(EffectOf(s, e).levels))
  {
    PriceListed(s, e.side, e.price);
    if Found(s, e.side, e.price) {
      FoundIsMapStep(s, e);
    } else if e.kind == Add {
      var level := Level(e.price, e.quantity);
      if Rank(s, e.side, e.price) == DEPTH {
        IgnoredLevel(s, e.side, level);
      } else {
        InsertKeepsSide(s, e.side, level);
        InsertLevel(s, e.side, level, EffectOf(s, e).levels);
      }
    }
  }

  /** Whether an event adds at or through the opposite best price. */
  predicate AddsThroughOpposite(book: Book, e: MarketEvent) {
    e.kind == Add &&
    if e.side == Bid then book.asks[0].quantity != 0 && e.price >= book.asks[0].price
    else book.bids[0].quantity != 0 && e.price <= book.bids[0].price
  }

  lemma {:induction false} CrossedExactly(book: Book, e: MarketEvent)
    requires BookOk(book, false) && ValidateEvent(e) == Valid
    requires EffectOf(SideOf(book, e.side), e).Effect?
    ensures Crossed(WithSide(book, e.side, EffectOf(SideOf(book, e.side), e).levels)) <==>
            AddsThroughOpposite(book, e)
  {
    var s := SideOf(book, e.side);
    var r := Rank(s, e.side, e.price);
    var t := EffectOf(s, e).levels;
    if AddsThroughOpposite(book, e) {
      assert r == 0;
    } else if !Found(s, e.side, e.price) {
      if r < DEPTH { InsertedLevel(s, r, Level(e.price, e.quantity), 0); }
    } else {
      RemovedLevel(s, r, 0);
      assert t[0].quantity != 0 ==>
        t[0].price == s[0].price || (s[1].quantity != 0 && t[0].price == s[1].price);
    }
  }

  /** On every book, the events refused as invalid, by their raw fields. */
  lemma {:induction false} InvalidExactly(book: Book, e: MarketEvent, allowCrossed: bool)
    ensures Apply(book, e, allowCrossed).error == InvalidEvent <==>
            e.kind.UnknownType? || e.side.UnknownSide? || e.price <= 0 || (e.quantity == 0 && e.kind != Update)
  {
    ReasonsExactly(e);
  }

  /** On every healthy book, the events accepted, by raw fields and prices: well-formed,
      and for an Add below the opposite best (or crossing allowed), for the others on a
      listed price. */
  lemma {:induction false} AcceptedExactly(book: Book, e: MarketEvent, allowCrossed: bool)
    requires BookOk(book, allowCrossed)
    ensures var own := if e.side == Bid then book.bids else book.asks;
      Apply(book, e, allowCrossed).error == NoError <==>
      && !e.kind.UnknownType? && !e.side.UnknownSide? && e.price > 0 && (e.quantity > 0 || e.kind == Update)
      && (if e.kind == Add then
            || allowCrossed
            || (e.side == Bid && (book.asks[0].quantity == 0 || e.price < book.asks[0].price))
            || (e.side == Ask && (book.bids[0].quantity == 0 || book.bids[0].price < e.price))
          else exists k | 0 <= k < DEPTH :: own[k].quantity != 0 && own[k].price == e.price)
  {
    ReasonsExactly(e);
    ApplyIsMapOperation(book, e, allowCrossed);
    ListedExactly(SideOf(book, e.side), e.side, e.price);
  }

  lemma {:induction false} ListedExactly(s: Levels, side: Side, price: int)
    requires SideOk(s, side)
    ensures price in Quantities(s) <==> exists k | 0 <= k < DEPTH :: s[k].quantity != 0 && s[k].price == price
  {
    SideIsDistinct(s, side);
    if price in Quantities(s) { var i := IndexOf(s, price); }
    forall k | 0 <= k < DEPTH && s[k].quantity != 0 ensures s[k].price in Quantities(s) {
      LevelInMap(s, k);
    }
  }

  /** The whole contract of one event, in terms of the two maps. */
  lemma {:induction false} ApplyIsMapOperation(book: Book, e: MarketEvent, allowCrossed: bool)
    requires BookOk(book, allowCrossed)
    ensures var o := Apply(book, e, allowCrossed);
      var m := Quantities(SideOf(book, e.side));
      && BookOk(o.book, allowCrossed)
      && (o.error == InvalidEvent <==> e.kind.UnknownType? || e.side.UnknownSide? || e.price <= 0
                                       || (e.quantity == 0 && e.kind != Update))
      && (o.error == MissingPrice <==> o.error != InvalidEvent && e.kind != Add && e.price !in m)
      && (o.error == CrossedBook <==> o.error != InvalidEvent && !allowCrossed && AddsThroughOpposite(book, e))
      && o.error != InvariantViolation
      && (o.error != NoError ==> o.book == book)
      && (o.error == NoError ==>
            && MapStep(m, e, Quantities(SideOf(o.book, e.side)))
            && o.book == WithSide(book, e.side, SideOf(o.book, e.side)))
  {
    ApplyKeepsBook(book, e, allowCrossed);
    ReasonsExactly(e);
    if ValidateEvent(e) == Valid {
      EffectIsMapStep(SideOf(book, e.side), e);
      if !allowCrossed && EffectOf(SideOf(book, e.side), e).Effect? {
        CrossedExactly(book, e);
      }
    }
  }
}
