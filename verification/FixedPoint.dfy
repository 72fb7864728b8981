/** Q16.16 arithmetic: include/market/fixed_point.hpp and its RTL twin. */
module FixedPoint {
  import opened MarketTypes

  const SCALE: int := 0x1_0000
  const ONE: I32 := 0x1_0000

  function Abs(x: int): nat {
    if x < 0 then -x else x
  }

  function Saturate(value: int): I32 {
    if value > I32_MAX then I32_MAX else if value < I32_MIN then I32_MIN else value
  }

  /** Division as C and SystemVerilog do it: toward zero. */
  function TruncDivide(n: int, d: int): int
    requires d != 0
  {
    var q := Abs(n) / Abs(d);
    if (n < 0) != (d < 0) then -q else q
  }

  function RoundedDivide(n: int, d: int): int
    requires d != 0
  {
    var q := Abs(n) / Abs(d);
    var remainder := Abs(n) % Abs(d);
    var rounded := if remainder >= (Abs(d) + 1) / 2 then q + 1 else q;
    if (n < 0) != (d < 0) then -rounded else rounded
  }

  /** The RTL version answers zero where the C++ one has no answer. */
  function RtlRoundedDivide(n: int, d: int): int {
    if d == 0 then 0 else RoundedDivide(n, d)
  }

  function Ratio(n: int, d: int): I32 {
    if d <= 0 then 0 else Saturate(RoundedDivide(n * SCALE, d))
  }

  function Multiply(left: I32, right: I32): I32 {
    Saturate(RoundedDivide(left * right, SCALE))
  }

  /** `None` stands for the division-by-zero exception. */
  function Divide(n: I32, d: I32): Option<I32> {
    if d == 0 then None else Some(Saturate(RoundedDivide(n * SCALE, d)))
  }

  /** A 64-bit two's-complement register. */
  function Wrap64(x: int): int {
    (x + 0x8000_0000_0000_0000) % 0x1_0000_0000_0000_0000 - 0x8000_0000_0000_0000
  }

  /** Saturation moves a value into the 32-bit range, by no more than it must. */
  lemma {:induction false} SaturateExactly(value: int, r: int)
    ensures r == Saturate(value) <==>
            && -0x8000_0000 <= r <= 0x7FFF_FFFF
            && (r < value ==> r == 0x7FFF_FFFF) && (value < r ==> r == -0x8000_0000)
  {
  }

  /** A wrapped value is the one in range that differs by a multiple of 2^64. */
  lemma {:induction false} WrapExactly(x: int, r: int)
    ensures r == Wrap64(x) <==> I64_MIN <= r <= I64_MAX && (x - r) % 0x1_0000_0000_0000_0000 == 0
  {
  }

  /** Truncation keeps the sign and leaves less than one divisor. */
  lemma {:induction false} TruncExactly(n: int, d: int, q: int)
    requires d != 0
    ensures q == TruncDivide(n, d) <==>
            && Abs(q) * Abs(d) <= Abs(n) < Abs(q) * Abs(d) + Abs(d)
            && (q > 0 ==> (n < 0) == (d < 0)) && (q < 0 ==> (n < 0) != (d < 0))
  {
    FloorExactly(Abs(n), Abs(d), Abs(q));
    FloorExactly(Abs(n), Abs(d), Abs(n) / Abs(d));
  }

  lemma {:induction false} FloorExactly(n: nat, d: nat, q: nat)
    requires d > 0
    ensures q == n / d <==> q * d <= n < q * d + d
  {
    var t := n / d;
    assert n == t * d + n % d;
    if q < t { MulStep(q, t, d); }
    if q > t { MulStep(t, q, d); }
  }

  // ---------- Nearest integer, ties away from zero ----------

  ghost predicate IsNearest(q: int, n: int, d: int)
    requires d != 0
  {
    var miss := 2 * Abs(q * d - n);
    miss <= Abs(d) && (miss == Abs(d) ==> Abs(q * d) > Abs(n))
  }

  lemma {:induction false} RoundedIsNearestPositive(n: nat, d: nat)
    requires d > 0
    ensures RoundedDivide(n, d) >= 0 && IsNearest(RoundedDivide(n, d), n, d)
  {
    var q, r := n / d, n % d;
    assert n == q * d + r;
    assert (q + 1) * d == q * d + d;
  }

  lemma {:induction false} MulSigns(a: int, b: int)
    ensures (-a) * b == -(a * b) == a * (-b)
    ensures (-a) * (-b) == a * b
  {
  }

  lemma {:induction false} RoundedIsNearest(n: int, d: int)
    requires d != 0
    ensures IsNearest(RoundedDivide(n, d), n, d)
  {
    RoundedIsNearestPositive(Abs(n), Abs(d));
    MulSigns(RoundedDivide(Abs(n), Abs(d)), Abs(d));
  }

  lemma {:induction false} MulStep(a: int, b: int, d: int)
    requires a < b && d > 0
    ensures a * d + d <= b * d
  {
    var more := b - a - 1;
    MulNatural(more, d);
    assert (a + 1 + more) * d == a * d + d + more * d;
  }

  lemma {:induction false} MulNatural(a: nat, b: nat)
    ensures a * b >= 0
  {
  }

  lemma {:induction false} NearestNotBelow(p: int, q: int, n: int, d: int)
    requires d > 0 && IsNearest(p, n, d) && IsNearest(q, n, d)
    ensures p >= q
  {
    if p < q {
      MulStep(p, q, d);
      if p >= 0 {
        if p > 0 { MulStep(0, p, d); }
      } else {
        if q > 0 { MulStep(p, 0, d); MulStep(0, q, d); }
        if q < 0 { MulStep(q, 0, d); }
      }
      assert false;
    }
  }

  /** At most one integer is nearest under the tie rule. */
  lemma {:induction false} NearestIsUnique(p: int, q: int, n: int, d: int)
    requires d != 0 && IsNearest(p, n, d) && IsNearest(q, n, d)
    ensures p == q
  {
    if d > 0 {
      NearestNotBelow(p, q, n, d);
      NearestNotBelow(q, p, n, d);
    } else {
      MulSigns(p, d);
      MulSigns(q, d);
      NearestNotBelow(-p, -q, n, -d);
      NearestNotBelow(-q, -p, n, -d);
    }
  }

  /** Rounded division is the nearest integer, ties away from zero, and nothing else. */
  lemma {:induction false} RoundedExactly(q: int, n: int, d: int)
    requires d != 0
    ensures q == RoundedDivide(n, d) <==> IsNearest(q, n, d)
  {
    RoundedIsNearest(n, d);
    if IsNearest(q, n, d) {
      NearestIsUnique(q, RoundedDivide(n, d), n, d);
    }
  }

  lemma {:induction false} SaturatedExactly(n: int, d: int, q: I32)
    requires d != 0
    ensures q == Saturate(RoundedDivide(n, d)) <==> exists m :: IsNearest(m, n, d) && q == Saturate(m)
  {
    RoundedIsNearest(n, d);
    forall m | IsNearest(m, n, d) ensures m == RoundedDivide(n, d) {
      RoundedExactly(m, n, d);
    }
  }

  /** A product is the nearest Q16.16 value, brought into the 32-bit range, and nothing else. */
  lemma {:induction false} MultiplyExactly(left: I32, right: I32, q: I32)
    ensures q == Multiply(left, right) <==> exists m :: IsNearest(m, left * right, SCALE) && q == Saturate(m)
  {
    SaturatedExactly(left * right, SCALE, q);
  }

  /** So is a quotient, for every divisor but zero. */
  lemma {:induction false} DivideExactly(n: I32, d: I32, q: I32)
    ensures Divide(n, d) == None <==> d == 0
    ensures d != 0 ==> (Divide(n, d) == Some(q) <==> exists m :: IsNearest(m, n * SCALE, d) && q == Saturate(m))
  {
    if d != 0 { SaturatedExactly(n * SCALE, d, q); }
  }

  /** Rounding never jumps over an integer bound. */
  lemma {:induction false} RoundedBetween(n: int, d: int, low: int, high: int)
    requires d > 0 && low * d <= n <= high * d
    ensures low <= RoundedDivide(n, d) <= high
  {
    var q := RoundedDivide(n, d);
    RoundedIsNearest(n, d);
    if q > high { MulStep(high, q, d); }
    if q < low { MulStep(q, low, d); }
  }

  /** A quotient bounded by an integer gives a ratio bounded by it, unsaturated. */
  lemma {:induction false} RatioBetween(n: int, d: int, low: int, high: int)
    requires d > 0 && low * d <= n <= high * d && -0x4000 <= low && high <= 0x4000
    ensures low * SCALE <= Ratio(n, d) <= high * SCALE
    ensures Ratio(n, d) == RoundedDivide(n * SCALE, d)
  {
    assert (low * SCALE) * d == (low * d) * SCALE;
    assert (high * SCALE) * d == (high * d) * SCALE;
    RoundedBetween(n * SCALE, d, low * SCALE, high * SCALE);
  }
}
