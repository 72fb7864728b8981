/** When the 64-bit arithmetic of the regression is exact: condition by condition, exactly
    when a row's loss, a row's gradient or a weight's move wraps, for every model and batch. */
module RegressionOverflow {
  import opened MarketTypes
  import opened FixedPoint
  import opened Features
  import opened Regression
  import Strategy

  /** The largest error whose square fits a signed 64-bit integer. */
  const ERROR_LIMIT: nat := 3_037_000_499
  const SMALL_BATCH: nat := 0x1_0000

  lemma {:induction false} AbsProduct(a: int, b: int, aMax: nat, bMax: nat)
    requires Abs(a) <= aMax && Abs(b) <= bMax
    ensures Abs(a * b) <= aMax * bMax
  {
    ProductBound(Abs(a), Abs(b), aMax, bMax);
    MulSigns(Abs(a), Abs(b));
  }

  lemma {:induction false} FloorBound(x: int, bound: nat)
    requires Abs(x) <= bound * SCALE
    ensures Abs(x / SCALE) <= bound
  {
  }

  lemma {:induction false} WideFits(x: int)
    requires FitsI64(x)
    ensures Wide(x, false) == x
  {
  }

  /** A wrapped product never shifts down to the same value as the true one. */
  lemma {:induction false} ShiftExactly(x: int)
    ensures Wide(x, false) / SCALE == x / SCALE <==> FitsI64(x)
    ensures -0x8000_0000_0000 <= Wide(x, false) / SCALE <= 0x7FFF_FFFF_FFFF
  {
    WrapRange(x);
    if FitsI64(x) { WideFits(x); }
  }

  lemma {:induction false} WrapRange(x: int)
    ensures FitsI64(Wrap64(x))
  {
  }

  // ---------- Scores and errors never wrap ----------

  lemma {:induction false} ScoreWithin(b: Rows, w: Values, row: nat, n: nat, term: nat)
    requires row < |b.targets| && n <= FEATURES && term <= 0x4000_0000_0000
    requires forall f | 0 <= f < FEATURES :: Abs(w[f] as int * Feature(b, row, f) as int) <= term * SCALE
    ensures Score(b, w, row, n, false) == Score(b, w, row, n, true)
    ensures Abs(Score(b, w, row, n, true)) <= n * term
    decreases n
  {
    if n > 0 {
      ScoreWithin(b, w, row, n - 1, term);
      var product := w[n - 1] as int * Feature(b, row, n - 1) as int;
      assert FitsI64(product) by { assert term * SCALE <= 0x4000_0000_0000 * SCALE; }
      FloorBound(product, term);
      WideFits(product);
      TermStep(Score(b, w, row, n - 1, true), product / SCALE, n, term);
    }
  }

  lemma {:induction false} TermStep(sum: int, addend: int, n: nat, term: nat)
    requires 0 < n <= FEATURES && term <= 0x4000_0000_0000 && Abs(sum) <= (n - 1) * term && Abs(addend) <= term
    ensures Abs(sum + addend) <= n * term && Wide(sum + addend, false) == sum + addend
  {
    assert n * term == (n - 1) * term + term;
    ProductBound(n, term, FEATURES, 0x4000_0000_0000);
    WideFits(sum + addend);
  }

  /** For every model, feature and target the score and the error are exact. */
  lemma {:induction false} ErrorNeverWraps(b: Rows, w: Values, row: nat)
    requires row < |b.targets|
    ensures RowError(b, w, row, false) == RowError(b, w, row, true)
    ensures RowCorrect(b, w, row, false) == RowCorrect(b, w, row, true)
  {
    forall f | 0 <= f < FEATURES
      ensures Abs(w[f] as int * Feature(b, row, f) as int) <= 0x4000_0000_0000 * SCALE
    {
      AbsProduct(w[f], Feature(b, row, f), 0x8000_0000, 0x8000_0000);
    }
    ScoreWithin(b, w, row, FEATURES, 0x4000_0000_0000);
    WideFits(b.targets[row] - Score(b, w, row, FEATURES, true));
  }

  // ---------- When a row's loss and gradient wrap ----------

  lemma {:induction false} SquareFits(x: int)
    ensures FitsI64(x * x) <==> Abs(x) <= ERROR_LIMIT
    ensures x * x >= 0
  {
    assert x * x == Abs(x) * Abs(x);
    if Abs(x) <= ERROR_LIMIT {
      ProductBound(Abs(x), Abs(x), ERROR_LIMIT, ERROR_LIMIT);
    } else {
      ProductBound(ERROR_LIMIT + 1, ERROR_LIMIT + 1, Abs(x), Abs(x));
    }
  }

  /** A row's loss is exact if and only if its error is at most 3037000499. */
  lemma {:induction false} RowLossExactly(b: Rows, w: Values, row: nat)
    requires row < |b.targets|
    ensures RowLoss(b, w, row, false) == RowLoss(b, w, row, true) <==> Abs(RowError(b, w, row, true)) <= ERROR_LIMIT
    ensures -0x8000_0000_0000 <= RowLoss(b, w, row, false) <= 0x7FFF_FFFF_FFFF
    ensures RowLoss(b, w, row, false) <= RowLoss(b, w, row, true)
  {
    var error := RowError(b, w, row, true);
    ErrorNeverWraps(b, w, row);
    SquareFits(error);
    ShiftExactly(error * error);
  }

  /** A row's gradient is exact if and only if error times feature fits 64 bits. */
  lemma {:induction false} RowGradientExactly(b: Rows, w: Values, row: nat, f: nat)
    requires row < |b.targets| && f < FEATURES
    ensures RowGradient(b, w, row, f, false) == RowGradient(b, w, row, f, true) <==>
            FitsI64(RowError(b, w, row, true) * Feature(b, row, f) as int)
    ensures Abs(RowGradient(b, w, row, f, false)) <= 0x8000_0000_0000
  {
    ErrorNeverWraps(b, w, row);
    ShiftExactly(RowError(b, w, row, true) * Feature(b, row, f) as int);
  }

  // ---------- When a batch wraps ----------

  lemma {:induction false} LossStep(sum: int, term: int, n: nat)
    requires 0 < n <= SMALL_BATCH
    requires -((n - 1) * 0x8000_0000_0000) <= sum <= (n - 1) * 0x7FFF_FFFF_FFFF
    requires -0x8000_0000_0000 <= term <= 0x7FFF_FFFF_FFFF
    ensures -(n * 0x8000_0000_0000) <= sum + term <= n * 0x7FFF_FFFF_FFFF
    ensures Wide(sum + term, false) == sum + term
  {
    WideFits(sum + term);
  }

  /** On batches of at most 2^16 rows the reported loss is the true one if and only if every
      row's error is at most 3037000499; otherwise it is too small. */
  lemma {:induction false} LossExactly(b: Rows, w: Values, n: nat)
    requires n <= |b.targets| && n <= SMALL_BATCH
    ensures LossSum(b, w, n, false) == LossSum(b, w, n, true) <==>
            forall row | 0 <= row < n :: Abs(RowError(b, w, row, true)) <= ERROR_LIMIT
    ensures LossSum(b, w, n, false) <= LossSum(b, w, n, true)
    ensures -(n * 0x8000_0000_0000) <= LossSum(b, w, n, false) <= n * 0x7FFF_FFFF_FFFF
    decreases n
  {
    if n > 0 {
      LossExactly(b, w, n - 1);
      RowLossExactly(b, w, n - 1);
      ErrorNeverWraps(b, w, n - 1);
      LossStep(LossSum(b, w, n - 1, false), RowLoss(b, w, n - 1, false), n);
    }
  }

  ghost predicate GradientsExact(b: Rows, w: Values, f: nat, n: nat)
    requires f < FEATURES && n <= |b.targets|
  {
    forall row | 0 <= row < n :: RowGradient(b, w, row, f, false) == RowGradient(b, w, row, f, true)
  }

  lemma {:induction false} GradientSumBound(b: Rows, w: Values, f: nat, n: nat)
    requires f < FEATURES && n <= |b.targets| && GradientsExact(b, w, f, n)
    ensures -(n * 0x8000_0000_0000) <= GradientSum(b, w, f, n, true) <= n * 0x7FFF_FFFF_FFFF
    decreases n
  {
    if n > 0 {
      GradientSumBound(b, w, f, n - 1);
      ErrorNeverWraps(b, w, n - 1);
      ShiftExactly(RowError(b, w, n - 1, true) * Feature(b, n - 1, f) as int);
    }
  }

  /** The accumulator is right after every row; or would be, in wider arithmetic. */
  ghost predicate GradientSumsExact(b: Rows, w: Values, f: nat, n: nat)
    requires f < FEATURES && n <= |b.targets|
  {
    forall k: nat | k <= n :: GradientSum(b, w, f, k, false) == GradientSum(b, w, f, k, true)
  }

  ghost predicate GradientSumsFit(b: Rows, w: Values, f: nat, n: nat)
    requires f < FEATURES && n <= |b.targets|
  {
    forall k: nat | k <= n :: FitsI64(GradientSum(b, w, f, k, true))
  }

  lemma {:induction false} WideExactly(x: int)
    ensures Wide(x, false) == x <==> FitsI64(x)
  {
    WrapRange(x);
    if FitsI64(x) { WideFits(x); }
  }

  lemma {:induction false} GradientSumsExactly(b: Rows, w: Values, f: nat, n: nat)
    requires f < FEATURES && n <= |b.targets| && GradientsExact(b, w, f, n)
    ensures GradientSumsExact(b, w, f, n) <==> GradientSumsFit(b, w, f, n)
    decreases n
  {
    if n > 0 {
      GradientSumsExactly(b, w, f, n - 1);
      assert RowGradient(b, w, n - 1, f, false) == RowGradient(b, w, n - 1, f, true);
      WideExactly(GradientSum(b, w, f, n - 1, true) + RowGradient(b, w, n - 1, f, true));
      LastSum(b, w, f, n);
    }
  }

  lemma {:induction false} LastSum(b: Rows, w: Values, f: nat, n: nat)
    requires f < FEATURES && 0 < n <= |b.targets|
    ensures GradientSumsExact(b, w, f, n) <==>
            GradientSumsExact(b, w, f, n - 1) && GradientSum(b, w, f, n, false) == GradientSum(b, w, f, n, true)
    ensures GradientSumsFit(b, w, f, n) <==> GradientSumsFit(b, w, f, n - 1) && FitsI64(GradientSum(b, w, f, n, true))
  {
  }

  /** Up to 2^16 exact row gradients always fit. */
  lemma {:induction false} SmallGradientsFit(b: Rows, w: Values, f: nat, n: nat)
    requires f < FEATURES && n <= |b.targets| && n <= SMALL_BATCH && GradientsExact(b, w, f, n)
    ensures GradientSumsFit(b, w, f, n)
  {
    forall k: nat | k <= n ensures FitsI64(GradientSum(b, w, f, k, true)) {
      GradientSumBound(b, w, f, k);
    }
  }

  // The same for the accumulated loss.

  ghost predicate LossSumsExact(b: Rows, w: Values, n: nat)
    requires n <= |b.targets|
  {
    forall k: nat | k <= n :: LossSum(b, w, k, false) == LossSum(b, w, k, true)
  }

  ghost predicate LossSumsFit(b: Rows, w: Values, n: nat)
    requires n <= |b.targets|
  {
    forall k: nat | k <= n :: FitsI64(LossSum(b, w, k, true))
  }

  ghost predicate LossesExact(b: Rows, w: Values, n: nat)
    requires n <= |b.targets|
  {
    forall row | 0 <= row < n :: RowLoss(b, w, row, false) == RowLoss(b, w, row, true)
  }

  lemma {:induction false} LossSumsExactly(b: Rows, w: Values, n: nat)
    requires n <= |b.targets| && LossesExact(b, w, n)
    ensures LossSumsExact(b, w, n) <==> LossSumsFit(b, w, n)
    decreases n
  {
    if n > 0 {
      LossSumsExactly(b, w, n - 1);
      assert RowLoss(b, w, n - 1, false) == RowLoss(b, w, n - 1, true);
      WideExactly(LossSum(b, w, n - 1, true) + RowLoss(b, w, n - 1, true));
      LastLoss(b, w, n);
    }
  }

  lemma {:induction false} LastLoss(b: Rows, w: Values, n: nat)
    requires 0 < n <= |b.targets|
    ensures LossSumsExact(b, w, n) <==> LossSumsExact(b, w, n - 1) && LossSum(b, w, n, false) == LossSum(b, w, n, true)
    ensures LossSumsFit(b, w, n) <==> LossSumsFit(b, w, n - 1) && FitsI64(LossSum(b, w, n, true))
  {
  }

  lemma {:induction false} SmallLossesFit(b: Rows, w: Values, n: nat)
    requires n <= |b.targets| && n <= SMALL_BATCH
    requires forall row | 0 <= row < n :: Abs(RowError(b, w, row, true)) <= ERROR_LIMIT
    ensures LossSumsFit(b, w, n)
  {
    forall k: nat | k <= n ensures FitsI64(LossSum(b, w, k, true)) {
      LossExactly(b, w, k);
    }
  }

  lemma {:induction false} CorrectExact(b: Rows, w: Values, n: nat)
    requires n <= |b.targets|
    ensures CorrectSum(b, w, n, false) == CorrectSum(b, w, n, true)
    decreases n
  {
    if n > 0 {
      CorrectExact(b, w, n - 1);
      ErrorNeverWraps(b, w, n - 1);
    }
  }

  lemma {:induction false} MeanBound(sum: int, rows: nat, bound: nat)
    requires rows > 0 && Abs(sum) <= rows * bound
    ensures Abs(TruncDivide(sum, rows)) <= bound
  {
    var q := Abs(sum) / rows;
    if q > bound { MulStep(bound, q, rows); }
  }

  lemma {:induction false} PullFits(weight: I32, sum: int, rows: nat, l2: I32)
    requires rows > 0 && Abs(sum) <= rows * 0x8000_0000_0000
    ensures Pull(weight, sum, rows, l2, false) == Pull(weight, sum, rows, l2, true)
    ensures Abs(Pull(weight, sum, rows, l2, true)) <= 0xC000_0000_0000
  {
    MeanBound(sum, rows, 0x8000_0000_0000);
    var product := l2 as int * weight as int;
    AbsProduct(l2, weight, 0x8000_0000, 0x8000_0000);
    FloorBound(product, 0x4000_0000_0000);
    WideFits(product);
    WideFits(TruncDivide(sum, rows) - product / SCALE);
  }

  /** Given an exact gradient sum, a weight's move is exact if and only if learning rate
      times pull fits 64 bits. */
  lemma {:induction false} MoveExactly(weight: I32, sum: int, rows: nat, learningRate: I32, l2: I32)
    requires rows > 0 && Abs(sum) <= rows * 0x8000_0000_0000
    ensures Move(weight, sum, rows, learningRate, l2, false) == Move(weight, sum, rows, learningRate, l2, true) <==>
            FitsI64(learningRate as int * Pull(weight, sum, rows, l2, true))
    ensures Abs(Move(weight, sum, rows, learningRate, l2, false)) <= 0x8000_0000_0000
  {
    PullFits(weight, sum, rows, l2);
    ShiftExactly(learningRate as int * Pull(weight, sum, rows, l2, true));
  }

  function SumOf(bank: Strategy.Bank, b: Rows, f: nat, exact: bool): int
    requires f < FEATURES
  {
    GradientSum(b, bank.weights, f, |b.targets|, exact)
  }

  /** No row's loss or gradient, no accumulated sum and no move differs from its unbounded
      value. */
  ghost predicate Unwrapped(bank: Strategy.Bank, b: Rows, learningRate: I32, l2: I32) {
    var w, rows := bank.weights, |b.targets|;
    && LossesExact(b, w, rows) && LossSumsExact(b, w, rows)
    && (forall f | 0 <= f < FEATURES :: GradientsExact(b, w, f, rows))
    && (forall f | 0 <= f < FEATURES :: GradientSumsExact(b, w, f, rows))
    && (forall f | 0 <= f < FEATURES :: MoveExact(bank, b, f, learningRate, l2))
  }

  ghost predicate MoveExact(bank: Strategy.Bank, b: Rows, f: nat, learningRate: I32, l2: I32)
    requires f < FEATURES
  {
    Move(bank.weights[f], SumOf(bank, b, f, false), |b.targets|, learningRate, l2, false) ==
    Move(bank.weights[f], SumOf(bank, b, f, true), |b.targets|, learningRate, l2, true)
  }

  ghost predicate MoveFits(bank: Strategy.Bank, b: Rows, f: nat, learningRate: I32, l2: I32)
    requires f < FEATURES
  {
    FitsI64(learningRate as int * Pull(bank.weights[f], SumOf(bank, b, f, true), |b.targets|, l2, true))
  }

  /** What a caller can check in wider arithmetic before training. */
  ghost predicate BatchFits(bank: Strategy.Bank, b: Rows, learningRate: I32, l2: I32) {
    var w, rows := bank.weights, |b.targets|;
    && (forall row | 0 <= row < rows :: Abs(RowError(b, w, row, true)) <= ERROR_LIMIT) && LossSumsFit(b, w, rows)
    && (forall f | 0 <= f < FEATURES :: ProductsFit(b, w, f))
    && (forall f | 0 <= f < FEATURES :: GradientSumsFit(b, w, f, rows))
    && (forall f | 0 <= f < FEATURES :: MoveFits(bank, b, f, learningRate, l2))
  }

  ghost predicate ProductsFit(b: Rows, w: Values, f: nat)
    requires f < FEATURES
  {
    forall row | 0 <= row < |b.targets| :: FitsI64(RowError(b, w, row, true) * Feature(b, row, f) as int)
  }

  lemma {:induction false} GradientsExactly(b: Rows, w: Values, f: nat)
    requires f < FEATURES
    ensures GradientsExact(b, w, f, |b.targets|) <==> ProductsFit(b, w, f)
  {
    forall row | 0 <= row < |b.targets|
      ensures RowGradient(b, w, row, f, false) == RowGradient(b, w, row, f, true) <==>
              FitsI64(RowError(b, w, row, true) * Feature(b, row, f) as int)
    {
      RowGradientExactly(b, w, row, f);
    }
  }

  lemma {:induction false} LossesExactly(b: Rows, w: Values)
    ensures LossesExact(b, w, |b.targets|) <==>
            forall row | 0 <= row < |b.targets| :: Abs(RowError(b, w, row, true)) <= ERROR_LIMIT
  {
    forall row | 0 <= row < |b.targets|
      ensures RowLoss(b, w, row, false) == RowLoss(b, w, row, true) <==> Abs(RowError(b, w, row, true)) <= ERROR_LIMIT
    {
      RowLossExactly(b, w, row);
    }
  }

  lemma {:induction false} WeightExactly(bank: Strategy.Bank, b: Rows, f: nat, learningRate: I32, l2: I32)
    requires f < FEATURES && GradientsExact(b, bank.weights, f, |b.targets|)
    requires GradientSumsExact(b, bank.weights, f, |b.targets|)
    ensures SumOf(bank, b, f, false) == SumOf(bank, b, f, true)
    ensures MoveExact(bank, b, f, learningRate, l2) <==> MoveFits(bank, b, f, learningRate, l2)
    ensures Abs(Move(bank.weights[f], SumOf(bank, b, f, false), |b.targets|, learningRate, l2, false)) <= 0x8000_0000_0000
  {
    GradientSumBound(b, bank.weights, f, |b.targets|);
    MoveExactly(bank.weights[f], SumOf(bank, b, f, true), |b.targets|, learningRate, l2);
  }

  /** One feature's share of the exact condition. */
  lemma {:induction false} FeatureExactly(bank: Strategy.Bank, b: Rows, f: nat, learningRate: I32, l2: I32)
    requires f < FEATURES
    ensures var w, rows := bank.weights, |b.targets|;
      GradientsExact(b, w, f, rows) && GradientSumsExact(b, w, f, rows) && MoveExact(bank, b, f, learningRate, l2) <==>
      ProductsFit(b, w, f) && GradientSumsFit(b, w, f, rows) && MoveFits(bank, b, f, learningRate, l2)
  {
    GradientsExactly(b, bank.weights, f);
    if ProductsFit(b, bank.weights, f) {
      GradientSumsExactly(b, bank.weights, f, |b.targets|);
      if GradientSumsFit(b, bank.weights, f, |b.targets|) { WeightExactly(bank, b, f, learningRate, l2); }
    }
  }

  /** The exact condition, for every model and every batch. */
  lemma {:induction false} UnwrappedExactly(bank: Strategy.Bank, b: Rows, learningRate: I32, l2: I32)
    ensures Unwrapped(bank, b, learningRate, l2) <==> BatchFits(bank, b, learningRate, l2)
  {
    var w, rows := bank.weights, |b.targets|;
    LossesExactly(b, w);
    if LossesExact(b, w, rows) { LossSumsExactly(b, w, rows); }
    forall f | 0 <= f < FEATURES
      ensures GradientsExact(b, w, f, rows) && GradientSumsExact(b, w, f, rows) && MoveExact(bank, b, f, learningRate, l2)
              <==>
              ProductsFit(b, w, f) && GradientSumsFit(b, w, f, rows) && MoveFits(bank, b, f, learningRate, l2)
    {
      FeatureExactly(bank, b, f, learningRate, l2);
    }
  }

  /** A batch that fits trains and measures as in unbounded integers. */
  lemma {:induction false} FittingBatchExact(bank: Strategy.Bank, b: Rows, learningRate: I32, l2: I32)
    requires BatchFits(bank, b, learningRate, l2)
    ensures Train(bank, b, learningRate, l2, false) == Train(bank, b, learningRate, l2, true)
    ensures Measure(bank, b, false) == Measure(bank, b, true)
  {
    UnwrappedExactly(bank, b, learningRate, l2);
    CorrectExact(b, bank.weights, |b.targets|);
    forall f | 0 <= f < FEATURES
      ensures TrainedWeight(bank, b, f, learningRate, l2, false) == TrainedWeight(bank, b, f, learningRate, l2, true)
    {
      WeightExactly(bank, b, f, learningRate, l2);
      WideFits(bank.weights[f] + Move(bank.weights[f], SumOf(bank, b, f, true), |b.targets|, learningRate, l2, true));
    }
  }

  // ---------- Bounds that are enough, and a batch beyond them ----------

  /** Up to 2^16 rows, features up to 64.0, targets up to 2^30. */
  ghost predicate Moderate(b: Rows) {
    && |b.targets| <= SMALL_BATCH
    && (forall i | 0 <= i < |b.features| :: Abs(b.features[i]) <= 0x40_0000)
    && (forall row | 0 <= row < |b.targets| :: Abs(b.targets[row]) <= 0x4000_0000)
  }

  lemma {:induction false} ModerateError(b: Rows, w: Values, row: nat)
    requires Moderate(b) && WeightsLimited(w) && row < |b.targets|
    ensures Abs(RowError(b, w, row, true)) <= 0x8000_0000
  {
    forall f | 0 <= f < FEATURES ensures Abs(w[f] as int * Feature(b, row, f) as int) <= 0x800_0000 * SCALE {
      AbsProduct(w[f], Feature(b, row, f), 0x20_0000, 0x40_0000);
    }
    ScoreWithin(b, w, row, FEATURES, 0x800_0000);
  }

  lemma {:induction false} ModerateGradient(b: Rows, w: Values, row: nat, f: nat)
    requires Moderate(b) && WeightsLimited(w) && row < |b.targets| && f < FEATURES
    ensures FitsI64(RowError(b, w, row, true) * Feature(b, row, f) as int)
    ensures Abs(RowGradient(b, w, row, f, true)) <= 0x20_0000_0000
  {
    ModerateError(b, w, row);
    var product := RowError(b, w, row, true) * Feature(b, row, f) as int;
    AbsProduct(RowError(b, w, row, true), Feature(b, row, f), 0x8000_0000, 0x40_0000);
    FloorBound(product, 0x20_0000_0000);
  }

  lemma {:induction false} ModerateSum(b: Rows, w: Values, f: nat, n: nat)
    requires Moderate(b) && WeightsLimited(w) && n <= |b.targets| && f < FEATURES
    ensures Abs(GradientSum(b, w, f, n, true)) <= n * 0x20_0000_0000
    decreases n
  {
    if n > 0 {
      ModerateSum(b, w, f, n - 1);
      ModerateGradient(b, w, n - 1, f);
    }
  }

  lemma {:induction false} ModerateMove(weight: I32, sum: int, rows: nat, learningRate: I32, l2: I32)
    requires rows > 0 && Abs(sum) <= rows * 0x20_0000_0000 && Abs(weight) <= WEIGHT_LIMIT
    requires 0 < learningRate <= 0x100_0000 && l2 >= 0
    ensures FitsI64(learningRate as int * Pull(weight, sum, rows, l2, true))
  {
    MeanBound(sum, rows, 0x20_0000_0000);
    AbsProduct(l2, weight, 0x8000_0000, 0x20_0000);
    FloorBound(l2 as int * weight as int, 0x10_0000_0000);
    AbsProduct(learningRate, Pull(weight, sum, rows, l2, true), 0x100_0000, 0x30_0000_0000);
  }

  /** Moderate batches fit, so the kernels and the oracle compute the unbounded-integer
      batch update and its metrics. */
  lemma {:induction false} TrainExact(bank: Strategy.Bank, b: Rows, learningRate: I32, l2: I32)
    requires Moderate(b) && WeightsLimited(bank.weights) && 0 < learningRate <= 0x100_0000 && l2 >= 0
    ensures BatchFits(bank, b, learningRate, l2)
    ensures Train(bank, b, learningRate, l2, false) == Train(bank, b, learningRate, l2, true)
    ensures Measure(bank, b, false) == Measure(bank, b, true)
  {
    var w, rows := bank.weights, |b.targets|;
    forall row | 0 <= row < rows ensures Abs(RowError(b, w, row, true)) <= ERROR_LIMIT {
      ModerateError(b, w, row);
    }
    SmallLossesFit(b, w, rows);
    forall f | 0 <= f < FEATURES
      ensures ProductsFit(b, w, f) && GradientSumsFit(b, w, f, rows) && MoveFits(bank, b, f, learningRate, l2)
    {
      forall row | 0 <= row < rows ensures FitsI64(RowError(b, w, row, true) * Feature(b, row, f) as int) {
        ModerateGradient(b, w, row, f);
      }
      GradientsExactly(b, w, f);
      SmallGradientsFit(b, w, f, rows);
      ModerateSum(b, w, f, rows);
      ModerateMove(w[f], SumOf(bank, b, f, true), rows, learningRate, l2);
    }
    FittingBatchExact(bank, b, learningRate, l2);
  }

  /** One saturated feature under the largest weight passes the error limit, and the
      reported loss is too small. */
  lemma {:induction false} TrainingOverflows(bank: Strategy.Bank, b: Rows)
    requires bank.weights == [WEIGHT_LIMIT, 0, 0, 0, 0, 0, 0, 0]
    requires b == Batch([I32_MAX, 0, 0, 0, 0, 0, 0, 0], [0])
    ensures WeightsLimited(bank.weights) && Measure(bank, b, false).loss < Measure(bank, b, true).loss
  {
    SingleFeatureScore(b, bank.weights, FEATURES);
    assert RowError(b, bank.weights, 0, true) == -(WEIGHT_LIMIT as int * I32_MAX / SCALE);
    LossExactly(b, bank.weights, 1);
  }

  lemma {:induction false} SingleFeatureScore(b: Rows, w: Values, n: nat)
    requires w == [WEIGHT_LIMIT, 0, 0, 0, 0, 0, 0, 0] && b == Batch([I32_MAX, 0, 0, 0, 0, 0, 0, 0], [0])
    requires 0 < n <= FEATURES
    ensures Score(b, w, 0, n, true) == WEIGHT_LIMIT as int * I32_MAX / SCALE
    decreases n
  {
    var product := w[n - 1] as int * Feature(b, 0, n - 1) as int;
    if n == 1 {
      assert Score(b, w, 0, 0, true) == 0 && product == WEIGHT_LIMIT as int * I32_MAX;
    } else {
      SingleFeatureScore(b, w, n - 1);
      assert w[n - 1] == 0 && product == 0;
    }
  }

  /** A whole training run on moderate batches never wraps. */
  lemma {:induction false} RunExact(bank: Strategy.Bank, batches: seq<Rows>, learningRate: I32, l2: I32)
    requires WeightsLimited(bank.weights) && 0 < learningRate <= 0x100_0000 && l2 >= 0
    requires forall k | 0 <= k < |batches| :: Moderate(batches[k])
    ensures TrainAll(bank, batches, learningRate, l2, false) == TrainAll(bank, batches, learningRate, l2, true)
    decreases |batches|
  {
    if |batches| > 0 {
      TrainExact(bank, batches[0], learningRate, l2);
      TrainedIsPublishable(bank, batches[0], learningRate, l2, true);
      RunExact(Train(bank, batches[0], learningRate, l2, true), batches[1..], learningRate, l2);
    }
  }
}
