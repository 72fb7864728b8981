/** What a batch update computes, apart from how: the gradient against the exact weighted
    sums, and the direction in which every weight moves. */
module TrainingMeaning {
  import opened MarketTypes
  import opened FixedPoint
  import opened Features
  import opened Regression
  import opened RegressionOverflow
  import Strategy

  // ---------- Gradients against exact weighted sums ----------

  /** The eight features of one row. */
  function RowValues(b: Rows, row: nat): Values
    requires row < |b.targets|
  {
    b.features[row * FEATURES..row * FEATURES + FEATURES]
  }

  /** The row's weighted sum before any rounding, scaled by 65536. */
  function Weighted(b: Rows, w: Values, row: nat): int
    requires row < |b.targets|
  {
    Strategy.ExactSum(w, RowValues(b, row), FEATURES)
  }

  /** How far the target lies above the exact weighted sum, scaled by 65536. */
  function Residual(b: Rows, w: Values, row: nat): int
    requires row < |b.targets|
  {
    b.targets[row] as int * SCALE - Weighted(b, w, row)
  }

  /** Sum over the rows of (target - exact weighted sum) * feature, scaled by 65536. */
  function ExactGradient(b: Rows, w: Values, f: nat, n: nat): int
    requires f < FEATURES && n <= |b.targets|
  {
    if n == 0 then 0 else ExactGradient(b, w, f, n - 1) + Residual(b, w, n - 1) * b.features[(n - 1) * FEATURES + f] as int
  }

  /** What rounding can cost: eight units of score and one of gradient a row. */
  function Slack(b: Rows, f: nat, n: nat): nat
    requires f < FEATURES && n <= |b.targets|
  {
    if n == 0 then 0 else Slack(b, f, n - 1) + (8 * SCALE * Abs(b.features[(n - 1) * FEATURES + f]) + SCALE * SCALE)
  }

  lemma {:induction false} FloorLoss(x: int)
    ensures 0 <= x - SCALE * (x / SCALE) <= SCALE - 1
  {
  }

  /** A prediction rounds down once for each feature. */
  lemma {:induction false} ScoreRoundsDown(b: Rows, w: Values, row: nat, n: nat)
    requires row < |b.targets| && n <= FEATURES
    ensures 0 <= Strategy.ExactSum(w, RowValues(b, row), n) - Score(b, w, row, n, true) * SCALE <= n * (SCALE - 1)
    decreases n
  {
    if n > 0 {
      ScoreRoundsDown(b, w, row, n - 1);
      FloorLoss(w[n - 1] as int * Feature(b, row, n - 1) as int);
      assert RowValues(b, row)[n - 1] == Feature(b, row, n - 1);
    }
  }

  /** The error is the residual, rounded up by less than eight units. */
  lemma {:induction false} ErrorNearResidual(b: Rows, w: Values, row: nat)
    requires row < |b.targets|
    ensures 0 <= RowError(b, w, row, true) * SCALE - Residual(b, w, row) <= 8 * (SCALE - 1)
  {
    ScoreRoundsDown(b, w, row, FEATURES);
  }

  lemma {:induction false} ProductNear(a: int, d: int, x: int, bound: nat)
    requires 0 <= a - d <= bound
    ensures Abs(a * x - d * x) <= bound * Abs(x)
  {
    assert a * x - d * x == (a - d) * x;
    AbsProduct(a - d, x, bound, Abs(x));
  }

  lemma {:induction false} RowNear(b: Rows, w: Values, row: nat, f: nat)
    requires row < |b.targets| && f < FEATURES
    ensures var x := Feature(b, row, f) as int;
      Abs(SCALE * SCALE * RowGradient(b, w, row, f, true) - Residual(b, w, row) * x) <= 8 * SCALE * Abs(x) + SCALE * SCALE
  {
    var x, error := Feature(b, row, f) as int, RowError(b, w, row, true);
    ErrorNearResidual(b, w, row);
    ProductNear(error * SCALE, Residual(b, w, row), x, 8 * (SCALE - 1));
    FloorLoss(error * x);
    assert (error * SCALE) * x == SCALE * (error * x);
    assert 8 * (SCALE - 1) * Abs(x) <= 8 * SCALE * Abs(x);
  }

  /** The gradient sum of a feature, scaled, is the sum over the rows of (target - exact
      weighted sum) * feature, up to the rounding of each row. */
  lemma {:induction false} GradientNearExact(b: Rows, w: Values, f: nat, n: nat)
    requires f < FEATURES && n <= |b.targets|
    ensures Abs(SCALE * SCALE * GradientSum(b, w, f, n, true) - ExactGradient(b, w, f, n)) <= Slack(b, f, n)
    decreases n
  {
    if n > 0 {
      GradientNearExact(b, w, f, n - 1);
      RowNear(b, w, n - 1, f);
    }
  }

  // ---------- How far a weight moves ----------

  lemma {:induction false} MeanNear(sum: int, rows: nat)
    requires rows > 0
    ensures Abs(rows * TruncDivide(sum, rows) - sum) <= rows
  {
    TruncExactly(sum, rows, TruncDivide(sum, rows));
    MulSigns(rows, TruncDivide(sum, rows));
  }

  /** The mean gradient less the penalty, times the number of rows. */
  lemma {:induction false} PullNear(weight: I32, sum: int, rows: nat, l2: I32)
    requires rows > 0
    ensures Abs(rows * SCALE * Pull(weight, sum, rows, l2, true) - (SCALE * sum - rows * (l2 as int * weight as int)))
            <= 2 * rows * SCALE
  {
    var m, product := TruncDivide(sum, rows), l2 as int * weight as int;
    var p := product / SCALE;
    MeanNear(sum, rows);
    FloorLoss(product);
    assert rows * SCALE * (m - p) == SCALE * (rows * m) - rows * (SCALE * p);
    AbsProduct(product - SCALE * p, rows, SCALE, rows);
    assert rows * (SCALE * p) == rows * product - (product - SCALE * p) * rows;
  }

  /** A move is learning rate times (mean gradient - l2 * weight), up to rounding: two units
      of pull and one of weight. */
  lemma {:induction false} MoveNearExact(weight: I32, sum: int, rows: nat, learningRate: I32, l2: I32)
    requires rows > 0 && learningRate > 0
    ensures Abs(rows * SCALE * SCALE * Move(weight, sum, rows, learningRate, l2, true)
                - learningRate * (SCALE * sum - rows * (l2 as int * weight as int)))
            <= learningRate * (2 * rows * SCALE) + rows * SCALE * SCALE
  {
    var pull, goal := Pull(weight, sum, rows, l2, true), SCALE * sum - rows * (l2 as int * weight as int);
    var rate: int := learningRate;
    var move := rate * pull / SCALE;
    PullNear(weight, sum, rows, l2);
    FloorLoss(rate * pull);
    AbsProduct(rate, rows * SCALE * pull - goal, rate, 2 * rows * SCALE);
    MoveParts(rate, pull, move, rows, goal);
  }

  lemma {:induction false} MoveParts(rate: int, pull: int, move: int, rows: nat, goal: int)
    requires 0 <= rate * pull - SCALE * move <= SCALE - 1
    requires Abs(rate * (rows * SCALE * pull - goal)) <= rate * (2 * rows * SCALE)
    ensures Abs(rows * SCALE * SCALE * move - rate * goal) <= rate * (2 * rows * SCALE) + rows * SCALE * SCALE
  {
    var lost := rate * pull - SCALE * move;
    assert rate * (rows * SCALE * pull - goal) == rows * SCALE * (rate * pull) - rate * goal;
    assert rows * SCALE * (SCALE * move) == rows * SCALE * (rate * pull) - rows * SCALE * lost;
    assert 0 <= rows * SCALE * lost <= rows * SCALE * SCALE by { ProductBound(lost, rows * SCALE, SCALE, rows * SCALE); }
  }

  /** The new weight is the old one moved, brought to within 32.0 of zero. */
  lemma {:induction false} NextExactly(weight: I32, sum: int, rows: nat, learningRate: I32, l2: I32, next: int)
    requires rows > 0
    ensures var moved := weight + Move(weight, sum, rows, learningRate, l2, true);
      next == NextWeight(weight, sum, rows, learningRate, l2, true) <==>
      -2097152 <= next <= 2097152 && (next < moved ==> next == 2097152) && (moved < next ==> next == -2097152)
  {
  }

  // ---------- The direction of an update ----------

  lemma {:induction false} SignOfFloor(x: int)
    ensures x >= 0 ==> x / SCALE >= 0
    ensures x <= 0 ==> x / SCALE <= 0
  {
  }

  lemma {:induction false} SignOfProduct(a: int, x: int)
    ensures (a >= 0 && x >= 0) || (a <= 0 && x <= 0) ==> a * x >= 0
    ensures (a >= 0 && x <= 0) || (a <= 0 && x >= 0) ==> a * x <= 0
  {
    if a >= 0 && x >= 0 { MulNatural(a, x); }
    if a <= 0 && x <= 0 { MulNatural(-a, -x); MulSigns(a, x); }
    if a >= 0 && x <= 0 { MulNatural(a, -x); MulSigns(a, x); }
    if a <= 0 && x >= 0 { MulNatural(-a, x); MulSigns(a, x); }
  }

  /** Without a penalty a weight moves with the sign of its gradient sum. */
  lemma {:induction false} MoveFollowsSum(weight: I32, sum: int, rows: nat, learningRate: I32)
    requires rows > 0 && learningRate > 0
    ensures sum >= 0 ==> Move(weight, sum, rows, learningRate, 0, true) >= 0
    ensures sum <= 0 ==> Move(weight, sum, rows, learningRate, 0, true) <= 0
  {
    var mean := TruncDivide(sum, rows);
    MeanSign(sum, rows);
    SignOfProduct(learningRate, mean);
    SignOfFloor(learningRate as int * mean);
    assert Pull(weight, sum, rows, 0, true) == mean;
  }

  lemma {:induction false} MeanSign(sum: int, rows: nat)
    requires rows > 0
    ensures sum >= 0 ==> TruncDivide(sum, rows) >= 0
    ensures sum <= 0 ==> TruncDivide(sum, rows) <= 0
  {
  }

  lemma {:induction false} NextFollowsSum(weight: I32, sum: int, rows: nat, learningRate: I32)
    requires rows > 0 && learningRate > 0 && Abs(weight) <= WEIGHT_LIMIT
    ensures sum >= 0 ==> NextWeight(weight, sum, rows, learningRate, 0, true) >= weight
    ensures sum <= 0 ==> NextWeight(weight, sum, rows, learningRate, 0, true) <= weight
  {
    MoveFollowsSum(weight, sum, rows, learningRate);
  }

  /** Any batch: a weight is not lowered where the exact gradient is positive beyond the
      slack of rounding, nor raised where it is as far negative. */
  lemma {:induction false} BatchDirection(bank: Strategy.Bank, b: Rows, f: nat, learningRate: I32)
    requires f < FEATURES && learningRate > 0 && Abs(bank.weights[f]) <= WEIGHT_LIMIT
    ensures var exact, slack := ExactGradient(b, bank.weights, f, |b.targets|), Slack(b, f, |b.targets|);
      var next := Train(bank, b, learningRate, 0, true).weights[f];
      && (exact >= slack ==> next >= bank.weights[f])
      && (exact + slack <= 0 ==> next <= bank.weights[f])
  {
    var sum := GradientSum(b, bank.weights, f, |b.targets|, true);
    GradientNearExact(b, bank.weights, f, |b.targets|);
    NextFollowsSum(bank.weights[f], sum, |b.targets|, learningRate);
  }

  lemma {:induction false} OneRowSum(b: Rows, w: Values, f: nat)
    requires f < FEATURES && |b.targets| == 1
    ensures GradientSum(b, w, f, 1, true) == RowError(b, w, 0, true) * b.features[f] as int / SCALE
  {
    assert GradientSum(b, w, f, 0, true) == 0;
  }

  /** One row: with a target at or above the exact weighted sum, a positive feature's weight
      is not lowered and a negative one's not raised; with a target eight units or more
      below it, the other way round. */
  lemma {:induction false} OneRowDirection(bank: Strategy.Bank, b: Rows, f: nat, learningRate: I32)
    requires f < FEATURES && |b.targets| == 1 && learningRate > 0 && Abs(bank.weights[f]) <= WEIGHT_LIMIT
    ensures var w, x, target, sum := bank.weights[f], b.features[f], b.targets[0], Weighted(b, bank.weights, 0);
      var next := Train(bank, b, learningRate, 0, true).weights[f];
      && (target * SCALE >= sum && x >= 0 ==> next >= w)
      && (target * SCALE >= sum && x <= 0 ==> next <= w)
      && ((target + 8) * SCALE <= sum && x >= 0 ==> next <= w)
      && ((target + 8) * SCALE <= sum && x <= 0 ==> next >= w)
  {
    var error, x := RowError(b, bank.weights, 0, true), b.features[f] as int;
    ErrorNearResidual(b, bank.weights, 0);
    OneRowSum(b, bank.weights, f);
    SignOfProduct(error, x);
    SignOfFloor(error * x);
    NextFollowsSum(bank.weights[f], GradientSum(b, bank.weights, f, 1, true), 1, learningRate);
  }

  /** One row strictly raises the weight below its limit once residual times feature comes
      to a unit and the learning rate is at least 1.0. */
  lemma {:induction false} OneRowRises(bank: Strategy.Bank, b: Rows, f: nat, learningRate: I32)
    requires f < FEATURES && |b.targets| == 1 && learningRate >= SCALE && Abs(bank.weights[f]) < WEIGHT_LIMIT
    requires b.features[f] > 0 && Residual(b, bank.weights, 0) * b.features[f] as int >= SCALE * SCALE
    ensures Train(bank, b, learningRate, 0, true).weights[f] > bank.weights[f]
  {
    var w, error, x := bank.weights, RowError(b, bank.weights, 0, true), b.features[f] as int;
    ErrorNearResidual(b, w, 0);
    OneRowSum(b, w, f);
    assert (error * SCALE - Residual(b, w, 0)) * x >= 0 by { MulNatural(error * SCALE - Residual(b, w, 0), x); }
    assert SCALE * (error * x) >= SCALE * SCALE;
    var sum := GradientSum(b, w, f, 1, true);
    RisesByOne(w[f], sum, learningRate);
  }

  lemma {:induction false} RisesByOne(weight: I32, sum: int, learningRate: I32)
    requires sum >= 1 && learningRate >= SCALE
    ensures Move(weight, sum, 1, learningRate, 0, true) >= 1
  {
    assert Pull(weight, sum, 1, 0, true) == sum;
    assert learningRate as int * sum >= SCALE by { MulNatural(learningRate, sum - 1); }
  }

  /** Without a gradient the penalty draws a weight towards zero. */
  lemma {:induction false} PenaltyShrinks(weight: I32, rows: nat, learningRate: I32, l2: I32)
    requires rows > 0 && learningRate > 0 && l2 >= 0
    ensures weight >= 0 ==> Move(weight, 0, rows, learningRate, l2, true) <= 0
    ensures weight <= 0 ==> Move(weight, 0, rows, learningRate, l2, true) >= 0
  {
    var penalty := l2 as int * weight as int / SCALE;
    SignOfProduct(l2, weight);
    SignOfFloor(l2 as int * weight as int);
    assert Pull(weight, 0, rows, l2, true) == -penalty;
    SignOfProduct(learningRate, -penalty);
    SignOfFloor(learningRate as int * -penalty);
  }

  /** The same for what the oracle and the kernels return, on every batch that fits. */
  lemma {:induction false} TrainedDirection(bank: Strategy.Bank, b: Rows, f: nat, learningRate: I32)
    requires f < FEATURES && learningRate > 0 && Abs(bank.weights[f]) <= WEIGHT_LIMIT
    requires BatchFits(bank, b, learningRate, 0)
    ensures var exact, slack := ExactGradient(b, bank.weights, f, |b.targets|), Slack(b, f, |b.targets|);
      var next := Train(bank, b, learningRate, 0, false).weights[f];
      && (exact >= slack ==> next >= bank.weights[f])
      && (exact + slack <= 0 ==> next <= bank.weights[f])
  {
    FittingBatchExact(bank, b, learningRate, 0);
    BatchDirection(bank, b, f, learningRate);
  }

  // ---------- Thresholds and metrics ----------

  /** Thresholds in order are kept; others become 0.25 and -0.25. */
  lemma {:induction false} ThresholdsExactly(bank: Strategy.Bank, b: Rows, learningRate: I32, l2: I32, exact: bool)
    ensures var t := Train(bank, b, learningRate, l2, exact);
      && (bank.buy > bank.sell ==> t.buy == bank.buy && t.sell == bank.sell)
      && (bank.buy <= bank.sell ==> t.buy == 16384 && t.sell == -16384)
  {
  }

  /** The reported loss is the sum of the squared errors, each rounded down. */
  lemma {:induction false} LossNearSquares(b: Rows, w: Values, n: nat)
    requires n <= |b.targets|
    ensures 0 <= SquaredErrors(b, w, n) - SCALE * LossSum(b, w, n, true) <= n * (SCALE - 1)
    decreases n
  {
    if n > 0 {
      LossNearSquares(b, w, n - 1);
      FloorLoss(RowError(b, w, n - 1, true) * RowError(b, w, n - 1, true));
    }
  }

  function SquaredErrors(b: Rows, w: Values, n: nat): int
    requires n <= |b.targets|
  {
    if n == 0 then 0
    else
      var error := b.targets[n - 1] as int - Score(b, w, n - 1, FEATURES, true);
      SquaredErrors(b, w, n - 1) + error * error
  }

  /** A row counts as correct when its target is the sign of its prediction. */
  lemma {:induction false} CorrectExactly(b: Rows, w: Values, row: nat)
    requires row < |b.targets|
    ensures var score, target := Score(b, w, row, FEATURES, true), b.targets[row];
      && 0 <= RowCorrect(b, w, row, true) <= 1
      && (RowCorrect(b, w, row, true) == 1 <==>
          (score > 0 && target == 65536) || (score < 0 && target == -65536) || (score == 0 && target == 0))
  {
  }
}
