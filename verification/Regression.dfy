/** Batch regression: the sequential oracle of src/gpu/regression_oracle.cpp and the two
    data-parallel kernels of gpu/kernels/smoke_test.cl, whose work items run in any order. */
module Regression {
  import opened MarketTypes
  import opened FixedPoint
  import opened Features
  import Strategy

  const WEIGHT_LIMIT: I32 := 0x20_0000
  const DEFAULT_THRESHOLD: I32 := 0x4000
  /** The kernels index features with 32-bit numbers; the oracle has no such limit. */
  const MAX_ROWS: nat := 0x1FFF_FFFF

  // ---------- One training batch as a value ----------

  /** Row-major features, eight per target. */
  datatype Batch = Batch(features: seq<I32>, targets: seq<I32>)

  predicate Shaped(b: Batch) {
    0 < |b.targets| && |b.features| == |b.targets| * FEATURES
  }

  type Rows = b: Batch | Shaped(b) witness Batch([0, 0, 0, 0, 0, 0, 0, 0], [0])

  /** A 64-bit register, or the unbounded integer it stands for. */
  function Wide(x: int, exact: bool): int {
    if exact then x else Wrap64(x)
  }

  function Feature(b: Rows, row: nat, f: nat): I32
    requires row < |b.targets| && f < FEATURES
  {
    b.features[row * FEATURES + f]
  }

  /** The row's prediction from its first n features; `>> 16` rounds down. */
  function Score(b: Rows, w: Values, row: nat, n: nat, exact: bool): int
    requires row < |b.targets| && n <= FEATURES
  {
    if n == 0 then 0
    else
      var product := Wide(w[n - 1] as int * Feature(b, row, n - 1) as int, exact);
      Wide(Score(b, w, row, n - 1, exact) + product / SCALE, exact)
  }

  function RowError(b: Rows, w: Values, row: nat, exact: bool): int
    requires row < |b.targets|
  {
    Wide(b.targets[row] - Score(b, w, row, FEATURES, exact), exact)
  }

  function RowGradient(b: Rows, w: Values, row: nat, f: nat, exact: bool): int
    requires row < |b.targets| && f < FEATURES
  {
    Wide(RowError(b, w, row, exact) * Feature(b, row, f) as int, exact) / SCALE
  }

  function RowLoss(b: Rows, w: Values, row: nat, exact: bool): int
    requires row < |b.targets|
  {
    Wide(RowError(b, w, row, exact) * RowError(b, w, row, exact), exact) / SCALE
  }

  function RowCorrect(b: Rows, w: Values, row: nat, exact: bool): int
    requires row < |b.targets|
  {
    var score := Score(b, w, row, FEATURES, exact);
    if b.targets[row] == (if score > 0 then ONE else if score < 0 then -ONE else 0) then 1 else 0
  }

  function GradientSum(b: Rows, w: Values, f: nat, n: nat, exact: bool): int
    requires f < FEATURES && n <= |b.targets|
  {
    if n == 0 then 0 else Wide(GradientSum(b, w, f, n - 1, exact) + RowGradient(b, w, n - 1, f, exact), exact)
  }

  function LossSum(b: Rows, w: Values, n: nat, exact: bool): int
    requires n <= |b.targets|
  {
    if n == 0 then 0 else Wide(LossSum(b, w, n - 1, exact) + RowLoss(b, w, n - 1, exact), exact)
  }

  function CorrectSum(b: Rows, w: Values, n: nat, exact: bool): (r: int)
    requires n <= |b.targets|
    ensures 0 <= r <= n
  {
    if n == 0 then 0 else CorrectSum(b, w, n - 1, exact) + RowCorrect(b, w, n - 1, exact)
  }

  function Clamp(x: int): I32 {
    if x > WEIGHT_LIMIT then WEIGHT_LIMIT else if x < -WEIGHT_LIMIT then -WEIGHT_LIMIT else x
  }

  /** The mean gradient less the regularisation penalty. */
  function Pull(weight: I32, gradientSum: int, rows: nat, l2: I32, exact: bool): int
    requires rows > 0
  {
    Wide(TruncDivide(gradientSum, rows) - Wide(l2 as int * weight as int, exact) / SCALE, exact)
  }

  /** How far one batch moves a weight, before clamping. */
  function Move(weight: I32, gradientSum: int, rows: nat, learningRate: I32, l2: I32, exact: bool): int
    requires rows > 0
  {
    Wide(learningRate as int * Pull(weight, gradientSum, rows, l2, exact), exact) / SCALE
  }

  function NextWeight(weight: I32, gradientSum: int, rows: nat, learningRate: I32, l2: I32, exact: bool): I32
    requires rows > 0
  {
    Clamp(Wide(weight + Move(weight, gradientSum, rows, learningRate, l2, exact), exact))
  }

  datatype Metrics = Metrics(loss: int, correct: int, rows: int)

  /** One whole batch: the new model and the metrics of the old one. */
  function TrainedWeight(bank: Strategy.Bank, b: Rows, f: nat, learningRate: I32, l2: I32, exact: bool): I32
    requires f < FEATURES
  {
    var rows := |b.targets|;
    NextWeight(bank.weights[f], GradientSum(b, bank.weights, f, rows, exact), rows, learningRate, l2, exact)
  }

  function Train(bank: Strategy.Bank, b: Rows, learningRate: I32, l2: I32, exact: bool): Strategy.Bank {
    var reset := bank.buy <= bank.sell;
    Strategy.Bank(
      seq(FEATURES, f requires 0 <= f < FEATURES => TrainedWeight(bank, b, f, learningRate, l2, exact)),
      if reset then DEFAULT_THRESHOLD else bank.buy, if reset then -DEFAULT_THRESHOLD else bank.sell)
  }

  function Measure(bank: Strategy.Bank, b: Rows, exact: bool): Metrics {
    var rows := |b.targets|;
    Metrics(LossSum(b, bank.weights, rows, exact), CorrectSum(b, bank.weights, rows, exact), rows)
  }

  // ---------- The sequential oracle ----------

  datatype Training = Rejected | Trained(bank: Strategy.Bank, metrics: Metrics)

  method OracleScore(b: Rows, w: Values, row: nat) returns (score: int)
    requires row < |b.targets|
    ensures score == Score(b, w, row, FEATURES, false)
  {
    score := 0;
    for f := 0 to FEATURES
      invariant score == Score(b, w, row, f, false)
    {
      score := Wrap64(score + Wrap64(w[f] as int * b.features[row * FEATURES + f] as int) / SCALE);
    }
  }

  method AccumulateGradients(b: Rows, row: nat, error: int, gradients: array<int>)
    requires row < |b.targets| && gradients.Length == FEATURES
    modifies gradients
    ensures forall f | 0 <= f < FEATURES ::
      gradients[f] == Wrap64(old(gradients[f]) + Wrap64(error * Feature(b, row, f) as int) / SCALE)
  {
    for f := 0 to FEATURES
      invariant forall g | f <= g < FEATURES :: gradients[g] == old(gradients[g])
      invariant forall g | 0 <= g < f ::
        gradients[g] == Wrap64(old(gradients[g]) + Wrap64(error * Feature(b, row, g) as int) / SCALE)
    {
      gradients[f] := Wrap64(gradients[f] + Wrap64(error * b.features[row * FEATURES + f] as int) / SCALE);
    }
  }

  /** The body of the oracle's row loop, on its gradient accumulators. */
  method OracleRow(b: Rows, w: Values, row: nat, gradients: array<int>) returns (loss: int, correct: int)
    requires row < |b.targets| && gradients.Length == FEATURES
    requires forall f | 0 <= f < FEATURES :: gradients[f] == GradientSum(b, w, f, row, false)
    modifies gradients
    ensures forall f | 0 <= f < FEATURES :: gradients[f] == GradientSum(b, w, f, row + 1, false)
    ensures loss == RowLoss(b, w, row, false) && correct == RowCorrect(b, w, row, false)
  {
    var score := OracleScore(b, w, row);
    var error := Wrap64(b.targets[row] - score);
    loss := Wrap64(error * error) / SCALE;
    var prediction := if score > 0 then ONE else if score < 0 then -ONE else 0;
    correct := if prediction == b.targets[row] then 1 else 0;
    AccumulateGradients(b, row, error, gradients);
  }

  /** The clamped update of one weight, as both copies write it. */
  method UpdatedWeight(weight: I32, total: int, rows: nat, learningRate: I32, l2: I32) returns (next: I32)
    requires rows > 0
    ensures next == NextWeight(weight, total, rows, learningRate, l2, false)
  {
    var mean := TruncDivide(total, rows);
    var penalty := Wrap64(l2 as int * weight as int) / SCALE;
    var updated := Wrap64(weight + Wrap64(learningRate as int * Wrap64(mean - penalty)) / SCALE);
    if updated > WEIGHT_LIMIT { updated := WEIGHT_LIMIT; }
    if updated < -WEIGHT_LIMIT { updated := -WEIGHT_LIMIT; }
    return updated;
  }

  /** The oracle's row loop. */
  method OracleRows(b: Rows, w: Values, gradients: array<int>) returns (loss: int, correct: int)
    requires gradients.Length == FEATURES && forall f | 0 <= f < FEATURES :: gradients[f] == 0
    modifies gradients
    ensures forall f | 0 <= f < FEATURES :: gradients[f] == GradientSum(b, w, f, |b.targets|, false)
    ensures loss == LossSum(b, w, |b.targets|, false) && correct == CorrectSum(b, w, |b.targets|, false)
  {
    loss, correct := 0, 0;
    for row := 0 to |b.targets|
      invariant forall f | 0 <= f < FEATURES :: gradients[f] == GradientSum(b, w, f, row, false)
      invariant loss == LossSum(b, w, row, false) && correct == CorrectSum(b, w, row, false)
    {
      var rowLoss, rowCorrect := OracleRow(b, w, row, gradients);
      loss, correct := Wrap64(loss + rowLoss), correct + rowCorrect;
    }
  }

  /** The oracle's weight loop. */
  method OracleWeights(w: Values, gradients: array<int>, rows: nat, learningRate: I32, l2: I32) returns (next: Values)
    requires gradients.Length == FEATURES && rows > 0
    ensures forall f | 0 <= f < FEATURES :: next[f] == NextWeight(w[f], gradients[f], rows, learningRate, l2, false)
  {
    next := w;
    for f := 0 to FEATURES
      invariant forall g | 0 <= g < f :: next[g] == NextWeight(w[g], gradients[g], rows, learningRate, l2, false)
    {
      var updated := UpdatedWeight(w[f], gradients[f], rows, learningRate, l2);
      next := next[f := updated];
    }
  }

  method RunRegressionOracle(b: Batch, initial: Strategy.Bank, learningRate: I32, l2: I32) returns (result: Training)
    ensures result.Rejected? <==> !Shaped(b) || learningRate <= 0 || l2 < 0
    ensures result.Trained? ==> result.bank == Train(initial, b, learningRate, l2, false)
    ensures result.Trained? ==> result.metrics == Measure(initial, b, false)
  {
    if |b.targets| == 0 || |b.features| != |b.targets| * FEATURES || learningRate <= 0 || l2 < 0 { return Rejected; }
    var gradients := new int[FEATURES](_ => 0);
    var loss, correct := OracleRows(b, initial.weights, gradients);
    var weights := OracleWeights(initial.weights, gradients, |b.targets|, learningRate, l2);
    assert weights == Train(initial, b, learningRate, l2, false).weights;
    var bank := initial.(weights := weights);
    if bank.buy <= bank.sell {
      bank := bank.(buy := DEFAULT_THRESHOLD, sell := -DEFAULT_THRESHOLD);
    }
    return Trained(bank, Metrics(loss, correct, |b.targets|));
  }

  // ---------- The two kernels ----------

  lemma {:induction false} GradientStep(b: Rows, w: Values, feature: nat, row: nat, total: int, gradient: int, next: int)
    requires feature < FEATURES && row < |b.targets|
    requires total == GradientSum(b, w, feature, row, false) && gradient == RowGradient(b, w, row, feature, false)
    requires next == GradientSum(b, w, feature, row + 1, false)
    ensures next == Wrap64(total + gradient)
  {
  }

  /** Global device memory; the model is eight weights, BUY, SELL. */
  class DeviceMemory {
    const features: array<I32>
    const targets: array<I32>
    const model: array<I32>
    const rowGradients: array<int>
    const rowLoss: array<int>
    const rowCorrect: array<int>
    const metrics: array<int>

    ghost predicate Allocated()
      reads features, targets
    {
      && Shaped(Batch(features[..], targets[..])) && targets.Length <= MAX_ROWS
      && rowGradients.Length == features.Length && rowLoss.Length == rowCorrect.Length == targets.Length
      && metrics.Length == 3 && model.Length == FEATURES + 2
      && features != targets && features != model && targets != model
      && rowGradients != rowLoss && rowGradients != rowCorrect && rowGradients != metrics
      && rowLoss != rowCorrect && rowLoss != metrics && rowCorrect != metrics
    }

    ghost function Inputs(): Rows
      requires Allocated()
      reads features, targets
    {
      Batch(features[..], targets[..])
    }

    ghost function Bank(): Strategy.Bank
      requires model.Length == FEATURES + 2
      reads model
    {
      Strategy.Bank(model[..FEATURES], model[FEATURES], model[FEATURES + 1])
    }

    /** The row buffers hold this row's contribution under the model the launch read. */
    ghost predicate RowDone(row: nat, w: Values)
      requires Allocated() && row < targets.Length
      reads features, targets, rowGradients, rowLoss, rowCorrect
    {
      var b := Inputs();
      && (forall f | 0 <= f < FEATURES :: rowGradients[row * FEATURES + f] == RowGradient(b, w, row, f, false))
      && rowLoss[row] == RowLoss(b, w, row, false) && rowCorrect[row] == RowCorrect(b, w, row, false)
    }

    /** What the first launch leaves. */
    ghost predicate RowsDone(w: Values)
      requires Allocated()
      reads features, targets, rowGradients, rowLoss, rowCorrect
    {
      forall row | 0 <= row < targets.Length :: RowDone(row, w)
    }

    constructor (b: Batch, bank: Strategy.Bank)
      requires Shaped(b) && |b.targets| <= MAX_ROWS
      ensures Allocated() && Inputs() == b && Bank() == bank
      ensures fresh(features) && fresh(targets) && fresh(model) && fresh(metrics)
      ensures fresh(rowGradients) && fresh(rowLoss) && fresh(rowCorrect)
    {
      var rows := |b.targets|;
      features := new I32[rows * FEATURES](i requires 0 <= i < rows * FEATURES => b.features[i]);
      targets := new I32[rows](i requires 0 <= i < rows => b.targets[i]);
      model := new I32[FEATURES + 2](i requires 0 <= i < FEATURES + 2 =>
        if i < FEATURES then bank.weights[i] else if i == FEATURES then bank.buy else bank.sell);
      rowGradients := new int[rows * FEATURES](_ => 0);
      rowLoss, rowCorrect, metrics := new int[rows](_ => 0), new int[rows](_ => 0), new int[3](_ => 0);
      new;
      assert features[..] == b.features && targets[..] == b.targets;
      assert model[..FEATURES] == bank.weights;
    }

    method PredictRow(row: nat) returns (score: int)
      requires Allocated() && row < targets.Length
      ensures score == Score(Inputs(), Bank().weights, row, FEATURES, false)
    {
      score := 0;
      for f := 0 to FEATURES
        invariant score == Score(Inputs(), Bank().weights, row, f, false)
      {
        score := Wrap64(score + Wrap64(model[f] as int * features[row * FEATURES + f] as int) / SCALE);
      }
    }

    method WriteGradients(row: nat, error: int)
      requires Allocated() && row < targets.Length
      modifies rowGradients
      ensures forall f | 0 <= f < FEATURES ::
        rowGradients[row * FEATURES + f] == Wrap64(error * Feature(Inputs(), row, f) as int) / SCALE
      ensures forall i | 0 <= i < rowGradients.Length && !(row * FEATURES <= i < (row + 1) * FEATURES) ::
        rowGradients[i] == old(rowGradients[i])
    {
      var base := row * FEATURES;
      for f := 0 to FEATURES
        invariant forall g | 0 <= g < f ::
          rowGradients[base + g] == Wrap64(error * Feature(Inputs(), row, g) as int) / SCALE
        invariant forall i | 0 <= i < rowGradients.Length && !(base <= i < base + f) ::
          rowGradients[i] == old(rowGradients[i])
      {
        rowGradients[base + f] := Wrap64(error * features[base + f] as int) / SCALE;
      }
    }

    /** `regression_row_gradients` for one work item. */
    method RegressionRowGradients(row: nat)
      requires Allocated()
      modifies rowGradients, rowLoss, rowCorrect
      ensures row < targets.Length ==> RowDone(row, Bank().weights)
      ensures forall other, w | 0 <= other < targets.Length && other != row && old(RowDone(other, w)) ::
        RowDone(other, w)
    {
      if row >= targets.Length { return; }
      var score := PredictRow(row);
      var error := Wrap64(targets[row] - score);
      WriteGradients(row, error);
      rowLoss[row] := Wrap64(error * error) / SCALE;
      var prediction := if score > 0 then ONE else if score < 0 then -ONE else 0;
      rowCorrect[row] := if prediction == targets[row] then 1 else 0;
    }

    /** The first launch: work items in any order, repeats and surplus identifiers allowed. */
    method LaunchRows(order: seq<nat>)
      requires Allocated()
      requires forall row | 0 <= row < targets.Length :: row in order
      modifies rowGradients, rowLoss, rowCorrect
      ensures RowsDone(Bank().weights)
    {
      ghost var w := Bank().weights;
      for k := 0 to |order|
        invariant forall row | 0 <= row < targets.Length && row in order[..k] :: RowDone(row, w)
      {
        RegressionRowGradients(order[k]);
        assert order[..k + 1] == order[..k] + [order[k]];
      }
      assert order[..|order|] == order;
    }

    /** `regression_apply_batch` for one work item: it owns one weight, and item 0 also the
        metrics and the thresholds. */
    method RegressionApplyBatch(feature: nat, learningRate: I32, l2: I32, ghost before: Strategy.Bank)
      requires Allocated() && RowsDone(before.weights)
      requires feature < FEATURES ==> model[feature] == before.weights[feature]
      requires feature == 0 ==> model[FEATURES] == before.buy && model[FEATURES + 1] == before.sell
      modifies model, metrics
      ensures feature < FEATURES ==> model[feature] == TrainedWeight(before, Inputs(), feature, learningRate, l2, false)
      ensures forall f | 0 <= f < FEATURES && f != feature :: model[f] == old(model[f])
      ensures feature == 0 ==> ItemZeroDone(before)
      ensures feature != 0 ==> metrics[..] == old(metrics[..])
      ensures feature != 0 ==> model[FEATURES] == old(model[FEATURES])
      ensures feature != 0 ==> model[FEATURES + 1] == old(model[FEATURES + 1])
    {
      if feature >= FEATURES { return; }
      var total := SumGradients(feature, before.weights);
      var next := UpdatedWeight(model[feature], total, targets.Length, learningRate, l2);
      model[feature] := next;
      if feature == 0 {
        var loss, correct := SumMetrics(before.weights);
        metrics[0], metrics[1], metrics[2] := loss, correct, targets.Length;
        if model[FEATURES] <= model[FEATURES + 1] {
          model[FEATURES], model[FEATURES + 1] := DEFAULT_THRESHOLD, -DEFAULT_THRESHOLD;
        }
      }
    }

    method ReadGradient(row: nat, feature: nat, ghost w: Values) returns (gradient: int)
      requires Allocated() && RowsDone(w) && feature < FEATURES && row < targets.Length
      ensures gradient == RowGradient(Inputs(), w, row, feature, false)
    {
      assert RowDone(row, w);
      gradient := rowGradients[row * FEATURES + feature];
    }

    method SumGradients(feature: nat, ghost w: Values) returns (total: int)
      requires Allocated() && RowsDone(w) && feature < FEATURES
      ensures total == GradientSum(Inputs(), w, feature, targets.Length, false)
    {
      total := 0;
      for row := 0 to targets.Length
        invariant total == GradientSum(Inputs(), w, feature, row, false)
      {
        var gradient := ReadGradient(row, feature, w);
        GradientStep(Inputs(), w, feature, row, total, gradient, GradientSum(Inputs(), w, feature, row + 1, false));
        total := Wrap64(total + gradient);
      }
    }

    method SumMetrics(ghost w: Values) returns (loss: int, correct: int)
      requires Allocated() && RowsDone(w)
      ensures loss == LossSum(Inputs(), w, targets.Length, false)
      ensures correct == CorrectSum(Inputs(), w, targets.Length, false)
    {
      loss, correct := 0, 0;
      for row := 0 to targets.Length
        invariant loss == LossSum(Inputs(), w, row, false) && correct == CorrectSum(Inputs(), w, row, false)
      {
        assert RowDone(row, w);
        loss, correct := Wrap64(loss + rowLoss[row]), correct + rowCorrect[row];
      }
    }

    ghost predicate ItemZeroDone(before: Strategy.Bank)
      requires Allocated()
      reads features, targets, model, metrics
    {
      var m, after := Measure(before, Inputs(), false), Train(before, Inputs(), 0, 0, false);
      && metrics[0] == m.loss && metrics[1] == m.correct && metrics[2] == m.rows
      && model[FEATURES] == after.buy && model[FEATURES + 1] == after.sell
    }

    /** The second launch: each identifier once, in any order, surplus ones allowed. */
    method LaunchApply(order: seq<nat>, learningRate: I32, l2: I32, ghost before: Strategy.Bank)
      requires Allocated() && RowsDone(before.weights) && Bank() == before
      requires forall f | 0 <= f < FEATURES :: f in order
      requires forall j, k | 0 <= j < k < |order| :: order[j] != order[k]
      modifies model, metrics
      ensures Bank() == Train(before, Inputs(), learningRate, l2, false)
      ensures Metrics(metrics[0], metrics[1], metrics[2]) == Measure(before, Inputs(), false)
    {
      for k := 0 to |order|
        invariant forall f | 0 <= f < FEATURES ::
          model[f] == if f in order[..k] then TrainedWeight(before, Inputs(), f, learningRate, l2, false)
                      else before.weights[f]
        invariant if 0 in order[..k] then ItemZeroDone(before)
                  else model[FEATURES] == before.buy && model[FEATURES + 1] == before.sell
      {
        assert order[k] !in order[..k];
        RegressionApplyBatch(order[k], learningRate, l2, before);
        assert order[..k + 1] == order[..k] + [order[k]];
      }
      assert order[..|order|] == order;
      assert Bank().weights == Train(before, Inputs(), learningRate, l2, false).weights;
    }

    /** Both launches, in any order of their work items: the oracle's answer. */
    method TrainBatch(rowOrder: seq<nat>, featureOrder: seq<nat>, learningRate: I32, l2: I32)
      requires Allocated()
      requires forall row | 0 <= row < targets.Length :: row in rowOrder
      requires forall f | 0 <= f < FEATURES :: f in featureOrder
      requires forall j, k | 0 <= j < k < |featureOrder| :: featureOrder[j] != featureOrder[k]
      modifies rowGradients, rowLoss, rowCorrect, model, metrics
      ensures Bank() == Train(old(Bank()), Inputs(), learningRate, l2, false)
      ensures Metrics(metrics[0], metrics[1], metrics[2]) == Measure(old(Bank()), Inputs(), false)
    {
      LaunchRows(rowOrder);
      LaunchApply(featureOrder, learningRate, l2, Bank());
    }
  }

  // ---------- Training over many batches ----------

  function TrainAll(bank: Strategy.Bank, batches: seq<Rows>, learningRate: I32, l2: I32, exact: bool): Strategy.Bank
    decreases |batches|
  {
    if |batches| == 0 then bank
    else TrainAll(Train(bank, batches[0], learningRate, l2, exact), batches[1..], learningRate, l2, exact)
  }

  ghost predicate WeightsLimited(w: Values) {
    forall f | 0 <= f < FEATURES :: Abs(w[f]) <= WEIGHT_LIMIT
  }

  ghost predicate Publishable(bank: Strategy.Bank) {
    WeightsLimited(bank.weights) && bank.buy > bank.sell
  }

  lemma {:induction false} TrainedIsPublishable(bank: Strategy.Bank, b: Rows, learningRate: I32, l2: I32, exact: bool)
    ensures Publishable(Train(bank, b, learningRate, l2, exact))
  {
    forall f | 0 <= f < FEATURES ensures Abs(Train(bank, b, learningRate, l2, exact).weights[f]) <= WEIGHT_LIMIT {
      assert Train(bank, b, learningRate, l2, exact).weights[f] == TrainedWeight(bank, b, f, learningRate, l2, exact);
    }
  }

  /** Whatever the model began as, after any batches its weights are limited and BUY exceeds
      SELL, the order the host's validation asks for. */
  lemma {:induction false} AlwaysPublishable(bank: Strategy.Bank, batches: seq<Rows>, learningRate: I32, l2: I32,
                                             exact: bool)
    requires |batches| > 0 || Publishable(bank)
    ensures Publishable(TrainAll(bank, batches, learningRate, l2, exact))
    decreases |batches|
  {
    if |batches| > 0 {
      TrainedIsPublishable(bank, batches[0], learningRate, l2, exact);
      AlwaysPublishable(Train(bank, batches[0], learningRate, l2, exact), batches[1..], learningRate, l2, exact);
    }
  }
}
