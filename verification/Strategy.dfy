/** The linear strategy: `evaluate_strategy` in C++, and rtl/strategy_model.sv with its
    active and shadow parameter banks. */
module Strategy {
  import opened MarketTypes
  import opened FixedPoint
  import opened Features

  datatype Bank = Bank(weights: Values, buy: I32, sell: I32)

  /** A bank with the version it was uploaded under. */
  datatype Parameters = Parameters(bank: Bank, version: U64)

  const RESET_BANK: Bank := Bank(NO_VALUES, 0, 0)
  const WORDS: nat := FEATURES + 2

  /** What both implementations report for one evaluation. */
  datatype Verdict = Verdict(score: I32, action: Action, valid: bool)

  const NO_VERDICT: Verdict := Verdict(0, Hold, false)

  /** Sum of the first n weighted features, each product rounded on its own. */
  function ScoreSum(weights: Values, features: Values, n: nat): int
    requires n <= FEATURES
  {
    if n == 0 then 0
    else ScoreSum(weights, features, n - 1) + RoundedDivide(features[n - 1] as int * weights[n - 1] as int, SCALE)
  }

  function Evaluate(features: FeatureVector, bank: Bank): Verdict {
    if !features.valid then NO_VERDICT
    else
      var score := Saturate(ScoreSum(bank.weights, features.values, FEATURES));
      Verdict(score, if score > bank.buy then Buy else if score < bank.sell then Sell else Hold, true)
  }

  /** The accumulating loop of `evaluate_strategy`. */
  method EvaluateStrategy(features: FeatureVector, bank: Bank) returns (verdict: Verdict)
    ensures verdict == Evaluate(features, bank)
    ensures verdict.valid == features.valid
    ensures verdict.action == Buy <==> features.valid && verdict.score > bank.buy
    ensures verdict.action == Sell <==> features.valid && verdict.score <= bank.buy && verdict.score < bank.sell
    ensures !features.valid ==> verdict.score == 0 && verdict.action == Hold
  {
    if !features.valid { return NO_VERDICT; }
    var score: int := 0;
    for index := 0 to FEATURES
      invariant score == ScoreSum(bank.weights, features.values, index)
    {
      score := score + RoundedDivide(features.values[index] as int * bank.weights[index] as int, SCALE);
    }
    var saturated := Saturate(score);
    var action := if saturated > bank.buy then Buy else if saturated < bank.sell then Sell else Hold;
    return Verdict(saturated, action, true);
  }

  // ---------- Accuracy of the score ----------

  /** The weighted sum before any rounding, scaled by 65536. */
  function ExactSum(weights: Values, features: Values, n: nat): int
    requires n <= FEATURES
  {
    if n == 0 then 0 else ExactSum(weights, features, n - 1) + features[n - 1] as int * weights[n - 1] as int
  }

  /** Rounding each product costs at most half a unit, so eight cost at most four. */
  lemma {:induction false} ScoreNearExact(weights: Values, features: Values, n: nat)
    requires n <= FEATURES
    ensures 2 * Abs(ScoreSum(weights, features, n) * SCALE - ExactSum(weights, features, n)) <= n * SCALE
    decreases n
  {
    if n > 0 {
      ScoreNearExact(weights, features, n - 1);
      RoundedIsNearest(features[n - 1] as int * weights[n - 1] as int, SCALE);
    }
  }

  lemma {:induction false} ProductFits(a: int, b: int)
    requires I32_MIN <= a <= I32_MAX && I32_MIN <= b <= I32_MAX
    ensures -0x4000_0000_0000_0000 <= a * b <= 0x4000_0000_0000_0000
  {
    ProductBound(Abs(a), Abs(b), 0x8000_0000, 0x8000_0000);
    MulSigns(Abs(a), Abs(b));
  }

  /** Neither a product nor any partial sum leaves the 64-bit accumulator. */
  lemma {:induction false} ScoreFits(weights: Values, features: Values, n: nat)
    requires n <= FEATURES
    ensures Abs(ScoreSum(weights, features, n)) <= n * 0x4000_0000_0000
    ensures FitsI64(ScoreSum(weights, features, n))
    decreases n
  {
    if n > 0 {
      ScoreFits(weights, features, n - 1);
      var product := features[n - 1] as int * weights[n - 1] as int;
      ProductFits(features[n - 1], weights[n - 1]);
      RoundedBetween(product, SCALE, -0x4000_0000_0000, 0x4000_0000_0000);
    }
  }

  // ---------- What the action means ----------

  /** The score is within four units of the exact weighted sum, or saturated towards it. */
  lemma {:induction false} ScoreMeaning(features: FeatureVector, bank: Bank)
    requires features.valid
    ensures var score, exact := Evaluate(features, bank).score, ExactSum(bank.weights, features.values, FEATURES);
      && (score < I32_MAX ==> exact <= (score + 4) * SCALE)
      && (score > I32_MIN ==> exact >= (score - 4) * SCALE)
  {
    ScoreNearExact(bank.weights, features.values, FEATURES);
    SaturateExactly(ScoreSum(bank.weights, features.values, FEATURES), Evaluate(features, bank).score);
  }

  /** The action on the verdict's own fields. */
  lemma {:induction false} ActionExactly(features: FeatureVector, bank: Bank)
    ensures var v := Evaluate(features, bank);
      && v.valid == features.valid
      && (v.action == Buy <==> features.valid && v.score > bank.buy)
      && (v.action == Sell <==> features.valid && v.score <= bank.buy && v.score < bank.sell)
      && (!features.valid ==> v.score == 0 && v.action == Hold)
  {
  }

  /** An exact sum more than four units above BUY buys; more than four below SELL sells;
      and four units inside both thresholds hold. */
  lemma {:induction false} ExactSumDecides(features: FeatureVector, bank: Bank)
    requires features.valid
    ensures var exact, action := ExactSum(bank.weights, features.values, FEATURES), Evaluate(features, bank).action;
      && (bank.buy < I32_MAX && exact > (bank.buy + 4) * SCALE ==> action == Buy)
      && (I32_MIN < bank.sell <= bank.buy && exact < (bank.sell - 4) * SCALE ==> action == Sell)
      && ((bank.sell + 4) * SCALE <= exact <= (bank.buy - 4) * SCALE ==> action == Hold)
  {
    ScoreNearExact(bank.weights, features.values, FEATURES);
    SaturateExactly(ScoreSum(bank.weights, features.values, FEATURES), Evaluate(features, bank).score);
  }

  ghost predicate Negated(weights: Values, others: Values) {
    forall k | 0 <= k < FEATURES :: others[k] as int == -(weights[k] as int)
  }

  lemma {:induction false} RoundedNegates(n: int, d: int)
    requires d > 0
    ensures RoundedDivide(-n, d) == -RoundedDivide(n, d)
  {
    assert Abs(-n) == Abs(n);
  }

  lemma {:induction false} SumNegates(weights: Values, others: Values, features: Values, n: nat)
    requires Negated(weights, others) && n <= FEATURES
    ensures ScoreSum(others, features, n) == -ScoreSum(weights, features, n)
    decreases n
  {
    if n > 0 {
      SumNegates(weights, others, features, n - 1);
      MulSigns(features[n - 1], weights[n - 1]);
      assert features[n - 1] as int * others[n - 1] as int == -(features[n - 1] as int * weights[n - 1] as int);
      RoundedNegates(features[n - 1] as int * weights[n - 1] as int, SCALE);
    }
  }

  /** Negating the weights and mirroring the thresholds exchanges BUY and SELL, away from
      saturation, exactly unless the score clears both thresholds at once. */
  lemma {:induction false} NegationExchanges(features: FeatureVector, bank: Bank, mirror: Bank)
    requires features.valid && Negated(bank.weights, mirror.weights)
    requires mirror.buy as int == -(bank.sell as int) && mirror.sell as int == -(bank.buy as int)
    requires Abs(ScoreSum(bank.weights, features.values, FEATURES)) <= I32_MAX
    ensures var v, m := Evaluate(features, bank), Evaluate(features, mirror);
      && m.score as int == -(v.score as int)
      && ((m.action == Buy <==> v.action == Sell) && (m.action == Sell <==> v.action == Buy) <==>
          !(bank.buy < v.score < bank.sell))
  {
    SumNegates(bank.weights, mirror.weights, features.values, FEATURES);
  }

  // ---------- The RTL's banks ----------

  /** One parameter write as the interface carries it. */
  datatype Write = Write(index: nat, value: I32, version: U64)

  /** One received-word flag a word. */
  type Flags = s: seq<bool> | |s| == WORDS witness seq(WORDS, _ => false)

  /** The shadow bank with its ten received-word flags. */
  datatype Shadow = Shadow(bank: Bank, version: U64, written: Flags)

  const NO_SHADOW: Shadow := Shadow(RESET_BANK, 0, NO_WORDS)

  datatype Regs = Regs(
    active: Bank, version: U64, updateCount: nat, shadow: Shadow, verdict: Verdict)

  const RESET: Regs := Regs(RESET_BANK, 0, 0, NO_SHADOW, NO_VERDICT)

  function BankWord(b: Bank, index: nat): I32
    requires index < WORDS
  {
    if index < FEATURES then b.weights[index] else if index == FEATURES then b.buy else b.sell
  }

  function SetWord(b: Bank, index: nat, value: I32): Bank {
    if index < FEATURES then b.(weights := b.weights[index := value])
    else if index == FEATURES then b.(buy := value)
    else if index == FEATURES + 1 then b.(sell := value)
    else b
  }

  function WriteShadow(s: Shadow, w: Write): Shadow {
    Shadow(SetWord(s.bank, w.index, w.value), w.version,
           if w.index < WORDS then s.written[w.index := true] else s.written)
  }

  const ALL_WORDS: Flags := [true, true, true, true, true, true, true, true, true, true]
  const NO_WORDS: Flags := [false, false, false, false, false, false, false, false, false, false]

  datatype Input = Input(evaluate: bool, features: FeatureVector, write: Option<Write>, commit: bool)

  predicate Commits(pre: Regs, i: Input) {
    i.commit && pre.shadow.written == ALL_WORDS && !i.evaluate
  }

  /** One rising edge; a commit clears the flags even of a word written on the same edge. */
  function Edge(pre: Regs, i: Input): Regs {
    var shadow := if i.write.Some? then WriteShadow(pre.shadow, i.write.value) else pre.shadow;
    var verdict := if i.evaluate then Evaluate(i.features, pre.active) else pre.verdict;
    if Commits(pre, i)
    then Regs(pre.shadow.bank, pre.shadow.version, pre.updateCount + 1, shadow.(written := NO_WORDS), verdict)
    else Regs(pre.active, pre.version, pre.updateCount, shadow, verdict)
  }

  // ---------- Atomic adoption over whole runs ----------

  /** All writes of a run, oldest first. The last commit took the shadow as `adopted` of
      them had left it; `from` and `cut` are where the uploads before and after it begin. */
  datatype Log = Log(writes: seq<Write>, from: nat, adopted: nat, cut: nat)

  const NO_LOG: Log := Log([], 0, 0, 0)

  /** A commit clears the flag of a word written on its own edge, so the next upload
      begins behind that write. */
  function Record(log: Log, pre: Regs, i: Input): Log {
    var writes := if i.write.Some? then log.writes + [i.write.value] else log.writes;
    if Commits(pre, i) then Log(writes, log.cut, |log.writes|, |writes|) else log.(writes := writes)
  }

  /** The value a word last received in a log, or the reset zero. */
  function LastValue(writes: seq<Write>, index: nat): I32 {
    if |writes| == 0 then 0
    else if writes[|writes| - 1].index == index then writes[|writes| - 1].value
    else LastValue(writes[..|writes| - 1], index)
  }

  function LastVersion(writes: seq<Write>): U64 {
    if |writes| == 0 then 0 else writes[|writes| - 1].version
  }

  predicate WrittenIn(writes: seq<Write>, index: nat) {
    exists k | 0 <= k < |writes| :: writes[k].index == index
  }

  /** A bank and version are what one upload wrote: it wrote all ten words, and each word
      has the last value it wrote there. */
  ghost predicate Uploads(upload: seq<Write>, bank: Bank, version: U64) {
    && (forall i: nat | i < WORDS :: WrittenIn(upload, i) && BankWord(bank, i) == LastValue(upload, i))
    && version == LastVersion(upload)
  }

  /** Before the first commit the active bank is the reset bank; afterwards it is exactly
      what the writes between the last two commits uploaded. */
  ghost predicate Adopted(r: Regs, log: Log) {
    && log.from <= log.adopted <= log.cut <= |log.writes|
    && (if r.updateCount == 0 then r.active == RESET_BANK && r.version == 0
        else Uploads(log.writes[log.from..log.adopted], r.active, r.version))
    && ShadowIs(r.shadow, log)
  }

  ghost predicate ShadowIs(s: Shadow, log: Log)
    requires log.cut <= |log.writes|
  {
    && (forall i: nat | i < WORDS :: BankWord(s.bank, i) == LastValue(log.writes, i))
    && s.version == LastVersion(log.writes)
    && (forall i: nat | i < WORDS :: s.written[i] <==> WrittenIn(log.writes[log.cut..], i))
  }

  lemma {:induction false} WordAfterSet(b: Bank, index: nat, value: I32, i: nat)
    requires i < WORDS
    ensures BankWord(SetWord(b, index, value), i) == if i == index then value else BankWord(b, i)
  {
  }

  lemma {:induction false} WriteShadows(s: Shadow, log: Log, w: Write)
    requires log.cut <= |log.writes| && ShadowIs(s, log)
    ensures ShadowIs(WriteShadow(s, w), log.(writes := log.writes + [w]))
  {
    var more := log.writes + [w];
    assert more[..|more| - 1] == log.writes;
    assert more[log.cut..] == log.writes[log.cut..] + [w];
    forall i: nat | i < WORDS
      ensures BankWord(SetWord(s.bank, w.index, w.value), i) == LastValue(more, i)
      ensures WriteShadow(s, w).written[i] <==> WrittenIn(more[log.cut..], i)
    {
      WordAfterSet(s.bank, w.index, w.value, i);
      var before, after := log.writes[log.cut..], more[log.cut..];
      if WrittenIn(before, i) {
        var k :| 0 <= k < |before| && before[k].index == i;
        assert after[k].index == i;
      }
      if w.index == i {
        assert after[|after| - 1].index == i;
      }
    }
  }

  /** A word written in the last stretch of a log was last written there. */
  lemma {:induction false} LastInStretch(writes: seq<Write>, cut: nat, index: nat)
    requires cut <= |writes| && WrittenIn(writes[cut..], index)
    ensures LastValue(writes[cut..], index) == LastValue(writes, index)
    ensures LastVersion(writes[cut..]) == LastVersion(writes)
    decreases |writes|
  {
    var stretch, n := writes[cut..], |writes| - 1;
    if writes[n].index != index {
      assert stretch[..|stretch| - 1] == writes[..n][cut..];
      var k :| 0 <= k < |stretch| && stretch[k].index == index;
      assert writes[..n][cut..][k].index == index;
      LastInStretch(writes[..n], cut, index);
    }
  }

  /** What a complete shadow holds is what the writes since the last commit uploaded. */
  lemma {:induction false} CompleteShadow(s: Shadow, log: Log)
    requires log.cut <= |log.writes| && ShadowIs(s, log) && s.written == ALL_WORDS
    ensures Uploads(log.writes[log.cut..], s.bank, s.version)
  {
    forall i: nat | i < WORDS
      ensures WrittenIn(log.writes[log.cut..], i)
      ensures BankWord(s.bank, i) == LastValue(log.writes[log.cut..], i)
    {
      assert s.written[i];
      LastInStretch(log.writes, log.cut, i);
    }
    LastInStretch(log.writes, log.cut, 0);
  }

  /** Every edge keeps the adoption invariant. */
  lemma {:induction false} EdgeAdopts(pre: Regs, log: Log, i: Input)
    requires Adopted(pre, log)
    ensures Adopted(Edge(pre, i), Record(log, pre, i))
  {
    if i.write.Some? {
      WriteShadows(pre.shadow, log, i.write.value);
    }
    var writes := Record(log, pre, i).writes;
    assert writes[..|log.writes|] == log.writes;
    if Commits(pre, i) {
      CompleteShadow(pre.shadow, log);
      assert writes[log.cut..|log.writes|] == log.writes[log.cut..];
      assert writes[|writes|..] == [];
    } else {
      assert writes[log.from..log.adopted] == log.writes[log.from..log.adopted];
    }
  }

  /** When an edge commits, on the raw pins and flags, and what it then changes. */
  lemma {:induction false} CommitsExactly(pre: Regs, i: Input)
    ensures var t := Edge(pre, i);
      var commits := i.commit && !i.evaluate && forall k | 0 <= k < 10 :: pre.shadow.written[k];
      && t.updateCount == pre.updateCount + (if commits then 1 else 0)
      && t.active == (if commits then pre.shadow.bank else pre.active)
      && t.version == (if commits then pre.shadow.version else pre.version)
      && (commits ==> forall k | 0 <= k < 10 :: !t.shadow.written[k])
  {
    if forall k | 0 <= k < 10 :: pre.shadow.written[k] { assert pre.shadow.written == ALL_WORDS; }
  }

  datatype History = History(regs: Regs, log: Log)

  function Run(inputs: seq<Input>): History {
    if |inputs| == 0 then History(RESET, NO_LOG)
    else
      var h := Run(inputs[..|inputs| - 1]);
      var i := inputs[|inputs| - 1];
      History(Edge(h.regs, i), Record(h.log, h.regs, i))
  }

  lemma {:induction false} ResetAdopted()
    ensures Adopted(RESET, NO_LOG)
  {
  }

  /** Whatever is written and committed, in every reachable state the active bank is the
      reset bank or all ten words of one upload, so no run ever scores with a mixture. */
  lemma {:induction false} ActiveBankIsOneUpload(inputs: seq<Input>)
    ensures Adopted(Run(inputs).regs, Run(inputs).log)
    decreases |inputs|
  {
    if |inputs| == 0 {
      ResetAdopted();
    } else {
      var h := Run(inputs[..|inputs| - 1]);
      ActiveBankIsOneUpload(inputs[..|inputs| - 1]);
      EdgeAdopts(h.regs, h.log, inputs[|inputs| - 1]);
    }
  }

  /** Before the first commit every active parameter is zero. */
  lemma {:induction false} ZeroUntilCommit(inputs: seq<Input>)
    requires Run(inputs).regs.updateCount == 0
    ensures var t := Run(inputs).regs;
      (forall k | 0 <= k < 8 :: t.active.weights[k] == 0) && t.active.buy == 0 && t.active.sell == 0 && t.version == 0
  {
    ActiveBankIsOneUpload(inputs);
  }

  /** The same by field: words 0 to 7 are the weights, word 8 is BUY, word 9 is SELL. */
  lemma {:induction false} UploadByField(inputs: seq<Input>)
    requires Run(inputs).regs.updateCount > 0
    ensures var active, log := Run(inputs).regs.active, Run(inputs).log;
      && log.from <= log.adopted <= |log.writes|
      && var upload := log.writes[log.from..log.adopted];
      && (forall i: nat | i < 10 :: WrittenIn(upload, i))
      && (forall i: nat | i < 8 :: active.weights[i] == LastValue(upload, i))
      && active.buy == LastValue(upload, 8) && active.sell == LastValue(upload, 9)
  {
    ActiveBankIsOneUpload(inputs);
    var active := Run(inputs).regs.active;
    forall i: nat | i < 8 ensures active.weights[i] == BankWord(active, i) {
    }
    assert BankWord(active, 8) == active.buy && BankWord(active, 9) == active.sell;
  }
}
