/** src/gpu/gpu_worker.cpp: future-outcome labelling, batch filling, and the discipline
    that keeps the device's map/submit/poll guards from ever firing. */
module GpuWorker {
  import opened MarketTypes
  import opened FixedPoint
  import opened Features
  import opened StreamAdapter

  // ---------- The device, as its guards see it ----------

  /** src/gpu/gpu_model.cpp reduced to what its guards test: rows mapped for filling (zero
      when unmapped) and the version of an update in flight. */
  class Device {
    var mappedRows: nat
    var pendingVersion: Option<U64>

    ghost predicate Idle()
      reads this
    {
      mappedRows == 0 && pendingVersion.None?
    }

    constructor ()
      ensures Idle()
    {
      mappedRows, pendingVersion := 0, None;
    }

    method MapTrainingBatch(rows: nat) returns (refused: bool)
      modifies this
      ensures refused <==> old(mappedRows) != 0 || old(pendingVersion).Some? || rows == 0
      ensures pendingVersion == old(pendingVersion)
      ensures mappedRows == if refused then old(mappedRows) else rows
    {
      if mappedRows != 0 || pendingVersion.Some? || rows == 0 { return true; }
      mappedRows := rows;
      return false;
    }

    method SubmitTrainingBatch(version: U64, learningRate: I32, l2: I32) returns (refused: bool)
      modifies this
      ensures refused <==> old(mappedRows) == 0 || version == 0 || learningRate <= 0 || l2 < 0 || old(pendingVersion).Some?
      ensures refused ==> mappedRows == old(mappedRows) && pendingVersion == old(pendingVersion)
      ensures !refused ==> mappedRows == 0 && pendingVersion == Some(version)
    {
      if mappedRows == 0 { return true; }
      if version == 0 || learningRate <= 0 || l2 < 0 { return true; }
      if pendingVersion.Some? { return true; }
      mappedRows := 0;
      pendingVersion := Some(version);
      return false;
    }

    /** `finished` is the completion status the OpenCL event would report. */
    method PollTrainingUpdate(finished: bool) returns (version: Option<U64>)
      modifies this
      ensures version == (if finished then old(pendingVersion) else None)
      ensures mappedRows == old(mappedRows)
      ensures pendingVersion == (if finished then None else old(pendingVersion))
    {
      if pendingVersion.None? || !finished { return None; }
      version := pendingVersion;
      pendingVersion := None;
    }

    method DiscardTrainingBatch()
      modifies this
      ensures mappedRows == 0 && pendingVersion == old(pendingVersion)
    {
      if mappedRows == 0 { return; }
      mappedRows := 0;
    }
  }

  // ---------- Labels ----------

  datatype Row = Row(features: Values, target: I32)

  predicate Usable(r: Result) {
    r.bestBid.price > 0 && r.bestAsk.price > 0 && r.bestBid.quantity != 0 && r.bestAsk.quantity != 0
  }

  predicate Trainable(entry: Result, future: Result) {
    entry.features.valid && Usable(entry) && Usable(future)
  }

  function LongProfit(entry: Result, future: Result): int {
    future.bestBid.price as int - entry.bestAsk.price as int
  }

  function ShortProfit(entry: Result, future: Result): int {
    entry.bestBid.price as int - future.bestAsk.price as int
  }

  function Label(entry: Result, future: Result, minimum: int): I32 {
    var long, short := LongProfit(entry, future), ShortProfit(entry, future);
    if long >= minimum && long > short then ONE
    else if short >= minimum && short > long then -ONE
    else 0
  }

  /** On uncrossed quotes only one direction can pay, so the tie-breaking comparisons
      never decide: the label says exactly which direction clears the threshold. */
  lemma {:induction false} LabelMeansProfit(entry: Result, future: Result, minimum: int)
    requires entry.bestBid.price < entry.bestAsk.price && future.bestBid.price < future.bestAsk.price
    requires minimum > 0
    ensures !(LongProfit(entry, future) >= minimum && ShortProfit(entry, future) >= minimum)
    ensures Label(entry, future, minimum) == 65536 <==> future.bestBid.price >= entry.bestAsk.price + minimum
    ensures Label(entry, future, minimum) == -65536 <==> entry.bestBid.price >= future.bestAsk.price + minimum
    ensures Label(entry, future, minimum) == 0 <==>
            future.bestBid.price < entry.bestAsk.price + minimum && entry.bestBid.price < future.bestAsk.price + minimum
  {
  }

  // ---------- Which pairs mature ----------

  /** Results of a stream carry their positions as indices. */
  ghost predicate Consecutive(results: seq<Result>) {
    forall k | 0 <= k < |results| :: results[k].index == k
  }

  /** The error-free results of a stretch, in order. */
  function Good(results: seq<Result>): seq<Result> {
    if |results| == 0 then []
    else
      var n := |results| - 1;
      Good(results[..n]) + if results[n].error == NoError then [results[n]] else []
  }

  /** The last H results. */
  function Recent(results: seq<Result>, horizon: nat): seq<Result> {
    if |results| <= horizon then results else results[|results| - horizon..]
  }

  /** The next result is the future of an error-free entry. */
  predicate Matures(results: seq<Result>, horizon: nat) {
    0 < horizon <= |results| && results[|results| - horizon].error == NoError
  }

  datatype Pair = Pair(entry: Result, future: Result)

  /** Every error-free result paired with the one exactly H later, in order. */
  function Pairs(results: seq<Result>, horizon: nat): seq<Pair> {
    if |results| == 0 then []
    else
      var n := |results| - 1;
      Pairs(results[..n], horizon) +
      if n >= horizon && results[n - horizon].error == NoError
      then [Pair(results[n - horizon], results[n])] else []
  }

  /** The training rows those pairs give. */
  function Rows(pairs: seq<Pair>, minimum: int): seq<Row> {
    if |pairs| == 0 then []
    else
      var n := |pairs| - 1;
      var p := pairs[n];
      Rows(pairs[..n], minimum) +
      if Trainable(p.entry, p.future) then [Row(p.entry.features.values, Label(p.entry, p.future, minimum))] else []
  }

  /** One more pair adds a row exactly if the entry's features are valid and both quotes
      are two-sided with positive prices; the row is the entry's features with the label. */
  lemma {:induction false} RowsOneMore(pairs: seq<Pair>, p: Pair, minimum: int)
    ensures Rows(pairs + [p], minimum) == Rows(pairs, minimum) +
            if && p.entry.features.valid
               && p.entry.bestBid.price > 0 && p.entry.bestBid.quantity > 0
               && p.entry.bestAsk.price > 0 && p.entry.bestAsk.quantity > 0
               && p.future.bestBid.price > 0 && p.future.bestBid.quantity > 0
               && p.future.bestAsk.price > 0 && p.future.bestAsk.quantity > 0
            then [Row(p.entry.features.values, Label(p.entry, p.future, minimum))] else []
  {
    assert (pairs + [p])[..|pairs|] == pairs;
  }

  lemma {:induction false} GoodAppend(a: seq<Result>, b: seq<Result>)
    ensures Good(a + b) == Good(a) + Good(b)
    decreases |b|
  {
    if |b| == 0 {
      assert a + b == a;
    } else {
      var n := |b| - 1;
      assert (a + b)[..|a| + n] == a + b[..n];
      GoodAppend(a, b[..n]);
    }
  }

  lemma {:induction false} GoodBounded(results: seq<Result>)
    ensures |Good(results)| <= |results|
    ensures forall g | g in Good(results) :: g in results && g.error == NoError
    decreases |results|
  {
    if |results| > 0 {
      GoodBounded(results[..|results| - 1]);
    }
  }

  lemma {:induction false} SplitFirst(results: seq<Result>)
    requires |results| > 0
    ensures Good(results) == (if results[0].error == NoError then [results[0]] else []) + Good(results[1..])
  {
    assert results == [results[0]] + results[1..];
    GoodAppend([results[0]], results[1..]);
    assert [results[0]][..0] == [];
  }

  /** One more result: the window slides by one, and at most one entry matures. */
  lemma {:induction false} WindowSlides(results: seq<Result>, r: Result, horizon: nat)
    requires horizon > 0
    ensures Matures(results, horizon) ==>
      |Good(Recent(results, horizon))| > 0 && Good(Recent(results, horizon))[0] == results[|results| - horizon]
    ensures Good(Recent(results + [r], horizon)) ==
      (if Matures(results, horizon) then Good(Recent(results, horizon))[1..] else Good(Recent(results, horizon)))
      + (if r.error == NoError then [r] else [])
  {
    var n, all := |results|, results + [r];
    if n < horizon {
      assert Recent(all, horizon) == Recent(results, horizon) + [r];
      GoodAppend(Recent(results, horizon), [r]);
    } else {
      var recent := Recent(results, horizon);
      SplitFirst(recent);
      assert Recent(all, horizon) == recent[1..] + [r];
      GoodAppend(recent[1..], [r]);
    }
    assert [r][..0] == [];
  }

  lemma {:induction false} PairsStep(results: seq<Result>, r: Result, horizon: nat)
    requires horizon > 0
    ensures Pairs(results + [r], horizon) == Pairs(results, horizon) +
      if Matures(results, horizon) then [Pair(results[|results| - horizon], r)] else []
  {
    assert (results + [r])[..|results|] == results;
  }

  lemma {:induction false} PairsFrom(results: seq<Result>, horizon: nat, p: Pair) returns (k: nat)
    requires p in Pairs(results, horizon)
    ensures k + horizon < |results| && results[k].error == NoError && p == Pair(results[k], results[k + horizon])
    decreases |results|
  {
    var n := |results| - 1;
    if p in Pairs(results[..n], horizon) {
      k := PairsFrom(results[..n], horizon, p);
    } else {
      k := n - horizon;
    }
  }

  lemma {:induction false} PairsReach(results: seq<Result>, horizon: nat, k: nat)
    requires k + horizon < |results| && results[k].error == NoError
    ensures Pair(results[k], results[k + horizon]) in Pairs(results, horizon)
    decreases |results|
  {
    var n := |results| - 1;
    if k + horizon < n { PairsReach(results[..n], horizon, k); }
  }

  /** The pairs are exactly those of an error-free result and the one H later. */
  lemma {:induction false} PairsExactly(results: seq<Result>, horizon: nat, p: Pair)
    ensures p in Pairs(results, horizon) <==>
            exists k: nat | k + horizon < |results| ::
              results[k].error == NoError && p == Pair(results[k], results[k + horizon])
  {
    if p in Pairs(results, horizon) {
      var k := PairsFrom(results, horizon, p);
    }
    forall k: nat | k + horizon < |results| && results[k].error == NoError
      ensures Pair(results[k], results[k + horizon]) in Pairs(results, horizon)
    {
      PairsReach(results, horizon, k);
    }
  }

  lemma {:induction false} RowsStep(pairs: seq<Pair>, p: Pair, minimum: int)
    ensures Rows(pairs + [p], minimum) == Rows(pairs, minimum) +
      if Trainable(p.entry, p.future) then [Row(p.entry.features.values, Label(p.entry, p.future, minimum))] else []
  {
    assert (pairs + [p])[..|pairs|] == pairs;
  }

  /** When the next result arrives: whether the oldest pending entry matures, which entry it
      is, and that the one behind it never matures with it. */
  lemma {:induction false} MaturesExactly(results: seq<Result>, horizon: nat)
    requires Consecutive(results) && horizon > 0
    ensures var pending := Good(Recent(results, horizon));
      && |pending| <= horizon
      && (Matures(results, horizon) <==> |pending| > 0 && |results| >= pending[0].index + horizon)
      && (Matures(results, horizon) ==> pending[0] == results[|results| - horizon])
      && (|pending| > 1 ==> |results| < pending[1].index + horizon)
  {
    var recent, n := Recent(results, horizon), |results|;
    GoodBounded(recent);
    if n >= horizon {
      SplitFirst(recent);
      LaterOrdered(results, recent[1..], n - horizon + 1);
    }
  }

  lemma {:induction false} LaterOrdered(results: seq<Result>, later: seq<Result>, base: nat)
    requires Consecutive(results) && base <= |results| && later == results[base..]
    ensures var good := Good(later);
      && (forall k | 0 <= k < |good| :: base <= good[k].index < base + |later|)
      && |good| <= |later|
  {
    GoodOrdered(later, base);
    GoodBounded(later);
  }

  /** Pending entries and pairs of the results consumed so far. */
  ghost predicate StreamOk(results: seq<Result>, pending: seq<Result>, pairs: seq<Pair>, horizon: nat) {
    Consecutive(results) && pending == Good(Recent(results, horizon)) && pairs == Pairs(results, horizon)
  }

  /** What the pending entries say about the next result. */
  lemma {:induction false} StreamMatures(results: seq<Result>, pending: seq<Result>, pairs: seq<Pair>, horizon: nat)
    requires StreamOk(results, pending, pairs, horizon) && horizon > 0
    ensures Matures(results, horizon) <==> |pending| > 0 && |results| >= pending[0].index + horizon
    ensures Matures(results, horizon) ==> pending[0] == results[|results| - horizon]
    ensures |pending| > 1 ==> |results| < pending[1].index + horizon
  {
    MaturesExactly(results, horizon);
  }

  /** The oldest pending entry leaves, with its pair, exactly when it matures. */
  ghost predicate StreamMoves(results: seq<Result>, r: Result, pending: seq<Result>, pairs: seq<Pair>, horizon: nat,
                              kept: seq<Result>, more: seq<Pair>) {
    if Matures(results, horizon) then |pending| > 0 && kept == pending[1..] && more == pairs + [Pair(pending[0], r)]
    else kept == pending && more == pairs
  }

  /** The step of the worker's lists is the step of the stream. */
  lemma {:induction false} StreamStep(results: seq<Result>, r: Result, pending: seq<Result>, pairs: seq<Pair>,
                                      horizon: nat, kept: seq<Result>, left: seq<Result>, more: seq<Pair>)
    requires StreamOk(results, pending, pairs, horizon) && horizon > 0 && r.index == |results|
    requires StreamMoves(results, r, pending, pairs, horizon, kept, more)
    requires left == if r.error == NoError then kept + [r] else kept
    ensures StreamOk(results + [r], left, more, horizon)
  {
    assert kept + [] == kept;
    WindowSlides(results, r, horizon);
    PairsStep(results, r, horizon);
    MaturesExactly(results, horizon);
  }

  lemma {:induction false} GoodOrdered(results: seq<Result>, base: nat)
    requires forall k | 0 <= k < |results| :: results[k].index == base + k
    ensures var good := Good(results);
      && (forall k | 0 <= k < |good| :: base <= good[k].index < base + |results|)
      && (forall j, k | 0 <= j < k < |good| :: good[j].index < good[k].index)
    decreases |results|
  {
    if |results| > 0 {
      var n := |results| - 1;
      var shorter := results[..n];
      assert forall k | 0 <= k < n :: shorter[k] == results[k];
      GoodOrdered(shorter, base);
      assert forall k | 0 <= k < |Good(shorter)| :: Good(results)[k] == Good(shorter)[k];
    }
  }

  // ---------- The worker ----------

  /** The rows of all submitted batches, in submission order. */
  function Flatten(batches: seq<seq<Row>>): seq<Row> {
    if |batches| == 0 then [] else Flatten(batches[..|batches| - 1]) + batches[|batches| - 1]
  }

  predicate AllFull(batches: seq<seq<Row>>, size: nat) {
    forall k | 0 <= k < |batches| :: |batches[k]| == size
  }

  lemma {:induction false} FlattenStep(batches: seq<seq<Row>>, batch: seq<Row>, rows: seq<Row>, done: seq<Row>)
    requires rows == Flatten(batches) + done && done == batch
    ensures rows == Flatten(batches + [batch])
  {
    assert (batches + [batch])[..|batches|] == batches;
  }

  lemma {:induction false} AppendRow(after: seq<Row>, before: seq<Row>, row: Row, flat: seq<Row>)
    requires after == before + [row]
    ensures flat + after == flat + before + [row]
  {
  }

  class Worker {
    const batchRows: nat
    const horizon: nat
    const minimumProfit: I32
    const learningRate: I32
    const l2: I32
    const device: Device
    const rows: array<Row>
    var nextVersion: U64
    var mapped: bool
    var mappedRowCount: nat
    var pendingLabels: seq<Result>
    var updateInFlight: bool
    var threw: bool
    ghost var consumed: seq<Result>
    ghost var pairs: seq<Pair>
    ghost var submitted: seq<seq<Row>>
    ghost var left: Option<seq<Row>>

    /** What the constructor checks, and a first version the device accepts. */
    predicate Configured() {
      batchRows == rows.Length > 0 && horizon > 0 && minimumProfit > 0 && learningRate > 0 && l2 >= 0
    }

    /** The given rows are exactly the submitted batches, all full, followed by the batch
        being filled; mapping and flight mirror the device, and never overlap. */
    ghost predicate BatchHolds(all: seq<Row>)
      reads this`nextVersion, this`mapped, this`mappedRowCount, this`updateInFlight, this`threw, this`submitted
      reads this`left, rows, device
    {
      && Configured() && nextVersion > 0 && !threw && left.None?
      && mappedRowCount < batchRows && (mapped <==> mappedRowCount > 0) && !(updateInFlight && mapped)
      && device.mappedRows == (if mapped then batchRows else 0)
      && device.pendingVersion == (if updateInFlight then Some(nextVersion) else None)
      && AllFull(submitted, batchRows)
      && all == Flatten(submitted) + rows[..mappedRowCount]
    }

    /** The rows held are those of the matured pairs. */
    ghost predicate BatchOk()
      reads this`nextVersion, this`mapped, this`mappedRowCount, this`updateInFlight, this`threw, this`submitted
      reads this`left, this`pairs, rows, device
    {
      BatchHolds(Rows(pairs, minimumProfit))
    }

    /** While streaming, the pending entries are the error-free ones of the last H results,
        and the matured pairs are those of the whole stream. */
    ghost predicate Streaming()
      reads this, rows, device
    {
      BatchOk() && StreamOk(consumed, pendingLabels, pairs, horizon)
    }

    /** After clearing, only the incomplete last batch is left out. */
    ghost predicate Cleared()
      reads this, device
    {
      && Configured() && nextVersion > 0 && !threw && left.Some?
      && !mapped && mappedRowCount == 0 && pendingLabels == []
      && device.mappedRows == 0
      && device.pendingVersion == (if updateInFlight then Some(nextVersion) else None)
      && pairs == Pairs(consumed, horizon) && |left.value| < batchRows && AllFull(submitted, batchRows)
      && Rows(pairs, minimumProfit) == Flatten(submitted) + left.value
    }

    constructor (device: Device, batchRows: nat, firstVersion: U64, horizon: nat, minimumProfit: I32,
                 learningRate: I32, l2: I32)
      requires device.Idle() && firstVersion > 0
      requires batchRows > 0 && horizon > 0 && minimumProfit > 0 && learningRate > 0 && l2 >= 0
      ensures Streaming() && fresh(rows) && consumed == [] && !updateInFlight
      ensures this.device == device && this.batchRows == batchRows && this.horizon == horizon
      ensures this.minimumProfit == minimumProfit && nextVersion == firstVersion
    {
      this.device, this.batchRows, this.horizon, this.minimumProfit := device, batchRows, horizon, minimumProfit;
      this.learningRate, this.l2 := learningRate, l2;
      nextVersion := firstVersion;
      rows := new Row[batchRows](_ => Row(NO_VALUES, 0));
      mapped, mappedRowCount, pendingLabels, updateInFlight, threw := false, 0, [], false, false;
      consumed, pairs, submitted, left := [], [], [], None;
    }

    /** Copy one row into the batch, mapping it first if need be; no guard fires. */
    method CopyRow(row: Row, ghost all: seq<Row>)
      requires BatchHolds(all) && !updateInFlight
      modifies this`mapped, this`mappedRowCount, this`updateInFlight, this`threw, this`submitted, rows, device
      ensures BatchHolds(all + [row])
    {
      if !mapped {
        threw := device.MapTrainingBatch(batchRows);
        mapped := true;
      }
      ghost var before := rows[..mappedRowCount];
      rows[mappedRowCount] := row;
      mappedRowCount := mappedRowCount + 1;
      AppendRow(rows[..mappedRowCount], before, row, Flatten(submitted));
      if mappedRowCount == batchRows {
        SubmitBatch(all + [row]);
      }
    }

    /** A full batch goes to the device; no guard fires. */
    method SubmitBatch(ghost all: seq<Row>)
      requires Configured() && nextVersion > 0 && !threw && left.None? && mapped && mappedRowCount == batchRows
      requires device.mappedRows == batchRows && device.pendingVersion.None?
      requires AllFull(submitted, batchRows) && all == Flatten(submitted) + rows[..batchRows]
      modifies this`mapped, this`mappedRowCount, this`updateInFlight, this`threw, this`submitted, device
      ensures BatchHolds(all) && updateInFlight
      ensures submitted == old(submitted) + [rows[..]]
    {
      threw := device.SubmitTrainingBatch(nextVersion, learningRate, l2);
      FlattenStep(submitted, rows[..], all, rows[..batchRows]);
      submitted := submitted + [rows[..]];
      mapped, mappedRowCount, updateInFlight := false, 0, true;
      assert Flatten(submitted) + rows[..0] == Flatten(submitted);
    }

    /** `add_labelled_row`. */
    method AddLabelledRow(entry: Result, future: Result)
      requires BatchOk() && !updateInFlight
      modifies this`mapped, this`mappedRowCount, this`updateInFlight, this`threw, this`pairs, this`submitted, rows, device
      ensures BatchOk() && pairs == old(pairs) + [Pair(entry, future)]
    {
      ghost var all := Rows(pairs, minimumProfit);
      RowsStep(pairs, Pair(entry, future), minimumProfit);
      pairs := pairs + [Pair(entry, future)];
      if !Trainable(entry, future) {
        assert all + [] == all;
        return;
      }
      CopyRow(Row(entry.features.values, Label(entry, future, minimumProfit)), all);
    }

    /** The loop of `consume_result`: the oldest entry matures if it is H results old, and
        the one behind it is not. */
    method MatureEntries(r: Result, ghost matures: bool)
      requires BatchOk() && !updateInFlight
      requires matures <==> |pendingLabels| > 0 && r.index >= pendingLabels[0].index + horizon
      requires |pendingLabels| > 1 ==> r.index < pendingLabels[1].index + horizon
      modifies this`mapped, this`mappedRowCount, this`updateInFlight, this`threw, this`pairs, this`submitted,
               this`pendingLabels, rows, device
      ensures BatchOk()
      ensures pendingLabels == if matures then old(pendingLabels)[1..] else old(pendingLabels)
      ensures pairs == if matures then old(pairs) + [Pair(old(pendingLabels)[0], r)] else old(pairs)
    {
      ghost var first := true;
      while |pendingLabels| > 0 && r.index >= pendingLabels[0].index + horizon
        invariant BatchOk()
        invariant first ==> !updateInFlight && pendingLabels == old(pendingLabels) && pairs == old(pairs)
        invariant !first ==> matures && pendingLabels == old(pendingLabels)[1..]
                             && pairs == old(pairs) + [Pair(old(pendingLabels)[0], r)]
        decreases |pendingLabels|
      {
        AddLabelledRow(pendingLabels[0], r);
        pendingLabels := pendingLabels[1..];
        first := false;
      }
    }

    /** `consume_result`: exactly the entry H results older matures, so at most one row. */
    method ConsumeResult(r: Result)
      requires Streaming() && !updateInFlight && r.index == |consumed|
      modifies this, rows, device
      ensures Streaming() && consumed == old(consumed) + [r] && nextVersion == old(nextVersion)
      ensures pairs == old(pairs) + if Matures(old(consumed), horizon)
                                    then [Pair(old(consumed)[|old(consumed)| - horizon], r)] else []
    {
      MatureOldest(r);
      ghost var kept := pendingLabels;
      KeepPending(r);
      StreamStep(old(consumed), r, old(pendingLabels), old(pairs), horizon, kept, pendingLabels, pairs);
    }

    /** The entry H results older, if it is pending, matures; no other does. */
    method MatureOldest(r: Result)
      requires Streaming() && !updateInFlight && r.index == |consumed|
      modifies this`mapped, this`mappedRowCount, this`updateInFlight, this`threw, this`pairs, this`submitted,
               this`pendingLabels, rows, device
      ensures BatchOk() && StreamMoves(consumed, r, old(pendingLabels), old(pairs), horizon, pendingLabels, pairs)
      ensures pairs == old(pairs) + if Matures(consumed, horizon) then [Pair(consumed[|consumed| - horizon], r)] else []
    {
      StreamMatures(consumed, pendingLabels, pairs, horizon);
      MatureEntries(r, Matures(consumed, horizon));
    }

    /** An error-free result waits for its own label. */
    method KeepPending(r: Result)
      requires BatchOk()
      modifies `pendingLabels, `consumed
      ensures BatchOk() && consumed == old(consumed) + [r]
      ensures pendingLabels == if r.error == NoError then old(pendingLabels) + [r] else old(pendingLabels)
    {
      ghost var filled := rows[..mappedRowCount];
      if r.error == NoError { pendingLabels := pendingLabels + [r]; }
      consumed := consumed + [r];
      assert rows[..mappedRowCount] == filled;
    }

    /** `poll_model_update`: a finished update frees the device and moves the version on. */
    method PollModelUpdate(finished: bool) returns (published: Option<U64>)
      requires (Streaming() || Cleared()) && nextVersion + 1 < 0x1_0000_0000_0000_0000
      modifies this`nextVersion, this`updateInFlight, device
      ensures old(Streaming()) ==> Streaming()
      ensures old(Cleared()) ==> Cleared()
      ensures published == if old(updateInFlight) && finished then Some(old(nextVersion)) else None
      ensures updateInFlight == (old(updateInFlight) && published.None?)
      ensures nextVersion == old(nextVersion) + if published.Some? then 1 else 0
    {
      if !updateInFlight { return None; }
      published := device.PollTrainingUpdate(finished);
      if published.None? { return; }
      nextVersion := published.value + 1;
      updateInFlight := false;
    }

    /** The clean-up of `run`: an incomplete batch and the last horizon are dropped. */
    method Clear()
      requires Streaming() || Cleared()
      modifies this`mapped, this`mappedRowCount, this`pendingLabels, this`left, device
      ensures Cleared() && left == if old(left).Some? then old(left) else Some(old(rows[..mappedRowCount]))
    {
      if left.None? { left := Some(rows[..mappedRowCount]); }
      if mapped {
        device.DiscardTrainingBatch();
        mapped, mappedRowCount := false, 0;
      }
      pendingLabels := [];
    }

    /** One turn of `run`: `front` is the result the ring would hand out. */
    method Turn(finished: bool, stop: bool, front: Option<Result>, complete: bool, empty: bool)
      returns (published: Option<U64>, leave: bool)
      requires (Streaming() || (Cleared() && stop)) && nextVersion + 1 < 0x1_0000_0000_0000_0000
      requires front.Some? ==> front.value.index == |consumed|
      modifies this, rows, device
      ensures Streaming() || Cleared()
      ensures Streaming() <== !stop && !leave
      ensures leave ==> Cleared() && !updateInFlight && device.Idle()
      ensures consumed == old(consumed) + (if !stop && front.Some? && (old(updateInFlight) ==> finished)
                                           then [front.value] else [])
      ensures leave <==> !updateInFlight && (stop || (complete && empty))
      ensures published == if old(updateInFlight) && finished then Some(old(nextVersion)) else None
    {
      published := PollModelUpdate(finished);
      if stop {
        Clear();
        if !updateInFlight { return published, true; }
      } else if !updateInFlight {
        if front.Some? { ConsumeResult(front.value); }
      }
      leave := complete && empty && !updateInFlight;
      if leave { Clear(); }
    }
  }
}
