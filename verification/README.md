# Verified model of the market-signal engine

The repository computes one thing several times: a ten-level limit order book is driven by market
events, and after each event a 64-entry window, eight Q16.16 features, a linear score and a
BUY/HOLD/SELL action follow. It does so as C++ objects, as clocked RTL modules, and inside a live
program in which an RTL worker thread, a GPU worker thread and a coordinator exchange results and
model updates. This project models those copies and proves that they agree, and that the protocol
joining them loses nothing.

## How the model is laid out

- **Values.** `MarketTypes`, `BookModel`, `BookMap`, `BookFlow`: the book as a value, the map it lists,
  and where every unit of quantity goes. `OrderBookCpp` is the C++ class over arrays, proved against it.
- **The clocked book.** `OrderBookRtl` is one clock edge of the nine-state machine as a function of the
  pre-edge registers, with its invariant, its exact latency and the refinement theorem. `OrderBookCore` is
  the same machine as an object clocked in place, and the bench driver over it.
- **Numbers.** `FixedPoint`, `FeatureWindow`, `Features`, `Strategy`.
- **The signal path.** `ReferenceModel` (the C++ per-event model), `Pipeline`, `StreamAdapter` (the RTL
  modules composed on one clock, every right-hand side reading pre-edge values), `SignalPath` (the adapter
  refines the reference model), `ClockedPath` (the same modules as objects), `VerilatorRunner` (the driver).
- **The host.** `SpscRing`, `ModelMailbox`, `VerilatorWorker`, `GpuWorker`, `HostProtocol`.
- **Meaning.** `FeatureMeaning`: what a run's window, features and signal are in the raw fields of its events
  and books, whatever computes them.
- **Training.** `Regression`: the sequential oracle and the two data-parallel kernels. `RegressionOverflow`:
  exactly when their 64-bit arithmetic wraps. `TrainingMeaning`: how far and which way an update moves a weight.
- **Data.** `Decoding`, `BinaryCodec`, `CsvCodec`, `Generator`.

Where several copies of one computation are proved equal, a separate lemma says in raw fields what all of them
compute, so that no common mistake in the copies passes.

Registers, loops and in-place arrays are classes and methods; each is proved against a function of the old
state, and the theorems are lemmas about those functions. Every lemma carries `{:induction false}`: all
induction is written out.

Check everything with `dafny verify dfyconfig.toml`.

## What the proofs found

- **Crossed events report different flow.** On an Add at or through the opposite best price the C++ book
  returns the flow it had computed while the RTL returns zero. `OrderBookRtl.AnswersAlikeExactly`: the two
  answers are equal exactly when the event is not such an Add.
- **The pipeline is not safe without the adapter.** Its comments (rtl/market_pipeline.sv:109-122) say that no
  event enters while another is being emitted and that a commit cannot fall inside an event. In the cycle in
  which the book reports done, `in_ready` and the commit gate are open (`Pipeline.DoneCycleTimestamp`,
  `Pipeline.DoneCycleCommitGate`); while it emits it shows unready but its book still takes an offered event
  (`Pipeline.UnreadyPipelineTakesEvent`). The adapter's in-flight bit closes the two ways in for an event; the
  open commit gate is closed by the host alone: the driver's record of every edge keeps all commits at idle
  boundaries (`VerilatorRunner.Runner.Tick`), through every schedule of the live program
  (`VerilatorWorker.Worker.Play`).
- **Microprice overflows 64 bits for high prices.** `Features.EngineExactlyWhenFits`: on a healthy book the RTL's
  feature vector is the true one if and only if the book is one-sided or the cross-weighted sum fits 64 bits.
  `Features.MicropriceOverflows` gives two Adds that reach a book on which it does not fit. Prices up to 2^30
  always fit.
- **Training overflows for saturated features.** Scores and errors never wrap, but the squared error does
  exactly when the error passes 3037000499 (`RegressionOverflow.RowLossExactly`), and a gradient product exactly
  when it leaves 64 bits. `RegressionOverflow.UnwrappedExactly` is the exact condition for any model and any
  batch, and `RegressionOverflow.TrainingOverflows` one row beyond it, whose reported loss is too small.
- **The generator can write a refused event.** The header promises a valid stream; the quantity of a Cancel or
  Trade is drawn in 64 bits and cut to 32. An event is refused exactly when such a draw, on a level of at least
  2^32 - 500, comes to 2^32 (`Generator.RefusedExactly`, `Generator.StreamValidExactly`). No stream of draws
  reaches that within 4294967 events, and some stream of draws does right after
  (`Generator.ValidExactlyUpToSafeCount`); whether a seed of the Mersenne Twister gives such a stream is not
  modelled.
- **The GPU worker's emptiness test needs a current load.** `HostProtocol.StaleEmptinessLosesResults`: the worker
  would leave with a result unread exactly when that load were stale at its own position.

## Assumptions

- Threads interleave at single shared accesses under sequential consistency. In the ring a load may also
  return an older position, as long as it never goes backwards.
- In `HostProtocol`, runs in which no thread throws for outside reasons (the backpressure timeout, OpenCL,
  I/O); that nothing throws for inside reasons is proved. The wait loop of the coordinator tests only the drained and the GPU
  failure flags, which is why this hypothesis is needed.
- Ring positions, stream indices and cycle counts are unbounded; model versions are 64-bit and are
  required not to reach the end of their range.
- Signed 64-bit arithmetic: the RTL and the kernels wrap. The C++ book and window arithmetic is exact,
  with the condition under which it fits proved beside it; the C++ oracle is given the wrap its compiler
  targets have, and `RegressionOverflow.UnwrappedExactly` says when nothing wraps.
- Work items of a kernel are atomic and run in any order, as their reads and writes are disjoint.

## Model

| member | source | states |
|---|---|---|
| `BookModel.RankFrom` | src/market/order_book.cpp:28-34 | the first index that is empty or not strictly better than the price, with every earlier one active and better |
| `BookModel.ApplyKeepsBook` | src/market/order_book.cpp:120-165 | every event leaves a contiguous, sorted, zero-padded, uncrossed book; an error leaves it untouched; the invariant error is never the answer |
| `BookMap.PriceListed` | src/market/order_book.cpp:28-34 | the array search finds exactly the prices of the map the side lists, with their quantities |
| `BookMap.ListingIsCanonical` | src/market/order_book.cpp:61-83 | a healthy side is the only sorted listing of its map: equal maps mean equal arrays |
| `BookMap.SetLevel` | src/market/order_book.cpp:128-151 | rewriting one level is one map update |
| `BookMap.RemoveLevel` | src/market/order_book.cpp:36-40 | removing and shifting left is deletion of one price from the map |
| `BookMap.InsertLevel` | src/market/order_book.cpp:42-47 | inserting keeps the best ten of the old prices and the new one, evicting only the worst |
| `BookMap.EffectIsMapStep` | src/market/order_book.cpp:128-156 | each event type is its map operation: saturating add, set, subtract, delete; a missing price is refused |
| `BookMap.CrossedExactly` | src/market/order_book.cpp:84-86 | the candidate crosses exactly when the event adds at or through the opposite best price |
| `BookMap.ApplyIsMapOperation` | src/market/order_book.cpp:120-165 | the whole contract of one event on the two maps: each error exactly when, invalid events by their raw fields, the book unchanged on error, the map step otherwise |
| `MarketTypes.ReasonsExactly` | src/market/event.cpp:75-81 | each reason on the raw fields, and which comes first |
| `BookMap.InvalidExactly` | src/market/order_book.cpp:121 | on every book an event is invalid if and only if its type or side is unknown, its price not positive, or its quantity zero without being an Update |
| `BookMap.AcceptedExactly` | src/market/order_book.cpp:120-165 | an event is accepted if and only if it is well-formed and, for an Add, below the opposite best (or crossing is allowed), for the others, on a listed price |
| `BookFlow.EffectConservesFlow` | src/market/order_book.cpp:128-156 | signed order flow is the change of the side total plus what was evicted; trade flow equals it on a Trade and is zero otherwise |
| `BookFlow.ApplyConservesFlow` | src/market/order_book.cpp:120-165 | an accepted event reports the change of bid total minus ask total, corrected by eviction |
| `BookFlow.RunConservesFlow` | src/market/order_book.cpp:120-165 | over any run the reported flow is the change of the imbalance plus the evicted quantity |
| `BookFlow.RunKeepsBook` | src/market/order_book.cpp:120-165 | every book reachable from a healthy one is healthy |
| `OrderBookCpp.Lookup` | src/market/order_book.cpp:28-34 | the search loop returns the rank of the price and whether it is listed |
| `OrderBookCpp.Remove` | src/market/order_book.cpp:36-40 | the in-place shift removes one level and zeroes the last slot |
| `OrderBookCpp.Insert` | src/market/order_book.cpp:42-47 | the in-place shift inserts one level, dropping the last; past the depth it changes nothing |
| `OrderBookCpp.SideFault` | src/market/order_book.cpp:61-83 | the per-side scan reports no fault exactly on a healthy side |
| `OrderBookCpp.Invariants` | src/market/order_book.cpp:61-88 | the scan passes exactly the healthy books and names a crossed book exactly when that is the only fault |
| `OrderBookCpp.ApplyToSide` | src/market/order_book.cpp:128-156 | the switch over event types, in place on a candidate side, has exactly the effect of the event |
| `OrderBookCpp.OrderBook.Apply` | src/market/order_book.cpp:120-165 | the object after an event and its answer are those of the value model; invalid exactly by the raw fields; the invariant error never occurs |
| `OrderBookRtl.SearchKeeps` | rtl/order_book.sv:202-229 | one scanned level keeps the found, match and insert registers right |
| `OrderBookRtl.ShiftMoves` | rtl/order_book.sv:388-416 | one shifting edge moves one more level back without losing any |
| `OrderBookRtl.ShiftWrites` | rtl/order_book.sv:388-416 | the last shifting edge leaves the working side with the new level inserted |
| `OrderBookRtl.RemoveKeeps` | rtl/order_book.sv:417-437 | one compacting edge moves one more level forward, ending with the level removed |
| `OrderBookRtl.LatencyBound` | rtl/order_book.sv:202-467 | the exact number of edges of an event lies between 2 and 26 |
| `OrderBookRtl.BusyEdge` | rtl/order_book.sv:167-467 | every busy edge keeps the event invariant and uses up exactly one of the remaining edges, whatever the inputs |
| `OrderBookRtl.OnlyCommitWrites` | rtl/order_book.sv:453-463 | the live book changes at the commit edge only |
| `OrderBookRtl.EventRefinesApply` | rtl/order_book.sv:139-476 | from acceptance the machine is unready and silent for exactly the latency, then pulses done with the atomic answer; a rejected event never touches the live book |
| `OrderBookRtl.AnswersAlikeExactly` | rtl/order_book.sv:438-452 | RTL and C++ answers are equal exactly when the event is not a crossing Add |
| `OrderBookRtl.AnswerAcceptsExactly` | rtl/market_types_pkg.sv:73-86 | the machine's answer is invalid, and accepts, by the same raw conditions |
| `OrderBookRtl.MachineRefusesExactly` | rtl/order_book.sv:186-200 | at the done pulse the error register is the invalid one if and only if the event's price was not positive or its quantity zero without an Update |
| `OrderBookRtl.RefusalFlows` | rtl/order_book.sv:438-452 | a refused event reports no flow, except that the C++ book reports the signed quantity of a crossing Add |
| `OrderBookRtl.ResetRunsHealthy` | rtl/order_book.sv:139-476 | after reset and any inputs the machine is idle or inside one event, with a healthy book |
| `OrderBookCore.OrderBook.Reset` | rtl/order_book.sv:141-161 | reset clears every register and both memories |
| `OrderBookCore.OrderBook.SearchOneLevel` | rtl/order_book.sv:202-229 | the in-place search edge is the modelled one |
| `OrderBookCore.OrderBook.ApplyEvent` | rtl/order_book.sv:231-387 | the in-place apply edge is the modelled one |
| `OrderBookCore.OrderBook.ShiftOneLevel` | rtl/order_book.sv:388-416 | the in-place shift edge is the modelled one |
| `OrderBookCore.OrderBook.RemoveOneLevel` | rtl/order_book.sv:417-437 | the in-place remove edge is the modelled one |
| `OrderBookCore.OrderBook.Clock` | rtl/order_book.sv:139-476 | one clock of the object is one edge of the machine, reset included |
| `OrderBookCore.WaitUntilReady` | tb/order_book_differential.cpp:60-61 | clocking until ready ends: an event under way is finished, and its book is then the live one |
| `OrderBookCore.Submit` | tb/order_book_differential.cpp:60-76 | driving one event, from a ready machine or one still busy with another, never times out within 32 cycles, takes exactly the latency, and reads the atomic answer |
| `FixedPoint.RoundedExactly` | include/market/fixed_point.hpp:47-56 | rounded division is the nearest integer with ties away from zero, and nothing else is |
| `FixedPoint.MultiplyExactly` | include/market/fixed_point.hpp:58-61 | a Q16.16 product is the nearest value, cut to the 32-bit range, and nothing else is |
| `FixedPoint.DivideExactly` | include/market/fixed_point.hpp:63-67 | division fails exactly by zero; otherwise the quotient is the nearest value, cut to the 32-bit range, and nothing else is |
| `FixedPoint.RoundedBetween` | include/market/fixed_point.hpp:47-56 | rounding never passes an integer bound of the exact quotient |
| `FixedPoint.RatioBetween` | rtl/fixed_point_pkg.sv:101-115 | a quotient within integer bounds gives a Q16.16 ratio within them, unsaturated |
| `FixedPoint.TruncExactly` | src/gpu/regression_oracle.cpp:26 | truncating division keeps the sign and leaves less than one divisor, and nothing else does |
| `FixedPoint.SaturateExactly` | include/market/fixed_point.hpp:22-27 | saturation moves a value into the 32-bit range by no more than it must |
| `FeatureWindow.PushHolds` | src/market/order_book.cpp:189-203 | one push turns the window of a history into the window of the longer history |
| `FeatureWindow.RollingSumsArePlainSums` | src/market/order_book.cpp:189-203 | after any pushes the three incremental sums are the plain sums of the last 64 entries, and the slots hold them |
| `FeatureWindow.WindowFitsI64` | rtl/feature_window.sv:43-62 | with book-produced entries each sum is within 64 times the entry bound, and scaled sums fit 64 bits |
| `FeatureWindow.RollingWindow.Push` | src/market/order_book.cpp:189-203 | the C++ object pushes as modelled |
| `FeatureWindow.WindowRegisters.Clock` | rtl/feature_window.sv:28-63 | the RTL registers push as modelled when told to and hold otherwise; on reset they and their memories clear |
| `Features.EngineExactlyWhenFits` | rtl/feature_engine.sv:47-120 | on a healthy book the RTL engine computes the C++ features if and only if the book is one-sided or the weighted sum fits 64 bits |
| `Features.MicropriceExactlyWhenFits` | rtl/feature_engine.sv:47-120 | on a two-sided book the RTL microprice is the true one if and only if the weighted sum fits |
| `Features.MicropriceOverflows` | src/market/order_book.cpp:176-183 | two Adds reach a healthy two-sided book on which the RTL's microprice is not the true one |
| `Features.SmallPricesFit` | src/market/order_book.cpp:181 | best prices up to 2^30 always fit, whatever the quantities |
| `Features.MicropriceBetweenQuotes` | src/market/order_book.cpp:176-183 | on uncrossed quotes the microprice lies between bid and ask |
| `Features.MidpointBetweenQuotes` | src/market/order_book.cpp:168-173 | on uncrossed quotes the midpoint exists and lies in [bid, ask) |
| `Features.QuotedFeatureBounds` | src/market/order_book.cpp:207-234 | on uncrossed quotes the spread lies in [0, 2.0], the imbalances and the microprice offset in ±1.0, all unsaturated |
| `Features.FeatureProductsFit` | rtl/feature_engine.sv:47-120 | with prices up to 2^30 and book-fed sums every product formed before a division fits 64 bits |
| `Strategy.EvaluateStrategy` | src/market/order_book.cpp:236-249 | the accumulating loop gives the score and, on its fields, BUY exactly above the buy threshold, SELL exactly below the sell threshold and not above buy, zero and HOLD when invalid |
| `Strategy.ScoreNearExact` | src/market/order_book.cpp:240-243 | the score before saturation is within four units of the exact weighted sum |
| `Strategy.ScoreMeaning` | src/market/order_book.cpp:240-244 | the registered score is within four units of the exact weighted sum or saturated towards it |
| `Strategy.ActionExactly` | rtl/strategy_model.sv:127-143 | the verdict's action, score and validity on their own fields |
| `Strategy.ExactSumDecides` | src/market/order_book.cpp:245-248 | an exact sum more than four units above BUY buys, more than four below SELL sells, four inside both holds |
| `Strategy.NegationExchanges` | src/market/order_book.cpp:236-249 | negated weights and mirrored thresholds exchange BUY and SELL away from saturation, exactly unless a score clears both thresholds |
| `Strategy.CommitsExactly` | rtl/strategy_model.sv:71-145 | an edge commits exactly with the commit pin, all ten words written and no evaluation, and what it then changes |
| `Strategy.ScoreFits` | rtl/strategy_model.sv:63-69 | no product and no partial sum leaves the 64-bit accumulator |
| `Strategy.EdgeAdopts` | rtl/strategy_model.sv:90-124 | one edge keeps the record of writes and commits; a commit needs every word written since the last |
| `Strategy.ActiveBankIsOneUpload` | rtl/strategy_model.sv:71-145 | in every reachable state the active bank and version are the reset ones or exactly what was written between two successive commits, all ten words of it |
| `Strategy.UploadByField` | rtl/strategy_model.sv:90-124 | words 0 to 7 of that upload are the weights, word 8 is BUY and word 9 is SELL |
| `Strategy.ZeroUntilCommit` | rtl/strategy_model.sv:72-88 | before the first commit every active parameter is zero |
| `ReferenceModel.RunMarketOk` | src/reference/reference_model.cpp:17-35 | every reachable market is a healthy book with a window some bounded history left |
| `ReferenceModel.Model.Calculate` | src/market/order_book.cpp:207-234 | the two totalling loops and the eight quotients give the feature vector |
| `ReferenceModel.Model.ProcessEvent` | src/reference/reference_model.cpp:17-35 | the object processes an event as modelled, signal version included, and returns the error and the two flow deltas; a failed event changes nothing |
| `FeatureMeaning.ChangeIsMovement` | src/reference/reference_model.cpp:22-30 | the entry for an event is the absolute movement from the last two-sided midpoint, both ways, and zero where either is missing |
| `FeatureMeaning.WindowSums` | src/reference/reference_model.cpp:17-35 | for every run the window's sums are the plain sums, over the last 64 accepted events, of order flows, trade flows and absolute midpoint movements |
| `FeatureMeaning.MovementsUnique` | src/reference/reference_model.cpp:22-30 | those movements are a function of the accepted events |
| `FeatureMeaning.RunFeatures` | src/market/order_book.cpp:207-234 | for every run each of the eight features is the nearest Q16.16 value of its quotient of book levels and window sums; a one-sided book has none |
| `FeatureMeaning.RunEngineFeatures` | rtl/feature_engine.sv:47-120 | the same of the RTL engine where the weighted sum fits |
| `FeatureMeaning.NoTradesNoTradeFlow` | src/market/order_book.cpp:229 | without a Trade among the last 64 accepted events feature 5 is zero |
| `FeatureMeaning.LastSignal` | src/reference/reference_model.cpp:17-35 | an accepted event's signal carries its own timestamp and index, the version in force and the action on its own features; a refused one changes nothing |
| `Pipeline.InBookStep` | rtl/market_pipeline.sv:164-198 | while the book works one edge keeps the stage and uses up one book edge |
| `Pipeline.AnsweredStep` | rtl/market_pipeline.sv:113-115 | in the done cycle, with no event offered, a success pushes the window and records the midpoint, a failure does neither |
| `Pipeline.StageStep` | rtl/market_pipeline.sv:164-225 | one edge of an event in flight reaches the next stage, one edge closer to its end |
| `Pipeline.DoneCycleTimestamp` | rtl/market_pipeline.sv:111-179 | in the book's done cycle the pipeline is ready, and the signal keeps its own timestamp exactly when no other event is accepted there |
| `Pipeline.UnreadyPipelineTakesEvent` | rtl/market_pipeline.sv:88-111 | while emitting, the unready pipeline's book still takes an offered event |
| `Pipeline.DoneCycleCommitGate` | rtl/market_pipeline.sv:122 | between acceptance and evaluation the commit gate is open in the book's done cycle and only there |
| `StreamAdapter.OneOutstanding` | rtl/market_stream_adapter.sv:63-70 | at most one event is unanswered or untaken, and otherwise the input is ready |
| `StreamAdapter.OneInOneOut` | rtl/market_stream_adapter.sv:68-139 | for every input pattern the results are the accepted events' own, in order and indexed, and a held or pending result keeps the input closed |
| `StreamAdapter.ExpectedByField` | rtl/market_stream_adapter.sv:104-139 | an event's own result: its position, timestamp and error, and features and best levels of the book it left |
| `StreamAdapter.HeldResultStays` | rtl/market_stream_adapter.sv:104-139 | a held result is neither changed nor dropped before it is taken |
| `StreamAdapter.ResultArrives` | rtl/market_stream_adapter.sv:87-139 | the held result rises after exactly the book latency plus three edges, at most 29 |
| `SignalPath.PathRefinesReference` | rtl/market_pipeline.sv:95-225 | with commits at idle boundaries the clocked path shows the reference model's book, window, features, score and action after every completed event; the signal index agrees on error-free runs |
| `SignalPath.ReferenceFeatures` | src/reference/reference_model.cpp:32-33 | after a success the stored features are those of the current market; an error-free run's last signal carries the last index |
| `SignalPath.SmallPricesAllFit` | src/market/order_book.cpp:181 | events priced at most 2^30 keep every weighted sum of the run inside 64 bits |
| `ClockedPath.StrategyModel.Clock` | rtl/strategy_model.sv:71-145 | one clock of the strategy object is one edge of the model |
| `ClockedPath.MarketPipeline.Clock` | rtl/market_pipeline.sv:85-225 | one clock of the composed pipeline object is one edge of the model |
| `ClockedPath.MarketStreamAdapter.Clock` | rtl/market_stream_adapter.sv:63-140 | one clock of the adapter object is one edge of the model |
| `VerilatorRunner.IdleOneMore` | src/verilator/verilator_runner.cpp:91-99 | an edge with nothing offered brings readiness one edge closer if results are accepted, and leaves an unready adapter unready if not |
| `VerilatorRunner.Runner.Tick` | src/verilator/verilator_runner.cpp:43-53 | one clock adds the driven pins to the record of all edges, whose run the adapter always shows; every commit on record found the input ready |
| `VerilatorRunner.DoneShows` | src/verilator/verilator_runner.cpp:178-191 | the ports at the done pulse are the book's answer and, where the sums fit, the reference model's features, score, action and timestamp under the parameters active at acceptance |
| `VerilatorRunner.Runner.Step` | src/verilator/verilator_runner.cpp:138-154 | exactly the event offered while ready and the result held while accepted cross the boundary |
| `VerilatorRunner.Runner.WaitUntilReady` | src/verilator/verilator_runner.cpp:91-99 | it throws exactly when ready is held low against an event in flight or a held result; nothing is accepted meanwhile |
| `VerilatorRunner.Runner.ClockUntilDone` | src/verilator/verilator_runner.cpp:178-195 | the done pulse of an event in flight comes within the limit |
| `VerilatorRunner.Runner.Process` | src/verilator/verilator_runner.cpp:156-196 | it throws exactly when the wait does; otherwise one event goes in and the snapshot is the book's and the reference model's answer under the parameters active before the call |
| `VerilatorRunner.Runner.WriteModelParameters` | src/verilator/verilator_runner.cpp:203-250 | from any state, a busy adapter included, it throws exactly when the first wait does; otherwise the active bank and version are the uploaded ones and the count advances by one |
| `SpscRing.CallKeeps` | include/app/spsc_ring_buffer.hpp:38-91 | every call of either side keeps the ring invariant, with any admissible stale load |
| `SpscRing.FifoUnderAllSchedules` | include/app/spsc_ring_buffer.hpp:38-91 | in every interleaving what was read is a prefix of what was published, at most the capacity is outstanding, and a reserved slot is never an unread one |
| `SpscRing.RefusalsAreExact` | include/app/spsc_ring_buffer.hpp:38-79 | a stale load can only refuse too often; a current one refuses exactly when full or empty |
| `SpscRing.Buffer.TryReservePush` | include/app/spsc_ring_buffer.hpp:38-47 | the reserve call on the object is the modelled call |
| `SpscRing.Buffer.PublishPush` | include/app/spsc_ring_buffer.hpp:52-57 | publishing makes the reserved slot's value the next published one |
| `SpscRing.Buffer.Cancel` | include/app/spsc_ring_buffer.hpp:62-65 | cancelling gives the reservation up and publishes nothing |
| `SpscRing.Buffer.TryBeginPop` | include/app/spsc_ring_buffer.hpp:70-79 | the value handed out is the oldest unread published one |
| `SpscRing.Buffer.FinishPopped` | include/app/spsc_ring_buffer.hpp:84-91 | finishing releases the slot that was read |
| `ModelMailbox.Mailbox.Publish` | src/gpu/model_update_mailbox.cpp:8-19 | an update replaces the unread one, or is refused for the first rule it breaks: version zero, BUY not above SELL, closed, not newer than the unread one |
| `ModelMailbox.ValidateExactly` | src/gpu/gpu_protocol.cpp:24-31 | an update is valid exactly with a newer version and BUY above SELL; a stale version is reported first |
| `ModelMailbox.Mailbox.Take` | src/gpu/model_update_mailbox.cpp:21-27 | taking empties the mailbox and returns what was there |
| `ModelMailbox.Mailbox.Close` | src/gpu/model_update_mailbox.cpp:34-37 | closing keeps a waiting update |
| `VerilatorWorker.Worker.Prepare` | src/verilator/verilator_worker.cpp:71-94 | a slot is reserved only for a held result, which is decoded into it |
| `VerilatorWorker.Worker.ApplyWaitingUpdate` | src/verilator/verilator_worker.cpp:34-46 | a waiting update is taken and checked against the active version; it becomes the whole active bank or, refused, changes nothing and throws |
| `VerilatorWorker.Worker.Clock` | src/verilator/verilator_worker.cpp:108-110 | the held result is accepted exactly when a slot was reserved for it |
| `VerilatorWorker.Worker.Finish` | src/verilator/verilator_worker.cpp:112-133 | the reservation is published, never cancelled, and the counters follow |
| `VerilatorWorker.Worker.BeginDrain` | src/verilator/verilator_worker.cpp:57-62 | without work every event has its published result |
| `VerilatorWorker.Worker.DrainUpdate` | src/verilator/verilator_worker.cpp:63 | the drained worker finds the adapter idle and applies a waiting update |
| `VerilatorWorker.Worker.AskClosed` | src/verilator/verilator_worker.cpp:64 | only a closed mailbox is asked for a last update |
| `VerilatorWorker.Worker.AskUpdate` | src/verilator/verilator_worker.cpp:64 | the worker finishes exactly when the closed mailbox is empty |
| `VerilatorWorker.Worker.IdleStep` | src/verilator/verilator_worker.cpp:67-69 | otherwise one idle clock leads back to the loop top |
| `VerilatorWorker.ClockTracks` | src/verilator/verilator_worker.cpp:108-110 | one clock accepts the held result into the reserved slot or the next event, never both |
| `VerilatorWorker.Worker.StreamSafety` | src/verilator/verilator_worker.cpp:56-141 | in every phase published is at most accepted, accepted at most one more; every published result is its event's own in input order; drained means all of them; every commit fell at an idle boundary |
| `VerilatorWorker.Worker.ConsumerReads` | src/verilator/verilator_worker.cpp:56-141 | whatever the consumer reads at any moment is the expected result of the next event, carrying its position as index |
| `VerilatorWorker.Worker.Play` | src/verilator/verilator_worker.cpp:48-149 | any schedule of worker, consumer, publisher and stop requests keeps all of that; a finished worker has published every result and leaves its mailbox closed and empty |
| `GpuWorker.Device.MapTrainingBatch` | src/gpu/gpu_model.cpp:391-408 | mapping is refused exactly while mapped or in flight, or for no rows |
| `GpuWorker.Device.SubmitTrainingBatch` | src/gpu/gpu_model.cpp:512-561 | submitting is refused exactly when unmapped, badly parametrised or in flight |
| `GpuWorker.Device.PollTrainingUpdate` | src/gpu/gpu_model.cpp:570-592 | a finished update is handed out once, with the version it was submitted under |
| `GpuWorker.Device.DiscardTrainingBatch` | src/gpu/gpu_model.cpp:594-605 | discarding unmaps and leaves an update in flight alone |
| `GpuWorker.LabelMeansProfit` | src/gpu/gpu_worker.cpp:56-60 | on uncrossed quotes both directions never pay: 65536 exactly if the future bid clears the entry ask by the minimum, -65536 exactly if the entry bid clears the future ask, 0 otherwise |
| `GpuWorker.WindowSlides` | src/gpu/gpu_worker.cpp:76-83 | one more result moves the pending window by one |
| `GpuWorker.MaturesExactly` | src/gpu/gpu_worker.cpp:76-82 | at most H entries wait, exactly the entry H results older matures, and never two at once |
| `GpuWorker.PairsExactly` | src/gpu/gpu_worker.cpp:76-83 | the pairs are exactly those of an error-free result and the one H later |
| `GpuWorker.RowsOneMore` | src/gpu/gpu_worker.cpp:43-66 | a pair adds a row exactly if the entry's features are valid and both quotes two-sided with positive prices; the row is the entry's features with the label |
| `GpuWorker.StreamStep` | src/gpu/gpu_worker.cpp:76-83 | what one result does to the pending entries and the pairs is what it does to those of the whole stream |
| `GpuWorker.Worker.CopyRow` | src/gpu/gpu_worker.cpp:52-73 | a row is placed in the batch or completes it, and no device guard fires |
| `GpuWorker.Worker.SubmitBatch` | src/gpu/gpu_worker.cpp:65-73 | a full batch is submitted whole, and the worker is in flight |
| `GpuWorker.Worker.AddLabelledRow` | src/gpu/gpu_worker.cpp:43-74 | the pair is recorded; an unusable one adds no row |
| `GpuWorker.Worker.ConsumeResult` | src/gpu/gpu_worker.cpp:76-83 | each result pairs exactly the entry H results older, in order and at most once; submitted and mapped rows are those pairs' rows |
| `GpuWorker.Worker.PollModelUpdate` | src/gpu/gpu_worker.cpp:85-101 | a finished update frees the device and moves the version on by one |
| `GpuWorker.Worker.Clear` | src/gpu/gpu_worker.cpp:113-117 | clearing drops exactly the incomplete batch and the last horizon |
| `GpuWorker.Worker.Turn` | src/gpu/gpu_worker.cpp:103-140 | one turn of the loop consumes nothing while an update is in flight and leaves only with the device idle |
| `HostProtocol.TakeKeeps` | src/verilator/verilator_worker.cpp:34-46 | a waiting update always passes validation when taken |
| `HostProtocol.PublishKeeps` | src/gpu/model_update_mailbox.cpp:8-19 | a finished update is never refused by an open mailbox |
| `HostProtocol.StepKeeps` | src/app/live_coordinator.cpp:138-205 | every step of the three threads keeps the version and ordering invariants |
| `HostProtocol.NoLostFinalModel` | src/app/live_coordinator.cpp:182-205 | at the end of every run nothing threw, all results were consumed, every published update was applied or superseded, and the active model is the last published |
| `HostProtocol.NoPublishAfterClose` | src/app/live_coordinator.cpp:200-203 | nothing is published once the mailbox is closed |
| `HostProtocol.StaleEmptinessLosesResults` | src/gpu/gpu_worker.cpp:130-137 | the worker leaves with a result unread exactly when its emptiness test loads a stale write position equal to its own |
| `Regression.OracleRow` | src/gpu/regression_oracle.cpp:14-24 | one row adds its gradient to the accumulators and returns its loss and correctness |
| `Regression.RunRegressionOracle` | src/gpu/regression_oracle.cpp:6-36 | the oracle rejects exactly the malformed batches and returns the batch update, whose meaning `TrainingMeaning` states, and the metrics |
| `Regression.DeviceMemory.RegressionRowGradients` | gpu/kernels/smoke_test.cl:40-58 | one work item fills its own row's cells and disturbs no other row |
| `Regression.DeviceMemory.LaunchRows` | gpu/kernels/smoke_test.cl:40-58 | any order of work items fills every row |
| `Regression.DeviceMemory.RegressionApplyBatch` | gpu/kernels/smoke_test.cl:64-88 | one work item updates its own weight; item 0 also the metrics and the thresholds |
| `Regression.DeviceMemory.LaunchApply` | gpu/kernels/smoke_test.cl:64-88 | any order of work items leaves the whole batch update and the metrics |
| `Regression.DeviceMemory.TrainBatch` | gpu/kernels/smoke_test.cl:40-88 | both launches, in any order of their work items, leave exactly what the oracle returns |
| `TrainingMeaning.GradientNearExact` | src/gpu/regression_oracle.cpp:14-24 | a feature's gradient sum is the sum over the rows of (target - exact weighted sum) * feature, up to a stated rounding |
| `TrainingMeaning.MoveNearExact` | src/gpu/regression_oracle.cpp:25-29 | a weight's move is learning rate times (mean gradient - l2 * weight), up to a stated rounding |
| `TrainingMeaning.NextExactly` | src/gpu/regression_oracle.cpp:28-32 | the new weight is the old one moved, brought to within 2097152 of zero |
| `TrainingMeaning.BatchDirection` | src/gpu/regression_oracle.cpp:14-33 | without penalty no weight moves against an exact gradient that exceeds the rounding |
| `TrainingMeaning.OneRowDirection` | gpu/kernels/smoke_test.cl:40-80 | one row with its target at or above the exact sum never lowers a positive feature's weight nor raises a negative one's; eight units below, the other way round |
| `TrainingMeaning.OneRowRises` | gpu/kernels/smoke_test.cl:40-80 | and strictly raises it once residual times feature comes to a unit at a rate of at least 1.0 |
| `TrainingMeaning.PenaltyShrinks` | src/gpu/regression_oracle.cpp:27-29 | without a gradient the penalty draws a weight towards zero |
| `TrainingMeaning.TrainedDirection` | gpu/kernels/smoke_test.cl:40-88 | the same direction for what oracle and kernels return on every batch that fits 64 bits |
| `TrainingMeaning.ThresholdsExactly` | src/gpu/regression_oracle.cpp:34 | thresholds in order are kept, others become 16384 and -16384 |
| `TrainingMeaning.LossNearSquares` | src/gpu/regression_oracle.cpp:18-19 | the reported loss is the sum of the squared errors, each rounded down |
| `TrainingMeaning.CorrectExactly` | src/gpu/regression_oracle.cpp:20-21 | a row counts as correct exactly if its target is the sign of its score |
| `RegressionOverflow.ErrorNeverWraps` | src/gpu/regression_oracle.cpp:15-20 | no score, error or prediction ever wraps, for any model and row |
| `RegressionOverflow.RowLossExactly` | src/gpu/regression_oracle.cpp:18-19 | a row's loss is exact if and only if its error is at most 3037000499 |
| `RegressionOverflow.RowGradientExactly` | src/gpu/regression_oracle.cpp:22-23 | a row's gradient is exact if and only if error times feature fits 64 bits |
| `RegressionOverflow.LossExactly` | src/gpu/regression_oracle.cpp:14-24 | up to 2^16 rows the reported loss is exact if and only if every error is within the limit, and too small otherwise |
| `RegressionOverflow.MoveExactly` | src/gpu/regression_oracle.cpp:26-29 | a weight's move is exact if and only if learning rate times pull fits 64 bits |
| `RegressionOverflow.UnwrappedExactly` | src/gpu/regression_oracle.cpp:6-36 | for any model and batch nothing wraps if and only if errors, products, running sums and moves fit |
| `RegressionOverflow.FittingBatchExact` | src/gpu/regression_oracle.cpp:6-36 | a batch that fits has the update and metrics of unbounded integers |
| `RegressionOverflow.TrainExact` | src/gpu/regression_oracle.cpp:6-36 | features up to 64.0, targets up to 2^30 and 2^16 rows always fit |
| `RegressionOverflow.TrainingOverflows` | src/gpu/regression_oracle.cpp:18-19 | a row with a saturated feature whose squared error wraps, so the reported loss is too small |
| `Regression.AlwaysPublishable` | gpu/kernels/smoke_test.cl:79-87 | after any batches every weight is within ±2097152 and BUY exceeds SELL, whatever the model began as |
| `RegressionOverflow.RunExact` | src/gpu/regression_oracle.cpp:6-36 | a whole training run on such batches never wraps |
| `BinaryCodec.ByteReader.ReadLe` | src/market/event.cpp:62-71 | bytes are read low first; a short input is the truncation error of that field |
| `BinaryCodec.ByteReader.ReadRecord` | src/market/event.cpp:159-167 | one record is read, or refused for the first rule it breaks |
| `BinaryCodec.ReadBinary` | src/market/event.cpp:148-171 | the reading loop is the decoding function, errors included |
| `BinaryCodec.WriteLe` | src/market/event.cpp:59-61 | the low byte is written first |
| `BinaryCodec.WriteBinary` | src/market/event.cpp:136-147 | every writable list is written as its encoding; an unwritable one is refused before anything is written |
| `BinaryCodec.FromToLe` | src/market/event.cpp:59-71 | an integer in range survives being written and read |
| `BinaryCodec.ToFromLe` | src/market/event.cpp:59-71 | bytes survive being read and written |
| `BinaryCodec.RecordLayout` | src/market/event.cpp:136-147 | the place of each field in the twenty bytes of a record, and the code of each type and side |
| `BinaryCodec.HeaderLayout` | src/market/event.cpp:136-147 | the sixteen bytes before the records: MKT1, version 1, sizes 16 and 20, and the count |
| `BinaryCodec.BinaryRoundTrip` | src/market/event.cpp:136-171 | reading what was written gives the events back |
| `BinaryCodec.BinaryCanonical` | src/market/event.cpp:136-171 | the reader accepts exactly the writer's outputs, each for the events it was written from |
| `CsvCodec.Split` | src/market/event.cpp:24-33 | the loop returns the comma-separated fields |
| `CsvCodec.PrintValue` | src/market/event.cpp:131 | a printed number has its own value |
| `CsvCodec.PrintShortest` | src/market/event.cpp:131 | without leading zeros |
| `CsvCodec.LineLayout` | src/market/event.cpp:131 | a line's five fields in order, with the names of types and sides |
| `CsvCodec.HeaderLayout` | src/market/event.cpp:15 | the five column names in order |
| `CsvCodec.FieldsAcceptedExactly` | src/market/event.cpp:112-121 | the field lists that are events, on their raw characters, and the event each is |
| `CsvCodec.BlameExactly` | src/market/event.cpp:112-121 | which field is blamed: the first that does not parse, the event's own rules last |
| `CsvCodec.LinesDecodeExactly` | src/market/event.cpp:110-123 | a text is read if and only if each of its lines is an event |
| `CsvCodec.FirstIsBlamed` | src/market/event.cpp:110-123 | otherwise the first line that is none is reported, by its own number |
| `CsvCodec.FieldsOfJoin` | src/market/event.cpp:24-33 | comma-free fields joined by commas come apart again |
| `CsvCodec.ReadCsv` | src/market/event.cpp:105-126 | the reading loop is the decoding function, errors with their line numbers included |
| `CsvCodec.WriteCsv` | src/market/event.cpp:127-134 | a valid list is written whole; otherwise the lines before the first invalid event |
| `CsvCodec.CsvRoundTrip` | src/market/event.cpp:105-134 | reading what was written gives the events back |
| `CsvCodec.CsvNormalises` | src/market/event.cpp:105-134 | rewriting an accepted text and reading it again gives the same events |
| `CsvCodec.CsvNotCanonical` | src/market/event.cpp:105-134 | an accepted text the writer never writes |
| `Generator.KthKey` | src/app/market_data_generator.cpp:42-43 | the entry an iterator reaches after k steps: a key with exactly k smaller keys |
| `Generator.DrawEvent` | src/app/market_data_generator.cpp:27-52 | the loop body draws one event and changes one map as modelled |
| `Generator.TurnKindExactly` | src/app/market_data_generator.cpp:27-34 | a turn on the raw draws: side by parity, Add on an empty side, otherwise 45, 15, 20 and 20 in a hundred |
| `Generator.TurnAmountsExactly` | src/app/market_data_generator.cpp:36-52 | price and quantity on the raw draws |
| `Generator.GenerateMarketEvents` | src/app/market_data_generator.cpp:16-56 | the loop gives the modelled stream; an empty request is refused |
| `Generator.GenerateMarketCsv` | src/app/market_data_generator.cpp:16-62 | an empty request is refused; otherwise the text written is that of the stream, refused, for a zero quantity, exactly when an event is invalid |
| `Generator.SideFollows` | src/app/market_data_generator.cpp:36-51 | on one side the book's array does what the generator's map did, with room for every price |
| `Generator.BookFollowsTurn` | src/app/market_data_generator.cpp:26-52 | each event is accepted, or has a quantity cut to zero and is refused; the book mirrors the maps either way and evicts nothing |
| `Generator.BookFollowsGenerator` | src/app/market_data_generator.cpp:26-52 | for every random stream and length the book ends as the generator's two maps, with nothing evicted |
| `Generator.EveryEventAccepted` | src/app/market_data_generator.cpp:26-52 | each valid event of a stream is accepted at its turn |
| `Generator.RefusedExactly` | src/app/market_data_generator.cpp:48 | a turn's event is refused if and only if it is a Cancel or Trade of a level of at least 2^32 - 500 whose draw leaves remainder 2^32 - 1 |
| `Generator.StreamValidExactly` | src/app/market_data_generator.cpp:26-52 | a stream of draws gives valid events only if and only if no turn draws that |
| `Generator.ValidExactlyUpToSafeCount` | src/app/market_data_generator.cpp:48-52 | every stream of draws gives a valid stream if and only if at most 4294967 events are asked for |
| `Generator.WrittenStreamReplays` | src/app/market_data_generator.cpp:16-62 | a written stream read back and replayed gives the generator's maps, and reported flow alone explains the imbalance |

## Left out

- Generator.GenerateMarketEvents: the Mersenne Twister is any stream of 64-bit draws, so nothing is said about which seeds, if any, give a stream with a refused event.
- Regression.DeviceMemory.TrainBatch: batches of more than 2^29 - 1 rows, whose feature index passes the kernels' 32-bit range; and instruction-level interleaving of work items, each of which runs as one step.
- BinaryCodec.ReadBinary: an allocation failure when reserving space for the announced record count.
- Weak memory beyond older loads of the ring's positions, and wrap-around of 64-bit positions and indices.
- Exception paths across threads, profiling and the wall clock; the backpressure timeout may fire at any full ring.
- The coordinator's route without a GPU: one consumer draining the ring after an early close.
- OpenCL, Verilator-generated code, sockets, the dashboard, JSON configuration and model files: I/O or libraries.
- `from_double` and `to_double` (floating point), the FNV checksum, `FeatureBatchCollector`, the doubling and proof kernels: no deep property.
- The Python generator, which repeats the C++ one over another random source.
- The RTL's default branches for unknown states, which a datatype of states does not have.
