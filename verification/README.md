# Verification of the Polymarket capture, paper-trading and backtest system

This project models the logic of the system in Dafny and proves properties of it. Five parts are
covered:

1. **Capture pipeline.** The lock-free multi-producer ring, the tickerplant thread that drains it into
   rotating journal files and the live top-of-book table, and the shutdown order.
2. **Paper trading.** The strategy as two threads (the WebSocket thread evaluating ticks, the main
   thread sweeping expired positions) over one gateway, with every lock acquisition and clock read a
   separate step; the token-routed quote board that feeds it.
3. **Backtest accounting.** Average-cost profit accounting, the capital gate, and the fill simulator.
4. **Metadata store and subscription text.** The hand-written CSV printer and parser, merge, append and
   prune of the metadata file over the life of the harvester, and the in-place extension of the
   subscription message.
5. **Price-feed journal.** The buffered, rotating writer with its failure paths.

`dafny verify dfyconfig.toml` checks everything.

## How it is organised

| files | content |
|---|---|
| `RingProtocol`, `RingInvariant`, `RingSafety`, `RingLiveness` | the ring as a state machine of single memory accesses, its inductive invariant, safety and progress over whole runs |
| `RingOffers`, `RingCounters`, `RingCapacity` | what becomes of every offered item; fixed-width counters and masks; which capacities are safe |
| `RingBuffer`, `OrderBook`, `Tickerplant`, `TurnQueue` | classes: whole calls on the ring, the book table, the consumer thread; how it must be paced |
| `CapturePipeline` | ring and consumer thread together, access by access, with calls that overlap |
| `PaperGateway`, `BookState`, `Fees` | classes: the trading account, the quote board; fees of bot and backtest |
| `StrategyEngine`, `StrategySafety`, `StrategyCash`, `StrategyEntries`, `StrategyClock` | the two trading threads, what every interleaving keeps, what a single call decides, and how much clock disorder the guarantees stand |
| `Pnl`, `RoundTrips`, `CapitalGate`, `GateEntries`, `GateExits`, `GatedPnl`, `FillModel` | backtest accounting, its round trips, the gate, exactly which entries it drops and when exits free capital, gate and accounting together, simulated fills |
| `MetadataCsv`, `MetadataRoundTrip`, `MetadataFiles` | the file format, its round trip, the printing and parsing loops |
| `MetadataMerge`, `MetadataStore`, `MetadataRuns` | upsert, append and prune on records and on text; runs of the harvester |
| `WebSocketClient`, `BtcJournal` | classes: subscription text, price-feed journal |
| `Arithmetic`, `RealSums`, `Sequences`, `Wrappers` | helpers |

Prices, sizes and money are reals. Files are sequences of ticks or characters, keyed by window number
instead of calendar name. Code that updates fields is a class whose methods are proved equal to
functions of the old state; the theorems are about those functions. Code run by several threads is a
state machine whose actions are the individual shared accesses, and theorems quantify over all action
sequences.

## What was found

- **A one-slot ring is accepted but unsafe.** The constructor's `static_assert` takes every power of
  two, also 1. There "published at p" and "free for p + 1" are the same number and an unread item is
  overwritten. Delivery in claim order holds exactly for capacities of at least two
  (`SafeIffTwoSlots`). The program instantiates only large rings.
- **How the feed must be paced.** From an empty ring the consumer's one tick per turn loses nothing exactly
  if every stretch of turns i..j brings at most capacity + (j - i) ticks (`NothingDroppedIffPaced`); a tick
  is refused exactly while `capacity` accepted ones are unrecycled (`EveryOfferIsSettled`).
- **The trading account tolerates exactly 90 seconds of clock setback.** The strategy reads
  `system_clock`, which may be set back. The books balance in every run exactly if no setback exceeds
  `MIN_REMAINING_S - EXPIRY_GRACE_S` = 90 s; with one millisecond more, a stale sweep sells the wrong
  number of shares of a newer position (`BooksBalanceIffSetbackWithinMargin`). Sweeps leave no expiring
  position behind exactly if evaluation time and setback together stay within the same 90 s
  (`SweepsCompleteIffWithinMargin`).
- **The capital gate's promise holds exactly for exits that fit.** Its documentation says exits free
  capital. An exit larger than the long position opens a short in the accounting instead, as when its
  entry was dropped (`OrphanedExitIgnoresBudget`), and ties up whatever it is worth. One exit frees
  capital at every price exactly if it fits the position (`ExitFreesAtEveryPriceIff`; at a given price,
  `ExitFreesCapitalIff`). Over whole streams the budget, plus buy fees, holds whatever the exits are worth
  exactly if no kept exit exceeds the long position (`BudgetAtAllExitPricesIff`,
  `NextExitKeepsBudgetIff`).
- **Markets keep their tokens exactly if none is shared** (`TokensStayIffExclusive`). A market that
  registers with a token of another takes its ticks over, on its own leg, after any history
  (`SharedTokenIsTakenOver`).
- **Pruned metadata rows stay away.** An id once known is never appended again in the same process, so
  a pruned row only returns at the next boot (`RunDropsOnlyStaleRows`).
- **A guard that never fires.** The second capacity check in `BtcJournal::write` is dead code: the
  buffer position is below capacity between calls, also when opening files fails.

## Model

| member | source | states |
|---|---|---|
| RingInvariant.StepKeepsInv | include/polymarket/memory/RingBuffer.hpp:144-245 | every single access of `produce`, `try_produce` or `consume`, by any thread, keeps the invariant that ties slot sequences, claims, thread positions and consumed items together |
| RingInvariant.InitEstablishesInv | include/polymarket/memory/RingBuffer.hpp:108-114 | the constructor's priming of slot i with sequence i establishes it |
| RingInvariant.TestFailsIffFull | include/polymarket/memory/RingBuffer.hpp:196-204 | the slot of the next claim carries the claim's position unless the ring holds `capacity` items not handed back |
| RingInvariant.OnlyHolderOfSlot | include/polymarket/memory/RingBuffer.hpp:151-157 | while a producer copies into a slot, no other producer and not the consumer is past its test on that slot |
| RingSafety.DeliveryInClaimOrder | include/polymarket/memory/RingBuffer.hpp:144-158 | for any producers and any interleaving, what was consumed is exactly the items of positions 0..R-1 in claim order, untorn; each producer's items in its own order, with blocking produce a prefix of its program |
| RingOffers.EveryOfferIsSettled | include/polymarket/memory/RingBuffer.hpp:144-211 | in every run, try_produce included, what each producer got accepted is, unchanged and by a strictly increasing index map, exactly the items it offered while fewer than `capacity` accepted ones were unrecycled; with produce, all of them |
| RingOffers.PicksAreTheSetFlags | include/polymarket/memory/RingBuffer.hpp:196-210 | that index map is strictly increasing and hits exactly the accepted offers |
| RingSafety.OneThreadPerSlot | include/polymarket/memory/RingBuffer.hpp:144-245 | in every reachable state at most one thread is between its successful sequence test and its sequence store on a slot, for try_produce from the test on, so payload copies never overlap |
| RingSafety.TryRefusesIffFull | include/polymarket/memory/RingBuffer.hpp:196-210 | with one producer, try_produce refuses exactly when `capacity` accepted items are not recycled yet |
| RingLiveness.OldestClaimCanAdvance | include/polymarket/memory/RingBuffer.hpp:151-157 | while a claimed position is unconsumed, the consumer or the owner of the oldest such position can make a step other than spinning |
| RingLiveness.StuckIffFinished | include/polymarket/memory/RingBuffer.hpp:227-245 | nobody can move exactly when everything offered was claimed and everything claimed was consumed |
| RingLiveness.MovesShrinkWork | include/polymarket/memory/RingBuffer.hpp:144-245 | every step that is not a turn of a spin loop decreases a natural number |
| RingLiveness.UsefulStepsBounded | include/polymarket/memory/RingBuffer.hpp:144-245 | no run takes more such steps than the work it starts with |
| RingLiveness.CompletedRunDeliversEverything | include/polymarket/memory/RingBuffer.hpp:144-245 | a run with blocking producers that can go no further has delivered every item of every producer, in its order |
| RingCounters.StaticAssertMeansPowerOfTwo | include/polymarket/memory/RingBuffer.hpp:79-82 | the bit test of the static_assert accepts exactly the powers of two |
| RingCounters.MaskIsRemainder | include/polymarket/memory/RingBuffer.hpp:86 | `pos & MASK` is the remainder by the capacity |
| RingCounters.WrappedStepAgrees | include/polymarket/memory/RingBuffer.hpp:146-157 | with fewer outstanding claims than the modulus, each step of the ring with wrapping counters is the image of the step with unbounded counters, tests and slot indices included |
| RingCounters.OutstandingIsBounded | include/polymarket/memory/RingBuffer.hpp:146-154 | outstanding claims never exceed capacity plus the number of producers |
| RingCounters.WrappedRunAgrees | include/polymarket/memory/RingBuffer.hpp:144-245 | a whole run of the wrapping ring is state by state the image of a run of the unbounded ring |
| RingCounters.FixedWidthDelivery | include/polymarket/memory/RingBuffer.hpp:76-86 | the ring as instantiated (power-of-two capacity, 64-bit counters) delivers in claim order in every run |
| RingCounters.FixedWidthOffers | include/polymarket/memory/RingBuffer.hpp:76-86 | the same account of offers for the ring with wrapping counters |
| RingCapacity.OneSlotDeliversOutOfOrder | include/polymarket/memory/RingBuffer.hpp:79-82 | a concrete run of a one-slot ring that returns the second item first |
| RingCapacity.SafeIffTwoSlots | include/polymarket/memory/RingBuffer.hpp:79-82 | claim-order delivery holds in all runs exactly if the capacity is at least two |
| RingBuffers.RingBuffer.TryProduce | include/polymarket/memory/RingBuffer.hpp:176-211 | refuses exactly when full, otherwise the item joins the end of the queue; nothing else changes |
| RingBuffers.RingBuffer.Consume | include/polymarket/memory/RingBuffer.hpp:227-245 | takes the oldest item, None exactly when the queue is empty |
| OrderBooks.TokensByFirstAppearance | include/polymarket/rdb/OrderBook.hpp:136-161 | the indexed ids are the distinct ids of the history, once each, in order of first appearance |
| OrderBooks.IndexedAreTheFirst | include/polymarket/rdb/OrderBook.hpp:109-152 | the ids that own a slot are the first 4096 distinct ones |
| OrderBooks.TopOfBookIsLastQuotes | include/polymarket/rdb/OrderBook.hpp:163-176 | a token's slot shows its last bid and its last ask, zeros before the first |
| OrderBooks.OrderBook.ApplyTick | include/polymarket/rdb/OrderBook.hpp:132-177 | after any history the map and the array are those of the first 4096 distinct ids, without aliasing and without counter wrap |
| OrderBooks.OrderBook.FindIndex | include/polymarket/rdb/OrderBook.hpp:194-201 | finds a token exactly if it owns a slot, and that slot holds its last quotes |
| Tickerplants.AppendExtendsJournal | src/tickerplant/Tickerplant.cpp:212-217 | appending to the current file appends to the concatenation of all files in slot order |
| Tickerplants.RotationKeepsJournal | src/tickerplant/Tickerplant.cpp:139-160 | moving on to any later window leaves that concatenation as it is, also across skipped windows |
| Tickerplants.TimeSlotMonotone | src/tickerplant/Tickerplant.cpp:91-98 | a later clock reading never gives an earlier window |
| Tickerplants.SlotCoversClock | src/tickerplant/Tickerplant.cpp:91-98 | the window number is the one whose interval contains the clock; one window for ever without an interval |
| Tickerplants.Tickerplant.Fetch | src/tickerplant/Tickerplant.cpp:212-218 | a tick taken from the ring is the next accepted one and is journalled before anything else, and a reader's view stays valid |
| Tickerplants.Tickerplant.Apply | src/tickerplant/Tickerplant.cpp:219-231 | a reader that sees ticks_written = k sees at least the first k ticks in the book, also between the book update and the counter |
| Tickerplants.Tickerplant.DrainOne | src/tickerplant/Tickerplant.cpp:212-232 | drains exactly the oldest accepted tick, false exactly on an empty ring |
| Tickerplants.Tickerplant.Rotate | src/tickerplant/Tickerplant.cpp:139-160 | closes the file, snaps to the window of the clock; a failed open leaves no file open |
| Tickerplants.Tickerplant.Maintain | src/tickerplant/Tickerplant.cpp:250-270 | clock work every 1024 turns, at most once a second, keeps all of the above |
| Tickerplants.Tickerplant.Offer | include/polymarket/memory/RingBuffer.hpp:196-210 | of a burst exactly the prefix that fits is accepted |
| TurnQueues.NothingDroppedIffPaced | src/tickerplant/Tickerplant.cpp:193-232 | from an empty ring no tick is dropped exactly if every stretch of turns i..j brings at most capacity + (j - i) ticks |
| Tickerplants.Tickerplant.TakeTurn | src/tickerplant/Tickerplant.cpp:212-232 | a turn takes one tick out of the ring exactly if it is not empty once the arrivals are in |
| Tickerplants.Tickerplant.HotLoop | src/tickerplant/Tickerplant.cpp:193-272 | which ticks were accepted and how many drained after any turns; from an empty ring all arrivals exactly if they are paced as above |
| Tickerplants.Tickerplant.Run | src/tickerplant/Tickerplant.cpp:193-285 | after the final drain every accepted tick is counted and in the book; under a clock that runs forward and successful opens the files in slot order hold exactly the accepted ticks, those accepted after the last turn included |
| CapturePipeline.SysStepKeepsInv | src/tickerplant/Tickerplant.cpp:193-272 | every single access of producers and consumer, and every journal, book, counter and clock step between them, keeps the relation of files, book and counter to what the ring delivered |
| CapturePipeline.PipelineFollowsClaims | src/tickerplant/Tickerplant.cpp:212-232 | with calls overlapping in any way, a reader that sees ticks_written = k finds at least the first k delivered ticks in the book, these are the first claims in claim order, and in an orderly run the files in slot order hold what was delivered but for a tick in hand |
| CapturePipeline.ClockReadingRotates | src/tickerplant/Tickerplant.cpp:250-270 | a clock reading between turns leaves the journal in the window of that reading |
| CapturePipeline.EmptyTestMeansDrained | include/polymarket/memory/RingBuffer.hpp:227-235 | with every producer outside its calls, consume finds nothing exactly if every claim was consumed |
| CapturePipeline.ShutdownKeepsEverything | src/harvester/main.cpp:417-422 | once producers have left their calls and the final drain finds nothing, every accepted tick is counted and in the book, and in an orderly run the files in slot order hold exactly the accepted ticks |
| CapturePipeline.ShutdownJournalsOffers | src/harvester/main.cpp:417-422 | for the lone feed using try_produce, these are exactly the ticks it offered while the ring was not full, in order |
| PaperGateways.BuyConserves | src/bot/OrderGateway.cpp:81-105 | a buy moves cash into cost and creates none |
| PaperGateways.SellImbalance | src/bot/OrderGateway.cpp:121-158 | a sale is out of balance by the entry cost of the shares it names in excess of those held |
| PaperGateways.SellConservesIffExact | src/bot/OrderGateway.cpp:121-158 | a sale balances exactly if it names the shares the position holds |
| PaperGateways.FeeRateBounds | src/bot/OrderGateway.cpp:24-31 | the dynamic fee rate lies between 0 and 1/64 and never exceeds the price |
| PaperGateways.SellNeverLowersCash | src/bot/OrderGateway.cpp:146-152 | at prices in [0,1] a sale never lowers cash |
| PaperGateways.CashAndFeesAreTurnover | src/bot/OrderGateway.cpp:81-158 | over any orders cash plus total fees changes by the turnover in goods, so every dollar is goods or a recorded fee; fees never fall |
| PaperGateways.PaperGateway.Buy | src/bot/OrderGateway.cpp:81-105 | the whole new account |
| PaperGateways.PaperGateway.Sell | src/bot/OrderGateway.cpp:121-158 | the whole new account; unchanged when the position is already closed |
| PaperGateways.PaperGateway.FeeRate | src/bot/OrderGateway.cpp:24-31 | the exponent loop computes rate times (p(1-p)) squared |
| StrategySafety.StepKeepsInv | src/bot/StrategyEngine.hpp:44-168 | every step of either thread keeps the invariant relating its local values and snapshots to the account, for clock setbacks up to 90 s |
| StrategySafety.EverySaleIsExact | src/bot/StrategyEngine.hpp:112-164 | in every run, every action that closes a position, from a stale snapshot or not, sells exactly the shares it holds, and no action overwrites a position |
| StrategySafety.CapitalIsConserved | src/bot/StrategyEngine.hpp:44-168 | in every reachable state capital plus the cost and buy fees of open positions equals initial capital plus realised profit |
| StrategySafety.SweepClosesAllExpiring | src/bot/StrategyEngine.hpp:125-168 | when a sweep completes no open position belongs to a market with known expiry inside the grace window of the sweep's clock, if evaluation time plus setback is at most 90 s |
| StrategyClock.BooksBalanceIffSetbackWithinMargin | src/bot/BotConfig.hpp:33-34 | the books balance in all runs exactly if no clock setback exceeds 90 s |
| StrategyClock.SetbackUnbalancesBooks | src/bot/StrategyEngine.hpp:157-164 | with any larger setback allowed, a run with the shipped thresholds that unbalances them |
| StrategyClock.SweepsCompleteIffWithinMargin | src/bot/StrategyEngine.hpp:50-68 | completed sweeps overlook nothing in all runs exactly if setback plus evaluation time is at most 90 s |
| StrategyClock.LateBuyIsOverlooked | src/bot/StrategyEngine.hpp:63-78 | a run beyond that bound in which a buy slips past a sweep |
| StrategyCash.KellyNeverOverspends | src/bot/StrategyEngine.hpp:186-193 | a half-Kelly size above one share, after rounding, costs with its fee at most the capital it was computed from |
| StrategyCash.BuyFloor | src/bot/StrategyEngine.hpp:70-78 | only the one-share floor can push cash below zero, by at most that share's fee |
| StrategyCash.CashNeverFallsBelowOneShareFee | src/bot/StrategyEngine.hpp:70-78 | with prices in [0,1] and no initial debt, cash is at least -1/64 in every reachable state of the two threads |
| StrategyEntries.OpenPositionsWereWanted | src/bot/StrategyEngine.hpp:44-78 | in every reachable state each open position was bought on quotes its market showed: published by an action of the run, the latest when the evaluated tick arrived, acceptable to the entry rule and not too close to expiry, at that NO ask with slippage, in the half-Kelly size of the capital read when sizing |
| StrategyEntries.EntryDecision | src/bot/StrategyEngine.hpp:52-87 | an uninterrupted on_tick without a position buys, in that half-Kelly size, exactly under the entry rule and otherwise changes nothing |
| StrategyEntries.SizeIsHalfKelly | src/bot/StrategyEngine.hpp:186-193 | the size is a multiple of 0.1 within 0.05 share of stake * capital / price, stake = (0.749 - price) / (2 (1 - price)) clamped to [0, 0.2], or the one-share floor |
| StrategyEntries.KellyFractionIsHalfStake | src/bot/StrategyEngine.hpp:188-190 | the closed form of the stake, for prices between 0 and 1 |
| StrategyEntries.ExitDecision | src/bot/StrategyEngine.hpp:88-119 | with a position it sells the whole position exactly if the NO leg is valid and the NO mid reaches the target or expiry is near |
| StrategyEntries.SweepDecision | src/bot/StrategyEngine.hpp:148-165 | a sweep sells all shares of its snapshot at the NO bid less slippage if there is one, whatever else is quoted, and else at half the entry price |
| StrategyEntries.NoStakeIffNoEdge | src/bot/StrategyEngine.hpp:186-193 | the Kelly fraction is zero exactly at prices from the assumed win rate up, and then the one-share floor applies |
| Fees.PaperFeesMatchBacktest | src/bot/OrderGateway.cpp:18-31 | the bot's buy and sell fees are the backtest's unrounded taker fees at rate 0.25 and exponent 2 |
| BookStates.BoardIsHistory | src/bot/BookState.cpp:10-50 | after any history the maps hold exactly first registrations, current token owners and last quotes of each leg |
| BookStates.KnownTokenHasMarket | src/bot/BookState.cpp:27-37 | the lookups after finding a token never fail |
| BookStates.MetadataIsAddOnly | src/bot/BookState.cpp:10-21 | metadata of a registered market never changes or disappears |
| BookStates.TokensStayIffExclusive | src/bot/BookState.cpp:18-20 | every registered market owns both its tokens exactly if no two markets share one |
| BookStates.SharedTokenIsTakenOver | src/bot/BookState.cpp:18-49 | after any history a newly registered market takes over the ticks of each of its tokens: its own leg changes and no other market's book does |
| BookStates.BoardStepIsAction | src/bot/BookState.cpp:10-50 | every board event is an action the two trading threads are proved against |
| BookStates.BookState.AddMarket | src/bot/BookState.cpp:10-21 | registers once, in all three maps |
| BookStates.BookState.OnTick | src/bot/BookState.cpp:23-50 | changes one leg of the owner's book and returns the owner, none for an unknown token |
| BookStates.BookState.GetBook | src/bot/BookState.cpp:58-65 | the last quotes of both legs, none before registration |
| BookStates.BookState.GetMeta | src/bot/BookState.cpp:67-74 | the first registration of the market |
| Pnl.TradeMovesPosition | research/backtest/engine.py:167-204 | the position moves by the signed size in every branch, flips included |
| Pnl.TradeConserves | research/backtest/engine.py:163-204 | profit booked by a fill is its cash flow plus the change of the position's cost value |
| RoundTrips.ClosingTrade | research/backtest/engine.py:171-204 | a fill against a position, long or short, books closed quantity times price gain less the fee; the average stays after a part, is 0 after the whole, and is the fill price after a flip |
| RoundTrips.OpeningTrade | research/backtest/engine.py:167-192 | a fill with the position books nothing and adds its outlay, fee included, to the position's total cost |
| RoundTrips.PositionIsNetSize | research/backtest/engine.py:154-204 | a position is the signed size traded |
| RoundTrips.RoundTripsAreClosings | research/backtest/engine.py:154-214 | over any history the round trips are those of exactly the closing fills, in order, each closed quantity times price gain less the fee |
| Pnl.PnlIsCashPlusCostValue | research/backtest/engine.py:154-214 | after any positive-size fills cumulative profit is net cash plus sum(position*avg_cost), and the sum of the round trips |
| Pnl.RunningCapitalIsExposure | research/backtest/engine.py:159-212 | the incremental running capital is sum(abs(position)*avg_cost) |
| Pnl.PeakIsLargestExposure | research/backtest/engine.py:208-212 | peak capital is the maximum of that sum over all prefixes, and is attained |
| Pnl.CurveOverPrefixes | research/backtest/engine.py:206-214 | point k of the curve is the profit after k+1 fills |
| Pnl.TotalPnlIsCashPlusMarketValue | research/backtest/engine.py:257-265 | realised plus unrealised profit is cash plus market value |
| Pnl.ComputePnl | research/backtest/engine.py:136-214 | the fill loop returns curve, positions, costs, peak and round trips of the account function |
| Pnl.ComputeUnrealized | research/backtest/engine.py:257-265 | the summation loop returns the total of all marks |
| CapitalGate.TrackChangesDeployed | research/backtest/engine.py:302-312 | a kept entry adds its outlay to the deployed capital; an exit within the position only frees some |
| CapitalGate.DeployedWithinBudget | research/backtest/engine.py:286-314 | deployed capital stays within max_capital |
| CapitalGate.ApplyCapitalGate | research/backtest/engine.py:268-314 | the loop keeps exactly the fills of the gate function, all of them above the sentinel |
| GateEntries.DroppedIffOverBudget | research/backtest/engine.py:286-299 | after any stream the next fill is dropped exactly if it is a buy and sum(abs(position) * avg_cost) of the gate's books plus size * price exceeds the budget |
| GateEntries.GateBooksOf | research/backtest/engine.py:301-312 | a kept entry averages its price in, a kept exit leaves the average unless nothing is left |
| GateEntries.AffordableStreamPasses | research/backtest/engine.py:286-314 | entries that together fit the budget and exits that fit the position all pass |
| GatedPnl.SamePositions | research/backtest/engine.py:301-314 | gate and accounting always hold the same positions |
| GatedPnl.BooksAgree | research/backtest/engine.py:159-212 | asset by asset the accounting's cost exceeds the gate's by at most the buy fees |
| GatedPnl.GateEnforcesBudget | research/backtest/engine.py:268-314 | on streams where no kept sell exceeds the long position, the budget holds after every fill and peak capital is at most max_capital plus positive buy fees |
| GatedPnl.NeverShortIffNeverOversells | research/backtest/engine.py:301-314 | the accounting never goes short exactly when no kept sell exceeds the long position |
| GatedPnl.OrphanedExitIgnoresBudget | research/backtest/engine.py:268-278 | an exit whose entry was dropped opens a short of any size |
| GateExits.ExitFreesCapitalIff | research/backtest/engine.py:187-204 | an exit from a long position does not tie up more capital exactly if it fits the position or sells the excess for no more than the position had cost |
| GateExits.ExitFreesAtEveryPriceIff | research/backtest/engine.py:268-278 | it does so at every price exactly if it fits the position |
| GateExits.NextExitKeepsBudgetIff | research/backtest/engine.py:297-312 | after a stream that never oversells, peak capital stays within the budget plus buy fees at every price of the next exit exactly if its size is within the long position |
| GateExits.BudgetAtAllExitPricesIff | research/backtest/engine.py:268-314 | for any stream that bound holds whatever its exits are worth exactly if no kept exit exceeds the long position |
| GateExits.GateIgnoresExitPrices | research/backtest/engine.py:286-314 | what the gate keeps does not depend on exit prices |
| FillModel.MarketFillUsesBookInForce | research/backtest/fills.py:199-213 | a market fill uses the latest row at or before arrival; none before the first row |
| FillModel.MarketFillHasNoLookAhead | research/backtest/fills.py:188-258 | rows after the arrival change nothing |
| FillModel.MarketPriceIsNoBetter | research/backtest/fills.py:232-236 | a market order never gets a better price than the book shows, nor one outside [0,1] |
| FillModel.FilledIffCheapEnough | research/backtest/fills.py:216-226 | a market order is filled exactly if spread plus two per-share fees at the mid price stay within the limit; price, slippage and fee of the fill |
| FillModel.FeeIsRounded | research/backtest/fills.py:61-68 | the fee is size times the per-share fee, for a buy times the price, to the nearest four decimals, ties to even |
| FillModel.BuyFeeAtMostSellFee | research/backtest/fills.py:48-68 | taker fees are not negative, and a buy is never charged more than a sell at the same price, after rounding to four decimals |
| FillModel.RoundTripNeverProfits | research/backtest/fills.py:210-246 | buying and selling back against one book row never makes money |
| FillModel.LimitFillIsEarliestCrossing | research/backtest/fills.py:323-346 | a limit fill exists exactly when a trade crosses in [signal, signal + window], and is the earliest one |
| FillModel.LimitFillTerms | research/backtest/fills.py:350-372 | a limit order is filled at its own price without slippage, its fee being the rebate on the taker fee |
| FillModel.LimitFillHasNoLookAhead | research/backtest/fills.py:323-346 | later trades change nothing |
| FillModel.ScanWindows | research/backtest/fills.py:329-343 | the loop over signals sets flag and time of exactly the filled ones |
| FillModel.WindowLimit | research/backtest/fills.py:312-372 | rows of the filled signals in signal order, with the rebate |
| MetadataRoundTrip.UnquoteReadsBack | src/gateway/MarketDiscovery.cpp:329-353 | the parser undoes the escaping of any question, line breaks read as spaces |
| MetadataRoundTrip.UnquoteStopsAtLoneQuote | src/gateway/MarketDiscovery.cpp:329-353 | on any text the quoted-field reader stops at the first quote that is not doubled, or at the end, and returns the text before it with doubled quotes made single |
| MetadataRoundTrip.RowReadsBack | src/gateway/MarketDiscovery.cpp:310-380 | a written line parses to its record |
| MetadataRoundTrip.RowFollowsHeader | src/gateway/MarketDiscovery.cpp:263-277 | every line holds its record's values in the order in which the header names the columns |
| MetadataRoundTrip.RowIsOneRecord | src/gateway/MarketDiscovery.cpp:298-308 | a line is read as one record, also when it fills the read buffer and its newline is read alone |
| MetadataRoundTrip.AppendedFileReadsBack | src/gateway/MarketDiscovery.cpp:291-388 | lines after a written file add their records and change no earlier one |
| MetadataRoundTrip.FileReadsBack | src/gateway/MarketDiscovery.cpp:250-388 | reading back a written file returns its records, line breaks in questions as spaces, for fields without comma or newline and lines that fit the buffer |
| MetadataRoundTrip.RewriteChangesNothing | src/gateway/MarketDiscovery.cpp:250-388 | writing what was read gives the same file |
| MetadataFiles.CsvEscapeQuestion | src/gateway/MarketDiscovery.cpp:42-65 | the character loop computes the escaping the round trip is about |
| MetadataFiles.ReadQuoted | src/gateway/MarketDiscovery.cpp:331-352 | the pointer loop reads the quoted field and stops behind its closing quote |
| MetadataFiles.ParseLine | src/gateway/MarketDiscovery.cpp:307-380 | the field-by-field parser, with every branch that skips a line |
| MetadataFiles.WriteMetadataCsv | src/gateway/MarketDiscovery.cpp:250-282 | the file text of a list of records |
| MetadataFiles.ReadCsvTokens | src/gateway/MarketDiscovery.cpp:291-388 | the records of any text, read in chunks of at most 2047 characters |
| MetadataMerge.MergeKeepsIds | src/gateway/MarketDiscovery.cpp:408-434 | a merge keeps every old id in place, adds the fresh ones, and keeps ids distinct |
| MetadataMerge.FreshRecordsWin | src/gateway/MarketDiscovery.cpp:422-447 | the last fresh record of an id wins; an absent id keeps its row, inactive |
| MetadataMerge.AppendsExactlyTheUnknown | src/gateway/MarketDiscovery.cpp:487-497 | appended ids are distinct and exactly the unknown ids of the batch |
| MetadataMerge.BatchesCompose | src/gateway/MarketDiscovery.cpp:487-497 | two batches in turn append what their concatenation appends |
| MetadataMerge.StaleMeansEndedBefore | src/gateway/MarketDiscovery.cpp:516-522 | a row is stale exactly if its end date is not empty and comes before the cutoff: after a common beginning it ends first or has the smaller character |
| MetadataMerge.PruneDropsExactlyStale | src/gateway/MarketDiscovery.cpp:513-523 | pruning drops exactly the rows with a non-empty end date before the cutoff |
| MetadataStores.MetadataStore.Merge | src/gateway/MarketDiscovery.cpp:400-456 | the text of the merged rows replaces the file |
| MetadataStores.MetadataStore.Append | src/gateway/MarketDiscovery.cpp:464-502 | header only into a missing or empty file, then the lines of the unknown records; known grows by the batch |
| MetadataStores.MetadataStore.Prune | src/gateway/MarketDiscovery.cpp:507-538 | rewrites the file only if something was dropped, and counts what was |
| MetadataStores.MetadataStore.Seed | src/harvester/main.cpp:318-320 | the dedup set becomes the ids of the file |
| MetadataRuns.RunDropsOnlyStaleRows | src/harvester/main.cpp:173-234 | over any run ids stay distinct and known, and a row whose id was known is there afterwards exactly if it was there and no retention cutoff found it stale |
| MetadataRuns.RunFollows | src/harvester/main.cpp:173-234 | the text of the file follows the same run on records |
| MetadataRuns.BootHolds | src/harvester/main.cpp:312-320 | boot leaves the text of the merged rows and knows exactly their ids |
| MetadataRuns.FileAfterAnyRun | src/harvester/main.cpp:173-234 | both together, from the file found at boot to the file after any run |
| MetadataRuns.MergeTwiceWritesTheSameFile | src/gateway/MarketDiscovery.cpp:400-456 | merging the same batch twice writes the same file |
| MetadataRuns.EachIdIsSubscribedOnce | src/harvester/main.cpp:204-217 | over any number of cycles each id is subscribed at most once, and exactly the unknown ids are |
| MetadataRuns.FileAfterCycle | src/harvester/main.cpp:188-233 | after a pass that discovered something every id of the batch is known, and the file holds exactly the rows it held and the new ones, without those a due retention pass finds stale |
| MetadataRuns.Harvester.Cycle | src/harvester/main.cpp:173-234 | one pass appends, diffs and prunes; an empty discovery skips all of it, retention included |
| WebSocketClients.SubscriptionNamesItsTokens | src/gateway/WebSocketClient.cpp:34-51 | a reader of the text gets back exactly the ids, in order, for ids without quotes |
| WebSocketClients.LastBracketClosesArray | src/gateway/WebSocketClient.cpp:274-275 | the last bracket found from the end closes the id array, whatever the ids contain |
| WebSocketClients.SpliceExtendsSubscription | src/gateway/WebSocketClient.cpp:282-293 | the spliced text is the text of all ids, from an empty or non-empty list |
| WebSocketClients.BuildSubscriptionJson | src/gateway/WebSocketClient.cpp:34-51 | the loop builds that text |
| WebSocketClients.WebSocketClient.Subscribe | src/gateway/WebSocketClient.cpp:263-308 | after any calls the replay text is that of all ids in order; the increment is sent exactly if connected and non-empty |
| BtcJournals.BtcJournal.Flush | src/coinbase/BtcJournal.hpp:147-170 | writes the buffer to the open segment or drops and counts it; always empties it |
| BtcJournals.BtcJournal.RotateIfNeeded | src/coinbase/BtcJournal.hpp:87-106 | afterwards the open segment is that of the timestamp, in orderly runs, and every earlier tick is in its own file |
| BtcJournals.BtcJournal.Write | src/coinbase/BtcJournal.hpp:53-68 | in every run, failed opens included, the buffer index is below capacity between calls and ticks_written = persisted + dropped + buffered |
| BtcJournals.BtcJournal.Close | src/coinbase/BtcJournal.hpp:41-45 | at the end every tick is persisted or dropped; in orderly runs every tick is, in order, in the file of its own window |
| BtcJournals.WindowIsAligned | src/coinbase/BtcJournal.hpp:108-113 | the aligned segment start is a multiple of the interval and contains the timestamp |

## Left out

- RingSafety.DeliveryInClaimOrder: memory orders are not modelled; acquire and release accesses are atomic steps and the payload copy is one step per word, under sequential consistency.
- CapturePipeline.ShutdownKeepsEverything: unbounded counters; that 64-bit counters take the same steps is `RingCounters.WrappedRunAgrees`, for the ring alone.
- RingSafety.TryRefusesIffFull: one producer only, as the source documents for try_produce.
- Tickerplants.Tickerplant.Run: uses whole calls on the ring; the same guarantees for calls that overlap are `CapturePipeline`'s. Forced rotation (for tests), thread pinning, fflush, buffering inside fwrite and the exception of a first open that fails are not modelled.
- Tickerplants.Tickerplant.Apply: the 64-bit tick counter does not wrap in the model.
- OrderBooks.OrderBook.FindIndex: reads by other threads, which the source allows to be torn, are not modelled.
- StrategySafety.StepKeepsInv: the order in which unordered containers yield elements is arbitrary in the model; log text, question strings and the position's entry time are not part of it.
- PaperGateways.PaperGateway.Sell: reals instead of doubles; trade-log files and the live gateway are not modelled.
- StrategyCash.KellyNeverOverspends: Kelly rounding is modelled on reals; rounding of doubles is not.
- Pnl.ComputePnl: reals instead of doubles, so the 1e-9 threshold below which positions count as closed matters only where the source compares with it.
- Pnl.ComputeUnrealized: the query for mid prices is a given map.
- FillModel.MarketFillUsesBookInForce: one signal at a time; grouping by asset and data frames are not modelled. Fees round halves to even on the exact real.
- MetadataRoundTrip.FileReadsBack: characters stand for bytes and none is NUL.
- MetadataFiles.ParseLine: atoi is modelled without overflow.
- MetadataStores.MetadataStore.Merge: the temporary file and rename are one step; failing opens, writes and renames are not modelled.
- MetadataRuns.Harvester.Cycle: the question filter is a parameter, as are the moments retention is due and its cutoff; deletion of old capture files by modification time is not modelled.
- WebSocketClients.SubscriptionNamesItsTokens: ids contain no quotes, as the source never escapes them.
- WebSocketClients.WebSocketClient.Subscribe: the network, reconnection and tick parsing are not modelled.
- BtcJournals.BtcJournal.RotateIfNeeded: windows are keyed by their aligned start, not by calendar file names; the rotation interval is positive.
- HTTP discovery, JSON parsing, DuckDB queries, data frames, metrics, plots, optimiser sweeps and shell scripts are outside the model: library behaviour, or code whose properties follow from one body.
