# Verification of market-trader

A Dafny model of the parts of market-trader whose behaviour spans several functions, several runs or a whole
history, with proofs of what the repository's documentation and tests promise about them:

* **Execution.** `ExecutionEngine.rebalance`, the paper broker, risk limits, the drawdown breaker and its persisted
  high-water mark. The broker the engine talks to is any broker at all that follows the order protocol: it may rest,
  fill in part, refuse, or fill while nobody looks.
* **The bitemporal store** (in memory and SQL) and everything that leans on its point-in-time guarantee: the replay of
  the learning loop, the grading of predictions, and the insider sleeve, whose state lives in the store's log.
* **The backtest**, with an arbitrary strategy and arbitrary costs.
* **Algorithms** with a declarative meaning: dendrogram flattening and hierarchical risk parity, Benjamini-Hochberg,
  walk-forward and purged k-fold splits.
* **Run-level state machines**: the intraday confirmation gate, selection hysteresis, the sleeve.

Conventions: floats are reals, times are integers (seconds, or microseconds in the engine), dictionaries and Series
are maps, and a dictionary whose iteration order matters is a sequence. Exceptions are datatype results. A store row
keeps its identity as the tuple of fields whose joined text the repository hashes. `Prelude.Times` is multiplication
under a name, so that products can stand under quantifiers. Cluster variances, the linkage, the normal distribution
function, price changes, scoring and sizing are parameters, constrained only by what is stated in the contracts.

`dafny verify dfyconfig.toml` checks the whole project.

## Where the code and its documentation differ

Each of these is a theorem; where a law fails, the project proves exactly when it holds.

* Reads are called deterministic (`src/market_trader/storage/bitemporal.py:36`), but the sort key leaves out the
  discriminator: `ReproducibleIffNoTies`, and `SqlReadsAreIdenticalIff` for the SQL store.
* The entity-type filter runs before revisions are collapsed, so it can return a superseded version:
  `EntityTypeFilterCommutesIff`.
* Identity text uses an unescaped separator, so identities collide: exactly those with the separator in a source,
  dataset or entity, and those whose discriminator, from its start or from behind a separator, goes on with two times
  and a revision, a separator after each: `CollidesIff`. A missing and an empty discriminator are different facts under
  one identifier, and among identities that do not collide the only such facts: `ReplacesOtherFactIff`.
* The backtest and the replay slice one panel by event time and call it point-in-time
  (`src/market_trader/backtest/engine.py:66-71`); it is so exactly when no row is published late (or early):
  `SliceIsPointInTimeIff`, `TimelyPricesSliceIff`. In the replay late corrections and later listings do reach sizing:
  `LateCorrectionsReachSizing`, `LaterListingsReachSizing`; without either there is no lookahead:
  `SizingSeesTheKnownIff`, `TimelyReplayHasNoLookahead`. Grading, as promised, is not affected in any case.
* A holding cost makes the backtest look ahead, in the first day of the final window and nowhere else: `NoLookahead`,
  `HoldingCostLooksAhead`. A time scheduled twice hides its trade: `RepeatedTimesHideTheTrade`.
* A persisted peak of zero is restored as no state (`src/market_trader/execution/engine.py:51`); this matters exactly if
  a negative equity follows: `RebuildChangesPeakIff`.
* The daily-loss kill needs "a human re-arm", but it lives in the engine's switch and ends with the engine, unlike the
  drawdown trip: `DailyHaltEndsWithTheEngine`.
* `halt_and_flatten` stops at the first broker error, unlike `rebalance`: some open position then goes without its
  closing order, and only then: `ExecutionEngine.HaltAndFlatten`.
* The purge tests against the hull of the test spans. For samples in event order, as its inputs are assumed to be, it is
  exact for every block: `PurgeIsExactInEventOrder`, `SplitIsExactInEventOrder`. Only samples out of event order may be
  dropped though they overlap no test span, and exactly if the test spans leave a gap: `PurgeOverGapsDropsTooMuch`,
  `PurgeIsExactIffGapless`.
* `add_many` overwrites in memory and fails on an existing identifier in SQL: `SqlStore.AddMany`.
* A sleeve name closed and reopened in one pass reads back as open if equally timed rows come back in write order, as
  they do in memory (`ActiveIsOwned`). The SQL store promises no order: there the sleeve is sure to read back what it
  owns exactly if no name was closed and reopened in the pass that wrote its last row: `AnyOrderReadsOwnedIff`,
  `SqlReadsOwnedIff`.
* The paper broker drops slivers of a position and fills sells at a limit whatever its sign; otherwise it is one of the
  brokers the order protocol describes: `PaperBroker.Submit`.

## Model

| member | source | states |
|---|---|---|
| RiskLimits.ApplyRiskLimits | src/market_trader/portfolio/risk.py:31-61 | the scaling steps, with sectors in any order, compute the limited book; every cap holds of it, sum by sum; and where the others are slack a name over the position cap ends exactly on it, with its sign |
| RiskLimits.LimitedIsWithinCaps | src/market_trader/portfolio/risk.py:31-61 | per-name, gross, every-sector and net caps hold together; no weight grows, flips sign or appears |
| RiskLimits.ClippedIsBounded | src/market_trader/portfolio/risk.py:38 | before the scaling every weight is the smaller of its size and the cap, with its sign, and no name is lost |
| RiskLimits.SlackBookIsBounded | src/market_trader/portfolio/risk.py:38-61 | with the other caps slack that is the limited book |
| RiskLimits.LimitedKeepsProportions | src/market_trader/portfolio/risk.py:38-61 | names of one sector on one side of the book keep the proportion of their bounded weights, whatever is scaled |
| RiskLimits.SectorEndsAt | src/market_trader/portfolio/risk.py:40-59 | unless the net is on its cap, a sector ends at the smaller of its cap and its part of the book after the gross cap |
| RiskLimits.UnsectoredEndsAt | src/market_trader/portfolio/risk.py:40-59 | and a name in no sector gives way to the gross cap alone |
| RiskLimits.LimitedIsIdempotent | src/market_trader/portfolio/risk.py:31-61 | limiting a limited book changes nothing |
| RiskLimits.LimitedIsIdentityOnCompliantBooks | src/market_trader/portfolio/risk.py:31-61 | the book is left alone if and only if it already respects every cap |
| RiskLimits.CappedMeetsCap | src/market_trader/portfolio/risk.py:40-49 | a scaled group of names lands exactly on its cap or is untouched |
| RiskLimits.SectorCappedMeetsCaps | src/market_trader/portfolio/risk.py:44-49 | after the sector loop every sector is exactly on its cap or untouched |
| RiskLimits.NetTrimmedMeetsCap | src/market_trader/portfolio/risk.py:54-59 | the trimmed net is on the cap if it was beyond the slack, otherwise untouched; names on the other side are left alone |
| RiskLimits.CheckOrder | src/market_trader/portfolio/risk.py:64-78 | the verdict on one target: the first limit breached, by more than the slack, in the order of the checks |
| RiskLimits.BookPassesIffWithinCaps | src/market_trader/execution/engine.py:113-115 | checking every name against the others accepts a book exactly if the whole is within the caps (plus slack) |
| RiskLimits.LimitedBookIsNeverRefused | src/market_trader/portfolio/sizing.py:85-88 | any limited book, with any zero entries added, passes every order check |
| Ledger.FillConservesValue | src/market_trader/execution/paper_broker.py:62-75 | one fill moves cost basis by the cash it spends plus the profit it realises, for opening, averaging, reducing, flipping and deleting |
| Ledger.CashPlusBasis | src/market_trader/execution/paper_broker.py:53-75 | over any run, cash plus cost basis is starting cash plus realised profit, less what dropped slivers were worth |
| Ledger.AccountingIdentity | src/market_trader/execution/paper_broker.py:95-100 | equity minus starting cash is realised profit plus marked profit of what is held, less dropped slivers |
| Ledger.PositionIsNetOfFills | src/market_trader/execution/paper_broker.py:62-75 | each position is the signed sum of its fills, less dropped slivers |
| Ledger.BuiltUpAtAverageCost | src/market_trader/execution/paper_broker.py:64-72 | however a position is built up, quantity times average price is what it cost, and nothing is realised |
| Ledger.CounterFill | src/market_trader/execution/paper_broker.py:67-75 | a fill against a position realises the part it closes at its price less the average; what is left keeps the average, what flips starts at the fill's price |
| Ledger.WholeSharesDropNothing | src/market_trader/execution/paper_broker.py:68-69 | with whole shares nothing is ever dropped, so both laws are exact |
| PaperBrokers.PaperBroker.constructor | src/market_trader/execution/paper_broker.py:22-26 | a new broker has its cash, no positions, no orders, and a valid ledger |
| PaperBrokers.PaperBroker.SubmitOrder | src/market_trader/execution/paper_broker.py:31-60 | resubmission changes nothing; a new order without a positive price is rejected, one without a limit fills whole at the market, one with a limit fills whole at it exactly if the market is there or better and rests otherwise; cash moves by a fill and by nothing else |
| PaperBrokers.PaperBroker.ApplyFillToBook | src/market_trader/execution/paper_broker.py:62-75 | the position update is the ledger's |
| PaperBrokers.PaperBroker.CancelOrder | src/market_trader/execution/paper_broker.py:77-80 | new, submitted and accepted orders are cancelled, any other keeps its status, and no position moves |
| PaperBrokers.PaperBroker.GetOpenOrders | src/market_trader/execution/paper_broker.py:85-93 | the orders execution counts as pending; none of them has a fill, and every other order has one or is dead |
| PaperBrokers.PaperBroker.GetAccount | src/market_trader/execution/paper_broker.py:95-100 | equity is cash plus holdings at their last price, or at average cost without one, and satisfies the accounting identity |
| PaperBrokers.PaperBroker.Submit | src/market_trader/execution/paper_broker.py:31-60 | a market or limit order, resting or filling as the market has it, is answered as the order protocol describes, exactly if any fill is at a positive price and leaves no sliver |
| PaperBrokers.PaperBroker.SetPrice | src/market_trader/execution/paper_broker.py:28-29 | only the price of the symbol changes, so nothing booked does |
| Venues.Venue.SubmitOrder | src/market_trader/execution/broker.py:74-84 | any broker: any answer the order protocol allows |
| Venues.Venue.TimePasses | src/market_trader/execution/broker.py:74-84 | working orders may fill, in any order and amounts, between two calls |
| BrokerProtocol.FillKeepsEffective | src/market_trader/execution/engine.py:117-124 | a fill moves shares from pending to held; effective holdings do not change |
| BrokerProtocol.SubmitMovesEffective | src/market_trader/execution/engine.py:117-124 | an accepted order moves effective holdings by its whole quantity, a refused one by nothing |
| Planning.AcceptedNameIsDone | src/market_trader/execution/engine.py:130-163 | once a planned order is accepted, planning that name again asks for nothing, with any band, whole or fractional |
| Planning.PlanOneIsSized | src/market_trader/execution/engine.py:130-163 | a name has no order exactly if it is unpriced, its drift is inside the band, or what can be traded is worth less than a unit; otherwise its market order takes it to weight times capital over price, exactly or to the near side less than a share away |
| Planning.NameEndsUp | src/market_trader/execution/engine.py:112-200 | whatever becomes of the orders, each target ends where it stood or at its goal; if all are accepted, every priced one ends there but those inside the band or too little to trade |
| Planning.UntargetedNameStands | src/market_trader/execution/engine.py:129-200 | a name that is no target is not moved |
| Planning.SubmittedInOrder | src/market_trader/execution/engine.py:129-168 | sells are submitted before buys, and each side in the order of the targets |
| Planning.SentIff | src/market_trader/execution/engine.py:168-188 | the broker is sent exactly the sane orders before which fewer sane ones came than slots were left; malformed ones are skipped until one finds none |
| Planning.SaneIff | src/market_trader/execution/guardrails.py:33-53 | sane is a positive quantity of at most ten million and a limit within a fifth of the reference price |
| Planning.SellsFirstIsAPermutation | src/market_trader/execution/engine.py:164 | submission order is the plan, rearranged |
| Planning.SettledNamesDropOut | src/market_trader/execution/engine.py:129-163 | settling some names removes exactly their orders from the plan and leaves the rest in order |
| Planning.SubmissionMovesEffective | src/market_trader/execution/engine.py:166-200 | a submission run moves each name's effective holding by what was accepted for it |
| Planning.ExactReplanning | src/market_trader/execution/engine.py:112-200 | after any interleaving of fills, a second rebalance plans exactly the orders not accepted before, in the same order |
| Planning.RemainingPlan | src/market_trader/execution/engine.py:112-200 | in particular it plans none if all were accepted |
| Funding.SellsFundBuys | src/market_trader/execution/engine.py:164-200 | whatever is skipped, refused, capped or partly filled, cash never falls below the smaller of its first and last value |
| Funding.FilledRebalanceKeepsReserve | src/market_trader/execution/engine.py:129-200 | a filled whole-share rebalance leaves at least equity less what is assigned, a share and a unit a name |
| Funding.CashStaysAboveReserve | src/market_trader/execution/engine.py:166-200 | nor is there less at any moment on the way, unless it started with less |
| Funding.LongOnlyReserve | src/market_trader/execution/engine.py:112-134 | for a long-only brief that reserve is at least equity less deployable capital times gross, less price plus one a name |
| Guardrails.OrderRateLimiter.Allow | src/market_trader/execution/guardrails.py:77-81 | allows exactly while slots are left, and takes one |
| Engine.LoadDrawdownState | src/market_trader/execution/engine.py:45-51 | the newest persisted state, a zero peak read as none |
| Engine.EffectiveHoldings | src/market_trader/execution/engine.py:117-124 | holdings with what is still working counted in |
| Engine.SizeOrder | src/market_trader/execution/engine.py:130-162 | the order for one target: none if it is unpriced, inside the band or dust, and otherwise one that takes it to its goal |
| Engine.BuildPlan | src/market_trader/execution/engine.py:129-163 | exactly the orders the targets need, one each, in target order |
| Engine.SubmitAll | src/market_trader/execution/engine.py:166-200 | a submission run of the plan: malformed and refused orders skipped, the rate cap stops the rest |
| Engine.ReturnedIff | src/market_trader/execution/engine.py:166-217 | the caller gets back exactly the orders that were sent and answered without an error |
| Engine.CheckBook | src/market_trader/execution/engine.py:113-115 | the first breach refuses the whole book |
| Engine.ExecutionEngine.constructor | src/market_trader/execution/engine.py:55-78 | a new engine uses the breaker, switch and rate cap it is handed and makes its own of the others; its own breaker is restored from the store |
| Engine.ExecutionEngine.SaveDrawdownState | src/market_trader/execution/engine.py:234-254 | the breaker's state is upserted at the rebalance time if there is a peak and a store, otherwise nothing is |
| Engine.ExecutionEngine.PassGates | src/market_trader/execution/engine.py:88-110 | the drawdown and daily-loss gates, the latter closed exactly if the rule is on and no more than the allowed part of the last close is left; the state is on record before either halts |
| Engine.BadDayIff | src/market_trader/execution/engine.py:98-102 | a bad day, over equity, last close and limit |
| Engine.ExecutionEngine.Rebalance | src/market_trader/execution/engine.py:80-217 | halts exactly if a gate is closed, with or without a store; past them a submission run of the sells-first plan for the smaller of equity and ceiling, after which each target stands where it stood or at its goal and no other name has moved; before them nothing is submitted |
| Engine.RebalanceTwice | src/market_trader/execution/engine.py:80-217 | two rebalances with anything filling in between, by one engine or two: the second tries exactly the orders of the first that were not accepted, in order |
| Engine.ExecutionEngine.HaltAndFlatten | src/market_trader/execution/engine.py:219-232 | halts and sends open positions their closing orders, each at most one; some position goes without exactly if the broker raised an error |
| Drawdown.DrawdownCircuitBreaker.Update | src/market_trader/portfolio/risk.py:99-103 | the breaker after one more equity |
| Drawdown.BreakerMeaning | src/market_trader/portfolio/risk.py:99-103 | the peak is the running maximum, and it is tripped exactly if some equity left no more than the allowed part of a positive peak so far |
| Drawdown.SavingUpdatesTheRecord | src/market_trader/execution/engine.py:234-254 | saving at a time written before replaces what it wrote |
| Drawdown.OtherDatasetsKeepTheRecord | src/market_trader/execution/engine.py:256-260 | a row of another dataset, audits included, leaves the record alone |
| Drawdown.LoadRestoresLatest | src/market_trader/execution/engine.py:45-51 | the state restored is that of the latest rebalance on record by the clock |
| Governor.RebuiltBreakersRefineOne | src/market_trader/execution/engine.py:45-96 | over any orderly run of rebuilds, rebalances and rows ingested by anyone else, for any equities, the breaker in force cannot be told from one fed every equity |
| Governor.ExactAfterObservation | src/market_trader/execution/engine.py:45-96 | with no negative equity the two are equal after every observation |
| Governor.RebuildChangesPeakIff | src/market_trader/execution/engine.py:50-51 | a rebuild changes the remembered peak exactly if a zero peak meets a negative equity |
| Governor.RestoresLastSaveIff | src/market_trader/execution/engine.py:45-51 | the last saved state is restored exactly if its time is on the clock and none is later |
| Governor.TrippedNeverTradesAgain | src/market_trader/execution/engine.py:85-96 | once tripped, no later rebalance trades, not even on a fresh engine |
| Governor.TradesIff | src/market_trader/execution/engine.py:85-110 | a rebalance trades exactly if the switch is open, no drawdown trip was ever seen and the day's loss is within its limit |
| Governor.DailyHaltEndsWithTheEngine | src/market_trader/execution/engine.py:98-110 | after a daily-loss halt the same engine stays halted and a rebuilt one trades |
| Identity.KeyTextIdentifies | src/market_trader/core/identity.py:25-37 | without separators in the fields, equal key texts are equal identities |
| Identity.CollidesIff | src/market_trader/core/identity.py:26-36 | an identity shares its key text with a different one exactly if its source, dataset or entity contains the separator, or its discriminator goes on, from its start or behind a separator, with two times and a revision, each followed by one |
| Identity.ReplacesOtherFactIff | src/market_trader/core/identity.py:34 | of two different facts, ingesting the second replaces the first exactly if they differ only in a missing and an empty discriminator |
| Bitemporal.CollapseLatestRevisions | src/market_trader/storage/bitemporal.py:20-32 | the dictionary loop computes the collapse |
| Bitemporal.InMemoryStore.UpsertMany | src/market_trader/storage/bitemporal.py:93-98 | insert or replace by identifier, a replaced row keeping its place |
| Bitemporal.InMemoryStore.Query | src/market_trader/storage/bitemporal.py:103-125 | filters, collapses, sorts |
| BitemporalLaws.CollapseKeepsLatest | src/market_trader/storage/bitemporal.py:20-32 | exactly the latest version of every fact, once |
| BitemporalLaws.AsOfIsLatestKnown | src/market_trader/storage/bitemporal.py:103-125 | a query returns exactly, per fact visible as of its time, the unique version greatest in knowledge time and revision |
| BitemporalLaws.AsOfFieldByField | src/market_trader/storage/bitemporal.py:20-125 | field by field: a row is returned exactly if it was asked for and, of the versions of its source, dataset, entity, event time and discriminator asked for, none is of a later knowledge time, or of a higher revision at the same |
| BitemporalLaws.AsOfIsOrdered | src/market_trader/storage/bitemporal.py:35-47 | in order of knowledge time, event time, source, dataset, entity and revision, texts as in a dictionary |
| BitemporalLaws.EveryKnownFactIsReturned | src/market_trader/storage/bitemporal.py:103-125 | every fact with a visible version is represented by one at least as new |
| BitemporalLaws.VersionsOnlyAdvance | src/market_trader/storage/bitemporal.py:103-125 | as knowledge time grows a fact never disappears nor goes back |
| BitemporalLaws.LaterKnowledgeDoesNotInterfere | src/market_trader/storage/bitemporal.py:50-56 | rows known later change nothing in an earlier query, not even its order |
| BitemporalLaws.IngestionOrderIsImmaterial | src/market_trader/storage/bitemporal.py:93-125 | any ingestion order of distinct observations reads back the same rows |
| BitemporalLaws.ReproducibleIffNoTies | src/market_trader/storage/bitemporal.py:35-47 | and the same list exactly if no two facts known by then tie, in their latest versions, in the sort key |
| BitemporalLaws.TiedRowsKeepArrivalOrder | src/market_trader/storage/bitemporal.py:35-47 | tied rows come out in the order their facts came in |
| Ordering.SortIsStable | src/market_trader/storage/bitemporal.py:35-47 | sorting keeps the order of any group that is in key order already |
| SqlStores.SqlStore.UpsertMany | src/market_trader/storage/sqlalchemy_store.py:150-158 | merges row by row |
| SqlStores.SqlStore.AddMany | src/market_trader/storage/sqlalchemy_store.py:142-148 | fails, changing nothing, exactly if an identifier exists or repeats |
| SqlStores.SqlStore.Query | src/market_trader/storage/sqlalchemy_store.py:164-195 | the collapse of the selected rows in whatever order they come, sorted |
| SqlStores.UpsertsKeepAgreement | src/market_trader/storage/sqlalchemy_store.py:150-158 | the same upserts keep table and in-memory store in agreement |
| SqlStores.SqlAgreesWithOracle | src/market_trader/storage/sqlalchemy_store.py:164-195 | a SQL query with any filters returns the in-memory rows, restricted to the event-time floor |
| SqlStores.ResultSetsAreOrders | src/market_trader/storage/sqlalchemy_store.py:164-191 | the result sets of a query, with or without an event-time floor, are the in-memory rows it sees, in every order |
| SqlStores.SqlReadsAreIdenticalIff | src/market_trader/storage/sqlalchemy_store.py:193-195 | the very same list comes back for every order of the rows, down to any event-time floor, exactly if no two facts known by then and above the floor tie |
| SqlStores.KeyFiltersCommute | src/market_trader/storage/sqlalchemy_store.py:181-188 | filters on what identifies a fact commute with the collapse |
| SqlStores.EntityTypeFilterCommutesIff | src/market_trader/storage/sqlalchemy_store.py:185-186 | the entity-type filter does exactly if no visible fact changed its type |
| SqlStores.SliceIsPointInTimeIff | src/market_trader/backtest/engine.py:66-71 | slicing one panel by event time is the point-in-time panel exactly if rows are known by t just when they happened by t |
| Backtest.Contribution | src/market_trader/backtest/engine.py:94-95 | a book's return over one row: the sum of weight times return over its names that have a column |
| Backtest.EarnedIsTotal | src/market_trader/backtest/engine.py:94-96 | a book earns the sum of weight times return over its names that have a column |
| Backtest.TurnoverOfOneChange | src/market_trader/backtest/costs.py:16-23 | turnover is a sum of absolute changes, name by name |
| Backtest.SwitchTradesBothLegs | src/market_trader/backtest/costs.py:16-23 | a switch between names trades both legs |
| Backtest.BookSeesThePast | src/market_trader/backtest/engine.py:86-87 | the strategy is shown exactly the rows up to its rebalance |
| Backtest.RowIsBooked | src/market_trader/backtest/engine.py:85-99 | each row is booked with the return of the book in force, and on the first row of its window with what it cost to trade into it and to hold it for its whole days; before the first rebalance with nothing |
| Backtest.WindowIsLatest | src/market_trader/backtest/engine.py:91-92 | a row is in the window of exactly the latest rebalance strictly before it |
| Backtest.AccountWindow | src/market_trader/backtest/engine.py:91-98 | one window's returns and, on its first row, its charge |
| Backtest.RunBacktest | src/market_trader/backtest/engine.py:50-107 | errors; else gross returns, costs and recorded turnover, each row booked as above |
| BacktestLaws.SameBooks | src/market_trader/backtest/engine.py:86-87 | panels that agree up to c give the same weights up to c |
| BacktestLaws.SameTurnover | src/market_trader/backtest/engine.py:88 | and the same turnover |
| BacktestLaws.NoLookahead | src/market_trader/backtest/engine.py:84-101 | and the same gross return; the same net exactly if the final window's holding cost is the same |
| BacktestLaws.NoLookaheadWithoutHoldingCosts | src/market_trader/backtest/engine.py:84-101 | without holding costs the same net returns |
| BacktestLaws.HoldingCostLooksAhead | src/market_trader/backtest/engine.py:97-98 | with one, a longer panel changes the first day's net return |
| BacktestLaws.RepeatedTimesHideTheTrade | src/market_trader/backtest/engine.py:88-93 | a repeated time records zero turnover and its first window is empty |
| BacktestLaws.TotalCostIsTheCharges | src/market_trader/backtest/engine.py:89-98 | total cost is the sum of the charges of the rebalances with a non-empty window |
| Grading.PriceFrameIsValid | src/market_trader/backtest/pit.py:21-38 | the pivoted panel has distinct ascending times |
| Grading.PricedNamesAre | src/market_trader/backtest/pit.py:31-35 | its columns are exactly the names priced, once each and in ascending order |
| Grading.PriceTimesAre | src/market_trader/backtest/pit.py:25-35 | its times are exactly those of the rows that carry a price |
| Grading.CellIsLastPrice | src/market_trader/backtest/pit.py:25-35 | a cell holds the last price written for its name and time |
| Grading.OutcomeIsPriceRatio | src/market_trader/runtime/learning.py:68-73 | for simple changes of a priced name, the outcome is the price a horizon of bars after the prediction over that of the last bar up to it, less one |
| Grading.OutcomeIffMatured | src/market_trader/runtime/learning.py:61-73 | a prediction has an outcome exactly if its name is priced and a full horizon of bars lies after it |
| Grading.GradePredictions | src/market_trader/runtime/learning.py:76-107 | the outcomes of the known predictions of the model, against all prices in the store |
| Grading.GradedAreMatured | src/market_trader/runtime/learning.py:96-107 | graded are exactly the predictions with an outcome, each with its own return |
| Replay.RevealedPrefix | src/market_trader/backtest/replay.py:83-95 | the rows before the cursor are those known by then, as if they had been sorted alone |
| Replay.LastWriteIsKept | src/market_trader/storage/bitemporal.py:93-95 | of rows under one identifier the last written is kept |
| Replay.RevealedRowsAreTheKnownOnes | src/market_trader/backtest/replay.py:83-97 | ingesting in knowledge order leaves exactly the rows of the whole history known by then, repeated identifiers included |
| ReplayRun.RevealIsPointInTime | src/market_trader/backtest/replay.py:91-97 | at every rebalance the store holds, predictions aside, exactly the rows known by then |
| ReplayRun.GradingReadsThePast | src/market_trader/runtime/learning.py:86 | grading's unlimited price read is the query as of the rebalance on the full history |
| ReplayRun.GradingPanelIsThePast | src/market_trader/runtime/learning.py:86 | and without ties the same panel |
| ReplayRun.GradedOnlyOnceMatured | src/market_trader/runtime/learning.py:61-107 | a graded prediction has a full horizon of bars after it, all from prices known by the rebalance |
| ReplayRun.LoggedRowIs | src/market_trader/runtime/learning.py:33-58 | a ranked name is logged with its probability and horizon, at the time of the rebalance |
| ReplayRun.FullCellsAre | src/market_trader/backtest/replay.py:69-75 | the full panel holds the pivoted prices of the universe's names |
| ReplayGrades.StoreHoldsPredictions | src/market_trader/backtest/replay.py:87-113 | when a rebalance starts, the predictions in the store are those the replay made before it, the last of those made at one time for one name |
| ReplayGrades.GradesItsOwnPredictions | src/market_trader/runtime/learning.py:76-107 | at every rebalance exactly those of them that have an outcome are graded, each with the return of its name over the horizon after it |
| ReplayGrades.RankedIsGradedIff | src/market_trader/backtest/replay.py:87-113 | what a rebalance ranks is graded at a later one exactly if the name is priced and its full horizon has passed by then |
| ReplayRun.LaterNewsDoesNotInterfere | src/market_trader/backtest/replay.py:83-113 | histories that agree on what is known by c give the same store, grades and ranking up to c |
| ReplayAccount.AccountPiece | src/market_trader/backtest/replay.py:125-132 | one window's net returns, the cost taken from its first day |
| ReplayAccount.NextPiece | src/market_trader/backtest/replay.py:132-135 | the pieces of successive windows, joined, are the days in order under the latest rebalance before each |
| ReplayAccount.EntriesAscend | src/market_trader/backtest/replay.py:135 | no day comes twice, so sorting changes nothing |
| ReplayAccount.EntriesAreDays | src/market_trader/backtest/replay.py:120-135 | the entries are exactly the days a book is in force, each with its return, name by name, less on the first day of its window the cost of trading into it |
| ReplayLoop.LearnAt | src/market_trader/backtest/replay.py:96-113 | reveal, grade, rank, log, in that order |
| ReplayLoop.ReadNews | src/market_trader/backtest/replay.py:92-95 | the cursor stops exactly behind what is known |
| ReplayLoop.ReplayLearning | src/market_trader/backtest/replay.py:69-143 | errors; else the net return of every day a book is in force, in order, and the grades of every rebalance, as the replay defines them |
| ReplayLaws.TimelyPricesSliceIff | src/market_trader/backtest/replay.py:74-115 | slicing the loaded prices at t leaves those known by t exactly if every price became known by t just when it happened by t |
| ReplayLaws.SizingSeesTheKnownIff | src/market_trader/backtest/replay.py:74-115 | with timely prices, histories that agree on what is known by c show sizing the same up to c exactly if they price the same set of names |
| ReplayLaws.ReplayHasNoLookahead | src/market_trader/backtest/replay.py:115-135 | histories that agree on what is known, and panels on what happened, by c net the same on every day up to c |
| ReplayLaws.TimelyReplayHasNoLookahead | src/market_trader/backtest/replay.py:66-135 | from the histories alone: agreeing on what is known by c, with timely prices of the same set of names, they net the same on every day up to c |
| ReplayLaws.LateCorrectionsReachSizing | src/market_trader/backtest/replay.py:74-79 | a correction published after c changes what sizing sees up to c |
| ReplayLaws.LaterListingsReachSizing | src/market_trader/backtest/replay.py:74-79 | so does the mere existence of a name first priced after c |
| MultipleTesting.BenjaminiHochberg | src/market_trader/backtest/multiple_testing.py:38-50 | the procedure rejects the largest set of which every value, times the size of the family, is within the set's size times the level |
| MultipleTesting.VerdictIgnoresTieOrder | src/market_trader/backtest/multiple_testing.py:41 | the verdict is a function of the values and the level alone |
| MultipleTesting.RejectionsAreMonotone | src/market_trader/backtest/multiple_testing.py:45-49 | lower values or a higher level never take a rejection back |
| MultipleTesting.RejectedIffUnderTheLine | src/market_trader/backtest/multiple_testing.py:45-50 | a hypothesis is rejected exactly if its value, times the size of the family, is within the number of rejections times the level |
| MultipleTesting.BonferroniThreshold | src/market_trader/backtest/multiple_testing.py:31-35 | defined exactly for levels the inverse distribution accepts |
| MultipleTesting.BonferroniIffSmallP | src/market_trader/backtest/multiple_testing.py:26-35 | clearing the bar is having a value of at most the level over the number of trials |
| MultipleTesting.BothTails | src/market_trader/backtest/multiple_testing.py:30-32 | the value is the mass of both tails beyond the statistic |
| MultipleTesting.CorrectFamily | src/market_trader/backtest/multiple_testing.py:65-77 | both corrections; every Bonferroni-significant signal is FDR-significant |
| Splitters.WalkForward | src/market_trader/backtest/splitters.py:25-50 | errors; else every window that fits, one step apart, and no other |
| Splitters.WindowsAre | src/market_trader/backtest/splitters.py:36-50 | the k-th window trains on as many positions as asked for, or on all before, from k steps in, and tests on those that follow; after the last no other fits |
| Splitters.TrainPrecedesTest | src/market_trader/backtest/splitters.py:44-49 | training positions are non-empty and strictly before test positions |
| Splitters.TestsTile | src/market_trader/backtest/splitters.py:36-50 | at the default step the tests are contiguous up to less than one test from the end |
| Splitters.BlocksAreAnEvenPartition | src/market_trader/backtest/splitters.py:78 | the test blocks are all positions in order, sizes differing by at most one, larger ones first |
| Splitters.BlocksPartition | src/market_trader/backtest/splitters.py:78 | every position is in exactly one block |
| Splitters.KeptMask | src/market_trader/backtest/splitters.py:81-94 | the mask, overwritten in place, is true exactly where a sample is kept |
| Splitters.TrainMask | src/market_trader/backtest/splitters.py:81-94 | the mask keeps exactly the samples outside block, hull and embargo, in order |
| Splitters.Split | src/market_trader/backtest/splitters.py:58-94 | errors in order; else one fold for each non-empty block |
| Splitters.PurgeIsSound | src/market_trader/backtest/splitters.py:84-94 | no kept label span overlaps any label span of the block; the buffer behind it is empty |
| Splitters.SplitIsSound | src/market_trader/backtest/splitters.py:78-94 | so it is for every fold of every split, whose whole buffer is empty |
| Splitters.SplitTestsEverySample | src/market_trader/backtest/splitters.py:78-94 | the tests of all folds together are all samples, each once |
| Splitters.SplitIsEven | src/market_trader/backtest/splitters.py:78-80 | there are as many folds as splits or, if fewer, samples; their tests are not empty, of even size, larger ones first |
| Splitters.EmbargoIsNearest | src/market_trader/backtest/splitters.py:76 | the embargo is the nearest whole number to its part of the samples, the even one of two |
| Splitters.PurgeIsExactInEventOrder | src/market_trader/backtest/splitters.py:81-94 | for samples in event order, kept is exactly what is outside block and buffer and overlaps no test span, gaps or not |
| Splitters.SplitIsExactInEventOrder | src/market_trader/backtest/splitters.py:58-94 | so it is for every fold of every split: every other sample is kept for training |
| Splitters.PurgeIsExactIffGapless | src/market_trader/backtest/splitters.py:81-94 | whatever samples follow and whatever the embargo, kept is exactly what is unrelated to the block, if and only if the block's own spans leave no gap |
| Splitters.PurgeOverGapsDropsTooMuch | src/market_trader/backtest/splitters.py:81-87 | at an input out of event order, a sample that overlaps no test span is dropped |
| Dendrogram.ExpandPass | src/market_trader/portfolio/construction.py:75-81 | one pass replaces every merged cluster by its children, keeps the leaves and lowers the maximum |
| Dendrogram.QuasiDiagonal | src/market_trader/portfolio/construction.py:70-82 | terminates with the left-to-right leaves of the last merge, a permutation of the items in which every cluster stands together |
| Dendrogram.RootLeavesAreAPermutation | src/market_trader/portfolio/construction.py:70-82 | if every cluster but the last is merged exactly once, its leaves are the items, each once |
| Dendrogram.LeavesAreUnder | src/market_trader/portfolio/construction.py:70-82 | the leaves of a cluster are the items that went into it, by however many merges |
| Dendrogram.ClustersStandTogether | src/market_trader/portfolio/construction.py:70-82 | the items under a cluster's two children occupy two adjacent stretches of the order, left first, and nothing else does |
| Hrp.BisectLevel | src/market_trader/portfolio/construction.py:106-117 | one level of the loop splits every cluster of two or more names between its sibling halves |
| Hrp.SplitKeepsLevel | src/market_trader/portfolio/construction.py:112-117 | after every sibling pair each cluster's names share one weight, and one weight a cluster plus the finished names make exactly a whole |
| Hrp.PairAt | src/market_trader/portfolio/construction.py:106-113 | the clusters of a level come in sibling pairs |
| Hrp.MeasureDrops | src/market_trader/portfolio/construction.py:105-111 | every level lowers the sum of twice the size less one |
| Hrp.Bisect | src/market_trader/portfolio/construction.py:103-117 | the level-by-level loop computes recursive inverse-variance bisection; all weights positive, summing to exactly one |
| Hrp.HierarchicalRiskParity | src/market_trader/portfolio/construction.py:92-118 | the same over the columns in dendrogram order, so that every split of that order balances, and everything to a single column |
| Hrp.SharesSumToOne | src/market_trader/portfolio/construction.py:112-117 | recursive bisection hands out exactly the whole |
| Hrp.HalvesGetTheirParts | src/market_trader/portfolio/construction.py:115-117 | at every split the two halves' masses are their parts of the cluster's |
| Hrp.SplitIsInverseVariance | src/market_trader/portfolio/construction.py:114-117 | which are inversely proportional to the halves' variances |
| Hrp.EverySplitBalances | src/market_trader/portfolio/construction.py:103-117 | and so at every depth: wherever bisection splits, the first and second half share the weight in inverse proportion to their variances |
| InsiderEvents.InsiderClusterEntries | src/market_trader/runtime/insider_events.py:40-91 | nothing without a positive gated drift; else entries into fresh names not held, to be held the given days, newest first, none passed over unless the cap is full of no older ones |
| InsiderEvents.ChosenAreEligible | src/market_trader/runtime/insider_events.py:75-90 | chosen names are distinct, fresh, not held and no more than the cap (at least one is ever considered) |
| InsiderEvents.ChosenAreNewest | src/market_trader/runtime/insider_events.py:75-90 | nothing eligible is passed over for something older |
| SleeveLog.FillLatest | src/market_trader/runtime/insider_sleeve.py:66-72 | the dictionary loop, a state not older replacing the kept one |
| SleeveLog.LatestIsLast | src/market_trader/runtime/insider_sleeve.py:66-72 | over rows in time order the newest state of a name is its last row |
| SleeveLog.ActiveIsOwned | src/market_trader/runtime/insider_sleeve.py:75-88 | read back at any later time, active are exactly the names whose last written row is open, equally timed rows included |
| SleeveLog.AnyOrderReadsOwnedIff | src/market_trader/runtime/insider_sleeve.py:66-88 | rows handed out in any order read back as owned exactly if no name was closed and reopened in the pass that wrote its last row |
| SleeveLog.SqlReadsOwnedIff | src/market_trader/runtime/insider_sleeve.py:62-88 | so it is over all result sets of the SQL store |
| InsiderSleeve.LatestPrices | src/market_trader/runtime/insider_sleeve.py:140-145 | the last non-zero close of each wanted name |
| InsiderSleeve.PriceIsLast | src/market_trader/runtime/insider_sleeve.py:140-145 | a price is the last one in the rows that is not zero |
| InsiderSleeve.ClosePositions | src/market_trader/runtime/insider_sleeve.py:173-185 | a zero target and a close row for every due position, with its reason |
| InsiderSleeve.ClosingsAre | src/market_trader/runtime/insider_sleeve.py:173-185 | closed are exactly the active names past their time box or stopped, each once |
| InsiderSleeve.ClosedIff | src/market_trader/runtime/insider_sleeve.py:174-185 | a position is closed exactly if its time is up or no more than one less the stop of its entry price is left, and with that reason |
| InsiderSleeve.OpenPositions | src/market_trader/runtime/insider_sleeve.py:191-224 | an open row, then its prediction, and a target for every entry with a price |
| InsiderSleeve.PassOpens | src/market_trader/runtime/insider_sleeve.py:188-210 | with the gate open and a slot free, fresh priced names only are opened, at their price, and none is passed over unless every slot was offered to one no older |
| InsiderSleeve.TargetsAre | src/market_trader/runtime/insider_sleeve.py:183-203 | opened names get equal parts that together are the budget, names only closed get zero |
| InsiderSleeve.PredictionIs | src/market_trader/runtime/insider_sleeve.py:211-223 | an opened name is predicted to rise with ten times its expected drift, as far as that is a probability |
| InsiderSleeve.OpeningsArePredicted | src/market_trader/runtime/insider_sleeve.py:204-223 | and that is written with its open row |
| SleeveRun.RunCycle | src/market_trader/runtime/insider_sleeve.py:148-224 | one pass, at any time, writes exactly the rows decided from the store it found, and reports them |
| SleeveRun.PassDecides | src/market_trader/runtime/insider_sleeve.py:167-210 | what a pass decides about any position and any cluster, from the store it finds |
| SleeveRun.PassIsLogged | src/market_trader/runtime/insider_sleeve.py:167-224 | after an earlier pass, that appends its closings, then its openings, to the log |
| SleeveRun.PassUpdatesOwned | src/market_trader/runtime/insider_sleeve.py:167-224 | the active set read back is the old one less the closed plus the opened, same-pass reopening included |
| SleeveRun.PassKeepsSleeve | src/market_trader/runtime/insider_sleeve.py:167-224 | at most the allowed names are active, and every exit time lies after the pass |
| SleeveRun.WithinBudget | src/market_trader/runtime/insider_sleeve.py:191 | their entry weights together are within the budget |
| SleeveRun.NewsKeepsSleeve | src/market_trader/runtime/insider_sleeve.py:62-63 | rows of other datasets change nothing of it |
| SleeveRun.EveryTurnKeepsSleeve | src/market_trader/runtime/insider_sleeve.py:148-224 | after every pass of every run at strictly increasing times from an empty log: the names read back are those before it less the closed plus the opened, within limit and budget, none past its exit time |
| SleeveRun.RunSleeve | src/market_trader/runtime/insider_sleeve.py:148-224 | running the passes is such a run, and each reports what was decided from the store the one before it left |
| IntradayConfirm.Judge | src/market_trader/runtime/intraday_confirm.py:72-103 | the five checks on the bounded state answer as the name's whole history demands: +1 or -1 exactly if it clears the gate upward or downward |
| IntradayConfirm.IntradayConfirmation.Confirm | src/market_trader/runtime/intraday_confirm.py:56-103 | +1 or -1 exactly if this check and the ones needed before it all moved up, or down, by the multiple of their volatility, on enough volume, not against the daily signal, and rested; and the memory it leaves, for this name and no other |
| IntradayConfirm.AnswerIff | src/market_trader/runtime/intraday_confirm.py:72-103 | that condition, over signals, volatilities and times alone |
| IntradayConfirm.ActsOnlyOnPersistence | src/market_trader/runtime/intraday_confirm.py:80-85 | a non-zero answer means the signal of the name's last needed checks, this one included, was that way and at least the multiple of their volatility |
| IntradayConfirm.ActionsAreSpaced | src/market_trader/runtime/intraday_confirm.py:95-102 | and at least the cooldown since every earlier non-zero answer for it |
| IntradayConfirm.OwnHistoryDecides | src/market_trader/runtime/intraday_confirm.py:73 | a name's answers depend only on its own subsequence of checks |
| Selection.SelectionIsWithinBand | src/market_trader/runtime/cycle.py:117-131 | selections are duplicate-free, inside the exit band, within the cap, and new names come from the entry band |
| Selection.HeldUntilOutOfBand | src/market_trader/runtime/cycle.py:120-131 | with at most cap names held, a held name is dropped exactly when it leaves the exit band |
| Selection.ReselectionIsStable | src/market_trader/runtime/cycle.py:117-131 | selecting again with the selection held gives the same set |
| Selection.NothingLeftOut | src/market_trader/runtime/cycle.py:128-131 | unless the cap bites, every name of the entry band is selected |
| Selection.SelectionIsInOrder | src/market_trader/runtime/cycle.py:117-131 | held names come before new ones, each by rank, and the cap cuts off the end of that list |
| Selection.BandsNest | src/market_trader/runtime/cycle.py:371-374 | the exit band contains the entry band |
| Selection.EnterBandIs | src/market_trader/runtime/cycle.py:371-373 | the entry band is the whole part of its fraction of the ranking, at least one and at most the limit |
| Selection.ExitBandIs | src/market_trader/runtime/cycle.py:374 | the exit band is the nearest whole number to its multiple of the entry band, no narrower than that and no wider than the ranking |
| Selection.HeldThroughRankNoise | src/market_trader/runtime/cycle.py:371-376 | over any run of cycles, capped or not, a held name stays while it is inside the exit band, not stopped and not reserved |
| Selection.FlattenLeavers | src/market_trader/runtime/cycle.py:400-403 | every priced held name outside the target gets an explicit zero, and nothing else changes |
| PaperCycles.RebalanceTo | src/market_trader/runtime/cycle.py:395-409 | whatever weights the cycle sizes, its limited and flattened book is never refused by the engine's risk checks; past the other gates the book's plan is run |

## Left out

- Float rounding, NaN and infinities: arithmetic is over the reals, so a tolerance is exact and a sum has no order.
- Hashing: in the stores an identifier is the tuple of identity fields. Collisions of their joined text are described by `CollidesIff` but not carried into the stores; collisions of the hash itself are not modelled.
- Time zones and calendar dates: times are integers; the date inside a sleeve discriminator is any text.
- Audit rows, logging, metadata and ingestion times; the rows a rebalance audits are foreign rows in the governor's runs.
- `latest_revision_only=False` queries, which return the filtered rows uncollapsed.
- `size_book`, Ledoit-Wolf, linkage, cluster variances, scoring, information coefficients: parameters or library code; variances are assumed positive and the linkage valid.
- `pct_change`: an arbitrary function of the history up to the row, because the library fills gaps in some versions and not in others.
- Performance summaries, equity curves and baselines: closed expressions over the net returns modelled here.
- Backtest returns before the first rebalance, which the code cuts off: the model shows they are zero.
- Grouping of predictions by time before grading, which only avoids recomputing one forward return.
- The sleeve's orders: the log is written before they execute, so a refused order leaves a name recorded as owned; the engine that executes them is modelled on its own.
- Detection of insider clusters and the event-study gate: at most one cluster a name, and a mean drift, are inputs.
- Stop-loss, trailing-stop and thesis-break rules of the daily cycle: any set of stopped names.
- The daily news sleeve, whose lifecycle is that of the insider sleeve.
- Settings, collectors, live broker adapters, dashboards, command line, migrations and language-model calls.
- Funding.FilledRebalanceKeepsReserve: assumes every order filled at its planned price, as the promise does; refused orders are covered by `SellsFundBuys`.
- ReplayGrades.GradesItsOwnPredictions: the history brings no predictions of its own, and a ranking lists a name once, as a Series indexed by symbol does.
- Hrp.HierarchicalRiskParity: columns are distinct names; a repeated label, which pandas allows, is not modelled.
- SleeveRun.EveryTurnKeepsSleeve: the in-memory store only, other components never write sleeve rows, and no two passes have the same time; one at the time of an earlier pass may overwrite a row it wrote.
