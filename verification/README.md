# Trading arithmetic: model and proofs

A Dafny model of the trading-arithmetic core of this repository: the backtest simulator and the
grid search over it, the impact bisection, the drawdown loops, order splitting and smart execution
plans, the slippage controller, the margin account, the runtime command bus, the trade-flow
aggregation and the configuration watcher. `dafny verify dfyconfig.toml` checks everything.

Floats are `real`; sums are exact. What the original reads from outside (bars and strategy signals,
random draws, the clock, scans of a directory, the moments at which handlers finish) is an input, so
every statement holds for every choice of it. Loops and objects the original updates in place are
methods and classes; each is proved against a description of its result, and the properties are
proved about that description.

- **`Backtest.dfy`** The bar loop with one position, stop-loss, take-profit, skipped bars and the forced
  close. `Explained` says which trades a run has without any loop: each opens on the first actionable
  bar after the previous exit, is sized by the capital its predecessors left, and closes on the first
  evaluated bar that meets a threshold, or with the last bar. The loop produces a list that fits
  (`RunSingleBacktest`), only one list fits (`ExplanationUnique`), and disjointness, first-touch
  exits and the sign of each exit follow from it. A bar on which the strategy raises can hide a
  stop: every trade ends on the first bar that meets a threshold exactly for those outcome streams
  in which no raise follows a signal.
- **`Solvency.dfy`** When runs can use up the capital: exact conditions for arbitrary signals over a
  price band and for buy-only runs at any positive prices, for every stop, target and slippage. A
  short sale can leave a negative capital under settings that are safe for buying.
- **`GridSearch.dfy`** The product of the value lists, with a rank for every choice; the parallel and the
  sequential result loops; the stable ranking; the two ways a task ends. When every combination scores
  minus infinity (an empty value list is enough) `run_task` completes while the sequential variant,
  which converts the missing best result, fails.
- **`Impact.dfy`** The 20-step bisection returns the largest point of a 2^20-part grid whose impact fits.
- **`Drawdown.dfy`** Three running-peak loops against the maximum over pairs of bars, and the recovery
  automaton against maximal runs. Over curves in a range the two maxima agree exactly when the range is
  not negative; a running peak of zero makes the loops fail, not always both.
- **`OrderSplitting.dfy`**, **`ExecutionPlan.dfy`** Slice counts, sizes under arbitrary draws, visibility;
  the five slice generators and the estimates made from them.
- **`SlippageControl.dfy`** The per-symbol windows and pauses refine a predicate over the event history.
- **`Account.dfy`** The clamped counters are reflected walks; solvency and status.
- **`CommandBus.dfy`** `execute` as interleaved begin and complete steps.
- **`TradeFlow.dfy`** Group-by minute, CVD as prefix sums, the rolling window as their difference.
- **`ConfigWatcher.dfy`** Change detection keeps a mirror exact.
- **`RealSeq.dfy`**, **`Sequences.dfy`**, **`Options.dfy`** Shared arithmetic, list ends and the optional value.

Every lemma carries `{:induction false}`: its proof is its body, and automatic induction over several
sequence parameters is not reliable in Dafny 4.11.

## Model

| member | source | states |
|---|---|---|
| Backtest.RunSingleBacktest | backend/application/optimization_service/service.py:132-257 | For every bar sequence and signal stream the recorded trades are the ones the declarative description admits, and capital is the initial capital plus the sum of their pnl, forced close included |
| Backtest.ExplanationUnique | backend/application/optimization_service/service.py:143-257 | The description admits one trade list only, so it fixes entry, size, exit, reason and pnl of every trade |
| Backtest.TradesDisjoint | backend/application/optimization_service/service.py:177-233 | At most one position: a trade's entry is not after its exit, and its exit is strictly before every later entry |
| Backtest.TradeFollowsSignal | backend/application/optimization_service/service.py:171-194 | A long was opened by a buy and a short by a sell; quantity times close is capital * position size * the signal's confidence, or one half without one; slippage is against the entry |
| Backtest.NoSignalMissed | backend/application/optimization_service/service.py:171-194 | Before, between and after the trades no bar carries a buy or a sell |
| Backtest.TradeCash | backend/application/optimization_service/service.py:212-257 | Profit is quantity times what was sold for less what was bought for, slippage against it on both sides |
| Backtest.CapitalStep | backend/application/optimization_service/service.py:146-257 | Capital starts at the initial one and moves by the profit of each trade, up to the final capital |
| Backtest.LongThresholdPrices | backend/application/optimization_service/service.py:197-210 | Stop and target of a long as price levels, both directions, the stop before the target |
| Backtest.ShortThresholdPrices | backend/application/optimization_service/service.py:197-210 | The same for a short, on the other sides of its entry |
| Backtest.RecordedMove | backend/application/optimization_service/service.py:197-254 | The recorded pnl_pct: with the direction at a threshold, without it at the forced close |
| Backtest.ExitAtFirstTouch | backend/application/optimization_service/service.py:196-233 | A trade exits by threshold iff some evaluated bar from entry on meets one, and then at the first such bar with the reason it meets, the stop before the target |
| Backtest.SkippedBarHidesStop | backend/application/optimization_service/service.py:164-169 | A bar whose signal call raised is not checked: a concrete run exits a bar after its stop was first met |
| Backtest.RaiseHidesExit | backend/application/optimization_service/service.py:164-233 | For every outcome stream with a raise after a signal there is a price path on which a trade is carried past the bar that first meets a threshold |
| Backtest.PromptIffNoRaiseAfterSignal | backend/application/optimization_service/service.py:164-233 | For a given outcome stream, under every price path and configuration each trade ends on the first bar of any kind that meets a threshold iff the strategy never raises after a signal |
| Backtest.PnlFromMove | backend/application/optimization_service/service.py:198-219 | Profit of a close is entry value times the slippage-adjusted factor of the shown pnl_pct |
| Backtest.StopLossLoses | backend/application/optimization_service/service.py:205-219 | Every stop-loss exit of a position loses iff the stop level itself, slippage included, loses |
| Backtest.TakeProfitGains | backend/application/optimization_service/service.py:208-219 | Every take-profit exit gains iff the target clears the slippage |
| Backtest.StopIsALoss | backend/application/optimization_service/service.py:205-219 | A non-negative stop always loses once it or the slippage is positive |
| Backtest.TradeSigns | backend/application/optimization_service/service.py:176-233 | In a run with capital left, stop-loss trades have negative pnl, and take-profit trades positive pnl when the target clears the slippage |
| Backtest.EntryBarExit | backend/application/optimization_service/service.py:177-210 | A threshold exit on the entry bar happens iff the slippage alone meets a threshold |
| Backtest.NoEntryBarExit | backend/application/optimization_service/service.py:177-210 | With stop_loss > s/(1-s) and a positive target no threshold exit is on its entry bar |
| Solvency.PnlIsShare | backend/application/optimization_service/service.py:176-219 | The profit of a position is its entry value times a share that depends on the direction and the price ratio only |
| Solvency.TradeLoss | backend/application/optimization_service/service.py:176-257 | Every trade of a run loses that share of an entry value between nothing and its part of the capital |
| Solvency.BandKeepsCapital | backend/application/optimization_service/service.py:143-257 | With prices in a band, under any signals, capital before trade k is at least initial * (1 - size * worst share)^k |
| Solvency.WorstRun | backend/application/optimization_service/service.py:164-257 | A run of one trade attains the worst share, so the bound is sharp |
| Solvency.SolventIffWorstTradeIs | backend/application/optimization_service/service.py:143-257 | For every configuration: all runs over the band keep positive capital iff size times the worst share is below 1 |
| Solvency.WorstInClosedForm | backend/application/optimization_service/service.py:176-219 | The worst share: a short from the bottom to the top; if slippage closes shorts on entry, a long from the top to the bottom; if it closes both, twice the slippage |
| Solvency.BuyOnlyKeepsCapital | backend/application/optimization_service/service.py:177-233 | In a buy-only run at positive prices capital before trade k is at least initial * (1 - size * (1 + slippage))^k, hence positive |
| Solvency.BuyOnlySolventIff | backend/application/optimization_service/service.py:177-257 | All buy-only runs stay solvent iff size * (1 + slippage) <= 1; where slippage closes longs on entry, iff size * 2 * slippage < 1 |
| Solvency.ShortCanGoBroke | backend/application/optimization_service/service.py:186-257 | With a sell signal settings that are safe for buying fail: a concrete run ends at -350 of 100 |
| GridSearch.GetCombinations | backend/application/optimization_service/models.py:39-50 | The list holds one dictionary per element of the product, in its order; as many as the product of the list lengths |
| GridSearch.ProductAtRank | backend/application/optimization_service/models.py:43-48 | Every choice of one value per parameter stands at its mixed-radix rank, below the count |
| GridSearch.RankLexicographic | backend/application/optimization_service/models.py:43-48 | The combinations come in lexicographic order of their choices |
| GridSearch.RankUnrank | backend/application/optimization_service/models.py:43-48 | Every position is the rank of its own digits, so each choice appears exactly once |
| GridSearch.CombinationsExact | backend/application/optimization_service/models.py:39-50 | A dictionary is a combination iff its keys are the parameter names and each value is in its list |
| GridSearch.CollectParallel | backend/application/optimization_service/service.py:558-588 | Keeps exactly the items that neither crashed nor reported an error, the first maximiser above minus infinity with its result, and progress = kept / total |
| GridSearch.SuccessfulExact | backend/application/optimization_service/service.py:558-575 | The kept results are those of all finished items, each once, in their order |
| GridSearch.RunSequential | backend/application/optimization_service/service.py:726-749 | Raises iff some combination does; else keeps all of them, the first maximiser above minus infinity, and full progress |
| GridSearch.FirstBestUnique | backend/application/optimization_service/service.py:577-582 | The best score and parameters are determined by the result list |
| GridSearch.BestIsMaximum | backend/application/optimization_service/service.py:577-583 | In values: no score exceeds the best one, some result attains it, and every earlier finite score is strictly below |
| GridSearch.LoopsAgree | backend/application/optimization_service/service.py:558-613 | On equal error-free score lists the two loops agree on scores, best score and best parameters |
| GridSearch.RankResults | backend/application/optimization_service/service.py:628 | A stable arrangement by descending score that lists every result |
| GridSearch.RankingUnique | backend/application/optimization_service/service.py:628 | There is one such arrangement |
| GridSearch.TopTenIsBest | backend/application/optimization_service/service.py:618-628 | The best parameters head the reported ten, the ten descend, and nothing left out beats any of them |
| GridSearch.TopTenDescends | backend/application/optimization_service/service.py:628 | In values: ten results or all, finite scores first and never rising, nothing left out above anything reported |
| GridSearch.ReportMaximises | backend/application/optimization_service/service.py:577-628 | A completed task reports the greatest score, the parameters and metrics of the first combination that reaches it, and falling results headed by it |
| GridSearch.BestIffFinite | backend/application/optimization_service/service.py:577-583 | A best result exists iff some score is above minus infinity |
| GridSearch.RunTask | backend/application/optimization_service/service.py:530-668 | Pooled or in-process: reports the first best and the ten best of what was delivered; the guarded conversion never fails; only a raising lone combination does |
| GridSearch.RunTaskSequential | backend/application/optimization_service/service.py:716-780 | Completes iff nothing raised and some score is above minus infinity; otherwise the unguarded conversion raises and the task fails |
| GridSearch.CompareVariants | backend/application/optimization_service/service.py:530-780 | On the same combinations both variants end with the same status iff nothing raised and some score is finite, or the lone combination raised; then best score and parameters agree |
| GridSearch.EmptyGridIff | backend/application/optimization_service/models.py:39-50 | There are no combinations iff some value list is empty |
| GridSearch.SearchEmptyGrid | backend/application/optimization_service/service.py:587-780 | On such a grid `run_task` completes without a best result and the sequential variant fails |
| Impact.ImpactModel.ImpactIsLinear | backend/domain/execution/slippage.py:148-171 | Total impact is size times the impact of one unit |
| Impact.ImpactModel.ImpactParts | backend/domain/execution/slippage.py:148-171 | Temporary impact by depth, permanent by hourly volume, their sum, the price impact and the recovery time |
| Impact.ImpactModel.RateFormula | backend/domain/execution/slippage.py:141-161 | The unit impact in closed form, 0 without depth or volume |
| Impact.ImpactModel.EstimateOptimalSize | backend/domain/execution/slippage.py:177-203 | Returns 0 for a non-positive limit, else the best grid point cut at the desired size, whatever the signs of size and rate |
| Impact.BestStepMaximal | backend/domain/execution/slippage.py:189-201 | The best grid point fits (or is 0) and every larger grid point below twice the desired size does not |
| Impact.WithinLimit | backend/domain/execution/slippage.py:189-203 | The result's impact is within the limit and the result within [0, desired] |
| Impact.NearBest | backend/domain/execution/slippage.py:189-203 | Every admissible size up to the desired one is less than the result plus desired/2^19 |
| Impact.DesiredWhenAdmissible | backend/domain/execution/slippage.py:189-203 | The result is the desired size iff that size is admissible |
| Impact.MonotoneInLimit | backend/domain/execution/slippage.py:177-203 | A looser limit never gives a smaller size |
| Impact.NegativeOvershoots | backend/domain/execution/slippage.py:189-203 | A negative desired size comes back almost doubled |
| Impact.NegativeRate | backend/domain/execution/slippage.py:157-203 | With a negative rate (volatility below -1/2) every non-negative size is returned as it is |
| Impact.LimitKeptIff | backend/domain/execution/slippage.py:177-203 | For every size and market the result keeps the limit iff the desired size is not negative or keeps it itself |
| Impact.ImpactModel.SizeGuarantee | backend/domain/execution/slippage.py:133-203 | The four guarantees in terms of the impact calculation, for any non-negative volatility factor |
| Drawdown.RiskDrawdown | backend/application/optimization_service/metrics_collector.py:199-222 | Fails iff a bar that is no new high has a zero running peak; else the peak fall of the curve and the length of its longest recovered run under the peak |
| Drawdown.UnderIsOvershadowed | backend/application/optimization_service/metrics_collector.py:208-219 | A bar counts as under the peak iff some earlier bar is at least as high |
| Drawdown.ReturnDrawdown | backend/application/optimization_service/metrics_collector.py:249-273 | Fails iff some running peak is zero; else the same peak fall |
| Drawdown.ReturnFailsWhere | backend/application/optimization_service/metrics_collector.py:204-273 | The return loop fails where the risk loop does, and also where a negative curve rises to exactly zero |
| Drawdown.PositiveStartDivides | backend/application/optimization_service/metrics_collector.py:204-218 | A curve that starts above zero makes neither loop divide by zero |
| Drawdown.EngineDrawdown | backend/application/optimization_service/engine.py:241-266 | Returns the peak fall of the curve prefixed with the initial capital, or 0 without trades |
| Drawdown.PeakFallIsMaxFall | backend/application/optimization_service/metrics_collector.py:266-273 | On a non-negative curve the peak fall is the maximum of (E_i - E_j)/E_i over i <= j |
| Drawdown.MaxFallUnique | backend/application/optimization_service/metrics_collector.py:204-220 | That maximum is one number |
| Drawdown.NegativeEquityDiffers | backend/application/optimization_service/metrics_collector.py:266-273 | For every range that goes below zero there is a curve in it on which the two differ |
| Drawdown.PeakFallIsMaxIff | backend/application/optimization_service/metrics_collector.py:266-273 | Over all curves within [lo, hi] that start above zero the peak fall is the maximum over pairs iff lo >= 0 |
| Drawdown.PeakFallRange | backend/application/optimization_service/metrics_collector.py:266-273 | The figure lies in [0, 1], below 1 iff the equity stays positive |
| Drawdown.LongestRecoveryUnique | backend/application/optimization_service/metrics_collector.py:206-222 | The longest recovered run has one length; an unrecovered final run does not count |
| OrderSplitting.NumSlicesInRange | backend/domain/execution/constraints.py:333-351 | The slice count lies between the minimum and the maximum |
| OrderSplitting.NumSlicesLeast | backend/domain/execution/constraints.py:339-351 | Below the maximum, the count is the least for which equal slices respect both caps |
| OrderSplitting.EqualSlicesCapped | backend/domain/execution/constraints.py:339-360 | Below the maximum, an equal slice is at most the depth cap and at most three average trades |
| OrderSplitting.StealthSizes | backend/domain/execution/constraints.py:387-409 | Each slice is its draw raised to 0.3 of the base and cut to half the remainder; the last takes the rest |
| OrderSplitting.RandomSizes | backend/domain/execution/constraints.py:367-380 | Each slice is its draw raised to 0.5 of the base and cut to 0.8 of the remainder; the last takes the rest |
| OrderSplitting.SliceSizes | backend/domain/execution/constraints.py:353-385 | Under every strategy and every draw: n sizes that sum to the order, all positive for a positive order |
| OrderSplitting.CarvedRule | backend/domain/execution/constraints.py:374-405 | Each size but the last from the sizes before it: base plus noise, not below 0.3 (random 0.5) of the base nor above 0.5 (random 0.8) of what is left |
| OrderSplitting.StealthRemainder | backend/domain/execution/constraints.py:397-405 | What is left after k stealth slices is at least total / 2^k |
| OrderSplitting.LastStealthSlice | backend/domain/execution/constraints.py:397-409 | The last stealth slice is between total / 2^(n-1) and total * (0.7n + 0.3) / n |
| OrderSplitting.LastStealthSliceSharp | backend/domain/execution/constraints.py:397-409 | Draws at or below the floor attain the upper bound |
| OrderSplitting.LeastStealthSlice | backend/domain/execution/constraints.py:397-409 | Draws of the whole order attain the lower bound |
| OrderSplitting.LastRandomSlice | backend/domain/execution/constraints.py:374-383 | The last random slice is between total * 0.2^(n-1) and total * (0.5n + 0.5) / n |
| OrderSplitting.LastRandomSliceSharp | backend/domain/execution/constraints.py:374-383 | Draws at or below the floor attain the upper bound |
| OrderSplitting.LeastRandomSlice | backend/domain/execution/constraints.py:374-383 | Draws of the whole order attain the lower bound |
| OrderSplitting.VisibleSlices | backend/domain/execution/constraints.py:446-458 | A stealth split shows exactly ceil(0.3 n) slices, any other split all |
| ExecutionPlan.SmartExecution.MakePlan | backend/domain/execution/order_rules.py:42-70 | The plan of the selected strategy: slices sum to the order, delays never decrease, the duration is the last delay |
| ExecutionPlan.SmartExecution.StrategyChosen | backend/domain/execution/order_rules.py:72-92 | Which strategy is selected, for each one both directions, missing market data included |
| ExecutionPlan.SmartExecution.GenerateSlices | backend/domain/execution/order_rules.py:94-117 | Each strategy generates the slices described for it |
| ExecutionPlan.SmartExecution.VwapSlicesOf | backend/domain/execution/order_rules.py:184-210 | For a real profile the remainder guard never bites: the slices are the unguarded positive shares |
| ExecutionPlan.VwapTotal | backend/domain/execution/order_rules.py:191-208 | The emitted VWAP slices sum to the share of the volume seen so far |
| ExecutionPlan.WithinOrder | backend/domain/execution/order_rules.py:197-200 | What remains always covers the next share |
| ExecutionPlan.SmartExecution.PlanConserves | backend/domain/execution/order_rules.py:94-234 | Slices of every strategy sum to the order |
| ExecutionPlan.SmartExecution.PlanDelays | backend/domain/execution/order_rules.py:94-234 | Delays of every strategy never decrease, also for a negative time limit or an urgency above 1 |
| ExecutionPlan.SmartExecution.TwapSpacing | backend/domain/execution/order_rules.py:166-182 | TWAP delays stay below a positive duration, an interval apart when it covers one |
| ExecutionPlan.SmartExecution.TwapCountIsLargest | backend/domain/execution/order_rules.py:166-170 | The largest count up to the maximum whose intervals fit into the time limit, or 1 |
| ExecutionPlan.SmartExecution.DefaultTwap | backend/domain/execution/order_rules.py:166-180 | Without a time limit, or with 0, the maximum count, one interval apart |
| ExecutionPlan.SmartExecution.AdaptiveCountIsLargest | backend/domain/execution/order_rules.py:220-221 | The largest count up to the maximum below 1 + (1 - urgency)(max - 1) |
| ExecutionPlan.SmartExecution.PlanTimetable | backend/domain/execution/order_rules.py:119-234 | When each slice is sent and whether as a market or a limit order |
| ExecutionPlan.SmartExecution.PlanParts | backend/domain/execution/order_rules.py:119-234 | Every strategy but VWAP cuts the order into equal parts |
| ExecutionPlan.SliceOfBucket | backend/domain/execution/order_rules.py:191-208 | Each VWAP slice is the share of one bucket, sent when that bucket begins, buckets in order |
| ExecutionPlan.DefaultProfile | backend/domain/execution/order_rules.py:191-208 | Without a volume profile, ten equal slices |
| ExecutionPlan.SmartExecution.PlanPrice | backend/domain/execution/order_rules.py:132-144 | The estimated price is the current one; a passive plan is off by exactly half the spread |
| ExecutionPlan.SmartExecution.PlanSlippage | backend/domain/execution/order_rules.py:259-274 | Estimated slippage is the spread for market orders and half of it for limit orders |
| SlippageControl.SlippageController.Record | backend/domain/execution/constraints.py:56-88 | Records the measurement and keeps every window the last history_size measurements of its symbol |
| SlippageControl.SlippageController.Check | backend/domain/execution/constraints.py:90-126 | Status and readings of the last twenty retained measurements; pause iff critical or cooling down by the history |
| SlippageControl.SlippageController.ShouldPause | backend/domain/execution/constraints.py:144-160 | Pauses iff the status is critical or an earlier critical check of the symbol is less than a cooldown ago |
| SlippageControl.CoolingDownIsPending | backend/domain/execution/constraints.py:154-158 | The stored pause is pending iff some critical check in the history has not cooled down |
| SlippageControl.StatusFromRecent | backend/domain/execution/constraints.py:85-106 | Only the last min(20, history_size) measurements decide the status |
| SlippageControl.StatusByReadings | backend/domain/execution/constraints.py:128-142 | Each status in terms of the reported readings, both directions; only the latest reading makes it critical |
| SlippageControl.MeanOfTwenty | backend/domain/execution/constraints.py:100-103 | The reported mean is that of the last 20 measurements, or of all if fewer |
| SlippageControl.LatestAndLargest | backend/domain/execution/constraints.py:100-104 | The other two readings are the latest of all and the largest of the last 20 |
| SlippageControl.SizeByStatus | backend/domain/execution/constraints.py:162-177 | Recommends 1, 0.8, the reduction factor, and half of it |
| SlippageControl.AnswerByReadings | backend/domain/execution/constraints.py:90-177 | Every answer of a run: status by its readings; pause iff the latest reading is critical or an earlier critical check is less than a cooldown ago |
| SlippageControl.Replay | backend/domain/execution/constraints.py:56-160 | Over every interleaving of records and checks of all symbols each answer is the one the history determines |
| SlippageControl.StatusMonotone | backend/domain/execution/constraints.py:128-142 | The status never improves as current or average slippage grows |
| SlippageControl.SizeShrinks | backend/domain/execution/constraints.py:162-177 | A worse status recommends no larger size iff the reduction factor lies in [0, 0.8] |
| Account.AccountModel.constructor | backend/domain/account/account_model.py:57-79 | A zero current balance is replaced by the initial one; all counters start at 0 |
| Account.AccountModel.FreezeBalance | backend/domain/account/account_model.py:117-120 | Raises iff the amount exceeds the available balance, and then changes nothing |
| Account.AccountModel.UnfreezeBalance | backend/domain/account/account_model.py:122-123 | Lowers the frozen balance, not below 0 |
| Account.AccountModel.AddMarginFor | backend/domain/account/account_model.py:125-128 | Raises iff the margin exceeds the available balance, and then changes nothing |
| Account.AccountModel.ReleaseMarginFor | backend/domain/account/account_model.py:130-131 | Lowers the used margin, not below 0 |
| Account.ReflectedWalk | backend/domain/account/account_model.py:122-131 | A counter clamped at 0 is S_n - min(0, min S_k) |
| Account.CountersClosedForm | backend/domain/account/account_model.py:117-131 | After any run used margin and frozen balance have that closed form over the accepted calls |
| Account.AvailableStays | backend/domain/account/account_model.py:81-131 | Without a profit update and with non-negative amounts no run overdraws the account or moves the equity |
| Account.PnlUpdateOverdraws | backend/domain/account/account_model.py:114-115 | A profit update keeps the available balance non-negative iff it covers what is reserved beyond the balance |
| Account.ReleaseUndoes | backend/domain/account/account_model.py:117-131 | Releasing an accepted reservation restores the account |
| Account.StatusThresholds | backend/domain/account/account_model.py:85-103 | Each status in terms of the reserved share of the equity, both directions |
| Account.ReservingNeverImproves | backend/domain/account/account_model.py:95-128 | Freezing balance or adding margin never improves the status |
| Account.ReleasingNeverWorsens | backend/domain/account/account_model.py:95-131 | Unfreezing balance or releasing margin never worsens the status |
| CommandBus.RuntimeCommandBus.Begin | backend/application/commands/runtime_command_bus.py:134-188 | The step up to the handler, or the whole failing call when there is no handler |
| CommandBus.RuntimeCommandBus.Complete | backend/application/commands/runtime_command_bus.py:154-188 | Counts and reports the outcome of a suspended call |
| CommandBus.RunKeepsBooks | backend/application/commands/runtime_command_bus.py:144-188 | Under every interleaving total = successful + failed + in flight, the histories are the last 1000 begun and completed, and each call is in flight or completed exactly once under its id |
| CommandBus.SuspendedWaits | backend/application/commands/runtime_command_bus.py:144-160 | By the steps alone: a call is in flight iff it was started when its kind had a handler and was not finished since |
| CommandBus.OutcomesCounted | backend/application/commands/runtime_command_bus.py:150-175 | Successful counts exactly the handlers that returned; failed those that raised and the calls started without a handler |
| CommandBus.ResultsTellOutcomes | backend/application/commands/runtime_command_bus.py:154-188 | Every result comes from one step, in the order of the steps: a success with the returned value iff its handler returned, else a failure with the reason |
| CommandBus.HistoriesHoldThousand | backend/application/commands/runtime_command_bus.py:146-188 | Both histories hold everything up to 1000 entries and then the last 1000 |
| CommandBus.ResultIdsUnique | backend/application/commands/runtime_command_bus.py:134-188 | Distinct command ids give distinct result ids |
| CommandBus.QuietBus | backend/application/commands/runtime_command_bus.py:144-188 | With nothing in flight every call has exactly one completion and the outcome counters cover all calls |
| TradeFlow.GroupByMinute | scripts/build_enhanced_trade_features.py:153 | One pass gives the minutes with trades, sorted, each once, and each minute's trades in their order |
| TradeFlow.GroupTotals | scripts/build_enhanced_trade_features.py:159-175 | What a condition totals in a minute's group it totals there over all trades |
| TradeFlow.AggregateTrades | scripts/build_enhanced_trade_features.py:148-209 | Grouping and accumulating minute by minute gives, per minute with trades, the row of the totals over all trades, and the CVD as prefix sums of the deltas |
| TradeFlow.OneRowPerTrade | scripts/build_enhanced_trade_features.py:153-187 | In milliseconds: every trade lies in the sixty seconds of exactly one row, every row has a trade, and rows are at least a minute apart |
| TradeFlow.RowOfInterval | scripts/build_enhanced_trade_features.py:159-187 | Row timestamps are full minutes; volumes, counts and large trades are the totals over the trades of each side within that minute |
| TradeFlow.DerivedColumns | scripts/build_enhanced_trade_features.py:165-184 | Total, delta, average size, ratio and imbalance in terms of the volumes and the count |
| TradeFlow.RollingSum | scripts/build_enhanced_trade_features.py:216-217 | The running window, one delta in and one out, is missing for the first 59 rows and then the sum of the last 60 deltas |
| TradeFlow.OrderIrrelevant | scripts/build_enhanced_trade_features.py:153-200 | Permuting the trades does not change the rows |
| TradeFlow.VolumeConserved | scripts/build_enhanced_trade_features.py:159-163 | Bought and sold volume of the month is conserved by the grouping |
| TradeFlow.CountConserved | scripts/build_enhanced_trade_features.py:153-154 | Every trade is counted in exactly one row |
| TradeFlow.LastCvd | scripts/build_enhanced_trade_features.py:205-207 | The last CVD is total bought less total sold |
| TradeFlow.RollingIsDifference | scripts/build_enhanced_trade_features.py:216-217 | The rolling CVD delta is cvd[i] - cvd[i-60], and cvd[59] at the first full window |
| TradeFlow.ImbalanceIsRescaledRatio | scripts/build_enhanced_trade_features.py:177-180 | imbalance = 2 * taker_buy_ratio - 1 in every row |
| TradeFlow.RowBounds | scripts/build_enhanced_trade_features.py:167-180 | For non-negative quantities the ratio is in [0, 1] and large trades are part of the volume |
| ConfigWatcher.Watcher.DetectChanges | backend/config/watcher.py:55-68 | Exactly the paths on which the two scans differ, without repetition |
| ConfigWatcher.Watcher.Poll | backend/config/watcher.py:83-95 | After a round the kept hashes are the scanned ones and the notified paths are exactly those that changed; a failed scan changes nothing |
| ConfigWatcher.RefreshExact | backend/config/watcher.py:70-90 | Refreshing only the notified paths gives the scan iff every differing path was notified |
| ConfigWatcher.MirrorRun | backend/config/watcher.py:81-101 | Over any run a mirror that re-reads only notified paths equals the latest scan after each round |

## Left out

- Floating-point rounding, infinities and NaN. `Backtest.Divisible` excludes what could make the backtest divide by zero: a zero price on a bar with a buy or sell signal, and a slippage of exactly -1 with a buy or 1 with a sell signal.
- Square roots and the statistics built on them (volatility, Sharpe, Sortino, percentiles, Z-scores), so the backtest's own score and the metric scores enter the grid search as inputs.
- `_calculate_trade_metrics`, `calculate_score`, the engine's win/loss figures and the Calmar ratio: single expressions over the trades and the drawdown.
- Loading and filtering of market data, time-string parsing, process pools, the strategy registry and the price windows handed to a strategy; the signal stream is arbitrary instead.
- The figures inside `best_metrics` and the trade records of the best result (which result they are read from is modelled), the backtest-period rerun after the search, and its own failures.
- `SlippagePredictor`, its history and its calibration.
- `OrderSplitter.split` end to end, `_calculate_delays` (it reads a `SplitStrategy.AGGRESSIVE` the enumeration does not have), slice prices and the stealth score.
- `ExecutionAnalytics` and the liquidity ratings.
- Alert messages and `get_stats` of the slippage controller; a `history_size` of 0 or less.
- Snapshots, positions, orders and leverage of the account; fees, funding and realized profit only bump totals there and no conservation into the balance is claimed.
- Cancellation of a suspended command, bus publishing, the orchestrator's own handlers and logging. Command ids are inputs; that random ids do not collide is an assumption of `CommandBus.ResultIdsUnique` only.
- Hashing and directory scans of the watcher, callback registration, and changes to a file between a scan and a subscriber's reading of it.
- Drawdown.PeakFallIsMaxFall: stated for curves that start above zero and never go negative; `Drawdown.PeakFallIsMaxIff` shows that the second condition cannot be dropped.
- Backtest.TradeSigns: makes no claim about the `pnl_pct` of the forced final close, which the original does not negate for short positions.
