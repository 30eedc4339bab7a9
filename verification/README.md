# Velocity: a verified model

A Dafny model of the parts of the Velocity perpetuals exchange where money or ordering can go
wrong, with proofs about every input, every run or every reachable state.

The on-chain half models the Rust program itself (`programs/velocity/src`); the properties are
those its fuzzing harnesses under `fuzz/` state, proved for all values and all interleavings:

* **Insurance fund** (`Shares`, `InsuranceFund`, `FundValue`, `FundFlows`, `FundBooks`, `FundAccount`):
  proportional share arithmetic, lazy rebases, escrowed unstake requests with a frozen exit value,
  revenue settles, donations and loss draws, for any number of stakers.
* **Funding** (`Funding`, `FundingCap`, `FundingLedger`): payments in three roundings, the rate cap
  tied to the AMM's retained equity, and a ledger in which positions settle lazily in any order while
  rates are published and losses are socialized.
* **Perp market** (`SpotBalance`, `PerpMarket`, `PerpMarketRuns`, `PerpMarketFlows`, `MarketAccount`,
  `Estate`): the permissionless fee sweep, the four-tranche bankruptcy waterfall, where every token of
  them goes, and winding up the bankrupt estate.
* **Spot bankruptcy** (`SpotBankruptcy`): the deposit-interest haircut.
* **AMM curve** (`Curve`): swaps with floored reserves, and sizing a trade to a limit price.

The off-chain half models the TypeScript services: the keeper's configuration merge
(`ConfigMerge`, `ConfigLayers`, `ConfigAliasing`), its transaction-size estimate (`TransactionSize`) and choice of makers
(`MakerSelection`), the deploy scripts' repeg (`Repeg`), the user-account cache and its key list
(`UserCache`, `PubkeyList`, `PubkeyRace`), the websocket server's channel registry (`ChannelRegistry`) and its
choice between redundant feeds (`StreamSelector`, `StreamHysteresis`, `FeedRegistry`, `FeedOrder`).

`Arith` holds the integer lemmas, `Wrappers` the option and result types. Code that works on values is modelled by functions; accounts and
services that update their fields are classes whose methods are proved equal, state and result, to
those functions, so every theorem about the functions is one about the code's steps.

## Conventions

* Integers are unbounded. The program uses checked arithmetic, and an overflow reverts the
  transaction and leaves the state alone, so every run of the program is a run of the model. Integer
  division truncates where the source's does; every rounding is modelled.
* A failed instruction is an `Err` and changes nothing.
* Every lemma carries `{:induction false}`: inductions are written out, none is left to the verifier.
* Clocks, random draws, oracle prices, network replies and Redis contents are parameters.
* Random numbers and weights are exact thousandths; floating-point error is not modelled.

## What turned out not to hold

Each comes with a concrete input and the exact condition under which the code does meet the
property, or, where rounding is all that is lost, the bound on it.

* Funding can take the AMM's equity to -1: the gate rounds the netted amount, the settlement rounds
  the two legs apart (`FundingCap.EquityGoesNegativeExactlyWhen`, `FundingCap.EquityCanGoNegative`).
* Cancelling an unstake request forfeits nothing when the request covers every share of the fund
  (`FundValue.CancelKeepsNoUpside`, `FundFlows.SoleStakerKeepsUpside`), and a due unstake reverts
  when it would empty the vault (`FundValue.RemoveRevertsExactlyWhen`, `FundFlows.LastUnstakeReverts`).
* Configuration layers cannot always be merged with each other first
  (`ConfigLayers.LayersExactlyWhen`, `ConfigLayers.ScalarBetweenObjects`), and a merge can overwrite
  arrays of the defaults in place (`ConfigAliasing.DefaultsKeptExactlyWhen`,
  `ConfigAliasing.LaterLoadsExactlyWhen`, `ConfigAliasing.SecondLoadSeesFirst`).
* An estate with means enough can still leave a loss to others, because every recovered amount is
  rounded down by itself (`Estate.OthersPayExactlyWhen`, `Estate.RecoveredUnitIsLost`,
  `Estate.WindUpSplitsEstate`).
* A haircut lowers the depositors' aggregate claim by the loss, but not always what they can withdraw
  one by one (`SpotBankruptcy.HaircutLowersClaims`, `SpotBankruptcy.DustHidesTheCut`).
* Fees accrued and pnl paid out can leave the first-loss tranche short of tokens
  (`PerpMarketRuns.UnbackedExactlyWhen`, `PerpMarketRuns.AccrualUnbacks`,
  `PerpMarketRuns.SettlementUnbacks`), by no more than their amount
  (`PerpMarketRuns.RunKeepsBacking`).
* The transaction-size estimate is exact without lookup tables only if the fee payer signs some
  instruction (`TransactionSize.EstimateIsExact`, `TransactionSize.MissingPayerFallsShort`), and with
  them only if the errors for unused tables, further used tables and the payer cancel
  (`TransactionSize.EstimateWithTables`, `TransactionSize.TwoTablesFallShort`).
* A repeg can cross the oracle when one unit of peg is worth too much (`Repeg.CoarsePegCrosses`,
  `Repeg.CrossesExactlyWhen`); the scripts' comments say it never does.
* The selection of makers divides by zero when fewer makers have liquidity than are to be selected
  (`MakerSelection.MakerMap.SelectMakers`, `MakerSelection.IdleMakerFails`).
* A cached slot can go down when two deliveries both read before either writes
  (`UserCache.RaceLowersSlot`, `UserCache.LowersExactlyWhen`).
* Two synchronisations of the key list at once can put a key on twice
  (`PubkeyRace.RepeatsExactlyWhen`, `PubkeyRace.RaceRepeats`).
* With several feeds the orderbook slots passed on can fall when a stale feed is left for one behind
  it (`FeedOrder.FallsExactlyWhen`, `FeedOrder.FailoverFalls`).
* A channel's entry survives its last socket when that socket unsubscribed before closing
  (`ChannelRegistry.EmptyEntryExactlyWhen`, `ChannelRegistry.EmptyEntryOutlivesSocket`).

## Model

| member | source | states |
|---|---|---|
| `Shares.Proportion` | programs/velocity/src/math/helpers.rs:37-71 | all four code paths, including the one through the complement of the numerator, compute the floored proportion; dividing by zero is the error unless the numerator is zero too |
| `Shares.ComplementFloor` | programs/velocity/src/math/helpers.rs:37-71 | subtracting the ceiling of the complement is the floor of the proportion |
| `Shares.SharesFor` | programs/velocity/src/math/insurance.rs:18-43 | shares for an amount are its floored proportion; an empty vault mints one to one, or errs when shares are outstanding |
| `Shares.DepositQuote` | programs/velocity/src/math/insurance.rs:63-96 | no share is sold below its price or above it by a whole unit, one more share was not affordable, and nothing is charged for no shares |
| `Shares.Redeem` | programs/velocity/src/math/insurance.rs:100-123 | a redeemable amount is the floored proportion of the vault, never more than it, and all of it for all shares |
| `Shares.Log10Iter` | programs/velocity/src/math/helpers.rs:120-130 | the loop counts the decimal digits that `Log10` defines |
| `Shares.Log10Brackets` | programs/velocity/src/math/helpers.rs:120-130 | the count brackets the number between consecutive powers of ten |
| `Shares.RebaseLeavesTenfold` | programs/velocity/src/math/insurance.rs:127-139 | a rebase that drops digits leaves at least ten shares per token |
| `Shares.RebaseLeavesUnderHundredfold` | programs/velocity/src/math/insurance.rs:127-139 | no rebase leaves a hundred shares per token or more |
| `Shares.RebaseIdempotent` | programs/velocity/src/math/insurance.rs:127-139 | a second rebase at the same balance drops nothing |
| `Shares.RebaseBound` | fuzz/fees-if-bankruptcy/src/main.rs:282-337 | rebasing by any divisor that leaves shares moves a redeemable amount by at most one rebased share plus one unit, and by nothing when the divisor is one |
| `Shares.ProgramRebaseBound` | programs/velocity/src/math/insurance.rs:127-139 | the divisor the program picks moves no redeemable amount by more than one unit |
| `Shares.DepositKeepsValue` | fuzz/fees-if-bankruptcy/src/main.rs:44-87 | staking lowers nobody's share price; the staker's claim grows by at most the cost and at least the cost less one |
| `Shares.WithdrawKeepsValue` | fuzz/fees-if-bankruptcy/src/main.rs:44-87 | unstaking at or below price lowers nobody's share price, and payout plus remaining claim is at most the old claim |
| `Shares.RestakeBounded` | programs/velocity/src/math/insurance.rs:141-216 | restaking a frozen value mints at most the shares requested, worth at most that value, while one share more would reach it |
| `InsuranceFund.EffectiveRebased` | programs/velocity/src/controller/insurance.rs:242-282 | a stake rebased late, across any number of fund rebases, holds the shares it would hold if rebased at once |
| `InsuranceFund.TotalRebased` | programs/velocity/src/controller/insurance.rs:207-240 | after a fund rebase the stakes' shares still sum to at most the rebased counter |
| `InsuranceFund.SyncKeepsInv` | programs/velocity/src/controller/insurance.rs:207-282 | rebasing fund and stake always succeeds, keeps the share books coherent and touches no other stake |
| `InsuranceFund.SharesLostBounded` | programs/velocity/src/math/insurance.rs:141-216 | the forfeit of a cancel never exceeds the request and never fails its own validation |
| `InsuranceFund.AddKeepsInv` | programs/velocity/src/controller/insurance.rs:106-205 | staking keeps the share books coherent |
| `InsuranceFund.RequestKeepsInv` | programs/velocity/src/controller/insurance.rs:284-359 | requesting an unstake keeps the share books coherent and the vault unchanged |
| `InsuranceFund.CancelKeepsInv` | programs/velocity/src/controller/insurance.rs:369-450 | cancelling keeps the share books coherent and the vault unchanged |
| `InsuranceFund.RemoveKeepsInv` | programs/velocity/src/controller/insurance.rs:452-543 | unstaking keeps the share books coherent and leaves at least one unit in the vault |
| `InsuranceFund.RunKeepsInv` | fuzz/e2e-svm-liq/src/main.rs:1431-1448 | over every run of stakes, requests, cancels, unstakes, settles, donations and losses, stakers' shares sum to at most the user counter, which is at most the total, and a funded vault is never emptied |
| `InsuranceFund.ClaimsAtMostVault` | fuzz/fees-if-bankruptcy/src/main.rs:44-87 | what all stakers together could redeem is at most the vault |
| `InsuranceFund.SnapshotIsLowest` | programs/velocity/src/controller/insurance.rs:50-70 | between settles the recorded balance that caps the next settle is at most every balance the vault has held |
| `FundValue.SyncKeepsClaims` | programs/velocity/src/controller/insurance.rs:207-282 | rebasing moves no staker's claim by more than one unit, and none when no digit is dropped |
| `FundValue.AddKeepsClaims` | programs/velocity/src/controller/insurance.rs:106-205 | a stake lowers nobody else's claim (save a rebase unit), charges no more than asked, and raises the staker's claim by the charge to within rounding |
| `FundValue.RequestKeepsClaims` | programs/velocity/src/controller/insurance.rs:284-359 | a request moves nobody's claim beyond a rebase unit |
| `FundValue.CancelAlwaysSucceeds` | programs/velocity/src/controller/insurance.rs:369-450 | a pending request can always be cancelled |
| `FundValue.CancelKeepsClaims` | programs/velocity/src/controller/insurance.rs:369-450 | cancelling lowers nobody else's claim (save a rebase unit) |
| `FundValue.CancelKeepsNoUpside` | programs/velocity/src/math/insurance.rs:141-216 | shares kept out of a cancelled request are worth at most the frozen value if and only if the request leaves other shares or the vault has not grown past that value |
| `FundValue.RemoveKeepsClaims` | programs/velocity/src/controller/insurance.rs:452-543 | an unstake pays at most the frozen value, lowers nobody else's claim (save a rebase unit), and payout plus remaining claim is at most the old claim; `FundBooks` has the other side |
| `FundValue.RemoveRevertsExactlyWhen` | programs/velocity/src/controller/insurance.rs:452-543 | an unstake fails in the controller if and only if it is not due, nothing is requested, the vault is empty, or the request covers every share and the vault is at or below the frozen value |
| `FundValue.RoundTripNeverProfits` | fuzz/fees-if-bankruptcy/src/main.rs:44-87 | stake, request any part, then unstake after an escrow in which the others do anything, gains, losses and rebases included: never paid more than was charged plus what was claimed before, and never more than the charge without earlier shares |
| `FundValue.FrozenWithinClaim` | programs/velocity/src/controller/insurance.rs:284-359 | the value a request freezes is at most the staker's claim |
| `FundValue.RunKeepsIdleClaim` | fuzz/e2e-svm-liq/src/main.rs:1431-1448 | over any run without a loss draw, whatever the others do, an idle staker's claim falls by at most one unit per rebase |
| `FundValue.RunClaimsBacked` | fuzz/e2e-svm-liq/src/main.rs:1431-1448 | in every run all claims together stay within the vault |
| `FundFlows.RequestFreezesAmount` | programs/velocity/src/controller/insurance.rs:284-359 | asking for an amount freezes at most it and less than the vault, and falls short by at most one share's worth and a unit, plus a rebase unit |
| `FundFlows.FrozenValueIsPaid` | programs/velocity/src/controller/insurance.rs:452-543 | unstaked before anything else happens, a request pays exactly the frozen value |
| `FundFlows.SoleStakerKeepsUpside` | programs/velocity/src/math/insurance.rs:141-216 | a sole staker's cancel that keeps more than the frozen value |
| `FundFlows.LastUnstakeReverts` | programs/velocity/src/controller/insurance.rs:452-543 | a due unstake that reverts because it would empty the vault |
| `FundFlows.RunConservesVault` | programs/velocity/src/controller/insurance.rs:106-757 | over every run the vault is what it was, plus stakes charged, revenue and donations, less payouts and losses drawn |
| `FundBooks.SyncBooks` | programs/velocity/src/controller/insurance.rs:207-282 | the lazy rebase drops the same decimal digits from every total and from the stake, leaves under a hundred shares per token and at least ten if it drops any, seeds shares one to one, and changes nothing else |
| `FundBooks.RemoveMovesBooks` | programs/velocity/src/controller/insurance.rs:498-543 | an unstake burns exactly the requested shares from stake, user counter and total, clears the request, and pays exactly the lesser of the frozen value and what those shares are worth |
| `FundBooks.RemoveReturnsClaim` | programs/velocity/src/controller/insurance.rs:498-543 | payout and remaining claim fall short of the old claim by at most what the requested shares gained since they were frozen, one unit, and a rebase unit |
| `FundBooks.AddMovesBooks` | programs/velocity/src/controller/insurance.rs:106-205 | a stake mints the most shares the amount buys, charges their cost rounded up, and adds both to the books and to the staker alone |
| `FundBooks.AddRevertsExactlyWhen` | programs/velocity/src/controller/insurance.rs:106-205 | staking fails if and only if there is no account, a request is pending, shares stand on an empty vault, or the amount does not buy one share |
| `FundBooks.RequestMovesBooks` | programs/velocity/src/controller/insurance.rs:284-359 | a request sets aside the shares the amount is worth, rounded down, brings them up to date and freezes their worth then, within all but one unit of the vault |
| `FundBooks.RequestRevertsExactlyWhen` | programs/velocity/src/controller/insurance.rs:284-359 | a request fails if and only if there is no account, one is pending, the stake awaits a rebase, the vault is empty, or the amount is worth no share or more than the staker has |
| `FundBooks.CancelMovesBooks` | programs/velocity/src/controller/insurance.rs:369-450 | a cancel takes the forfeit out of stake, user counter and total alike, and it is the least that leaves the kept shares worth no more than the frozen value, nothing if they are the whole fund or gained nothing |
| `FundBooks.SettleSharesRevenue` | programs/velocity/src/controller/insurance.rs:622-757 | revenue raises every claim by its part of the amount to within a unit, and resets the balance that caps the next settle |
| `FundBooks.DrawSharesLoss` | programs/velocity/src/controller/insurance.rs:62-70 | a loss draw pays all that is asked or all but one unit, lowers every claim by its part to within a unit, and lowers the recorded balance |
| `FundAccount.Account.ApplyRebase` | programs/velocity/src/controller/insurance.rs:207-240 | field-by-field rebase of the fund equals `RebaseFund` |
| `FundAccount.Account.ApplyRebaseToStake` | programs/velocity/src/controller/insurance.rs:242-282 | rebase of one stake equals `RebaseStake`, other stakes untouched |
| `FundAccount.Account.Stake` | programs/velocity/src/controller/insurance.rs:106-205 | the new state and the charge are `AddStake`'s; on error nothing changed |
| `FundAccount.Account.Request` | programs/velocity/src/controller/insurance.rs:284-359 | the new state is `RequestRemove`'s; on error nothing changed |
| `FundAccount.Account.Cancel` | programs/velocity/src/controller/insurance.rs:369-450 | the new state is `CancelRequest`'s; on error nothing changed |
| `FundAccount.Account.Unstake` | programs/velocity/src/controller/insurance.rs:452-543 | the new state and the payout are `RemoveStake`'s, pinned by `FundBooks.RemoveMovesBooks`; on error nothing changed |
| `FundAccount.Account.Settle` | programs/velocity/src/controller/insurance.rs:622-757 | the settle's field updates equal `SettleRevenue` |
| `FundAccount.Account.PayLoss` | programs/velocity/src/controller/insurance.rs:62-70 | a draw lowers the recorded balance as `Draw` does and pays what the vault lost |
| `FundAccount.Account.Replay` | programs/velocity/src/controller/insurance.rs:106-757 | any sequence of instructions leaves the account where the run ends, share books coherent, claims backed and every token accounted for |
| `Funding.UserIs` | programs/velocity/src/math/funding.rs:217-304 | magnitude, signs and two divisions amount to one truncating division of the signed product |
| `Funding.AmmIs` | programs/velocity/src/math/funding.rs:306-338 | the AMM's payment truncates each leg and then their sum |
| `Funding.ZeroSum` | fuzz/funding/src/main.rs:54-121 | in one period both sides and the AMM create or destroy at most one unit |
| `Funding.ZeroSumIsTight` | fuzz/funding/src/main.rs:54-121 | the one-unit bound is reached |
| `Funding.PeriodsZeroSum` | fuzz/funding/src/main.rs:54-121 | over n periods the drift is at most n units |
| `Funding.AmmAntisymmetric` | fuzz/funding/src/main.rs:307-364 | negating both rate moves negates the AMM's payment exactly |
| `Funding.SplitPayment` | fuzz/funding/src/main.rs:307-364 | a side split among N positions is paid its aggregate less fewer than N units, never in the other direction |
| `FundingCap.CapIsSound` | programs/velocity/src/math/funding.rs:112-215 | published rates never exceed the raw rate or change its sign, a period the AMM earns in is not capped, the projected pnl is within the budget and passes the gate |
| `FundingCap.RatesAre` | programs/velocity/src/math/funding.rs:169-276 | the receiving side alone is cut, exactly when what is owed exceeds the budget, to the rate the budget and the paying side afford |
| `FundingCap.CapIsGreatest` | programs/velocity/src/math/funding.rs:169-276 | rates are cut if and only if users are owed more than a third of the AMM's equity, on the receiving side only, to the greatest rate at which it gets no more than that third and what the other side pays, less the limit's rounding unit |
| `FundingCap.SettledWithinBudget` | programs/velocity/src/math/funding.rs:112-215 | the AMM's real settlement costs at most the budget when capped and at most one unit more otherwise |
| `FundingCap.EquityGoesNegativeExactlyWhen` | programs/velocity/src/math/funding.rs:150-167 | a period takes non-negative equity below zero if and only if equity is zero, the netted amount rounds to nothing owed, and the legs rounded apart differ by a whole unit |
| `FundingCap.EquityCanGoNegative` | programs/velocity/src/math/funding.rs:150-167 | an input that passes the gate and ends at -1 |
| `FundingCap.EquityNeverRunsAway` | fuzz/funding/src/main.rs:54-121 | over any number of periods funding takes the AMM's equity at most one unit per period below zero or its start |
| `FundingLedger.RunConservesQuote` | programs/velocity/src/controller/funding.rs:50-105 | over every interleaving of rate updates, lazy settlements, fills that open, change, turn and close positions, and socialized losses, receipts and covered losses match what is still owed to within a stated rounding per event |
| `FundingLedger.LazySettlementPays` | programs/velocity/src/controller/funding.rs:50-105 | a position left alone through any run is then paid for exactly what its side's rate moved, by published rates and socialized losses, since its stamp |
| `FundingLedger.LazyMatchesEager` | programs/velocity/src/controller/funding.rs:50-105 | settling a position once after a run or after every event of it leaves the same ledger but for at most one quote unit a settlement |
| `FundingLedger.FillSettlesAndOpens` | programs/velocity/src/controller/position.rs:311-350 | a fill pays the old size what its side moved, starts the new size at its own side's rate, and moves nothing else |
| `FundingLedger.NoPhantomFunding` | fuzz/e2e-svm-liq/src/main.rs:1591-1661 | once a loss is socialized the AMM's next payment at unchanged rates is zero |
| `FundingLedger.SocialDeltaCovers` | programs/velocity/src/math/liquidation.rs:377-396 | the rate bump covers the loss and overshoots by less than one base unit's worth |
| `FundingLedger.LevyCoversLoss` | fuzz/fees-if-bankruptcy/src/main.rs:89-133 | what survivors pay, position by position, is short of the loss by fewer units than positions and over by less than one base unit's worth |
| `SpotBalance.DebitKeeps` | programs/velocity/src/controller/spot_balance.rs:377-452 | a pool paid from keeps at least what it held less the amount, and cannot be overdrawn |
| `SpotBalance.CreditAdds` | programs/velocity/src/math/spot_balance.rs:23-69 | a credit adds at most the amount credited and takes nothing |
| `SpotBalance.TokensMono` | programs/velocity/src/math/spot_balance.rs:47-69 | more scaled balance or a higher index is never fewer tokens |
| `SpotBalance.CreditIs` | programs/velocity/src/math/spot_balance.rs:23-45 | a credit grows a balance by what the amount is worth, short by less than one index unit |
| `SpotBalance.DebitIs` | programs/velocity/src/controller/spot_balance.rs:377-452 | a debit lowers a balance by what the amount is worth to within one index unit, or clears it with less than one token of dust |
| `PerpMarketRuns.SweepLeavesReserve` | programs/velocity/src/controller/perp_pools.rs:85-210 | the sweep always goes through, counters fall by exactly what moved, and the pnl pool keeps the reserved claims, plus the buffer if insurance or provision was drained; which pools grow is `PerpMarketFlows.SweepMovesExactly` |
| `PerpMarketRuns.SweepKeepsBacking` | programs/velocity/src/state/perp_market.rs:1042-1075 | no sweep unbacks the floored insurance tranche, latched or not, and one that moves anything leaves it fully backed |
| `PerpMarketRuns.ResolveSplitsLoss` | programs/velocity/src/controller/liquidation.rs:4297-4541 | each tranche pays exactly its minimum, together the whole loss, none before the one above is exhausted; it fails if and only if a rest remains and nobody is left to charge; where the tokens go is `PerpMarketFlows.ResolveMovesExactly` |
| `PerpMarketRuns.ResolveKeepsBacking` | programs/velocity/src/controller/liquidation.rs:4297-4541 | a resolution keeps the remaining tranche backed |
| `PerpMarketRuns.ResolveChargesSurvivors` | programs/velocity/src/controller/liquidation.rs:4461-4527 | survivors pay the socialized part to within stated rounding and the AMM collects nothing on the bump |
| `PerpMarketRuns.DeficitDraws` | programs/velocity/src/controller/insurance.rs:759-925 | a pnl-deficit draw succeeds if and only if its six conditions hold, pays the least of excess, period cap, lifetime cap and all but one unit of the vault, and moves the books by exactly that |
| `PerpMarketRuns.RunKeepsInv` | fuzz/e2e-svm-liq/src/main.rs:1387-1397 | in every run, pnl-deficit draws included, insurance drawn stays within its lifetime maximum and deficit draws within their period's cap, the vault is never emptied, the clawback cap covers the untokenized provision, and deposits cover the pools |
| `PerpMarketRuns.RunAccountsForLosses` | fuzz/e2e-svm-liq/src/main.rs:351-373 | over every run the losses written off are, to the unit, what the four tranches paid; vault and lifetime counter moved by exactly the insurance part and the deficit draws, social loss by its part |
| `PerpMarketRuns.PeriodDrawsWithinCap` | programs/velocity/src/state/perp_market.rs:1602-1623 | within one revenue-settle period deficits draw no more than the period's cap, whatever else happens |
| `PerpMarketRuns.RunKeepsBacking` | fuzz/e2e-svm-liq/src/main.rs:1350-1385 | over every interleaving at a fixed floor without forced sweeps, fee accruals and pnl settlements included, the first-loss tranche stays backed by tokens but for the fees accrued and pnl paid out |
| `PerpMarketRuns.UnbackedExactlyWhen` | fuzz/e2e-svm-liq/src/main.rs:1350-1385 | at a fixed floor without forced sweeps a backed tranche becomes unbacked if and only if insurance fees are counted beyond the tokens there are, or a pnl settlement takes the pool below what the tranche needs |
| `PerpMarketRuns.AccrualUnbacks` | fuzz/e2e-svm-liq/src/main.rs:1350-1385 | an empty market that one unit of counted fees unbacks |
| `PerpMarketRuns.SettlementUnbacks` | fuzz/e2e-svm-liq/src/main.rs:1350-1385 | a market holding just the tranche that one unit of settled pnl unbacks |
| `PerpMarketFlows.SweepMovesExactly` | programs/velocity/src/controller/perp_pools.rs:128-195 | each drain is the least of its counter and what the pnl pool holds beyond users' positive pnl, the floored insurance tranche and the revenue share owed (and the buffer); the protocol, revenue and fee pools each grow by exactly their own drain to within one index unit, the pnl pool falls by their sum, deposits follow |
| `PerpMarketFlows.ResolveMovesExactly` | programs/velocity/src/controller/liquidation.rs:4297-4541 | what the vault and the fee pool pay arrives in the pnl pool, short by less than one index unit a transfer; untokenized provision goes first and is written off its counter; the funding bump raises the socialized part; no other pool or counter moves and deposits follow the pools |
| `PerpMarketFlows.DeficitArrives` | programs/velocity/src/controller/insurance.rs:759-925 | a deficit draw arrives in the pnl pool, short by less than one index unit, and deposits follow |
| `PerpMarketFlows.RunConservesWorth` | programs/velocity/src/controller/liquidation.rs:4344-4361 | over every run of sweeps, resolutions, deficit draws, settlements and interest, the pools and the vault are together worth what they were and what was brought in, less at most one index unit and one token a transfer, plus at most one index unit a payout |
| `PerpMarketFlows.DepositsFollowPools` | programs/velocity/src/controller/perp_pools.rs:144-195 | no instruction but a payout to users moves the quote market's deposits except by what it moves the pools |
| `MarketAccount.Account.SweepFees` | programs/velocity/src/controller/perp_pools.rs:85-210 | the sweep's field updates equal `Sweep`, pinned by `PerpMarketFlows.SweepMovesExactly`; on error nothing changed |
| `MarketAccount.Account.PayFromVault` | programs/velocity/src/controller/liquidation.rs:4325-4370 | the vault draw's field updates equal `DrawInsurance`, pinned by `PerpMarketFlows.ResolveMovesExactly` |
| `MarketAccount.Account.ClawBackProvision` | programs/velocity/src/controller/liquidation.rs:4372-4459 | the clawback's field updates equal `Clawback` |
| `MarketAccount.Account.SocializeLoss` | programs/velocity/src/controller/liquidation.rs:4461-4527 | the funding bump's field updates equal `Socialize` |
| `MarketAccount.Account.ResolveBankruptcy` | programs/velocity/src/controller/liquidation.rs:4297-4541 | the resolution's field updates equal `Resolve`, pinned by `PerpMarketFlows.ResolveMovesExactly`; on error nothing changed |
| `MarketAccount.Account.DrawForDeficit` | programs/velocity/src/controller/insurance.rs:759-925 | the draw's field updates equal `ResolveDeficit`; on error nothing changed |
| `MarketAccount.Account.Replay` | fuzz/e2e-svm-liq/src/main.rs:1350-1397 | any sequence of instructions leaves the account where the run ends, with losses accounted for and the tranche backed as the run theorems say |
| `Estate.RecoverClaims` | programs/velocity/src/controller/liquidation.rs:3786-3859 | the recovery loop computes `Recover` |
| `Estate.RecoverTakesAllItCan` | programs/velocity/src/controller/liquidation.rs:3786-3859 | the greedy pass recovers the lesser of the bound and all the pools can pay, lowers claims by exactly that, and credits at most that |
| `Estate.RecoverRow` | programs/velocity/src/controller/liquidation.rs:3786-3859 | row by row a claim falls by what its own pool pays, its insurance counter stays, and no later row is touched before it has paid all it can |
| `Estate.RecoverExhaustsPools` | programs/velocity/src/controller/liquidation.rs:3917-3950 | when the pools cannot cover the bound, all that is left of the claims is unfundable |
| `Estate.ExtinguishClaims` | programs/velocity/src/controller/liquidation.rs:3951-4016 | the forfeit loop computes `Forfeit` |
| `Estate.ForfeitIsNeutral` | programs/velocity/src/controller/liquidation.rs:3951-4016 | forfeits move claims to the insurance tranches one for one, up to the bound and everything unfundable within it |
| `Estate.ForfeitRows` | programs/velocity/src/controller/liquidation.rs:3951-4016 | row by row only what the pool cannot pay moves, from the claim to that market's own insurance counter, the pool stays, and no later row is touched before all of it has moved |
| `Estate.WindUpSplitsEstate` | programs/velocity/src/controller/liquidation.rs:4169-4287 | the loss is what deposit and recovery leave of the debt, less than one index unit per row and one token more; forfeits stay within it and the markets' books neutral; short of means the estate keeps exactly the excess of its claims over the loss; a deposit that covers the debt leaves everything alone |
| `Estate.OthersPayExactlyWhen` | programs/velocity/src/controller/liquidation.rs:4169-4287 | a loss is left for others if and only if the deposit and the credits of the recovered amounts, each rounded down by itself, are together worth less than the debt |
| `Estate.RecoveredUnitIsLost` | programs/velocity/src/controller/liquidation.rs:4169-4287 | an estate whose pool could pay its debt, yet others pay and it keeps a claim |
| `SpotBankruptcy.HaircutBounds` | programs/velocity/src/math/liquidation.rs:398-423 | the index stays at one or more; unclamped, the cut covers the loss by less than one rounding step |
| `SpotBankruptcy.HaircutLowersClaims` | fuzz/fees-if-bankruptcy/src/main.rs:135-199 | unclamped, what depositors can withdraw afterwards is at least the loss below their aggregate claim before, and below what they could withdraw before but for a unit per deposit less one, however deposits are split |
| `SpotBankruptcy.HaircutCovers` | fuzz/fees-if-bankruptcy/src/main.rs:135-199 | a cut that covers the loss lowers the aggregate claim by at least the loss |
| `SpotBankruptcy.DustHidesTheCut` | programs/velocity/src/math/liquidation.rs:398-423 | dust deposits in a market of six decimals that could withdraw nothing before the cut either |
| `SpotBankruptcy.ResolveKeepsSolvency` | programs/velocity/src/controller/liquidation.rs:4763-4842 | the tranches pay the whole borrow in order; a solvent market stays solvent to within one index unit and what the cut left uncovered, which is nothing unless the cut is clamped, the index then being one, or no deposit is worth a token |
| `SpotBankruptcy.ResolveMovesBooks` | programs/velocity/src/controller/liquidation.rs:4763-4842 | always: the revenue pool pays the lesser of the debt and what it holds, the insurance vault the lesser of the rest and all but one unit, both are charged exactly that, the insurance part arrives in the spot vault, the pool's leaves the deposits, the borrow is gone, and the index falls by the rest spread over the deposits, rounded up |
| `Curve.ExecuteKeepsCurve` | programs/velocity/src/vlp/amm/math/amm.rs:299-352 | a swap fails if and only if it takes the whole base reserve, otherwise it stays on the floored hyperbola; a seller is paid what the quote reserve gives up to within one quote unit, a buyer pays for one reserve unit more than it takes in and at most one quote unit on top |
| `Curve.PathIndependent` | fuzz/amm-pricing/src/main.rs:76-130 | after any trades the quote reserve is exactly the floored hyperbola at the base reserve, and traders together paid what it gained and a reserve unit per purchase to within one quote unit a trade |
| `Curve.ClosedLoopNeverPays` | fuzz/amm-pricing/src/main.rs:76-130 | trades that restore the base reserve take nothing out, pay something if any was a buy, and at most one reserve unit per purchase and one quote unit per trade |
| `Curve.TargetBrackets` | fuzz/amm-pricing/src/main.rs:323-411 | three nested roundings bracket the exact target from both sides |
| `Curve.TargetSeparatesPrices` | programs/velocity/src/vlp/amm/math/spread.rs:1544-1592 | up to the target the marginal price is at or above the limit, past it below but for one peg unit's rounding |
| `Curve.TargetFallsWithLimit` | fuzz/amm-pricing/src/main.rs:323-411 | a higher limit never asks for a larger base reserve |
| `Curve.SizedTradeLands` | programs/velocity/src/vlp/amm/math/spread.rs:1544-1592 | the sized trade lands the base reserve exactly on the target, if and only if it was not capped and the target is not an empty pool |
| `ConfigMerge.MergeDefaults` | apps/keeper-bots-v2/src/config.ts:325-361 | the recursive procedure with its loop over keys computes `Merge` |
| `ConfigMerge.MergeArrays` | apps/keeper-bots-v2/src/config.ts:339-355 | the loop over array indices computes `MergeItems` |
| `ConfigMerge.MergeEmptyIsIdentity` | apps/keeper-bots-v2/src/config.ts:325-361 | merging nothing over an object changes nothing |
| `ConfigMerge.MergeIsIdempotent` | apps/keeper-bots-v2/src/config.ts:325-361 | merging the same data twice is merging it once, for all trees |
| `ConfigMerge.DataWins` | apps/keeper-bots-v2/src/config.ts:325-361 | wherever the data holds a scalar the result holds it, at the same path |
| `ConfigMerge.DefaultSurvives` | apps/keeper-bots-v2/src/config.ts:325-361 | wherever the data is silent the default survives |
| `ConfigLayers.MergeAssociates` | apps/keeper-bots-v2/src/config.ts:325-361 | layering is associative over any defaults when the layers fit |
| `ConfigLayers.LayersExactlyWhen` | apps/keeper-bots-v2/src/config.ts:325-361 | for all defaults at once: two layers may be merged with each other first if and only if objects meet objects and arrays meet arrays, a scalar may lie over anything, and in arrays a null or an object does not lie over anything else |
| `ConfigLayers.ScalarBetweenObjects` | apps/keeper-bots-v2/src/config.ts:325-361 | layers that do not fit, a scalar between two objects, and defaults over which they differ |
| `ConfigAliasing.ReloadIsStable` | apps/keeper-bots-v2/src/config.ts:339-355 | for any defaults and data, merging the same data over the defaults it left behind gives the same result |
| `ConfigAliasing.FieldFixed` | apps/keeper-bots-v2/src/config.ts:325-361 | merging a value changes nothing if and only if it is already there: scalars equal, each non-null key covered, arrays no longer, a null item only over an object |
| `ConfigAliasing.DefaultsKeptExactlyWhen` | apps/keeper-bots-v2/src/config.ts:339-355 | a merge leaves the defaults as they were if and only if every array of theirs that meets an array of the data already holds it |
| `ConfigAliasing.LaterLoadsExactlyWhen` | apps/keeper-bots-v2/src/config.ts:339-355 | no later load can tell that one came before if and only if the defaults are so untouched |
| `ConfigAliasing.SecondLoadSeesFirst` | apps/keeper-bots-v2/src/config.ts:339-355 | defaults that are not untouched, and a second load that sees the first |
| `TransactionSize.CompactRoundTrip` | apps/keeper-bots-v2/src/utils.ts:1353-1355 | the compact integer encoding is read back, whatever follows it |
| `TransactionSize.CompactSizeIsLength` | apps/keeper-bots-v2/src/utils.ts:1353-1355 | the size formula is the encoded length if and only if three bytes are enough |
| `TransactionSize.SizeOfTransaction` | apps/keeper-bots-v2/src/utils.ts:1289-1351 | the loops over instructions and keys compute `Estimate` |
| `TransactionSize.EstimateIsExact` | apps/keeper-bots-v2/src/utils.ts:1289-1351 | for legacy transactions and version-0 ones without tables, in whatever order accounts are listed, the serialized bytes are the estimate and what the fee payer adds, so it is exact if and only if the payer signs some instruction |
| `TransactionSize.PayerBytesZero` | apps/keeper-bots-v2/src/utils.ts:1289-1351 | the payer adds nothing if it signs some instruction and 63 bytes or more otherwise, with tables or without |
| `TransactionSize.MissingPayerFallsShort` | apps/keeper-bots-v2/src/utils.ts:1289-1351 | an unsigned instruction paid for by a key it does not name: 96 bytes short |
| `TransactionSize.StaticPlusLookups` | apps/keeper-bots-v2/src/utils.ts:1322-1334 | static and looked-up accounts partition the distinct accounts |
| `TransactionSize.SuppliedAll` | apps/keeper-bots-v2/src/utils.ts:1322-1334 | tables drained in turn supply every wanted account they hold, once |
| `TransactionSize.EstimateWithTables` | apps/keeper-bots-v2/src/utils.ts:1336-1350 | with any tables and any fee payer the error is 32 bytes per unused table less two per further used one, the bytes of counts of 128 and more, and what the payer adds, so the estimate is exact if and only if these cancel |
| `TransactionSize.EstimateWithFewTables` | apps/keeper-bots-v2/src/utils.ts:1336-1350 | below 128 accounts and tables, the payer signing, it is exact if and only if sixteen times the unused tables is one less than the used ones |
| `TransactionSize.TwoTablesFallShort` | apps/keeper-bots-v2/src/utils.ts:1336-1350 | two tables supplying one account each to an instruction the payer signs: the estimate is two bytes short |
| `Repeg.PegIsGreatest` | deploy-scripts/init-markets.ts:605-611 | the peg chosen is the greatest that does not price above the target |
| `Repeg.RepegConverges` | deploy-scripts/init-markets.ts:589-622 | when a unit of peg is worth at most a percent, one repeg lands strictly nearer, on the same side, within tolerance, and a rerun skips |
| `Repeg.RepegAimsOnePercent` | deploy-scripts/init-markets.ts:589-622 | a repeg lands one percent from the oracle on the mark's own side, or short of that by at most what a unit of peg is worth |
| `Repeg.CrossesExactlyWhen` | deploy-scripts/init-markets.ts:589-622 | from above it crosses the oracle if and only if what flooring the peg leaves off the target exceeds one percent of the oracle in base units; from below never |
| `Repeg.SettlesExactlyWhen` | deploy-scripts/add-perp-market-devnet.ts:570-591 | a rerun skips if and only if what flooring leaves off fits between the bottom of the tolerance band and the target |
| `Repeg.NoPegReachesFurther` | deploy-scripts/init-markets.ts:605-611 | no whole peg within the target marks higher than the one chosen |
| `Repeg.CoarsePegCrosses` | deploy-scripts/init-markets.ts:589-622 | ordinary reserves and a low oracle price, where it crosses and never settles |
| `MakerSelection.MakerLiquidity` | apps/keeper-bots-v2/src/makerSelection.ts:65-75 | the reduction is the unfilled base of the orders |
| `MakerSelection.WeightNear` | apps/keeper-bots-v2/src/makerSelection.ts:57-63 | a maker's weight is its part of the liquidity in thousandths, or less than one more |
| `MakerSelection.WeightsCover` | apps/keeper-bots-v2/src/makerSelection.ts:57-63 | weights rounded up reach a whole, so no draw falls past the last maker, and push a slice back by less than one for each maker before it |
| `MakerSelection.FirstAbove` | apps/keeper-bots-v2/src/makerSelection.ts:43-52 | the scan always stops inside the list, at the slice holding the draw |
| `MakerSelection.HolderIsUnique` | apps/keeper-bots-v2/src/makerSelection.ts:43-52 | a draw falls in one maker's slice only |
| `MakerSelection.ReachableExactlyWhen` | apps/keeper-bots-v2/src/makerSelection.ts:43-52 | a maker can be drawn if and only if it has liquidity and its slice starts below a whole |
| `MakerSelection.SelectMaker` | apps/keeper-bots-v2/src/makerSelection.ts:28-55 | the maker chosen is the one whose slice holds the draw and has liquidity; without any liquidity the weights divide by zero |
| `MakerSelection.MakerMap.SelectMakers` | apps/keeper-bots-v2/src/makerSelection.ts:12-26 | up to six distinct makers with liquidity are moved out, orders untouched and the rest in order; it fails if and only if fewer makers have liquidity than would be selected |
| `MakerSelection.IdleMakerFails` | apps/keeper-bots-v2/src/makerSelection.ts:12-26 | two makers, one idle: the selection fails whatever the draws |
| `UserCache.Cache.Handle` | apps/usermap-server/src/publisher.ts:129-171 | one delivery overwrites unless something newer is stored, and touches no other key |
| `UserCache.Cache.HandleAll` | apps/usermap-server/src/publisher.ts:129-171 | deliveries handled one by one leave each key its last delivery of the greatest slot, and no other key |
| `UserCache.SerialKeepsLastOfGreatest` | apps/usermap-server/src/publisher.ts:129-171 | serial deliveries leave, for each key, the last of those with the greatest slot |
| `UserCache.LowersExactlyWhen` | apps/usermap-server/src/sync.ts:108-135 | an event lowers a stored slot if and only if it is the write of an older delivery admitted on an earlier reading, and then another store came in between |
| `UserCache.SlotNeverDecreases` | apps/usermap-server/src/sync.ts:108-135 | over any interleaving without expiry of the key and without a store to it between the read and the write of one of its own writers, whatever happens to other keys, the stored slot never goes down |
| `UserCache.RaceLowersSlot` | apps/usermap-server/src/publisher.ts:129-171 | two deliveries that both read first: the older one can stay |
| `UserCache.AdjacentIsSerial` | apps/usermap-server/src/publisher.ts:129-171 | a read and its write with nothing in between are one serial delivery |
| `PubkeyList.Chunks` | apps/usermap-server/src/sync.ts:160-168 | batches concatenate to the list, each full but the last |
| `PubkeyList.KeyList.SyncPubKeys` | apps/usermap-server/src/sync.ts:150-171 | for any starting list and new keys the batched removals and appends leave the old list cut to the new keys, in order, then the missing ones, in order |
| `PubkeyList.SyncedMembers` | apps/usermap-server/src/publisher.ts:275-294 | the list then holds exactly the new keys |
| `PubkeyList.SyncedDistinct` | apps/usermap-server/src/publisher.ts:275-294 | a list without repeats stays without repeats |
| `PubkeyList.SyncedIsStable` | apps/usermap-server/src/publisher.ts:275-294 | synchronising again with the same snapshot changes nothing |
| `PubkeyRace.RepeatsExactlyWhen` | apps/usermap-server/src/sync.ts:150-171 | with any number of synchronisations in steps, a list without repeats gets one if and only if an append puts on a key that is there, and then that key was appended since the synchronisation read |
| `PubkeyRace.RunKeepsDistinct` | apps/usermap-server/src/publisher.ts:275-294 | over every interleaving in which no key is appended by another between the read and the append of one, the list stays without repeats |
| `PubkeyRace.AloneIsSynced` | apps/usermap-server/src/sync.ts:150-171 | a synchronisation run by itself, in any batches, leaves the synchronised list |
| `PubkeyRace.RaceRepeats` | apps/usermap-server/src/publisher.ts:275-294 | two that both read before either appends put a new key on twice |
| `PubkeyRace.RepeatsStay` | apps/usermap-server/src/sync.ts:150-171 | a synchronisation with the keys the list holds removes no repeat |
| `ChannelRegistry.Server.OnSubscribe` | apps/dlob-server/src/wsConnectionManager.ts:324-328 | the handler's new state is the subscribe step's |
| `ChannelRegistry.Server.OnUnsubscribe` | apps/dlob-server/src/wsConnectionManager.ts:386-389 | the handler's new state is the unsubscribe step's |
| `ChannelRegistry.Server.OnClose` | apps/dlob-server/src/wsConnectionManager.ts:418-428 | visiting the entries in any order leaves the close step's state |
| `ChannelRegistry.Server.OnMessage` | apps/dlob-server/src/wsConnectionManager.ts:194-233 | with a single source, the slot guard's new state, and exactly the subscribed sockets that are open and below the buffered-amount limit are written to |
| `ChannelRegistry.RegistryAgrees` | apps/dlob-server/src/wsConnectionManager.ts:324-428 | in every run a socket is listed if and only if its latest action on the channel was to subscribe and it has not closed since |
| `ChannelRegistry.PassedNeverDecrease` | apps/dlob-server/src/wsConnectionManager.ts:211-217 | in every run the slots passed on for a channel never decrease |
| `ChannelRegistry.DeliveredExactlyWhen` | apps/dlob-server/src/wsConnectionManager.ts:194-233 | after any run a message reaches a socket if and only if the socket is open and below the buffered-amount limit, subscribed by its own history, and, on an orderbook channel, no later slot was passed on |
| `ChannelRegistry.EmptyEntryExactlyWhen` | apps/dlob-server/src/wsConnectionManager.ts:386-428 | an empty entry appears if and only if the only subscriber unsubscribes, and goes if and only if somebody subscribes |
| `ChannelRegistry.EmptyEntryOutlivesSocket` | apps/dlob-server/src/wsConnectionManager.ts:386-428 | unsubscribe then close leaves the entry for good |
| `FeedRegistry.Server.OnMessage` | apps/dlob-server/src/wsConnectionManager.ts:194-233 | with several sources, the selector's new state, and exactly the subscribed ready sockets if the selector passes the message on |
| `FeedRegistry.RunSplits` | apps/dlob-server/src/wsConnectionManager.ts:194-233 | in every run registry and selector each run on their own events, so their theorems carry over |
| `FeedRegistry.DeliveredExactlyWhen` | apps/dlob-server/src/wsConnectionManager.ts:194-233 | after any run a feed's message reaches a socket if and only if the socket is ready, subscribed by its own history, and, on an orderbook channel, the feed is active once the message is recorded |
| `StreamSelector.Selector.RecordMessage` | apps/dlob-server/src/core/streamSelector.ts:58-129 | field updates, the loop over standbys and the verdict equal `Record` |
| `StreamSelector.Selector.CheckHealth` | apps/dlob-server/src/core/streamSelector.ts:147-182 | both loops together equal `Check` |
| `StreamSelector.ForwardedIsActive` | apps/dlob-server/src/core/streamSelector.ts:58-129 | a message is forwarded if and only if its feed is active afterwards, and the feed changes only to a fresh one |
| `StreamSelector.CheckRestoresHealth` | apps/dlob-server/src/core/streamSelector.ts:147-182 | the check reports whether any feed is fresh, and if one is, whatever feed is active afterwards is fresh |
| `StreamSelector.LastSlotIsGreatest` | apps/dlob-server/src/core/streamSelector.ts:62-66 | after any run the slot kept for a feed is the greatest it has sent |
| `StreamSelector.FreshExactlyWhen` | apps/dlob-server/src/core/streamSelector.ts:38-47 | after any run a feed is fresh if and only if it sent a message within three seconds and a new highest slot within ten |
| `StreamHysteresis.LeadAfterStep` | apps/dlob-server/src/core/streamSelector.ts:76-126 | an event leaves a lead on record if and only if it sustains it and it starts now or was on record |
| `StreamHysteresis.LeadIsSustained` | apps/dlob-server/src/core/streamSelector.ts:76-126 | every lead on record was earned by an unbroken lead since the message that set it |
| `StreamHysteresis.SustainedIsLead` | apps/dlob-server/src/core/streamSelector.ts:76-126 | and every unbroken lead is on record, at least as old |
| `StreamHysteresis.SwitchExactlyWhen` | apps/dlob-server/src/core/streamSelector.ts:87-129 | after any run a standby takes over if and only if it is fresh and either the active feed is stale or it has led without a break for ten seconds |
| `StreamHysteresis.SwitchesAreSpaced` | apps/dlob-server/src/core/streamSelector.ts:3-10 | a healthy active feed is never left within ten seconds of the last change |
| `FeedOrder.FallsExactlyWhen` | apps/dlob-server/src/core/streamSelector.ts:58-129 | after any run a message is passed on behind a slot passed on earlier if and only if it is behind, of another feed, and its feed was made active by a health check, takes over from a stale feed, or leads over a third one; a healthy feed is never left for one behind it |
| `FeedOrder.HealthyNeverFalls` | apps/dlob-server/src/core/streamSelector.ts:58-129 | as long as the active feed is never stale, the slots passed on never decrease, however leads change it |
| `FeedOrder.FailoverFalls` | apps/dlob-server/src/core/streamSelector.ts:87-98 | a silent feed left for one that is behind it |

## Left out

- PerpMarketRuns.RunKeepsBacking: forced sweeps are not among its events, because a delisting sweep reserves nothing for the tranche.
- FundValue.RemoveRevertsExactlyWhen: the unstake instruction's other reverts, a paused operation, paused withdrawals and spot utilization, are not modelled, because they depend on state outside the fund.
- FundAccount.Account.Settle: the amount is a parameter, so the caps of a settle by time and yield are not modelled.
- TransactionSize.EstimateWithTables: counts the bytes of the lookup section instead of writing them.
- ConfigAliasing.DefaultsKeptExactlyWhen: what is written in place is modelled on values, so defaults that share one array under two keys are not captured.
- MarketAccount.Account.Replay: the account's struct is one record that the methods update field by field.
- UserCache.SlotNeverDecreases: only while the key does not expire, because an expired entry is rewritten with whatever is delivered next.
- MakerSelection.MakerMap.SelectMakers: assumes orders filled no further than their size, as the exchange keeps them, and exact weights instead of floating-point sums.
- PubkeyList.KeyList.SyncPubKeys: nothing else edits the list between the read and the last batch; PubkeyRace drops that for repeats, not for which keys are listed.
- StreamSelector.FreshExactlyWhen, StreamHysteresis.SwitchExactlyWhen: the clock never goes back, because the ages the code computes mean nothing otherwise.
- Margin valuation, liquidation of solvent accounts, order matching, fee tiers, oracle validity, spread and repeg formulas of the program.
- Overflow: checked arithmetic that reverts is not modelled, so the model does not say which inputs are large enough to revert.
- The estate steps of a spot bankruptcy that reuse the perp ones, and which accounts count as bankrupt.
- Redis subscriptions behind the channel registry, and the last-message replay on subscribe.
- Removing keys whose data expired from the published list, which is the same list removal again.
- RPC, transaction building and confirmation, logging, metrics, HTTP routes and deployment receipts.
- Other keeper bots and the SDK's order book: not part of this model.
