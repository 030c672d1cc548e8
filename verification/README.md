# Verified models of the system contract, the curve arithmetic and the hash of CELESOS

The project proves what three independent parts of the repository rely on.

1. **REX, bandwidth and RAM** (`rex.cpp`, `delegate_bandwidth.cpp`, `exchange_state.cpp`,
   `celesos.system.cpp`). `RexState` holds the tables. `RexActions` says what each action does
   to them, failed checks being `Abort`s; `Run` applies any sequence of actions, an aborted one
   changing nothing. `SystemContract` is the contract in its own form: a class whose methods change
   the tables step by step, with the loops and deques of the source, each proved to do what
   `RexActions` says. The other `Rex*` modules, `Bandwidth`, `Staking` and `RamMarket` prove
   invariants of every action, and `DoubleRounding` what the conversions' floating point can change.
   `RexPrices`, `RexEffects`, `RexLoanEffects`, `RexSales`, `RexHoldings`, `RexQueue`, `StakeEffects` and
   `RamEffects` say action by action when it succeeds and which rows it changes by how much.
   `RexTheorems`, `RexLiveness`, `RexProgress`, `RexNamebids` and `RexIsolation` state what follows
   for whole runs.
2. **Curve arithmetic** (`uECC.c`, the secp256k1 part of `curve-specific.inc`), for 32-bit words.
   `Words` gives a word array the number it stands for and models C pointers as an array and a
   position, so that operands may overlap as the C code allows. The `Vli*` modules prove the loops
   against that number, `Secp256k1` the fast reduction, `Fermat` the number theory behind
   square roots, and `EccPoint` the round trip through point compression.
3. **Hash, decoder and votes** (`sha3.c`, `abieos_numeric.hpp`, `voting.cpp`). `Fips202`
   states the standard on bits, `Keccak` its step mappings on lanes; `LaneBits` and `KeccakBits` prove the
   two the same up to the digest of every message. `Sha3Permutation` proves the in-place code equal to
   the mappings, `Sponge` and `Sha3` that chunks of any size hash as the whole message. `Base58` is the
   byte-carry decoder, `WoodVotes` the vote counters, `Schedule` the scan of the vote index.

`dafny verify dfyconfig.toml` checks everything.

## Where the code and its comments differ

- `mvtosavings` adds three 64-bit amounts before it compares them. The sum can wrap, and then the
  check commented as a logic error fails: `RexTheorems.MoveToSavingsExact` says exactly when, and
  `RexTheorems.LogicErrorReached` gives a run. The other checks commented as impossible are impossible.
- The fast reduction modulo the secp256k1 prime drops a carry when the folds leave a carry of
  exactly 1 over a low half that already reaches the prime. `Secp256k1.CarryCanBeDropped` gives two
  reduced operands. `Secp256k1.FastProductExact` says exactly when the product is right; a caller can
  rely on it unless the residue lies in a gap of 2^32 + 977 values out of about 2^256. The default
  build uses this reduction everywhere, so `EccPoint.RoundTrip` has the gap in its premise for it.
- The base-58 table has an entry for the terminating NUL, which therefore counts as digit 58.
- `hextoint64` lets letters count from 0, so `A` and `0` are the same digit; the key is still a
  function of the wood, which is all the duplicate scan needs.

## Model

| member | source | states |
|---|---|---|
| RexTheorems.PoolAgreesInEveryRun | contracts/celesos.system/src/rex.cpp:453-505 | in every state of every run: lendable = lent + unlent, lent = staked by both loan tables, total REX = the balances' REX, unlent and rent are not negative, REX is at most 10000 per lendable token, and a pool without REX has lent nothing and has no loans |
| RexTheorems.RexTokensConserved | contracts/celesos.system/src/rex.cpp:706-831 | over every run in which celes.rex takes part only in plain transfers, its token balance is the opening one, plus what those transfers paid it net, plus funds, lendable pool, loan balances and uncollected proceeds, exactly |
| RexTheorems.StakeAndRamTokensConserved | contracts/celesos.system/src/delegate_bandwidth.cpp:272-448 | over every run in which the account takes part only in plain transfers: beside the opening balance and what those paid net, celes.stake holds exactly delegations plus pending refunds, and celes.ram exactly the staked RAM tokens |
| RexTheorems.PriceNeverFalls | contracts/celesos.system/src/rex.cpp:669-703 | between any two states of a run with REX throughout, the price of REX (lendable over total REX) does not fall |
| RexTheorems.ImpossibleChecksNeverFail | contracts/celesos.system/src/rex.cpp:940-962 | no action of any run fails a check that the comments call impossible: empty lendable pool, negative unlent, division by zero, resource-limit logic error, insufficient totals, programmer error of mvtosavings, negative refunds; sellram never finds the RAM stake negative |
| RexTheorems.RamSolventInEveryRun | contracts/celesos.system/src/celesos.system.cpp:50-86 | base = size - reserved, quote = opening quote + stake, stake >= 0, reserved bytes = sum of quotas, and base * quote >= opening quote * size in every state |
| RexTheorems.LimitsAgreeInEveryRun | contracts/celesos.system/src/rex.cpp:363-411 | every receiver's net and cpu weights are the delegations to it plus its open loans |
| RexTheorems.BucketsInEveryRun | contracts/celesos.system/src/rex.cpp:855-902 | matured REX plus buckets is the balance; buckets ascend strictly, at most five of them days, with savings last |
| RexTheorems.OrdersCoveredInEveryRun | contracts/celesos.system/src/rex.cpp:591-615 | every open order asks for no more than the matured REX of an existing row, all of it in the pool, so the lookup commented as always true is |
| RexTheorems.RexAmountsFit | contracts/celesos.system/src/rex.cpp:914-921 | with at most 4 * 10^14 lendable units no REX amount reaches 2^62 |
| RexTheorems.MoveToSavingsExact | contracts/celesos.system/src/rex.cpp:261-293 | mvtosavings fails its logic-error check exactly when the 64-bit sum of the REX it needs hides an excess over the balance, succeeds exactly when neither sum exceeds it, and never fails the programmer-error check |
| RexTheorems.WrapExactly | contracts/celesos.system/src/rex.cpp:269-269 | 64-bit wrapping changes a number by a multiple of 2^64, and nothing that fits |
| RexTheorems.LargestMoveFails | contracts/celesos.system/src/rex.cpp:269-293 | asking mvtosavings for 2^63 - 1 fails its logic-error check exactly when some REX is already in savings or on order |
| RexTheorems.LogicErrorReached | contracts/celesos.system/src/rex.cpp:261-293 | from every opening state a deposit, a purchase and a move into savings by one account reach a state where its next mvtosavings fails that check |
| RexTheorems.LockedRexStays | contracts/celesos.system/src/rex.cpp:855-863 | REX locked until a date stays in its owner's balance, not matured, in every run up to that date |
| RexTheorems.UnstakedRexStays | contracts/celesos.system/src/rex.cpp:56-94 | the same for REX bought with staked tokens |
| RexTheorems.SavedRexStays | contracts/celesos.system/src/rex.cpp:295-316 | REX moved out of savings stays, not matured, until its maturity date, more than four days later, whatever anyone does |
| RexTheorems.BoughtRexStays | contracts/celesos.system/src/rex.cpp:973-1010 | REX bought is still in the buyer's balance, not matured, until the maturity date, more than four days later, whatever anyone does |
| RexTheorems.RunKeepsLocked | contracts/celesos.system/src/rex.cpp:995-1050 | no run unlocks REX (bought or moved out of savings) before its date |
| RexTheorems.RunKeepsInvariant | contracts/celesos.system/src/rex.cpp:512-617 | books, limits, refunds and RAM market stay sound over every run |
| RexTheorems.ClockAdvancesInRuns | contracts/celesos.system/src/rex.cpp:855-863 | the clock the maturity dates are computed from never goes back |
| RexLiveness.QueueClearsWithinLoanTerm | contracts/celesos.system/src/rex.cpp:512-617 | once any order has been open for 30 days, one maintenance with max at least the table sizes succeeds, closes every loan and fills every open order at the current price or better |
| RexLiveness.QueueClearsInEveryRun | contracts/celesos.system/include/celesos.system/celesos.system.hpp:889-893 | the documented promise that a queued sale is processed within 30 days, in every reachable state |
| RexNamebids.QueueAlwaysClears | contracts/celesos.system/include/celesos.system/celesos.system.hpp:889-893 | the same for every run from the opening state: bids may be paid to celes.names at any time and refunded out of what is not announced, an auction that closes has its price there, and celes.names takes part in no other action |
| RexNamebids.RunKeepsNamebids | contracts/celesos.system/src/rex.cpp:548-553 | over such a run celes.names always holds at least the announced proceeds |
| RexNamebids.RunKeepsBacked | contracts/celesos.system/src/rex.cpp:838-846 | over every run proceeds are announced only while the pool holds REX |
| RexNamebids.MaintenancePaysNamebids | contracts/celesos.system/src/rex.cpp:548-553 | maintenance first moves exactly the announced proceeds from celes.names into the lendable pool, no other account's tokens change, and nothing stays announced |
| RexNamebids.NamebidsArePaidInEveryRun | contracts/celesos.system/src/rex.cpp:817-846 | the same in every state of every run: no announcement is dropped |
| RexProgress.OneCall | contracts/celesos.system/src/rex.cpp:512-617 | one maintenance call with any max above 0 fills an overdue order at today's price or better, or leaves fewer loans and open orders than before |
| RexProgress.OverdueOrderFills | contracts/celesos.system/src/rex.cpp:512-617 | an overdue order is filled, at the price when counting starts or better, by as many calls as there are loans and open orders, each with any max above 0 (2 in every action), however the clock moves between them |
| RexProgress.SmallCallsClearTheQueue | contracts/celesos.system/include/celesos.system/celesos.system.hpp:889-893 | the same from every state that a run with paid-in auctions reaches |
| RexProgress.LoansShrink | contracts/celesos.system/src/rex.cpp:556-587 | while an order is open each call closes an expired loan |
| RexProgress.QueueShrinks | contracts/celesos.system/src/rex.cpp:588-615 | with nothing lent each call fills an order |
| RexLiveness.AllOrdersFill | contracts/celesos.system/src/rex.cpp:588-615 | with nothing lent out the order loop fills every open order, at non-decreasing prices, and leaves other balances alone |
| RexLiveness.ExpiredLoansClose | contracts/celesos.system/src/rex.cpp:556-587 | while an order is open, expired loans are closed and none is renewed |
| RexIsolation.RunKeeps | contracts/celesos.system/src/rex.cpp:787-809 | over a run in which an account does nothing, its fund and its fund plus collectable proceeds never shrink, and its balance row changes by nothing but the matured REX its own order sells |
| RexIsolation.SaleEffect | contracts/celesos.system/src/rex.cpp:96-144 | a sale takes exactly the given REX out of the owner's free REX, paid at once at the pool's price rounded down, or queued |
| RexIsolation.FillKept | contracts/celesos.system/src/rex.cpp:591-615 | filling a queued order turns promised REX into collectable proceeds of its owner and touches nobody else |
| RexRuns.GenesisInvariant | contracts/celesos.system/src/celesos.system.cpp:391-412 | the state set up by init satisfies the invariant |
| RexRuns.ApplyKeepsSurplus | contracts/celesos.system/src/rex.cpp:10-37 | each action changes the tokens on celes.rex by exactly what it changes in its claims, a plain transfer by its amount |
| RexRuns.ApplyKeepsLimits | contracts/celesos.system/src/rex.cpp:363-411 | each action keeps every limit equal to its sources and fails no check that cannot fail |
| RexRuns.ApplyKeepsAside | contracts/celesos.system/src/delegate_bandwidth.cpp:272-511 | each action keeps refunds and RAM market sound and the tokens of celes.stake and celes.ram matched |
| RexQueue.MaintenanceExactly | contracts/celesos.system/src/rex.cpp:512-617 | maintenance pays in announced proceeds, makes its passes over the CPU and then the NET loans, and leaves exactly those orders open that would break the reserve |
| RexQueue.QueueExactly | contracts/celesos.system/src/rex.cpp:588-615 | a call with max at least the number of orders leaves no open order whose sale would keep a fifth of the lent tokens (rounded down) unlent, and if it filled any, that reserve is there afterwards |
| RexQueue.FirstOrderExactly | contracts/celesos.system/src/rex.cpp:588-615 | the first open order is filled by a call exactly when, after the loans, its sale leaves that reserve |
| RexQueue.QueuePassesExactly | contracts/celesos.system/src/rex.cpp:588-615 | for every max the order loop is a sequence of passes, each filling its order for what the REX is worth or skipping it by the reserve, ended by max or by the last open order |
| RexTables.QueueByTime | contracts/celesos.system/include/celesos.system/celesos.system.hpp:598-619 | open orders are served first come, first served |
| RexLoanEffects.ExpiredLoanExactly | contracts/celesos.system/src/rex.cpp:496-553 | an expired loan is renewed exactly when no order is open, its balance covers a payment, and the payment rents more than it costs: same number, parties and payment, balance less one payment, 30 days more; otherwise it is gone and its balance is in the sender's fund |
| RexLoanEffects.ExpiredLoanInEveryRun | contracts/celesos.system/src/rex.cpp:496-553 | the same in every state of every run |
| RexLoanEffects.LoansLoopExactly | contracts/celesos.system/src/rex.cpp:556-587 | the loan loop is a sequence of such passes over the loan with the earliest date, ended by max or when no loan is expired |
| RexLoanEffects.RentExactly | contracts/celesos.system/src/rex.cpp:619-653 | renting succeeds exactly with REX in the pool, no open order, a sufficient fund and a gain, and enters one loan of 30 days with the next number at the quoted amount |
| RexLoanEffects.FundExactly | contracts/celesos.system/src/rex.cpp:706-717 | only the sender of a running loan can fund it; one balance grows by what leaves the sender's fund |
| RexLoanEffects.DefundExactly | contracts/celesos.system/src/rex.cpp:719-731 | only the sender can take back what a running loan has left; it goes to the sender's fund |
| RexSales.SellExactly | contracts/celesos.system/src/rex.cpp:96-144 | after maintenance a sale is filled at once exactly when it leaves the reserve, and otherwise queued; exactly when it is refused; which row, fund, order and pool totals change and by how much |
| RexHoldings.BuyExactly | contracts/celesos.system/src/rex.cpp:39-54 | a purchase takes the payment from the fund, issues REX at the pool's price (ten thousand per unit into an empty pool) to the buyer's row, and changes nothing else before maintenance |
| RexHoldings.BuySucceeds | contracts/celesos.system/src/rex.cpp:39-54 | a purchase is refused exactly for lack of votes or fund, when announced proceeds can be paid |
| RexHoldings.UnstakeExactly | contracts/celesos.system/src/rex.cpp:56-94 | unstaketorex takes exactly the given stake out of the owner's delegation, the receiver's limits and celes.stake, and buys REX for the owner |
| RexHoldings.UpdateExactly | contracts/celesos.system/src/rex.cpp:205-229 | updaterex lets due REX mature, collects a filled order and changes nothing else |
| RexHoldings.ConsolidateExactly | contracts/celesos.system/src/rex.cpp:250-259 | consolidate keeps holding and savings; only the REX of the open order can be sold before the new date, and all but the savings from then on |
| RexHoldings.SaveExactly | contracts/celesos.system/src/rex.cpp:261-293 | mvtosavings moves the REX that matures last into savings |
| RexHoldings.UnsaveExactly | contracts/celesos.system/src/rex.cpp:295-316 | mvfrsavings succeeds exactly within the savings; the REX can be sold from the maturity date on and not before |
| RexHoldings.DueRexSells | contracts/celesos.system/src/rex.cpp:96-144 | over every run in which the account does nothing, REX that is due by then and not on order can be sold: the sale is filled or queued, unless it is worth nothing or b1 would queue |
| RexHoldings.BoughtRexSells | contracts/celesos.system/src/rex.cpp:973-1010 | REX bought can be sold from its maturity date on, after every run in which the buyer does nothing |
| RexEffects.SettleExactly | contracts/celesos.system/src/rex.cpp:787-809 | collecting a filled order moves its proceeds to its owner's fund and leaves every other order and fund |
| RexEffects.DepositExactly | contracts/celesos.system/src/rex.cpp:10-22 | when a deposit succeeds, and whose tokens and fund it changes |
| RexEffects.WithdrawExactly | contracts/celesos.system/src/rex.cpp:24-37 | when a withdrawal succeeds, and that it pays its owner from celes.rex and the fund |
| RexEffects.CancelExactly | contracts/celesos.system/src/rex.cpp:146-153 | exactly an open order of its owner can be cancelled, and only it leaves the queue |
| RexEffects.CloseExactly | contracts/celesos.system/src/rex.cpp:318-352 | when closerex succeeds, and which rows it drops |
| RexEffects.SetRexExactly | contracts/celesos.system/src/rex.cpp:231-241 | setrex changes the total rent only |
| RexEffects.AuctionExactly | contracts/celesos.system/src/rex.cpp:838-846 | an auction that closes announces its price to a pool with REX, and changes nothing else |
| StakeEffects.DelegateExactly | contracts/celesos.system/src/delegate_bandwidth.cpp:272-486 | delegatebw succeeds exactly when the sender can pay what is due; one delegation grows, owned by the receiver with transfer and by the sender without, the receiver's limits grow, the sender's tokens leave and its own refund is used first |
| StakeEffects.UndelegateExactly | contracts/celesos.system/src/delegate_bandwidth.cpp:488-498 | undelegatebw succeeds exactly within the sender's own delegation, which shrinks into the sender's refund; no token moves |
| StakeEffects.NetRefundExactly | contracts/celesos.system/src/delegate_bandwidth.cpp:371-418 | netting per component, the request time, and that no other refund changes |
| StakeEffects.RefundExactly | contracts/celesos.system/src/delegate_bandwidth.cpp:500-511 | a refund is paid to its owner, whole, exactly when three days have passed since it was last asked for |
| StakeEffects.RunKeepsStake | contracts/celesos.system/src/delegate_bandwidth.cpp:272-348 | over every run in which an account does nothing it keeps every delegation it owns, and its refund |
| RamEffects.BuyRamExactly | contracts/celesos.system/src/delegate_bandwidth.cpp:46-102 | whose tokens, quota and market balances a RAM purchase changes and by how much, the bytes being the largest amount the market gives |
| RamEffects.SellRamExactly | contracts/celesos.system/src/delegate_bandwidth.cpp:116-166 | the same for a RAM sale: the seller is paid, less the fee |
| RamEffects.FeeExactly | contracts/celesos.system/src/delegate_bandwidth.cpp:55-62 | the fee is half a percent, rounded up |
| RamEffects.SupplyExactly | contracts/celesos.system/src/celesos.system.cpp:70-86 | growth per half-second slot, modulo 2^32 |
| RamEffects.SetRamExactly | contracts/celesos.system/src/celesos.system.cpp:50-68 | the size can only grow, below 2^50, above what is reserved |
| RamEffects.SetRateExactly | contracts/celesos.system/src/celesos.system.cpp:88-93 | the old rate is settled before the new one is set |
| RexPrices.SaleExact | contracts/celesos.system/src/rex.cpp:669-703 | a sale is filled exactly when it leaves a fifth of the lent tokens, rounded down, unlent, for what the REX is worth |
| RexPrices.PurchaseExact | contracts/celesos.system/src/rex.cpp:944-962 | a purchase issues REX at the current price, rounded down, and adds the payment to the unlent tokens |
| RexPrices.FirstPurchaseExact | contracts/celesos.system/src/rex.cpp:911-943 | a pool without REX starts over with ten thousand REX per unit and 20000.0000 of rent |
| RexPrices.BancorIsLargest | contracts/celesos.system/src/exchange_state.cpp:81-94 | a conversion pays the largest amount that does not let the product of the reserves shrink |
| RexPrices.ReturnExact | contracts/celesos.system/src/rex.cpp:476-491 | what a returned loan changes in the pool |
| RexPrices.LendExact | contracts/celesos.system/src/rex.cpp:453-469 | what a loan changes in the pool |
| RexPool.AddToPoolSound | contracts/celesos.system/src/rex.cpp:911-962 | a purchase fails neither check, keeps the totals in agreement in all three branches, adds the payment to the lendable pool and does not lower the price |
| RexPool.BuyThenSellNeverGains | contracts/celesos.system/src/rex.cpp:911-962 | selling back what was just bought never returns more than was paid |
| RexPool.FillFromPoolSound | contracts/celesos.system/src/rex.cpp:669-703 | a sale of existing REX keeps the totals, does not lower the price, and is always possible when nothing is lent; RexPrices.SaleExact says when it is possible otherwise |
| RexPool.ReleaseLoanSound | contracts/celesos.system/src/rex.cpp:476-491 | taking a loan back keeps the totals and the lendable pool |
| RexPool.AddLoanSound | contracts/celesos.system/src/rex.cpp:453-469 | a loan at the quoted price keeps the totals and raises the lendable pool by its fee |
| RexPool.BancorWithinReserve | contracts/celesos.system/src/exchange_state.cpp:81-94 | a conversion pays between nothing and the whole reserve |
| RexPool.BancorKeepsProduct | contracts/celesos.system/src/exchange_state.cpp:81-94 | a conversion never lets the product of the reserves shrink |
| DoubleRounding.WithinHalf | contracts/celesos.system/src/exchange_state.cpp:81-94 | for amounts below 2^53 and an output reserve up to 2^50, with the product, the sum and the quotient each rounded to a double, the computed quotient is within one half of the exact one |
| DoubleRounding.DoubleWithinReserve | contracts/celesos.system/src/exchange_state.cpp:81-94 | then the conversion in double pays between nothing and the whole reserve, and at most one unit more or less than the exact floor |
| DoubleRounding.DoubleKeepsProduct | contracts/celesos.system/src/exchange_state.cpp:81-94 | then the product of the reserves shrinks by at most the grown input reserve |
| RexPool.PriceRoseTransitive | contracts/celesos.system/src/rex.cpp:669-703 | rising prices compose over any number of steps |
| RexMaturities.AcquireKeepsBalance | contracts/celesos.system/src/rex.cpp:973-1010 | bought REX can be sold from the maturity date on and nothing more before it; savings stay |
| RexMaturities.ConsolidateKeepsBalance | contracts/celesos.system/src/rex.cpp:886-902 | consolidation keeps the balance and the savings, leaves exactly the REX of the open order sellable before the new date, and everything but the savings from then on |
| RexMaturities.MoveInExact | contracts/celesos.system/src/rex.cpp:261-293 | exactly when a move into savings succeeds, and exactly when its wrapped sum makes it a logic error |
| RexMaturities.MoveInKeepsBalance | contracts/celesos.system/src/rex.cpp:261-293 | a move into savings keeps the balance, still covers the open order, and takes the REX that matures last |
| RexMaturities.MoveOutKeepsBalance | contracts/celesos.system/src/rex.cpp:295-316 | a move out of savings succeeds exactly within the savings, and can be sold from the maturity date on and not before |
| RexMaturities.ProcessKeepsBalance | contracts/celesos.system/src/rex.cpp:869-878 | exactly the due REX has matured, nothing else changes |
| RexMaturities.AtMostFiveDayBuckets | contracts/celesos.system/src/rex.cpp:855-863 | at most five day buckets and savings |
| RexMaturities.MaturityFacts | contracts/celesos.system/src/rex.cpp:855-863 | the maturity date is the first day start more than four days ahead, below the savings mark |
| RexBooks.RunRexKeepsBooks | contracts/celesos.system/src/rex.cpp:512-617 | maintenance keeps the books and does not lower the price |
| RexBooks.ProcessLoansKeepsBooks | contracts/celesos.system/src/rex.cpp:556-587 | renewing and closing loans keeps totals, tables, orders and price |
| RexBooks.ProcessOrdersKeepsBooks | contracts/celesos.system/src/rex.cpp:588-615 | the order loop never divides by zero or misses a balance row, and keeps the books |
| RexBooks.SaleKeepsBooks | contracts/celesos.system/src/rex.cpp:669-703 | a sale shrinks pool and row together and keeps the price |
| RexBooks.EmptyPoolHasNoLoans | contracts/celesos.system/src/rex.cpp:936-944 | the branch that reinitialises an empty pool overwrites zeros: nothing is lent and there are no loans |
| RexBooks.OpenOrderHasBalance | contracts/celesos.system/src/rex.cpp:603-605 | an open order has a row with enough matured REX |
| RexSteps.ApplyKeepsBooks | contracts/celesos.system/src/rex.cpp:10-352 | every action keeps the books and no action lowers the price |
| RexSteps.SellRexKeepsBooks | contracts/celesos.system/src/rex.cpp:96-144 | sellrex keeps open orders covered by matured REX |
| RexSteps.RentKeepsBooks | contracts/celesos.system/src/rex.cpp:619-653 | a new loan keeps totals, table order and the 30-day bound on expirations |
| RexSteps.CloseRexKeepsBooks | contracts/celesos.system/src/rex.cpp:318-352 | closing an account drops only an empty balance and keeps orders covered |
| RexTables.InsertKeepsLoanTable | contracts/celesos.system/include/celesos.system/celesos.system.hpp:566-596 | inserting by expiration and loan number keeps the index order and distinct numbers |
| RexTables.InsertOrderFacts | contracts/celesos.system/include/celesos.system/celesos.system.hpp:598-619 | inserting by time keeps the queue order with open orders first, and its members and proceeds |
| RexTables.OpenOrdersFirst | contracts/celesos.system/src/rex.cpp:432-444 | if any order is open, the first one is |
| RexLedger.SellRexKeepsSurplus | contracts/celesos.system/src/rex.cpp:96-144 | a sale moves tokens between pool, proceeds and fund without loss |
| RexLedger.RunRexKeepsSurplus | contracts/celesos.system/src/rex.cpp:512-617 | maintenance moves tokens between claims only, apart from fees paid in |
| RexLedger.UnstakeToRexKeepsSurplus | contracts/celesos.system/src/rex.cpp:56-94 | unstaked tokens arrive in the pool they buy REX of |
| Bandwidth.SettleLimits | contracts/celesos.system/src/rex.cpp:363-411 | entering a change of one source passes every check and makes all limits agree, erasing empty rows |
| Bandwidth.ProcessLoansSucceeds | contracts/celesos.system/src/rex.cpp:556-587 | processing expired loans never fails a check |
| Bandwidth.RunRexSucceeds | contracts/celesos.system/src/rex.cpp:512-553 | maintenance fails only without a pool or when announced name proceeds cannot be paid |
| Staking.ChangeBandwidthKeepsLimits | contracts/celesos.system/src/delegate_bandwidth.cpp:272-356 | staking and unstaking keep limits equal to their sources and fail no totals check |
| Staking.ChangeBandwidthKeepsStake | contracts/celesos.system/src/delegate_bandwidth.cpp:358-437 | netting against refunds keeps celes.stake equal to delegations plus refunds, no refund negative or empty; what celes.stake stakes itself is delegated without tokens set aside, by exactly that much |
| Staking.RefundKeepsStake | contracts/celesos.system/src/delegate_bandwidth.cpp:500-511 | a refund pays out what it removes |
| Staking.RefundIsFunded | contracts/celesos.system/src/delegate_bandwidth.cpp:500-511 | a matured refund can always be paid |
| Staking.UnstakeToRexKeepsLimits | contracts/celesos.system/src/rex.cpp:65-86 | unstaking to REX lowers limit and delegation together |
| RamMarket.BuyRamKeepsRam | contracts/celesos.system/src/delegate_bandwidth.cpp:46-102 | buying RAM keeps market and quotas sound |
| RamMarket.SellRamKeepsRam | contracts/celesos.system/src/delegate_bandwidth.cpp:116-166 | selling RAM keeps them sound and never finds the stake negative |
| RamMarket.SellRamIsFunded | contracts/celesos.system/src/delegate_bandwidth.cpp:116-166 | whoever holds a quota worth more than one token can sell it |
| RamMarket.SupplyKeepsRam | contracts/celesos.system/src/celesos.system.cpp:70-86 | growth of the supply, wrapped to 32 bits, keeps the market solvent |
| RamMarket.SetRamKeepsRam | contracts/celesos.system/src/celesos.system.cpp:50-68 | raising the RAM size keeps the market solvent |
| RexLocks.SellRexKeepsLocked | contracts/celesos.system/src/rex.cpp:96-144 | a sale takes matured REX only |
| RexLocks.CloseRexKeepsLocked | contracts/celesos.system/src/rex.cpp:318-352 | a closed account had nothing locked |
| SystemContract.Contract.PushAction | contracts/celesos.system/src/rex.cpp:10-352 | the contract object steps exactly as the transition function, an aborted action leaving every table as it was |
| SystemContract.Contract.RunRex | contracts/celesos.system/src/rex.cpp:512-617 | the maintenance loops compute the maintenance function |
| SystemContract.Contract.ProcessExpiredLoan | contracts/celesos.system/src/rex.cpp:519-553 | one expired loan renewed or closed, with its resource limits |
| SystemContract.Contract.ProcessOrders | contracts/celesos.system/src/rex.cpp:588-615 | the order loop, a filled order leaving its place to the next |
| SystemContract.Contract.SellRex | contracts/celesos.system/src/rex.cpp:96-144 | sellrex step by step |
| SystemContract.Contract.AddToRexPool | contracts/celesos.system/src/rex.cpp:911-962 | purchase with its three branches and two checks |
| SystemContract.Contract.FillRexOrder | contracts/celesos.system/src/rex.cpp:669-703 | sale to the pool, or no change when tokens are out on loan |
| SystemContract.Contract.UpdateRexAccount | contracts/celesos.system/src/rex.cpp:787-809 | collects a filled order and reports an open one |
| SystemContract.Contract.AddToRexBalance | contracts/celesos.system/src/rex.cpp:973-1010 | credit to the latest maturity bucket around the savings bucket |
| SystemContract.Contract.ProcessRexMaturities | contracts/celesos.system/src/rex.cpp:869-878 | deque loop for due buckets |
| SystemContract.Contract.ConsolidateRexBalance | contracts/celesos.system/src/rex.cpp:886-902 | deque loop that merges buckets |
| SystemContract.Contract.MoveOutOfBuckets | contracts/celesos.system/src/rex.cpp:274-282 | deque loop that takes REX from the back |
| SystemContract.Contract.MoveBuckets | contracts/celesos.system/src/rex.cpp:269-293 | mvtosavings on a row, with its three checks |
| SystemContract.Contract.TakeFromSavings | contracts/celesos.system/src/rex.cpp:301-314 | mvfrsavings on a row |
| SystemContract.Contract.Rent | contracts/celesos.system/src/rex.cpp:619-653 | renting through either loan table |
| SystemContract.Contract.CloseRex | contracts/celesos.system/src/rex.cpp:318-352 | closerex with its two erasures |
| SystemContract.Contract.UnstakeToRex | contracts/celesos.system/src/rex.cpp:56-94 | unstaketorex |
| SystemContract.Contract.UpdateResourceLimits | contracts/celesos.system/src/rex.cpp:363-411 | limit row created, changed or erased |
| SystemContract.Contract.ChangeBandwidth | contracts/celesos.system/src/delegate_bandwidth.cpp:272-440 | changebw with delegation, totals, refund netting and payment |
| SystemContract.Contract.NetRefund | contracts/celesos.system/src/delegate_bandwidth.cpp:371-418 | refund created, netted or erased |
| SystemContract.Contract.RefundStake | contracts/celesos.system/src/delegate_bandwidth.cpp:500-511 | refund after three days |
| SystemContract.Contract.BuyRam | contracts/celesos.system/src/delegate_bandwidth.cpp:46-102 | buyram with its fee |
| SystemContract.Contract.ReleaseRam | contracts/celesos.system/src/delegate_bandwidth.cpp:122-147 | sellram's market and quota part |
| SystemContract.Contract.DirectConvert | contracts/celesos.system/src/exchange_state.cpp:59-79 | conversion between the connectors |
| SystemContract.Contract.UpdateRamSupply | contracts/celesos.system/src/celesos.system.cpp:70-86 | RAM growth by elapsed block slots |
| SystemContract.Contract.SetRam | contracts/celesos.system/src/celesos.system.cpp:50-68 | setram with its three checks |
| SystemContract.Contract.constructor | contracts/celesos.system/src/celesos.system.cpp:391-412 | init: the opening RAM market |
| VliBasics.Add | contracts/celes.unregd/src/ecc/uECC.c:333-348 | sum and carry as one number, for operands that may be the result |
| VliBasics.Sub | contracts/celes.unregd/src/ecc/uECC.c:352-367 | difference and borrow as one number; the borrow tells which operand is smaller |
| VliBasics.CmpUnsafe | contracts/celes.unregd/src/ecc/uECC.c:274-286 | the sign of the difference of the two numbers |
| VliBasics.Rshift1 | contracts/celes.unregd/src/ecc/uECC.c:318-328 | half of the number, rounded down |
| VliBasics.IsZero | contracts/celes.unregd/src/ecc/uECC.c:213-221 | whether the number is zero |
| VliBasics.SumWordsVal | contracts/celes.unregd/src/ecc/uECC.c:333-348 | the carry found by comparing a wrapped sum with an operand is the true carry |
| VliBasics.OrJoins | contracts/celes.unregd/src/ecc/uECC.c:325-325 | or-ing numbers without a common bit adds them |
| VliBits.NumBits | contracts/celes.unregd/src/ecc/uECC.c:244-260 | the exact length in bits |
| VliBits.TestBit | contracts/celes.unregd/src/ecc/uECC.c:224-228 | the bit of the number at that position |
| VliBits.DigitAt | contracts/celes.unregd/src/ecc/uECC.c:940-947 | bits cut out of a word are those of the whole number |
| VliMult.Muladd | contracts/celes.unregd/src/ecc/uECC.c:395-402 | adds the product to the three-word accumulator, wrapping only from a full top word |
| VliMult.AddColumn | contracts/celes.unregd/src/ecc/uECC.c:420-435 | a column's products are added without the accumulator ever overflowing |
| VliMult.ColumnsProduct | contracts/celes.unregd/src/ecc/uECC.c:411-438 | the columns at their place values add up to the product |
| VliMult.Mult | contracts/celes.unregd/src/ecc/uECC.c:411-438 | the 2n-word result is the product of the operands |
| VliSplitMult.SplitProduct | contracts/celes.unregd/src/ecc/uECC.c:374-391 | the product put together from four half-word products is exact |
| VliSplitMult.SplitMuladd | contracts/celes.unregd/src/ecc/uECC.c:374-394 | the split version adds the same product to the accumulator as the double-word one |
| VliMod.ModAdd | contracts/celes.unregd/src/ecc/uECC.c:529-540 | (left + right) mod m for reduced operands, with the carry of a full-width sum |
| VliMod.ModSub | contracts/celes.unregd/src/ecc/uECC.c:544-555 | (left - right) mod m for reduced operands |
| VliReduce.AlignModulus | contracts/celes.unregd/src/ecc/uECC.c:566-586 | the modulus shifted to the top of the double width |
| VliReduce.ShiftSubtract | contracts/celes.unregd/src/ecc/uECC.c:588-599 | shift-subtract over two alternating buffers leaves the residue |
| VliReduce.Mmod | contracts/celes.unregd/src/ecc/uECC.c:559-600 | product mod m for every double-width product and every m with a non-zero top word |
| VliReduce.ModMult | contracts/celes.unregd/src/ecc/uECC.c:603-610 | (left * right) mod m |
| VliInverse.ModInv | contracts/celes.unregd/src/ecc/uECC.c:685-728 | result * input is congruent to gcd(input, m) for every odd m > 1 and non-zero input; the result is below m; zero gives zero |
| VliInverse.Converge | contracts/celes.unregd/src/ecc/uECC.c:701-726 | the loop terminates with both numbers equal |
| VliInverse.NotBothEven | contracts/celes.unregd/src/ecc/uECC.c:702-709 | the two numbers are never both even |
| VliInverse.ModInvUpdate | contracts/celes.unregd/src/ecc/uECC.c:671-681 | half a coefficient modulo an odd number, the carry becoming the top bit |
| VliInverse.SubtractCoefficient | contracts/celes.unregd/src/ecc/uECC.c:712-716 | the addition may wrap the array; the subtraction wraps back |
| VliInverse.SubtractStep | contracts/celes.unregd/src/ecc/uECC.c:710-716 | subtracting keeps divisors and congruences |
| Divisors.HalvingKeepsDivisors | contracts/celes.unregd/src/ecc/uECC.c:703-709 | taking out a factor of two keeps common divisors with an odd number |
| Secp256k1.OmegaMult | contracts/celes.unregd/src/ecc/curve-specific.inc:1211-1224 | multiplication by 2^32 + 977 |
| Secp256k1.FoldedFacts | contracts/celes.unregd/src/ecc/curve-specific.inc:1164-1169 | two folds keep the residue and leave a carry of at most 2 |
| Secp256k1.CorrectedExactly | contracts/celes.unregd/src/ecc/curve-specific.inc:1171-1177 | the corrected result is at most the prime, and congruent to the product exactly when no carry is dropped |
| Secp256k1.FastProductExact | contracts/celes.unregd/src/ecc/uECC.c:612-624 | the fast product of any two 256-bit numbers is at most the prime, and congruent to their product exactly when no carry is dropped; a carry can only be dropped when the product modulo the prime lies in [2^32 + 977, 2 * (2^32 + 977)), and then the result is too small by exactly 2^32 + 977 |
| Secp256k1.CarryCanBeDropped | contracts/celes.unregd/src/ecc/curve-specific.inc:1171-1174 | two numbers below the prime whose fast product is wrong |
| Secp256k1.MmodFast | contracts/celes.unregd/src/ecc/curve-specific.inc:1157-1178 | the method computes the folded and corrected value, for every 512-bit product |
| Secp256k1.ModMultFast | contracts/celes.unregd/src/ecc/uECC.c:612-624 | the default build's multiplication computes the fast product, whatever operands overlap |
| Fermat.Euclid | contracts/celes.unregd/src/ecc/curve-specific.inc:117-119 | a prime that divides a product divides a factor |
| Fermat.FermatLittle | contracts/celes.unregd/src/ecc/curve-specific.inc:117-119 | a^(p-1) is 1 modulo a prime p that does not divide a |
| Fermat.PowerIsRoot | contracts/celes.unregd/src/ecc/curve-specific.inc:117-119 | with p = 3 mod 4, the power (p+1)/4 of a square is one of its roots |
| EccPoint.ModMultiply | contracts/celes.unregd/src/ecc/uECC.c:612-624 | one build or the other: the exact or the fast product |
| EccPoint.ModSqrt | contracts/celes.unregd/src/ecc/curve-specific.inc:113-129 | in both builds, the power reached by squaring and multiplying along the bits of (p + 1) / 4 |
| EccPoint.ClimbCongruent | contracts/celes.unregd/src/ecc/curve-specific.inc:122-127 | that power is a^e modulo p; with the fast reduction, if no product on the way has its residue in the gap |
| EccPoint.ExactRoot | contracts/celes.unregd/src/ecc/curve-specific.inc:113-129 | with the exact reduction it is a^((p + 1) / 4) mod p |
| EccPoint.XSide | contracts/celes.unregd/src/ecc/curve-specific.inc:1149-1153 | in both builds, the curve side from two products and a sum |
| EccPoint.CurveSideCongruent | contracts/celes.unregd/src/ecc/curve-specific.inc:1149-1153 | it is x^3 + b modulo p, with the fast reduction if neither product has its residue in the gap |
| EccPoint.RootOfPoint | contracts/celes.unregd/src/ecc/uECC.c:1092-1093 | the root computed from x is y or p - y |
| EccPoint.CompressedForm | contracts/celes.unregd/src/ecc/uECC.c:1067-1077 | the prefix is 2 for an even y and 3 for an odd one, followed by the bytes of x |
| EccPoint.DecompressedForm | contracts/celes.unregd/src/ecc/uECC.c:1080-1104 | for every input: x is kept, y is the computed root or its opposite, with the low bit of the prefix |
| EccPoint.Compress | contracts/celes.unregd/src/ecc/uECC.c:1067-1077 | x and the parity of y |
| EccPoint.Decompress | contracts/celes.unregd/src/ecc/uECC.c:1080-1104 | in both builds, the bytes of the specification function |
| EccPoint.RoundTrip | contracts/celes.unregd/src/ecc/uECC.c:1067-1104 | decompressing a compressed point returns it, for every point with reduced coordinates over a prime field with p = 3 mod 4; in the fast build, for every point none of whose products falls in the gap |
| Bytes.NativeToBytes | contracts/celes.unregd/src/ecc/uECC.c:940-947 | the big-endian bytes of the number |
| Bytes.BytesToNative | contracts/celes.unregd/src/ecc/uECC.c:949-959 | the number of the big-endian bytes |
| Bytes.BytesOfValue | contracts/celes.unregd/src/ecc/uECC.c:940-959 | the two conversions are inverse |
| Keccak.OffsetsFollowWalk | contracts/celes.unregd/src/sha3/sha3.c:155-178 | the rotation table is the one of the walk of FIPS 202, section 3.2.2 |
| Keccak.ConstantsFollowRegister | contracts/celes.unregd/src/sha3/sha3.c:28-36 | the round constants are those of the feedback register of section 3.2.5 |
| Sha3Permutation.ThetaOnArray | contracts/celes.unregd/src/sha3/sha3.c:85-97 | in-place theta is the mapping of section 3.2.1 |
| Sha3Permutation.RhoOnArray | contracts/celes.unregd/src/sha3/sha3.c:155-178 | the 24 rotations are rho, section 3.2.2 |
| Sha3Permutation.PiOnArray | contracts/celes.unregd/src/sha3/sha3.c:100-128 | the cycle of moves is pi, section 3.2.3 |
| Sha3Permutation.ChiOnArray | contracts/celes.unregd/src/sha3/sha3.c:130-147 | the in-place plane steps are chi, section 3.2.4 |
| Sha3Permutation.PermuteOnArray | contracts/celes.unregd/src/sha3/sha3.c:149-186 | 24 rounds of the five mappings |
| Sha3Permutation.PiNext | contracts/celes.unregd/src/sha3/sha3.c:100-128 | each move of the cycle puts one more lane where pi puts it |
| Sponge.PaddingIsPad101 | contracts/celes.unregd/src/sha3/sha3.c:326-330 | the padding bytes are pad10*1, section 5.1, without suffix bits |
| Sponge.AbsorbMore | contracts/celes.unregd/src/sha3/sha3.c:251-287 | absorbing in two pieces is absorbing at once, given the tail of the first |
| Sponge.LastBlock | contracts/celes.unregd/src/sha3/sha3.c:321-336 | the padded tail is the last block of the sponge |
| Sha3.ProcessBlock | contracts/celes.unregd/src/sha3/sha3.c:195-238 | on the bits of the state array: the block's bits are added and KECCAK-f[1600] is applied |
| LaneBits.RotlBit | contracts/celes.unregd/src/sha3/sha3.c:155-178 | a rotation by n takes every bit of a lane n positions up |
| LaneBits.ByteBit | contracts/celes.unregd/src/sha3/sha3.c:195-238 | bit z of a lane is bit z mod 8 of its byte z / 8 (FIPS 202, appendix B.1) |
| LaneBits.LoadThenStore | contracts/celes.unregd/src/sha3/sha3.c:195-238 | a lane loaded from eight bytes stores as these bytes in this order |
| KeccakBits.ThetaRefines | contracts/celes.unregd/src/sha3/sha3.c:85-97 | theta on lanes is theta on bits, FIPS 202 section 3.2.1 |
| KeccakBits.RhoRefines | contracts/celes.unregd/src/sha3/sha3.c:155-178 | rho on lanes is rho on bits, section 3.2.2, with the offsets of the walk |
| KeccakBits.PiRefines | contracts/celes.unregd/src/sha3/sha3.c:100-128 | pi on lanes is pi on bits, section 3.2.3 |
| KeccakBits.ChiRefines | contracts/celes.unregd/src/sha3/sha3.c:130-147 | chi on lanes is chi on bits, section 3.2.4 |
| KeccakBits.IotaRefines | contracts/celes.unregd/src/sha3/sha3.c:28-36 | iota on lanes is iota on bits, section 3.2.5, with the register of algorithm 5 |
| KeccakBits.PermuteRefines | contracts/celes.unregd/src/sha3/sha3.c:149-186 | the permutation of the lanes is KECCAK-f[1600] on the state array |
| KeccakBits.PaddingRefines | contracts/celes.unregd/src/sha3/sha3.c:326-330 | the padding bytes are the bits of pad10*1, section 5.1 |
| KeccakBits.HashIsKeccak | contracts/celes.unregd/src/sha3/sha3.c:321-338 | for every message the bits of the digest are KECCAK[2d](message bits, d) of FIPS 202, sections 4 and 5 |
| Sha3.Context.Update | contracts/celes.unregd/src/sha3/sha3.c:251-287 | a context has taken in the message and the chunk, whatever the chunk size and alignment; a finished one ignores it |
| Sha3.Context.KeccakFinal | contracts/celes.unregd/src/sha3/sha3.c:321-338 | the digest of everything taken in; asking again gives it again |
| Sha3.HashChunks | contracts/celes.unregd/src/celes.unregd.cpp:144-149 | for every message and every split into chunks, the digest of the whole message, which bit for bit is KECCAK[2d] of FIPS 202 |
| Base58.GetBase58Map | contracts/celes.unregd/src/abieos_numeric.hpp:19-27 | digits of the alphabet, -1 elsewhere |
| Base58.DigitOfChar | contracts/celes.unregd/src/abieos_numeric.hpp:19-27 | every character is the digit of its position, and NUL is digit 58 |
| Base58.TimesBase | contracts/celes.unregd/src/abieos_numeric.hpp:35-39 | the byte-carry loop multiplies by 58 and adds a digit |
| Base58.Base58ToBinary | contracts/celes.unregd/src/abieos_numeric.hpp:30-44 | decodes exactly the strings of digits whose value fits the size, to that value big-endian, and reports a bad digit exactly when one follows a prefix that fits |
| WoodVotes.KeyInjective | contracts/celesos.system/include/celesos.system/celesos.system.hpp:348-350 | the key of a producer and a block identifies both |
| WoodVotes.Votes.UpdateVote | contracts/celesos.system/src/voting.cpp:242-337 | counts a vote exactly when it is allowed and new, records it, adds one to its row and to one producer's unpaid votes and to nobody else's, keeps every counter the sum of its rows, and removes at most five old rows and burns, fewer only when none is left before the window |
| WoodVotes.CountedOnceInWindow | contracts/celesos.system/src/voting.cpp:218-240 | over every sequence of votes a wood, block and owner are counted again only after the block has left the window |
| WoodVotes.Votes.CountVote | contracts/celesos.system/src/voting.cpp:288-309 | one more vote in the row of producer and block, no other row changed, one row per key |
| WoodVotes.Votes.CleanStats | contracts/celesos.system/src/voting.cpp:374-416 | removes the oldest rows below the window, up to the limit, and takes exactly their votes off the counters |
| WoodVotes.Votes.IsNewBurn | contracts/celesos.system/src/voting.cpp:218-240 | the scan of the rows with the key of the wood decides whether the same burn is recorded anywhere |
| WoodVotes.Votes.CleanBurns | contracts/celesos.system/src/voting.cpp:504-535 | removes the oldest burns below the window, up to the limit, and fewer only when none is left |
| WoodVotes.InsertFacts | contracts/celesos.system/src/voting.cpp:300-308 | a new row adds its votes to one producer and block |
| Schedule.TopProducers | contracts/celesos.system/src/voting.cpp:133-140 | the scan yields the leaders: eligible, at most six, every other eligible producer behind a full set of them |
| Schedule.Elections.UpdateElected | contracts/celesos.system/src/voting.cpp:124-179 | a schedule is proposed exactly when six producers are eligible, holding those six by name; the network activates with the first full round |
| Schedule.SortByNameFacts | contracts/celesos.system/src/voting.cpp:163-163 | sorting keeps the candidates and orders their names |
| WoodVotes.KeyRangeFacts | contracts/celesos.system/src/voting.cpp:222-226 | the range of a key holds exactly the burns whose wood has it |
| WoodKeys.HexToInt64 | contracts/celesos.system/include/celesos.system/celesos.system.hpp:308-323 | the base-16 value, modulo 2^64, of the characters before the first NUL, letters counting from 0 |
| WoodKeys.DigitValues | contracts/celesos.system/include/celesos.system/celesos.system.hpp:312-321 | digits have their value, letters count from 0, other characters are 0 |
| WoodKeys.LastSixteen | contracts/celesos.system/include/celesos.system/celesos.system.hpp:299-306 | only the last 16 characters matter |
| WoodKeys.KeyIsValue | contracts/celesos.system/include/celesos.system/celesos.system.hpp:299-323 | without NUL the key is the value of the whole string modulo 2^64 |
| WoodKeys.WoodKey | contracts/celesos.system/include/celesos.system/celesos.system.hpp:299-306 | the key of the last 16 characters |

## Left out

- REX and RAM amounts are unbounded integers, except the sum in mvtosavings (64 bits) and the RAM growth (32 bits); `RexTheorems.RexAmountsFit` gives the bound under which REX amounts fit.
- Floating point: in the actions `get_bancor_output` is the exact floor of its formula; what its rounding in `double` can change is stated in `DoubleRounding`, for amounts below 2^53, which are doubles themselves; `get_bancor_input`, `buyrambytes` and the `convert` family, which no other modelled action calls, are not modelled.
- `ramattenuator` depends on a chain intrinsic and on `convert`; it is taken to do nothing.
- Authorisation, symbols of assets, memos, RAM payers, deferred refund transactions and calls into the chain's resource limits.
- Token transfers happen where they are sent; the chain runs them when the action ends, which changes at most which of several failing checks is reported.
- The voting requirement for buying REX is a parameter of the action (`votes`), as are proxy rights and the acceptance of a wood by the chain in a vote.
- Vote stakes in REX rows and orders, whose effect on voting power is commented out in the source.
- RexPool.BancorWithinReserve: is about the exact floor of the formula; `DoubleRounding.DoubleWithinReserve` says the same of the result in `double`.
- RexPool.BancorKeepsProduct: is about the exact floor of the formula; in `double` the product may shrink as far as `DoubleRounding.DoubleKeepsProduct` says, so RAM solvency holds up to that.
- SystemContract.Contract.DirectConvert: converts by the exact floor of the formula, at most one unit from the result in `double`.
- Name auctions, except that closing one announces its price to the pool; that its price has been collected by then is a premise (`RexNamebids.AuctionsCollect`).
- RexNamebids.QueueAlwaysClears: takes from the name auctions, which are not modelled, that closing one has collected its price and that only unannounced tokens are refunded.
- Rows of user resources created with zero weights by the account creation hook.
- Time runs below the year 2106, before which every maturity date stays below the savings mark of 2^32 - 1 seconds.
- Row ids and creation times of tables are kept only where an index or a lookup uses them; loan tables and the order queue are sequences in index order.
- EccPoint.RoundTrip: for the fast build the premise that no product falls in the gap is sufficient; whether any curve point violates it is open.
- EccPoint.Curve stands for one curve and one build; the fast reductions of the other curves are not modelled.
- 8-bit and 64-bit words of micro-ecc, except the split-limb muladd; the other curves, the Montgomery ladder, ECDSA, random numbers, side channels.
- VliReduce.Mmod: requires the top word of the modulus to be non-zero, which the source needs to stay inside its buffer and every curve satisfies.
- Base58.Base58ToBinary: covers characters below 128; others index outside the table in the source.
- RexProgress.OverdueOrderFills: counts calls of rexexec; the maintenance inside other actions does the same work between them, but those actions may queue or cancel orders.
- The counters of total woods, statistics per block, difficulty (`calc_diff`), rewards and the proposal of the schedule to the chain.
- 32-bit wrap-around of vote statistics and of block-number differences, which the source guards.
- Streams longer than the 32-bit size_t of the target.
- celesos.msig, celes.token beyond a ledger of balances, bidname, claimrewards, celesos.bios, celesos.wrap and the tests: easy, external or float-driven.
