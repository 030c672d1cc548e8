/** What users of the system contract may rely on, over whole runs of actions. */
module RexTheorems {
  import opened Outcomes
  import opened RexState
  import opened RexActions
  import opened Arithmetic
  import opened MapSums
  import opened RexPool
  import opened RexTables
  import opened RexMaturities
  import opened RexBooks
  import opened RexSteps
  import opened RexLedger
  import opened Bandwidth
  import opened Staking
  import opened RamMarket
  import opened RexRuns
  import opened RexLocks

  // ---------- the invariant, and the checks it rules out ----------

  /** No check that the source calls impossible has failed. */
  ghost predicate Possible(r: Result<State>) {
    r.Abort? ==> !Unreachable(r.check)
  }

  lemma StepKeepsInvariant(s: State, a: Action, q0: int)
    requires Invariant(s, q0)
    ensures Invariant(Step(s, a), q0) && Possible(Apply(s, a))
    ensures a.ActSellRam? ==> Apply(s, a) != Abort(RamStakeNegative)
  {
    hide Books, LimitsOk, RefundsOk, RamOk, Apply, PriceKept, Unreachable;
    ApplyKeepsBooks(s, a);
    ApplyKeepsLimits(s, a);
    ApplyKeepsAside(s, a, q0);
    if a.ActSellRam? {
      RamTradesKeepAside(s, a, q0);
    }
  }

  /** The invariant holds in every state of every run. */
  lemma {:induction false} RunKeepsInvariant(s: State, actions: seq<Action>, q0: int)
    requires Invariant(s, q0)
    ensures Invariant(Run(s, actions), q0)
    decreases |actions|
  {
    hide Invariant, Step;
    if |actions| > 0 {
      StepKeepsInvariant(s, actions[0], q0);
      RunKeepsInvariant(Step(s, actions[0]), actions[1..], q0);
    }
  }

  /** The checks commented as impossible are: no action of any run fails one. */
  lemma ImpossibleChecksNeverFail(s0: State, q0: int, actions: seq<Action>, a: Action)
    requires Genesis(s0, q0)
    ensures Possible(Apply(Run(s0, actions), a))
    ensures a.ActSellRam? ==> Apply(Run(s0, actions), a) != Abort(RamStakeNegative)
  {
    GenesisInvariant(s0, q0);
    RunKeepsInvariant(s0, actions, q0);
    hide Genesis, Invariant, Apply;
    StepKeepsInvariant(Run(s0, actions), a, q0);
  }

  /** The pool's totals agree with each other and with the tables they summarise. */
  lemma PoolAgreesInEveryRun(s0: State, q0: int, actions: seq<Action>)
    requires Genesis(s0, q0)
    ensures var s := Run(s0, actions);
            && (s.pool.Some? ==>
                  && s.pool.value.lendable == s.pool.value.lent + s.pool.value.unlent
                  && s.pool.value.unlent >= 0 && s.pool.value.rent >= 0
                  && (s.pool.value.rex > 0 <==> s.pool.value.lendable > 0)
                  && s.pool.value.rex <= 10_000 * s.pool.value.lendable)
            && LentOf(s.pool) == Staked(s.cpuLoans) + Staked(s.netLoans)
            && RexOf(s.pool) == Sum(RexRows(s.balances))
            && (RexOf(s.pool) == 0 ==> LentOf(s.pool) == 0 && s.cpuLoans == [] && s.netLoans == [])
  {
    GenesisInvariant(s0, q0);
    RunKeepsInvariant(s0, actions, q0);
    hide Genesis, LimitsOk, RefundsOk, RamOk, Run;
    var s := Run(s0, actions);
    assert Books(s);
    if RexOf(s.pool) == 0 {
      EmptyPoolHasNoLoans(s);
    }
  }

  /** The RAM market stays solvent: it can always take back the RAM it sold. */
  lemma RamSolventInEveryRun(s0: State, q0: int, actions: seq<Action>)
    requires Genesis(s0, q0)
    ensures var ram := Run(s0, actions).ram;
            && ram.base == ram.maxSize - ram.reserved && ram.quote == q0 + ram.stake
            && ram.stake >= 0 && ram.base >= 0 && ram.reserved == Sum(RamRows(Run(s0, actions).resources))
            && ram.base * ram.quote >= q0 * ram.maxSize
  {
    GenesisInvariant(s0, q0);
    RunKeepsInvariant(s0, actions, q0);
    hide Genesis, LimitsOk, RefundsOk, Books, Run;
  }

  /** What each receiver may use is what its delegators and its open loans give it. */
  lemma LimitsAgreeInEveryRun(s0: State, q0: int, actions: seq<Action>, receiver: Name)
    requires Genesis(s0, q0)
    ensures var s := Run(s0, actions);
            && ResourcesOf(s.resources, receiver).net == Sum(NetTo(s.delegations, receiver)) + StakedTo(s.netLoans, receiver)
            && ResourcesOf(s.resources, receiver).cpu == Sum(CpuTo(s.delegations, receiver)) + StakedTo(s.cpuLoans, receiver)
  {
    GenesisInvariant(s0, q0);
    RunKeepsInvariant(s0, actions, q0);
    hide Genesis, RamOk, RefundsOk, Books, Run;
    assert Agrees(Run(s0, actions), receiver);
  }

  /** Five day buckets and savings are all a balance ever holds, and they account for all of it. */
  lemma BucketsInEveryRun(s0: State, q0: int, actions: seq<Action>, owner: Name)
    requires Genesis(s0, q0) && owner in Run(s0, actions).balances
    ensures var b := Run(s0, actions).balances[owner];
            && b.rex == b.matured + BucketTotal(b.maturities) && BucketsOk(b.maturities)
            && |b.maturities| <= 6 && |DropSavings(b).maturities| <= 5
  {
    GenesisInvariant(s0, q0);
    RunKeepsInvariant(s0, actions, q0);
    hide Genesis, RamOk, RefundsOk, LimitsOk, Run, BucketsOk, AllCovered, LoansOk, OrdersOk, LoansEndInTime, PoolBooks;
    var s := Run(s0, actions);
    assert Books(s);
    AtMostFiveDayBuckets(s.balances[owner], Maturity(s.now));
  }

  /** An open order is backed by matured REX in an existing row, all of it in the pool. */
  lemma OrdersCoveredInEveryRun(s0: State, q0: int, actions: seq<Action>, o: Order)
    requires Genesis(s0, q0) && o in Run(s0, actions).orders && o.open
    ensures var s := Run(s0, actions);
            && o.owner in s.balances
            && 0 < o.requested <= s.balances[o.owner].matured <= s.balances[o.owner].rex <= RexOf(s.pool)
  {
    GenesisInvariant(s0, q0);
    RunKeepsInvariant(s0, actions, q0);
    hide Genesis, RamOk, RefundsOk, LimitsOk, Run, Books;
    OpenOrderHasBalance(Run(s0, actions), o);
  }

  /** As long as the pool holds at most 4 * 10^14 units, no REX amount reaches 2^62. */
  lemma RexAmountsFit(s: State, owner: Name)
    requires Books(s) && owner in s.balances
    requires LendableOf(s.pool) <= 400_000_000_000_000
    ensures 0 <= s.balances[owner].rex <= RexOf(s.pool) < 0x4000_0000_0000_0000
  {
    BalanceWithinTotal(s.balances, owner, Maturity(s.now));
  }

  // ---------- the overflow in mvtosavings ----------

  ghost predicate PreparedToMove(s: State, owner: Name, rex: Int64) {
    RunRex(s, 2).Ok? && owner in RunRex(s, 2).value.balances && rex > 0
  }

  /** REX that a move into savings needs the balance to hold. */
  ghost function NeededForMove(s: State, owner: Name, rex: Int64): int
    requires PreparedToMove(s, owner, rex)
  {
    var s1 := RunRex(s, 2).value;
    rex + PendingRex(s1.orders, owner) + SavingsOf(s1.balances[owner])
  }

  /**
   * A move into savings fails its "logic error" check exactly when the REX it
   * needs exceeds the balance and the 64-bit sum of that REX hides the excess.
   */
  lemma MoveToSavingsExact(s: State, owner: Name, rex: Int64)
    requires Books(s) && PreparedToMove(s, owner, rex)
    ensures var r := MoveToSavings(s, owner, rex);
            var balance := RunRex(s, 2).value.balances[owner].rex;
            var needed := NeededForMove(s, owner, rex);
            && r != Abort(ProgrammerErrorMoveToSavings)
            && (r == Abort(LogicErrorMoveToSavings) <==> Wrap64(needed) <= balance < needed)
            && (r.Ok? <==> needed <= balance && Wrap64(needed) <= balance)
  {
    hide Books, BalanceOk, RunRex, PriceKept, MoveToSavings, MoveIntoSavings, Wrap64, PendingRex, SavingsOf, SettledOrders;
    MaintainFirst(s);
    var s1 := RunRex(s, 2).value;
    SettledOwnOrders(s1, owner);
    MoveToSavingsOutcome(s, owner, rex);
    MoveInExact(s1.balances[owner], s.now, PendingRex(s1.orders, owner), rex);
  }

  const INT64_MAX: Int64 := 0x7FFF_FFFF_FFFF_FFFF

  /** Wrapping changes a number by a multiple of 2^64 only. */
  lemma WrapExactly(x: int)
    ensures (x - Wrap64(x)) % 0x1_0000_0000_0000_0000 == 0
    ensures x == Wrap64(x) <==> -0x8000_0000_0000_0000 <= x < 0x8000_0000_0000_0000
  {
    var full := 0x1_0000_0000_0000_0000;
    DivBounds(x, full);
    var low := x % full;
    if low < 0x8000_0000_0000_0000 {
      DivUnique(x - low, full, x / full, 0);
    } else {
      DivUnique(x - low + full, full, x / full + 1, 0);
    }
  }

  /** Asking for the largest amount fails the "logic error" check whenever anything is in savings or on order. */
  lemma LargestMoveFails(s: State, owner: Name)
    requires Books(s) && PreparedToMove(s, owner, INT64_MAX)
    requires RunRex(s, 2).value.balances[owner].rex < INT64_MAX
    ensures var s1 := RunRex(s, 2).value;
            MoveToSavings(s, owner, INT64_MAX) == Abort(LogicErrorMoveToSavings)
            <==> PendingRex(s1.orders, owner) + SavingsOf(s1.balances[owner]) > 0
  {
    hide Books, RunRex, PriceKept, MoveToSavings, PendingRex, SavingsOf, BalanceOk, SellableBy, SettledOrders, Wrap64;
    MoveToSavingsExact(s, owner, INT64_MAX);
    MaintainFirst(s);
    var s1 := RunRex(s, 2).value;
    SettledOwnOrders(s1, owner);
    BalanceParts(s1.balances[owner], Maturity(s1.now));
    WrapAbove(PendingRex(s1.orders, owner) + SavingsOf(s1.balances[owner]));
  }

  lemma BalanceParts(b: RexBalance, last: nat)
    requires BalanceOk(b, last)
    ensures 0 <= SavingsOf(b) && b.matured + SavingsOf(b) <= b.rex
  {
    DropSavingsFacts(b, last, 0);
    TotalsNonNegative(DropSavings(b).maturities, 0);
  }

  lemma WrapAbove(k: int)
    requires 0 <= k <= INT64_MAX
    ensures Wrap64(INT64_MAX + k) == if k == 0 then INT64_MAX else INT64_MAX + k - 0x1_0000_0000_0000_0000
  {
  }

  /** No loans, no orders, no proceeds: maintenance has nothing to do. */
  ghost predicate Idle(s: State) {
    s.pool.Some? && s.pool.value.namebid == 0 && s.cpuLoans == [] && s.netLoans == [] && s.orders == []
  }

  lemma IdleMaintenance(s: State, max: nat)
    requires Idle(s)
    ensures RunRex(s, max) == Ok(s)
  {
  }

  lemma IdleUpdate(s: State, owner: Name)
    requires s.orders == []
    ensures UpdateRexAccount(s, owner, 0) == Ok((s, 0)) && PendingRex(s.orders, owner) == 0
  {
  }

  lemma FirstDeposit(s0: State, q0: int, owner: Name)
    requires Genesis(s0, q0) && owner != REX_ACCOUNT && Held(s0.tokens, owner) >= 1
    ensures var s1 := Step(s0, ActDeposit(owner, 1));
            s1 == s0.(tokens := s1.tokens, funds := map[owner := 1])
  {
    hide Genesis;
    assert s0.funds == map[] by { GenesisFunds(s0, q0); }
  }

  lemma GenesisFunds(s0: State, q0: int)
    requires Genesis(s0, q0)
    ensures s0.funds == map[] && s0.pool == None && s0.balances == map[]
    ensures s0.cpuLoans == [] && s0.netLoans == [] && s0.orders == []
  {
  }

  /** The first purchase of all, of REX for one unit of tokens. */
  lemma FirstPurchase(s0: State, q0: int, owner: Name)
    requires Genesis(s0, q0) && owner != REX_ACCOUNT && Held(s0.tokens, owner) >= 1
    ensures var s := Run(s0, [ActDeposit(owner, 1), ActBuyRex(owner, 1, true)]);
            && Idle(s) && owner in s.balances && s.balances[owner].rex == 10_000
            && SavingsOf(s.balances[owner]) == 0
  {
    hide Genesis, RunRex, UpdateRexAccount, Deposit;
    GenesisFunds(s0, q0);
    FirstDeposit(s0, q0, owner);
    var s1 := Step(s0, ActDeposit(owner, 1));
    var s2 := TransferFromFund(s1, owner, 1).value;
    var s3 := PurchaseRex(s2, owner, 1).value;
    IdleMaintenance(s3, 2);
    IdleUpdate(s3, owner);
    assert BuyRex(s1, owner, 1, true) == Ok(s3);
    RunOfTwo(s0, ActDeposit(owner, 1), ActBuyRex(owner, 1, true));
  }

  lemma RunOfTwo(s: State, a: Action, b: Action)
    ensures Run(s, [a, b]) == Step(Step(s, a), b)
  {
    hide Apply;
    assert [a, b][1..] == [b] && [b][1..] == [];
    assert Run(s, [a, b]) == Run(Step(s, a), [b]);
    assert Run(Step(s, a), [b]) == Run(Step(Step(s, a), b), []);
  }

  /** From any opening state, three actions of one account lead to a state where its next one fails that check. */
  lemma LogicErrorReached(s0: State, q0: int, owner: Name)
    requires Genesis(s0, q0) && owner != REX_ACCOUNT && Held(s0.tokens, owner) >= 1
    ensures var s := Step(Run(s0, [ActDeposit(owner, 1), ActBuyRex(owner, 1, true)]), ActMoveToSavings(owner, 10_000));
            Apply(s, ActMoveToSavings(owner, INT64_MAX)) == Abort(LogicErrorMoveToSavings)
  {
    hide Genesis, Books, Run, RunRex, UpdateRexAccount, MoveToSavings, MoveIntoSavings, Wrap64, PendingRex, SavingsOf,
      LimitsOk, RamOk, RefundsOk, BalanceOk, SettledOrders, PriceKept;
    GenesisInvariant(s0, q0);
    var start := [ActDeposit(owner, 1), ActBuyRex(owner, 1, true)];
    RunKeepsBooks(s0, start);
    FirstPurchase(s0, q0, owner);
    var s := Run(s0, start);
    MoveAll(s, owner);
    var s' := Step(s, ActMoveToSavings(owner, 10_000));
    IdleMaintenance(s', 2);
    IdleUpdate(s', owner);
    LargestMoveFails(s', owner);
  }

  /** Moving a whole balance into savings, when maintenance is idle. */
  lemma MoveAll(s: State, owner: Name)
    requires Books(s) && Idle(s) && owner in s.balances && s.balances[owner].rex == 10_000 && SavingsOf(s.balances[owner]) == 0
    ensures var s' := Step(s, ActMoveToSavings(owner, 10_000));
            && Books(s') && Idle(s') && owner in s'.balances && s'.balances[owner].rex == 10_000
            && SavingsOf(s'.balances[owner]) == 10_000
  {
    hide Books, RunRex, UpdateRexAccount, MoveIntoSavings, Wrap64, PendingRex, SavingsOf, BalanceOk, SettledOrders, PriceKept,
      SellableBy;
    IdleMaintenance(s, 2);
    IdleUpdate(s, owner);
    MoveToSavingsKeepsBooks(s, owner, 10_000);
    MoveToSavingsExact(s, owner, 10_000);
    SmallWrap();
    SettledOwnOrders(s, owner);
    MoveInKeepsBalance(s.balances[owner], s.now, 0, 10_000, 0);
  }

  lemma SmallWrap()
    ensures Wrap64(10_000) == 10_000
  {
  }

  /** The action succeeds or aborts as its rearrangement of the buckets does. */
  lemma MoveToSavingsOutcome(s: State, owner: Name, rex: Int64)
    requires PreparedToMove(s, owner, rex)
    ensures var s1 := RunRex(s, 2).value;
            var r := MoveToSavings(s, owner, rex);
            var moved := MoveIntoSavings(s1.balances[owner], s.now, PendingRex(s1.orders, owner), rex);
            r.Ok? == moved.Ok? && (r.Abort? ==> r.check == moved.check)
  {
    var s1 := RunRex(s, 2).value;
    hide RunRex, UpdateRexAccount, MoveIntoSavings;
    UpdateAccountFrame(s1, owner, 0);
    UpdateAccountReturns(s1, owner, 0);
  }

  lemma UpdateAccountReturns(s: State, owner: Name, proceeds: int)
    requires UpdateRexAccount(s, owner, proceeds).Ok?
    ensures UpdateRexAccount(s, owner, proceeds).value.1 == PendingRex(s.orders, owner)
  {
    hide PayIntoFund, SettledOrders, CollectedProceeds, PendingRex;
  }

  // ---------- conservation over runs ----------

  /** The account takes part in the actions of a run at most through plain transfers. */
  ghost predicate OnlyTransfersIn(account: Name, actions: seq<Action>) {
    forall a :: a in actions ==> OnlyTransfers(account, a)
  }

  /** What the plain transfers of a run pay to an account, less what they take from it. */
  ghost function PaidOver(account: Name, s: State, actions: seq<Action>): int
    decreases |actions|
  {
    if |actions| == 0 then 0
    else
      (if Apply(s, actions[0]).Ok? then PaidTo(account, actions[0]) else 0)
      + PaidOver(account, Step(s, actions[0]), actions[1..])
  }

  lemma {:induction false} RunKeepsSurplus(s: State, actions: seq<Action>)
    requires Books(s) && OnlyTransfersIn(REX_ACCOUNT, actions)
    ensures Surplus(Run(s, actions)) == Surplus(s) + PaidOver(REX_ACCOUNT, s, actions)
    decreases |actions|
  {
    hide Books, Surplus, Apply, PriceKept, OnlyTransfers, PaidTo;
    if |actions| > 0 {
      assert actions[0] in actions;
      ApplyKeepsBooks(s, actions[0]);
      if Apply(s, actions[0]).Ok? {
        ApplyKeepsSurplus(s, actions[0]);
      }
      RunKeepsSurplus(Step(s, actions[0]), actions[1..]);
    }
  }

  /** celes.rex holds what it held at the start, what transfers paid it, and exactly what it owes, token for token. */
  lemma RexTokensConserved(s0: State, q0: int, actions: seq<Action>)
    requires Genesis(s0, q0) && OnlyTransfersIn(REX_ACCOUNT, actions)
    ensures var s := Run(s0, actions);
            Held(s.tokens, REX_ACCOUNT) == Held(s0.tokens, REX_ACCOUNT) + PaidOver(REX_ACCOUNT, s0, actions)
              + Sum(s.funds) + LendableOf(s.pool) + LoanFunds(s.cpuLoans) + LoanFunds(s.netLoans) + Proceeds(s.orders)
  {
    GenesisInvariant(s0, q0);
    hide Books, Run, LimitsOk, RamOk, RefundsOk, PaidOver, OnlyTransfersIn;
    RunKeepsSurplus(s0, actions);
  }

  lemma {:induction false} RunKeepsAside(s: State, actions: seq<Action>, q0: int)
    requires AsideOk(s, q0)
    ensures OnlyTransfersIn(STAKE_ACCOUNT, actions) ==>
              StakeSurplus(Run(s, actions)) == StakeSurplus(s) + PaidOver(STAKE_ACCOUNT, s, actions)
    ensures OnlyTransfersIn(RAM_ACCOUNT, actions) ==>
              RamSurplus(Run(s, actions)) == RamSurplus(s) + PaidOver(RAM_ACCOUNT, s, actions)
    decreases |actions|
  {
    hide AsideOk, StakeSurplus, RamSurplus, Apply, OnlyTransfers, PaidTo;
    if |actions| > 0 {
      assert actions[0] in actions;
      ApplyKeepsAside(s, actions[0], q0);
      RunKeepsAside(Step(s, actions[0]), actions[1..], q0);
    }
  }

  /** Beside plain transfers, celes.stake gains the delegations and pending refunds, and celes.ram the RAM stake. */
  lemma StakeAndRamTokensConserved(s0: State, q0: int, actions: seq<Action>)
    requires Genesis(s0, q0)
    ensures var s := Run(s0, actions);
            && (OnlyTransfersIn(STAKE_ACCOUNT, actions) ==>
                  Held(s.tokens, STAKE_ACCOUNT) == Held(s0.tokens, STAKE_ACCOUNT) + PaidOver(STAKE_ACCOUNT, s0, actions)
                    + Sum(StakedTokens(s.delegations)) + Sum(RefundTokens(s.refunds)))
            && (OnlyTransfersIn(RAM_ACCOUNT, actions) ==>
                  Held(s.tokens, RAM_ACCOUNT) == Held(s0.tokens, RAM_ACCOUNT) + PaidOver(RAM_ACCOUNT, s0, actions) + s.ram.stake)
  {
    GenesisInvariant(s0, q0);
    hide Books, Run, LimitsOk, RamOk, RefundsOk, OnlyTransfersIn, PaidOver;
    RunKeepsAside(s0, actions, q0);
    assert StakedTokens(s0.delegations) == map[] && RefundTokens(s0.refunds) == map[];
  }

  // ---------- the price of REX ----------

  /** There is REX in the pool before every action of a run, and after the last. */
  ghost predicate AlwaysRex(s: State, actions: seq<Action>)
    decreases |actions|
  {
    RexOf(s.pool) > 0 && (|actions| > 0 ==> AlwaysRex(Step(s, actions[0]), actions[1..]))
  }

  lemma PriceKeptTransitive(s: State, s1: State, s2: State)
    requires RexOf(s1.pool) > 0 && PriceKept(s, s1) && PriceKept(s1, s2)
    ensures PriceKept(s, s2)
  {
    if RexOf(s.pool) > 0 {
      PriceRoseTransitive(s.pool.value, s1.pool.value, s2.pool.value);
    }
  }

  lemma {:induction false} RunKeepsPrice(s: State, actions: seq<Action>)
    requires Books(s) && AlwaysRex(s, actions)
    ensures PriceKept(s, Run(s, actions)) && RexOf(Run(s, actions).pool) > 0
    decreases |actions|
  {
    PriceRoseReflexive(s.pool.value, s.pool.value);
    hide Books, Apply, PriceRose;
    if |actions| > 0 {
      var s1 := Step(s, actions[0]);
      ApplyKeepsBooks(s, actions[0]);
      RunKeepsPrice(s1, actions[1..]);
      PriceKeptTransitive(s, s1, Run(s, actions));
    }
  }

  /** As long as there is REX, its price in tokens never falls. */
  lemma PriceNeverFalls(s0: State, q0: int, before: seq<Action>, actions: seq<Action>)
    requires Genesis(s0, q0) && AlwaysRex(Run(s0, before), actions)
    ensures var s := Run(s0, before);
            var s' := Run(s, actions);
            LendableOf(s'.pool) * RexOf(s.pool) >= LendableOf(s.pool) * RexOf(s'.pool)
  {
    GenesisInvariant(s0, q0);
    RunKeepsInvariant(s0, before, q0);
    hide Genesis, Books, LimitsOk, RamOk, RefundsOk, Run, AlwaysRex;
    assert AlwaysRex(Run(s0, before), actions);
    RunKeepsPrice(Run(s0, before), actions);
    assert RexOf(Run(s0, before).pool) > 0 by { AlwaysRexNow(Run(s0, before), actions); }
  }

  lemma AlwaysRexNow(s: State, actions: seq<Action>)
    requires AlwaysRex(s, actions)
    ensures RexOf(s.pool) > 0
  {
  }

  // ---------- maturity ----------

  /** The action leaves the REX balances alone, and does not turn the clock back. */
  ghost predicate SameBalances(s: State, r: Result<State>) {
    r.Ok? ==> r.value.balances == s.balances && r.value.now >= s.now
  }

  lemma PaymentsLeaveBalances(s: State, a: Action)
    requires a.ActAdvance? || a.ActTransfer? || a.ActDeposit? || a.ActRefund? || a.ActSetRex? || a.ActCloseNameAuction?
    ensures SameBalances(s, Apply(s, a))
  {
  }

  lemma WithdrawLeavesBalances(s: State, owner: Name, amount: int)
    ensures SameBalances(s, Withdraw(s, owner, amount))
  {
    UpdateAccountFrame(s, owner, 0);
    hide UpdateRexAccount, SettledOrders;
  }

  lemma DefundLeavesBalances(s: State, kind: Kind, from: Name, num: nat, amount: int)
    ensures SameBalances(s, DefundLoan(s, kind, from, num, amount))
  {
    hide FindLoan;
  }

  lemma LoanFundsLeaveBalances(s: State, a: Action)
    requires a.ActWithdraw? || a.ActCancelOrder? || a.ActFundLoan? || a.ActDefundLoan?
    ensures SameBalances(s, Apply(s, a))
  {
    hide Withdraw, FindLoan, FindOrder, RemoveAt;
    if a.ActWithdraw? {
      WithdrawLeavesBalances(s, a.owner, a.amount);
    } else if a.ActDefundLoan? {
      DefundLeavesBalances(s, a.kind, a.owner, a.num, a.amount);
    }
    hide DefundLoan;
  }

  lemma BandwidthLeavesBalances(s: State, source: Name, receiver: Name, dNet: int, dCpu: int, transfer: bool)
    ensures SameBalances(s, ChangeBandwidth(s, source, receiver, dNet, dCpu, transfer))
  {
    hide AddToLimits, NetRefund, WriteDelegation, SameSign;
  }

  lemma DelegateLeavesBalances(s: State, a: Action)
    requires a.ActDelegate? || a.ActUndelegate?
    ensures SameBalances(s, Apply(s, a))
  {
    hide ChangeBandwidth;
    if a.ActDelegate? {
      BandwidthLeavesBalances(s, a.owner, a.receiver, a.net, a.cpu, a.transfer);
    } else {
      BandwidthLeavesBalances(s, a.owner, a.receiver, -a.net, -a.cpu, false);
    }
  }

  lemma PayRamFeeLeavesBalances(s: State, payer: Name, fee: int)
    ensures SameBalances(s, PayRamFee(s, payer, fee))
  {
    hide RexAvailable;
  }

  lemma BuyRamLeavesBalances(s: State, a: Action)
    requires a.ActBuyRam?
    ensures SameBalances(s, Apply(s, a))
  {
    SupplyFrame(s);
    hide UpdateRamSupply, RamFee, BancorOutput, PayRamFee;
    if Apply(s, a).Ok? {
      var paid := a.amount - RamFee(a.amount);
      PayRamFeeLeavesBalances(TransferTokens(UpdateRamSupply(s), a.owner, RAM_ACCOUNT, paid).value, a.owner, RamFee(a.amount));
    }
  }

  lemma SellRamLeavesBalances(s: State, a: Action)
    requires a.ActSellRam?
    ensures SameBalances(s, Apply(s, a))
  {
    SupplyFrame(s);
    hide UpdateRamSupply, RamFee, RamProceeds, PayRamFee;
    if Apply(s, a).Ok? {
      var s0 := UpdateRamSupply(s);
      var tokens := RamProceeds(s0.ram, a.bytes);
      var s2 := TransferTokens(ReleaseRam(s0, a.owner, a.bytes).value, RAM_ACCOUNT, a.owner, tokens).value;
      PayRamFeeLeavesBalances(s2, a.owner, RamFee(tokens));
    }
  }

  lemma RamLeavesBalances(s: State, a: Action)
    requires a.ActBuyRam? || a.ActSellRam? || a.ActSetRam? || a.ActSetRamRate?
    ensures SameBalances(s, Apply(s, a))
  {
    SupplyFrame(s);
    if a.ActBuyRam? {
      BuyRamLeavesBalances(s, a);
    } else if a.ActSellRam? {
      SellRamLeavesBalances(s, a);
    }
    hide UpdateRamSupply, BuyRam, SellRam;
  }

  ghost predicate ResultKeepsLocked(s: State, r: Result<State>, time: int) {
    r.Ok? ==> KeepsLocked(s, r.value, time)
  }

  lemma SameBalancesResult(s: State, r: Result<State>, time: int)
    requires SameBalances(s, r)
    ensures ResultKeepsLocked(s, r, time)
  {
    hide KeepsLocked;
    if r.Ok? {
      SameBalancesKeepLocked(s, r.value, time);
    }
  }

  ghost predicate Rearranges(a: Action) {
    a.ActBuyRex? || a.ActUnstakeToRex? || a.ActSellRex? || a.ActRent? || a.ActUpdateRex? || a.ActRexExec? || a.ActConsolidate?
    || a.ActMoveToSavings? || a.ActMoveFromSavings? || a.ActCloseRex?
  }

  lemma RearrangingKeepsLocked(s: State, a: Action, time: int)
    requires Books(s) && Before(s.now, time) && Rearranges(a)
    ensures ResultKeepsLocked(s, Apply(s, a), time)
  {
    hide Books, Before, KeepsLocked, BuyRex, UnstakeToRex, SellRex, Rent, UpdateRex, RunRex, Consolidate, MoveToSavings,
      MoveFromSavings, CloseRex;
    if Apply(s, a).Ok? {
      match a
      case ActBuyRex(owner, amount, votes) => BuyRexKeepsLocked(s, owner, amount, votes, time);
      case ActUnstakeToRex(owner, receiver, net, cpu, votes) =>
        UnstakeToRexKeepsLocked(s, owner, receiver, net, cpu, votes, time);
      case ActSellRex(owner, rex) => SellRexKeepsLocked(s, owner, rex, time);
      case ActRent(kind, owner, receiver, payment, fund) => RentKeepsLocked(s, kind, owner, receiver, payment, fund, time);
      case ActMoveFromSavings(owner, rex) => MoveFromSavingsKeepsLocked(s, owner, rex, time);
      case ActCloseRex(owner) => CloseRexKeepsLocked(s, owner, time);
      case ActRexExec(max) => RexExecKeepsLocked(s, max, time);
      case _ => SavingsActionsKeepLocked(s, a, time);
    }
  }

  lemma RexExecKeepsLocked(s: State, max: nat, time: int)
    requires Books(s) && RunRex(s, max).Ok?
    ensures KeepsLocked(s, RunRex(s, max).value, time)
  {
    hide Books, RunRex, KeepsLocked, PriceRose;
    RunRexKeepsBooks(s, max);
    RunRexKeepsLocked(s, max, time);
  }

  lemma ApplyKeepsLocked(s: State, a: Action, time: int)
    requires Books(s) && Before(s.now, time)
    ensures ResultKeepsLocked(s, Apply(s, a), time)
  {
    hide Books, Before, Apply, SameBalances, ResultKeepsLocked;
    if Rearranges(a) {
      RearrangingKeepsLocked(s, a, time);
    } else {
      if a.ActDelegate? || a.ActUndelegate? {
        DelegateLeavesBalances(s, a);
      } else if a.ActBuyRam? || a.ActSellRam? || a.ActSetRam? || a.ActSetRamRate? {
        RamLeavesBalances(s, a);
      } else if a.ActWithdraw? || a.ActCancelOrder? || a.ActFundLoan? || a.ActDefundLoan? {
        LoanFundsLeaveBalances(s, a);
      } else {
        PaymentsLeaveBalances(s, a);
      }
      SameBalancesResult(s, Apply(s, a), time);
    }
  }

  // ---------- the clock ----------

  ghost predicate SameClock(s: State, r: Result<State>) {
    r.Ok? ==> r.value.now == s.now
  }

  lemma RunRexKeepsClock(s: State, max: nat)
    requires RunRex(s, max).Ok?
    ensures RunRex(s, max).value.now == s.now
  {
    hide ProcessLoans, ProcessOrders;
    ChannelNamebidsFrame(s);
    var s1 := ChannelNamebids(s).value;
    ProcessLoansFrame(s1, Cpu, max);
    ProcessLoansKeepsPool(s1, Cpu, max);
    var s2 := ProcessLoans(s1, Cpu, max).value;
    ProcessLoansFrame(s2, Net, max);
    ProcessOrdersFrame(ProcessLoans(s2, Net, max).value, 0, max);
  }

  lemma PurchasesKeepClock(s: State, a: Action)
    requires a.ActBuyRex? || a.ActUnstakeToRex?
    ensures SameClock(s, Apply(s, a))
  {
    hide RunRex, UpdateRexAccount, AddToPool, AcquireRex, WriteDelegation, AddToLimits;
    if Apply(s, a).Ok? {
      var payment := if a.ActBuyRex? then a.amount else a.net + a.cpu;
      var s1 := if a.ActBuyRex? then TransferFromFund(s, a.owner, payment).value else BeforePurchase(s, a);
      var s2 := PurchaseRex(s1, a.owner, payment).value;
      RunRexKeepsClock(s2, 2);
      UpdateAccountFrame(RunRex(s2, 2).value, a.owner, 0);
    }
  }

  ghost function BeforePurchase(s: State, a: Action): State
    requires a.ActUnstakeToRex? && Apply(s, a).Ok?
  {
    var w := s.delegations[(a.owner, a.receiver)];
    var left := Weights(w.net - a.net, w.cpu - a.cpu);
    var s1 := s.(delegations := WriteDelegation(s.delegations, a.owner, a.receiver, left));
    TransferTokens(UpdateResourceLimits(s1, a.receiver, -a.net, -a.cpu).value, STAKE_ACCOUNT, REX_ACCOUNT, a.net + a.cpu).value
  }

  lemma SavingsActionsKeepClock(s: State, a: Action)
    requires a.ActUpdateRex? || a.ActConsolidate? || a.ActMoveToSavings? || a.ActMoveFromSavings? || a.ActCloseRex? || a.ActRexExec?
    ensures SameClock(s, Apply(s, a))
  {
    hide RunRex, UpdateRexAccount, ProcessMaturities, ConsolidateBuckets, MoveIntoSavings, MoveOutOfSavings, HasLoanFrom;
    if Apply(s, a).Ok? {
      var max := if a.ActRexExec? then a.max else 2;
      var idle := a.ActCloseRex? && s.pool.None?;
      if !idle {
        RunRexKeepsClock(s, max);
      }
      var s1 := if idle then s else RunRex(s, max).value;
      if a.ActMoveFromSavings? {
        var b := MoveOutOfSavings(s1.balances[a.owner], s.now, a.rex).value;
        UpdateAccountFrame(s1.(balances := s1.balances[a.owner := b]), a.owner, 0);
      } else if !a.ActRexExec? {
        UpdateAccountFrame(s1, a.owner, 0);
      }
    }
  }

  lemma SalesKeepClock(s: State, from: Name, rex: int)
    ensures SameClock(s, SellRex(s, from, rex))
  {
    if SellRex(s, from, rex).Ok? {
      RunRexKeepsClock(s, 2);
      hide UpdateRexAccount, RunRex, ProcessMaturities, FillFromPool, QueueOrder;
      var s1 := RunRex(s, 2).value;
      var s2 := s1.(balances := s1.balances[from := ProcessMaturities(s1.balances[from], Seconds(s.now))]);
      var fill := FillFromPool(s2.pool.value, rex).value;
      if fill.Filled? {
        UpdateAccountFrame(DebitRex(s2.(pool := Some(fill.pool)), from, rex), from, fill.proceeds);
      } else {
        UpdateAccountFrame(s2, from, 0);
        QueueFrame(UpdateRexAccount(s2, from, 0).value.0, from, rex);
      }
    }
  }

  lemma RentKeepsClock(s: State, kind: Kind, from: Name, receiver: Name, payment: int, fund: int)
    ensures SameClock(s, Rent(s, kind, from, receiver, payment, fund))
  {
    if Rent(s, kind, from, receiver, payment, fund).Ok? {
      RunRexKeepsClock(s, 2);
      hide RunRex, AddLoan, BancorOutput, InsertLoan, ChangeLimit, LoansAvailable;
      var s2 := TransferFromFund(RunRex(s, 2).value, from, payment + fund).value;
      var rented := BancorOutput(s2.pool.value.rent, s2.pool.value.unlent, payment);
      ChangeLimitFrame(WithNewLoan(s2, kind, from, receiver, payment, fund), kind, receiver, rented);
    }
  }

  /** The clock never goes back. */
  lemma ClockAdvances(s: State, a: Action)
    ensures Step(s, a).now >= s.now
  {
    hide BuyRex, UnstakeToRex, SellRex, Rent, UpdateRex, RunRex, Consolidate, MoveToSavings, MoveFromSavings, CloseRex, Withdraw,
      CancelOrder, FundLoan, DefundLoan, DelegateBandwidth, UndelegateBandwidth, BuyRam, SellRam, SetRam, SetRamRate;
    if a.ActBuyRex? || a.ActUnstakeToRex? {
      PurchasesKeepClock(s, a);
    } else if a.ActSellRex? {
      SalesKeepClock(s, a.owner, a.rex);
    } else if a.ActRent? {
      RentKeepsClock(s, a.kind, a.owner, a.receiver, a.payment, a.fund);
    } else if Rearranges(a) {
      SavingsActionsKeepClock(s, a);
    } else if a.ActDelegate? || a.ActUndelegate? {
      DelegateLeavesBalances(s, a);
    } else if a.ActBuyRam? || a.ActSellRam? || a.ActSetRam? || a.ActSetRamRate? {
      RamLeavesBalances(s, a);
    } else if a.ActWithdraw? || a.ActCancelOrder? || a.ActFundLoan? || a.ActDefundLoan? {
      LoanFundsLeaveBalances(s, a);
    } else {
      PaymentsLeaveBalances(s, a);
    }
  }

  lemma {:induction false} ClockAdvancesInRuns(s: State, actions: seq<Action>)
    ensures Run(s, actions).now >= s.now
    decreases |actions|
  {
    hide Step;
    if |actions| > 0 {
      ClockAdvances(s, actions[0]);
      ClockAdvancesInRuns(Step(s, actions[0]), actions[1..]);
    }
  }

  // ---------- no REX is unlocked early ----------

  lemma StepKeepsLocked(s: State, a: Action, time: int)
    requires Books(s) && Before(s.now, time)
    ensures Books(Step(s, a)) && KeepsLocked(s, Step(s, a), time)
  {
    hide Books, Before, Apply, KeepsLocked, PriceKept;
    ApplyKeepsBooks(s, a);
    ApplyKeepsLocked(s, a, time);
    SameBalancesKeepLocked(s, s, time);
  }

  /**
   * Whatever an owner or anyone else does, REX that does not mature by `time`
   * is still in its owner's balance, still locked, when the clock shows `time`.
   */
  lemma {:induction false} RunKeepsLocked(s: State, actions: seq<Action>, time: int)
    requires Books(s) && time < Maturity(s.now) && Seconds(Run(s, actions).now) <= time
    ensures KeepsLocked(s, Run(s, actions), time)
    decreases |actions|
  {
    ClockAdvancesInRuns(s, actions);
    assert s.now < CLOCK_LIMIT;
    hide Books, Maturity, Step, KeepsLocked;
    if |actions| == 0 {
      SameBalancesKeepLocked(s, s, time);
    } else {
      var s1 := Step(s, actions[0]);
      StepKeepsLocked(s, actions[0], time);
      ClockAdvances(s, actions[0]);
      MaturityMonotone(s.now, s1.now);
      RunKeepsLocked(s1, actions[1..], time);
      KeepsLockedTransitive(s, s1, Run(s, actions), time);
    }
  }

  /** REX locked until after `time` stays in its owner's balance, not matured, in every run up to then. */
  lemma LockedRexStays(s: State, owner: Name, amount: int, actions: seq<Action>, time: int)
    requires Books(s) && 0 < amount <= Locked(s, owner, time)
    requires time < Maturity(s.now) && Seconds(Run(s, actions).now) <= time
    ensures var s' := Run(s, actions);
            owner in s'.balances && s'.balances[owner].rex - s'.balances[owner].matured >= amount
  {
    hide Books, Run, Locked, Maturity;
    var s' := Run(s, actions);
    RunKeepsLocked(s, actions, time);
    RunKeepsBooks(s, actions);
    LockedBounds(s', owner, time);
    assert Locked(s', owner, time) >= Locked(s, owner, time);
  }

  /** The last second that REX acquired now is locked for. */
  ghost function LockedUntil(now: nat): int {
    Maturity(now) - 1
  }

  lemma LockDate(s: State)
    requires Books(s)
    ensures Before(s.now, LockedUntil(s.now)) && LockedUntil(s.now) >= Seconds(s.now) + 345_600
    ensures 0 <= Seconds(s.now)
  {
    hide PoolBooks, LoansOk, OrdersOk, LoansEndInTime, AllCovered, BalancesOk;
    MaturityFacts(s.now);
  }

  /** REX bought stays in the buyer's balance until its maturity date, more than four days later. */
  lemma BoughtRexStays(s: State, owner: Name, amount: int, votes: bool, actions: seq<Action>)
    requires Books(s) && BuyRex(s, owner, amount, votes).Ok?
    requires Seconds(Run(BuyRex(s, owner, amount, votes).value, actions).now) <= LockedUntil(s.now)
    ensures LockedUntil(s.now) >= Seconds(s.now) + 345_600 && AddToPool(s.pool, amount).Ok?
    ensures var bought := AddToPool(s.pool, amount).value.1;
            var s' := Run(BuyRex(s, owner, amount, votes).value, actions);
            bought > 0 ==> owner in s'.balances && s'.balances[owner].rex - s'.balances[owner].matured >= bought
  {
    hide Books, BuyRex, Run, AddToPool, PriceKept, Maturity, Locked, Before;
    var s1 := BuyRex(s, owner, amount, votes).value;
    LockDate(s);
    BuyRexKeepsBooks(s, owner, amount, votes);
    PurchasesKeepClock(s, ActBuyRex(owner, amount, votes));
    BuyRexKeepsLocked(s, owner, amount, votes, LockedUntil(s.now));
    LockedBounds(s, owner, LockedUntil(s.now));
    var bought := AddToPool(s.pool, amount).value.1;
    if bought > 0 {
      LockedRexStays(s1, owner, bought, actions, LockedUntil(s.now));
    }
  }

  /** So does REX bought with staked tokens. */
  lemma UnstakedRexStays(s: State, owner: Name, receiver: Name, net: int, cpu: int, votes: bool, actions: seq<Action>)
    requires Books(s) && UnstakeToRex(s, owner, receiver, net, cpu, votes).Ok?
    requires Seconds(Run(UnstakeToRex(s, owner, receiver, net, cpu, votes).value, actions).now) <= LockedUntil(s.now)
    ensures LockedUntil(s.now) >= Seconds(s.now) + 345_600 && AddToPool(s.pool, net + cpu).Ok?
    ensures var bought := AddToPool(s.pool, net + cpu).value.1;
            var s' := Run(UnstakeToRex(s, owner, receiver, net, cpu, votes).value, actions);
            bought > 0 ==> owner in s'.balances && s'.balances[owner].rex - s'.balances[owner].matured >= bought
  {
    hide Books, UnstakeToRex, Run, AddToPool, PriceKept, Maturity, Locked, Before;
    var s1 := UnstakeToRex(s, owner, receiver, net, cpu, votes).value;
    LockDate(s);
    UnstakeToRexKeepsBooks(s, owner, receiver, net, cpu, votes);
    PurchasesKeepClock(s, ActUnstakeToRex(owner, receiver, net, cpu, votes));
    UnstakeToRexKeepsLocked(s, owner, receiver, net, cpu, votes, LockedUntil(s.now));
    LockedBounds(s, owner, LockedUntil(s.now));
    var bought := AddToPool(s.pool, net + cpu).value.1;
    if bought > 0 {
      LockedRexStays(s1, owner, bought, actions, LockedUntil(s.now));
    }
  }

  /** And so does REX moved out of savings. */
  lemma SavedRexStays(s: State, owner: Name, rex: int, actions: seq<Action>)
    requires Books(s) && MoveFromSavings(s, owner, rex).Ok?
    requires Seconds(Run(MoveFromSavings(s, owner, rex).value, actions).now) <= LockedUntil(s.now)
    ensures LockedUntil(s.now) >= Seconds(s.now) + 345_600
    ensures var s' := Run(MoveFromSavings(s, owner, rex).value, actions);
            owner in s'.balances && s'.balances[owner].rex - s'.balances[owner].matured >= rex
  {
    hide Books, MoveFromSavings, Run, PriceKept, Maturity, Locked, Before;
    var s1 := MoveFromSavings(s, owner, rex).value;
    LockDate(s);
    MoveFromSavingsKeepsBooks(s, owner, rex);
    SavingsActionsKeepClock(s, ActMoveFromSavings(owner, rex));
    MoveFromSavingsKeepsLocked(s, owner, rex, LockedUntil(s.now));
    LockedRexStays(s1, owner, rex, actions, LockedUntil(s.now));
  }

  lemma LockedBounds(s: State, owner: Name, time: int)
    requires Books(s)
    ensures 0 <= Locked(s, owner, time)
    ensures owner !in s.balances ==> Locked(s, owner, time) == 0
    ensures owner in s.balances ==> Locked(s, owner, time) <= s.balances[owner].rex - s.balances[owner].matured
  {
    hide PoolBooks, LoansOk, OrdersOk, LoansEndInTime, AllCovered;
    if owner in s.balances {
      TotalsNonNegative(s.balances[owner].maturities, time);
    }
  }

  lemma {:induction false} RunKeepsBooks(s: State, actions: seq<Action>)
    requires Books(s)
    ensures Books(Run(s, actions))
    decreases |actions|
  {
    hide Books, Apply, PriceKept;
    if |actions| > 0 {
      ApplyKeepsBooks(s, actions[0]);
      RunKeepsBooks(Step(s, actions[0]), actions[1..]);
    }
  }
}
