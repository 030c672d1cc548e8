/** What each action does to an account's REX: how much it holds, what is in savings, and when the rest can be sold. */
module RexHoldings {
  import opened Outcomes
  import opened RexState
  import opened RexActions
  import opened MapSums
  import opened RexPool
  import opened RexPrices
  import opened RexTables
  import opened RexMaturities
  import opened RexBooks
  import opened RexSteps
  import opened Bandwidth
  import opened RexTheorems
  import opened RexIsolation
  import opened RexEffects
  import opened RexSales
  import opened Staking
  import opened StakeEffects

  // ---------- rows ----------

  /** One row has been replaced, the account's filled order collected, and nothing else done. */
  ghost predicate RowReplaced(s: State, s': State, owner: Name) {
    && s' == s.(balances := s'.balances, funds := s'.funds, orders := s'.orders)
    && s'.balances.Keys == s.balances.Keys && owner in s'.balances
    && (forall u :: u in s.balances && u != owner ==> s'.balances[u] == s.balances[u])
    && FundChanges(s, s', owner, Collectable(s.orders, owner)) && OrdersSettled(s.orders, s'.orders, owner)
  }

  /** Consolidated: only the REX of the open order can be sold before the new date, all but the savings from then on. */
  ghost predicate RowConsolidated(b: RexBalance, b': RexBalance, now: nat, inOrder: int) {
    && b'.rex == b.rex && SavingsOf(b') == SavingsOf(b)
    && (forall t :: t < Maturity(now) ==> SellableBy(b', t) == inOrder)
    && forall t :: Maturity(now) <= t < END_OF_DAYS ==> SellableBy(b', t) == b.rex - SavingsOf(b)
  }

  /** More REX that can be sold from the maturity date on. */
  ghost predicate RowGains(b: RexBalance, b': RexBalance, now: nat, rex: int) {
    && (forall t :: Seconds(now) <= t < Maturity(now) ==> SellableBy(b', t) == SellableBy(b, t))
    && forall t :: Maturity(now) <= t < END_OF_DAYS ==> SellableBy(b', t) == SellableBy(b, t) + rex
  }

  /** REX moved into savings: the latest to mature goes first. */
  ghost predicate RowSaves(b: RexBalance, b': RexBalance, now: nat, rex: int) {
    && b'.rex == b.rex && SavingsOf(b') == SavingsOf(b) + rex
    && forall t :: Seconds(now) <= t < END_OF_DAYS ==> SellableBy(b', t) == Min(SellableBy(b, t), b.rex - SavingsOf(b) - rex)
  }

  lemma ConsolidatedRow(b: RexBalance, now: nat, inOrder: int)
    requires BalanceOk(b, Maturity(now)) && now < CLOCK_LIMIT && 0 <= inOrder <= b.matured
    ensures RowConsolidated(b, ConsolidateBuckets(b, now, inOrder), now, inOrder)
  {
    hide BalanceOk, SellableBy, ConsolidateBuckets, SavingsOf, Maturity;
    forall t: int {
      ConsolidateKeepsBalance(b, now, inOrder, t);
    }
    ConsolidateKeepsBalance(b, now, inOrder, 0);
  }

  lemma AcquiredRow(b: RexBalance, now: nat, rex: int)
    requires BalanceOk(b, Maturity(now)) && now < CLOCK_LIMIT && rex >= 0
    ensures var b' := AcquireRex(b.(rex := b.rex + rex), now, rex);
            b'.rex == b.rex + rex && SavingsOf(b') == SavingsOf(b) && RowGains(b, b', now, rex)
  {
    hide BalanceOk, SellableBy, AcquireRex, SavingsOf, Maturity;
    forall t: int {
      AcquireKeepsBalance(b, now, rex, t);
    }
    AcquireKeepsBalance(b, now, rex, 0);
  }

  lemma UnsavedRow(b: RexBalance, now: nat, rex: int)
    requires BalanceOk(b, Maturity(now)) && now < CLOCK_LIMIT && rex > 0 && MoveOutOfSavings(b, now, rex).Ok?
    ensures var b' := MoveOutOfSavings(b, now, rex).value;
            b'.rex == b.rex && SavingsOf(b') == SavingsOf(b) - rex && RowGains(b, b', now, rex)
  {
    hide BalanceOk, SellableBy, MoveOutOfSavings, SavingsOf, Maturity;
    forall t: int {
      MoveOutKeepsBalance(b, now, rex, t);
    }
    MoveOutKeepsBalance(b, now, rex, 0);
  }

  lemma SavedRow(b: RexBalance, now: nat, inOrder: int, rex: Int64)
    requires BalanceOk(b, Maturity(now)) && now < CLOCK_LIMIT && rex > 0 && 0 <= inOrder <= b.matured
    requires MoveIntoSavings(b, now, inOrder, rex).Ok?
    ensures RowSaves(b, MoveIntoSavings(b, now, inOrder, rex).value, now, rex)
  {
    hide BalanceOk, SellableBy, MoveIntoSavings, SavingsOf, Maturity;
    forall t: int {
      MoveInKeepsBalance(b, now, inOrder, rex, t);
    }
    MoveInKeepsBalance(b, now, inOrder, rex, 0);
  }

  // ---------- rearranging a row ----------

  lemma ReplacedRows(s: State, s1: State, s': State, owner: Name, b: RexBalance)
    requires owner in s.balances && Settles(s, s1, owner, 0) && s' == s1.(balances := s.balances[owner := b])
    ensures RowReplaced(s, s', owner)
  {
    hide Collectable, OrdersSettled;
  }

  /** Settling an account, then replacing its row. */
  lemma ReplaceExactly(s: State, owner: Name, b: RexBalance)
    requires OrdersOk(s.orders, s.now) && owner in s.balances
    ensures UpdateRexAccount(s, owner, 0).Ok? && UpdateRexAccount(s, owner, 0).value.1 == Requested(s.orders, owner)
    ensures var s1 := UpdateRexAccount(s, owner, 0).value.0;
            s1.balances == s.balances && RowReplaced(s, s1.(balances := s1.balances[owner := b]), owner)
  {
    hide UpdateRexAccount, Requested, OrdersOk, RowReplaced, FundChanges, OrdersSettled;
    SettleExactly(s, owner, 0);
    var s1 := UpdateRexAccount(s, owner, 0).value.0;
    ReplacedRows(s, s1, s1.(balances := s1.balances[owner := b]), owner, b);
  }

  /** Replacing a row, then settling its account. */
  lemma SettleReplaced(s: State, owner: Name, b: RexBalance)
    requires OrdersOk(s.orders, s.now) && owner in s.balances
    ensures var s2 := s.(balances := s.balances[owner := b]);
            && UpdateRexAccount(s2, owner, 0).Ok? && RowReplaced(s, UpdateRexAccount(s2, owner, 0).value.0, owner)
            && UpdateRexAccount(s2, owner, 0).value.0.balances == s2.balances
  {
    hide UpdateRexAccount, Requested, OrdersOk, RowReplaced, OrdersSettled, Collectable;
    var s2 := s.(balances := s.balances[owner := b]);
    SettleExactly(s2, owner, 0);
    var s' := UpdateRexAccount(s2, owner, 0).value.0;
    ReplacedRows(s, s'.(balances := s.balances), s', owner, b);
  }

  lemma OwnRequest(s: State, owner: Name)
    requires Books(s) && owner in s.balances
    ensures BalanceOk(s.balances[owner], Maturity(s.now)) && s.now < CLOCK_LIMIT
    ensures 0 <= Requested(s.orders, owner) <= s.balances[owner].matured
  {
    hide Requested;
    SettledOwnOrders(s, owner);
    BooksHaveOrders(s);
    LookupSums(s.orders, owner);
  }

  /** updaterex: due REX matures, and a filled order is collected. */
  lemma UpdateExactly(s: State, owner: Name)
    requires Books(s)
    ensures UpdateRex(s, owner).Ok? <==> RunRex(s, 2).Ok? && owner in RunRex(s, 2).value.balances
    ensures UpdateRex(s, owner).Ok? ==>
              var s1, s' := RunRex(s, 2).value, UpdateRex(s, owner).value;
              RowReplaced(s1, s', owner) && RowSells(s1.balances[owner], s'.balances[owner], Seconds(s.now), 0)
  {
    hide Books, PriceKept, RunRex, UpdateRexAccount, ProcessMaturities, RowReplaced, RowSells, BalanceOk;
    if RunRex(s, 2).Ok? && owner in RunRex(s, 2).value.balances {
      MaintainFirst(s);
      var s1 := RunRex(s, 2).value;
      BooksHaveOrders(s1);
      OwnRequest(s1, owner);
      ReplaceExactly(s1, owner, ProcessMaturities(s1.balances[owner], Seconds(s.now)));
      ProcessedRow(s1.balances[owner], s.now);
    }
  }

  /** consolidate: all REX outside savings and the open order gets one maturity date. */
  lemma ConsolidateExactly(s: State, owner: Name)
    requires Books(s)
    ensures Consolidate(s, owner).Ok? <==> RunRex(s, 2).Ok? && owner in RunRex(s, 2).value.balances
    ensures Consolidate(s, owner).Ok? ==>
              var s1, s' := RunRex(s, 2).value, Consolidate(s, owner).value;
              && RowReplaced(s1, s', owner)
              && RowConsolidated(s1.balances[owner], s'.balances[owner], s.now, Requested(s1.orders, owner))
  {
    hide Books, PriceKept, RunRex, UpdateRexAccount, ConsolidateBuckets, RowReplaced, RowConsolidated, BalanceOk;
    if RunRex(s, 2).Ok? && owner in RunRex(s, 2).value.balances {
      MaintainFirst(s);
      var s1 := RunRex(s, 2).value;
      BooksHaveOrders(s1);
      OwnRequest(s1, owner);
      ReplaceExactly(s1, owner, ConsolidateBuckets(s1.balances[owner], s.now, Requested(s1.orders, owner)));
      ConsolidatedRow(s1.balances[owner], s.now, Requested(s1.orders, owner));
    }
  }

  /** mvtosavings, when it succeeds. */
  lemma SaveExactly(s: State, owner: Name, rex: Int64)
    requires Books(s) && MoveToSavings(s, owner, rex).Ok?
    ensures RunRex(s, 2).Ok? && owner in RunRex(s, 2).value.balances && rex > 0
    ensures var s1, s' := RunRex(s, 2).value, MoveToSavings(s, owner, rex).value;
            && RowReplaced(s1, s', owner) && RowSaves(s1.balances[owner], s'.balances[owner], s.now, rex)
            && rex + Requested(s1.orders, owner) + SavingsOf(s1.balances[owner]) <= s1.balances[owner].rex
  {
    hide Books, PriceKept, RunRex, UpdateRexAccount, MoveIntoSavings, RowReplaced, RowSaves, BalanceOk, SavingsOf, Wrap64;
    MaintainFirst(s);
    var s1 := RunRex(s, 2).value;
    BooksHaveOrders(s1);
    OwnRequest(s1, owner);
    var inOrder := Requested(s1.orders, owner);
    SettleExactly(s1, owner, 0);
    var b := MoveIntoSavings(s1.balances[owner], s.now, inOrder, rex).value;
    ReplaceExactly(s1, owner, b);
    SavedRow(s1.balances[owner], s.now, inOrder, rex);
    MoveInExact(s1.balances[owner], s.now, inOrder, rex);
  }

  /** mvfrsavings: within the savings, and the REX can be sold after four days. */
  lemma UnsaveExactly(s: State, owner: Name, rex: int)
    requires Books(s)
    ensures MoveFromSavings(s, owner, rex).Ok?
       <==> && RunRex(s, 2).Ok? && owner in RunRex(s, 2).value.balances
            && 0 < rex <= SavingsOf(RunRex(s, 2).value.balances[owner])
    ensures MoveFromSavings(s, owner, rex).Ok? ==>
              var s1, s' := RunRex(s, 2).value, MoveFromSavings(s, owner, rex).value;
              var b, b' := s1.balances[owner], s'.balances[owner];
              && RowReplaced(s1, s', owner) && b'.rex == b.rex && SavingsOf(b') == SavingsOf(b) - rex && RowGains(b, b', s.now, rex)
  {
    hide Books, PriceKept, RunRex, UpdateRexAccount, MoveOutOfSavings, RowReplaced, RowGains, BalanceOk, SavingsOf;
    if RunRex(s, 2).Ok? && owner in RunRex(s, 2).value.balances && rex > 0 {
      MaintainFirst(s);
      var s1 := RunRex(s, 2).value;
      BooksHaveOrders(s1);
      OwnRequest(s1, owner);
      MoveOutKeepsBalance(s1.balances[owner], s.now, rex, 0);
      if rex <= SavingsOf(s1.balances[owner]) {
        var b := MoveOutOfSavings(s1.balances[owner], s.now, rex).value;
        SettleReplaced(s1, owner, b);
        UnsavedRow(s1.balances[owner], s.now, rex);
      }
    }
  }

  // ---------- purchases ----------

  /** What the pool does for a payment: a first purchase sets it up, a later one is at its price. */
  ghost predicate PoolSells(pool: Option<Pool>, q: Pool, payment: int, issued: int) {
    if RexOf(pool) > 0 then
      && IsIssue(pool.value, payment, issued)
      && q == pool.value.(lendable := pool.value.lendable + payment, unlent := pool.value.unlent + payment,
                          rex := pool.value.rex + issued)
    else
      && issued == 10_000 * payment
      && q.lent == 0 && q.unlent == payment && q.lendable == payment && q.rex == issued && q.rent == 200_000_000
      && q.namebid == (if pool.Some? then pool.value.namebid else 0)
      && q.loanNum == (if pool.Some? then pool.value.loanNum else 0)
  }

  /** REX for a payment: the pool issues it, the buyer's row gains it, nothing else changes. */
  ghost predicate Buys(s: State, s': State, owner: Name, payment: int, issued: int) {
    && s' == s.(pool := s'.pool, balances := s'.balances) && s'.pool.Some? && PoolSells(s.pool, s'.pool.value, payment, issued)
    && (forall u :: u != owner ==> (u in s'.balances <==> u in s.balances) && (u in s.balances ==> s'.balances[u] == s.balances[u]))
    && owner in s'.balances && s'.balances[owner].rex == Row(s, owner).rex + issued
    && SavingsOf(s'.balances[owner]) == SavingsOf(Row(s, owner)) && RowGains(Row(s, owner), s'.balances[owner], s.now, issued)
  }

  lemma PoolSellsExactly(pool: Option<Pool>, payment: int)
    requires PoolRowSound(pool) && payment > 0
    ensures AddToPool(pool, payment).Ok?
    ensures var (q, issued) := AddToPool(pool, payment).value;
            issued >= 0 && PoolSells(pool, q, payment, issued)
  {
    hide IsIssue, AddToPool, PoolSound;
    if RexOf(pool) > 0 {
      PurchaseExact(pool.value, payment);
    } else {
      RexNotNegative(pool);
      FirstPurchaseExact(pool, payment);
    }
  }

  lemma RexNotNegative(pool: Option<Pool>)
    requires PoolRowSound(pool)
    ensures RexOf(pool) >= 0
  {
  }

  /** A purchase and what it issues. */
  lemma PurchaseExactly(s: State, owner: Name, payment: int)
    requires Books(s) && payment > 0
    ensures PurchaseRex(s, owner, payment).Ok? && AddToPool(s.pool, payment).Ok?
    ensures Buys(s, PurchaseRex(s, owner, payment).value, owner, payment, AddToPool(s.pool, payment).value.1)
  {
    hide AddToPool, AcquireRex, PoolSells, SavingsOf, RowGains, PoolSound, LoansOk, OrdersOk, LoansEndInTime, AllCovered, BalanceOk;
    PoolSellsExactly(s.pool, payment);
    EmptyRowOk(Maturity(s.now));
    assert BalanceOk(Row(s, owner), Maturity(s.now));
    AcquiredRow(Row(s, owner), s.now, AddToPool(s.pool, payment).value.1);
  }

  lemma EmptyRowOk(last: nat)
    ensures BalanceOk(RexBalance(0, 0, []), last)
  {
  }

  /** buyrex: a payment from the fund, a purchase, maintenance, and settling the account. */
  lemma BuyExactly(s: State, from: Name, amount: int, votes: bool)
    requires Books(s) && BuyRex(s, from, amount, votes).Ok?
    ensures votes && 0 < amount <= Get(s.funds, from) && AddToPool(s.pool, amount).Ok?
    ensures exists s1: State, s2: State ::
              && s1 == s.(funds := s1.funds) && FundChanges(s, s1, from, -amount)
              && Buys(s1, s2, from, amount, AddToPool(s.pool, amount).value.1)
              && RunRex(s2, 2).Ok? && Settles(RunRex(s2, 2).value, BuyRex(s, from, amount, votes).value, from, 0)
  {
    hide Books, AddToPool, PurchaseRex, RunRex, UpdateRexAccount, TransferFromFund, Buys, PriceKept, FundChanges, OrdersSettled,
      Collectable, Settles;
    TakeFromFundExactly(s, from, amount);
    var s1 := TransferFromFund(s, from, amount).value;
    BooksFrame(s, s1);
    PurchaseExactly(s1, from, amount);
    PurchaseKeepsBooks(s1, from, amount);
    var s2 := PurchaseRex(s1, from, amount).value;
    MaintainFirst(s2);
    BooksHaveOrders(RunRex(s2, 2).value);
    SettleExactly(RunRex(s2, 2).value, from, 0);
  }

  /** A purchase is refused for nothing but the vote, the fund, and announced proceeds that cannot be paid. */
  lemma BuySucceeds(s: State, from: Name, amount: int, votes: bool)
    requires Books(s) && LimitsOk(s) && (s.pool.Some? ==> s.pool.value.namebid <= Held(s.tokens, NAMES_ACCOUNT))
    requires Held(s.tokens, NAMES_ACCOUNT) >= 0
    ensures BuyRex(s, from, amount, votes).Ok? <==> votes && 0 < amount <= Get(s.funds, from)
  {
    hide Books, LimitsOk, AddToPool, PurchaseRex, RunRex, UpdateRexAccount, TransferFromFund, PriceKept, FundChanges, Settles, Buys;
    TakeFromFundExactly(s, from, amount);
    if votes && 0 < amount <= Get(s.funds, from) {
      var s1 := TransferFromFund(s, from, amount).value;
      BooksFrame(s, s1);
      PurchaseExactly(s1, from, amount);
      PurchaseKeepsBooks(s1, from, amount);
      var s2 := PurchaseRex(s1, from, amount).value;
      BuysKeepsNamebid(s1, s2, from, amount, AddToPool(s1.pool, amount).value.1);
      LimitsOkFrame(s, s2);
      RunRexSucceeds(s2, 2);
      UpdateAccountFrame(RunRex(s2, 2).value, from, 0);
    }
  }

  lemma BuysKeepsNamebid(s: State, s': State, owner: Name, payment: int, issued: int)
    requires Buys(s, s', owner, payment, issued)
    ensures s'.pool.Some? && s'.pool.value.namebid == if s.pool.Some? then s.pool.value.namebid else 0
  {
    hide IsIssue, RowGains, SavingsOf;
  }

  /** The part of unstaketorex before the purchase: the owner's delegation and the receiver's limits shrink, its tokens leave celes.stake. */
  ghost predicate Frees(s: State, s': State, owner: Name, receiver: Name, net: int, cpu: int) {
    && s' == s.(delegations := s'.delegations, resources := s'.resources, tokens := s'.tokens)
    && DelegationMoves(s, s', owner, receiver, -net, -cpu) && LimitsMove(s, s', receiver, -net, -cpu)
    && TokensMove(s, s', STAKE_ACCOUNT, REX_ACCOUNT, net + cpu)
  }

  lemma FreeExactly(s: State, owner: Name, receiver: Name, net: int, cpu: int)
    requires (owner, receiver) in s.delegations && Unstaked(s, owner, receiver, net, cpu).Ok?
    ensures Frees(s, Unstaked(s, owner, receiver, net, cpu).value, owner, receiver, net, cpu)
  {
    hide AddToLimits, LimitsMove;
    var w := s.delegations[(owner, receiver)];
    var s1 := s.(delegations := WriteDelegation(s.delegations, owner, receiver, Weights(w.net - net, w.cpu - cpu)));
    var s2 := UpdateResourceLimits(s1, receiver, -net, -cpu).value;
    if net != 0 || cpu != 0 {
      LimitsExactly(s, s2, receiver, -net, -cpu);
    } else {
      NoLimitMoves(s, s2, receiver);
    }
    TransferExactly(s2, STAKE_ACCOUNT, REX_ACCOUNT, net + cpu);
    SameLimits(s, s2, Unstaked(s, owner, receiver, net, cpu).value, receiver, -net, -cpu);
    hide TransferTokens;
  }

  lemma NoLimitMoves(s: State, s': State, receiver: Name)
    requires s'.resources == s.resources
    ensures LimitsMove(s, s', receiver, 0, 0)
  {
  }

  lemma SameLimits(s: State, s2: State, s': State, receiver: Name, net: int, cpu: int)
    requires LimitsMove(s, s2, receiver, net, cpu) && s'.resources == s2.resources
    ensures LimitsMove(s, s', receiver, net, cpu)
  {
  }

  /** unstaketorex: stake of the owner's delegation buys REX for the owner. */
  lemma UnstakeExactly(s: State, owner: Name, receiver: Name, net: int, cpu: int, votes: bool)
    requires Books(s) && LimitsOk(s) && UnstakeToRex(s, owner, receiver, net, cpu, votes).Ok?
    ensures votes && UnstakeAllowed(s, owner, receiver, net, cpu) && AddToPool(s.pool, net + cpu).Ok?
    ensures exists s1: State, s2: State ::
              && Frees(s, s1, owner, receiver, net, cpu)
              && Buys(s1, s2, owner, net + cpu, AddToPool(s.pool, net + cpu).value.1)
              && RunRex(s2, 2).Ok?
              && Settles(RunRex(s2, 2).value, UnstakeToRex(s, owner, receiver, net, cpu, votes).value, owner, 0)
  {
    hide Books, LimitsOk, AddToPool, PurchaseRex, RunRex, UpdateRexAccount, UnstakeToRex, Unstaked, Buys, Frees, PriceKept,
      FundChanges, OrdersSettled, Collectable, Settles;
    UnstakeNeeds(s, owner, receiver, net, cpu, votes);
    UnstakeInParts(s, owner, receiver, net, cpu);
    UnstakedKeepsLimits(s, owner, receiver, net, cpu);
    FreeExactly(s, owner, receiver, net, cpu);
    var s1 := Unstaked(s, owner, receiver, net, cpu).value;
    FreesKeepsPool(s, s1, owner, receiver, net, cpu);
    PurchaseExactly(s1, owner, net + cpu);
    PurchaseKeepsBooks(s1, owner, net + cpu);
    var s2 := PurchaseRex(s1, owner, net + cpu).value;
    MaintainFirst(s2);
    BooksHaveOrders(RunRex(s2, 2).value);
    SettleExactly(RunRex(s2, 2).value, owner, 0);
  }

  lemma FreesKeepsPool(s: State, s': State, owner: Name, receiver: Name, net: int, cpu: int)
    requires Frees(s, s', owner, receiver, net, cpu)
    ensures s'.pool == s.pool
  {
    hide DelegationMoves, LimitsMove, TokensMove;
  }

  lemma UnstakeNeeds(s: State, owner: Name, receiver: Name, net: int, cpu: int, votes: bool)
    requires UnstakeToRex(s, owner, receiver, net, cpu, votes).Ok?
    ensures votes && UnstakeAllowed(s, owner, receiver, net, cpu)
  {
    hide WriteDelegation, UpdateResourceLimits, TransferTokens, PurchaseRex, RunRex, UpdateRexAccount;
  }

  // ---------- due REX can be sold ----------

  lemma {:induction false} DueGrows(buckets: seq<Bucket>, t: int, u: int)
    requires BucketsOk(buckets) && t <= u
    ensures DueBy(buckets, t) <= DueBy(buckets, u)
  {
    if |buckets| > 0 {
      DueGrows(buckets[1..], t, u);
    }
  }

  /** REX of the account's row that can be sold by a time, beside what its order asks for. */
  ghost function Available(s: State, owner: Name, time: int): int {
    SellableBy(Row(s, owner), time) - PendingRex(s.orders, owner)
  }

  lemma KeptKeepsAvailable(s: State, s': State, owner: Name, time: int)
    requires Kept(s, s', owner)
    ensures Available(s', owner, time) == Available(s, owner, time)
  {
    hide PendingRex, FreeRex, Tokens;
  }

  lemma AvailableGrows(s: State, owner: Name, t: int, u: int)
    requires Books(s) && t <= u
    ensures Available(s, owner, t) <= Available(s, owner, u)
  {
    hide PendingRex, PoolBooks, LoansOk, OrdersOk, LoansEndInTime, AllCovered;
    if owner in s.balances {
      DueGrows(s.balances[owner].maturities, t, u);
    }
  }

  /**
   * REX that is due can be sold: once the account has not acted for a while, a
   * sale of REX that was, or became, available by now is not refused for lack of
   * it. It is filled or queued, unless the REX is worth nothing, or b1 would have to queue.
   */
  lemma DueRexSells(s: State, owner: Name, rex: int, time: int, actions: seq<Action>)
    requires Books(s) && 0 < rex <= Available(s, owner, time) && forall a :: a in actions ==> !PushedBy(a, owner)
    requires var s' := Run(s, actions); time <= Seconds(s'.now) && RunRex(s', 2).Ok?
    ensures var s1 := RunRex(Run(s, actions), 2).value;
            && s1.pool.Some?
            && (SellRex(Run(s, actions), owner, rex).Ok?
                <==> if LeavesReserve(s1.pool.value, rex) then Worth(s1.pool.value, rex) > 0 else owner != B1)
  {
    hide Books, Run, RunRex, Available, SellRex, PushedBy, LeavesReserve, Worth, PriceKept, Kept;
    var s' := Run(s, actions);
    RunKeeps(s, actions, owner);
    RexTheorems.RunKeepsBooks(s, actions);
    KeptKeepsAvailable(s, s', owner, time);
    MaintainFirst(s');
    RunRexKept(s', 2, owner);
    var s1 := RunRex(s', 2).value;
    KeptKeepsAvailable(s', s1, owner, time);
    AvailableGrows(s1, owner, time, Seconds(s'.now));
    AvailableRow(s1, owner, Seconds(s'.now), rex);
    SellExactly(s', owner, rex);
  }

  lemma AvailableRow(s: State, owner: Name, time: int, rex: int)
    requires Books(s) && 0 < rex <= Available(s, owner, time)
    ensures owner in s.balances && Requested(s.orders, owner) + rex <= SellableBy(s.balances[owner], time)
  {
    hide Requested, PendingRex;
    RequestNonNegative(s, owner);
    BooksHaveOrders(s);
    LookupSums(s.orders, owner);
    hide Books;
  }

  /**
   * REX bought can be sold from its maturity date on: if the buyer does nothing
   * until then, a sale of all the purchase issued is filled or queued.
   */
  lemma BoughtRexSells(s: State, owner: Name, amount: int, votes: bool, actions: seq<Action>)
    requires Books(s) && BuyRex(s, owner, amount, votes).Ok? && AddToPool(s.pool, amount).Ok?
    requires forall a :: a in actions ==> !PushedBy(a, owner)
    requires var s' := Run(BuyRex(s, owner, amount, votes).value, actions);
             Maturity(s.now) <= Seconds(s'.now) && RunRex(s', 2).Ok?
    ensures var s' := Run(BuyRex(s, owner, amount, votes).value, actions);
            var s1 := RunRex(s', 2).value;
            var issued := AddToPool(s.pool, amount).value.1;
            s1.pool.Some? && (issued > 0 ==>
              (SellRex(s', owner, issued).Ok?
               <==> if LeavesReserve(s1.pool.value, issued) then Worth(s1.pool.value, issued) > 0 else owner != B1))
  {
    hide Books, Run, RunRex, Available, SellRex, PushedBy, LeavesReserve, Worth, PriceKept, Kept, BuyRex, AddToPool;
    var after := BuyRex(s, owner, amount, votes).value;
    var issued := AddToPool(s.pool, amount).value.1;
    BuyRexKeepsBooks(s, owner, amount, votes);
    BoughtIsAvailable(s, owner, amount, votes);
    RexTheorems.RunKeepsBooks(after, actions);
    MaintainFirst(Run(after, actions));
    if issued > 0 {
      DueRexSells(after, owner, issued, Maturity(s.now), actions);
    }
  }

  lemma BoughtIsAvailable(s: State, owner: Name, amount: int, votes: bool)
    requires Books(s) && BuyRex(s, owner, amount, votes).Ok? && AddToPool(s.pool, amount).Ok?
    ensures Available(BuyRex(s, owner, amount, votes).value, owner, Maturity(s.now)) >= AddToPool(s.pool, amount).value.1
  {
    hide Books, AddToPool, PurchaseRex, RunRex, UpdateRexAccount, TransferFromFund, Buys, PriceKept, Available, Kept, Settles;
    TakeFromFundExactly(s, owner, amount);
    var s1 := TransferFromFund(s, owner, amount).value;
    BooksFrame(s, s1);
    PurchaseExactly(s1, owner, amount);
    PurchaseKeepsBooks(s1, owner, amount);
    var s2 := PurchaseRex(s1, owner, amount).value;
    GainIsAvailable(s1, s2, owner, amount, AddToPool(s.pool, amount).value.1);
    MaintainFirst(s2);
    RunRexKept(s2, 2, owner);
    var s3 := RunRex(s2, 2).value;
    KeptKeepsAvailable(s2, s3, owner, Maturity(s.now));
    BooksHaveOrders(s3);
    SettleExactly(s3, owner, 0);
    SettledAvailable(s3, UpdateRexAccount(s3, owner, 0).value.0, owner, Maturity(s.now));
  }

  lemma GainIsAvailable(s: State, s': State, owner: Name, payment: int, issued: int)
    requires Books(s) && Buys(s, s', owner, payment, issued)
    ensures Available(s', owner, Maturity(s.now)) >= issued
  {
    hide PoolSells, PendingRex, SellableBy, SavingsOf;
    MaturityOfBooks(s);
    CoveredRow(s, owner);
    hide Books;
  }

  lemma MaturityOfBooks(s: State)
    requires Books(s)
    ensures Maturity(s.now) < END_OF_DAYS
  {
    MaturityFacts(s.now);
  }

  lemma CoveredRow(s: State, owner: Name)
    requires Books(s)
    ensures SellableBy(Row(s, owner), Maturity(s.now)) >= PendingRex(s.orders, owner)
  {
    hide PendingRex, SellableBy;
    if owner in s.balances {
      SettledOwnOrders(s, owner);
      MaturedCounts(s.balances[owner], Maturity(s.now), Maturity(s.now));
    } else {
      NoRowNoOrder(s, owner);
    }
  }

  lemma MaturedCounts(b: RexBalance, last: nat, t: int)
    requires BalanceOk(b, last)
    ensures SellableBy(b, t) >= b.matured
  {
    TotalsNonNegative(b.maturities, t);
  }

  lemma NoRowNoOrder(s: State, owner: Name)
    requires Books(s) && owner !in s.balances
    ensures PendingRex(s.orders, owner) == 0 && SellableBy(RexBalance(0, 0, []), Maturity(s.now)) == 0
  {
    var i := FindOrder(s.orders, owner);
    if i < |s.orders| {
      assert s.orders[i] in s.orders && Covered(s.orders[i], s.balances);
    }
  }

  lemma SettledAvailable(s: State, s': State, owner: Name, time: int)
    requires OrderTable(s.orders) && Settles(s, s', owner, 0)
    ensures Available(s', owner, time) == Available(s, owner, time)
  {
    hide OrderTable, SellableBy, PendingRex, Requested, Collectable, FundChanges;
    SettledKeepsRequest(s.orders, s'.orders, owner);
    LookupSums(s.orders, owner);
    LookupSums(s'.orders, owner);
  }
}
