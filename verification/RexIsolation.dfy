/** Nobody's REX funds, REX or sale proceeds shrink through the actions of others. */
module RexIsolation {
  import opened Outcomes
  import opened RexState
  import opened RexActions
  import opened MapSums
  import opened RexPool
  import opened RexTables
  import opened RexMaturities
  import opened RexBooks
  import opened RexSteps
  import opened Bandwidth
  import opened RamMarket
  import opened RexRuns
  import opened RexTheorems

  /** The balance row of an account, or an empty one. */
  ghost function Row(s: State, u: Name): RexBalance {
    if u in s.balances then s.balances[u] else RexBalance(0, 0, [])
  }

  ghost function RexHeld(s: State, u: Name): int {
    Row(s, u).rex
  }

  /** The row after `sold` of its matured REX has been sold. */
  ghost function Less(b: RexBalance, sold: int): RexBalance {
    b.(rex := b.rex - sold, matured := b.matured - sold)
  }

  /** REX that is not promised to an open sell order. */
  ghost function FreeRex(s: State, u: Name): int {
    RexHeld(s, u) - PendingRex(s.orders, u)
  }

  /** Tokens in the fund, and proceeds waiting to be collected. */
  ghost function Tokens(s: State, u: Name): int {
    Get(s.funds, u) + CollectedProceeds(s.orders, u)
  }

  /**
   * What `u` has has not shrunk, and its row has changed by nothing but the
   * matured REX that left it through an open order of `u` itself.
   */
  ghost predicate Kept(s: State, s': State, u: Name) {
    && Get(s'.funds, u) >= Get(s.funds, u) && Tokens(s', u) >= Tokens(s, u)
    && FreeRex(s', u) >= FreeRex(s, u) && PendingRex(s'.orders, u) <= PendingRex(s.orders, u)
    && Row(s', u) == Less(Row(s, u), PendingRex(s.orders, u) - PendingRex(s'.orders, u))
  }

  ghost predicate SameFor(s: State, s': State, u: Name) {
    && Get(s'.funds, u) == Get(s.funds, u) && Row(s', u) == Row(s, u)
    && PendingRex(s'.orders, u) == PendingRex(s.orders, u)
    && CollectedProceeds(s'.orders, u) == CollectedProceeds(s.orders, u)
  }

  ghost predicate OnlyOwner(s: State, s': State, owner: Name) {
    forall u: Name :: u != owner ==> SameFor(s, s', u)
  }

  lemma KeptTransitive(s: State, s1: State, s2: State, u: Name)
    requires Kept(s, s1, u) && Kept(s1, s2, u)
    ensures Kept(s, s2, u)
  {
    hide Tokens, FreeRex, PendingRex;
  }

  lemma SameTables(s: State, s': State)
    requires s'.funds == s.funds && s'.balances == s.balances && s'.orders == s.orders
    ensures forall u: Name :: Kept(s, s', u) && SameFor(s, s', u)
  {
    hide PendingRex, CollectedProceeds;
  }

  lemma OwnerThenKept(s: State, s1: State, s2: State, owner: Name, u: Name)
    requires Kept(s, s1, u) && OnlyOwner(s1, s2, owner) && u != owner
    ensures Kept(s, s2, u)
  {
    assert SameFor(s1, s2, u);
    hide PendingRex, CollectedProceeds;
  }

  lemma OnlyOwnerTransitive(s: State, s1: State, s2: State, owner: Name)
    requires OnlyOwner(s, s1, owner) && OnlyOwner(s1, s2, owner)
    ensures OnlyOwner(s, s2, owner)
  {
    forall u: Name | u != owner ensures SameFor(s, s2, u) {
      assert SameFor(s, s1, u) && SameFor(s1, s2, u);
      hide PendingRex, CollectedProceeds;
    }
  }

  // ---------- the queue ----------

  /** The order of an account depends on the orders with its name only. */
  lemma SameOrders(orders: seq<Order>, orders': seq<Order>, u: Name)
    requires OrderTable(orders) && OrderTable(orders')
    requires forall x: Order :: x.owner == u ==> (x in orders <==> x in orders')
    ensures PendingRex(orders', u) == PendingRex(orders, u)
    ensures CollectedProceeds(orders', u) == CollectedProceeds(orders, u)
  {
    var i, j := FindOrder(orders, u), FindOrder(orders', u);
    if i < |orders| {
      LookupFinds(orders', orders[i]);
    } else if j < |orders'| {
      LookupFinds(orders, orders'[j]);
    }
  }

  /** The order found for its owner. */
  lemma LookupOrder(orders: seq<Order>, o: Order)
    requires OrderTable(orders) && o in orders
    ensures PendingRex(orders, o.owner) == if o.open then o.requested else 0
    ensures CollectedProceeds(orders, o.owner) == if o.open then 0 else o.proceeds
  {
    LookupFinds(orders, o);
  }

  // ---------- maintenance ----------

  lemma PayGrows(s: State, owner: Name, amount: int)
    ensures PayIntoFund(s, owner, amount).Ok?
    ensures forall u: Name :: Get(PayIntoFund(s, owner, amount).value.funds, u) >= Get(s.funds, u)
    ensures forall u: Name :: u != owner ==> Get(PayIntoFund(s, owner, amount).value.funds, u) == Get(s.funds, u)
  {
  }

  lemma CloseLoanKept(s: State, kind: Kind, u: Name)
    requires s.pool.Some? && |s.Loans(kind)| > 0 && CloseLoan(s, kind).Ok?
    ensures Kept(s, CloseLoan(s, kind).value, u)
  {
    hide PoolAfterRelease, PayIntoFund, ChangeLimit, PendingRex, CollectedProceeds;
    var l := s.Loans(kind)[0];
    var s0 := s.(pool := Some(PoolAfterRelease(s, kind)));
    PayIntoFundFrame(s0, l.from, l.balance);
    PayGrows(s0, l.from, l.balance);
    ChangeLimitFrame(PayIntoFund(s0, l.from, l.balance).value, kind, l.receiver, -l.staked);
  }

  lemma {:induction false} ProcessLoansKept(s: State, kind: Kind, max: nat, u: Name)
    requires s.pool.Some? && ProcessLoans(s, kind, max).Ok?
    ensures Kept(s, ProcessLoans(s, kind, max).value, u)
    decreases max
  {
    hide Kept, PoolAfterRelease, RentedAgain;
    SameTables(s, s);
    if max > 0 && HasExpiredLoan(s, kind) {
      var s1 := ProcessExpiredLoan(s, kind).value;
      if Renews(s, kind) {
        RenewLoanFrame(s, kind);
        SameTables(s, s1);
      } else {
        CloseLoanFrame(s, kind);
        CloseLoanKept(s, kind, u);
      }
      hide RenewLoan, CloseLoan, Renews;
      ProcessLoansKept(s1, kind, max - 1, u);
      KeptTransitive(s, s1, ProcessLoans(s, kind, max).value, u);
    }
  }

  /** A filled order turns promised REX into proceeds of its owner, and touches nobody else. */
  lemma FillKept(s: State, i: nat, p: Pool, proceeds: int, u: Name)
    requires Books(s) && i < |s.orders| && s.orders[i].open && s.orders[i].owner in s.balances && proceeds >= 0
    ensures Kept(s, AfterFill(s, i, p, proceeds), u)
  {
    var o, s' := s.orders[i], AfterFill(s, i, p, proceeds);
    BooksQueue(s);
    hide Books, OrderOk, OrderTable;
    CloseOrderKeepsOrders(s.orders, i, proceeds, s.now);
    FilledIsQueued(s.orders, i, proceeds);
    if u == o.owner {
      LookupOrder(s.orders, o);
      LookupOrder(s'.orders, o.(proceeds := proceeds, open := false));
    } else {
      SameOrders(s.orders, s'.orders, u);
    }
    hide PendingRex, CollectedProceeds, CloseOrder;
  }

  lemma FilledIsQueued(orders: seq<Order>, i: nat, proceeds: int)
    requires i < |orders|
    ensures orders[i].(proceeds := proceeds, open := false) in CloseOrder(orders, i, proceeds)
  {
    InsertOrderFacts(RemoveAt(orders, i), orders[i].(proceeds := proceeds, open := false));
  }

  lemma {:induction false} ProcessOrdersKept(s: State, i: nat, max: nat, u: Name)
    requires Books(s) && s.pool.Some? && ProcessOrders(s, i, max).Ok?
    ensures Kept(s, ProcessOrders(s, i, max).value, u)
    decreases max
  {
    SameTables(s, s);
    hide Books, Kept, PriceRose, FillFromPool, AfterFill;
    if max > 0 && i < |s.orders| && s.orders[i].open {
      FillKeepsBooks(s, i);
      var fill := FillFromPool(s.pool.value, s.orders[i].requested).value;
      if fill.Filled? {
        var s1 := AfterFill(s, i, fill.pool, fill.proceeds);
        FillStep(s, i, max);
        FillKept(s, i, fill.pool, fill.proceeds, u);
        ProcessOrdersKept(s1, i, max - 1, u);
        KeptTransitive(s, s1, ProcessOrders(s, i, max).value, u);
      } else {
        ProcessOrdersKept(s, i + 1, max - 1, u);
      }
    }
  }

  lemma FillStep(s: State, i: nat, max: nat)
    requires max > 0 && s.pool.Some? && i < |s.orders| && s.orders[i].open && s.orders[i].owner in s.balances
    requires FillFromPool(s.pool.value, s.orders[i].requested).Ok?
    requires FillFromPool(s.pool.value, s.orders[i].requested).value.Filled?
    ensures var fill := FillFromPool(s.pool.value, s.orders[i].requested).value;
            var s1 := AfterFill(s, i, fill.pool, fill.proceeds);
            s1.pool.Some? && ProcessOrders(s, i, max) == ProcessOrders(s1, i, max - 1)
  {
    hide FillFromPool, CloseOrder;
  }

  lemma RunRexKept(s: State, max: nat, u: Name)
    requires Books(s) && RunRex(s, max).Ok?
    ensures Kept(s, RunRex(s, max).value, u)
  {
    hide Books, Kept, PriceRose, ProcessLoans, ProcessOrders, ChannelNamebids;
    ChannelNamebidsFrame(s);
    ChannelNamebidsKeepsBooks(s);
    var s1 := ChannelNamebids(s).value;
    SameTables(s, s1);
    ProcessLoansKept(s1, Cpu, max, u);
    ProcessLoansKeepsBooks(s1, Cpu, max);
    var s2 := ProcessLoans(s1, Cpu, max).value;
    ProcessLoansKept(s2, Net, max, u);
    ProcessLoansKeepsBooks(s2, Net, max);
    var s3 := ProcessLoans(s2, Net, max).value;
    ProcessOrdersKept(s3, 0, max, u);
    KeptTransitive(s, s1, s2, u);
    KeptTransitive(s, s2, s3, u);
    KeptTransitive(s, s3, RunRex(s, max).value, u);
  }

  // ---------- the owner's own tables ----------

  lemma SettleOnly(s: State, owner: Name, proceeds: int)
    requires Books(s)
    ensures UpdateRexAccount(s, owner, proceeds).Ok?
    ensures OnlyOwner(s, UpdateRexAccount(s, owner, proceeds).value.0, owner)
  {
    assert OrdersOk(s.orders, s.now);
    hide Books, OrdersOk, OnlyOwner, UpdateRexAccount;
    SettleOnlyQueue(s, owner, proceeds);
  }

  /** As `SettleOnly`, for a state whose books are only partly checked. */
  lemma SettleOnlyQueue(s: State, owner: Name, proceeds: int)
    requires OrdersOk(s.orders, s.now)
    ensures UpdateRexAccount(s, owner, proceeds).Ok?
    ensures OnlyOwner(s, UpdateRexAccount(s, owner, proceeds).value.0, owner)
  {
    hide OrderOk, OrderTable;
    SettledFacts(s.orders, owner, s.now);
    var s' := UpdateRexAccount(s, owner, proceeds).value.0;
    UpdateAccountFrame(s, owner, proceeds);
    PayGrows(s.(orders := SettledOrders(s.orders, owner)), owner, proceeds + CollectedProceeds(s.orders, owner));
    forall u: Name | u != owner ensures SameFor(s, s', u) {
      SameOrders(s.orders, s'.orders, u);
      hide PendingRex, CollectedProceeds, SettledOrders;
    }
  }

  lemma BalanceOnly(s: State, s': State, owner: Name)
    requires s'.funds == s.funds && s'.orders == s.orders
    requires forall u: Name :: u != owner ==> Row(s', u) == Row(s, u)
    ensures OnlyOwner(s, s', owner)
  {
    hide PendingRex, CollectedProceeds;
  }

  lemma FundOnly(s: State, s': State, owner: Name)
    requires s'.balances == s.balances && s'.orders == s.orders
    requires forall u: Name :: u != owner ==> Get(s'.funds, u) == Get(s.funds, u)
    ensures OnlyOwner(s, s', owner)
  {
    hide PendingRex, CollectedProceeds;
  }

  lemma OrdersOnly(s: State, s': State, owner: Name)
    requires s' == s.(orders := s'.orders) && OrderTable(s.orders) && OrderTable(s'.orders)
    requires forall x: Order :: x.owner != owner ==> (x in s.orders <==> x in s'.orders)
    ensures OnlyOwner(s, s', owner)
  {
    hide OrderTable, PendingRex, CollectedProceeds;
    forall u: Name | u != owner ensures SameFor(s, s', u) {
      SameOrders(s.orders, s'.orders, u);
    }
  }

  lemma QueueOnly(s: State, owner: Name, rex: int)
    requires OrderTable(s.orders) && forall o :: o in s.orders && o.owner == owner ==> o.open
    ensures OnlyOwner(s, QueueOrder(s, owner, rex), owner)
  {
    hide OrderTable, OnlyOwner;
    var s' := QueueOrder(s, owner, rex);
    var i := FindOrder(s.orders, owner);
    if i == |s.orders| {
      InsertOrderFacts(s.orders, Order(owner, rex, 0, s.now, true));
    } else {
      RaiseOrderFacts(s.orders, i, s.orders[i].requested + rex);
      RaisedOnly(s.orders, i, s.orders[i].(requested := s.orders[i].requested + rex));
    }
    OrdersOnly(s, s', owner);
  }

  lemma RaisedOnly(orders: seq<Order>, i: nat, o: Order)
    requires i < |orders| && o.owner == orders[i].owner
    ensures forall x: Order :: x.owner != o.owner ==> (x in orders <==> x in orders[i := o])
  {
    forall x: Order | x.owner != o.owner ensures x in orders <==> x in orders[i := o] {
      if x in orders {
        var k :| 0 <= k < |orders| && orders[k] == x;
        assert orders[i := o][k] == x;
      }
    }
  }

  lemma CancelOnly(s: State, owner: Name)
    requires Books(s) && CancelOrder(s, owner).Ok?
    ensures OnlyOwner(s, CancelOrder(s, owner).value, owner)
  {
    assert OrderTable(s.orders);
    hide Books, OrderTable, OnlyOwner;
    RemoveOrderFacts(s.orders, FindOrder(s.orders, owner));
    OrdersOnly(s, CancelOrder(s, owner).value, owner);
  }

  // ---------- the actions ----------

  /** A fund payment, maintenance, and settling the account of the same owner. */
  lemma SettledAfterRun(s: State, s2: State, owner: Name, u: Name)
    requires OnlyOwner(s, s2, owner) && u != owner && Books(s2) && RunRex(s2, 2).Ok?
    ensures UpdateRexAccount(RunRex(s2, 2).value, owner, 0).Ok?
    ensures Kept(s, UpdateRexAccount(RunRex(s2, 2).value, owner, 0).value.0, u)
  {
    hide Books, RunRex, UpdateRexAccount, Kept, PriceRose;
    assert Kept(s, s, u) by { SameTables(s, s); }
    OwnerThenKept(s, s, s2, owner, u);
    hide OnlyOwner;
    RunRexKept(s2, 2, u);
    RunRexKeepsBooks(s2, 2);
    var s3 := RunRex(s2, 2).value;
    SettleOnly(s3, owner, 0);
    KeptTransitive(s, s2, s3, u);
    OwnerThenKept(s, s3, UpdateRexAccount(s3, owner, 0).value.0, owner, u);
  }

  lemma PurchaseOnly(s: State, s1: State, owner: Name, payment: int)
    requires Books(s1) && payment > 0 && OnlyOwner(s, s1, owner)
    ensures PurchaseRex(s1, owner, payment).Ok?
    ensures OnlyOwner(s, PurchaseRex(s1, owner, payment).value, owner) && Books(PurchaseRex(s1, owner, payment).value)
  {
    PurchaseKeepsBooks(s1, owner, payment);
    hide Books, OnlyOwner, PriceKept, AddToPool, AcquireRex;
    BalanceOnly(s1, PurchaseRex(s1, owner, payment).value, owner);
    OnlyOwnerTransitive(s, s1, PurchaseRex(s1, owner, payment).value, owner);
  }

  lemma BuyRexIsolated(s: State, from: Name, amount: int, votes: bool, u: Name)
    requires Books(s) && BuyRex(s, from, amount, votes).Ok? && u != from
    ensures Kept(s, BuyRex(s, from, amount, votes).value, u)
  {
    hide Books, OnlyOwner, PriceKept, PurchaseRex, RunRex, UpdateRexAccount, Kept;
    var s1 := TransferFromFund(s, from, amount).value;
    BooksFrame(s, s1);
    FundOnly(s, s1, from);
    PurchaseOnly(s, s1, from, amount);
    SettledAfterRun(s, PurchaseRex(s1, from, amount).value, from, u);
  }

  lemma UnstakeIsolated(s: State, a: Action, u: Name)
    requires Books(s) && a.ActUnstakeToRex? && Apply(s, a).Ok? && u != a.owner
    ensures Kept(s, Apply(s, a).value, u)
  {
    hide Books, OnlyOwner, PriceKept, PurchaseRex, RunRex, UpdateRexAccount, Kept, WriteDelegation, TransferTokens,
      UpdateResourceLimits;
    var s3 := BeforePurchase(s, a);
    BeforePurchaseFrame(s, a);
    BooksFrame(s, s3);
    FundOnly(s, s3, a.owner);
    PurchaseOnly(s, s3, a.owner, a.net + a.cpu);
    SettledAfterRun(s, PurchaseRex(s3, a.owner, a.net + a.cpu).value, a.owner, u);
  }

  lemma BeforePurchaseFrame(s: State, a: Action)
    requires a.ActUnstakeToRex? && Apply(s, a).Ok?
    ensures var s3 := BeforePurchase(s, a);
            s3 == s.(delegations := s3.delegations, resources := s3.resources, tokens := s3.tokens)
  {
    hide PurchaseRex, RunRex, UpdateRexAccount, WriteDelegation, AddToLimits;
  }

  /** Settling and rearranging the owner's own row after maintenance. */
  lemma OwnerAfterRun(s: State, s1: State, s2: State, s': State, owner: Name, u: Name)
    requires Kept(s, s1, u) && OnlyOwner(s1, s2, owner) && OnlyOwner(s2, s', owner) && u != owner
    ensures Kept(s, s', u)
  {
    OnlyOwnerTransitive(s1, s2, s', owner);
    hide Kept;
    OwnerThenKept(s, s1, s', owner, u);
  }

  lemma SavingsIsolated(s: State, a: Action, u: Name)
    requires Books(s) && Apply(s, a).Ok? && (a.ActUpdateRex? || a.ActConsolidate? || a.ActMoveToSavings?) && u != a.owner
    ensures Kept(s, Apply(s, a).value, u)
  {
    hide Books, Kept, PriceRose, RunRex, UpdateRexAccount, ProcessMaturities, ConsolidateBuckets, MoveIntoSavings, OnlyOwner;
    RunRexKept(s, 2, u);
    RunRexKeepsBooks(s, 2);
    var s1 := RunRex(s, 2).value;
    SettleOnly(s1, a.owner, 0);
    var s2 := UpdateRexAccount(s1, a.owner, 0).value.0;
    UpdateAccountFrame(s1, a.owner, 0);
    BalanceOnly(s2, Apply(s, a).value, a.owner);
    OwnerAfterRun(s, s1, s2, Apply(s, a).value, a.owner, u);
  }

  lemma MoveFromSavingsIsolated(s: State, owner: Name, rex: int, u: Name)
    requires Books(s) && MoveFromSavings(s, owner, rex).Ok? && u != owner
    ensures Kept(s, MoveFromSavings(s, owner, rex).value, u)
  {
    MaintainFirst(s);
    hide Books, Kept, PriceRose, PriceKept, RunRex, UpdateRexAccount, MoveOutOfSavings, OnlyOwner;
    RunRexKept(s, 2, u);
    var s1 := RunRex(s, 2).value;
    var s2 := s1.(balances := s1.balances[owner := MoveOutOfSavings(s1.balances[owner], s.now, rex).value]);
    BalanceOnly(s1, s2, owner);
    MovedKeepsBooks(s1, owner, rex);
    SettleOnly(s2, owner, 0);
    OwnerAfterRun(s, s1, s2, MoveFromSavings(s, owner, rex).value, owner, u);
  }

  lemma MovedKeepsBooks(s: State, owner: Name, rex: int)
    requires Books(s) && owner in s.balances && rex > 0 && MoveOutOfSavings(s.balances[owner], s.now, rex).Ok?
    ensures Books(s.(balances := s.balances[owner := MoveOutOfSavings(s.balances[owner], s.now, rex).value]))
  {
    var b := MoveOutOfSavings(s.balances[owner], s.now, rex).value;
    hide Books, MoveOutOfSavings, PriceKept;
    SettledOwnOrders(s, owner);
    MoveOutKeepsBalance(s.balances[owner], s.now, rex, 0);
    OwnOrdersCovered(s, owner, b.matured);
    SetBalanceKeepsBooks(s, owner, b);
  }

  lemma SellRexIsolated(s: State, from: Name, rex: int, u: Name)
    requires Books(s) && SellRex(s, from, rex).Ok? && u != from
    ensures Kept(s, SellRex(s, from, rex).value, u)
  {
    MaintainFirst(s);
    hide Books, Kept, PriceRose, PriceKept, RunRex, UpdateRexAccount, ProcessMaturities, FillFromPool, QueueOrder, OnlyOwner;
    RunRexKept(s, 2, u);
    var s1 := RunRex(s, 2).value;
    var s2 := s1.(balances := s1.balances[from := ProcessMaturities(s1.balances[from], Seconds(s.now))]);
    BalanceOnly(s1, s2, from);
    ProcessRowKeepsBooks(s1, from);
    var fill := FillFromPool(s2.pool.value, rex).value;
    if fill.Filled? {
      SaleOnly(s2, from, rex, fill.pool, fill.proceeds);
    } else {
      SettleOnly(s2, from, 0);
      var s3 := UpdateRexAccount(s2, from, 0).value.0;
      SettledQueue(s2, from);
      QueueOnly(s3, from, rex);
      OnlyOwnerTransitive(s2, s3, QueueOrder(s3, from, rex), from);
    }
    OwnerAfterRun(s, s1, s2, SellRex(s, from, rex).value, from, u);
  }

  lemma SettledQueue(s: State, owner: Name)
    requires Books(s)
    ensures var s' := UpdateRexAccount(s, owner, 0).value.0;
            OrderTable(s'.orders) && forall o :: o in s'.orders && o.owner == owner ==> o.open
  {
    SettledFacts(s.orders, owner, s.now);
    UpdateAccountFrame(s, owner, 0);
    hide UpdateRexAccount, SettledOrders, Books;
  }

  lemma SaleOnly(s: State, owner: Name, rex: int, p: Pool, proceeds: int)
    requires Books(s) && owner in s.balances
    ensures var s3 := AfterSale(s, owner, rex, p);
            UpdateRexAccount(s3, owner, proceeds).Ok?
            && OnlyOwner(s, UpdateRexAccount(s3, owner, proceeds).value.0, owner)
  {
    var s3 := AfterSale(s, owner, rex, p);
    assert OrdersOk(s.orders, s.now);
    hide Books, OnlyOwner, UpdateRexAccount, OrdersOk;
    BalanceOnly(s, s3, owner);
    SettleOnlyQueue(s3, owner, proceeds);
    OnlyOwnerTransitive(s, s3, UpdateRexAccount(s3, owner, proceeds).value.0, owner);
  }

  lemma CloseRexIsolated(s: State, owner: Name, u: Name)
    requires Books(s) && CloseRex(s, owner).Ok? && u != owner
    ensures Kept(s, CloseRex(s, owner).value, u)
  {
    hide Books, Kept, PriceRose, RunRex, UpdateRexAccount, HasLoanFrom, OnlyOwner;
    if s.pool.Some? {
      RunRexKept(s, 2, u);
      RunRexKeepsBooks(s, 2);
    } else {
      SameTables(s, s);
    }
    var s1 := if s.pool.Some? then RunRex(s, 2).value else s;
    SettleOnly(s1, owner, 0);
    var s2 := UpdateRexAccount(s1, owner, 0).value.0;
    UpdateAccountFrame(s1, owner, 0);
    ClosingOnly(s2, CloseRex(s, owner).value, owner);
    OwnerAfterRun(s, s1, s2, CloseRex(s, owner).value, owner, u);
  }

  lemma ClosingOnly(s: State, s': State, owner: Name)
    requires s'.orders == s.orders && s'.balances == s.balances - {owner}
    requires s'.funds == s.funds || s'.funds == s.funds - {owner}
    ensures OnlyOwner(s, s', owner)
  {
    hide PendingRex, CollectedProceeds;
  }

  lemma RentIsolated(s: State, a: Action, u: Name)
    requires Books(s) && a.ActRent? && Apply(s, a).Ok? && u != a.owner
    ensures Kept(s, Apply(s, a).value, u)
  {
    hide Books, Kept, PriceRose, RunRex, OnlyOwner, AddLoan, BancorOutput, InsertLoan, Rent;
    RentFrame(s, a.kind, a.owner, a.receiver, a.payment, a.fund);
    RunRexKept(s, 2, u);
    RunRexKeepsBooks(s, 2);
    var s1 := RunRex(s, 2).value;
    FundOnly(s1, Apply(s, a).value, a.owner);
    OwnerThenKept(s, s1, Apply(s, a).value, a.owner, u);
  }

  ghost predicate ChangesFundOf(s: State, r: Result<State>, owner: Name) {
    r.Ok? ==>
      && r.value.balances == s.balances && r.value.orders == s.orders
      && forall u: Name :: u != owner ==> Get(r.value.funds, u) == Get(s.funds, u)
  }

  lemma DepositChanges(s: State, owner: Name, amount: int)
    ensures ChangesFundOf(s, Deposit(s, owner, amount), owner)
  {
  }

  lemma FundLoanChanges(s: State, kind: Kind, from: Name, num: nat, payment: int)
    ensures ChangesFundOf(s, FundLoan(s, kind, from, num, payment), from)
  {
    hide FindLoan;
  }

  lemma DefundLoanChanges(s: State, kind: Kind, from: Name, num: nat, amount: int)
    ensures ChangesFundOf(s, DefundLoan(s, kind, from, num, amount), from)
  {
    hide FindLoan;
  }

  /** Actions that move tokens of their owner's fund only. */
  lemma FundActionsIsolated(s: State, a: Action, u: Name)
    requires Books(s) && Apply(s, a).Ok? && (a.ActDeposit? || a.ActFundLoan? || a.ActDefundLoan?) && u != a.owner
    ensures Kept(s, Apply(s, a).value, u)
  {
    hide Books, Kept, OnlyOwner, Deposit, FundLoan, DefundLoan;
    SameTables(s, s);
    if a.ActDeposit? {
      DepositChanges(s, a.owner, a.amount);
    } else if a.ActFundLoan? {
      FundLoanChanges(s, a.kind, a.owner, a.num, a.amount);
    } else {
      DefundLoanChanges(s, a.kind, a.owner, a.num, a.amount);
    }
    FundOnly(s, Apply(s, a).value, a.owner);
    OwnerThenKept(s, s, Apply(s, a).value, a.owner, u);
  }

  lemma WithdrawIsolated(s: State, owner: Name, amount: int, u: Name)
    requires Books(s) && Withdraw(s, owner, amount).Ok? && u != owner
    ensures Kept(s, Withdraw(s, owner, amount).value, u)
  {
    hide Books, Kept, OnlyOwner, UpdateRexAccount;
    SameTables(s, s);
    SettleOnly(s, owner, 0);
    var s1 := UpdateRexAccount(s, owner, 0).value.0;
    FundOnly(s1, Withdraw(s, owner, amount).value, owner);
    OwnerAfterRun(s, s, s1, Withdraw(s, owner, amount).value, owner, u);
  }

  /** Actions that leave funds, balances and orders alone. */
  ghost predicate LeavesRex(s: State, r: Result<State>) {
    r.Ok? ==> r.value.funds == s.funds && r.value.balances == s.balances && r.value.orders == s.orders
  }

  lemma PaymentsLeaveRex(s: State, from: Name, to: Name, amount: int)
    ensures LeavesRex(s, TransferTokens(s, from, to, amount)) && LeavesRex(s, RefundStake(s, from))
  {
  }

  lemma SettingsLeaveRex(s: State, a: Action)
    requires a.ActAdvance? || a.ActTransfer? || a.ActRefund? || a.ActSetRex? || a.ActCloseNameAuction?
    ensures LeavesRex(s, Apply(s, a))
  {
    hide TransferTokens, RefundStake;
    if a.ActTransfer? {
      PaymentsLeaveRex(s, a.from, a.to_, a.amount);
    } else if a.ActRefund? {
      PaymentsLeaveRex(s, a.owner, 0, 0);
    }
  }

  lemma BandwidthLeavesRex(s: State, source: Name, receiver: Name, dNet: int, dCpu: int, transfer: bool)
    ensures LeavesRex(s, ChangeBandwidth(s, source, receiver, dNet, dCpu, transfer))
  {
    hide AddToLimits, NetRefund, WriteDelegation, SameSign;
  }

  lemma DelegateLeavesRex(s: State, a: Action)
    requires a.ActDelegate? || a.ActUndelegate?
    ensures LeavesRex(s, Apply(s, a))
  {
    hide ChangeBandwidth;
    if a.ActDelegate? {
      BandwidthLeavesRex(s, a.owner, a.receiver, a.net, a.cpu, a.transfer);
    } else {
      BandwidthLeavesRex(s, a.owner, a.receiver, -a.net, -a.cpu, false);
    }
  }

  lemma FeeLeavesRex(s: State, payer: Name, fee: int)
    ensures LeavesRex(s, PayRamFee(s, payer, fee))
  {
    hide RexAvailable;
  }

  lemma BuyRamLeavesRex(s: State, owner: Name, receiver: Name, amount: int)
    ensures LeavesRex(s, BuyRam(s, owner, receiver, amount))
  {
    hide UpdateRamSupply, RamFee, BancorOutput, PayRamFee;
    SupplyFrame(s);
    if BuyRam(s, owner, receiver, amount).Ok? {
      var paid := amount - RamFee(amount);
      FeeLeavesRex(TransferTokens(UpdateRamSupply(s), owner, RAM_ACCOUNT, paid).value, owner, RamFee(amount));
    }
  }

  lemma SellRamLeavesRex(s: State, owner: Name, bytes: int)
    ensures LeavesRex(s, SellRam(s, owner, bytes))
  {
    hide UpdateRamSupply, RamFee, RamProceeds, PayRamFee;
    SupplyFrame(s);
    if SellRam(s, owner, bytes).Ok? {
      var s0 := UpdateRamSupply(s);
      var tokens := RamProceeds(s0.ram, bytes);
      FeeLeavesRex(TransferTokens(ReleaseRam(s0, owner, bytes).value, RAM_ACCOUNT, owner, tokens).value, owner, RamFee(tokens));
    }
  }

  lemma RamLeavesRex(s: State, a: Action)
    requires a.ActBuyRam? || a.ActSellRam? || a.ActSetRam? || a.ActSetRamRate?
    ensures LeavesRex(s, Apply(s, a))
  {
    hide UpdateRamSupply, BuyRam, SellRam;
    SupplyFrame(s);
    if a.ActBuyRam? {
      BuyRamLeavesRex(s, a.owner, a.receiver, a.amount);
    } else if a.ActSellRam? {
      SellRamLeavesRex(s, a.owner, a.bytes);
    }
  }

  /** The account that pushes an action, where the action has an owner. */
  ghost predicate PushedBy(a: Action, u: Name) {
    match a
    case ActAdvance(_) => false
    case ActTransfer(from, _, _) => u == from
    case ActSetRex(_) => false
    case ActRexExec(_) => false
    case ActCloseNameAuction(_) => false
    case ActSetRam(_) => false
    case ActSetRamRate(_) => false
    case _ => u == a.owner
  }

  ghost predicate ResultKept(s: State, r: Result<State>, u: Name) {
    r.Ok? ==> Kept(s, r.value, u)
  }

  lemma LeavesRexKept(s: State, r: Result<State>, u: Name)
    requires LeavesRex(s, r)
    ensures ResultKept(s, r, u)
  {
    hide Kept;
    if r.Ok? {
      SameTables(s, r.value);
    }
  }

  lemma RexActionsIsolated(s: State, a: Action, u: Name)
    requires Books(s) && Apply(s, a).Ok? && !PushedBy(a, u)
    requires Rearranges(a) || a.ActWithdraw? || a.ActCancelOrder? || a.ActDeposit? || a.ActFundLoan? || a.ActDefundLoan?
    ensures Kept(s, Apply(s, a).value, u)
  {
    hide Books, Kept, BuyRex, UnstakeToRex, SellRex, Rent, UpdateRex, RunRex, Consolidate, MoveToSavings, MoveFromSavings,
      CloseRex, Withdraw, CancelOrder, Deposit, FundLoan, DefundLoan, OnlyOwner;
    match a
    case ActBuyRex(owner, amount, votes) => BuyRexIsolated(s, owner, amount, votes, u);
    case ActUnstakeToRex(_, _, _, _, _) => UnstakeIsolated(s, a, u);
    case ActSellRex(owner, rex) => SellRexIsolated(s, owner, rex, u);
    case ActRent(_, _, _, _, _) => RentIsolated(s, a, u);
    case ActMoveFromSavings(owner, rex) => MoveFromSavingsIsolated(s, owner, rex, u);
    case ActCloseRex(owner) => CloseRexIsolated(s, owner, u);
    case ActRexExec(max) => RunRexKept(s, max, u);
    case ActWithdraw(owner, amount) => WithdrawIsolated(s, owner, amount, u);
    case ActCancelOrder(owner) => CancelIsolated(s, owner, u);
    case ActUpdateRex(_) => SavingsIsolated(s, a, u);
    case ActConsolidate(_) => SavingsIsolated(s, a, u);
    case ActMoveToSavings(_, _) => SavingsIsolated(s, a, u);
    case ActDeposit(_, _) => FundActionsIsolated(s, a, u);
    case ActFundLoan(_, _, _, _) => FundActionsIsolated(s, a, u);
    case ActDefundLoan(_, _, _, _) => FundActionsIsolated(s, a, u);
  }

  lemma CancelIsolated(s: State, owner: Name, u: Name)
    requires Books(s) && CancelOrder(s, owner).Ok? && u != owner
    ensures Kept(s, CancelOrder(s, owner).value, u)
  {
    hide Books, Kept, OnlyOwner, CancelOrder;
    SameTables(s, s);
    CancelOnly(s, owner);
    OwnerThenKept(s, s, CancelOrder(s, owner).value, owner, u);
  }

  /** An action of others leaves what `u` has. */
  lemma StepKeeps(s: State, a: Action, u: Name)
    requires Books(s) && !PushedBy(a, u)
    ensures Kept(s, Step(s, a), u) && Books(Step(s, a))
  {
    hide Books, Kept, Apply, PriceKept, LeavesRex;
    SameTables(s, s);
    ApplyKeepsBooks(s, a);
    if Apply(s, a).Ok? {
      if Rearranges(a) || a.ActWithdraw? || a.ActCancelOrder? || a.ActDeposit? || a.ActFundLoan? || a.ActDefundLoan? {
        RexActionsIsolated(s, a, u);
      } else {
        if a.ActDelegate? || a.ActUndelegate? {
          DelegateLeavesRex(s, a);
        } else if a.ActBuyRam? || a.ActSellRam? || a.ActSetRam? || a.ActSetRamRate? {
          RamLeavesRex(s, a);
        } else {
          SettingsLeaveRex(s, a);
        }
        LeavesRexKept(s, Apply(s, a), u);
      }
    }
  }

  /**
   * Over any run in which `u` does nothing: its fund, its fund with the proceeds
   * it can collect, and the REX it has not put up for sale never shrink.
   */
  lemma {:induction false} RunKeeps(s: State, actions: seq<Action>, u: Name)
    requires Books(s) && forall a :: a in actions ==> !PushedBy(a, u)
    ensures Kept(s, Run(s, actions), u)
    decreases |actions|
  {
    hide Books, Kept, Step, PushedBy;
    SameTables(s, s);
    if |actions| > 0 {
      assert actions[0] in actions;
      var s1 := Step(s, actions[0]);
      StepKeeps(s, actions[0], u);
      RunKeeps(s1, actions[1..], u);
      KeptTransitive(s, s1, Run(s, actions), u);
    } else {
      assert Kept(s, s, u);
    }
  }

  // ---------- what a sale does for its owner ----------

  lemma SettleEffect(s: State, owner: Name, proceeds: int)
    requires OrdersOk(s.orders, s.now) && proceeds >= 0
    ensures UpdateRexAccount(s, owner, proceeds).Ok?
    ensures var s' := UpdateRexAccount(s, owner, proceeds).value.0;
            && Get(s'.funds, owner) == Tokens(s, owner) + proceeds
            && PendingRex(s'.orders, owner) == PendingRex(s.orders, owner)
            && s'.balances == s.balances && CollectedProceeds(s'.orders, owner) == 0
  {
    hide OrderOk;
    SettledFacts(s.orders, owner, s.now);
    UpdateAccountFrame(s, owner, proceeds);
    PayExactly(s.(orders := SettledOrders(s.orders, owner)), owner, proceeds + CollectedProceeds(s.orders, owner));
    SettledLookup(s.orders, owner, s.now);
    hide SettledOrders, PendingRex, CollectedProceeds, PayIntoFund;
  }

  lemma PayExactly(s: State, owner: Name, amount: int)
    requires amount >= 0
    ensures PayIntoFund(s, owner, amount).Ok?
    ensures Get(PayIntoFund(s, owner, amount).value.funds, owner) == Get(s.funds, owner) + amount
  {
  }

  lemma SettledLookup(orders: seq<Order>, owner: Name, now: nat)
    requires OrdersOk(orders, now)
    ensures PendingRex(SettledOrders(orders, owner), owner) == PendingRex(orders, owner)
    ensures CollectedProceeds(SettledOrders(orders, owner), owner) == 0
  {
    SettledFacts(orders, owner, now);
    var settled := SettledOrders(orders, owner);
    var i, j := FindOrder(orders, owner), FindOrder(settled, owner);
    assert i < |orders| && orders[i].open ==> orders[i] in settled;
    if j < |settled| {
      assert settled[j] in settled;
    }
  }

  lemma QueueEffect(s: State, owner: Name, rex: int)
    requires OrderTable(s.orders) && forall o :: o in s.orders && o.owner == owner ==> o.open
    ensures PendingRex(QueueOrder(s, owner, rex).orders, owner) == PendingRex(s.orders, owner) + rex
  {
    var i := FindOrder(s.orders, owner);
    if i == |s.orders| {
      NewOrderEffect(s.orders, Order(owner, rex, 0, s.now, true));
    } else {
      RaisedOrderEffect(s.orders, i, s.orders[i].requested + rex);
    }
    hide FindOrder, PendingRex, InsertOrder, OrderTable;
  }

  lemma NewOrderEffect(orders: seq<Order>, o: Order)
    requires OrderTable(orders) && FindOrder(orders, o.owner) == |orders| && o.open
    ensures PendingRex(orders, o.owner) == 0 && PendingRex(InsertOrder(orders, o), o.owner) == o.requested
  {
    hide OrderTable, InsertOrder;
    assert forall x :: x in orders ==> x.owner != o.owner;
    InsertOrderFacts(orders, o);
    LookupOrder(InsertOrder(orders, o), o);
  }

  lemma RaisedOrderEffect(orders: seq<Order>, i: nat, requested: int)
    requires OrderTable(orders) && i < |orders| && orders[i].open
    ensures PendingRex(orders, orders[i].owner) == orders[i].requested
    ensures PendingRex(orders[i := orders[i].(requested := requested)], orders[i].owner) == requested
  {
    hide OrderTable;
    var o := orders[i].(requested := requested);
    RaiseOrderFacts(orders, i, requested);
    assert orders[i] in orders && orders[i := o][i] == o;
    LookupOrder(orders, orders[i]);
    LookupOrder(orders[i := o], o);
  }

  /**
   * After maintenance, a sale takes exactly `rex` out of the owner's free REX. It
   * is either paid for at once, at the pool's price rounded down, or queued.
   */
  lemma SaleEffect(s: State, from: Name, rex: int)
    requires Books(s) && SellRex(s, from, rex).Ok?
    ensures RunRex(s, 2).Ok? && RunRex(s, 2).value.pool.Some?
    ensures var s1 := RunRex(s, 2).value;
            var s' := SellRex(s, from, rex).value;
            var p := s1.pool.value;
            && FreeRex(s', from) == FreeRex(s1, from) - rex
            && ((RexHeld(s', from) == RexHeld(s1, from) - rex && Get(s'.funds, from) == Tokens(s1, from) + SaleProceeds(rex, p))
                || (RexHeld(s', from) == RexHeld(s1, from) && Get(s'.funds, from) == Tokens(s1, from)))
  {
    MaintainFirst(s);
    hide Books, PriceKept, RunRex, UpdateRexAccount, ProcessMaturities, FillFromPool, QueueOrder, Tokens;
    var s1 := RunRex(s, 2).value;
    var b := ProcessMaturities(s1.balances[from], Seconds(s.now));
    var s2 := s1.(balances := s1.balances[from := b]);
    ProcessRowKeepsBooks(s1, from);
    ProcessKeepsRex(s1.balances[from], Seconds(s.now));
    BooksQueue(s2);
    SameTokens(s1, s2, from);
    var fill := FillFromPool(s2.pool.value, rex).value;
    if fill.Filled? {
      FillProceeds(s2.pool.value, rex);
      SaleKeepsBooks(s2, from, rex);
      var s3 := AfterSale(s2, from, rex, fill.pool);
      SameTokens(s2, s3, from);
      SettleEffect(s3, from, fill.proceeds);
    } else {
      SettleEffect(s2, from, 0);
      SettledQueue(s2, from);
      var s3 := UpdateRexAccount(s2, from, 0).value.0;
      QueueEffect(s3, from, rex);
      QueueFrame(s3, from, rex);
    }
  }

  /** REX at the pool's price, rounded down. */
  ghost function SaleProceeds(rex: int, p: Pool): int {
    if p.rex == 0 then 0 else MulDiv(rex, p.lendable, p.rex)
  }

  lemma FillProceeds(p: Pool, rex: int)
    requires FillFromPool(p, rex).Ok? && FillFromPool(p, rex).value.Filled?
    ensures FillFromPool(p, rex).value.proceeds == SaleProceeds(rex, p)
  {
  }

  lemma {:induction false} ProcessKeepsRex(b: RexBalance, sec: nat)
    ensures ProcessMaturities(b, sec).rex == b.rex
    decreases |b.maturities|
  {
    if |b.maturities| > 0 && b.maturities[0].time <= sec {
      ProcessKeepsRex(b.(matured := b.matured + b.maturities[0].amount, maturities := b.maturities[1..]), sec);
    }
  }

  lemma BooksQueue(s: State)
    requires Books(s)
    ensures OrdersOk(s.orders, s.now)
  {
  }

  lemma SameTokens(s: State, s': State, u: Name)
    requires s'.funds == s.funds && s'.orders == s.orders
    ensures Tokens(s', u) == Tokens(s, u)
  {
  }
}
