/** Every action of the system contract keeps the books, and none lowers the price of REX. */
module RexSteps {
  import opened Outcomes
  import opened RexState
  import opened RexActions
  import opened MapSums
  import opened RexPool
  import opened RexTables
  import opened RexMaturities
  import opened RexBooks

  /** While there is REX in the pool, one REX is worth no less afterwards. */
  ghost predicate PriceKept(s: State, s': State) {
    RexOf(s.pool) > 0 ==> s'.pool.Some? && PriceRose(s.pool.value, s'.pool.value)
  }

  /** What every successful action establishes about the pool. */
  ghost predicate KeepsBooks(s: State, r: Result<State>) {
    r.Ok? ==> Books(r.value) && PriceKept(s, r.value)
  }

  /** The books read neither funds nor tokens nor bandwidth nor RAM. */
  lemma BooksFrame(s: State, s': State)
    requires Books(s)
    requires s' == s.(funds := s'.funds, tokens := s'.tokens, resources := s'.resources,
                      delegations := s'.delegations, refunds := s'.refunds, ram := s'.ram)
    ensures Books(s') && PriceKept(s, s')
  {
    if s.pool.Some? {
      PriceRoseReflexive(s.pool.value, s.pool.value);
    }
  }

  // ---------- settling an account ----------

  lemma SettledFacts(orders: seq<Order>, owner: Name, now: nat)
    requires OrdersOk(orders, now)
    ensures var settled := SettledOrders(orders, owner);
            var pending := PendingRex(orders, owner);
            && OrdersOk(settled, now)
            && (forall x :: x in settled ==> x in orders)
            && (forall x :: x in orders && (x.open || x.owner != owner) ==> x in settled)
            && (forall x :: x in settled && x.owner == owner ==> x.open && x.requested == pending)
            && pending >= 0
            && Proceeds(settled) == Proceeds(orders) - CollectedProceeds(orders, owner)
            && CollectedProceeds(orders, owner) >= 0
  {
    var i := FindOrder(orders, owner);
    if i < |orders| {
      var o := orders[i];
      assert o in orders;
      forall x | x in orders && x.owner == owner ensures x == o {
        LookupFinds(orders, x);
      }
      RemoveOrderFacts(orders, i);
    }
  }

  lemma PendingCovered(s: State, owner: Name)
    requires Books(s) && owner in s.balances
    ensures PendingRex(s.orders, owner) <= s.balances[owner].matured
  {
    BalanceWithinTotal(s.balances, owner, Maturity(s.now));
    var i := FindOrder(s.orders, owner);
    if i < |s.orders| {
      assert Covered(s.orders[i], s.balances);
    }
  }

  lemma UpdateAccountFrame(s: State, owner: Name, proceeds: int)
    ensures UpdateRexAccount(s, owner, proceeds).Ok?
    ensures var s' := UpdateRexAccount(s, owner, proceeds).value.0;
            && s' == s.(orders := SettledOrders(s.orders, owner), funds := s'.funds)
            && UpdateRexAccount(s, owner, proceeds).value.1 == PendingRex(s.orders, owner)
  {
    hide SettledOrders, PendingRex, CollectedProceeds, PayIntoFund;
    PayIntoFundFrame(s.(orders := SettledOrders(s.orders, owner)), owner, proceeds + CollectedProceeds(s.orders, owner));
  }

  /** Settling an account leaves the books. */
  lemma UpdateAccountKeepsBooks(s: State, owner: Name, proceeds: int)
    requires Books(s)
    ensures UpdateRexAccount(s, owner, proceeds).Ok?
    ensures var s' := UpdateRexAccount(s, owner, proceeds).value.0;
            && s' == s.(orders := SettledOrders(s.orders, owner), funds := s'.funds)
            && Books(s') && PriceKept(s, s')
  {
    UpdateAccountFrame(s, owner, proceeds);
    SettledFacts(s.orders, owner, s.now);
    hide UpdateRexAccount, PoolBooks, LoansOk, OrdersOk, SettledOrders, PriceRose;
    if s.pool.Some? {
      PriceRoseReflexive(s.pool.value, s.pool.value);
    }
  }

  // ---------- buying ----------

  function RowOf(balances: map<Name, RexBalance>, owner: Name): RexBalance {
    if owner in balances then balances[owner] else RexBalance(0, 0, [])
  }

  lemma CreditKeepsBalances(s: State, owner: Name, rex: int)
    requires Books(s) && rex >= 0
    ensures var was := RowOf(s.balances, owner);
            var credited := s.balances[owner := AcquireRex(was.(rex := was.rex + rex), s.now, rex)];
            && BalancesOk(credited, Maturity(s.now))
            && AllCovered(s.orders, credited)
            && Sum(RexRows(credited)) == Sum(RexRows(s.balances)) + rex
  {
    hide AcquireRex, BucketsOk, PoolBooks, LoansOk, LoansEndInTime, OrdersOk;
    var was := RowOf(s.balances, owner);
    AcquireKeepsBalance(was, s.now, rex, 0);
    hide BalanceOk;
    var b := AcquireRex(was.(rex := was.rex + rex), s.now, rex);
    RexRowsUpdate(s.balances, owner, b);
  }

  lemma PurchaseFrame(s: State, owner: Name, payment: int)
    requires AddToPool(s.pool, payment).Ok?
    ensures var q := AddToPool(s.pool, payment).value.0;
            var rex := AddToPool(s.pool, payment).value.1;
            var was := RowOf(s.balances, owner);
            PurchaseRex(s, owner, payment) ==
            Ok(s.(pool := Some(q), balances := s.balances[owner := AcquireRex(was.(rex := was.rex + rex), s.now, rex)]))
  {
    hide AddToPool, AcquireRex;
  }

  lemma PurchaseKeepsBooks(s: State, owner: Name, payment: int)
    requires Books(s) && payment > 0
    ensures PurchaseRex(s, owner, payment).Ok?
    ensures var s' := PurchaseRex(s, owner, payment).value;
            && s' == s.(pool := s'.pool, balances := s'.balances)
            && Books(s') && PriceKept(s, s') && s'.pool.Some? && s'.pool.value.rex > 0
            && s'.pool.value.lendable == LendableOf(s.pool) + payment
  {
    hide AddToPool, PoolSound, PriceRose, LoansEndInTime, OrdersOk, AcquireRex, PurchaseRex, BalancesOk, AllCovered, LoansOk;
    AddToPoolSound(s.pool, payment);
    var q := AddToPool(s.pool, payment).value.0;
    CreditKeepsBalances(s, owner, AddToPool(s.pool, payment).value.1);
    PurchaseFrame(s, owner, payment);
    LoansOkLater(s.cpuLoans, s.now, LastLoanNum(s.pool), s.now, q.loanNum);
    LoansOkLater(s.netLoans, s.now, LastLoanNum(s.pool), s.now, q.loanNum);
  }

  lemma BuyRexKeepsBooks(s: State, from: Name, amount: int, votes: bool)
    requires Books(s)
    ensures KeepsBooks(s, BuyRex(s, from, amount, votes))
  {
    hide Books, PriceRose, PurchaseRex, RunRex, UpdateRexAccount;
    if BuyRex(s, from, amount, votes).Ok? {
      var s1 := TransferFromFund(s, from, amount).value;
      BooksFrame(s, s1);
      PurchaseKeepsBooks(s1, from, amount);
      RunKeepsBooks(s, PurchaseRex(s1, from, amount).value, from);
    }
  }

  /** The common end of a purchase: maintenance, then settling the buyer. */
  lemma RunKeepsBooks(s: State, s2: State, owner: Name)
    requires Books(s2) && PriceKept(s, s2) && RunRex(s2, 2).Ok?
    ensures s2.pool.Some? && Books(RunRex(s2, 2).value)
    ensures UpdateRexAccount(RunRex(s2, 2).value, owner, 0).Ok?
    ensures var s4 := UpdateRexAccount(RunRex(s2, 2).value, owner, 0).value.0;
            Books(s4) && PriceKept(s, s4) && s4.pool.Some?
  {
    RunRexKeepsBooks(s2, 2);
    var s3 := RunRex(s2, 2).value;
    UpdateAccountKeepsBooks(s3, owner, 0);
    hide Books, PriceRose, RunRex, UpdateRexAccount;
    if RexOf(s.pool) > 0 {
      PriceRoseTransitive(s.pool.value, s2.pool.value, s3.pool.value);
    }
  }

  lemma UnstakeToRexKeepsBooks(s: State, owner: Name, receiver: Name, net: int, cpu: int, votes: bool)
    requires Books(s)
    ensures KeepsBooks(s, UnstakeToRex(s, owner, receiver, net, cpu, votes))
  {
    hide Books, PriceRose, PurchaseRex, RunRex, UpdateRexAccount;
    if UnstakeToRex(s, owner, receiver, net, cpu, votes).Ok? {
      var w := s.delegations[(owner, receiver)];
      var s1 := s.(delegations := WriteDelegation(s.delegations, owner, receiver, Weights(w.net - net, w.cpu - cpu)));
      var s2 := UpdateResourceLimits(s1, receiver, -net, -cpu).value;
      var s3 := TransferTokens(s2, STAKE_ACCOUNT, REX_ACCOUNT, net + cpu).value;
      BooksFrame(s, s3);
      PurchaseKeepsBooks(s3, owner, net + cpu);
      RunKeepsBooks(s, PurchaseRex(s3, owner, net + cpu).value, owner);
    }
  }

  // ---------- one balance at a time ----------

  /** Rearranging one balance keeps the books when its open order stays covered. */
  lemma SetBalanceKeepsBooks(s: State, owner: Name, b: RexBalance)
    requires Books(s) && owner in s.balances
    requires BalanceOk(b, Maturity(s.now)) && b.rex == s.balances[owner].rex
    requires forall o :: o in s.orders && o.owner == owner && o.open ==> o.requested <= b.matured
    ensures Books(s.(balances := s.balances[owner := b]))
    ensures PriceKept(s, s.(balances := s.balances[owner := b]))
  {
    hide BalanceOk, PoolRowSound, LoansOk, OrdersOk, LoansEndInTime, PriceRose;
    RexRowsUpdate(s.balances, owner, b);
    if s.pool.Some? {
      PriceRoseReflexive(s.pool.value, s.pool.value);
    }
  }

  lemma OwnOrdersCovered(s: State, owner: Name, matured: int)
    requires Books(s) && owner in s.balances && s.balances[owner].matured <= matured
    ensures forall o :: o in s.orders && o.owner == owner && o.open ==> o.requested <= matured
  {
    forall o | o in s.orders && o.owner == owner && o.open ensures o.requested <= matured {
      assert Covered(o, s.balances);
    }
  }

  lemma ProcessRowKeepsBooks(s: State, owner: Name)
    requires Books(s) && owner in s.balances
    ensures var b := ProcessMaturities(s.balances[owner], Seconds(s.now));
            && Books(s.(balances := s.balances[owner := b])) && PriceKept(s, s.(balances := s.balances[owner := b]))
  {
    var b := ProcessMaturities(s.balances[owner], Seconds(s.now));
    ProcessKeepsBalance(s.balances[owner], s.now, 0);
    OwnOrdersCovered(s, owner, b.matured);
    hide Books, PriceKept, ProcessMaturities, BalanceOk;
    SetBalanceKeepsBooks(s, owner, b);
  }

  /** Maintenance first: what every REX action starts with. */
  lemma MaintainFirst(s: State)
    requires Books(s) && RunRex(s, 2).Ok?
    ensures var s1 := RunRex(s, 2).value;
            Books(s1) && PriceKept(s, s1) && s.pool.Some? && s1.pool.Some? && s1.now == s.now
  {
    hide Books, PriceRose, RunRex;
    MaintenanceNeedsPool(s, 2);
    RunRexKeepsBooks(s, 2);
  }

  lemma MaintenanceNeedsPool(s: State, max: nat)
    requires RunRex(s, max).Ok?
    ensures s.pool.Some?
  {
    hide ProcessLoans, ProcessOrders;
  }

  /** A later state with the same pool has the same price. */
  lemma SamePoolPrice(s: State, s1: State, s2: State)
    requires PriceKept(s, s1) && s2.pool == s1.pool
    ensures PriceKept(s, s2)
  {
    hide PriceRose;
  }

  lemma UpdateRexKeepsBooks(s: State, owner: Name)
    requires Books(s)
    ensures KeepsBooks(s, UpdateRex(s, owner))
  {
    hide Books, PriceKept, RunRex, UpdateRexAccount, ProcessMaturities;
    if UpdateRex(s, owner).Ok? {
      MaintainFirst(s);
      var s1 := RunRex(s, 2).value;
      UpdateAccountKeepsBooks(s1, owner, 0);
      var s2 := UpdateRexAccount(s1, owner, 0).value.0;
      ProcessRowKeepsBooks(s2, owner);
      SamePoolPrice(s, s1, UpdateRex(s, owner).value);
    }
  }

  lemma ConsolidateKeepsBooks(s: State, owner: Name)
    requires Books(s)
    ensures KeepsBooks(s, Consolidate(s, owner))
  {
    hide Books, PriceKept, RunRex, UpdateRexAccount, ConsolidateBuckets, BalanceOk, SettledOrders, PendingRex;
    if Consolidate(s, owner).Ok? {
      MaintainFirst(s);
      var s1 := RunRex(s, 2).value;
      UpdateAccountKeepsBooks(s1, owner, 0);
      var s2 := UpdateRexAccount(s1, owner, 0).value.0;
      var pending := PendingRex(s1.orders, owner);
      SettledOwnOrders(s1, owner);
      ConsolidateKeepsBalance(s1.balances[owner], s.now, pending, 0);
      UpdateAccountFrame(s1, owner, 0);
      SetBalanceKeepsBooks(s2, owner, ConsolidateBuckets(s1.balances[owner], s.now, pending));
      SamePoolPrice(s, s1, Consolidate(s, owner).value);
    }
  }

  /** After settling, the owner's only order is open and asks for the pending REX, which is matured. */
  lemma SettledOwnOrders(s: State, owner: Name)
    requires Books(s) && owner in s.balances
    ensures BalanceOk(s.balances[owner], Maturity(s.now)) && s.now < CLOCK_LIMIT
    ensures 0 <= PendingRex(s.orders, owner) <= s.balances[owner].matured
    ensures forall o :: o in SettledOrders(s.orders, owner) && o.owner == owner ==> o.open && o.requested == PendingRex(s.orders, owner)
  {
    SettledFacts(s.orders, owner, s.now);
    PendingCovered(s, owner);
  }

  lemma MoveToSavingsKeepsBooks(s: State, owner: Name, rex: Int64)
    requires Books(s)
    ensures KeepsBooks(s, MoveToSavings(s, owner, rex))
  {
    hide Books, PriceKept, RunRex, UpdateRexAccount, MoveIntoSavings, BalanceOk, SettledOrders, PendingRex;
    if MoveToSavings(s, owner, rex).Ok? {
      MaintainFirst(s);
      var s1 := RunRex(s, 2).value;
      UpdateAccountKeepsBooks(s1, owner, 0);
      var s2 := UpdateRexAccount(s1, owner, 0).value.0;
      var pending := PendingRex(s1.orders, owner);
      SettledOwnOrders(s1, owner);
      UpdateAccountFrame(s1, owner, 0);
      MoveInKeepsBalance(s1.balances[owner], s.now, pending, rex, 0);
      SetBalanceKeepsBooks(s2, owner, MoveIntoSavings(s1.balances[owner], s.now, pending, rex).value);
      SamePoolPrice(s, s1, MoveToSavings(s, owner, rex).value);
    }
  }

  lemma MoveFromSavingsKeepsBooks(s: State, owner: Name, rex: int)
    requires Books(s)
    ensures KeepsBooks(s, MoveFromSavings(s, owner, rex))
  {
    hide Books, PriceKept, RunRex, UpdateRexAccount, MoveOutOfSavings, BalanceOk, SettledOrders;
    if MoveFromSavings(s, owner, rex).Ok? {
      MaintainFirst(s);
      var s1 := RunRex(s, 2).value;
      SettledOwnOrders(s1, owner);
      MoveOutKeepsBalance(s1.balances[owner], s.now, rex, 0);
      var b := MoveOutOfSavings(s1.balances[owner], s.now, rex).value;
      OwnOrdersCovered(s1, owner, b.matured);
      SetBalanceKeepsBooks(s1, owner, b);
      var s2 := s1.(balances := s1.balances[owner := b]);
      UpdateAccountKeepsBooks(s2, owner, 0);
      SamePoolPrice(s, s1, MoveFromSavings(s, owner, rex).value);
    }
  }

  lemma CloseRexKeepsBooks(s: State, owner: Name)
    requires Books(s)
    ensures KeepsBooks(s, CloseRex(s, owner))
  {
    hide Books, PriceKept, RunRex, UpdateRexAccount, SettledOrders;
    if CloseRex(s, owner).Ok? {
      var s1 := if s.pool.Some? then RunRex(s, 2).value else s;
      if s.pool.Some? {
        MaintainFirst(s);
      } else {
        BooksFrame(s, s);
      }
      UpdateAccountKeepsBooks(s1, owner, 0);
      var s2 := UpdateRexAccount(s1, owner, 0).value.0;
      var s4 := CloseRex(s, owner).value;
      BooksFrame(s2, s2.(funds := s4.funds));
      DropEmptyRow(s2.(funds := s4.funds), owner);
      SamePoolPrice(s, s1, s4);
    }
  }

  /** A row without REX can go: its owner has no open order. */
  lemma DropEmptyRow(s: State, owner: Name)
    requires Books(s) && (owner in s.balances ==> s.balances[owner].rex == 0)
    ensures Books(s.(balances := s.balances - {owner}))
  {
    SumErase(RexRows(s.balances), owner);
    assert RexRows(s.balances - {owner}) == RexRows(s.balances) - {owner};
    forall o | o in s.orders ensures Covered(o, s.balances - {owner}) {
      if o.open {
        OpenOrderHasBalance(s, o);
      }
    }
    hide PoolRowSound, LoansOk, OrdersOk, LoansEndInTime, BalanceOk;
  }

  // ---------- selling ----------

  /** A queue whose open orders are covered and outlast no loan. */
  lemma OrdersKeepBooks(s: State, orders: seq<Order>)
    requires Books(s) && OrdersOk(orders, s.now) && AllCovered(orders, s.balances)
    requires LoansEndInTime(orders, s.cpuLoans) && LoansEndInTime(orders, s.netLoans)
    ensures Books(s.(orders := orders))
  {
    hide PoolRowSound, LoansOk, BalancesOk, OrdersOk, AllCovered, LoansEndInTime;
  }

  lemma CancelKeepsBooks(s: State, owner: Name)
    requires Books(s)
    ensures KeepsBooks(s, CancelOrder(s, owner))
  {
    var i := FindOrder(s.orders, owner);
    if i < |s.orders| && s.orders[i].open {
      var orders := RemoveAt(s.orders, i);
      RemoveOrderFacts(s.orders, i);
      assert OrdersOk(orders, s.now) && AllCovered(orders, s.balances);
      hide Books, OrdersOk, AllCovered, PriceRose;
      assert Books(s.(orders := orders)) by {
        EndInTimeSubset(s, orders);
        OrdersKeepBooks(s, orders);
      }
      BooksFrame(s, s);
      SamePoolPrice(s, s, s.(orders := orders));
    }
  }

  lemma EndInTimeSubset(s: State, orders: seq<Order>)
    requires Books(s) && forall x :: x in orders && x.open ==> x in s.orders
    ensures LoansEndInTime(orders, s.cpuLoans) && LoansEndInTime(orders, s.netLoans)
  {
  }

  /** An order that cannot be filled joins the queue, or adds to the owner's open order. */
  lemma QueueKeepsBooks(s: State, owner: Name, rex: int)
    requires Books(s) && owner in s.balances && 0 < rex <= s.balances[owner].matured
    requires forall o :: o in s.orders && o.owner == owner ==> o.open
    requires RequestedBy(QueueOrder(s, owner, rex), owner) <= s.balances[owner].matured
    ensures Books(QueueOrder(s, owner, rex))
  {
    var i := FindOrder(s.orders, owner);
    if i == |s.orders| {
      NewOrderKeepsBooks(s, owner, rex);
    } else {
      assert s.orders[i].requested > 0 by {
        assert s.orders[i] in s.orders && OrderOk(s.orders[i], s.now);
      }
      hide BooksButCover;
      RaisedOrderKeepsBooks(s, i, s.orders[i].requested + rex);
    }
  }

  lemma NewOrderKeepsBooks(s: State, owner: Name, rex: int)
    requires Books(s) && owner in s.balances && 0 < rex <= s.balances[owner].matured
    requires forall o :: o in s.orders ==> o.owner != owner
    ensures Books(s.(orders := InsertOrder(s.orders, Order(owner, rex, 0, s.now, true))))
  {
    var o := Order(owner, rex, 0, s.now, true);
    InsertOrderFacts(s.orders, o);
    LoansEndByTerm(s);
    var orders := InsertOrder(s.orders, o);
    assert OrdersOk(orders, s.now) && AllCovered(orders, s.balances);
    assert LoansEndInTime(orders, s.cpuLoans) && LoansEndInTime(orders, s.netLoans);
    hide Books, OrdersOk, AllCovered, LoansEndInTime;
    OrdersKeepBooks(s, orders);
  }

  lemma RaisedOrderKeepsBooks(s: State, i: nat, requested: int)
    requires Books(s) && i < |s.orders| && s.orders[i].open && s.orders[i].owner in s.balances
    requires var raised := s.orders[i := s.orders[i].(requested := requested)];
             0 < requested && RequestedBy(s.(orders := raised), s.orders[i].owner) <= s.balances[s.orders[i].owner].matured
    ensures Books(s.(orders := s.orders[i := s.orders[i].(requested := requested)]))
  {
    var o := s.orders[i].(requested := requested);
    var raised := s.orders[i := o];
    assert s.orders[i] in s.orders;
    RaiseOrderFacts(s.orders, i, requested);
    RaisedMembers(s.orders, i, o);
    assert raised[i] == o;
    LookupFinds(raised, o);
    assert OrdersOk(raised, s.now) && AllCovered(raised, s.balances);
    assert LoansEndInTime(raised, s.cpuLoans) && LoansEndInTime(raised, s.netLoans);
    hide Books, OrdersOk, AllCovered, LoansEndInTime;
    OrdersKeepBooks(s, raised);
  }

  lemma RaisedMembers(orders: seq<Order>, i: nat, o: Order)
    requires i < |orders|
    ensures forall x :: x in orders[i := o] ==> x == o || x in orders
  {
  }

  lemma LoansEndByTerm(s: State)
    requires Books(s)
    ensures forall l :: l in s.cpuLoans || l in s.netLoans ==> l.expiration <= s.now + LOAN_TERM
  {
    forall l | l in s.cpuLoans || l in s.netLoans ensures l.expiration <= s.now + LOAN_TERM {
      assert LoanOk(l, s.now, LastLoanNum(s.pool));
    }
  }

  /** Settling the seller after a sale restores the cover of an open order, which the final check compares. */
  lemma SettleSaleKeepsBooks(s: State, s3: State, owner: Name, proceeds: int)
    requires Books(s) && BooksButCover(s3) && owner in s3.balances && s3.orders == s.orders
    requires s3.balances == s.balances[owner := s3.balances[owner]]
    requires PendingRex(s3.orders, owner) <= s3.balances[owner].matured
    ensures UpdateRexAccount(s3, owner, proceeds).Ok?
    ensures Books(UpdateRexAccount(s3, owner, proceeds).value.0)
  {
    SettledFacts(s3.orders, owner, s3.now);
    UpdateAccountFrame(s3, owner, proceeds);
    hide BooksButCover, UpdateRexAccount, SettledOrders, PendingRex;
    CloseKeepsButCover(s3, SettledOrders(s3.orders, owner));
    var s4 := UpdateRexAccount(s3, owner, proceeds).value.0;
    forall o | o in s4.orders ensures Covered(o, s4.balances) {
      assert Covered(o, s.balances);
    }
    ButCoverFrame(s3.(orders := SettledOrders(s3.orders, owner)), s4);
  }

  lemma ButCoverFrame(s: State, s': State)
    requires BooksButCover(s) && s' == s.(funds := s'.funds)
    ensures BooksButCover(s')
  {
    hide PoolRowSound, LoansOk, BalancesOk, OrdersOk, LoansEndInTime;
  }

  lemma SellRexKeepsBooks(s: State, from: Name, rex: int)
    requires Books(s)
    ensures KeepsBooks(s, SellRex(s, from, rex))
  {
    hide Books, BooksButCover, PriceKept, PriceRose, RunRex, UpdateRexAccount, ProcessMaturities, FillFromPool,
      QueueOrder, PendingRex, SettledOrders;
    if SellRex(s, from, rex).Ok? {
      MaintainFirst(s);
      var s1 := RunRex(s, 2).value;
      ProcessRowKeepsBooks(s1, from);
      var b := ProcessMaturities(s1.balances[from], Seconds(s.now));
      var s2 := s1.(balances := s1.balances[from := b]);
      assert BooksButCover(s2) by { BooksParts(s2); }
      SaleKeepsBooks(s2, from, rex);
      var fill := FillFromPool(s2.pool.value, rex).value;
      if fill.Filled? {
        var s3 := AfterSale(s2, from, rex, fill.pool);
        UpdateAccountFrame(s3, from, fill.proceeds);
        SettleSaleKeepsBooks(s2, s3, from, fill.proceeds);
        PriceAfterFill(s, s1, SellRex(s, from, rex).value);
      } else {
        UpdateAccountKeepsBooks(s2, from, 0);
        UpdateAccountFrame(s2, from, 0);
        var s3 := UpdateRexAccount(s2, from, 0).value.0;
        OnlyOpenOrdersLeft(s2, from);
        QueueKeepsBooks(s3, from, rex);
        QueueFrame(s3, from, rex);
        SamePoolPrice(s, s1, SellRex(s, from, rex).value);
      }
    }
  }

  lemma BooksParts(s: State)
    requires Books(s)
    ensures BooksButCover(s) && AllCovered(s.orders, s.balances)
  {
  }

  lemma OnlyOpenOrdersLeft(s: State, owner: Name)
    requires Books(s)
    ensures forall o :: o in SettledOrders(s.orders, owner) && o.owner == owner ==> o.open
  {
    SettledFacts(s.orders, owner, s.now);
  }

  lemma QueueFrame(s: State, owner: Name, rex: int)
    ensures var s' := QueueOrder(s, owner, rex);
            s' == s.(orders := s'.orders)
  {
  }

  lemma PriceAfterFill(s: State, s1: State, s2: State)
    requires PriceKept(s, s1) && s1.pool.Some? && s2.pool.Some? && PriceRose(s1.pool.value, s2.pool.value)
    ensures PriceKept(s, s2)
  {
    hide PriceRose;
    if RexOf(s.pool) > 0 {
      PriceRoseTransitive(s.pool.value, s1.pool.value, s2.pool.value);
    }
  }

  // ---------- loans ----------

  /** A successful rent, as maintenance, a payment from the fund, and the new loan. */
  lemma RentFrame(s: State, kind: Kind, from: Name, receiver: Name, payment: int, fund: int)
    requires Books(s) && Rent(s, kind, from, receiver, payment, fund).Ok?
    ensures RunRex(s, 2).Ok? && TransferFromFund(RunRex(s, 2).value, from, payment + fund).Ok?
    ensures var s2 := TransferFromFund(RunRex(s, 2).value, from, payment + fund).value;
            var s' := Rent(s, kind, from, receiver, payment, fund).value;
            && s2.pool.Some? && s2 == RunRex(s, 2).value.(funds := s2.funds)
            && s' == WithNewLoan(s2, kind, from, receiver, payment, fund).(resources := s'.resources)
  {
    hide Books, PriceRose, RunRex, AddLoan, BancorOutput, InsertLoan, ChangeLimit, LoansAvailable;
    MaintainFirst(s);
    var s2 := TransferFromFund(RunRex(s, 2).value, from, payment + fund).value;
    var rented := BancorOutput(s2.pool.value.rent, s2.pool.value.unlent, payment);
    ChangeLimitFrame(WithNewLoan(s2, kind, from, receiver, payment, fund), kind, receiver, rented);
  }

  lemma RentKeepsBooks(s: State, kind: Kind, from: Name, receiver: Name, payment: int, fund: int)
    requires Books(s)
    ensures KeepsBooks(s, Rent(s, kind, from, receiver, payment, fund))
  {
    hide Books, PriceKept, PriceRose, RunRex, AddLoan, BancorOutput, LoansAvailable;
    if Rent(s, kind, from, receiver, payment, fund).Ok? {
      MaintainFirst(s);
      var s1 := RunRex(s, 2).value;
      var s2 := TransferFromFund(s1, from, payment + fund).value;
      BooksFrame(s1, s2);
      AvailableFrame(s1, s2);
      NewLoanKeepsBooks(s2, kind, from, receiver, payment, fund);
      var s3 := WithNewLoan(s2, kind, from, receiver, payment, fund);
      ChangeLimitFrame(s3, kind, receiver, BancorOutput(s2.pool.value.rent, s2.pool.value.unlent, payment));
      var s4 := Rent(s, kind, from, receiver, payment, fund).value;
      BooksFrame(s3, s4);
      PriceAfterFill(s, s1, s4);
    }
  }

  lemma AvailableFrame(s: State, s': State)
    requires s' == s.(funds := s'.funds)
    ensures LoansAvailable(s') == LoansAvailable(s)
  {
  }

  /** The pool and loan table once a new loan has been entered. */
  ghost function WithNewLoan(s: State, kind: Kind, from: Name, receiver: Name, payment: int, fund: int): State
    requires s.pool.Some?
  {
    var rented := BancorOutput(s.pool.value.rent, s.pool.value.unlent, payment);
    var p := AddLoan(s.pool.value, payment, rented, true);
    s.(pool := Some(p)).WithLoans(kind,
      InsertLoan(s.Loans(kind), Loan(from, receiver, payment, fund, rented, p.loanNum, s.now + LOAN_TERM)))
  }

  lemma NewLoanKeepsBooks(s: State, kind: Kind, from: Name, receiver: Name, payment: int, fund: int)
    requires Books(s) && LoansAvailable(s) && 0 < payment && 0 <= fund
    requires payment < BancorOutput(s.pool.value.rent, s.pool.value.unlent, payment)
    ensures Books(WithNewLoan(s, kind, from, receiver, payment, fund))
    ensures PriceRose(s.pool.value, WithNewLoan(s, kind, from, receiver, payment, fund).pool.value)
  {
    var rented := BancorOutput(s.pool.value.rent, s.pool.value.unlent, payment);
    var p := AddLoan(s.pool.value, payment, rented, true);
    AddLoanSound(s.pool.value, payment, true);
    assert p.loanNum == s.pool.value.loanNum + 1;
    hide BancorOutput, AddLoan, PriceRose, PoolSound, BalancesOk, OrdersOk, LoansOk;
    AvailableMeansNoOpenOrder(s);
    LoanNumsBelow(s.Loans(kind), s.now, s.pool.value.loanNum);
    LoansOkLater(s.cpuLoans, s.now, s.pool.value.loanNum, s.now, p.loanNum);
    LoansOkLater(s.netLoans, s.now, s.pool.value.loanNum, s.now, p.loanNum);
    var loan := Loan(from, receiver, payment, fund, rented, p.loanNum, s.now + LOAN_TERM);
    LoansOkInsert(s.Loans(kind), loan, s.now, p.loanNum);
    InsertLoanTotals(s.Loans(kind), loan);
  }

  lemma LoanNumsBelow(loans: seq<Loan>, now: nat, lastNum: int)
    requires LoansOk(loans, now, lastNum)
    ensures forall l :: l in loans ==> l.num <= lastNum
  {
    forall l | l in loans ensures l.num <= lastNum {
      assert LoanOk(l, now, lastNum);
    }
  }

  /** Changing the renewal fund of one loan keeps the books. */
  lemma LoanFundKeepsBooks(s: State, kind: Kind, i: nat, balance: int)
    requires Books(s) && i < |s.Loans(kind)| && balance >= 0
    ensures Books(s.WithLoans(kind, s.Loans(kind)[i := s.Loans(kind)[i].(balance := balance)]))
  {
    var loans := s.Loans(kind);
    var changed := loans[i := loans[i].(balance := balance)];
    RefundLoanTotals(loans, i, balance);
    RefundKeepsLoanTable(loans, i, balance);
    assert loans[i] in loans;
    forall l | l in changed ensures LoanOk(l, s.now, LastLoanNum(s.pool)) {
      assert l in loans || l == loans[i].(balance := balance);
    }
    hide PoolRowSound, BalancesOk, OrdersOk, AllCovered;
  }

  lemma FundLoanKeepsBooks(s: State, kind: Kind, from: Name, num: nat, payment: int)
    requires Books(s)
    ensures KeepsBooks(s, FundLoan(s, kind, from, num, payment))
  {
    hide Books, PriceKept;
    if FundLoan(s, kind, from, num, payment).Ok? {
      var s1 := TransferFromFund(s, from, payment).value;
      BooksFrame(s, s1);
      var i := FindLoan(s.Loans(kind), num);
      LoanInTableOk(s, kind, i);
      LoanFundKeepsBooks(s1, kind, i, s.Loans(kind)[i].balance + payment);
      SamePoolPrice(s, s1, FundLoan(s, kind, from, num, payment).value);
    }
  }

  lemma LoanInTableOk(s: State, kind: Kind, i: nat)
    requires Books(s) && i < |s.Loans(kind)|
    ensures s.Loans(kind)[i].balance >= 0
  {
    assert s.Loans(kind)[i] in s.Loans(kind);
    assert LoanOk(s.Loans(kind)[i], s.now, LastLoanNum(s.pool));
  }

  lemma DefundLoanKeepsBooks(s: State, kind: Kind, from: Name, num: nat, amount: int)
    requires Books(s)
    ensures KeepsBooks(s, DefundLoan(s, kind, from, num, amount))
  {
    hide Books, PriceKept;
    if DefundLoan(s, kind, from, num, amount).Ok? {
      var i := FindLoan(s.Loans(kind), num);
      var balance := s.Loans(kind)[i].balance - amount;
      LoanFundKeepsBooks(s, kind, i, balance);
      var s1 := s.WithLoans(kind, s.Loans(kind)[i := s.Loans(kind)[i].(balance := balance)]);
      BooksFrame(s1, DefundLoan(s, kind, from, num, amount).value);
      BooksFrame(s, s);
      SamePoolPrice(s, s, DefundLoan(s, kind, from, num, amount).value);
    }
  }

  // ---------- the remaining actions ----------

  lemma WithdrawKeepsBooks(s: State, owner: Name, amount: int)
    requires Books(s)
    ensures KeepsBooks(s, Withdraw(s, owner, amount))
  {
    hide Books, PriceKept, UpdateRexAccount;
    if Withdraw(s, owner, amount).Ok? {
      UpdateAccountKeepsBooks(s, owner, 0);
      var s1 := UpdateRexAccount(s, owner, 0).value.0;
      BooksFrame(s1, Withdraw(s, owner, amount).value);
      SamePoolPrice(s, s1, Withdraw(s, owner, amount).value);
    }
  }

  lemma SetRexKeepsBooks(s: State, balance: int)
    requires Books(s)
    ensures KeepsBooks(s, SetRex(s, balance))
  {
    hide LoansOk, BalancesOk, OrdersOk, AllCovered, LoansEndInTime, PriceRose;
    if SetRex(s, balance).Ok? {
      PriceRoseReflexive(s.pool.value, s.pool.value.(rent := balance));
    }
  }

  lemma AuctionKeepsBooks(s: State, bid: nat)
    requires Books(s)
    ensures KeepsBooks(s, CloseNameAuction(s, bid))
  {
    hide LoansOk, BalancesOk, OrdersOk, AllCovered, LoansEndInTime, PriceRose;
    if s.pool.Some? {
      PriceRoseReflexive(s.pool.value, CloseNameAuction(s, bid).value.pool.value);
    }
  }

  lemma AdvanceKeepsBooks(s: State, to: nat)
    requires Books(s)
    ensures KeepsBooks(s, AdvanceClock(s, to))
  {
    if s.now <= to < CLOCK_LIMIT {
      MaturityMonotone(s.now, to);
      LoansOkLater(s.cpuLoans, s.now, LastLoanNum(s.pool), to, LastLoanNum(s.pool));
      LoansOkLater(s.netLoans, s.now, LastLoanNum(s.pool), to, LastLoanNum(s.pool));
      if s.pool.Some? {
        PriceRoseReflexive(s.pool.value, s.pool.value);
      }
      hide LoansOk, PoolRowSound, AllCovered, LoansEndInTime, PriceRose, Maturity, BucketsOk;
    }
  }

  lemma ChannelRowKeepsBooks(s: State, from: Name, amount: int)
    requires Books(s) && amount >= 0
    ensures KeepsBooks(s, ChannelToRex(s, from, amount))
  {
    if ChannelToRex(s, from, amount).Ok? {
      if s.pool.Some? {
        ChannelKeepsBooks(s, from, amount);
      } else {
        BooksFrame(s, s);
      }
      hide Books, ChannelToRex, PriceRose;
    }
  }

  lemma PayRamFeeKeepsBooks(s: State, payer: Name, fee: int)
    requires Books(s)
    ensures KeepsBooks(s, PayRamFee(s, payer, fee))
  {
    hide Books, PriceRose, ChannelToRex, TransferTokens;
    if PayRamFee(s, payer, fee).Ok? {
      if fee > 0 {
        var s1 := TransferTokens(s, payer, RAMFEE_ACCOUNT, fee).value;
        TransferBooks(s, payer, RAMFEE_ACCOUNT, fee);
        ChannelRowKeepsBooks(s1, RAMFEE_ACCOUNT, fee);
      } else {
        BooksFrame(s, s);
      }
    }
  }

  lemma TransferBooks(s: State, from: Name, to: Name, amount: int)
    requires Books(s)
    ensures KeepsBooks(s, TransferTokens(s, from, to, amount))
    ensures TransferTokens(s, from, to, amount).Ok? ==> TransferTokens(s, from, to, amount).value.pool == s.pool
  {
    hide Books, PriceKept;
    if TransferTokens(s, from, to, amount).Ok? {
      BooksFrame(s, TransferTokens(s, from, to, amount).value);
    }
  }

  lemma BuyRamKeepsBooks(s: State, payer: Name, receiver: Name, quant: int)
    requires Books(s)
    ensures KeepsBooks(s, BuyRam(s, payer, receiver, quant))
  {
    hide Books, PriceKept, PayRamFee, RamFee, UpdateRamSupply, TransferTokens, BancorOutput;
    if BuyRam(s, payer, receiver, quant).Ok? {
      var s0 := UpdateRamSupply(s);
      assert s0 == s.(ram := s0.ram) by { SupplyFrame(s); }
      BooksFrame(s, s0);
      TransferBooks(s0, payer, RAM_ACCOUNT, quant - RamFee(quant));
      var s1 := TransferTokens(s0, payer, RAM_ACCOUNT, quant - RamFee(quant)).value;
      PayRamFeeKeepsBooks(s1, payer, RamFee(quant));
      var s2 := PayRamFee(s1, payer, RamFee(quant)).value;
      BooksFrame(s2, BuyRam(s, payer, receiver, quant).value);
      SamePriceBefore(s, s1, s2);
      SamePoolPrice(s, s2, BuyRam(s, payer, receiver, quant).value);
    }
  }

  lemma SupplyFrame(s: State)
    ensures UpdateRamSupply(s) == s.(ram := UpdateRamSupply(s).ram)
  {
  }

  lemma SamePriceBefore(s: State, s1: State, s2: State)
    requires s1.pool == s.pool && PriceKept(s1, s2)
    ensures PriceKept(s, s2)
  {
    hide PriceRose;
  }

  lemma SellRamKeepsBooks(s: State, account: Name, bytes: int)
    requires Books(s)
    ensures KeepsBooks(s, SellRam(s, account, bytes))
  {
    hide Books, PriceKept, PayRamFee, RamFee, UpdateRamSupply, TransferTokens, RamProceeds;
    if SellRam(s, account, bytes).Ok? {
      var s0 := UpdateRamSupply(s);
      assert s0 == s.(ram := s0.ram) by { SupplyFrame(s); }
      var s1 := ReleaseRam(s0, account, bytes).value;
      BooksFrame(s, s1);
      var tokens := RamProceeds(s0.ram, bytes);
      TransferBooks(s1, RAM_ACCOUNT, account, tokens);
      var s2 := TransferTokens(s1, RAM_ACCOUNT, account, tokens).value;
      PayRamFeeKeepsBooks(s2, account, RamFee(tokens));
      SamePriceBefore(s, s2, SellRam(s, account, bytes).value);
    }
  }

  lemma BandwidthKeepsBooks(s: State, source: Name, receiver: Name, dNet: int, dCpu: int, transfer: bool)
    requires Books(s)
    ensures KeepsBooks(s, ChangeBandwidth(s, source, receiver, dNet, dCpu, transfer))
  {
    hide Books, PriceKept, SameSign, AddToLimits, WriteDelegation, WriteRefund;
    if ChangeBandwidth(s, source, receiver, dNet, dCpu, transfer).Ok? {
      BooksFrame(s, ChangeBandwidth(s, source, receiver, dNet, dCpu, transfer).value);
    }
  }

  /** Every action keeps the books, and none lowers the price of REX while there is any. */
  lemma ApplyKeepsBooks(s: State, a: Action)
    requires Books(s)
    ensures KeepsBooks(s, Apply(s, a))
  {
    hide Books, PriceKept, Withdraw, BuyRex, UnstakeToRex, SellRex, CancelOrder, Rent, FundLoan, DefundLoan, UpdateRex,
      SetRex, RunRex, Consolidate, MoveToSavings, MoveFromSavings, CloseRex, CloseNameAuction, ChangeBandwidth, BuyRam,
      SellRam, AdvanceClock, TransferTokens, KeepsBooks, Deposit, RefundStake, SetRam, SetRamRate, DelegateBandwidth,
      UndelegateBandwidth;
    match a
    case ActAdvance(to) => AdvanceKeepsBooks(s, to);
    case ActTransfer(from, to, amount) => TransferBooks(s, from, to, amount);
    case ActDeposit(owner, amount) => DepositKeepsBooks(s, owner, amount);
    case ActWithdraw(owner, amount) => WithdrawKeepsBooks(s, owner, amount);
    case ActBuyRex(owner, amount, votes) => BuyRexKeepsBooks(s, owner, amount, votes);
    case ActUnstakeToRex(owner, receiver, net, cpu, votes) => UnstakeToRexKeepsBooks(s, owner, receiver, net, cpu, votes);
    case ActSellRex(owner, rex) => SellRexKeepsBooks(s, owner, rex);
    case ActCancelOrder(owner) => CancelKeepsBooks(s, owner);
    case ActRent(kind, owner, receiver, payment, fund) => RentKeepsBooks(s, kind, owner, receiver, payment, fund);
    case ActFundLoan(kind, owner, num, amount) => FundLoanKeepsBooks(s, kind, owner, num, amount);
    case ActDefundLoan(kind, owner, num, amount) => DefundLoanKeepsBooks(s, kind, owner, num, amount);
    case ActUpdateRex(owner) => UpdateRexKeepsBooks(s, owner);
    case ActSetRex(amount) => SetRexKeepsBooks(s, amount);
    case ActRexExec(max) => RexExecKeepsBooks(s, max);
    case ActConsolidate(owner) => ConsolidateKeepsBooks(s, owner);
    case ActMoveToSavings(owner, rex) => MoveToSavingsKeepsBooks(s, owner, rex);
    case ActMoveFromSavings(owner, rex) => MoveFromSavingsKeepsBooks(s, owner, rex);
    case ActCloseRex(owner) => CloseRexKeepsBooks(s, owner);
    case ActCloseNameAuction(bid) => AuctionKeepsBooks(s, bid);
    case ActDelegate(owner, receiver, net, cpu, transfer) => DelegateKeepsBooks(s, owner, receiver, net, cpu, transfer);
    case ActUndelegate(owner, receiver, net, cpu) => DelegateKeepsBooks(s, owner, receiver, net, cpu, false);
    case ActRefund(owner) => RefundKeepsBooks(s, owner);
    case ActBuyRam(owner, receiver, amount) => BuyRamKeepsBooks(s, owner, receiver, amount);
    case ActSellRam(owner, bytes) => SellRamKeepsBooks(s, owner, bytes);
    case ActSetRam(size) => RamSettingsKeepBooks(s, size, 0);
    case ActSetRamRate(rate) => RamSettingsKeepBooks(s, 0, rate);
  }

  lemma DelegateKeepsBooks(s: State, from: Name, receiver: Name, net: int, cpu: int, transfer: bool)
    requires Books(s)
    ensures KeepsBooks(s, DelegateBandwidth(s, from, receiver, net, cpu, transfer))
    ensures KeepsBooks(s, UndelegateBandwidth(s, from, receiver, net, cpu))
  {
    hide Books, ChangeBandwidth, PriceKept;
    BandwidthKeepsBooks(s, from, receiver, net, cpu, transfer);
    BandwidthKeepsBooks(s, from, receiver, -net, -cpu, false);
  }

  lemma DepositKeepsBooks(s: State, owner: Name, amount: int)
    requires Books(s)
    ensures KeepsBooks(s, Deposit(s, owner, amount))
  {
    hide Books, PriceKept;
    if Deposit(s, owner, amount).Ok? {
      BooksFrame(s, Deposit(s, owner, amount).value);
    }
  }

  lemma RexExecKeepsBooks(s: State, max: nat)
    requires Books(s)
    ensures KeepsBooks(s, RunRex(s, max))
  {
    hide Books, RunRex, PriceRose;
    if RunRex(s, max).Ok? {
      RunRexKeepsBooks(s, max);
    }
  }

  lemma RefundKeepsBooks(s: State, owner: Name)
    requires Books(s)
    ensures KeepsBooks(s, RefundStake(s, owner))
  {
    hide Books, PriceKept;
    if RefundStake(s, owner).Ok? {
      BooksFrame(s, RefundStake(s, owner).value);
    }
  }

  lemma RamSettingsKeepBooks(s: State, size: int, rate: nat)
    requires Books(s)
    ensures KeepsBooks(s, SetRam(s, size)) && KeepsBooks(s, SetRamRate(s, rate))
  {
    hide Books, PriceKept, UpdateRamSupply;
    SupplyFrame(s);
    if SetRam(s, size).Ok? {
      BooksFrame(s, SetRam(s, size).value);
    }
    BooksFrame(s, SetRamRate(s, rate).value);
  }
}
