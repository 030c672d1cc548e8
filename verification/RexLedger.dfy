/** Token conservation: every token on celes.rex belongs to a fund, the pool, a loan or a filled order. */
module RexLedger {
  import opened Outcomes
  import opened RexState
  import opened RexActions
  import opened MapSums
  import opened RexPool
  import opened RexTables
  import opened RexMaturities
  import opened RexBooks
  import opened RexSteps

  /** Tokens owed by celes.rex: REX funds, the pool, renewal funds and uncollected proceeds. */
  ghost function Claims(s: State): int {
    Sum(s.funds) + LendableOf(s.pool) + LoanFunds(s.cpuLoans) + LoanFunds(s.netLoans) + Proceeds(s.orders)
  }

  /** Tokens on celes.rex beyond what it owes. */
  ghost function Surplus(s: State): int {
    Held(s.tokens, REX_ACCOUNT) - Claims(s)
  }

  lemma TransferMoves(s: State, from: Name, to: Name, amount: int)
    requires TransferTokens(s, from, to, amount).Ok?
    ensures var s' := TransferTokens(s, from, to, amount).value;
            && s' == s.(tokens := s'.tokens) && amount > 0 && from != to
            && Held(s'.tokens, from) == Held(s.tokens, from) - amount >= 0
            && Held(s'.tokens, to) == Held(s.tokens, to) + amount
            && forall x :: x != from && x != to ==> Held(s'.tokens, x) == Held(s.tokens, x)
  {
  }

  lemma PayIntoFundAdds(s: State, owner: Name, amount: int)
    requires amount >= 0
    ensures PayIntoFund(s, owner, amount).Ok?
    ensures var s' := PayIntoFund(s, owner, amount).value;
            s' == s.(funds := s'.funds) && Sum(s'.funds) == Sum(s.funds) + amount
  {
    if amount > 0 {
      SumUpdate(s.funds, owner, Get(s.funds, owner) + amount);
    }
  }

  lemma FromFundTakes(s: State, owner: Name, amount: int)
    requires TransferFromFund(s, owner, amount).Ok?
    ensures var s' := TransferFromFund(s, owner, amount).value;
            s' == s.(funds := s'.funds) && Sum(s'.funds) == Sum(s.funds) - amount && amount > 0
  {
    SumUpdate(s.funds, owner, s.funds[owner] - amount);
  }

  lemma AddLoanTokens(p: Pool, payment: int, rented: int, isNew: bool)
    ensures AddLoan(p, payment, rented, isNew).lendable == p.unlent + p.lent + payment
  {
  }

  // ---------- maintenance moves tokens between claims only ----------

  lemma RenewKeepsSurplus(s: State, kind: Kind)
    requires Books(s) && s.pool.Some? && HasExpiredLoan(s, kind) && Renews(s, kind) && RenewLoan(s, kind).Ok?
    ensures Surplus(RenewLoan(s, kind).value) == Surplus(s)
  {
    ReleaseFacts(s, kind);
    RenewLoanFrame(s, kind);
    hide Books, RenewLoan, PoolAfterRelease, RentedAgain, Renews, HasExpiredLoan, InsertLoan, AddLoan;
    var l := s.Loans(kind)[0];
    var rented := RentedAgain(s, kind);
    InsertLoanTotals(s.Loans(kind)[1..], Renewed(l, rented));
    AddLoanTokens(PoolAfterRelease(s, kind), l.payment, rented, false);
  }

  lemma CloseKeepsSurplus(s: State, kind: Kind)
    requires Books(s) && s.pool.Some? && |s.Loans(kind)| > 0 && CloseLoan(s, kind).Ok?
    ensures Surplus(CloseLoan(s, kind).value) == Surplus(s)
  {
    ReleaseFacts(s, kind);
    hide Books, PoolAfterRelease, PayIntoFund, ChangeLimit;
    var l := s.Loans(kind)[0];
    var s0 := s.(pool := Some(PoolAfterRelease(s, kind)));
    PayIntoFundAdds(s0, l.from, l.balance);
    var s1 := PayIntoFund(s0, l.from, l.balance).value;
    ChangeLimitFrame(s1, kind, l.receiver, -l.staked);
  }

  lemma {:induction false} ProcessLoansKeepsSurplus(s: State, kind: Kind, max: nat)
    requires Books(s) && s.pool.Some? && ProcessLoans(s, kind, max).Ok?
    ensures Surplus(ProcessLoans(s, kind, max).value) == Surplus(s)
    decreases max
  {
    hide Books, Surplus, PriceRose;
    if max > 0 && HasExpiredLoan(s, kind) {
      if Renews(s, kind) {
        RenewKeepsSurplus(s, kind);
        RenewLoanFrame(s, kind);
        RenewLoanKeepsBooks(s, kind);
      } else {
        CloseKeepsSurplus(s, kind);
        CloseLoanFrame(s, kind);
        CloseLoanKeepsBooks(s, kind);
      }
      hide RenewLoan, CloseLoan;
      ProcessLoansKeepsSurplus(ProcessExpiredLoan(s, kind).value, kind, max - 1);
    }
  }

  lemma FillKeepsSurplus(s: State, i: nat)
    requires Books(s) && s.pool.Some? && i < |s.orders| && s.orders[i].open
    ensures s.orders[i].owner in s.balances
    ensures FillFromPool(s.pool.value, s.orders[i].requested).Ok?
    ensures var fill := FillFromPool(s.pool.value, s.orders[i].requested).value;
            fill.Filled? ==> Surplus(AfterFill(s, i, fill.pool, fill.proceeds)) == Surplus(s)
  {
    FillKeepsBooks(s, i);
    var fill := FillFromPool(s.pool.value, s.orders[i].requested).value;
    assert s.orders[i].proceeds == 0 by {
      assert s.orders[i] in s.orders && OrderOk(s.orders[i], s.now);
    }
    if fill.Filled? {
      CloseOrderKeepsOrders(s.orders, i, fill.proceeds, s.now);
    }
  }

  lemma {:induction false} ProcessOrdersKeepsSurplus(s: State, i: nat, max: nat)
    requires Books(s) && s.pool.Some?
    ensures ProcessOrders(s, i, max).Ok? && Surplus(ProcessOrders(s, i, max).value) == Surplus(s)
    decreases max
  {
    hide Books, Surplus, PriceRose, FillFromPool;
    if max > 0 && i < |s.orders| && s.orders[i].open {
      FillKeepsBooks(s, i);
      FillKeepsSurplus(s, i);
      var fill := FillFromPool(s.pool.value, s.orders[i].requested).value;
      if fill.Filled? {
        ProcessOrdersKeepsSurplus(AfterFill(s, i, fill.pool, fill.proceeds), i, max - 1);
      } else {
        ProcessOrdersKeepsSurplus(s, i + 1, max - 1);
      }
    }
  }

  lemma ChannelKeepsSurplus(s: State, from: Name, amount: int)
    requires from != REX_ACCOUNT && ChannelToRex(s, from, amount).Ok?
    ensures Surplus(ChannelToRex(s, from, amount).value) == Surplus(s)
  {
    if RexAvailable(s.pool) {
      var p := s.pool.value;
      TransferMoves(s.(pool := Some(p.(unlent := p.unlent + amount, lendable := p.lendable + amount))), from, REX_ACCOUNT, amount);
    }
  }

  lemma NamebidsKeepSurplus(s: State)
    requires Books(s) && s.pool.Some? && ChannelNamebids(s).Ok?
    ensures Surplus(ChannelNamebids(s).value) == Surplus(s)
  {
    if s.pool.value.namebid > 0 {
      ChannelKeepsSurplus(s, NAMES_ACCOUNT, s.pool.value.namebid);
    }
    hide Books, ChannelToRex;
  }

  lemma RunRexKeepsSurplus(s: State, max: nat)
    requires Books(s) && RunRex(s, max).Ok?
    ensures Surplus(RunRex(s, max).value) == Surplus(s)
  {
    hide Books, Surplus, PriceRose, ProcessLoans, ProcessOrders, ChannelNamebids;
    NamebidsKeepSurplus(s);
    ChannelNamebidsKeepsBooks(s);
    var s1 := ChannelNamebids(s).value;
    ProcessLoansKeepsBooks(s1, Cpu, max);
    ProcessLoansKeepsSurplus(s1, Cpu, max);
    var s2 := ProcessLoans(s1, Cpu, max).value;
    ProcessLoansKeepsBooks(s2, Net, max);
    ProcessLoansKeepsSurplus(s2, Net, max);
    ProcessOrdersKeepsSurplus(ProcessLoans(s2, Net, max).value, 0, max);
  }

  // ---------- the other helpers ----------

  lemma UpdateAccountSurplus(s: State, owner: Name, proceeds: int)
    requires OrdersOk(s.orders, s.now) && proceeds >= 0
    ensures UpdateRexAccount(s, owner, proceeds).Ok?
    ensures Surplus(UpdateRexAccount(s, owner, proceeds).value.0) == Surplus(s) - proceeds
  {
    SettledFacts(s.orders, owner, s.now);
    hide SettledOrders, CollectedProceeds, PendingRex, PayIntoFund, OrdersOk;
    PayIntoFundAdds(s.(orders := SettledOrders(s.orders, owner)), owner, proceeds + CollectedProceeds(s.orders, owner));
  }

  lemma PurchaseSurplus(s: State, owner: Name, payment: int)
    requires Books(s) && payment > 0
    ensures PurchaseRex(s, owner, payment).Ok?
    ensures Surplus(PurchaseRex(s, owner, payment).value) == Surplus(s) - payment
  {
    PurchaseKeepsBooks(s, owner, payment);
    hide Books, PriceKept, PurchaseRex;
  }

  lemma BooksOrders(s: State)
    requires Books(s)
    ensures OrdersOk(s.orders, s.now)
  {
  }

  // ---------- actions ----------

  lemma DepositKeepsSurplus(s: State, owner: Name, amount: int)
    requires Deposit(s, owner, amount).Ok?
    ensures Surplus(Deposit(s, owner, amount).value) == Surplus(s)
  {
    hide TransferTokens;
    TransferMoves(s, owner, REX_ACCOUNT, amount);
    PayIntoFundAdds(TransferTokens(s, owner, REX_ACCOUNT, amount).value, owner, amount);
  }

  lemma WithdrawKeepsSurplus(s: State, owner: Name, amount: int)
    requires Books(s) && Withdraw(s, owner, amount).Ok?
    ensures Surplus(Withdraw(s, owner, amount).value) == Surplus(s)
  {
    BooksOrders(s);
    hide Books, OrdersOk, TransferTokens, UpdateRexAccount, TransferFromFund;
    UpdateAccountSurplus(s, owner, 0);
    var s1 := UpdateRexAccount(s, owner, 0).value.0;
    FromFundTakes(s1, owner, amount);
    TransferMoves(TransferFromFund(s1, owner, amount).value, REX_ACCOUNT, owner, amount);
  }

  lemma RunAndSettleSurplus(s: State, owner: Name)
    requires Books(s) && RunRex(s, 2).Ok?
    ensures UpdateRexAccount(RunRex(s, 2).value, owner, 0).Ok?
    ensures Surplus(UpdateRexAccount(RunRex(s, 2).value, owner, 0).value.0) == Surplus(s)
  {
    RunRexKeepsBooks(s, 2);
    RunRexKeepsSurplus(s, 2);
    BooksOrders(RunRex(s, 2).value);
    hide Books, OrdersOk, Surplus;
    UpdateAccountSurplus(RunRex(s, 2).value, owner, 0);
  }

  lemma BuyRexKeepsSurplus(s: State, from: Name, amount: int, votes: bool)
    requires Books(s) && BuyRex(s, from, amount, votes).Ok?
    ensures Surplus(BuyRex(s, from, amount, votes).value) == Surplus(s)
  {
    hide Books, PurchaseRex, RunRex, UpdateRexAccount, TransferFromFund;
    FromFundTakes(s, from, amount);
    var s1 := TransferFromFund(s, from, amount).value;
    BooksFrame(s, s1);
    PurchaseSurplus(s1, from, amount);
    PurchaseKeepsBooks(s1, from, amount);
    RunAndSettleSurplus(PurchaseRex(s1, from, amount).value, from);
  }

  lemma LimitsFrameTokens(s: State, receiver: Name, net: int, cpu: int)
    requires UpdateResourceLimits(s, receiver, net, cpu).Ok?
    ensures var s' := UpdateResourceLimits(s, receiver, net, cpu).value;
            s' == s.(resources := s'.resources)
  {
  }

  lemma UnstakeToRexKeepsSurplus(s: State, owner: Name, receiver: Name, net: int, cpu: int, votes: bool)
    requires Books(s) && UnstakeToRex(s, owner, receiver, net, cpu, votes).Ok?
    ensures Surplus(UnstakeToRex(s, owner, receiver, net, cpu, votes).value) == Surplus(s)
  {
    hide Books, PurchaseRex, RunRex, UpdateRexAccount, TransferTokens, UpdateResourceLimits;
    var w := s.delegations[(owner, receiver)];
    var s1 := s.(delegations := WriteDelegation(s.delegations, owner, receiver, Weights(w.net - net, w.cpu - cpu)));
    LimitsFrameTokens(s1, receiver, -net, -cpu);
    var s2 := UpdateResourceLimits(s1, receiver, -net, -cpu).value;
    TransferMoves(s2, STAKE_ACCOUNT, REX_ACCOUNT, net + cpu);
    var s3 := TransferTokens(s2, STAKE_ACCOUNT, REX_ACCOUNT, net + cpu).value;
    BooksFrame(s, s3);
    PurchaseSurplus(s3, owner, net + cpu);
    PurchaseKeepsBooks(s3, owner, net + cpu);
    RunAndSettleSurplus(PurchaseRex(s3, owner, net + cpu).value, owner);
  }

  lemma SellRexKeepsSurplus(s: State, from: Name, rex: int)
    requires Books(s) && SellRex(s, from, rex).Ok?
    ensures Surplus(SellRex(s, from, rex).value) == Surplus(s)
  {
    hide Books, BooksButCover, PriceKept, PriceRose, RunRex, UpdateRexAccount, ProcessMaturities, FillFromPool,
      QueueOrder, PendingRex, SettledOrders, OrdersOk;
    MaintainFirst(s);
    RunRexKeepsSurplus(s, 2);
    var s1 := RunRex(s, 2).value;
    ProcessRowKeepsBooks(s1, from);
    var b := ProcessMaturities(s1.balances[from], Seconds(s.now));
    var s2 := s1.(balances := s1.balances[from := b]);
    BooksOrders(s2);
    BooksParts(s2);
    SaleKeepsBooks(s2, from, rex);
    var fill := FillFromPool(s2.pool.value, rex).value;
    if fill.Filled? {
      UpdateAccountSurplus(AfterSale(s2, from, rex, fill.pool), from, fill.proceeds);
    } else {
      UpdateAccountSurplus(s2, from, 0);
      QueueSurplus(UpdateRexAccount(s2, from, 0).value.0, from, rex);
    }
  }

  lemma QueueSurplus(s: State, owner: Name, rex: int)
    ensures Surplus(QueueOrder(s, owner, rex)) == Surplus(s)
  {
    var i := FindOrder(s.orders, owner);
    if i == |s.orders| {
      InsertOrderFacts(s.orders, Order(owner, rex, 0, s.now, true));
    } else {
      RaiseOrderFacts(s.orders, i, s.orders[i].requested + rex);
    }
  }

  lemma CancelKeepsSurplus(s: State, owner: Name)
    requires Books(s) && CancelOrder(s, owner).Ok?
    ensures Surplus(CancelOrder(s, owner).value) == Surplus(s)
  {
    var i := FindOrder(s.orders, owner);
    assert s.orders[i] in s.orders && OrderOk(s.orders[i], s.now);
    RemoveOrderFacts(s.orders, i);
  }

  lemma RentKeepsSurplus(s: State, kind: Kind, from: Name, receiver: Name, payment: int, fund: int)
    requires Books(s) && Rent(s, kind, from, receiver, payment, fund).Ok?
    ensures Surplus(Rent(s, kind, from, receiver, payment, fund).value) == Surplus(s)
  {
    hide Books, PriceKept, PriceRose, RunRex, AddLoan, BancorOutput, LoansAvailable, TransferFromFund, InsertLoan;
    MaintainFirst(s);
    RunRexKeepsSurplus(s, 2);
    var s1 := RunRex(s, 2).value;
    FromFundTakes(s1, from, payment + fund);
    var s2 := TransferFromFund(s1, from, payment + fund).value;
    PoolTotals(s1);
    var rented := BancorOutput(s2.pool.value.rent, s2.pool.value.unlent, payment);
    AddLoanTokens(s2.pool.value, payment, rented, true);
    var p := AddLoan(s2.pool.value, payment, rented, true);
    InsertLoanTotals(s2.Loans(kind), Loan(from, receiver, payment, fund, rented, p.loanNum, s.now + LOAN_TERM));
    ChangeLimitFrame(WithNewLoan(s2, kind, from, receiver, payment, fund), kind, receiver, rented);
  }

  lemma PoolTotals(s: State)
    requires Books(s) && s.pool.Some?
    ensures s.pool.value.lendable == s.pool.value.unlent + s.pool.value.lent
  {
  }

  lemma FundLoanKeepsSurplus(s: State, kind: Kind, from: Name, num: nat, payment: int)
    requires FundLoan(s, kind, from, num, payment).Ok?
    ensures Surplus(FundLoan(s, kind, from, num, payment).value) == Surplus(s)
  {
    FromFundTakes(s, from, payment);
    var i := FindLoan(s.Loans(kind), num);
    RefundLoanTotals(s.Loans(kind), i, s.Loans(kind)[i].balance + payment);
  }

  lemma DefundLoanKeepsSurplus(s: State, kind: Kind, from: Name, num: nat, amount: int)
    requires DefundLoan(s, kind, from, num, amount).Ok?
    ensures Surplus(DefundLoan(s, kind, from, num, amount).value) == Surplus(s)
  {
    var loans := s.Loans(kind);
    var i := FindLoan(loans, num);
    RefundLoanTotals(loans, i, loans[i].balance - amount);
    PayIntoFundAdds(s.WithLoans(kind, loans[i := loans[i].(balance := loans[i].balance - amount)]), from, amount);
  }

  /** Maintenance and settling, then a change of balances only. */
  lemma SavingsKeepSurplus(s: State, s': State, owner: Name)
    requires Books(s) && RunRex(s, 2).Ok? && UpdateRexAccount(RunRex(s, 2).value, owner, 0).Ok?
    requires var s2 := UpdateRexAccount(RunRex(s, 2).value, owner, 0).value.0;
             s' == s2.(balances := s'.balances)
    ensures Surplus(s') == Surplus(s)
  {
    hide Books, RunRex, UpdateRexAccount;
    RunAndSettleSurplus(s, owner);
  }

  lemma MoveFromSavingsKeepsSurplus(s: State, owner: Name, rex: int)
    requires Books(s) && MoveFromSavings(s, owner, rex).Ok?
    ensures Surplus(MoveFromSavings(s, owner, rex).value) == Surplus(s)
  {
    RunRexKeepsBooks(s, 2);
    RunRexKeepsSurplus(s, 2);
    BooksOrders(RunRex(s, 2).value);
    hide Books, OrdersOk, RunRex, UpdateRexAccount, MoveOutOfSavings;
    var s1 := RunRex(s, 2).value;
    var b := MoveOutOfSavings(s1.balances[owner], s.now, rex).value;
    UpdateAccountSurplus(s1.(balances := s1.balances[owner := b]), owner, 0);
  }

  lemma CloseRexKeepsSurplus(s: State, owner: Name)
    requires Books(s) && CloseRex(s, owner).Ok?
    ensures Surplus(CloseRex(s, owner).value) == Surplus(s)
  {
    hide Books, RunRex, UpdateRexAccount, OrdersOk;
    var s1 := if s.pool.Some? then RunRex(s, 2).value else s;
    if s.pool.Some? {
      RunAndSettleSurplus(s, owner);
    } else {
      BooksOrders(s);
      UpdateAccountSurplus(s, owner, 0);
    }
    var s2 := UpdateRexAccount(s1, owner, 0).value.0;
    SumErase(s2.funds, owner);
  }
}
