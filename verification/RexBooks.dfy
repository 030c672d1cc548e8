/**
 * The books of the lending pool: its totals agree with the loan tables and the
 * users' balances, and every open sell order is covered. Each action keeps them.
 */
module RexBooks {
  import opened Outcomes
  import opened RexState
  import opened RexActions
  import opened MapSums
  import opened RexPool
  import opened RexTables
  import opened RexMaturities

  ghost function RexRows(balances: map<Name, RexBalance>): map<Name, int> {
    map k | k in balances :: balances[k].rex
  }

  ghost function LastLoanNum(pool: Option<Pool>): int {
    if pool.Some? then pool.value.loanNum else 0
  }

  ghost predicate LoanOk(l: Loan, now: nat, lastNum: int) {
    l.staked > 0 && l.balance >= 0 && l.payment > 0 && l.expiration <= now + LOAN_TERM && l.num <= lastNum
  }

  ghost predicate LoansOk(loans: seq<Loan>, now: nat, lastNum: int) {
    LoanTable(loans) && forall l :: l in loans ==> LoanOk(l, now, lastNum)
  }

  ghost predicate BalancesOk(balances: map<Name, RexBalance>, last: nat) {
    forall k :: k in balances ==> BalanceOk(balances[k], last)
  }

  ghost predicate OrderOk(o: Order, now: nat) {
    if o.open then o.requested > 0 && o.proceeds == 0 && o.time <= now else o.proceeds >= 0
  }

  ghost predicate OrdersOk(orders: seq<Order>, now: nat) {
    OrderTable(orders) && forall o :: o in orders ==> OrderOk(o, now)
  }

  /** An open order asks for no more than its owner's matured REX. */
  ghost predicate Covered(o: Order, balances: map<Name, RexBalance>) {
    o.open ==> o.owner in balances && o.requested <= balances[o.owner].matured
  }

  ghost predicate AllCovered(orders: seq<Order>, balances: map<Name, RexBalance>) {
    forall o :: o in orders ==> Covered(o, balances)
  }

  /** No loan outlives an open order by more than a loan term. */
  ghost predicate LoansEndInTime(orders: seq<Order>, loans: seq<Loan>) {
    forall o, l :: o in orders && o.open && l in loans ==> l.expiration <= o.time + LOAN_TERM
  }

  ghost predicate PoolBooks(s: State) {
    && PoolRowSound(s.pool)
    && LentOf(s.pool) == Staked(s.cpuLoans) + Staked(s.netLoans)
    && RexOf(s.pool) == Sum(RexRows(s.balances))
  }

  /** The books, apart from the cover of the open orders. */
  ghost predicate BooksButCover(s: State) {
    && s.now < CLOCK_LIMIT
    && PoolBooks(s)
    && LoansOk(s.cpuLoans, s.now, LastLoanNum(s.pool))
    && LoansOk(s.netLoans, s.now, LastLoanNum(s.pool))
    && BalancesOk(s.balances, Maturity(s.now))
    && OrdersOk(s.orders, s.now)
    && LoansEndInTime(s.orders, s.cpuLoans)
    && LoansEndInTime(s.orders, s.netLoans)
  }

  ghost predicate Books(s: State) {
    BooksButCover(s) && AllCovered(s.orders, s.balances)
  }

  // ---------- consequences ----------

  lemma BalanceWithinTotal(balances: map<Name, RexBalance>, owner: Name, last: nat)
    requires BalancesOk(balances, last) && owner in balances
    ensures 0 <= balances[owner].matured <= balances[owner].rex <= Sum(RexRows(balances))
  {
    forall k | k in balances ensures balances[k].rex >= balances[k].matured {
      TotalsNonNegative(balances[k].maturities, 0);
    }
    SumBoundsRow(RexRows(balances), owner);
  }

  lemma RexRowsUpdate(balances: map<Name, RexBalance>, owner: Name, b: RexBalance)
    ensures Sum(RexRows(balances[owner := b])) ==
            Sum(RexRows(balances)) - (if owner in balances then balances[owner].rex else 0) + b.rex
  {
    SumUpdate(RexRows(balances), owner, b.rex);
    assert RexRows(balances[owner := b]) == RexRows(balances)[owner := b.rex];
  }

  /** An empty pool has lent nothing: both loan tables are empty. */
  lemma EmptyPoolHasNoLoans(s: State)
    requires Books(s) && RexOf(s.pool) == 0
    ensures LendableOf(s.pool) == 0 && LentOf(s.pool) == 0 && s.cpuLoans == [] && s.netLoans == []
  {
    StakedBounds(s.cpuLoans);
    StakedBounds(s.netLoans);
  }

  /** The owner of an open order has a balance row with at least the requested REX in it. */
  lemma OpenOrderHasBalance(s: State, o: Order)
    requires Books(s) && o in s.orders && o.open
    ensures o.owner in s.balances
    ensures 0 < o.requested <= s.balances[o.owner].matured <= s.balances[o.owner].rex <= RexOf(s.pool)
  {
    assert OrderOk(o, s.now) && Covered(o, s.balances);
    BalanceWithinTotal(s.balances, o.owner, Maturity(s.now));
  }

  // ---------- maintenance ----------

  lemma ChangeLimitFrame(s: State, kind: Kind, receiver: Name, delta: int)
    requires ChangeLimit(s, kind, receiver, delta).Ok?
    ensures var s' := ChangeLimit(s, kind, receiver, delta).value;
            s' == s.(resources := s'.resources)
  {
  }

  lemma PayIntoFundFrame(s: State, owner: Name, amount: int)
    ensures PayIntoFund(s, owner, amount).Ok?
    ensures var s' := PayIntoFund(s, owner, amount).value;
            s' == s.(funds := s'.funds)
  {
  }

  lemma RenewLoanFrame(s: State, kind: Kind)
    requires s.pool.Some? && |s.Loans(kind)| > 0
    requires RenewLoan(s, kind).Ok?
    ensures var s' := RenewLoan(s, kind).value;
            var l := s.Loans(kind)[0];
            var rented := RentedAgain(s, kind);
            s' == s.(pool := Some(AddLoan(PoolAfterRelease(s, kind), l.payment, rented, false)), resources := s'.resources)
                   .WithLoans(kind, InsertLoan(s.Loans(kind)[1..], Renewed(l, rented)))
  {
  }

  lemma CloseLoanFrame(s: State, kind: Kind)
    requires s.pool.Some? && |s.Loans(kind)| > 0
    requires CloseLoan(s, kind).Ok?
    ensures var s' := CloseLoan(s, kind).value;
            s' == s.(pool := Some(PoolAfterRelease(s, kind)), funds := s'.funds, resources := s'.resources)
                   .WithLoans(kind, s.Loans(kind)[1..])
  {
    hide PoolAfterRelease, PayIntoFund, ChangeLimit;
    var l := s.Loans(kind)[0];
    var s0 := s.(pool := Some(PoolAfterRelease(s, kind)));
    PayIntoFundFrame(s0, l.from, l.balance);
    var s1 := PayIntoFund(s0, l.from, l.balance).value;
    ChangeLimitFrame(s1, kind, l.receiver, -l.staked);
  }

  lemma LoansOkInsert(loans: seq<Loan>, l: Loan, now: nat, lastNum: int)
    requires LoansOk(loans, now, lastNum) && LoanOk(l, now, lastNum)
    requires forall x :: x in loans ==> x.num != l.num
    ensures LoansOk(InsertLoan(loans, l), now, lastNum)
  {
    InsertKeepsLoanTable(loans, l);
    InsertLoanMembers(loans, l);
  }

  /** The bounds on loans only widen as the clock and the loan counter advance. */
  lemma LoansOkLater(loans: seq<Loan>, now: nat, lastNum: int, later: nat, laterNum: int)
    requires LoansOk(loans, now, lastNum) && now <= later && lastNum <= laterNum
    ensures LoansOk(loans, later, laterNum)
  {
    forall l | l in loans ensures LoanOk(l, later, laterNum) {
      assert LoanOk(l, now, lastNum);
    }
  }

  /** While an order is open, no loan can be taken out or renewed. */
  lemma AvailableMeansNoOpenOrder(s: State)
    requires OrdersOk(s.orders, s.now) && LoansAvailable(s)
    ensures forall o :: o in s.orders ==> !o.open
  {
    forall o | o in s.orders ensures !o.open {
      if o.open { OpenOrdersFirst(s.orders, o); }
    }
  }

  lemma ReleaseFacts(s: State, kind: Kind)
    requires Books(s) && s.pool.Some? && |s.Loans(kind)| > 0
    ensures var p := s.pool.value;
            var q := PoolAfterRelease(s, kind);
            var l := s.Loans(kind)[0];
            && LoanOk(l, s.now, p.loanNum) && p.rex > 0
            && PoolSound(q) && PriceRose(p, q) && q.loanNum == p.loanNum
            && q.lent == p.lent - l.staked && q.lendable == p.lendable && q.rex == p.rex
  {
    hide BancorOutput, PriceRose, AtInitialRatio;
    StakedBounds(s.cpuLoans);
    StakedBounds(s.netLoans);
    assert s.Loans(kind)[0] in s.Loans(kind);
    ReleaseLoanSound(s.pool.value, s.Loans(kind)[0].staked);
  }

  lemma RenewLoanKeepsBooks(s: State, kind: Kind)
    requires Books(s) && s.pool.Some? && HasExpiredLoan(s, kind) && Renews(s, kind)
    requires RenewLoan(s, kind).Ok?
    ensures Books(RenewLoan(s, kind).value)
    ensures PriceRose(s.pool.value, RenewLoan(s, kind).value.pool.value)
  {
    var loans := s.Loans(kind);
    var l := loans[0];
    var rented := RentedAgain(s, kind);
    var p := PoolAfterRelease(s, kind);
    var q := AddLoan(p, l.payment, rented, false);
    ReleaseFacts(s, kind);
    AddLoanSound(p, l.payment, false);
    PriceRoseTransitive(s.pool.value, p, q);
    assert q.loanNum == s.pool.value.loanNum;
    hide BancorOutput, AddLoan, RemoveLoan, PoolAfterRelease, RentedAgain, PriceRose, PoolSound, BalancesOk, AtInitialRatio;
    InsertLoanTotals(loans[1..], Renewed(l, rented));
    LoansOkInsert(loans[1..], Renewed(l, rented), s.now, q.loanNum);
    AvailableMeansNoOpenOrder(s.(pool := Some(p)));
    RenewLoanFrame(s, kind);
  }

  lemma CloseLoanKeepsBooks(s: State, kind: Kind)
    requires Books(s) && s.pool.Some? && |s.Loans(kind)| > 0
    requires CloseLoan(s, kind).Ok?
    ensures Books(CloseLoan(s, kind).value)
    ensures PriceRose(s.pool.value, CloseLoan(s, kind).value.pool.value)
  {
    ReleaseFacts(s, kind);
    hide BancorOutput, RemoveLoan, PoolAfterRelease, PriceRose, PoolSound, BalancesOk, CloseLoan;
    CloseLoanFrame(s, kind);
    var loans := s.Loans(kind);
    assert loans == [loans[0]] + loans[1..];
  }

  lemma {:induction false} ProcessLoansKeepsBooks(s: State, kind: Kind, max: nat)
    requires Books(s) && s.pool.Some? && ProcessLoans(s, kind, max).Ok?
    ensures var s' := ProcessLoans(s, kind, max).value;
            && Books(s') && s'.pool.Some? && PriceRose(s.pool.value, s'.pool.value)
            && s'.now == s.now
    decreases max
  {
    hide Books, PriceRose;
    if max > 0 && HasExpiredLoan(s, kind) {
      if Renews(s, kind) {
        RenewLoanKeepsBooks(s, kind);
        RenewLoanFrame(s, kind);
      } else {
        CloseLoanKeepsBooks(s, kind);
        CloseLoanFrame(s, kind);
      }
      hide RenewLoan, CloseLoan;
      var s1 := ProcessExpiredLoan(s, kind).value;
      ProcessLoansKeepsBooks(s1, kind, max - 1);
      PriceRoseTransitive(s.pool.value, s1.pool.value, ProcessLoans(s, kind, max).value.pool.value);
    } else {
      PriceRoseReflexive(s.pool.value, s.pool.value);
    }
  }

  // ---------- selling ----------

  ghost function AfterSale(s: State, owner: Name, rex: int, p: Pool): State
    requires owner in s.balances
  {
    DebitRex(s.(pool := Some(p)), owner, rex)
  }

  lemma SoldRow(b: RexBalance, rex: int, last: nat)
    requires BalanceOk(b, last) && 0 <= rex <= b.matured
    ensures BalanceOk(b.(rex := b.rex - rex, matured := b.matured - rex), last)
  {
  }

  /** Selling matured REX: the pool and the owner's row shrink together. */
  lemma SaleKeepsBooks(s: State, owner: Name, rex: int)
    requires BooksButCover(s) && s.pool.Some? && owner in s.balances && 0 < rex <= s.balances[owner].matured
    ensures FillFromPool(s.pool.value, rex).Ok?
    ensures var fill := FillFromPool(s.pool.value, rex).value;
            fill.Filled? ==>
              && BooksButCover(AfterSale(s, owner, rex, fill.pool))
              && fill.proceeds >= 0 && PriceRose(s.pool.value, fill.pool)
              && fill.pool.lendable == s.pool.value.lendable - fill.proceeds
  {
    hide FillFromPool, PriceRose, OrdersOk, LoansOk, LoansEndInTime, BucketsOk, BucketTotal, BalanceOk;
    var b := s.balances[owner];
    BalanceWithinTotal(s.balances, owner, Maturity(s.now));
    FillFromPoolSound(s.pool.value, rex);
    var fill := FillFromPool(s.pool.value, rex).value;
    if fill.Filled? {
      hide PoolSound;
      var sold := b.(rex := b.rex - rex, matured := b.matured - rex);
      RexRowsUpdate(s.balances, owner, sold);
      SoldRow(b, rex, Maturity(s.now));
    }
  }

  /** The order at `i`, filled. */
  ghost function AfterFill(s: State, i: nat, p: Pool, proceeds: int): State
    requires i < |s.orders| && s.orders[i].owner in s.balances
  {
    AfterSale(s, s.orders[i].owner, s.orders[i].requested, p).(orders := CloseOrder(s.orders, i, proceeds))
  }

  lemma CloseOrderKeepsOrders(orders: seq<Order>, i: nat, proceeds: int, now: nat)
    requires OrdersOk(orders, now) && i < |orders| && proceeds >= 0
    ensures var closed := CloseOrder(orders, i, proceeds);
            && OrdersOk(closed, now)
            && |closed| == |orders|
            && Proceeds(closed) == Proceeds(orders) - orders[i].proceeds + proceeds
            && (forall x :: x in closed ==>
                  x == orders[i].(proceeds := proceeds, open := false) || (x in orders && x.owner != orders[i].owner))
            && (forall x :: x in orders ==> x == orders[i] || x in closed)
  {
    RemoveOrderFacts(orders, i);
    InsertOrderFacts(RemoveAt(orders, i), orders[i].(proceeds := proceeds, open := false));
  }

  /** The books, apart from cover, read the queue only through its open orders. */
  lemma CloseKeepsButCover(s: State, orders: seq<Order>)
    requires BooksButCover(s) && OrdersOk(orders, s.now)
    requires forall x :: x in orders && x.open ==> x in s.orders
    ensures BooksButCover(s.(orders := orders))
  {
    hide PoolRowSound, LoansOk, BalancesOk, OrdersOk;
  }

  lemma FillKeepsBooks(s: State, i: nat)
    requires Books(s) && s.pool.Some? && i < |s.orders| && s.orders[i].open
    ensures s.orders[i].owner in s.balances
    ensures FillFromPool(s.pool.value, s.orders[i].requested).Ok?
    ensures var fill := FillFromPool(s.pool.value, s.orders[i].requested).value;
            fill.Filled? ==>
              && Books(AfterFill(s, i, fill.pool, fill.proceeds))
              && fill.proceeds >= 0 && PriceRose(s.pool.value, fill.pool)
              && fill.pool.lendable == s.pool.value.lendable - fill.proceeds
  {
    hide FillFromPool, PriceRose, PoolRowSound, LoansOk, BalancesOk, OrdersOk, BalanceOk;
    var o := s.orders[i];
    OpenOrderHasBalance(s, o);
    SaleKeepsBooks(s, o.owner, o.requested);
    var fill := FillFromPool(s.pool.value, o.requested).value;
    if fill.Filled? {
      CloseOrderKeepsOrders(s.orders, i, fill.proceeds, s.now);
      hide CloseOrder, BooksButCover;
      CloseKeepsButCover(AfterSale(s, o.owner, o.requested, fill.pool), CloseOrder(s.orders, i, fill.proceeds));
    }
  }

  /** The lookup of an open order's balance always succeeds, and no fill divides by zero. */
  lemma {:induction false} ProcessOrdersKeepsBooks(s: State, i: nat, max: nat)
    requires Books(s) && s.pool.Some?
    ensures ProcessOrders(s, i, max).Ok?
    ensures var s' := ProcessOrders(s, i, max).value;
            && Books(s') && s'.pool.Some? && PriceRose(s.pool.value, s'.pool.value)
            && s'.now == s.now
    decreases max
  {
    hide Books, PriceRose, FillFromPool;
    PriceRoseReflexive(s.pool.value, s.pool.value);
    if max > 0 && i < |s.orders| && s.orders[i].open {
      FillKeepsBooks(s, i);
      var fill := FillFromPool(s.pool.value, s.orders[i].requested).value;
      if fill.Filled? {
        var s1 := AfterFill(s, i, fill.pool, fill.proceeds);
        ProcessOrdersKeepsBooks(s1, i, max - 1);
        PriceRoseTransitive(s.pool.value, s1.pool.value, ProcessOrders(s, i, max).value.pool.value);
      } else {
        ProcessOrdersKeepsBooks(s, i + 1, max - 1);
      }
    }
  }

  lemma ChannelKeepsBooks(s: State, from: Name, amount: int)
    requires Books(s) && s.pool.Some? && amount >= 0 && ChannelToRex(s, from, amount).Ok?
    ensures var s' := ChannelToRex(s, from, amount).value;
            && Books(s') && s'.pool.Some? && PriceRose(s.pool.value, s'.pool.value)
            && s'.now == s.now && s'.pool.value.namebid == s.pool.value.namebid
  {
    if s.pool.value.rex > 0 {
      AddFeesSound(s.pool.value, amount);
    }
    hide PriceRose, PoolSound, BalancesOk, AllCovered, OrdersOk, LoansEndInTime;
    PriceRoseReflexive(s.pool.value, s.pool.value);
  }

  lemma ChannelNamebidsKeepsBooks(s: State)
    requires Books(s) && s.pool.Some? && ChannelNamebids(s).Ok?
    ensures var s' := ChannelNamebids(s).value;
            && Books(s') && s'.pool.Some? && PriceRose(s.pool.value, s'.pool.value)
            && s'.now == s.now
  {
    if s.pool.value.namebid > 0 {
      ChannelKeepsBooks(s, NAMES_ACCOUNT, s.pool.value.namebid);
    }
    hide BalancesOk, AllCovered, OrdersOk, LoansEndInTime, ChannelToRex;
    PriceRoseReflexive(s.pool.value, s.pool.value);
  }

  lemma RunRexKeepsBooks(s: State, max: nat)
    requires Books(s) && RunRex(s, max).Ok?
    ensures s.pool.Some?
    ensures var s' := RunRex(s, max).value;
            && Books(s') && s'.pool.Some? && PriceRose(s.pool.value, s'.pool.value)
            && s'.now == s.now
  {
    hide Books, PriceRose, ProcessLoans, ProcessOrders;
    ChannelNamebidsKeepsBooks(s);
    var s1 := ChannelNamebids(s).value;
    ProcessLoansKeepsBooks(s1, Cpu, max);
    var s2 := ProcessLoans(s1, Cpu, max).value;
    ProcessLoansKeepsBooks(s2, Net, max);
    var s3 := ProcessLoans(s2, Net, max).value;
    ProcessOrdersKeepsBooks(s3, 0, max);
    var s4 := RunRex(s, max).value;
    PriceRoseTransitive(s.pool.value, s1.pool.value, s2.pool.value);
    PriceRoseTransitive(s.pool.value, s2.pool.value, s3.pool.value);
    PriceRoseTransitive(s.pool.value, s3.pool.value, s4.pool.value);
  }
}
