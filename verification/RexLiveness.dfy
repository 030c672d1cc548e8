/** The sell queue clears: an order that has been open for a loan term is filled by the next full maintenance. */
module RexLiveness {
  import opened Outcomes
  import opened RexState
  import opened RexActions
  import opened Arithmetic
  import opened RexPool
  import opened RexTables
  import opened RexBooks
  import opened RexSteps
  import opened Bandwidth
  import opened Staking
  import opened RamMarket
  import opened RexRuns
  import opened RexTheorems

  // ---------- loans ----------

  ghost predicate AllExpired(loans: seq<Loan>, now: nat) {
    forall l :: l in loans ==> l.expiration <= now
  }

  lemma BlockedMeansNoRenewal(s: State, kind: Kind)
    requires s.pool.Some? && |s.Loans(kind)| > 0 && |s.orders| > 0 && s.orders[0].open
    ensures !Renews(s, kind)
  {
    hide PoolAfterRelease, RentedAgain;
  }

  /** While an order is open, expired loans are closed and none is renewed. */
  lemma {:induction false} ExpiredLoansClose(s: State, kind: Kind, max: nat)
    requires Books(s) && LimitsOk(s) && s.pool.Some?
    requires |s.orders| > 0 && s.orders[0].open && AllExpired(s.Loans(kind), s.now) && |s.Loans(kind)| <= max
    ensures ProcessLoans(s, kind, max).Ok?
    ensures ProcessLoans(s, kind, max).value.Loans(kind) == []
    decreases max
  {
    hide Books, LimitsOk, PriceRose, PoolAfterRelease, ChangeLimit;
    if |s.Loans(kind)| > 0 {
      assert s.Loans(kind)[0] in s.Loans(kind);
      BlockedMeansNoRenewal(s, kind);
      CloseKeepsLimits(s, kind);
      CloseLoanKeepsBooks(s, kind);
      CloseLoanFrame(s, kind);
      hide CloseLoan, Renews;
      ExpiredLoansClose(CloseLoan(s, kind).value, kind, max - 1);
    }
  }

  // ---------- orders ----------

  ghost function OpenCount(orders: seq<Order>): nat {
    if |orders| == 0 then 0 else (if orders[0].open then 1 else 0) + OpenCount(orders[1..])
  }

  lemma {:induction false} InsertOpenCount(orders: seq<Order>, o: Order)
    ensures OpenCount(InsertOrder(orders, o)) == OpenCount(orders) + (if o.open then 1 else 0)
  {
    var inserted := InsertOrder(orders, o);
    if |orders| == 0 || OrderBefore(o, orders[0]) {
      assert inserted[1..] == orders;
    } else {
      assert inserted[1..] == InsertOrder(orders[1..], o);
      InsertOpenCount(orders[1..], o);
    }
  }

  lemma {:induction false} OpenCountBounds(orders: seq<Order>)
    ensures OpenCount(orders) <= |orders|
    ensures OpenCount(orders) == 0 ==> forall o :: o in orders ==> !o.open
  {
    if |orders| > 0 {
      OpenCountBounds(orders[1..]);
      assert orders == [orders[0]] + orders[1..];
    }
  }

  /** What a sale brings at least, at the price of a given pool. */
  ghost function ProceedsAt(pool: Option<Pool>, rex: int): int {
    if RexOf(pool) > 0 then MulDiv(rex, pool.value.lendable, pool.value.rex) else 0
  }

  lemma HigherPricePaysMore(p: Pool, q: Pool, rex: int)
    requires PriceRose(p, q) && p.rex > 0 && q.rex > 0 && rex > 0
    ensures ProceedsAt(Some(p), rex) <= ProceedsAt(Some(q), rex)
  {
    var k := MulDiv(rex, p.lendable, p.rex);
    DivBounds(rex * p.lendable, p.rex);
    MulLe(k * p.rex, rex * p.lendable, q.rex);
    MulLe(p.lendable * q.rex, q.lendable * p.rex, rex);
    assert (k * q.rex) * p.rex == k * p.rex * q.rex;
    assert p.lendable * q.rex * rex == rex * p.lendable * q.rex;
    assert q.lendable * p.rex * rex == (rex * q.lendable) * p.rex;
    CancelLe(k * q.rex, rex * q.lendable, p.rex);
    FloorAtLeast(rex * q.lendable, q.rex, k);
  }

  /** The order, filled for at least `least` tokens, is in the queue. */
  ghost predicate FilledFor(o: Order, orders: seq<Order>, least: int) {
    exists x :: x in orders && x == o.(proceeds := x.proceeds, open := false) && x.proceeds >= least
  }

  /** The REX of an order has left its owner's balance. */
  ghost predicate Sold(s: State, s': State, o: Order) {
    && o.owner in s.balances && o.owner in s'.balances
    && s'.balances[o.owner].rex == s.balances[o.owner].rex - o.requested
  }

  ghost predicate HasNoOpenOrder(orders: seq<Order>, owner: Name) {
    forall o :: o in orders && o.open ==> o.owner != owner
  }

  ghost predicate BalanceUntouched(s: State, s': State, owner: Name) {
    (owner in s'.balances <==> owner in s.balances)
    && (owner in s.balances ==> s'.balances[owner] == s.balances[owner])
  }

  /** Every order of `s` is filled in `s'`, at the price of `pool` or better. */
  ghost predicate AllFilled(s: State, s': State, pool: Option<Pool>) {
    && (forall o :: o in s'.orders ==> !o.open)
    && (forall o :: o in s.orders && o.open ==> FilledFor(o, s'.orders, ProceedsAt(pool, o.requested)) && Sold(s, s', o))
    && (forall o :: o in s.orders && !o.open ==> o in s'.orders)
    && (forall u: Name :: HasNoOpenOrder(s.orders, u) ==> BalanceUntouched(s, s', u))
  }

  lemma FirstFillShape(s: State)
    requires Books(s) && s.pool.Some? && |s.orders| > 0 && s.orders[0].open && s.cpuLoans == [] && s.netLoans == []
    ensures s.orders[0].owner in s.balances
    ensures FillFromPool(s.pool.value, s.orders[0].requested).Ok?
    ensures var fill := FillFromPool(s.pool.value, s.orders[0].requested).value;
            fill.Filled? && fill.proceeds == ProceedsAt(s.pool, s.orders[0].requested)
  {
    OpenOrderHasBalance(s, s.orders[0]);
    assert LentOf(s.pool) == 0 && PoolSound(s.pool.value);
    hide Books, PoolSound, PriceRose;
    FillFromPoolSound(s.pool.value, s.orders[0].requested);
  }

  /** `s1` is `s` with its first order filled, as far as the queue and the balances go. */
  ghost predicate FirstFilled(s: State, s1: State, proceeds: int)
    requires |s.orders| > 0 && s.orders[0].owner in s.balances
  {
    var first := s.orders[0];
    && first.(proceeds := proceeds, open := false) in s1.orders
    && (forall o :: o in s.orders && o != first ==> o in s1.orders && o.owner != first.owner)
    && (forall o :: o in s1.orders && o.open ==> o in s.orders && o.owner != first.owner)
    && s1.balances.Keys == s.balances.Keys
    && s1.balances[first.owner].rex == s.balances[first.owner].rex - first.requested
    && forall u :: u in s.balances && u != first.owner ==> s1.balances[u] == s.balances[u]
  }

  lemma FillIsFirst(s: State, s1: State, proceeds: int)
    requires Books(s) && |s.orders| > 0 && s.orders[0].open && proceeds >= 0
    requires s.orders[0].owner in s.balances && s1.pool.Some?
    requires s1 == AfterFill(s, 0, s1.pool.value, proceeds)
    ensures FirstFilled(s, s1, proceeds)
  {
    assert OrdersOk(s.orders, s.now);
    hide Books, OrderOk;
    CloseFirstMembers(s.orders, proceeds, s.now);
    hide OrdersOk, CloseOrder;
  }

  lemma CloseFirstMembers(orders: seq<Order>, proceeds: int, now: nat)
    requires |orders| > 0 && OrdersOk(orders, now) && proceeds >= 0
    ensures var first := orders[0];
            var closed := CloseOrder(orders, 0, proceeds);
            && first.(proceeds := proceeds, open := false) in closed
            && (forall o :: o in orders && o != first ==> o in closed && o.owner != first.owner)
            && (forall o :: o in closed && o.open ==> o in orders && o.owner != first.owner)
  {
    hide OrderOk;
    var rest := RemoveAt(orders, 0);
    assert rest == orders[1..];
    assert orders == [orders[0]] + orders[1..];
    CloseOrderKeepsOrders(orders, 0, proceeds, now);
    InsertOrderFacts(rest, orders[0].(proceeds := proceeds, open := false));
  }

  /** A later order is filled at the later, better price. */
  lemma LaterOrderFills(s: State, s1: State, s': State, proceeds: int, o: Order)
    requires Books(s) && Books(s1) && s.pool.Some? && s1.pool.Some? && PriceRose(s.pool.value, s1.pool.value)
    requires |s.orders| > 0 && s.orders[0].owner in s.balances && FirstFilled(s, s1, proceeds)
    requires AllFilled(s1, s', s1.pool)
    requires o in s.orders && o.open && o != s.orders[0]
    ensures FilledFor(o, s'.orders, ProceedsAt(s.pool, o.requested)) && Sold(s, s', o)
  {
    OpenOrderHasBalance(s, o);
    OpenOrderHasBalance(s1, o);
    hide Books, ProceedsAt;
    HigherPricePaysMore(s.pool.value, s1.pool.value, o.requested);
    assert FilledFor(o, s'.orders, ProceedsAt(s1.pool, o.requested));
  }

  lemma FirstOrderFills(s: State, s1: State, s': State, proceeds: int, least: int)
    requires |s.orders| > 0 && s.orders[0].owner in s.balances && FirstFilled(s, s1, proceeds)
    requires AllFilled(s1, s', s1.pool) && proceeds >= least
    ensures FilledFor(s.orders[0], s'.orders, least) && Sold(s, s', s.orders[0])
  {
    hide ProceedsAt;
    var first := s.orders[0];
    var closed := first.(proceeds := proceeds, open := false);
    assert closed in s'.orders;
    assert HasNoOpenOrder(s1.orders, first.owner);
  }

  /** One fill and then the rest. */
  lemma FillThenRest(s: State, s1: State, s': State, proceeds: int)
    requires Books(s) && s.pool.Some? && |s.orders| > 0 && s.orders[0].open
    requires s.orders[0].owner in s.balances && s1.pool.Some? && PriceRose(s.pool.value, s1.pool.value)
    requires FirstFilled(s, s1, proceeds) && Books(s1)
    requires proceeds >= ProceedsAt(s.pool, s.orders[0].requested)
    requires AllFilled(s1, s', s1.pool)
    ensures AllFilled(s, s', s.pool)
  {
    hide Books, ProceedsAt, PriceRose, FilledFor, Sold;
    forall o | o in s.orders && o.open
      ensures FilledFor(o, s'.orders, ProceedsAt(s.pool, o.requested)) && Sold(s, s', o)
    {
      if o == s.orders[0] {
        FirstOrderFills(s, s1, s', proceeds, ProceedsAt(s.pool, o.requested));
      } else {
        LaterOrderFills(s, s1, s', proceeds, o);
      }
    }
    forall u: Name | HasNoOpenOrder(s.orders, u) ensures BalanceUntouched(s, s', u) {
      assert HasNoOpenOrder(s1.orders, u);
    }
  }

  lemma CloseFirstOpenCount(s: State, s1: State, proceeds: int)
    requires |s.orders| > 0 && s.orders[0].open && s.orders[0].owner in s.balances && s1.pool.Some?
    requires s1 == AfterFill(s, 0, s1.pool.value, proceeds)
    ensures OpenCount(s1.orders) == OpenCount(s.orders) - 1
  {
    assert RemoveAt(s.orders, 0) == s.orders[1..];
    InsertOpenCount(s.orders[1..], s.orders[0].(proceeds := proceeds, open := false));
  }

  /** With nothing lent out, the first open order is filled. */
  lemma FirstOrderSells(s: State, max: nat) returns (s1: State, proceeds: int)
    requires Books(s) && s.pool.Some? && s.cpuLoans == [] && s.netLoans == []
    requires |s.orders| > 0 && s.orders[0].open && max > 0
    ensures Books(s1) && s1.pool.Some? && s1.cpuLoans == [] && s1.netLoans == [] && PriceRose(s.pool.value, s1.pool.value)
    ensures OpenCount(s1.orders) == OpenCount(s.orders) - 1
    ensures s.orders[0].owner in s.balances && FirstFilled(s, s1, proceeds)
    ensures 0 <= proceeds == ProceedsAt(s.pool, s.orders[0].requested)
    ensures ProcessOrders(s, 0, max) == ProcessOrders(s1, 0, max - 1)
  {
    hide Books, PriceRose, FillFromPool, AfterFill, ProceedsAt, FirstFilled, ProcessOrders, OpenCount;
    FirstFillShape(s);
    FillKeepsBooks(s, 0);
    var fill := FillFromPool(s.pool.value, s.orders[0].requested).value;
    s1, proceeds := AfterFill(s, 0, fill.pool, fill.proceeds), fill.proceeds;
    AfterFillFrame(s, fill.pool, proceeds);
    CloseFirstOpenCount(s, s1, proceeds);
    FillIsFirst(s, s1, proceeds);
    ProcessFirst(s, max);
  }

  /** With nothing lent out, every open order is filled. */
  lemma {:induction false} AllOrdersFill(s: State, max: nat)
    requires Books(s) && s.pool.Some? && s.cpuLoans == [] && s.netLoans == [] && OpenCount(s.orders) <= max
    ensures ProcessOrders(s, 0, max).Ok?
    ensures AllFilled(s, ProcessOrders(s, 0, max).value, s.pool)
    decreases max
  {
    hide Books, PriceRose, AllFilled, ProceedsAt, FirstFilled, ProcessOrders;
    if |s.orders| == 0 || !s.orders[0].open {
      NoOpenOrderLeft(s, max);
    } else {
      assert OpenCount(s.orders) > 0;
      hide OpenCount;
      var s1, proceeds := FirstOrderSells(s, max);
      AllOrdersFill(s1, max - 1);
      FillThenRest(s, s1, ProcessOrders(s1, 0, max - 1).value, proceeds);
    }
  }

  lemma AfterFillFrame(s: State, p: Pool, proceeds: int)
    requires |s.orders| > 0 && s.orders[0].owner in s.balances
    ensures var s1 := AfterFill(s, 0, p, proceeds);
            s1.pool == Some(p) && s1.cpuLoans == s.cpuLoans && s1.netLoans == s.netLoans
  {
    hide CloseOrder;
  }

  lemma ProcessFirst(s: State, max: nat)
    requires max > 0 && s.pool.Some? && |s.orders| > 0 && s.orders[0].open && s.orders[0].owner in s.balances
    requires FillFromPool(s.pool.value, s.orders[0].requested).Ok?
    requires FillFromPool(s.pool.value, s.orders[0].requested).value.Filled?
    ensures var fill := FillFromPool(s.pool.value, s.orders[0].requested).value;
            ProcessOrders(s, 0, max) == ProcessOrders(AfterFill(s, 0, fill.pool, fill.proceeds), 0, max - 1)
  {
    hide FillFromPool, CloseOrder;
  }

  lemma NoOpenOrderLeft(s: State, max: nat)
    requires Books(s) && (|s.orders| > 0 ==> !s.orders[0].open)
    ensures ProcessOrders(s, 0, max) == Ok(s) && AllFilled(s, s, s.pool)
  {
    hide FillFromPool, CloseOrder;
    forall o | o in s.orders ensures !o.open {
      if o.open { OpenOrdersFirst(s.orders, o); }
    }
  }

  // ---------- maintenance as a whole ----------

  /** An open order that has waited for a loan term. */
  ghost predicate Overdue(o: Order, now: nat) {
    o.open && o.time + LOAN_TERM <= now
  }

  lemma OverdueExpiresLoans(s: State, o: Order)
    requires Books(s) && o in s.orders && Overdue(o, s.now)
    ensures |s.orders| > 0 && s.orders[0].open
    ensures AllExpired(s.cpuLoans, s.now) && AllExpired(s.netLoans, s.now)
  {
    OpenOrdersFirst(s.orders, o);
  }

  /** An overdue order lets maintenance empty both loan tables. */
  lemma LoansClear(s: State, max: nat)
    requires Books(s) && LimitsOk(s) && s.pool.Some?
    requires |s.orders| > 0 && s.orders[0].open && AllExpired(s.cpuLoans, s.now) && AllExpired(s.netLoans, s.now)
    requires |s.cpuLoans| <= max && |s.netLoans| <= max
    ensures ProcessLoans(s, Cpu, max).Ok?
    ensures ProcessLoans(ProcessLoans(s, Cpu, max).value, Net, max).Ok?
    ensures var s' := ProcessLoans(ProcessLoans(s, Cpu, max).value, Net, max).value;
            && Books(s') && s'.cpuLoans == [] && s'.netLoans == [] && s'.orders == s.orders && s'.balances == s.balances
            && s'.pool.Some? && PriceRose(s.pool.value, s'.pool.value)
  {
    hide Books, LimitsOk, PriceRose, AllExpired, ProcessLoans;
    ExpiredLoansClose(s, Cpu, max);
    ProcessLoansSucceeds(s, Cpu, max);
    ProcessLoansKeepsBooks(s, Cpu, max);
    ProcessLoansFrame(s, Cpu, max);
    var s1 := ProcessLoans(s, Cpu, max).value;
    ExpiredLoansClose(s1, Net, max);
    ProcessLoansKeepsBooks(s1, Net, max);
    ProcessLoansFrame(s1, Net, max);
    PriceRoseTransitive(s.pool.value, s1.pool.value, ProcessLoans(s1, Net, max).value.pool.value);
  }

  /** At a better price the orders have brought at least as much. */
  lemma FilledAtEarlierPrice(s: State, s1: State, s': State)
    requires Books(s) && Books(s1) && s.pool.Some? && s1.pool.Some? && PriceRose(s.pool.value, s1.pool.value)
    requires s1.orders == s.orders && s1.balances == s.balances && AllFilled(s1, s', s1.pool)
    ensures AllFilled(s, s', s.pool)
  {
    hide Books, ProceedsAt, PriceRose;
    forall o | o in s.orders && o.open ensures FilledFor(o, s'.orders, ProceedsAt(s.pool, o.requested)) {
      OpenOrderHasBalance(s, o);
      OpenOrderHasBalance(s1, o);
      HigherPricePaysMore(s.pool.value, s1.pool.value, o.requested);
      assert FilledFor(o, s'.orders, ProceedsAt(s1.pool, o.requested));
    }
  }

  /**
   * The promise of the sell queue: once any order has been open for 30 days, one
   * maintenance with `max` at least the table sizes closes every loan and
   * fills every open order, at the price REX has now or better.
   */
  lemma QueueClearsWithinLoanTerm(s: State, o: Order, max: nat)
    requires Books(s) && LimitsOk(s) && NamebidsFunded(s)
    requires o in s.orders && Overdue(o, s.now)
    requires |s.cpuLoans| <= max && |s.netLoans| <= max && |s.orders| <= max
    ensures RunRex(s, max).Ok?
    ensures var s' := RunRex(s, max).value;
            s'.cpuLoans == [] && s'.netLoans == [] && AllFilled(s, s', s.pool)
  {
    OpenOrderHasBalance(s, o);
    OverdueExpiresLoans(s, o);
    NamebidsPaid(s);
    hide Books, LimitsAgree, PriceRose, AllExpired, ProcessLoans, ProcessOrders, AllFilled, NamebidsFunded, Overdue;
    ChannelNamebidsFrame(s);
    ChannelNamebidsKeepsBooks(s);
    var s1 := ChannelNamebids(s).value;
    LimitsFrame(s, s1);
    hide ChannelNamebids;
    LoansClear(s1, max);
    var s3 := ProcessLoans(ProcessLoans(s1, Cpu, max).value, Net, max).value;
    OpenCountBounds(s.orders);
    AllOrdersFill(s3, max);
    ProcessOrdersFrame(s3, 0, max);
    PriceRoseTransitive(s.pool.value, s1.pool.value, s3.pool.value);
    FilledAtEarlierPrice(s, s3, ProcessOrders(s3, 0, max).value);
  }

  /** The same, in any state that a run of actions reaches. */
  lemma QueueClearsInEveryRun(s0: State, q0: int, actions: seq<Action>, o: Order, max: nat)
    requires Genesis(s0, q0)
    requires var s := Run(s0, actions);
             && NamebidsFunded(s) && o in s.orders && Overdue(o, s.now)
             && |s.cpuLoans| <= max && |s.netLoans| <= max && |s.orders| <= max
    ensures var s := Run(s0, actions);
            && RunRex(s, max).Ok?
            && RunRex(s, max).value.cpuLoans == [] && RunRex(s, max).value.netLoans == []
            && AllFilled(s, RunRex(s, max).value, s.pool)
  {
    GenesisInvariant(s0, q0);
    RunKeepsInvariant(s0, actions, q0);
    hide Genesis, Books, LimitsOk, RamOk, RefundsOk, Run, RunRex, AllFilled, Overdue, NamebidsFunded;
    QueueClearsWithinLoanTerm(Run(s0, actions), o, max);
  }
}
