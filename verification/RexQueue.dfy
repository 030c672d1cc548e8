/** Which queued sales a maintenance call fills, and which it leaves open. */
module RexQueue {
  import opened Outcomes
  import opened RexState
  import opened RexActions
  import opened RexPool
  import opened RexPrices
  import opened RexTables
  import opened RexBooks
  import opened RexSteps
  import opened Bandwidth
  import opened RexLiveness
  import opened RexProgress
  import opened Staking
  import opened RexEffects
  import opened RexLoanEffects
  import opened RexNamebids
  import opened RexIsolation

  // ---------- the order of the queue ----------

  lemma {:induction false} OpenPrefix(orders: seq<Order>, i: nat)
    requires i <= |orders| && forall k :: 0 <= k < i ==> orders[k].open
    ensures OpenCount(orders) >= i
  {
    if i > 0 {
      OpenPrefix(orders[1..], i - 1);
    }
  }

  lemma {:induction false} ClosedTail(orders: seq<Order>, i: nat, o: Order)
    requires OrderTable(orders) && i < |orders| && !orders[i].open && o in orders[i..]
    ensures !o.open
  {
    if i == 0 {
      assert orders == [orders[0]] + orders[1..];
    } else {
      assert orders[1..][i - 1..] == orders[i..];
      ClosedTail(orders[1..], i - 1, o);
    }
  }

  /** Inserting a filled order leaves the open ones before it in place. */
  lemma {:induction false} InsertBehind(orders: seq<Order>, o: Order, i: nat)
    requires i <= |orders| && !o.open && forall k :: 0 <= k < i ==> orders[k].open
    ensures i <= |InsertOrder(orders, o)| && InsertOrder(orders, o)[..i] == orders[..i]
  {
    if i > 0 {
      InsertBehind(orders[1..], o, i - 1);
      var rest := InsertOrder(orders[1..], o);
      assert InsertOrder(orders, o) == [orders[0]] + rest;
      assert ([orders[0]] + rest)[..i] == [orders[0]] + rest[..i - 1];
      assert orders[..i] == [orders[0]] + orders[1..][..i - 1];
    }
  }

  lemma CloseBehind(orders: seq<Order>, i: nat, proceeds: int)
    requires i < |orders| && forall k :: 0 <= k <= i ==> orders[k].open
    ensures var closed := CloseOrder(orders, i, proceeds);
            |closed| == |orders| && closed[..i] == orders[..i]
  {
    var rest := RemoveAt(orders, i);
    InsertBehind(rest, orders[i].(proceeds := proceeds, open := false), i);
    InsertOrderFacts(rest, orders[i].(proceeds := proceeds, open := false));
    assert rest[..i] == orders[..i];
  }

  // ---------- what a fill does to the others ----------

  /** A sale that would break the reserve still does after another one has been filled. */
  lemma StillBreaks(p: Pool, q: Pool, rex: int)
    requires PoolSound(p) && PoolSound(q) && PriceRose(p, q) && 0 < rex && p.rex > 0 && q.rex > 0
    requires q.lent == p.lent && q.unlent <= p.unlent && !LeavesReserve(p, rex)
    ensures !LeavesReserve(q, rex)
  {
    WorthIsProceeds(p, rex);
    WorthIsProceeds(q, rex);
    hide Worth, ProceedsAt, PriceRose, PoolSound;
    HigherPricePaysMore(p, q, rex);
  }

  lemma WorthIsProceeds(p: Pool, rex: int)
    ensures Worth(p, rex) == ProceedsAt(Some(p), rex)
  {
  }

  /** The order at `i` is filled exactly when it leaves the reserve, and the pool then keeps it. */
  lemma FillExactly(s: State, i: nat)
    requires Books(s) && s.pool.Some? && i < |s.orders| && s.orders[i].open
    ensures var p := s.pool.value;
            var o := s.orders[i];
            && o.owner in s.balances && FillFromPool(p, o.requested).Ok?
            && var fill := FillFromPool(p, o.requested).value;
               && (fill.Filled? <==> LeavesReserve(p, o.requested))
               && (fill.Filled? ==>
                     && fill.proceeds == Worth(p, o.requested) >= 0 && Books(AfterFill(s, i, fill.pool, fill.proceeds))
                     && fill.pool == p.(rex := p.rex - o.requested, lendable := p.lendable - fill.proceeds,
                                        unlent := p.unlent - fill.proceeds)
                     && fill.pool.unlent >= fill.pool.lent / 5 && PriceRose(p, fill.pool))
  {
    hide FillFromPool, LeavesReserve, Worth, PriceRose, AfterFill;
    FillKeepsBooks(s, i);
    OpenOrderHasBalance(s, s.orders[i]);
    assert PoolSound(s.pool.value);
    hide Books, PoolSound;
    SaleExact(s.pool.value, s.orders[i].requested);
    if LeavesReserve(s.pool.value, s.orders[i].requested) {
      ReserveMeans(s.pool.value, s.orders[i].requested);
    }
  }

  lemma ReserveMeans(p: Pool, rex: int)
    requires LeavesReserve(p, rex)
    ensures p.unlent - Worth(p, rex) >= p.lent / 5
  {
  }

  /** The open orders up to `i` would all break the reserve. */
  ghost predicate AllBreak(s: State, i: nat) {
    s.pool.Some? && i <= |s.orders|
    && forall k :: 0 <= k < i ==> s.orders[k].open && !LeavesReserve(s.pool.value, s.orders[k].requested)
  }

  lemma AllBreakAfterFill(s: State, i: nat, q: Pool, proceeds: int)
    requires Books(s) && s.pool.Some? && i < |s.orders| && s.orders[i].open && AllBreak(s, i)
    requires s.orders[i].owner in s.balances && FillFromPool(s.pool.value, s.orders[i].requested) == Ok(Filled(q, proceeds))
    ensures AllBreak(AfterFill(s, i, q, proceeds), i)
  {
    hide FillFromPool, LeavesReserve, Worth, PriceRose;
    FillExactly(s, i);
    var s1 := AfterFill(s, i, q, proceeds);
    CloseBehind(s.orders, i, proceeds);
    assert s1.pool == Some(q) && s1.orders == CloseOrder(s.orders, i, proceeds);
    assert PoolSound(s.pool.value) && PoolSound(q);
    hide PoolSound, CloseOrder, AfterFill;
    forall k | 0 <= k < i ensures s1.orders[k].open && !LeavesReserve(q, s1.orders[k].requested) {
      assert s1.orders[k] == s1.orders[..i][k] == s.orders[k];
      assert s1.orders[k] in s1.orders && s.orders[k] in s.orders;
      OpenOrderHasBalance(s, s.orders[k]);
      OpenOrderHasBalance(s1, s1.orders[k]);
      StillBreaks(s.pool.value, q, s.orders[k].requested);
    }
  }

  // ---------- the loop ----------

  /** No open order that is left could be filled. */
  ghost predicate NoneFillable(s: State)
    requires s.pool.Some?
  {
    forall o :: o in s.orders && o.open ==> !LeavesReserve(s.pool.value, o.requested)
  }

  /** The loop did nothing, or the last order it filled has left the reserve. */
  ghost predicate ReserveKept(s: State, s': State)
    requires s'.pool.Some?
  {
    (s'.pool == s.pool && s'.orders == s.orders) || s'.pool.value.unlent >= s'.pool.value.lent / 5
  }

  lemma LoopEnds(s: State, i: nat)
    requires Books(s) && AllBreak(s, i) && (i == |s.orders| || !s.orders[i].open)
    ensures NoneFillable(s)
  {
    hide LeavesReserve;
    BooksQueueTable(s);
    hide Books;
    forall o | o in s.orders && o.open ensures !LeavesReserve(s.pool.value, o.requested) {
      var k :| 0 <= k < |s.orders| && s.orders[k] == o;
      if k >= i {
        assert s.orders[i..][k - i] == o;
        ClosedTail(s.orders, i, o);
      }
    }
  }

  lemma BooksQueueTable(s: State)
    requires Books(s)
    ensures OrderTable(s.orders)
  {
  }

  lemma EnoughTries(orders: seq<Order>, i: nat)
    requires i < |orders| && OpenCount(orders) <= i && forall k :: 0 <= k < i ==> orders[k].open
    ensures !orders[i].open
  {
    if orders[i].open {
      OpenPrefix(orders, i + 1);
    }
  }

  lemma {:induction false} QueueLoopExactly(s: State, i: nat, max: nat)
    requires Books(s) && AllBreak(s, i) && OpenCount(s.orders) <= i + max
    ensures ProcessOrders(s, i, max).Ok?
    ensures var s' := ProcessOrders(s, i, max).value;
            s'.pool.Some? && NoneFillable(s') && ReserveKept(s, s')
    decreases max
  {
    hide Books, FillFromPool, LeavesReserve, Worth, PriceRose, NoneFillable, OpenCount;
    if i == |s.orders| || !s.orders[i].open {
      LoopEnds(s, i);
    } else if max == 0 {
      EnoughTries(s.orders, i);
    } else {
      FillExactly(s, i);
      var fill := FillFromPool(s.pool.value, s.orders[i].requested).value;
      if fill.Filled? {
        AllBreakAfterFill(s, i, fill.pool, fill.proceeds);
        FillOpenCount(s, i, fill.pool, fill.proceeds);
        var s1 := AfterFill(s, i, fill.pool, fill.proceeds);
        QueueLoopExactly(s1, i, max - 1);
      } else {
        QueueLoopExactly(s, i + 1, max - 1);
      }
    }
  }

  lemma AfterLoansKeepsBooks(s: State, max: nat)
    requires Books(s) && s.pool.Some? && AfterLoans(s, max).Ok?
    ensures Books(AfterLoans(s, max).value) && AfterLoans(s, max).value.pool.Some?
  {
    hide Books, PriceRose, ProcessLoans;
    ChannelNamebidsKeepsBooks(s);
    ProcessLoansKeepsBooks(ChannelNamebids(s).value, Cpu, max);
    ProcessLoansKeepsBooks(ProcessLoans(ChannelNamebids(s).value, Cpu, max).value, Net, max);
  }

  /**
   * A maintenance call with `max` at least the number of orders leaves an order
   * open exactly when filling it would not leave a fifth of the lent tokens
   * unlent; if it fills any, that reserve is there afterwards.
   */
  lemma QueueExactly(s: State, max: nat)
    requires Books(s) && RunRex(s, max).Ok? && |s.orders| <= max
    ensures var s' := RunRex(s, max).value;
            s'.pool.Some? && NoneFillable(s')
            && (s'.orders == s.orders || s'.pool.value.unlent >= s'.pool.value.lent / 5)
  {
    hide Books, RunRex, AfterLoans, ProcessOrders, NoneFillable, LeavesReserve, OpenCount;
    LoansLeaveOrders(s, max);
    AfterLoansKeepsBooks(s, max);
    var s3 := AfterLoans(s, max).value;
    OpenCountBounds(s.orders);
    QueueLoopExactly(s3, 0, max);
  }

  /** The first order in the queue is filled by a call exactly when, after the loans, it leaves the reserve. */
  lemma FirstOrderExactly(s: State, max: nat)
    requires Books(s) && RunRex(s, max).Ok? && max > 0 && |s.orders| > 0 && s.orders[0].open
    ensures s.pool.Some? && AfterLoans(s, max).Ok? && AfterLoans(s, max).value.pool.Some?
    ensures var o, p := s.orders[0], AfterLoans(s, max).value.pool.value;
            var s' := RunRex(s, max).value;
            if LeavesReserve(p, o.requested) then o.(proceeds := Worth(p, o.requested), open := false) in s'.orders
            else o in s'.orders
  {
    hide Books, RunRex, AfterLoans, LeavesReserve, Worth, PriceRose, FillFromPool, CloseOrder;
    LoansLeaveOrders(s, max);
    AfterLoansKeepsBooks(s, max);
    var s3 := AfterLoans(s, max).value;
    var o, p := s3.orders[0], s3.pool.value;
    FillExactly(s3, 0);
    if LeavesReserve(p, o.requested) {
      var fill := FillFromPool(p, o.requested).value;
      OrdersAfterFill(s3, 0, fill.pool, fill.proceeds);
      ClosedStay(AfterFill(s3, 0, fill.pool, fill.proceeds), 0, max - 1, o.(proceeds := fill.proceeds, open := false));
    } else {
      EarlierStay(s3, 1, max - 1);
    }
  }

  /** The loop leaves the orders before its index alone. */
  lemma {:induction false} EarlierStay(s: State, i: nat, max: nat)
    requires ProcessOrders(s, i, max).Ok? && i <= |s.orders| && forall k :: 0 <= k < i ==> s.orders[k].open
    ensures var s' := ProcessOrders(s, i, max).value;
            i <= |s'.orders| && s'.orders[..i] == s.orders[..i]
    decreases max
  {
    hide FillFromPool;
    if max > 0 && s.pool.Some? && i < |s.orders| && s.orders[i].open {
      var o := s.orders[i];
      if o.owner !in s.balances || FillFromPool(s.pool.value, o.requested).value.NotFilled? {
        EarlierStay(s, i + 1, max - 1);
        assert ProcessOrders(s, i, max).value.orders[..i + 1][..i] == s.orders[..i + 1][..i];
      } else {
        var fill := FillFromPool(s.pool.value, o.requested).value;
        CloseBehind(s.orders, i, fill.proceeds);
        var s1 := AfterFill(s, i, fill.pool, fill.proceeds);
        assert forall k :: 0 <= k < i ==> s1.orders[k] == s1.orders[..i][k];
        hide CloseOrder;
        EarlierStay(s1, i, max - 1);
      }
    }
  }

  // ---------- pass by pass ----------

  /** The order at `i` is filled: what it asks for leaves its owner's row and the pool, its proceeds wait in the queue. */
  ghost predicate OrderFilled(s: State, s': State, i: nat)
    requires s.pool.Some? && i < |s.orders|
  {
    var o, p := s.orders[i], s.pool.value;
    var worth := Worth(p, o.requested);
    && s' == s.(pool := s'.pool, balances := s'.balances, orders := s'.orders)
    && s'.pool == Some(p.(rex := p.rex - o.requested, lendable := p.lendable - worth, unlent := p.unlent - worth))
    && o.owner in s.balances
    && s'.balances == s.balances[o.owner := Less(s.balances[o.owner], o.requested)]
    && OrderTable(s'.orders)
    && forall x :: x in s'.orders <==> x == o.(proceeds := worth, open := false) || (x in s.orders && x.owner != o.owner)
  }

  /** One pass over the queue: the open order at `i` is filled, or skipped if that would break the reserve. */
  ghost predicate OrderPass(s: State, i: nat, s': State, i': nat) {
    && s.pool.Some? && i < |s.orders| && s.orders[i].open
    && if LeavesReserve(s.pool.value, s.orders[i].requested) then i' == i && OrderFilled(s, s', i) else i' == i + 1 && s' == s
  }

  ghost predicate OrderPasses(trace: seq<(State, nat)>) {
    |trace| > 0 && forall k :: 0 <= k < |trace| - 1 ==> OrderPass(trace[k].0, trace[k].1, trace[k + 1].0, trace[k + 1].1)
  }

  lemma ClosedMembers(orders: seq<Order>, i: nat, proceeds: int)
    requires OrderTable(orders) && i < |orders|
    ensures var o := orders[i].(proceeds := proceeds, open := false);
            var closed := CloseOrder(orders, i, proceeds);
            OrderTable(closed) && forall x :: x in closed <==> x == o || (x in orders && x.owner != orders[i].owner)
  {
    RemoveOrderFacts(orders, i);
    var rest := RemoveAt(orders, i);
    InsertOrderFacts(rest, orders[i].(proceeds := proceeds, open := false));
    hide OrderTable;
  }

  lemma OrderPassExactly(s: State, i: nat, max: nat)
    requires Books(s) && s.pool.Some? && i < |s.orders| && s.orders[i].open && max > 0
    ensures s.orders[i].owner in s.balances && FillFromPool(s.pool.value, s.orders[i].requested).Ok?
    ensures var fill := FillFromPool(s.pool.value, s.orders[i].requested).value;
            if fill.Filled? then
              var s1 := AfterFill(s, i, fill.pool, fill.proceeds);
              && OrderPass(s, i, s1, i) && Books(s1) && s1.pool.Some?
              && ProcessOrders(s, i, max) == ProcessOrders(s1, i, max - 1)
            else OrderPass(s, i, s, i + 1) && ProcessOrders(s, i, max) == ProcessOrders(s, i + 1, max - 1)
  {
    hide Books, FillFromPool, LeavesReserve, Worth, PriceRose;
    FillExactly(s, i);
    BooksQueueTable(s);
    var fill := FillFromPool(s.pool.value, s.orders[i].requested).value;
    if fill.Filled? {
      ClosedMembers(s.orders, i, fill.proceeds);
      hide CloseOrder, OrderTable;
    }
  }

  /** The loop over the queue, for any `max`: one pass after the other until `max` have been made or no open order is next. */
  lemma {:induction false} QueuePassesExactly(s: State, i: nat, max: nat) returns (trace: seq<(State, nat)>)
    requires Books(s) && s.pool.Some?
    ensures OrderPasses(trace) && trace[0] == (s, i) && |trace| <= max + 1
    ensures var (s', j) := trace[|trace| - 1];
            && ProcessOrders(s, i, max) == Ok(s')
            && (|trace| == max + 1 || j >= |s'.orders| || !s'.orders[j].open)
    decreases max
  {
    hide Books, FillFromPool, OrderPass, AfterFill;
    if max == 0 || i >= |s.orders| || !s.orders[i].open {
      trace := [(s, i)];
    } else {
      OrderPassExactly(s, i, max);
      var fill := FillFromPool(s.pool.value, s.orders[i].requested).value;
      var rest;
      if fill.Filled? {
        rest := QueuePassesExactly(AfterFill(s, i, fill.pool, fill.proceeds), i, max - 1);
      } else {
        rest := QueuePassesExactly(s, i + 1, max - 1);
      }
      hide ProcessOrders;
      trace := [(s, i)] + rest;
      forall k | 0 <= k < |trace| - 1 ensures OrderPass(trace[k].0, trace[k].1, trace[k + 1].0, trace[k + 1].1) {
        if k > 0 {
          assert trace[k] == rest[k - 1] && trace[k + 1] == rest[k];
        }
      }
    }
  }

  // ---------- maintenance as a whole ----------

  /** `s'` is `s` after at most `max` passes over a loan table; fewer only if no loan is expired any more. */
  ghost predicate LoansDone(s: State, s': State, kind: Kind, max: nat) {
    exists trace :: LoanPasses(trace, kind) && trace[0] == s && trace[|trace| - 1] == s' && |trace| <= max + 1
                    && (|trace| == max + 1 || !AnyExpired(s', kind))
  }

  lemma LoansAreDone(s: State, kind: Kind, max: nat)
    requires Books(s) && LimitsOk(s) && s.pool.Some?
    ensures ProcessLoans(s, kind, max).Ok? && LoansDone(s, ProcessLoans(s, kind, max).value, kind, max)
    ensures var s' := ProcessLoans(s, kind, max).value;
            Books(s') && LimitsOk(s') && s'.pool.Some? && s'.orders == s.orders
  {
    hide Books, LimitsOk, PriceRose, LoanPasses, AnyExpired, ProcessLoans;
    var trace := LoansLoopExactly(s, kind, max);
    ProcessLoansSucceeds(s, kind, max);
    ProcessLoansKeepsBooks(s, kind, max);
    ProcessLoansFrame(s, kind, max);
  }

  /**
   * Maintenance with `max` at least the number of orders: the announced proceeds
   * are paid in, expired CPU loans and then NET loans are renewed or closed, and
   * of the orders exactly those are left that would break the reserve.
   */
  lemma MaintenanceExactly(s: State, max: nat)
    requires Books(s) && LimitsOk(s) && Backed(s.pool) && RunRex(s, max).Ok? && |s.orders| <= max
    ensures exists s1: State, s2: State, s3: State ::
              && PaidIn(s, s1) && LoansDone(s1, s2, Cpu, max) && LoansDone(s2, s3, Net, max) && s3.orders == s.orders
              && RunRex(s, max).value == s3.(pool := RunRex(s, max).value.pool, balances := RunRex(s, max).value.balances,
                                             orders := RunRex(s, max).value.orders)
              && RunRex(s, max).value.pool.Some? && NoneFillable(RunRex(s, max).value) && ReserveKept(s3, RunRex(s, max).value)
  {
    MaintenanceNeedsPool(s, max);
    MaintenancePaysNamebids(s, max);
    var s1 := ChannelNamebids(s).value;
    ChannelNamebidsFrame(s);
    ChannelNamebidsKeepsBooks(s);
    hide Books, LimitsAgree, ProcessLoans, ProcessOrders, ChannelNamebids, PaidIn, LoansDone, NoneFillable, ReserveKept, PriceRose,
      OpenCount, Backed;
    LimitsOkFrame(s, s1);
    hide LimitsOk;
    LoansAreDone(s1, Cpu, max);
    var s2 := ProcessLoans(s1, Cpu, max).value;
    LoansAreDone(s2, Net, max);
    var s3 := ProcessLoans(s2, Net, max).value;
    OpenCountBounds(s.orders);
    QueueLoopExactly(s3, 0, max);
    ProcessOrdersFrame(s3, 0, max);
  }
}
