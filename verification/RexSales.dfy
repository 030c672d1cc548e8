/** When a sale of REX is filled, when it waits, and what it does to the tables. */
module RexSales {
  import opened Outcomes
  import opened RexState
  import opened RexActions
  import opened MapSums
  import opened RexPool
  import opened RexPrices
  import opened RexTables
  import opened RexMaturities
  import opened RexBooks
  import opened RexSteps
  import opened RexEffects
  import opened Staking

  // ---------- sellrex ----------

  /** The row after a sale of `sold` REX: what is due has matured, the rest is as it was. */
  ghost predicate RowSells(b: RexBalance, b': RexBalance, sec: nat, sold: int) {
    && b'.rex == b.rex - sold && b'.matured == SellableBy(b, sec) - sold && SavingsOf(b') == SavingsOf(b)
    && forall t :: sec <= t < END_OF_DAYS ==> SellableBy(b', t) == SellableBy(b, t) - sold
  }

  lemma ProcessedRow(b: RexBalance, now: nat)
    requires BalanceOk(b, Maturity(now)) && now < CLOCK_LIMIT
    ensures RowSells(b, ProcessMaturities(b, Seconds(now)), Seconds(now), 0)
  {
    hide BalanceOk, SellableBy, ProcessMaturities, SavingsOf;
    forall t: int {
      ProcessKeepsBalance(b, now, t);
    }
    ProcessKeepsBalance(b, now, 0);
  }

  /** The sale is filled: the REX leaves row and pool, what it is worth goes to the owner's fund. */
  ghost predicate SoldAtOnce(s: State, s': State, from: Name, rex: int)
    requires s.pool.Some? && from in s.balances
  {
    var p := s.pool.value;
    && s' == s.(pool := s'.pool, balances := s'.balances, funds := s'.funds, orders := s'.orders)
    && s'.pool == Some(p.(rex := p.rex - rex, lendable := p.lendable - Worth(p, rex), unlent := p.unlent - Worth(p, rex)))
    && s'.balances.Keys == s.balances.Keys && RowSells(s.balances[from], s'.balances[from], Seconds(s.now), rex)
    && (forall u :: u in s.balances && u != from ==> s'.balances[u] == s.balances[u])
    && FundChanges(s, s', from, Worth(p, rex) + Collectable(s.orders, from))
    && OrdersSettled(s.orders, s'.orders, from)
  }

  /** `o` is the account's order after it has asked for `rex` more; it keeps its time, a new one has the present time. */
  ghost predicate RaisedTo(orders: seq<Order>, o: Order, from: Name, rex: int, now: nat) {
    && o.owner == from && o.open && o.proceeds == 0 && o.requested == Requested(orders, from) + rex
    && ((exists x :: x in orders && x.owner == from && x.open && x.time == o.time)
        || ((forall x :: x in orders && x.owner == from ==> !x.open) && o.time == now))
  }

  /** The account's order is the raised one, the other orders are the same. */
  ghost predicate OrderRaised(orders: seq<Order>, orders': seq<Order>, from: Name, rex: int, now: nat) {
    && OrderTable(orders')
    && exists o :: RaisedTo(orders, o, from, rex, now) && forall x :: x in orders' <==> x == o || (x in orders && x.owner != from)
  }

  /** The sale waits: only the row's due REX has matured and the order has grown. */
  ghost predicate SaleWaits(s: State, s': State, from: Name, rex: int)
    requires from in s.balances
  {
    && s' == s.(balances := s'.balances, funds := s'.funds, orders := s'.orders)
    && s'.balances.Keys == s.balances.Keys && RowSells(s.balances[from], s'.balances[from], Seconds(s.now), 0)
    && (forall u :: u in s.balances && u != from ==> s'.balances[u] == s.balances[u])
    && FundChanges(s, s', from, Collectable(s.orders, from))
    && OrderRaised(s.orders, s'.orders, from, rex, s.now)
  }

  /** What sellrex asks of the state after maintenance. */
  ghost predicate CanSell(s: State, from: Name, rex: int) {
    && s.pool.Some? && from in s.balances && rex > 0
    && Requested(s.orders, from) + rex <= SellableBy(s.balances[from], Seconds(s.now))
    && (if LeavesReserve(s.pool.value, rex) then Worth(s.pool.value, rex) > 0 else from != B1)
  }

  lemma {:induction false} RaisedMembers(orders: seq<Order>, i: nat, requested: int, x: Order)
    requires OrderTable(orders) && i < |orders|
    ensures x in orders[i := orders[i].(requested := requested)]
       <==> x == orders[i].(requested := requested) || (x in orders && x.owner != orders[i].owner)
  {
    if i == 0 {
      assert orders == [orders[0]] + orders[1..];
      assert orders[0 := orders[0].(requested := requested)] == [orders[0].(requested := requested)] + orders[1..];
    } else {
      var rest := orders[1..];
      assert orders == [orders[0]] + rest && orders[i] == rest[i - 1] && orders[i] in rest;
      assert orders[i := orders[i].(requested := requested)] == [orders[0]] + rest[i - 1 := rest[i - 1].(requested := requested)];
      RaisedMembers(rest, i - 1, requested, x);
    }
  }

  lemma NewOrderExactly(s: State, from: Name, rex: int)
    requires OrderTable(s.orders) && FindOrder(s.orders, from) == |s.orders|
    ensures var s' := QueueOrder(s, from, rex);
            s' == s.(orders := s'.orders) && OrderRaised(s.orders, s'.orders, from, rex, s.now)
            && RequestedBy(s', from) == Requested(s.orders, from) + rex
  {
    hide InsertOrder, OrderTable, Requested;
    var o := Order(from, rex, 0, s.now, true);
    assert forall x :: x in s.orders ==> x.owner != from;
    NoneOf(s.orders, from);
    InsertOrderFacts(s.orders, o);
    var orders' := InsertOrder(s.orders, o);
    assert RaisedTo(s.orders, o, from, rex, s.now);
    assert o in orders';
    UniqueOrder(orders', from);
  }

  lemma MoreOfOrder(s: State, from: Name, rex: int)
    requires OrdersOk(s.orders, s.now) && FindOrder(s.orders, from) < |s.orders| && s.orders[FindOrder(s.orders, from)].open
    ensures var s' := QueueOrder(s, from, rex);
            s' == s.(orders := s'.orders) && OrderRaised(s.orders, s'.orders, from, rex, s.now)
            && RequestedBy(s', from) == Requested(s.orders, from) + rex
  {
    hide OrderTable, Requested, OrderOk, RaisedTo, FindOrder;
    var i := FindOrder(s.orders, from);
    var was := s.orders[i];
    var o := was.(requested := was.requested + rex);
    var raised := s.orders[i := o];
    LookupSums(s.orders, from);
    assert was in s.orders;
    OpenOrderOk(was, s.now);
    RaiseOrderFacts(s.orders, i, o.requested);
    forall x: Order ensures x in raised <==> x == o || (x in s.orders && x.owner != from) {
      RaisedMembers(s.orders, i, o.requested, x);
    }
    assert RaisedTo(s.orders, o, from, rex, s.now) by { RaisedFrom(s.orders, was, o, from, rex, s.now); }
    assert raised[i] == o && o in raised;
    FoundIn(raised, o);
  }

  lemma OpenOrderOk(o: Order, now: nat)
    requires OrderOk(o, now) && o.open
    ensures o.requested > 0 && o.proceeds == 0 && o.time <= now
  {
  }

  lemma RaisedFrom(orders: seq<Order>, was: Order, o: Order, from: Name, rex: int, now: nat)
    requires was in orders && was.owner == from && was.open && was.proceeds == 0
    requires was.requested == Requested(orders, from) && o == was.(requested := was.requested + rex)
    ensures RaisedTo(orders, o, from, rex, now)
  {
  }

  lemma FoundIn(orders: seq<Order>, o: Order)
    requires OrderTable(orders) && o in orders
    ensures FindOrder(orders, o.owner) < |orders| && orders[FindOrder(orders, o.owner)] == o
  {
    hide OrderTable;
    if FindOrder(orders, o.owner) < |orders| {
      UniqueOrder(orders, o.owner);
    }
  }

  lemma QueueExactly(s: State, from: Name, rex: int)
    requires OrdersOk(s.orders, s.now) && forall o :: o in s.orders && o.owner == from ==> o.open
    ensures var s' := QueueOrder(s, from, rex);
            s' == s.(orders := s'.orders) && OrderRaised(s.orders, s'.orders, from, rex, s.now)
            && RequestedBy(s', from) == Requested(s.orders, from) + rex
  {
    hide QueueOrder, RequestedBy, OrderRaised, OrderTable, OrderOk;
    var i := FindOrder(s.orders, from);
    if i == |s.orders| {
      NewOrderExactly(s, from, rex);
    } else {
      assert s.orders[i] in s.orders;
      MoreOfOrder(s, from, rex);
    }
  }

  /** Collecting a filled order leaves the open one. */
  lemma SettledKeepsRequest(orders: seq<Order>, orders': seq<Order>, from: Name)
    requires OrderTable(orders) && OrdersSettled(orders, orders', from)
    ensures Requested(orders', from) == Requested(orders, from)
    ensures forall o :: o in orders' && o.owner == from ==> o.open
  {
    hide Requested, OrderTable;
    LookupSums(orders, from);
    LookupSums(orders', from);
    var i, j := FindOrder(orders, from), FindOrder(orders', from);
    if j < |orders'| {
      assert orders'[j] in orders';
      FoundIn(orders, orders'[j]);
    } else {
      assert forall o :: o in orders' ==> o.owner != from;
      assert forall o :: o in orders && o.open ==> o.owner != from;
    }
  }

  lemma RaisedAfterSettling(orders: seq<Order>, settled: seq<Order>, orders': seq<Order>, from: Name, rex: int, now: nat)
    requires OrderTable(orders) && OrdersSettled(orders, settled, from) && OrderRaised(settled, orders', from, rex, now)
    ensures OrderRaised(orders, orders', from, rex, now)
  {
    hide Requested, OrderTable;
    SettledKeepsRequest(orders, settled, from);
    var o :| RaisedTo(settled, o, from, rex, now) && forall x :: x in orders' <==> x == o || (x in settled && x.owner != from);
    assert RaisedTo(orders, o, from, rex, now);
  }

  /** The outcome of a sale of REX that has matured, filled or queued. */
  lemma SellFromExactly(s: State, from: Name, rex: int)
    requires Books(s) && s.pool.Some? && from in s.balances && 0 < rex <= s.balances[from].matured
    ensures var p := s.pool.value;
            var r := SellFrom(s, from, rex);
            if LeavesReserve(p, rex) then
              && (r.Ok? <==> Worth(p, rex) > 0 && Requested(s.orders, from) + rex <= s.balances[from].matured)
              && (r.Ok? ==> FilledNow(s, r.value, from, rex))
            else
              && (r.Ok? <==> from != B1 && Requested(s.orders, from) + rex <= s.balances[from].matured)
              && (r.Ok? ==> QueuedNow(s, r.value, from, rex))
  {
    hide Books, PriceRose, UpdateRexAccount, FillFromPool, QueueOrder, LeavesReserve, Worth, Requested, Collectable,
      FundChanges, OrdersSettled, OrderRaised, RequestedBy, FilledNow, QueuedNow;
    BooksParts(s);
    SaleOfRow(s, from, rex);
    var p := s.pool.value;
    if LeavesReserve(p, rex) {
      var q := p.(rex := p.rex - rex, lendable := p.lendable - Worth(p, rex), unlent := p.unlent - Worth(p, rex));
      FilledExactly(s, from, rex, q, Worth(p, rex));
    } else {
      QueuedExactly(s, from, rex);
    }
  }

  lemma SaleOfRow(s: State, from: Name, rex: int)
    requires Books(s) && s.pool.Some? && from in s.balances && 0 < rex <= s.balances[from].matured
    ensures Worth(s.pool.value, rex) >= 0
    ensures var p := s.pool.value;
            FillFromPool(p, rex)
            == Ok(if LeavesReserve(p, rex)
                  then Filled(p.(rex := p.rex - rex, lendable := p.lendable - Worth(p, rex), unlent := p.unlent - Worth(p, rex)),
                              Worth(p, rex))
                  else NotFilled)
  {
    hide FillFromPool, LeavesReserve, LoansOk, OrdersOk, LoansEndInTime, AllCovered;
    BalanceWithinTotal(s.balances, from, Maturity(s.now));
    SaleExact(s.pool.value, rex);
    QuotientNonNegative(rex, s.pool.value.lendable, s.pool.value.rex);
  }

  /** The sold REX has left row and pool, and the proceeds are in the fund. */
  ghost predicate FilledNow(s: State, s': State, from: Name, rex: int)
    requires s.pool.Some? && from in s.balances
  {
    var p := s.pool.value;
    var b := s.balances[from];
    && s' == s.(pool := s'.pool, balances := s'.balances, funds := s'.funds, orders := s'.orders)
    && s'.pool == Some(p.(rex := p.rex - rex, lendable := p.lendable - Worth(p, rex), unlent := p.unlent - Worth(p, rex)))
    && s'.balances == s.balances[from := b.(rex := b.rex - rex, matured := b.matured - rex)]
    && FundChanges(s, s', from, Worth(p, rex) + Collectable(s.orders, from))
    && OrdersSettled(s.orders, s'.orders, from)
  }

  ghost predicate QueuedNow(s: State, s': State, from: Name, rex: int) {
    && s' == s.(funds := s'.funds, orders := s'.orders)
    && FundChanges(s, s', from, Collectable(s.orders, from))
    && OrderRaised(s.orders, s'.orders, from, rex, s.now)
  }

  lemma FilledExactly(s: State, from: Name, rex: int, q: Pool, proceeds: int)
    requires Books(s) && s.pool.Some? && from in s.balances && proceeds >= 0
    requires var p := s.pool.value;
             q == p.(rex := p.rex - rex, lendable := p.lendable - Worth(p, rex), unlent := p.unlent - Worth(p, rex))
             && proceeds == Worth(p, rex)
    ensures var sold := UpdateRexAccount(DebitRex(s.(pool := Some(q)), from, rex), from, proceeds);
            && sold.Ok? && sold.value.1 == Requested(s.orders, from)
            && FilledNow(s, sold.value.0, from, rex)
            && from in sold.value.0.balances && sold.value.0.balances[from].matured == s.balances[from].matured - rex
  {
    hide Books, UpdateRexAccount, Worth, Requested, Settles, FilledNow, OrdersOk, DebitRex;
    BooksHaveOrders(s);
    var s1 := DebitRex(s.(pool := Some(q)), from, rex);
    DebitedRow(s, from, rex, q);
    SettleExactly(s1, from, proceeds);
    FilledFrame(s, s1, UpdateRexAccount(s1, from, proceeds).value.0, from, rex, q, proceeds);
  }

  lemma DebitedRow(s: State, from: Name, rex: int, q: Pool)
    requires from in s.balances
    ensures var b := s.balances[from];
            DebitRex(s.(pool := Some(q)), from, rex)
            == s.(pool := Some(q), balances := s.balances[from := b.(rex := b.rex - rex, matured := b.matured - rex)])
  {
  }

  lemma FilledFrame(s: State, s1: State, s': State, from: Name, rex: int, q: Pool, proceeds: int)
    requires s.pool.Some? && from in s.balances && proceeds == Worth(s.pool.value, rex)
    requires q == s.pool.value.(rex := s.pool.value.rex - rex, lendable := s.pool.value.lendable - proceeds,
                                unlent := s.pool.value.unlent - proceeds)
    requires var b := s.balances[from];
             s1 == s.(pool := Some(q), balances := s.balances[from := b.(rex := b.rex - rex, matured := b.matured - rex)])
    requires Settles(s1, s', from, proceeds)
    ensures FilledNow(s, s', from, rex)
    ensures from in s'.balances && s'.balances[from].matured == s.balances[from].matured - rex
  {
    hide Worth, Collectable, OrdersSettled, FundChanges;
    FundChangesFrom(s, s1, s', from, proceeds + Collectable(s1.orders, from));
  }

  lemma QueuedExactly(s: State, from: Name, rex: int)
    requires Books(s)
    ensures var settled := UpdateRexAccount(s, from, 0);
            && settled.Ok?
            && var s' := QueueOrder(settled.value.0, from, rex);
               QueuedNow(s, s', from, rex) && RequestedBy(s', from) == Requested(s.orders, from) + rex
  {
    hide Books, UpdateRexAccount, Requested, Collectable, OrdersSettled, OrderRaised, QueueOrder, RequestedBy, OrderOk;
    BooksHaveOrders(s);
    SettleExactly(s, from, 0);
    var s1 := UpdateRexAccount(s, from, 0).value.0;
    SettledOrdersOk(s, s1, from);
    SettledKeepsRequest(s.orders, s1.orders, from);
    QueueExactly(s1, from, rex);
    RaisedAfterSettling(s.orders, s1.orders, QueueOrder(s1, from, rex).orders, from, rex, s.now);
  }

  lemma SettledOrdersOk(s: State, s1: State, from: Name)
    requires OrdersOk(s.orders, s.now) && OrdersSettled(s.orders, s1.orders, from)
    ensures OrdersOk(s1.orders, s.now)
  {
    hide OrderOk;
  }

  /**
   * After maintenance a sale of REX that is due is filled at once exactly when it
   * leaves a fifth of the lent tokens unlent, and otherwise queued. It is refused
   * exactly when the account lacks due REX beside what its order asks for, when
   * the REX is worth nothing, or when b1 would have to queue.
   */
  lemma SellExactly(s: State, from: Name, rex: int)
    requires Books(s)
    ensures SellRex(s, from, rex).Ok? <==> RunRex(s, 2).Ok? && CanSell(RunRex(s, 2).value, from, rex)
    ensures SellRex(s, from, rex).Ok? ==>
              var s1, s' := RunRex(s, 2).value, SellRex(s, from, rex).value;
              if LeavesReserve(s1.pool.value, rex) then SoldAtOnce(s1, s', from, rex) else SaleWaits(s1, s', from, rex)
  {
    hide Books, PriceKept, RunRex, LeavesReserve, Worth, Requested, Collectable, FundChanges, OrdersSettled, OrderRaised,
      SellRex, SellFrom, SellableBy, ProcessMaturities, FilledNow, QueuedNow, SoldAtOnce, SaleWaits;
    if RunRex(s, 2).Ok? {
      MaintainFirst(s);
      SellInParts(s, from, rex);
      var s1 := RunRex(s, 2).value;
      if from in s1.balances {
        ProcessRowKeepsBooks(s1, from);
        SettledOwnOrders(s1, from);
        ProcessedRow(s1.balances[from], s1.now);
        RequestNonNegative(s1, from);
        var s2 := MaturedRow(s1, from, s.now);
        if SaleAllowed(s, from, rex) {
          SellFromExactly(s2, from, rex);
          if SellRex(s, from, rex).Ok? {
            SoldFromRow(s1, s2, SellRex(s, from, rex), from, rex);
          }
        }
      }
    } else {
      SellInParts(s, from, rex);
    }
  }

  lemma RequestNonNegative(s: State, from: Name)
    requires Books(s)
    ensures Requested(s.orders, from) >= 0
  {
    hide Requested;
    BooksHaveOrders(s);
    LookupSums(s.orders, from);
    SettledFacts(s.orders, from, s.now);
  }

  /** The effect on the row, before and after its due REX matured. */
  lemma SoldFromRow(s: State, s2: State, r: Result<State>, from: Name, rex: int)
    requires s.pool.Some? && from in s.balances && s2 == MaturedRow(s, from, s.now)
    requires RowSells(s.balances[from], s2.balances[from], Seconds(s.now), 0)
    requires r.Ok?
    ensures FilledNow(s2, r.value, from, rex) ==> SoldAtOnce(s, r.value, from, rex)
    ensures QueuedNow(s2, r.value, from, rex) ==> SaleWaits(s, r.value, from, rex)
  {
    hide Worth, Requested, Collectable, OrdersSettled, OrderRaised, ProcessMaturities, SavingsOf;
    if FilledNow(s2, r.value, from, rex) {
      var b, b2, b' := s.balances[from], s2.balances[from], r.value.balances[from];
      forall t | Seconds(s.now) <= t < END_OF_DAYS ensures SellableBy(b', t) == SellableBy(b, t) - rex {
        assert SellableBy(b2, t) == SellableBy(b, t);
      }
      SameSavings(b2, b');
    }
  }

  lemma SameSavings(b: RexBalance, b': RexBalance)
    requires b'.maturities == b.maturities
    ensures SavingsOf(b') == SavingsOf(b)
  {
  }
}
