/** What an action does to the tables, row by row: payments, funds, orders and settings. */
module RexEffects {
  import opened Outcomes
  import opened RexState
  import opened RexActions
  import opened MapSums
  import opened RexPool
  import opened RexTables
  import opened RexBooks
  import opened RexSteps
  import opened RexLedger

  // ---------- how tables change ----------

  /** Tokens go from one account to another, and no others move. */
  ghost predicate TokensMove(s: State, s': State, from: Name, to: Name, amount: int) {
    forall x: Name ::
      Held(s'.tokens, x) == Held(s.tokens, x) + (if x == to then amount else 0) - (if x == from then amount else 0)
  }

  /** One account's fund changes by an amount, the others not at all. */
  ghost predicate FundChanges(s: State, s': State, owner: Name, amount: int) {
    forall x: Name :: Get(s'.funds, x) == Get(s.funds, x) + (if x == owner then amount else 0)
  }

  /** REX that an account's open orders ask for. */
  ghost function Requested(orders: seq<Order>, owner: Name): int {
    if |orders| == 0 then 0
    else (if orders[0].owner == owner && orders[0].open then orders[0].requested else 0) + Requested(orders[1..], owner)
  }

  /** Proceeds of an account's filled orders. */
  ghost function Collectable(orders: seq<Order>, owner: Name): int {
    if |orders| == 0 then 0
    else (if orders[0].owner == owner && !orders[0].open then orders[0].proceeds else 0) + Collectable(orders[1..], owner)
  }

  lemma {:induction false} NoneOf(orders: seq<Order>, owner: Name)
    requires forall o :: o in orders ==> o.owner != owner
    ensures Requested(orders, owner) == 0 && Collectable(orders, owner) == 0
  {
    if |orders| > 0 {
      assert orders[0] in orders;
      NoneOf(orders[1..], owner);
    }
  }

  /** An account has one order at most, which the lookups find. */
  lemma {:induction false} LookupSums(orders: seq<Order>, owner: Name)
    requires OrderTable(orders)
    ensures PendingRex(orders, owner) == Requested(orders, owner)
    ensures CollectedProceeds(orders, owner) == Collectable(orders, owner)
  {
    if |orders| > 0 {
      if orders[0].owner == owner {
        NoneOf(orders[1..], owner);
      } else {
        LookupSums(orders[1..], owner);
      }
    }
  }

  /** The filled order of an account has left the queue, its proceeds are in the fund; nothing else has changed. */
  ghost predicate Settles(s: State, s': State, owner: Name, proceeds: int) {
    && s' == s.(funds := s'.funds, orders := s'.orders)
    && FundChanges(s, s', owner, proceeds + Collectable(s.orders, owner))
    && OrdersSettled(s.orders, s'.orders, owner)
  }

  ghost predicate OrdersSettled(orders: seq<Order>, orders': seq<Order>, owner: Name) {
    && OrderTable(orders')
    && forall o :: o in orders' <==> o in orders && (o.owner != owner || o.open)
  }

  lemma SettleExactly(s: State, owner: Name, proceeds: int)
    requires OrdersOk(s.orders, s.now) && proceeds >= 0
    ensures UpdateRexAccount(s, owner, proceeds).Ok?
    ensures var (s', pending) := UpdateRexAccount(s, owner, proceeds).value;
            Settles(s, s', owner, proceeds) && pending == Requested(s.orders, owner)
  {
    hide Requested, Collectable, PendingRex, CollectedProceeds, OrderTable, PayIntoFund, SettledOrders, OrdersSettled, FundChanges;
    LookupSums(s.orders, owner);
    CollectableNonNegative(s.orders, owner, s.now);
    SettledMembers(s.orders, owner);
    var s0 := s.(orders := SettledOrders(s.orders, owner));
    var amount := proceeds + Collectable(s.orders, owner);
    PayIntoFundExactly(s0, owner, amount);
    FundChangesFrom(s, s0, PayIntoFund(s0, owner, amount).value, owner, amount);
  }

  lemma FundChangesFrom(s: State, s0: State, s': State, owner: Name, amount: int)
    requires s0.funds == s.funds && FundChanges(s0, s', owner, amount)
    ensures FundChanges(s, s', owner, amount)
  {
  }

  lemma {:induction false} CollectableNonNegative(orders: seq<Order>, owner: Name, now: nat)
    requires forall o :: o in orders ==> OrderOk(o, now)
    ensures Collectable(orders, owner) >= 0
  {
    if |orders| > 0 {
      assert orders[0] in orders;
      CollectableNonNegative(orders[1..], owner, now);
    }
  }

  lemma {:induction false} SettledMembers(orders: seq<Order>, owner: Name)
    requires OrderTable(orders)
    ensures OrdersSettled(orders, SettledOrders(orders, owner), owner)
  {
    if |orders| > 0 {
      var rest := orders[1..];
      assert orders == [orders[0]] + rest;
      if orders[0].owner == owner {
        assert RemoveAt(orders, 0) == rest;
      } else {
        SettledMembers(rest, owner);
        var i := FindOrder(rest, owner);
        if i < |rest| && !rest[i].open {
          assert RemoveAt(orders, i + 1) == [orders[0]] + RemoveAt(rest, i);
        } else {
          assert SettledOrders(orders, owner) == [orders[0]] + SettledOrders(rest, owner);
        }
      }
    }
  }

  // ---------- payments ----------

  lemma TransferExactly(s: State, from: Name, to: Name, amount: int)
    ensures TransferTokens(s, from, to, amount).Ok? <==> from != to && 0 < amount <= Held(s.tokens, from)
    ensures TransferTokens(s, from, to, amount).Ok? ==>
              var s' := TransferTokens(s, from, to, amount).value;
              s' == s.(tokens := s'.tokens) && TokensMove(s, s', from, to, amount)
  {
  }

  lemma PayIntoFundExactly(s: State, owner: Name, amount: int)
    requires amount >= 0
    ensures PayIntoFund(s, owner, amount).Ok?
    ensures var s' := PayIntoFund(s, owner, amount).value;
            s' == s.(funds := s'.funds) && FundChanges(s, s', owner, amount)
  {
  }

  lemma TakeFromFundExactly(s: State, owner: Name, amount: int)
    ensures TransferFromFund(s, owner, amount).Ok? <==> 0 < amount <= Get(s.funds, owner)
    ensures TransferFromFund(s, owner, amount).Ok? ==>
              var s' := TransferFromFund(s, owner, amount).value;
              s' == s.(funds := s'.funds) && FundChanges(s, s', owner, -amount)
  {
  }

  /** A deposit moves the owner's tokens to celes.rex and into the owner's fund. */
  lemma DepositExactly(s: State, owner: Name, amount: int)
    ensures Deposit(s, owner, amount).Ok? <==> owner != REX_ACCOUNT && 0 < amount <= Held(s.tokens, owner)
    ensures Deposit(s, owner, amount).Ok? ==>
              var s' := Deposit(s, owner, amount).value;
              && s' == s.(tokens := s'.tokens, funds := s'.funds)
              && TokensMove(s, s', owner, REX_ACCOUNT, amount) && FundChanges(s, s', owner, amount)
  {
    hide TransferTokens;
    TransferExactly(s, owner, REX_ACCOUNT, amount);
  }

  /** A withdrawal first collects a filled order, then moves tokens from the fund and from celes.rex to the owner. */
  lemma WithdrawExactly(s: State, owner: Name, amount: int)
    requires OrdersOk(s.orders, s.now)
    ensures Withdraw(s, owner, amount).Ok?
       <==> && 0 < amount <= Get(s.funds, owner) + Collectable(s.orders, owner)
            && owner != REX_ACCOUNT && amount <= Held(s.tokens, REX_ACCOUNT)
    ensures Withdraw(s, owner, amount).Ok? ==>
              var s' := Withdraw(s, owner, amount).value;
              && s' == s.(tokens := s'.tokens, funds := s'.funds, orders := s'.orders)
              && TokensMove(s, s', REX_ACCOUNT, owner, amount)
              && FundChanges(s, s', owner, Collectable(s.orders, owner) - amount)
              && OrdersSettled(s.orders, s'.orders, owner)
  {
    hide TransferTokens, TransferFromFund, UpdateRexAccount, Collectable, Requested, OrdersSettled, OrderTable;
    SettleExactly(s, owner, 0);
    var s1 := UpdateRexAccount(s, owner, 0).value.0;
    TakeFromFundExactly(s1, owner, amount);
    if TransferFromFund(s1, owner, amount).Ok? {
      TransferExactly(TransferFromFund(s1, owner, amount).value, REX_ACCOUNT, owner, amount);
    }
  }

  /** Only an open order can be cancelled; the queue loses it and nothing else. */
  lemma CancelExactly(s: State, owner: Name)
    requires OrdersOk(s.orders, s.now)
    ensures CancelOrder(s, owner).Ok? <==> exists o :: o in s.orders && o.owner == owner && o.open
    ensures CancelOrder(s, owner).Ok? ==>
              var s' := CancelOrder(s, owner).value;
              && s' == s.(orders := s'.orders) && OrderTable(s'.orders)
              && forall o :: o in s'.orders <==> o in s.orders && o.owner != owner
  {
    hide OrderOk, OrderTable;
    var i := FindOrder(s.orders, owner);
    if i < |s.orders| {
      RemoveOrderFacts(s.orders, i);
      UniqueOrder(s.orders, owner);
    }
  }

  /** All orders of an account are the one the lookup finds. */
  lemma {:induction false} UniqueOrder(orders: seq<Order>, owner: Name)
    requires OrderTable(orders) && FindOrder(orders, owner) < |orders|
    ensures forall o :: o in orders && o.owner == owner ==> o == orders[FindOrder(orders, owner)]
  {
    if orders[0].owner != owner {
      UniqueOrder(orders[1..], owner);
      assert orders == [orders[0]] + orders[1..];
    }
  }

  // ---------- settings ----------

  /** setrex changes the total rent, and nothing else. */
  lemma SetRexExactly(s: State, amount: int)
    ensures SetRex(s, amount).Ok? <==> amount > 0 && s.pool.Some?
    ensures SetRex(s, amount).Ok? ==>
              var s' := SetRex(s, amount).value;
              && s'.pool.Some? && s'.pool.value.rent == amount && s'.(pool := s.pool) == s
              && s'.pool.value.(rent := s.pool.value.rent) == s.pool.value
  {
  }

  /** A name auction that closes adds its price to the announced proceeds of a pool with REX. */
  lemma AuctionExactly(s: State, bid: nat)
    ensures CloseNameAuction(s, bid).Ok?
    ensures RexOf(s.pool) <= 0 ==> CloseNameAuction(s, bid).value == s
    ensures RexOf(s.pool) > 0 ==>
              var s' := CloseNameAuction(s, bid).value;
              && s'.pool.Some? && s'.pool.value.namebid - s.pool.value.namebid == bid && s'.(pool := s.pool) == s
              && s'.pool.value.(namebid := s.pool.value.namebid) == s.pool.value
  {
  }

  // ---------- closing an account ----------

  /** The state in which closerex finds the account. */
  ghost function Maintained(s: State): State {
    if s.pool.Some? && RunRex(s, 2).Ok? then RunRex(s, 2).value else s
  }

  ghost predicate HasLoan(s: State, owner: Name) {
    exists l :: (l in s.cpuLoans || l in s.netLoans) && l.from == owner
  }

  lemma HasLoanExactly(s: State, owner: Name)
    ensures HasLoan(s, owner) <==> HasLoanFrom(s.cpuLoans, owner) || HasLoanFrom(s.netLoans, owner)
  {
    if HasLoan(s, owner) {
      var l :| (l in s.cpuLoans || l in s.netLoans) && l.from == owner;
    }
  }

  /** What closing leaves of the account after maintenance. */
  ghost predicate Closed(s: State, s': State, owner: Name) {
    && s' == s.(funds := s'.funds, orders := s'.orders, balances := s'.balances)
    && s'.balances == s.balances - {owner} && OrdersSettled(s.orders, s'.orders, owner)
    && FundChanges(s, s', owner, Collectable(s.orders, owner))
    && (forall x: Name :: x != owner ==> (x in s'.funds <==> x in s.funds))
    && (owner in s'.funds
        <==> (owner in s.funds || Collectable(s.orders, owner) > 0)
             && (HasLoan(s, owner) || Get(s.funds, owner) + Collectable(s.orders, owner) != 0))
  }

  /**
   * Closing collects a filled order, drops an empty balance row, and drops an
   * empty fund row of an account without loans; it is refused while REX is left.
   */
  lemma CloseExactly(s: State, owner: Name)
    requires Books(s)
    ensures CloseRex(s, owner).Ok?
       <==> && (s.pool.Some? ==> RunRex(s, 2).Ok?)
            && (owner in Maintained(s).balances ==> Maintained(s).balances[owner].rex == 0)
    ensures CloseRex(s, owner).Ok? ==> Closed(Maintained(s), CloseRex(s, owner).value, owner)
  {
    hide Books, RunRex, UpdateRexAccount, Collectable, Requested, OrdersSettled, OrderTable, PriceKept, HasLoanFrom, Closed,
      FundChanges;
    if s.pool.Some? ==> RunRex(s, 2).Ok? {
      if s.pool.Some? {
        MaintainFirst(s);
      }
      var s1 := Maintained(s);
      BooksHaveOrders(s1);
      SettleExactly(s1, owner, 0);
      if CloseRex(s, owner).Ok? {
        CloseSettled(s1, UpdateRexAccount(s1, owner, 0).value.0, CloseRex(s, owner).value, owner);
      }
    }
  }

  lemma CloseSettled(s: State, s2: State, s': State, owner: Name)
    requires OrdersOk(s.orders, s.now) && UpdateRexAccount(s, owner, 0).Ok? && s2 == UpdateRexAccount(s, owner, 0).value.0
    requires var idle := !HasLoanFrom(s2.cpuLoans, owner) && !HasLoanFrom(s2.netLoans, owner)
                         && owner in s2.funds && s2.funds[owner] == 0;
             s' == s2.(funds := if idle then s2.funds - {owner} else s2.funds, balances := s2.balances - {owner})
    ensures Closed(s, s', owner)
  {
    hide UpdateRexAccount, Collectable, Requested, OrdersSettled, OrdersOk, HasLoanFrom;
    SettleExactly(s, owner, 0);
    SettleKeepsRows(s, owner);
    HasLoanExactly(s, owner);
  }

  lemma BooksHaveOrders(s: State)
    requires Books(s)
    ensures OrdersOk(s.orders, s.now) && OrderTable(s.orders)
  {
  }

  lemma SettleKeepsRows(s: State, owner: Name)
    requires OrdersOk(s.orders, s.now) && UpdateRexAccount(s, owner, 0).Ok?
    ensures var funds := UpdateRexAccount(s, owner, 0).value.0.funds;
            && (forall x: Name :: x != owner ==> (x in funds <==> x in s.funds))
            && (owner in funds <==> owner in s.funds || Collectable(s.orders, owner) > 0)
  {
    hide SettledOrders, PendingRex, Collectable, OrderOk;
    LookupSums(s.orders, owner);
    hide CollectedProceeds, OrderTable;
  }
}
