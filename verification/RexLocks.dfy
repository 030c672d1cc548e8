/** REX bought, or moved out of savings, stays in its owner's balance until it matures. */
module RexLocks {
  import opened Outcomes
  import opened RexState
  import opened RexActions
  import opened RexPool
  import opened RexTables
  import opened RexMaturities
  import opened RexBooks
  import opened RexSteps
  import opened Bandwidth

  /** REX of an owner that does not mature by `time` (seconds). */
  ghost function Locked(s: State, owner: Name, time: int): int {
    if owner in s.balances then s.balances[owner].rex - SellableBy(s.balances[owner], time) else 0
  }

  /** No step unlocks REX before its date. */
  ghost predicate KeepsLocked(s: State, s': State, time: int) {
    forall u: Name :: Locked(s', u, time) >= Locked(s, u, time)
  }

  lemma KeepsLockedTransitive(s: State, s1: State, s2: State, time: int)
    requires KeepsLocked(s, s1, time) && KeepsLocked(s1, s2, time)
    ensures KeepsLocked(s, s2, time)
  {
    hide Locked;
    forall u: Name ensures Locked(s2, u, time) >= Locked(s, u, time) {
      assert Locked(s2, u, time) >= Locked(s1, u, time) && Locked(s1, u, time) >= Locked(s, u, time);
    }
  }

  lemma SameBalancesKeepLocked(s: State, s': State, time: int)
    requires s'.balances == s.balances
    ensures KeepsLocked(s, s', time)
  {
  }

  /** Replacing one balance by one that keeps at least as much locked. */
  lemma SetBalanceKeepsLocked(s: State, s': State, owner: Name, b: RexBalance, time: int)
    requires s'.balances == s.balances[owner := b]
    requires b.rex - SellableBy(b, time) >= Locked(s, owner, time)
    ensures KeepsLocked(s, s', time)
  {
    forall u: Name ensures Locked(s', u, time) >= Locked(s, u, time) {
    }
  }

  lemma LockedWithinBalance(s: State, owner: Name, time: int)
    requires Books(s)
    ensures Locked(s, owner, time) <= (if owner in s.balances then s.balances[owner].rex else 0)
  {
    if owner in s.balances {
      TotalsNonNegative(s.balances[owner].maturities, time);
    }
  }

  lemma DebitKeepsLocked(s: State, owner: Name, rex: int, p: Pool, time: int)
    requires owner in s.balances
    ensures KeepsLocked(s, AfterSale(s, owner, rex, p), time)
  {
    var b := s.balances[owner];
    SetBalanceKeepsLocked(s, AfterSale(s, owner, rex, p), owner, b.(rex := b.rex - rex, matured := b.matured - rex), time);
  }

  lemma {:induction false} ProcessOrdersKeepsLocked(s: State, i: nat, max: nat, time: int)
    requires ProcessOrders(s, i, max).Ok?
    ensures KeepsLocked(s, ProcessOrders(s, i, max).value, time)
    decreases max
  {
    hide FillFromPool, KeepsLocked, CloseOrder;
    SameBalancesKeepLocked(s, s, time);
    if max > 0 && s.pool.Some? && i < |s.orders| && s.orders[i].open {
      var o := s.orders[i];
      if o.owner !in s.balances {
        ProcessOrdersKeepsLocked(s, i + 1, max - 1, time);
      } else {
        var fill := FillFromPool(s.pool.value, o.requested).value;
        if fill.NotFilled? {
          ProcessOrdersKeepsLocked(s, i + 1, max - 1, time);
        } else {
          var s1 := AfterSale(s, o.owner, o.requested, fill.pool);
          DebitKeepsLocked(s, o.owner, o.requested, fill.pool, time);
          var s2 := s1.(orders := CloseOrder(s1.orders, i, fill.proceeds));
          SameBalancesKeepLocked(s1, s2, time);
          ProcessOrdersKeepsLocked(s2, i, max - 1, time);
          KeepsLockedTransitive(s, s1, s2, time);
          KeepsLockedTransitive(s, s2, ProcessOrders(s, i, max).value, time);
        }
      }
    }
  }

  lemma RunRexKeepsLocked(s: State, max: nat, time: int)
    requires s.pool.Some? && RunRex(s, max).Ok?
    ensures KeepsLocked(s, RunRex(s, max).value, time)
  {
    hide KeepsLocked, ProcessLoans, ProcessOrders;
    ChannelNamebidsFrame(s);
    var s1 := ChannelNamebids(s).value;
    ProcessLoansFrame(s1, Cpu, max);
    var s2 := ProcessLoans(s1, Cpu, max).value;
    assert s2.balances == s.balances;
    if s2.pool.Some? {
      ProcessLoansFrame(s2, Net, max);
    }
    var s3 := ProcessLoans(s2, Net, max).value;
    assert s3.balances == s.balances by { NoPoolNoLoans(s2, max); }
    SameBalancesKeepLocked(s, s3, time);
    ProcessOrdersKeepsLocked(s3, 0, max, time);
    KeepsLockedTransitive(s, s3, RunRex(s, max).value, time);
  }

  lemma NoPoolNoLoans(s: State, max: nat)
    ensures s.pool.None? ==> ProcessLoans(s, Net, max) == Ok(s)
  {
  }

  // ---------- the actions that rearrange balances ----------

  /** The clock readings a date is protected for: not after it, and new REX matures after it. */
  ghost predicate Before(now: nat, time: int) {
    Seconds(now) <= time < Maturity(now) && now < CLOCK_LIMIT
  }

  lemma RowIsSound(s: State, owner: Name)
    requires Books(s)
    ensures BalanceOk(RowOf(s.balances, owner), Maturity(s.now)) && PoolRowSound(s.pool)
  {
  }

  /** REX bought now is locked on top of what was. */
  lemma AcquireLocks(s: State, s': State, owner: Name, rex: int, time: int)
    requires Books(s) && Before(s.now, time) && rex >= 0
    requires var was := RowOf(s.balances, owner);
             s'.balances == s.balances[owner := AcquireRex(was.(rex := was.rex + rex), s.now, rex)]
    ensures KeepsLocked(s, s', time) && Locked(s', owner, time) == Locked(s, owner, time) + rex
  {
    RowIsSound(s, owner);
    hide Books, BalanceOk, AcquireRex, KeepsLocked;
    var was := RowOf(s.balances, owner);
    AcquireKeepsBalance(was, s.now, rex, time);
    SetBalanceKeepsLocked(s, s', owner, AcquireRex(was.(rex := was.rex + rex), s.now, rex), time);
  }

  /** A purchase adds what it buys to the locked REX. */
  lemma PurchaseLocks(s: State, owner: Name, payment: int, time: int)
    requires Books(s) && payment > 0 && Before(s.now, time)
    ensures PurchaseRex(s, owner, payment).Ok? && AddToPool(s.pool, payment).Ok?
    ensures var s' := PurchaseRex(s, owner, payment).value;
            && KeepsLocked(s, s', time)
            && Locked(s', owner, time) >= Locked(s, owner, time) + AddToPool(s.pool, payment).value.1
  {
    RowIsSound(s, owner);
    hide Books, BalanceOk, AddToPool, PurchaseRex, AcquireRex, KeepsLocked, Locked, Before, PriceRose, PoolSound, RowOf;
    AddToPoolSound(s.pool, payment);
    PurchaseFrame(s, owner, payment);
    AcquireLocks(s, PurchaseRex(s, owner, payment).value, owner, AddToPool(s.pool, payment).value.1, time);
  }

  lemma ProcessRowKeepsLocked(s: State, s': State, owner: Name, time: int)
    requires Books(s) && owner in s.balances && Before(s.now, time)
    requires s'.balances == s.balances[owner := ProcessMaturities(s.balances[owner], Seconds(s.now))]
    ensures KeepsLocked(s, s', time)
  {
    MaturityFacts(s.now);
    ProcessKeepsBalance(s.balances[owner], s.now, time);
    hide Books, BalanceOk, KeepsLocked, ProcessMaturities;
    SetBalanceKeepsLocked(s, s', owner, ProcessMaturities(s.balances[owner], Seconds(s.now)), time);
  }

  lemma BuyRexKeepsLocked(s: State, from: Name, amount: int, votes: bool, time: int)
    requires Books(s) && BuyRex(s, from, amount, votes).Ok? && Before(s.now, time)
    ensures KeepsLocked(s, BuyRex(s, from, amount, votes).value, time)
    ensures amount > 0 && AddToPool(s.pool, amount).Ok?
    ensures Locked(BuyRex(s, from, amount, votes).value, from, time) >= Locked(s, from, time) + AddToPool(s.pool, amount).value.1
  {
    hide Books, KeepsLocked, PurchaseRex, RunRex, UpdateRexAccount, AddToPool, Before, PriceKept;
    var s1 := TransferFromFund(s, from, amount).value;
    BooksFrame(s, s1);
    SameBalancesKeepLocked(s, s1, time);
    PurchaseLocks(s1, from, amount, time);
    PurchaseKeepsBooks(s1, from, amount);
    SettlePurchaseKeepsLocked(s, s1, PurchaseRex(s1, from, amount).value, from, time);
  }

  lemma SettlePurchaseKeepsLocked(s: State, s1: State, s2: State, owner: Name, time: int)
    requires s1.balances == s.balances && KeepsLocked(s1, s2, time) && s2.pool.Some? && RunRex(s2, 2).Ok?
    ensures UpdateRexAccount(RunRex(s2, 2).value, owner, 0).Ok?
    ensures var s4 := UpdateRexAccount(RunRex(s2, 2).value, owner, 0).value.0;
            KeepsLocked(s, s4, time) && Locked(s4, owner, time) >= Locked(s2, owner, time)
  {
    hide Locked, RunRex, UpdateRexAccount;
    RunRexKeepsLocked(s2, 2, time);
    var s3 := RunRex(s2, 2).value;
    UpdateAccountFrame(s3, owner, 0);
    var s4 := UpdateRexAccount(s3, owner, 0).value.0;
    SameBalancesKeepLocked(s, s1, time);
    SameBalancesKeepLocked(s3, s4, time);
    KeepsLockedTransitive(s, s1, s2, time);
    KeepsLockedTransitive(s2, s3, s4, time);
    KeepsLockedTransitive(s, s2, s4, time);
  }

  lemma UnstakeToRexKeepsLocked(s: State, owner: Name, receiver: Name, net: int, cpu: int, votes: bool, time: int)
    requires Books(s) && UnstakeToRex(s, owner, receiver, net, cpu, votes).Ok? && Before(s.now, time)
    ensures KeepsLocked(s, UnstakeToRex(s, owner, receiver, net, cpu, votes).value, time)
    ensures net + cpu > 0 && AddToPool(s.pool, net + cpu).Ok?
    ensures Locked(UnstakeToRex(s, owner, receiver, net, cpu, votes).value, owner, time)
         >= Locked(s, owner, time) + AddToPool(s.pool, net + cpu).value.1
  {
    hide Books, KeepsLocked, PurchaseRex, RunRex, UpdateRexAccount, AddToPool, Before, PriceKept, WriteDelegation;
    var w := s.delegations[(owner, receiver)];
    var s1 := s.(delegations := WriteDelegation(s.delegations, owner, receiver, Weights(w.net - net, w.cpu - cpu)));
    var s2 := UpdateResourceLimits(s1, receiver, -net, -cpu).value;
    var s3 := TransferTokens(s2, STAKE_ACCOUNT, REX_ACCOUNT, net + cpu).value;
    BooksFrame(s, s3);
    PurchaseLocks(s3, owner, net + cpu, time);
    PurchaseKeepsBooks(s3, owner, net + cpu);
    SettlePurchaseKeepsLocked(s, s3, PurchaseRex(s3, owner, net + cpu).value, owner, time);
  }

  /** Maintenance, settling, and one rearranged balance. */
  lemma RearrangeKeepsLocked(s: State, s1: State, s2: State, s3: State, owner: Name, b: RexBalance, time: int)
    requires KeepsLocked(s, s1, time) && s2.balances == s1.balances && owner in s1.balances
    requires s3.balances == s1.balances[owner := b]
    requires b.rex - SellableBy(b, time) >= s1.balances[owner].rex - SellableBy(s1.balances[owner], time)
    ensures KeepsLocked(s, s3, time)
  {
    hide KeepsLocked;
    SetBalanceKeepsLocked(s1, s3, owner, b, time);
    KeepsLockedTransitive(s, s1, s3, time);
  }

  lemma SavingsActionsKeepLocked(s: State, a: Action, time: int)
    requires Books(s) && Apply(s, a).Ok? && Before(s.now, time)
    requires a.ActUpdateRex? || a.ActConsolidate? || a.ActMoveToSavings?
    ensures KeepsLocked(s, Apply(s, a).value, time)
  {
    var owner := a.owner;
    MaintainFirst(s);
    var s1 := RunRex(s, 2).value;
    hide Books, KeepsLocked, RunRex, UpdateRexAccount, ProcessMaturities, ConsolidateBuckets, MoveIntoSavings, BalanceOk,
      PendingRex, SettledOrders;
    RunRexKeepsLocked(s, 2, time);
    UpdateAccountFrame(s1, owner, 0);
    SettledOwnOrders(s1, owner);
    MaturityFacts(s.now);
    var pending := PendingRex(s1.orders, owner);
    var s2 := UpdateRexAccount(s1, owner, 0).value.0;
    var b := s1.balances[owner];
    if a.ActUpdateRex? {
      ProcessKeepsBalance(b, s.now, time);
      RearrangeKeepsLocked(s, s1, s2, Apply(s, a).value, owner, ProcessMaturities(b, Seconds(s.now)), time);
    } else if a.ActConsolidate? {
      ConsolidateKeepsBalance(b, s.now, pending, time);
      RearrangeKeepsLocked(s, s1, s2, Apply(s, a).value, owner, ConsolidateBuckets(b, s.now, pending), time);
    } else {
      MoveInKeepsBalance(b, s.now, pending, a.moved, time);
      RearrangeKeepsLocked(s, s1, s2, Apply(s, a).value, owner, MoveIntoSavings(b, s.now, pending, a.moved).value, time);
    }
  }

  lemma MoveFromSavingsKeepsLocked(s: State, owner: Name, rex: int, time: int)
    requires Books(s) && MoveFromSavings(s, owner, rex).Ok? && Before(s.now, time)
    ensures KeepsLocked(s, MoveFromSavings(s, owner, rex).value, time)
    ensures rex > 0 && Locked(MoveFromSavings(s, owner, rex).value, owner, time) >= rex
  {
    hide Books, KeepsLocked, RunRex, UpdateRexAccount, MoveOutOfSavings, BalanceOk, SellableBy, SavingsOf;
    MaintainFirst(s);
    var s1 := RunRex(s, 2).value;
    RunRexKeepsLocked(s, 2, time);
    SettledOwnOrders(s1, owner);
    MaturityFacts(s.now);
    MoveOutKeepsBalance(s1.balances[owner], s.now, rex, time);
    SavingsAreLocked(s1.balances[owner], Maturity(s.now), time);
    var b := MoveOutOfSavings(s1.balances[owner], s.now, rex).value;
    var s2 := s1.(balances := s1.balances[owner := b]);
    UpdateAccountFrame(s2, owner, 0);
    RearrangeKeepsLocked(s, s1, s1, MoveFromSavings(s, owner, rex).value, owner, b, time);
  }

  lemma SellRexKeepsLocked(s: State, from: Name, rex: int, time: int)
    requires Books(s) && SellRex(s, from, rex).Ok? && Before(s.now, time)
    ensures KeepsLocked(s, SellRex(s, from, rex).value, time)
  {
    MaintainFirst(s);
    var s1 := RunRex(s, 2).value;
    hide Books, KeepsLocked, RunRex, UpdateRexAccount, ProcessMaturities, FillFromPool, QueueOrder, Before, PriceKept;
    RunRexKeepsLocked(s, 2, time);
    var b := ProcessMaturities(s1.balances[from], Seconds(s.now));
    var s2 := s1.(balances := s1.balances[from := b]);
    ProcessRowKeepsLocked(s1, s2, from, time);
    KeepsLockedTransitive(s, s1, s2, time);
    var fill := FillFromPool(s2.pool.value, rex).value;
    var s4 := SellRex(s, from, rex).value;
    if fill.Filled? {
      var s3 := AfterSale(s2, from, rex, fill.pool);
      DebitKeepsLocked(s2, from, rex, fill.pool, time);
      UpdateAccountFrame(s3, from, fill.proceeds);
      KeepsLockedTransitive(s, s2, s3, time);
      SameBalancesKeepLocked(s3, s4, time);
      KeepsLockedTransitive(s, s3, s4, time);
    } else {
      UpdateAccountFrame(s2, from, 0);
      QueueFrame(UpdateRexAccount(s2, from, 0).value.0, from, rex);
      SameBalancesKeepLocked(s2, s4, time);
      KeepsLockedTransitive(s, s2, s4, time);
    }
  }

  lemma MaintainedKeepsLocked(s: State, time: int)
    requires Books(s) && (s.pool.Some? ==> RunRex(s, 2).Ok?)
    ensures var s1 := if s.pool.Some? then RunRex(s, 2).value else s;
            Books(s1) && KeepsLocked(s, s1, time)
  {
    hide Books, RunRex, KeepsLocked, PriceKept;
    if s.pool.Some? {
      MaintainFirst(s);
      RunRexKeepsLocked(s, 2, time);
    } else {
      SameBalancesKeepLocked(s, s, time);
    }
  }

  lemma CloseRexKeepsLocked(s: State, owner: Name, time: int)
    requires Books(s) && CloseRex(s, owner).Ok?
    ensures KeepsLocked(s, CloseRex(s, owner).value, time)
  {
    hide Books, RunRex, UpdateRexAccount, KeepsLocked, Locked, HasLoanFrom;
    MaintainedKeepsLocked(s, time);
    var s1 := if s.pool.Some? then RunRex(s, 2).value else s;
    LockedWithinBalance(s1, owner, time);
    UpdateAccountFrame(s1, owner, 0);
    var s' := CloseRex(s, owner).value;
    DropKeepsLocked(s1, s', owner, time);
    KeepsLockedTransitive(s, s1, s', time);
  }

  lemma DropKeepsLocked(s: State, s': State, owner: Name, time: int)
    requires s'.balances == s.balances - {owner} && Locked(s, owner, time) <= 0
    ensures KeepsLocked(s, s', time)
  {
  }

  lemma RentKeepsLocked(s: State, kind: Kind, from: Name, receiver: Name, payment: int, fund: int, time: int)
    requires Books(s) && Rent(s, kind, from, receiver, payment, fund).Ok?
    ensures KeepsLocked(s, Rent(s, kind, from, receiver, payment, fund).value, time)
  {
    MaintainFirst(s);
    var s1 := RunRex(s, 2).value;
    hide Books, KeepsLocked, RunRex, AddLoan, BancorOutput, LoansAvailable, InsertLoan, ChangeLimit;
    RunRexKeepsLocked(s, 2, time);
    var s2 := TransferFromFund(s1, from, payment + fund).value;
    var rented := BancorOutput(s2.pool.value.rent, s2.pool.value.unlent, payment);
    ChangeLimitFrame(WithNewLoan(s2, kind, from, receiver, payment, fund), kind, receiver, rented);
    var s' := Rent(s, kind, from, receiver, payment, fund).value;
    SameBalancesKeepLocked(s1, s', time);
    KeepsLockedTransitive(s, s1, s', time);
  }
}
