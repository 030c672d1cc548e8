/** The proceeds of name auctions announced to the pool are always there to be paid. */
module RexNamebids {
  import opened Outcomes
  import opened RexState
  import opened RexActions
  import opened RexPool
  import opened RexBooks
  import opened RexSteps
  import opened RexLedger
  import opened Bandwidth
  import opened Staking
  import opened RamMarket
  import opened RexRuns
  import opened RexTheorems
  import opened RexLiveness

  ghost function Announced(pool: Option<Pool>): int {
    if pool.Some? then pool.value.namebid else 0
  }

  /** Tokens on celes.names beyond the announced proceeds. */
  ghost function Spare(s: State): int {
    Held(s.tokens, NAMES_ACCOUNT) - Announced(s.pool)
  }

  /** Proceeds are announced only to a pool that holds REX. */
  ghost predicate Backed(pool: Option<Pool>) {
    Announced(pool) > 0 ==> RexOf(pool) > 0
  }

  /** The announcement is gone, or it stands and the pool has lost no REX. */
  ghost predicate Stands(s: State, s': State) {
    Announced(s'.pool) == 0 || (Announced(s'.pool) == Announced(s.pool) && RexOf(s'.pool) >= RexOf(s.pool))
  }

  /** No announced token is spent on anything else, unless by celes.names itself (`own`). */
  ghost predicate KeepsSpare(s: State, r: Result<State>, own: bool) {
    r.Ok? ==> Stands(s, r.value) && (!own ==> Spare(r.value) >= Spare(s))
  }

  // ---------- maintenance ----------

  lemma {:induction false} ProcessLoansSpare(s: State, kind: Kind, max: nat)
    requires s.pool.Some? && ProcessLoans(s, kind, max).Ok?
    ensures var s' := ProcessLoans(s, kind, max).value;
            s'.pool.Some? && s'.tokens == s.tokens && Announced(s'.pool) == Announced(s.pool)
    decreases max
  {
    hide BancorOutput;
    if max > 0 && HasExpiredLoan(s, kind) {
      if Renews(s, kind) {
        RenewLoanFrame(s, kind);
      } else {
        CloseLoanFrame(s, kind);
      }
      hide RenewLoan, CloseLoan, Renews;
      ProcessLoansSpare(ProcessExpiredLoan(s, kind).value, kind, max - 1);
    }
  }

  lemma FillSpare(p: Pool, rex: int)
    requires FillFromPool(p, rex).Ok? && FillFromPool(p, rex).value.Filled?
    ensures FillFromPool(p, rex).value.pool.namebid == p.namebid
  {
  }

  lemma {:induction false} ProcessOrdersSpare(s: State, i: nat, max: nat)
    requires s.pool.Some? && ProcessOrders(s, i, max).Ok?
    ensures var s' := ProcessOrders(s, i, max).value;
            s'.pool.Some? && s'.tokens == s.tokens && Announced(s'.pool) == Announced(s.pool)
    decreases max
  {
    hide FillFromPool, CloseOrder;
    if max > 0 && i < |s.orders| && s.orders[i].open {
      var o := s.orders[i];
      if o.owner !in s.balances {
        ProcessOrdersSpare(s, i + 1, max - 1);
      } else {
        var fill := FillFromPool(s.pool.value, o.requested).value;
        if fill.NotFilled? {
          ProcessOrdersSpare(s, i + 1, max - 1);
        } else {
          FillSpare(s.pool.value, o.requested);
          var s1 := DebitRex(s.(pool := Some(fill.pool)), o.owner, o.requested);
          ProcessOrdersSpare(s1.(orders := CloseOrder(s1.orders, i, fill.proceeds)), i, max - 1);
        }
      }
    }
  }

  /** The announced proceeds moved from celes.names to celes.rex and into the lendable pool. */
  ghost predicate PaidIn(s: State, s': State) {
    var n := Announced(s.pool);
    && s.pool.Some? && s' == s.(pool := s'.pool, tokens := s'.tokens)
    && s'.pool == Some(s.pool.value.(unlent := s.pool.value.unlent + n, lendable := s.pool.value.lendable + n, namebid := 0))
    && MovedTokens(s, s', n)
  }

  ghost predicate MovedTokens(s: State, s': State, n: int) {
    forall x: Name ::
      Held(s'.tokens, x) == Held(s.tokens, x) + (if x == REX_ACCOUNT then n else if x == NAMES_ACCOUNT then -n else 0)
  }

  lemma ChannelPays(s: State)
    requires s.pool.Some? && s.pool.value.namebid >= 0 && Backed(s.pool) && ChannelNamebids(s).Ok?
    ensures PaidIn(s, ChannelNamebids(s).value)
  {
    if s.pool.value.namebid > 0 {
      TransferMoves(s.(pool := Some(s.pool.value.(unlent := s.pool.value.unlent + s.pool.value.namebid,
                                                  lendable := s.pool.value.lendable + s.pool.value.namebid))),
                    NAMES_ACCOUNT, REX_ACCOUNT, s.pool.value.namebid);
      hide TransferTokens;
    }
  }

  /** Without REX in the pool an announcement would be dropped: nothing is paid then, but nothing is spent either. */
  lemma ChannelSpare(s: State)
    requires s.pool.Some? && s.pool.value.namebid >= 0 && ChannelNamebids(s).Ok?
    ensures ChannelNamebids(s).value.pool.Some? && Spare(ChannelNamebids(s).value) >= Spare(s)
    ensures Announced(ChannelNamebids(s).value.pool) == 0
  {
  }

  lemma RunRexSpare(s: State, max: nat)
    requires Books(s) && RunRex(s, max).Ok?
    ensures var s' := RunRex(s, max).value;
            Spare(s') >= Spare(s) && Announced(s'.pool) == 0 && s'.pool.Some?
            && ChannelNamebids(s).Ok? && s'.tokens == ChannelNamebids(s).value.tokens
  {
    assert s.pool.Some? ==> PoolSound(s.pool.value);
    hide Books, ProcessLoans, ProcessOrders, ChannelNamebids;
    ChannelSpare(s);
    var s1 := ChannelNamebids(s).value;
    ProcessLoansSpare(s1, Cpu, max);
    var s2 := ProcessLoans(s1, Cpu, max).value;
    ProcessLoansSpare(s2, Net, max);
    ProcessOrdersSpare(ProcessLoans(s2, Net, max).value, 0, max);
  }

  /** With nothing announced, maintenance starts at once. */
  lemma NothingAnnounced(s: State)
    requires s.pool.Some? && Announced(s.pool) == 0
    ensures ChannelNamebids(s) == Ok(s)
  {
  }

  /**
   * Maintenance first moves exactly the announced proceeds from celes.names into
   * the lendable pool, goes on from there, and moves no other account's tokens.
   */
  lemma MaintenancePaysNamebids(s: State, max: nat)
    requires Books(s) && Backed(s.pool) && RunRex(s, max).Ok?
    ensures ChannelNamebids(s).Ok? && PaidIn(s, ChannelNamebids(s).value)
    ensures RunRex(s, max) == RunRex(ChannelNamebids(s).value, max)
    ensures var s' := RunRex(s, max).value;
            && Announced(s'.pool) == 0 && MovedTokens(s, s', Announced(s.pool))
            && Claims(s') == Claims(s) + Announced(s.pool)
  {
    assert s.pool.Some? ==> PoolSound(s.pool.value);
    RunRexKeepsSurplus(s, max);
    RunRexSpare(s, max);
    ChannelPays(s);
    var s1 := ChannelNamebids(s).value;
    NothingAnnounced(s1);
    hide Books, ProcessLoans, ProcessOrders, ChannelNamebids, Claims;
    assert RunRex(s, max) == RunRex(s1, max);
  }

  // ---------- the actions ----------

  lemma SettledSpare(s: State, owner: Name, proceeds: int)
    ensures UpdateRexAccount(s, owner, proceeds).Ok?
    ensures Spare(UpdateRexAccount(s, owner, proceeds).value.0) == Spare(s)
    ensures UpdateRexAccount(s, owner, proceeds).value.0.pool == s.pool
  {
    hide UpdateRexAccount, SettledOrders, PendingRex;
    UpdateAccountFrame(s, owner, proceeds);
  }

  lemma PurchaseSpare(s: State, owner: Name, payment: int)
    requires Books(s) && payment > 0
    ensures PurchaseRex(s, owner, payment).Ok? && Books(PurchaseRex(s, owner, payment).value)
    ensures Spare(PurchaseRex(s, owner, payment).value) == Spare(s)
  {
    PurchaseKeepsBooks(s, owner, payment);
    PoolOfBooks(s);
    hide Books, PriceKept, PriceRose, PoolSound, AddToPool, AcquireRex;
    AddToPoolSound(s.pool, payment);
    FreshPool(payment);
  }

  lemma PoolOfBooks(s: State)
    requires Books(s)
    ensures PoolRowSound(s.pool)
  {
  }

  lemma FreshPool(payment: int)
    ensures AddToPool(None, payment).Ok? && AddToPool(None, payment).value.0.namebid == 0
  {
  }

  lemma PurchasesKeepSpare(s: State, a: Action)
    requires Books(s) && (a.ActBuyRex? || a.ActUnstakeToRex?)
    ensures KeepsSpare(s, Apply(s, a), false)
  {
    hide Books, PurchaseRex, RunRex, UpdateRexAccount, WriteDelegation, UpdateResourceLimits, TransferTokens;
    if Apply(s, a).Ok? {
      var payment := if a.ActBuyRex? then a.amount else a.net + a.cpu;
      var s1 := if a.ActBuyRex? then TransferFromFund(s, a.owner, payment).value else BeforePurchase(s, a);
      if a.ActUnstakeToRex? {
        UnstakeSpare(s, a);
      }
      assert Books(s1) && Spare(s1) == Spare(s) by { BooksFrame(s, s1); }
      PurchaseSpare(s1, a.owner, payment);
      var s2 := PurchaseRex(s1, a.owner, payment).value;
      RunRexSpare(s2, 2);
      SettledSpare(RunRex(s2, 2).value, a.owner, 0);
    }
  }

  lemma UnstakeSpare(s: State, a: Action)
    requires a.ActUnstakeToRex? && Apply(s, a).Ok?
    ensures var s3 := BeforePurchase(s, a);
            && s3 == s.(delegations := s3.delegations, resources := s3.resources, tokens := s3.tokens)
            && Held(s3.tokens, NAMES_ACCOUNT) == Held(s.tokens, NAMES_ACCOUNT)
  {
    hide PurchaseRex, RunRex, UpdateRexAccount, WriteDelegation, AddToLimits;
  }

  lemma MaintainingKeepSpare(s: State, a: Action)
    requires Books(s)
    requires a.ActUpdateRex? || a.ActConsolidate? || a.ActMoveToSavings? || a.ActMoveFromSavings? || a.ActCloseRex? || a.ActRexExec?
    ensures KeepsSpare(s, Apply(s, a), false)
  {
    hide Books, RunRex, UpdateRexAccount, ProcessMaturities, ConsolidateBuckets, MoveIntoSavings, MoveOutOfSavings, HasLoanFrom;
    if Apply(s, a).Ok? {
      var max := if a.ActRexExec? then a.max else 2;
      var idle := a.ActCloseRex? && s.pool.None?;
      if !idle {
        RunRexSpare(s, max);
      }
      var s1 := if idle then s else RunRex(s, max).value;
      if a.ActMoveFromSavings? {
        var b := MoveOutOfSavings(s1.balances[a.owner], s.now, a.rex).value;
        SettledSpare(s1.(balances := s1.balances[a.owner := b]), a.owner, 0);
      } else if !a.ActRexExec? {
        SettledSpare(s1, a.owner, 0);
      }
    }
  }

  lemma SellRexKeepsSpare(s: State, from: Name, rex: int)
    requires Books(s)
    ensures KeepsSpare(s, SellRex(s, from, rex), false)
  {
    hide Books, UpdateRexAccount, RunRex, ProcessMaturities, FillFromPool, QueueOrder;
    if SellRex(s, from, rex).Ok? {
      RunRexSpare(s, 2);
      var s1 := RunRex(s, 2).value;
      var s2 := s1.(balances := s1.balances[from := ProcessMaturities(s1.balances[from], Seconds(s.now))]);
      var fill := FillFromPool(s2.pool.value, rex).value;
      if fill.Filled? {
        FillSpare(s2.pool.value, rex);
        SettledSpare(DebitRex(s2.(pool := Some(fill.pool)), from, rex), from, fill.proceeds);
      } else {
        SettledSpare(s2, from, 0);
        QueueFrame(UpdateRexAccount(s2, from, 0).value.0, from, rex);
      }
    }
  }

  lemma RentKeepsSpare(s: State, a: Action)
    requires Books(s) && a.ActRent?
    ensures KeepsSpare(s, Apply(s, a), false)
  {
    hide Books, RunRex, AddLoan, BancorOutput, InsertLoan, Rent, TransferFromFund;
    if Apply(s, a).Ok? {
      RentFrame(s, a.kind, a.owner, a.receiver, a.payment, a.fund);
      RunRexSpare(s, 2);
      RunRexKeepsBooks(s, 2);
      var s2 := TransferFromFund(RunRex(s, 2).value, a.owner, a.payment + a.fund).value;
      LoanSpare(s2.pool.value, a.payment, BancorOutput(s2.pool.value.rent, s2.pool.value.unlent, a.payment));
    }
  }

  lemma LoanSpare(p: Pool, payment: int, rented: int)
    ensures AddLoan(p, payment, rented, true).namebid == p.namebid
  {
  }

  lemma WithdrawKeepsSpare(s: State, owner: Name, amount: int)
    ensures KeepsSpare(s, Withdraw(s, owner, amount), owner == NAMES_ACCOUNT)
  {
    hide UpdateRexAccount;
    SettledSpare(s, owner, 0);
  }

  lemma SettingsKeepSpare(s: State, a: Action)
    requires a.ActSetRex? || a.ActAdvance? || a.ActSetRam? || a.ActSetRamRate?
    ensures KeepsSpare(s, Apply(s, a), NAMES_ACCOUNT in Parties(a))
  {
    hide UpdateRamSupply;
    SupplyFrame(s);
  }

  lemma PaymentsKeepSpare(s: State, a: Action)
    requires a.ActTransfer? || a.ActDeposit? || a.ActRefund?
    ensures KeepsSpare(s, Apply(s, a), NAMES_ACCOUNT in Parties(a))
  {
  }

  lemma FundLoanKeepsSpare(s: State, kind: Kind, from: Name, num: nat, payment: int)
    ensures KeepsSpare(s, FundLoan(s, kind, from, num, payment), false)
  {
    hide FindLoan;
  }

  lemma DefundLoanKeepsSpare(s: State, kind: Kind, from: Name, num: nat, amount: int)
    ensures KeepsSpare(s, DefundLoan(s, kind, from, num, amount), false)
  {
    hide FindLoan;
  }

  lemma CancelKeepsSpare(s: State, owner: Name)
    ensures KeepsSpare(s, CancelOrder(s, owner), false)
  {
    hide FindOrder, RemoveAt;
  }

  lemma SettleStakeSpare(s: State, source: Name, from: Name, nets: bool, dNet: int, dCpu: int)
    ensures var r := SettleStake(s, source, from, nets, dNet, dCpu);
            r.Ok? ==>
              && r.value.pool == s.pool
              && (source != NAMES_ACCOUNT ==> Held(r.value.tokens, NAMES_ACCOUNT) == Held(s.tokens, NAMES_ACCOUNT))
  {
    hide NetRefund;
  }

  lemma AddDelegationFrame(s: State, from: Name, receiver: Name, dNet: int, dCpu: int)
    ensures var r := AddDelegation(s, from, receiver, dNet, dCpu);
            r.Ok? ==> r.value == s.(delegations := r.value.delegations)
  {
    hide WriteDelegation;
  }

  lemma BandwidthKeepsSpare(s: State, source: Name, receiver: Name, dNet: int, dCpu: int, transfer: bool)
    ensures KeepsSpare(s, ChangeBandwidth(s, source, receiver, dNet, dCpu, transfer), source == NAMES_ACCOUNT)
  {
    hide AddToLimits, WriteDelegation, SettleStake, SameSign, AddDelegation;
    AddDelegationFrame(s, if transfer then receiver else source, receiver, dNet, dCpu);
    var from := if transfer then receiver else source;
    if AddDelegation(s, from, receiver, dNet, dCpu).Ok? && AddToLimits(s.resources, receiver, dNet, dCpu).Ok? {
      var s1 := AddDelegation(s, from, receiver, dNet, dCpu).value;
      var s2 := s1.(resources := AddToLimits(s1.resources, receiver, dNet, dCpu).value);
      SettleStakeSpare(s2, source, from, (!transfer && from == receiver) || dNet + dCpu < 0, dNet, dCpu);
    }
  }

  lemma DelegateKeepsSpare(s: State, a: Action)
    requires a.ActDelegate? || a.ActUndelegate?
    ensures KeepsSpare(s, Apply(s, a), NAMES_ACCOUNT in Parties(a))
  {
    hide ChangeBandwidth;
    if a.ActDelegate? {
      BandwidthKeepsSpare(s, a.owner, a.receiver, a.net, a.cpu, a.transfer);
    } else {
      BandwidthKeepsSpare(s, a.owner, a.receiver, -a.net, -a.cpu, false);
    }
  }

  lemma FeeSpare(s: State, payer: Name, fee: int)
    requires PayRamFee(s, payer, fee).Ok?
    ensures var s' := PayRamFee(s, payer, fee).value;
            && Announced(s'.pool) == Announced(s.pool) && RexOf(s'.pool) == RexOf(s.pool)
            && (payer != NAMES_ACCOUNT ==> Spare(s') == Spare(s))
  {
    PayRamFeeFrame(s, payer, fee);
  }

  lemma RamTradesKeepSpare(s: State, a: Action)
    requires a.ActBuyRam? || a.ActSellRam?
    ensures KeepsSpare(s, Apply(s, a), NAMES_ACCOUNT in Parties(a))
  {
    hide UpdateRamSupply, RamFee, RamProceeds, BancorOutput, PayRamFee;
    SupplyFrame(s);
    if Apply(s, a).Ok? {
      var s0 := UpdateRamSupply(s);
      if a.ActBuyRam? {
        var paid := a.amount - RamFee(a.amount);
        FeeSpare(TransferTokens(s0, a.owner, RAM_ACCOUNT, paid).value, a.owner, RamFee(a.amount));
      } else {
        var tokens := RamProceeds(s0.ram, a.bytes);
        var s2 := TransferTokens(ReleaseRam(s0, a.owner, a.bytes).value, RAM_ACCOUNT, a.owner, tokens).value;
        FeeSpare(s2, a.owner, RamFee(tokens));
      }
    }
  }

  lemma SaleKeepsSpare(s: State, a: Action)
    requires Books(s) && a.ActSellRex?
    ensures KeepsSpare(s, Apply(s, a), false)
  {
    hide Books, SellRex, KeepsSpare;
    SellRexKeepsSpare(s, a.owner, a.rex);
  }

  lemma FundsKeepSpare(s: State, a: Action)
    requires a.ActWithdraw? || a.ActCancelOrder? || a.ActFundLoan? || a.ActDefundLoan?
    ensures KeepsSpare(s, Apply(s, a), NAMES_ACCOUNT in Parties(a))
  {
    hide Withdraw, FundLoan, DefundLoan, CancelOrder;
    if a.ActWithdraw? {
      WithdrawKeepsSpare(s, a.owner, a.amount);
    } else if a.ActFundLoan? {
      FundLoanKeepsSpare(s, a.kind, a.owner, a.num, a.amount);
    } else if a.ActDefundLoan? {
      DefundLoanKeepsSpare(s, a.kind, a.owner, a.num, a.amount);
    } else {
      CancelKeepsSpare(s, a.owner);
    }
  }

  lemma SpareOfOthers(s: State, r: Result<State>, own: bool)
    requires KeepsSpare(s, r, false)
    ensures KeepsSpare(s, r, own)
  {
  }

  /** Every action but the closing of an auction. */
  lemma ApplyKeepsSpare(s: State, a: Action)
    requires Books(s) && !a.ActCloseNameAuction?
    ensures KeepsSpare(s, Apply(s, a), NAMES_ACCOUNT in Parties(a))
  {
    hide Books, Apply, KeepsSpare, Parties;
    var own := NAMES_ACCOUNT in Parties(a);
    if a.ActBuyRex? || a.ActUnstakeToRex? {
      PurchasesKeepSpare(s, a);
      SpareOfOthers(s, Apply(s, a), own);
    } else if a.ActSellRex? {
      SaleKeepsSpare(s, a);
      SpareOfOthers(s, Apply(s, a), own);
    } else if a.ActRent? {
      RentKeepsSpare(s, a);
      SpareOfOthers(s, Apply(s, a), own);
    } else if Rearranges(a) {
      MaintainingKeepSpare(s, a);
      SpareOfOthers(s, Apply(s, a), own);
    } else if a.ActDelegate? || a.ActUndelegate? {
      DelegateKeepsSpare(s, a);
    } else if a.ActBuyRam? || a.ActSellRam? {
      RamTradesKeepSpare(s, a);
    } else if a.ActWithdraw? || a.ActCancelOrder? || a.ActFundLoan? || a.ActDefundLoan? {
      FundsKeepSpare(s, a);
    } else if a.ActSetRex? || a.ActAdvance? || a.ActSetRam? || a.ActSetRamRate? {
      SettingsKeepSpare(s, a);
    } else {
      PaymentsKeepSpare(s, a);
    }
  }

  // ---------- over runs ----------

  lemma StepKeepsBacked(s: State, a: Action)
    requires Books(s) && Backed(s.pool)
    ensures Backed(Step(s, a).pool)
  {
    if !a.ActCloseNameAuction? {
      hide Books, Apply, Parties, Spare;
      ApplyKeepsSpare(s, a);
    }
  }

  lemma {:induction false} RunKeepsBacked(s: State, actions: seq<Action>)
    requires Books(s) && Backed(s.pool)
    ensures Backed(Run(s, actions).pool)
    decreases |actions|
  {
    hide Books, Apply, Backed, PriceKept;
    if |actions| > 0 {
      ApplyKeepsBooks(s, actions[0]);
      StepKeepsBacked(s, actions[0]);
      RunKeepsBacked(Step(s, actions[0]), actions[1..]);
    }
  }

  /** No announcement is ever dropped: maintenance pays all of it into the pool, in every run. */
  lemma NamebidsArePaidInEveryRun(s0: State, q0: int, actions: seq<Action>, max: nat)
    requires Genesis(s0, q0) && RunRex(Run(s0, actions), max).Ok?
    ensures var s := Run(s0, actions);
            var s' := RunRex(s, max).value;
            && ChannelNamebids(s).Ok? && PaidIn(s, ChannelNamebids(s).value)
            && RunRex(s, max) == RunRex(ChannelNamebids(s).value, max)
            && Announced(s'.pool) == 0 && MovedTokens(s, s', Announced(s.pool))
  {
    GenesisInvariant(s0, q0);
    assert Backed(s0.pool);
    hide Books, LimitsOk, RamOk, RefundsOk, Run, RunRex, ChannelNamebids, Backed, PaidIn, MovedTokens;
    RunKeepsInvariant(s0, actions, q0);
    RunKeepsBacked(s0, actions);
    MaintenancePaysNamebids(Run(s0, actions), max);
  }

  /**
   * celes.names pays out no announced token, and an auction that closes has its
   * price there. Bids may be paid in, and refunds out of what is not announced;
   * celes.names takes part in no other action.
   */
  ghost predicate SpendsSpareOnly(s: State, a: Action) {
    match a
    case ActTransfer(from, _, amount) => from == NAMES_ACCOUNT ==> amount <= Spare(s)
    case ActCloseNameAuction(bid) => bid <= Spare(s)
    case _ => NAMES_ACCOUNT !in Parties(a)
  }

  ghost predicate AuctionsCollect(s: State, actions: seq<Action>)
    decreases |actions|
  {
    |actions| > 0 ==> SpendsSpareOnly(s, actions[0]) && AuctionsCollect(Step(s, actions[0]), actions[1..])
  }

  lemma StepKeepsSpare(s: State, a: Action)
    requires Books(s) && Spare(s) >= 0 && SpendsSpareOnly(s, a)
    ensures Spare(Step(s, a)) >= 0
  {
    if a.ActTransfer? {
      TransferSpare(s, a.from, a.to_, a.amount);
    } else if !a.ActCloseNameAuction? {
      hide Books, Apply, Parties, Spare, Stands;
      ApplyKeepsSpare(s, a);
    }
  }

  lemma TransferSpare(s: State, from: Name, to: Name, amount: int)
    requires Spare(s) >= 0 && (from == NAMES_ACCOUNT ==> amount <= Spare(s))
    ensures TransferTokens(s, from, to, amount).Ok? ==> Spare(TransferTokens(s, from, to, amount).value) >= 0
  {
  }

  /** Announced proceeds stay on celes.names until maintenance moves them. */
  lemma {:induction false} RunKeepsNamebids(s: State, actions: seq<Action>)
    requires Books(s) && Spare(s) >= 0 && AuctionsCollect(s, actions)
    ensures Spare(Run(s, actions)) >= 0
    decreases |actions|
  {
    hide Books, Apply, Spare, SpendsSpareOnly, PriceKept;
    if |actions| > 0 {
      ApplyKeepsBooks(s, actions[0]);
      StepKeepsSpare(s, actions[0]);
      RunKeepsNamebids(Step(s, actions[0]), actions[1..]);
    }
  }

  /**
   * In every run whose auctions collect their prices: once an order has been open
   * for 30 days, one maintenance with `max` at least the table sizes empties the
   * loan tables and fills every open order, at the current price or better.
   */
  lemma QueueAlwaysClears(s0: State, q0: int, actions: seq<Action>, o: Order, max: nat)
    requires Genesis(s0, q0) && Held(s0.tokens, NAMES_ACCOUNT) >= 0 && AuctionsCollect(s0, actions)
    requires var s := Run(s0, actions);
             && o in s.orders && Overdue(o, s.now)
             && |s.cpuLoans| <= max && |s.netLoans| <= max && |s.orders| <= max
    ensures var s := Run(s0, actions);
            && RunRex(s, max).Ok?
            && RunRex(s, max).value.cpuLoans == [] && RunRex(s, max).value.netLoans == []
            && AllFilled(s, RunRex(s, max).value, s.pool)
  {
    GenesisInvariant(s0, q0);
    hide Books, LimitsOk, RamOk, RefundsOk, Run, RunRex, AllFilled, Overdue, AuctionsCollect;
    RunKeepsNamebids(s0, actions);
    QueueClearsInEveryRun(s0, q0, actions, o, max);
  }
}
