/** What holds in every state a run of actions can reach. */
module RexRuns {
  import opened Outcomes
  import opened RexState
  import opened RexActions
  import opened MapSums
  import opened RexPool
  import opened RexTables
  import opened RexMaturities
  import opened RexBooks
  import opened RexSteps
  import opened RexLedger
  import opened Bandwidth
  import opened Staking
  import opened RamMarket

  /** The state right after the system contract is set up, before any REX, stake or RAM is bought. */
  ghost predicate Genesis(s: State, q0: int) {
    && s.now < CLOCK_LIMIT && s.pool == None
    && s.funds == map[] && s.balances == map[] && s.cpuLoans == [] && s.netLoans == [] && s.orders == []
    && s.resources == map[] && s.delegations == map[] && s.refunds == map[]
    && q0 >= 0 && s.ram.quote == q0 && s.ram.stake == 0 && s.ram.reserved == 0
    && s.ram.base == s.ram.maxSize >= 0
  }

  /** Everything the contract's comments rely on. `q0` is the market's opening quote balance. */
  ghost predicate Invariant(s: State, q0: int) {
    Books(s) && LimitsOk(s) && RefundsOk(s.refunds) && RamOk(s, q0)
  }

  lemma GenesisInvariant(s: State, q0: int)
    requires Genesis(s, q0)
    ensures Invariant(s, q0)
  {
    assert RexRows(s.balances) == map[] && RamRows(s.resources) == map[];
    forall r: Name ensures Agrees(s, r) {
      assert NetTo(s.delegations, r) == map[] && CpuTo(s.delegations, r) == map[];
    }
  }

  // ---------- limits ----------

  lemma FrameKeepsLimits(s: State, r: Result<State>)
    requires LimitsOk(s)
    requires r.Ok? ==> r.value.resources == s.resources && r.value.delegations == s.delegations
                       && r.value.cpuLoans == s.cpuLoans && r.value.netLoans == s.netLoans
    requires r.Abort? ==> !Unreachable(r.check)
    ensures KeepsLimits(r)
  {
    hide LimitsOk;
    if r.Ok? { LimitsOkFrame(s, r.value); }
  }

  lemma RamSettingsKeepLimits(s: State, a: Action)
    requires LimitsOk(s) && (a.ActSetRam? || a.ActSetRamRate?)
    ensures KeepsLimits(Apply(s, a))
  {
    hide LimitsOk, UpdateRamSupply;
    SupplyFrame(s);
    FrameKeepsLimits(s, Apply(s, a));
    hide KeepsLimits;
  }

  lemma ClockKeepsLimits(s: State, to: nat, rent: int)
    requires LimitsOk(s)
    ensures KeepsLimits(AdvanceClock(s, to)) && KeepsLimits(SetRex(s, rent))
  {
    hide LimitsOk;
    FrameKeepsLimits(s, AdvanceClock(s, to));
    FrameKeepsLimits(s, SetRex(s, rent));
    hide KeepsLimits;
  }

  lemma QueueKeepsLimits(s: State, bid: nat, owner: Name)
    requires LimitsOk(s)
    ensures KeepsLimits(CloseNameAuction(s, bid)) && KeepsLimits(CancelOrder(s, owner))
  {
    hide LimitsOk, RemoveAt, FindOrder, RexAvailable;
    FrameKeepsLimits(s, CloseNameAuction(s, bid));
    FrameKeepsLimits(s, CancelOrder(s, owner));
    hide KeepsLimits;
  }

  lemma PaymentsKeepLimits(s: State, a: Action)
    requires LimitsOk(s)
    requires a.ActTransfer? || a.ActDeposit? || a.ActRefund?
    ensures KeepsLimits(Apply(s, a))
  {
    hide LimitsOk;
    FrameKeepsLimits(s, Apply(s, a));
    hide KeepsLimits;
  }

  lemma WithdrawKeepsLimits(s: State, owner: Name, amount: int)
    requires LimitsOk(s)
    ensures KeepsLimits(Withdraw(s, owner, amount))
  {
    UpdateAccountFrame(s, owner, 0);
    hide LimitsOk, UpdateRexAccount, SettledOrders;
    FrameKeepsLimits(s, Withdraw(s, owner, amount));
  }

  lemma DelegateKeepsLimits(s: State, from: Name, receiver: Name, net: int, cpu: int, transfer: bool)
    requires Books(s) && LimitsOk(s)
    ensures KeepsLimits(DelegateBandwidth(s, from, receiver, net, cpu, transfer))
  {
    hide Books, LimitsOk, ChangeBandwidth;
    ChangeBandwidthKeepsLimits(s, from, receiver, net, cpu, transfer);
  }

  lemma UndelegateKeepsLimits(s: State, from: Name, receiver: Name, net: int, cpu: int)
    requires Books(s) && LimitsOk(s)
    ensures KeepsLimits(UndelegateBandwidth(s, from, receiver, net, cpu))
  {
    hide Books, LimitsOk, ChangeBandwidth;
    ChangeBandwidthKeepsLimits(s, from, receiver, -net, -cpu, false);
  }

  /** Limits agree with their sources after every action, and no check that "cannot fail" ever does. */
  lemma ApplyKeepsLimits(s: State, a: Action)
    requires Books(s) && LimitsOk(s)
    ensures KeepsLimits(Apply(s, a))
  {
    hide Books, LimitsOk, KeepsLimits, Withdraw, BuyRex, UnstakeToRex, SellRex, CancelOrder, Rent, FundLoan, DefundLoan,
      UpdateRex, SetRex, RunRex, Consolidate, MoveToSavings, MoveFromSavings, CloseRex, CloseNameAuction, DelegateBandwidth,
      UndelegateBandwidth, BuyRam, SellRam, AdvanceClock, TransferTokens, Deposit, RefundStake, SetRam, SetRamRate;
    match a
    case ActWithdraw(owner, amount) => WithdrawKeepsLimits(s, owner, amount);
    case ActBuyRex(owner, amount, votes) => BuyRexKeepsLimits(s, owner, amount, votes);
    case ActUnstakeToRex(owner, receiver, net, cpu, votes) => UnstakeToRexKeepsLimits(s, owner, receiver, net, cpu, votes);
    case ActSellRex(owner, rex) => SellRexKeepsLimits(s, owner, rex);
    case ActRent(kind, owner, receiver, payment, fund) => RentKeepsLimits(s, kind, owner, receiver, payment, fund);
    case ActFundLoan(kind, owner, num, amount) => FundLoanKeepsLimits(s, kind, owner, num, amount);
    case ActDefundLoan(kind, owner, num, amount) => DefundLoanKeepsLimits(s, kind, owner, num, amount);
    case ActUpdateRex(owner) => UpdateRexKeepsLimits(s, owner);
    case ActRexExec(max) => RunRexKeepsLimits(s, max);
    case ActConsolidate(owner) => UpdateRexKeepsLimits(s, owner);
    case ActMoveToSavings(owner, rex) => MoveToSavingsKeepsLimits(s, owner, rex);
    case ActMoveFromSavings(owner, rex) => MoveFromSavingsKeepsLimits(s, owner, rex);
    case ActCloseRex(owner) => CloseRexKeepsLimits(s, owner);
    case ActDelegate(owner, receiver, net, cpu, transfer) => DelegateKeepsLimits(s, owner, receiver, net, cpu, transfer);
    case ActUndelegate(owner, receiver, net, cpu) => UndelegateKeepsLimits(s, owner, receiver, net, cpu);
    case ActBuyRam(owner, receiver, amount) => BuyRamKeepsLimits(s, owner, receiver, amount);
    case ActSellRam(owner, bytes) => SellRamKeepsLimits(s, owner, bytes);
    case ActTransfer(_, _, _) => PaymentsKeepLimits(s, a);
    case ActDeposit(_, _) => PaymentsKeepLimits(s, a);
    case ActRefund(_) => PaymentsKeepLimits(s, a);
    case ActSetRam(_) => RamSettingsKeepLimits(s, a);
    case ActSetRamRate(_) => RamSettingsKeepLimits(s, a);
    case ActAdvance(to) => ClockKeepsLimits(s, to, 0);
    case ActSetRex(amount) => ClockKeepsLimits(s, 0, amount);
    case ActCloseNameAuction(bid) => QueueKeepsLimits(s, bid, 0);
    case ActCancelOrder(owner) => QueueKeepsLimits(s, 0, owner);
  }

  // ---------- token conservation ----------

  /** Accounts whose own tokens an action moves, besides the contract's. */
  function Parties(a: Action): set<Name> {
    match a
    case ActTransfer(from, to, _) => {from, to}
    case ActDeposit(owner, _) => {owner}
    case ActWithdraw(owner, _) => {owner}
    case ActDelegate(owner, _, _, _, _) => {owner}
    case ActUndelegate(owner, _, _, _) => {owner}
    case ActRefund(owner) => {owner}
    case ActBuyRam(owner, _, _) => {owner}
    case ActSellRam(owner, _) => {owner}
    case _ => {}
  }

  /** What an action pays to an account, or takes from it, by a plain transfer. */
  function PaidTo(account: Name, a: Action): int {
    match a
    case ActTransfer(from, to, amount) => (if to == account then amount else 0) - (if from == account then amount else 0)
    case _ => 0
  }

  /** The account takes part in the action at most through a plain transfer. */
  predicate OnlyTransfers(account: Name, a: Action) {
    a.ActTransfer? || account !in Parties(a)
  }

  lemma SavingsActionsKeepSurplus(s: State, a: Action)
    requires Books(s) && Apply(s, a).Ok?
    requires a.ActUpdateRex? || a.ActConsolidate? || a.ActMoveToSavings?
    ensures Surplus(Apply(s, a).value) == Surplus(s)
  {
    hide Books, RunRex, UpdateRexAccount, ProcessMaturities, ConsolidateBuckets, MoveIntoSavings, Surplus;
    SavingsKeepSurplus(s, Apply(s, a).value, a.owner);
  }

  lemma BandwidthKeepsSurplus(s: State, source: Name, receiver: Name, dNet: int, dCpu: int, transfer: bool)
    requires ChangeBandwidth(s, source, receiver, dNet, dCpu, transfer).Ok? && source != REX_ACCOUNT
    ensures Surplus(ChangeBandwidth(s, source, receiver, dNet, dCpu, transfer).value) == Surplus(s)
  {
    hide AddToLimits, WriteDelegation, NetRefund, SameSign, TransferTokens;
    var from := if transfer then receiver else source;
    var s1 := AddDelegation(s, from, receiver, dNet, dCpu).value;
    var s2 := s1.(resources := AddToLimits(s1.resources, receiver, dNet, dCpu).value);
    var nets := (!transfer && from == receiver) || dNet + dCpu < 0;
    if source != STAKE_ACCOUNT {
      var due := if nets then NetRefund(s.refunds, from, dNet, dCpu, Seconds(s.now)).value.1 else dNet + dCpu;
      var s3 := if nets then s2.(refunds := NetRefund(s.refunds, from, dNet, dCpu, Seconds(s.now)).value.0) else s2;
      if due > 0 {
        TransferMoves(s3, source, STAKE_ACCOUNT, due);
      }
    }
  }

  lemma DelegateKeepsSurplus(s: State, a: Action)
    requires Apply(s, a).Ok? && REX_ACCOUNT !in Parties(a) && (a.ActDelegate? || a.ActUndelegate?)
    ensures Surplus(Apply(s, a).value) == Surplus(s)
  {
    hide ChangeBandwidth, Surplus;
    if a.ActDelegate? {
      BandwidthKeepsSurplus(s, a.owner, a.receiver, a.net, a.cpu, a.transfer);
    } else {
      BandwidthKeepsSurplus(s, a.owner, a.receiver, -a.net, -a.cpu, false);
    }
  }

  /** Payments between other accounts, and settings, leave celes.rex alone. */
  lemma SettingsKeepSurplus(s: State, a: Action)
    requires Apply(s, a).Ok? && REX_ACCOUNT !in Parties(a)
    requires a.ActAdvance? || a.ActSetRex? || a.ActCloseNameAuction? || a.ActSetRam? || a.ActSetRamRate?
    ensures Surplus(Apply(s, a).value) == Surplus(s)
  {
    hide UpdateRamSupply, TransferTokens, RefundStake;
    SupplyFrame(s);
  }

  lemma OutsideActionsKeepSurplus(s: State, a: Action)
    requires Apply(s, a).Ok? && OnlyTransfers(REX_ACCOUNT, a)
    requires a.ActTransfer? || a.ActRefund? || a.ActAdvance? || a.ActSetRex?
             || a.ActCloseNameAuction? || a.ActSetRam? || a.ActSetRamRate?
    ensures Surplus(Apply(s, a).value) == Surplus(s) + PaidTo(REX_ACCOUNT, a)
  {
    hide TransferTokens, RefundStake, SetRex, SetRam, SetRamRate, CloseNameAuction, AdvanceClock;
    if a.ActTransfer? {
      TransferSurplus(s, a);
    } else if a.ActRefund? {
      RefundKeepsSurplus(s, a.owner);
    } else {
      SettingsKeepSurplus(s, a);
    }
  }

  lemma TransferSurplus(s: State, a: Action)
    requires a.ActTransfer? && Apply(s, a).Ok?
    ensures Surplus(Apply(s, a).value) == Surplus(s) + PaidTo(REX_ACCOUNT, a)
  {
    hide TransferTokens;
    TransferMoves(s, a.from, a.to_, a.amount);
  }

  lemma RefundKeepsSurplus(s: State, owner: Name)
    requires RefundStake(s, owner).Ok? && owner != REX_ACCOUNT
    ensures Surplus(RefundStake(s, owner).value) == Surplus(s)
  {
    hide TransferTokens;
    TransferMoves(s, STAKE_ACCOUNT, owner, s.refunds[owner].net + s.refunds[owner].cpu);
  }

  lemma PayRamFeeKeepsSurplus(s: State, payer: Name, fee: int)
    requires PayRamFee(s, payer, fee).Ok? && payer != REX_ACCOUNT
    ensures Surplus(PayRamFee(s, payer, fee).value) == Surplus(s)
  {
    if fee > 0 {
      TransferMoves(s, payer, RAMFEE_ACCOUNT, fee);
      ChannelKeepsSurplus(TransferTokens(s, payer, RAMFEE_ACCOUNT, fee).value, RAMFEE_ACCOUNT, fee);
      hide ChannelToRex, TransferTokens;
    }
  }

  lemma RamActionsKeepSurplus(s: State, a: Action)
    requires Apply(s, a).Ok? && REX_ACCOUNT !in Parties(a)
    requires a.ActBuyRam? || a.ActSellRam?
    ensures Surplus(Apply(s, a).value) == Surplus(s)
  {
    SupplyFrame(s);
    hide UpdateRamSupply, RamFee, RamProceeds, BancorOutput, PayRamFee, TransferTokens;
    var s0 := UpdateRamSupply(s);
    if a.ActBuyRam? {
      var paid := a.amount - RamFee(a.amount);
      TransferMoves(s0, a.owner, RAM_ACCOUNT, paid);
      PayRamFeeKeepsSurplus(TransferTokens(s0, a.owner, RAM_ACCOUNT, paid).value, a.owner, RamFee(a.amount));
    } else {
      var tokens := RamProceeds(s0.ram, a.bytes);
      var s1 := ReleaseRam(s0, a.owner, a.bytes).value;
      TransferMoves(s1, RAM_ACCOUNT, a.owner, tokens);
      PayRamFeeKeepsSurplus(TransferTokens(s1, RAM_ACCOUNT, a.owner, tokens).value, a.owner, RamFee(tokens));
    }
  }

  /** Tokens on celes.rex move with what it owes, in every action but a plain transfer. */
  lemma ApplyKeepsSurplus(s: State, a: Action)
    requires Books(s) && Apply(s, a).Ok? && OnlyTransfers(REX_ACCOUNT, a)
    ensures Surplus(Apply(s, a).value) == Surplus(s) + PaidTo(REX_ACCOUNT, a)
  {
    hide Books, Surplus, Withdraw, BuyRex, UnstakeToRex, SellRex, CancelOrder, Rent, FundLoan, DefundLoan,
      UpdateRex, SetRex, RunRex, Consolidate, MoveToSavings, MoveFromSavings, CloseRex, CloseNameAuction, DelegateBandwidth,
      UndelegateBandwidth, BuyRam, SellRam, AdvanceClock, TransferTokens, Deposit, RefundStake, SetRam, SetRamRate, Parties;
    match a
    case ActDeposit(owner, amount) => DepositKeepsSurplus(s, owner, amount);
    case ActWithdraw(owner, amount) => WithdrawKeepsSurplus(s, owner, amount);
    case ActBuyRex(owner, amount, votes) => BuyRexKeepsSurplus(s, owner, amount, votes);
    case ActUnstakeToRex(owner, receiver, net, cpu, votes) => UnstakeToRexKeepsSurplus(s, owner, receiver, net, cpu, votes);
    case ActSellRex(owner, rex) => SellRexKeepsSurplus(s, owner, rex);
    case ActCancelOrder(owner) => CancelKeepsSurplus(s, owner);
    case ActRent(kind, owner, receiver, payment, fund) => RentKeepsSurplus(s, kind, owner, receiver, payment, fund);
    case ActFundLoan(kind, owner, num, amount) => FundLoanKeepsSurplus(s, kind, owner, num, amount);
    case ActDefundLoan(kind, owner, num, amount) => DefundLoanKeepsSurplus(s, kind, owner, num, amount);
    case ActUpdateRex(_) => SavingsActionsKeepSurplus(s, a);
    case ActConsolidate(_) => SavingsActionsKeepSurplus(s, a);
    case ActMoveToSavings(_, _) => SavingsActionsKeepSurplus(s, a);
    case ActRexExec(max) => RunRexKeepsSurplus(s, max);
    case ActMoveFromSavings(owner, rex) => MoveFromSavingsKeepsSurplus(s, owner, rex);
    case ActCloseRex(owner) => CloseRexKeepsSurplus(s, owner);
    case ActBuyRam(_, _, _) => RamActionsKeepSurplus(s, a);
    case ActSellRam(_, _) => RamActionsKeepSurplus(s, a);
    case ActDelegate(owner, receiver, net, cpu, transfer) => DelegateKeepsSurplus(s, a);
    case ActUndelegate(owner, receiver, net, cpu) => DelegateKeepsSurplus(s, a);
    case _ => OutsideActionsKeepSurplus(s, a);
  }

  // ---------- staked tokens and RAM ----------

  /** Tokens on celes.ram beyond the staked total. */
  ghost function RamSurplus(s: State): int {
    Held(s.tokens, RAM_ACCOUNT) - s.ram.stake
  }

  ghost predicate AsideOk(s: State, q0: int) {
    RefundsOk(s.refunds) && RamOk(s, q0)
  }

  /** Refunds and the RAM market stay sound; what celes.stake and celes.ram hold still matches. */
  ghost predicate KeepsAside(s: State, r: Result<State>, a: Action, q0: int) {
    r.Ok? ==>
      && AsideOk(r.value, q0)
      && (OnlyTransfers(STAKE_ACCOUNT, a) ==> StakeSurplus(r.value) == StakeSurplus(s) + PaidTo(STAKE_ACCOUNT, a))
      && (OnlyTransfers(RAM_ACCOUNT, a) ==> RamSurplus(r.value) == RamSurplus(s) + PaidTo(RAM_ACCOUNT, a))
  }

  /** Nothing that refunds, delegations or the RAM market depend on has changed. */
  ghost predicate Apart(s: State, s': State) {
    && s'.delegations == s.delegations && s'.refunds == s.refunds && s'.ram == s.ram
    && Held(s'.tokens, STAKE_ACCOUNT) == Held(s.tokens, STAKE_ACCOUNT)
    && Held(s'.tokens, RAM_ACCOUNT) == Held(s.tokens, RAM_ACCOUNT)
    && (QuotasOk(s.resources, s.ram.reserved) ==> QuotasOk(s'.resources, s.ram.reserved))
  }

  lemma ApartKeepsAside(s: State, s': State, a: Action, q0: int)
    requires !a.ActTransfer? && AsideOk(s, q0) && Apart(s, s')
    ensures KeepsAside(s, Ok(s'), a, q0)
  {
    hide RefundsOk, MarketOk, QuotasOk, Parties;
  }

  lemma RunRexApart(s: State, max: nat)
    requires RunRex(s, max).Ok?
    ensures Apart(s, RunRex(s, max).value)
  {
    if QuotasOk(s.resources, s.ram.reserved) {
      RunRexKeepsQuotas(s, max, s.ram.reserved);
    } else {
      RunRexKeepsOthers(s, max);
    }
    hide RunRex, QuotasOk;
  }

  lemma RunRexKeepsOthers(s: State, max: nat)
    requires RunRex(s, max).Ok?
    ensures var s' := RunRex(s, max).value;
            && s'.ram == s.ram && s'.delegations == s.delegations && s'.refunds == s.refunds
            && Held(s'.tokens, RAM_ACCOUNT) == Held(s.tokens, RAM_ACCOUNT)
            && Held(s'.tokens, STAKE_ACCOUNT) == Held(s.tokens, STAKE_ACCOUNT)
  {
    hide ProcessLoans, ProcessOrders;
    ChannelNamebidsFrame(s);
    var s1 := ChannelNamebids(s).value;
    ProcessLoansFrame(s1, Cpu, max);
    ProcessLoansKeepsPool(s1, Cpu, max);
    var s2 := ProcessLoans(s1, Cpu, max).value;
    ProcessLoansFrame(s2, Net, max);
    ProcessOrdersFrame(ProcessLoans(s2, Net, max).value, 0, max);
    NamebidsTouchTwoAccounts(s);
  }

  lemma MaintainingActionsApart(s: State, a: Action)
    requires Apply(s, a).Ok?
    requires a.ActUpdateRex? || a.ActConsolidate? || a.ActMoveToSavings? || a.ActMoveFromSavings? || a.ActRexExec?
    ensures Apart(s, Apply(s, a).value)
  {
    var max := if a.ActRexExec? then a.max else 2;
    assert RunRex(s, max).Ok?;
    RunRexApart(s, max);
    var s1 := RunRex(s, max).value;
    hide RunRex, UpdateRexAccount, ProcessMaturities, ConsolidateBuckets, MoveIntoSavings, MoveOutOfSavings, QuotasOk;
    if a.ActMoveFromSavings? {
      var b := MoveOutOfSavings(s1.balances[a.owner], s.now, a.rex).value;
      UpdateAccountFrame(s1.(balances := s1.balances[a.owner := b]), a.owner, 0);
    } else if !a.ActRexExec? {
      UpdateAccountFrame(s1, a.owner, 0);
    }
  }

  lemma CloseRexApart(s: State, owner: Name)
    requires CloseRex(s, owner).Ok?
    ensures Apart(s, CloseRex(s, owner).value)
  {
    if s.pool.Some? {
      RunRexApart(s, 2);
    }
    var s1 := if s.pool.Some? then RunRex(s, 2).value else s;
    hide RunRex, UpdateRexAccount, QuotasOk;
    UpdateAccountFrame(s1, owner, 0);
  }

  lemma BuyRexApart(s: State, from: Name, amount: int, votes: bool)
    requires BuyRex(s, from, amount, votes).Ok?
    ensures Apart(s, BuyRex(s, from, amount, votes).value)
  {
    hide UpdateRexAccount, QuotasOk, RunRex, AddToPool, AcquireRex;
    var s2 := PurchaseRex(TransferFromFund(s, from, amount).value, from, amount).value;
    RunRexApart(s2, 2);
    UpdateAccountFrame(RunRex(s2, 2).value, from, 0);
  }

  lemma SellRexApart(s: State, from: Name, rex: int)
    requires SellRex(s, from, rex).Ok?
    ensures Apart(s, SellRex(s, from, rex).value)
  {
    RunRexApart(s, 2);
    hide UpdateRexAccount, QuotasOk, RunRex, ProcessMaturities, FillFromPool, QueueOrder;
    var s1 := RunRex(s, 2).value;
    var s2 := s1.(balances := s1.balances[from := ProcessMaturities(s1.balances[from], Seconds(s.now))]);
    var fill := FillFromPool(s2.pool.value, rex).value;
    if fill.Filled? {
      UpdateAccountFrame(DebitRex(s2.(pool := Some(fill.pool)), from, rex), from, fill.proceeds);
    } else {
      UpdateAccountFrame(s2, from, 0);
      QueueFrame(UpdateRexAccount(s2, from, 0).value.0, from, rex);
    }
  }

  lemma RentApart(s: State, kind: Kind, from: Name, receiver: Name, payment: int, fund: int)
    requires Rent(s, kind, from, receiver, payment, fund).Ok?
    ensures Apart(s, Rent(s, kind, from, receiver, payment, fund).value)
  {
    RunRexApart(s, 2);
    hide QuotasOk, RunRex, AddLoan, BancorOutput, InsertLoan, ChangeLimit, LoansAvailable;
    var s1 := RunRex(s, 2).value;
    var s2 := TransferFromFund(s1, from, payment + fund).value;
    var s3 := WithNewLoan(s2, kind, from, receiver, payment, fund);
    var rented := BancorOutput(s2.pool.value.rent, s2.pool.value.unlent, payment);
    ChangeLimitFrame(s3, kind, receiver, rented);
    if QuotasOk(s.resources, s.ram.reserved) {
      ChangeLimitKeepsQuotas(s3, kind, receiver, rented, s.ram.reserved);
    }
  }

  lemma FundLoanApart(s: State, kind: Kind, from: Name, num: nat, payment: int)
    requires FundLoan(s, kind, from, num, payment).Ok?
    ensures Apart(s, FundLoan(s, kind, from, num, payment).value)
  {
    FundLoanShape(s, kind, from, num, payment);
    hide QuotasOk, FindLoan, FundLoan;
  }

  lemma DefundLoanApart(s: State, kind: Kind, from: Name, num: nat, amount: int)
    requires DefundLoan(s, kind, from, num, amount).Ok?
    ensures Apart(s, DefundLoan(s, kind, from, num, amount).value)
  {
    hide QuotasOk, FindLoan;
  }

  lemma SimpleActionsApart(s: State, a: Action)
    requires Apply(s, a).Ok?
    requires a.ActCancelOrder? || a.ActSetRex? || a.ActCloseNameAuction? || a.ActAdvance?
    ensures Apart(s, Apply(s, a).value)
  {
    hide QuotasOk, RemoveAt, FindOrder, RexAvailable;
  }

  /** The part of unstaketorex before the purchase. */
  lemma UnstakeAside(s: State, s3: State, owner: Name, receiver: Name, net: int, cpu: int)
    requires QuotasOk(s.resources, s.ram.reserved) && (owner, receiver) in s.delegations
    requires var w := s.delegations[(owner, receiver)];
             var left := Weights(w.net - net, w.cpu - cpu);
             var s1 := s.(delegations := WriteDelegation(s.delegations, owner, receiver, left));
             && UpdateResourceLimits(s1, receiver, -net, -cpu).Ok?
             && TransferTokens(UpdateResourceLimits(s1, receiver, -net, -cpu).value, STAKE_ACCOUNT, REX_ACCOUNT, net + cpu) == Ok(s3)
    ensures QuotasOk(s3.resources, s.ram.reserved) && s3.refunds == s.refunds && s3.ram == s.ram
    ensures StakeSurplus(s3) == StakeSurplus(s) && RamSurplus(s3) == RamSurplus(s)
  {
    hide QuotasOk, WriteDelegation, UpdateResourceLimits, TransferTokens, StakedTokens, RefundTokens;
    var w := s.delegations[(owner, receiver)];
    var left := Weights(w.net - net, w.cpu - cpu);
    DelegationTokens(s.delegations, owner, receiver, left);
    var s1 := s.(delegations := WriteDelegation(s.delegations, owner, receiver, left));
    LimitsFrameTokens(s1, receiver, -net, -cpu);
    UnstakeKeepsQuotas(s1, receiver, -net, -cpu, s.ram.reserved);
    TransferMoves(UpdateResourceLimits(s1, receiver, -net, -cpu).value, STAKE_ACCOUNT, REX_ACCOUNT, net + cpu);
  }

  lemma UnstakeKeepsAside(s: State, a: Action, q0: int)
    requires AsideOk(s, q0) && a.ActUnstakeToRex?
    ensures KeepsAside(s, Apply(s, a), a, q0)
  {
    hide UpdateRexAccount, QuotasOk, RunRex, AddToPool, AcquireRex, WriteDelegation, UpdateResourceLimits, MarketOk, RefundsOk,
      TransferTokens, StakedTokens, RefundTokens;
    if Apply(s, a).Ok? {
      var w := s.delegations[(a.owner, a.receiver)];
      var left := Weights(w.net - a.net, w.cpu - a.cpu);
      var s1 := s.(delegations := WriteDelegation(s.delegations, a.owner, a.receiver, left));
      var s2 := UpdateResourceLimits(s1, a.receiver, -a.net, -a.cpu).value;
      var s3 := TransferTokens(s2, STAKE_ACCOUNT, REX_ACCOUNT, a.net + a.cpu).value;
      UnstakeAside(s, s3, a.owner, a.receiver, a.net, a.cpu);
      var s4 := PurchaseRex(s3, a.owner, a.net + a.cpu).value;
      RunRexApart(s4, 2);
      UpdateAccountFrame(RunRex(s4, 2).value, a.owner, 0);
    }
  }

  lemma UnstakeKeepsQuotas(s: State, receiver: Name, net: int, cpu: int, reserved: int)
    requires QuotasOk(s.resources, reserved) && UpdateResourceLimits(s, receiver, net, cpu).Ok?
    ensures QuotasOk(UpdateResourceLimits(s, receiver, net, cpu).value.resources, reserved)
  {
    hide QuotasOk, AddToLimits;
    if net != 0 || cpu != 0 {
      LimitsKeepQuotas(s.resources, receiver, net, cpu, reserved);
    }
  }

  lemma PaymentsKeepAside(s: State, a: Action, q0: int)
    requires AsideOk(s, q0) && (a.ActTransfer? || a.ActDeposit?)
    ensures KeepsAside(s, Apply(s, a), a, q0)
  {
    hide QuotasOk, MarketOk, RefundsOk, StakedTokens, RefundTokens;
  }

  lemma WithdrawKeepsAside(s: State, a: Action, q0: int)
    requires AsideOk(s, q0) && a.ActWithdraw?
    ensures KeepsAside(s, Apply(s, a), a, q0)
  {
    UpdateAccountFrame(s, a.owner, 0);
    hide QuotasOk, MarketOk, RefundsOk, StakedTokens, RefundTokens, UpdateRexAccount, SettledOrders;
  }

  lemma RefundKeepsAside(s: State, a: Action, q0: int)
    requires AsideOk(s, q0) && a.ActRefund?
    ensures KeepsAside(s, Apply(s, a), a, q0)
  {
    if Apply(s, a).Ok? {
      RefundKeepsStake(s, a.owner);
    }
    hide QuotasOk, MarketOk, RefundsOk, StakeSurplus;
  }

  lemma BandwidthKeepsQuotas(s: State, source: Name, receiver: Name, dNet: int, dCpu: int, transfer: bool, q0: int)
    requires AsideOk(s, q0) && ChangeBandwidth(s, source, receiver, dNet, dCpu, transfer).Ok?
    ensures var s' := ChangeBandwidth(s, source, receiver, dNet, dCpu, transfer).value;
            && AsideOk(s', q0) && s'.ram == s.ram
            && (source != RAM_ACCOUNT ==> Held(s'.tokens, RAM_ACCOUNT) == Held(s.tokens, RAM_ACCOUNT))
            && (source != STAKE_ACCOUNT ==> StakeSurplus(s') == StakeSurplus(s))
  {
    if source != STAKE_ACCOUNT {
      ChangeBandwidthKeepsStake(s, source, receiver, dNet, dCpu, transfer);
    }
    LimitsKeepQuotas(s.resources, receiver, dNet, dCpu, s.ram.reserved);
    hide QuotasOk, MarketOk, RefundsOk, StakeSurplus, AddToLimits, WriteDelegation, SettleStake, SameSign;
    var from := if transfer then receiver else source;
    var s1 := AddDelegation(s, from, receiver, dNet, dCpu).value;
    var s2 := s1.(resources := AddToLimits(s1.resources, receiver, dNet, dCpu).value);
    var nets := (!transfer && from == receiver) || dNet + dCpu < 0;
    SettleStakeFrame(s2, source, from, nets, dNet, dCpu);
    SettleStakePays(s2, source, from, nets, dNet, dCpu);
  }

  lemma SettleStakePays(s: State, source: Name, from: Name, nets: bool, dNet: int, dCpu: int)
    requires SettleStake(s, source, from, nets, dNet, dCpu).Ok?
    ensures var s' := SettleStake(s, source, from, nets, dNet, dCpu).value;
            && (source == STAKE_ACCOUNT ==> s' == s)
            && (source != RAM_ACCOUNT ==> Held(s'.tokens, RAM_ACCOUNT) == Held(s.tokens, RAM_ACCOUNT))
  {
    hide NetRefund;
  }

  lemma DelegateKeepsAside(s: State, a: Action, q0: int)
    requires AsideOk(s, q0) && (a.ActDelegate? || a.ActUndelegate?)
    ensures KeepsAside(s, Apply(s, a), a, q0)
  {
    hide ChangeBandwidth, AsideOk, StakeSurplus;
    if Apply(s, a).Ok? {
      if a.ActDelegate? {
        BandwidthKeepsQuotas(s, a.owner, a.receiver, a.net, a.cpu, a.transfer, q0);
      } else {
        BandwidthKeepsQuotas(s, a.owner, a.receiver, -a.net, -a.cpu, false, q0);
      }
    }
  }

  lemma RamTradesKeepStake(s: State, a: Action)
    requires Apply(s, a).Ok? && (a.ActBuyRam? || a.ActSellRam?)
    ensures var s' := Apply(s, a).value;
            && s'.delegations == s.delegations && s'.refunds == s.refunds
            && (a.owner != STAKE_ACCOUNT ==> Held(s'.tokens, STAKE_ACCOUNT) == Held(s.tokens, STAKE_ACCOUNT))
  {
    SupplyFrame(s);
    hide UpdateRamSupply, RamFee, RamProceeds, BancorOutput, PayRamFee, TransferTokens;
    var s0 := UpdateRamSupply(s);
    if a.ActBuyRam? {
      var paid := a.amount - RamFee(a.amount);
      TransferMoves(s0, a.owner, RAM_ACCOUNT, paid);
      PayRamFeeFrame(TransferTokens(s0, a.owner, RAM_ACCOUNT, paid).value, a.owner, RamFee(a.amount));
    } else {
      var tokens := RamProceeds(s0.ram, a.bytes);
      var s1 := ReleaseRam(s0, a.owner, a.bytes).value;
      TransferMoves(s1, RAM_ACCOUNT, a.owner, tokens);
      PayRamFeeFrame(TransferTokens(s1, RAM_ACCOUNT, a.owner, tokens).value, a.owner, RamFee(tokens));
    }
  }

  lemma RamTradesKeepAside(s: State, a: Action, q0: int)
    requires AsideOk(s, q0) && (a.ActBuyRam? || a.ActSellRam?)
    ensures KeepsAside(s, Apply(s, a), a, q0) && Apply(s, a) != Abort(RamStakeNegative)
  {
    if a.ActSellRam? {
      SellRamKeepsRam(s, q0, a.owner, a.bytes);
    }
    if Apply(s, a).Ok? {
      RamTradesKeepStake(s, a);
      if a.ActBuyRam? {
        BuyRamKeepsRam(s, q0, a.owner, a.receiver, a.amount);
      }
    }
    hide BuyRam, SellRam, RamOk, RefundsOk;
    if a.ActBuyRam? {
      BuyRamAborts(s, a.owner, a.receiver, a.amount);
    }
  }

  lemma BuyRamAborts(s: State, payer: Name, receiver: Name, quant: int)
    ensures BuyRam(s, payer, receiver, quant) != Abort(RamStakeNegative)
  {
    hide UpdateRamSupply, RamFee, BancorOutput;
  }

  lemma RamSettingsKeepAside(s: State, a: Action, q0: int)
    requires AsideOk(s, q0) && (a.ActSetRam? || a.ActSetRamRate?)
    ensures KeepsAside(s, Apply(s, a), a, q0)
  {
    hide QuotasOk, RefundsOk, UpdateRamSupply, StakedTokens, RefundTokens, SetRam;
    if a.ActSetRam? {
      if Apply(s, a).Ok? {
        SetRamKeepsRam(s, q0, a.size);
        SetRamFrame(s, a.size);
      }
    } else {
      SupplyKeepsRam(s, q0);
      SupplyFrame(s);
    }
  }

  lemma SetRamFrame(s: State, size: int)
    requires SetRam(s, size).Ok?
    ensures var s' := SetRam(s, size).value; s' == s.(ram := s'.ram) && s'.ram.stake == s.ram.stake
  {
  }

  lemma ApplyKeepsAside(s: State, a: Action, q0: int)
    requires AsideOk(s, q0)
    ensures KeepsAside(s, Apply(s, a), a, q0)
  {
    hide AsideOk, Apart, KeepsAside, Withdraw, BuyRex, UnstakeToRex, SellRex, CancelOrder, Rent, FundLoan, DefundLoan,
      UpdateRex, SetRex, RunRex, Consolidate, MoveToSavings, MoveFromSavings, CloseRex, CloseNameAuction, DelegateBandwidth,
      UndelegateBandwidth, BuyRam, SellRam, AdvanceClock, TransferTokens, Deposit, RefundStake, SetRam, SetRamRate, Parties;
    match a
    case ActWithdraw(_, _) => WithdrawKeepsAside(s, a, q0);
    case ActTransfer(_, _, _) => PaymentsKeepAside(s, a, q0);
    case ActDeposit(_, _) => PaymentsKeepAside(s, a, q0);
    case ActUnstakeToRex(_, _, _, _, _) => UnstakeKeepsAside(s, a, q0);
    case ActRefund(_) => RefundKeepsAside(s, a, q0);
    case ActDelegate(_, _, _, _, _) => DelegateKeepsAside(s, a, q0);
    case ActUndelegate(_, _, _, _) => DelegateKeepsAside(s, a, q0);
    case ActBuyRam(_, _, _) => RamTradesKeepAside(s, a, q0);
    case ActSellRam(_, _) => RamTradesKeepAside(s, a, q0);
    case ActSetRam(_) => RamSettingsKeepAside(s, a, q0);
    case ActSetRamRate(_) => RamSettingsKeepAside(s, a, q0);
    case _ => RexActionsKeepAside(s, a, q0);
  }

  lemma RexActionsKeepAside(s: State, a: Action, q0: int)
    requires AsideOk(s, q0)
    requires !(a.ActWithdraw? || a.ActTransfer? || a.ActDeposit? || a.ActUnstakeToRex? || a.ActRefund? || a.ActDelegate?
               || a.ActUndelegate? || a.ActBuyRam? || a.ActSellRam? || a.ActSetRam? || a.ActSetRamRate?)
    ensures KeepsAside(s, Apply(s, a), a, q0)
  {
    hide AsideOk, Apart, Apply, PaidTo, OnlyTransfers;
    if Apply(s, a).Ok? {
      RexActionsApart(s, a);
      ApartKeepsAside(s, Apply(s, a).value, a, q0);
    }
    hide KeepsAside;
  }

  /** The REX actions that move no tokens of celes.stake leave delegations, refunds and the RAM market alone. */
  lemma RexActionsApart(s: State, a: Action)
    requires Apply(s, a).Ok?
    requires !(a.ActWithdraw? || a.ActTransfer? || a.ActDeposit? || a.ActUnstakeToRex? || a.ActRefund? || a.ActDelegate?
               || a.ActUndelegate? || a.ActBuyRam? || a.ActSellRam? || a.ActSetRam? || a.ActSetRamRate?)
    ensures Apart(s, Apply(s, a).value)
  {
    hide Apart, BuyRex, SellRex, CancelOrder, Rent, FundLoan, DefundLoan, UpdateRex, SetRex, RunRex, Consolidate,
      MoveToSavings, MoveFromSavings, CloseRex, CloseNameAuction, AdvanceClock;
    match a {
      case ActBuyRex(owner, amount, votes) => BuyRexApart(s, owner, amount, votes);
      case ActSellRex(owner, rex) => SellRexApart(s, owner, rex);
      case ActRent(kind, owner, receiver, payment, fund) => RentApart(s, kind, owner, receiver, payment, fund);
      case ActCloseRex(owner) => CloseRexApart(s, owner);
      case ActUpdateRex(_) => MaintainingActionsApart(s, a);
      case ActConsolidate(_) => MaintainingActionsApart(s, a);
      case ActMoveToSavings(_, _) => MaintainingActionsApart(s, a);
      case ActMoveFromSavings(_, _) => MaintainingActionsApart(s, a);
      case ActRexExec(_) => MaintainingActionsApart(s, a);
      case ActFundLoan(kind, owner, num, amount) => FundLoanApart(s, kind, owner, num, amount);
      case ActDefundLoan(kind, owner, num, amount) => DefundLoanApart(s, kind, owner, num, amount);
      case _ => SimpleActionsApart(s, a);
    }
  }
}
