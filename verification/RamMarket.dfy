/**
 * Solvency of the RAM market: its connector balances track the reserved bytes
 * and the staked tokens, and no mix of purchases, sales and supply growth ever
 * takes out more tokens than were paid in.
 */
module RamMarket {
  import opened Outcomes
  import opened RexState
  import opened RexActions
  import opened MapSums
  import opened Arithmetic
  import opened RexPool
  import opened RexTables
  import opened RexBooks
  import opened RexSteps
  import opened RexLedger
  import opened Bandwidth

  ghost function RamRows(resources: map<Name, Resources>): map<Name, int> {
    map k | k in resources :: resources[k].ram
  }

  /** Reserved bytes are the users' quotas, none of them negative. */
  ghost predicate QuotasOk(resources: map<Name, Resources>, reserved: int) {
    NonNegative(RamRows(resources)) && Sum(RamRows(resources)) == reserved
  }

  /** The market, whose quote connector opened with `q0` tokens. */
  ghost predicate MarketOk(ram: Ram, q0: int) {
    && q0 >= 0 && ram.base >= 0 && ram.reserved >= 0
    && ram.base == ram.maxSize - ram.reserved
    && ram.quote == q0 + ram.stake
    && ram.stake >= 0
    && ram.base * ram.quote >= q0 * ram.maxSize
  }

  ghost predicate RamOk(s: State, q0: int) {
    MarketOk(s.ram, q0) && QuotasOk(s.resources, s.ram.reserved)
  }

  /** A market whose product covers the initial one never lacks quote tokens. */
  lemma QuoteAtLeastInitial(base: int, quote: int, size: int, q0: int)
    requires 0 < base <= size && q0 >= 0 && base * quote >= q0 * size
    ensures quote >= q0
  {
    MulLe(base, size, q0);
    assert base * q0 == q0 * base && size * q0 == q0 * size && base * quote == quote * base;
    CancelLe(q0, quote, base);
  }

  lemma GrowthKeepsMarket(ram: Ram, q0: int, grown: int)
    requires MarketOk(ram, q0) && grown >= 0
    ensures MarketOk(ram.(base := ram.base + grown, maxSize := ram.maxSize + grown), q0)
  {
    assert (ram.base + grown) * ram.quote == ram.base * ram.quote + grown * ram.quote;
    assert q0 * (ram.maxSize + grown) == q0 * ram.maxSize + q0 * grown;
    MulLe(q0, ram.quote, grown);
    assert grown * ram.quote == ram.quote * grown;
  }

  ghost function MarketAfterBuy(ram: Ram, paid: int, bytes: int): Ram {
    ram.(quote := ram.quote + paid, base := ram.base - bytes, reserved := ram.reserved + bytes, stake := ram.stake + paid)
  }

  ghost function MarketAfterSale(ram: Ram, bytes: int, tokens: int): Ram {
    ram.(base := ram.base + bytes, quote := ram.quote - tokens, reserved := ram.reserved - bytes, stake := ram.stake - tokens)
  }

  lemma BuyKeepsMarket(ram: Ram, q0: int, paid: int)
    requires MarketOk(ram, q0) && paid > 0
    ensures var bytes := BancorOutput(ram.quote, ram.base, paid);
            0 <= bytes <= ram.base && MarketOk(MarketAfterBuy(ram, paid, bytes), q0)
  {
    BancorWithinReserve(ram.quote, ram.base, paid);
    BancorKeepsProduct(ram.quote, ram.base, paid);
    var bytes := BancorOutput(ram.quote, ram.base, paid);
    assert (ram.quote + paid) * (ram.base - bytes) == (ram.base - bytes) * (ram.quote + paid);
    assert ram.quote * ram.base == ram.base * ram.quote;
    hide BancorOutput;
  }

  /** Selling reserved bytes cannot drive the staked total below zero. */
  lemma SaleKeepsMarket(ram: Ram, q0: int, bytes: int)
    requires MarketOk(ram, q0) && 0 < bytes <= ram.reserved
    ensures var tokens := RamProceeds(ram, bytes);
            && 0 <= tokens <= ram.stake
            && MarketOk(MarketAfterSale(ram, bytes, tokens), q0)
  {
    BancorWithinReserve(ram.base, ram.quote, bytes);
    BancorKeepsProduct(ram.base, ram.quote, bytes);
    QuoteAtLeastInitial(ram.base + bytes, ram.quote - RamProceeds(ram, bytes), ram.maxSize, q0);
  }

  // ---------- quotas ----------

  lemma RamRowsUpdate(m: map<Name, Resources>, k: Name, row: Resources)
    ensures Sum(RamRows(m[k := row])) == Sum(RamRows(m)) - ResourcesOf(m, k).ram + row.ram
    ensures NonNegative(RamRows(m)) && row.ram >= 0 ==> NonNegative(RamRows(m[k := row]))
  {
    assert RamRows(m[k := row]) == RamRows(m)[k := row.ram];
    SumUpdate(RamRows(m), k, row.ram);
  }

  lemma QuotaWithinReserved(m: map<Name, Resources>, reserved: int, k: Name)
    requires QuotasOk(m, reserved)
    ensures 0 <= ResourcesOf(m, k).ram <= reserved
  {
    SumBoundsRow(RamRows(m), k);
  }

  /** Changing bandwidth limits, even when it erases a row, leaves the quotas alone. */
  lemma LimitsKeepQuotas(m: map<Name, Resources>, receiver: Name, net: int, cpu: int, reserved: int)
    requires QuotasOk(m, reserved) && AddToLimits(m, receiver, net, cpu).Ok?
    ensures QuotasOk(AddToLimits(m, receiver, net, cpu).value, reserved)
  {
    var was := ResourcesOf(m, receiver);
    var row := was.(net := was.net + net, cpu := was.cpu + cpu);
    QuotaWithinReserved(m, reserved, receiver);
    if row.net == 0 && row.cpu == 0 && row.ram == 0 {
      assert RamRows(m - {receiver}) == RamRows(m) - {receiver};
      SumErase(RamRows(m), receiver);
    } else {
      RamRowsUpdate(m, receiver, row);
    }
  }

  lemma ChangeLimitKeepsQuotas(s: State, kind: Kind, receiver: Name, delta: int, reserved: int)
    requires QuotasOk(s.resources, reserved) && ChangeLimit(s, kind, receiver, delta).Ok?
    ensures QuotasOk(ChangeLimit(s, kind, receiver, delta).value.resources, reserved)
  {
    hide QuotasOk, AddToLimits;
    if delta != 0 {
      LimitsKeepQuotas(s.resources, receiver, if kind.Net? then delta else 0, if kind.Cpu? then delta else 0, reserved);
    }
  }

  lemma {:induction false} ProcessLoansKeepsQuotas(s: State, kind: Kind, max: nat, reserved: int)
    requires QuotasOk(s.resources, reserved) && s.pool.Some? && ProcessLoans(s, kind, max).Ok?
    ensures QuotasOk(ProcessLoans(s, kind, max).value.resources, reserved)
    decreases max
  {
    if max > 0 && HasExpiredLoan(s, kind) {
      ProcessExpiredKeepsQuotas(s, kind, reserved);
      hide QuotasOk, RenewLoan, CloseLoan, Renews;
      ProcessLoansKeepsQuotas(ProcessExpiredLoan(s, kind).value, kind, max - 1, reserved);
    }
  }

  lemma ProcessExpiredKeepsQuotas(s: State, kind: Kind, reserved: int)
    requires QuotasOk(s.resources, reserved) && s.pool.Some? && HasExpiredLoan(s, kind) && ProcessExpiredLoan(s, kind).Ok?
    ensures QuotasOk(ProcessExpiredLoan(s, kind).value.resources, reserved)
    ensures ProcessExpiredLoan(s, kind).value.pool.Some?
  {
    hide QuotasOk, ChangeLimit, PayIntoFund, PoolAfterRelease, AddLoan, InsertLoan;
    var l := s.Loans(kind)[0];
    if Renews(s, kind) {
      var rented := RentedAgain(s, kind);
      var s0 := s.(pool := Some(AddLoan(PoolAfterRelease(s, kind), l.payment, rented, false)))
                 .WithLoans(kind, InsertLoan(s.Loans(kind)[1..], Renewed(l, rented)));
      ChangeLimitKeepsQuotas(s0, kind, l.receiver, rented - l.staked, reserved);
      ChangeLimitFrame(s0, kind, l.receiver, rented - l.staked);
    } else {
      var s0 := s.(pool := Some(PoolAfterRelease(s, kind)));
      PayIntoFundFrame(s0, l.from, l.balance);
      var s1 := PayIntoFund(s0, l.from, l.balance).value;
      ChangeLimitKeepsQuotas(s1, kind, l.receiver, -l.staked, reserved);
      ChangeLimitFrame(s1, kind, l.receiver, -l.staked);
    }
  }

  lemma RunRexKeepsQuotas(s: State, max: nat, reserved: int)
    requires QuotasOk(s.resources, reserved) && RunRex(s, max).Ok?
    ensures QuotasOk(RunRex(s, max).value.resources, reserved)
    ensures RunRex(s, max).value.ram == s.ram
    ensures Held(RunRex(s, max).value.tokens, RAM_ACCOUNT) == Held(s.tokens, RAM_ACCOUNT)
    ensures Held(RunRex(s, max).value.tokens, STAKE_ACCOUNT) == Held(s.tokens, STAKE_ACCOUNT)
    ensures RunRex(s, max).value.delegations == s.delegations && RunRex(s, max).value.refunds == s.refunds
  {
    hide QuotasOk, ProcessLoans, ProcessOrders;
    ChannelNamebidsFrame(s);
    var s1 := ChannelNamebids(s).value;
    ProcessLoansKeepsQuotas(s1, Cpu, max, reserved);
    ProcessLoansFrame(s1, Cpu, max);
    var s2 := ProcessLoans(s1, Cpu, max).value;
    assert s2.pool.Some? by { ProcessLoansKeepsPool(s1, Cpu, max); }
    ProcessLoansKeepsQuotas(s2, Net, max, reserved);
    ProcessLoansFrame(s2, Net, max);
    ProcessOrdersFrame(ProcessLoans(s2, Net, max).value, 0, max);
    NamebidsTouchTwoAccounts(s);
  }

  lemma NamebidsTouchTwoAccounts(s: State)
    requires s.pool.Some? && ChannelNamebids(s).Ok?
    ensures forall x :: x != NAMES_ACCOUNT && x != REX_ACCOUNT ==> Held(ChannelNamebids(s).value.tokens, x) == Held(s.tokens, x)
  {
    hide TransferTokens;
    if s.pool.value.namebid > 0 {
      ChannelTouchesTwoAccounts(s, NAMES_ACCOUNT, s.pool.value.namebid);
    }
    hide ChannelToRex;
  }

  lemma ChannelTouchesTwoAccounts(s: State, from: Name, amount: int)
    requires ChannelToRex(s, from, amount).Ok?
    ensures forall x :: x != from && x != REX_ACCOUNT ==> Held(ChannelToRex(s, from, amount).value.tokens, x) == Held(s.tokens, x)
  {
    hide TransferTokens;
    if RexAvailable(s.pool) {
      var p := s.pool.value;
      TransferMoves(s.(pool := Some(p.(unlent := p.unlent + amount, lendable := p.lendable + amount))), from, REX_ACCOUNT, amount);
    }
  }

  lemma {:induction false} ProcessLoansKeepsPool(s: State, kind: Kind, max: nat)
    requires s.pool.Some? && ProcessLoans(s, kind, max).Ok?
    ensures ProcessLoans(s, kind, max).value.pool.Some?
    decreases max
  {
    if max > 0 && HasExpiredLoan(s, kind) {
      if Renews(s, kind) {
        RenewLoanFrame(s, kind);
      } else {
        CloseLoanFrame(s, kind);
      }
      hide RenewLoan, CloseLoan, Renews;
      ProcessLoansKeepsPool(ProcessExpiredLoan(s, kind).value, kind, max - 1);
    }
  }

  // ---------- RAM actions ----------

  lemma SupplyKeepsRam(s: State, q0: int)
    requires RamOk(s, q0)
    ensures RamOk(UpdateRamSupply(s), q0)
    ensures UpdateRamSupply(s) == s.(ram := UpdateRamSupply(s).ram) && UpdateRamSupply(s).ram.stake == s.ram.stake
  {
    var slot := BlockSlot(s.now);
    hide BlockSlot, QuotasOk;
    if slot > s.ram.lastIncrease {
      var grown := ((slot - s.ram.lastIncrease) * s.ram.rate) % 0x1_0000_0000;
      GrowthKeepsMarket(s.ram, q0, grown);
    }
  }

  lemma SetRamKeepsRam(s: State, q0: int, size: int)
    requires RamOk(s, q0) && SetRam(s, size).Ok?
    ensures RamOk(SetRam(s, size).value, q0)
  {
    GrowthKeepsMarket(s.ram, q0, size - s.ram.maxSize);
  }

  lemma ReserveKeepsRam(s: State, q0: int, receiver: Name, paid: int)
    requires RamOk(s, q0) && paid > 0 && ReserveRam(s, receiver, paid).Ok?
    ensures RamOk(ReserveRam(s, receiver, paid).value, q0)
    ensures ReserveRam(s, receiver, paid).value.ram.stake == s.ram.stake + paid
  {
    BuyKeepsMarket(s.ram, q0, paid);
    hide BancorOutput, MarketOk;
    var row := ResourcesOf(s.resources, receiver);
    var bytes := BancorOutput(s.ram.quote, s.ram.base, paid);
    QuotaWithinReserved(s.resources, s.ram.reserved, receiver);
    RamRowsUpdate(s.resources, receiver, row.(ram := row.ram + bytes));
  }

  /** Releasing bytes within a quota never fails the check on the staked total. */
  lemma ReleaseKeepsRam(s: State, q0: int, account: Name, bytes: int)
    requires RamOk(s, q0) && bytes > 0
    ensures ReleaseRam(s, account, bytes) != Abort(RamStakeNegative)
    ensures ReleaseRam(s, account, bytes).Ok? ==>
              && RamOk(ReleaseRam(s, account, bytes).value, q0)
              && ReleaseRam(s, account, bytes).value.ram.stake == s.ram.stake - RamProceeds(s.ram, bytes)
              && 0 <= RamProceeds(s.ram, bytes) <= s.ram.stake
  {
    if account in s.resources && bytes <= s.resources[account].ram {
      QuotaWithinReserved(s.resources, s.ram.reserved, account);
      SaleKeepsMarket(s.ram, q0, bytes);
      hide RamProceeds, MarketOk;
      var row := s.resources[account];
      RamRowsUpdate(s.resources, account, row.(ram := row.ram - bytes));
    }
  }

  lemma PayRamFeeFrame(s: State, payer: Name, fee: int)
    requires PayRamFee(s, payer, fee).Ok?
    ensures var s' := PayRamFee(s, payer, fee).value;
            && s' == s.(pool := s'.pool, tokens := s'.tokens)
            && forall x :: x != payer && x != RAMFEE_ACCOUNT && x != REX_ACCOUNT ==> Held(s'.tokens, x) == Held(s.tokens, x)
  {
  }

  /** A purchase keeps the market, and the tokens it stakes arrive on celes.ram. */
  lemma BuyRamKeepsRam(s: State, q0: int, payer: Name, receiver: Name, quant: int)
    requires RamOk(s, q0) && BuyRam(s, payer, receiver, quant).Ok?
    ensures var s' := BuyRam(s, payer, receiver, quant).value;
            && RamOk(s', q0)
            && (payer != RAM_ACCOUNT ==>
                  Held(s'.tokens, RAM_ACCOUNT) - s'.ram.stake == Held(s.tokens, RAM_ACCOUNT) - s.ram.stake)
  {
    SupplyKeepsRam(s, q0);
    hide RamOk, TransferTokens, PayRamFee, RamFee, UpdateRamSupply;
    var s0 := UpdateRamSupply(s);
    var paid := quant - RamFee(quant);
    TransferMoves(s0, payer, RAM_ACCOUNT, paid);
    var s1 := TransferTokens(s0, payer, RAM_ACCOUNT, paid).value;
    PayRamFeeFrame(s1, payer, RamFee(quant));
    var s2 := PayRamFee(s1, payer, RamFee(quant)).value;
    assert RamOk(s2, q0) by { RamFrame(s0, s2, q0); }
    ReserveKeepsRam(s2, q0, receiver, paid);
  }

  lemma RamFrame(s: State, s': State, q0: int)
    requires RamOk(s, q0) && s'.ram == s.ram && s'.resources == s.resources
    ensures RamOk(s', q0)
  {
  }

  lemma SellRamKeepsRam(s: State, q0: int, account: Name, bytes: int)
    requires RamOk(s, q0)
    ensures SellRam(s, account, bytes) != Abort(RamStakeNegative)
    ensures SellRam(s, account, bytes).Ok? ==>
              var s' := SellRam(s, account, bytes).value;
              && RamOk(s', q0)
              && (account != RAM_ACCOUNT ==>
                    Held(s'.tokens, RAM_ACCOUNT) - s'.ram.stake == Held(s.tokens, RAM_ACCOUNT) - s.ram.stake)
  {
    SupplyKeepsRam(s, q0);
    hide RamOk, RamFee, UpdateRamSupply, RamProceeds;
    if bytes > 0 {
      var s0 := UpdateRamSupply(s);
      ReleaseKeepsRam(s0, q0, account, bytes);
      hide ReleaseRam;
      var tokens := RamProceeds(s0.ram, bytes);
      if SellRam(s, account, bytes).Ok? {
        var s1 := ReleaseRam(s0, account, bytes).value;
        assert s1.tokens == s0.tokens by { ReleaseFrame(s0, account, bytes); }
        TransferMoves(s1, RAM_ACCOUNT, account, tokens);
        var s2 := TransferTokens(s1, RAM_ACCOUNT, account, tokens).value;
        PayRamFeeFrame(s2, account, RamFee(tokens));
        RamFrame(s1, SellRam(s, account, bytes).value, q0);
      }
    }
  }

  lemma ReleaseFrame(s: State, account: Name, bytes: int)
    requires ReleaseRam(s, account, bytes).Ok?
    ensures var s' := ReleaseRam(s, account, bytes).value;
            s' == s.(ram := s'.ram, resources := s'.resources)
  {
  }

  /** Whoever holds a quota can sell it: celes.ram always has the tokens. */
  lemma SellRamIsFunded(s: State, q0: int, account: Name, bytes: int)
    requires RamOk(s, q0) && Held(s.tokens, RAM_ACCOUNT) >= s.ram.stake
    requires Held(s.tokens, RAMFEE_ACCOUNT) >= 0 && Held(s.tokens, account) >= 0
    requires account != RAM_ACCOUNT && account != RAMFEE_ACCOUNT
    requires account in s.resources && 0 < bytes <= s.resources[account].ram
    requires RamProceeds(UpdateRamSupply(s).ram, bytes) > 1
    ensures SellRam(s, account, bytes).Ok?
  {
    SupplyKeepsRam(s, q0);
    hide RamOk, UpdateRamSupply, RamProceeds;
    var s0 := UpdateRamSupply(s);
    ReleaseKeepsRam(s0, q0, account, bytes);
    QuotaSellable(s0, q0, account, bytes);
    ReleaseFrame(s0, account, bytes);
    hide ReleaseRam;
    var tokens := RamProceeds(s0.ram, bytes);
    assert 0 < RamFee(tokens) <= tokens;
    hide RamFee;
    var s1 := ReleaseRam(s0, account, bytes).value;
    TransferMoves(s1, RAM_ACCOUNT, account, tokens);
    var s2 := TransferTokens(s1, RAM_ACCOUNT, account, tokens).value;
    TransferMoves(s2, account, RAMFEE_ACCOUNT, RamFee(tokens));
  }

  lemma QuotaSellable(s: State, q0: int, account: Name, bytes: int)
    requires RamOk(s, q0) && account in s.resources && 0 < bytes <= s.resources[account].ram
    requires RamProceeds(s.ram, bytes) > 1
    ensures ReleaseRam(s, account, bytes).Ok?
  {
    hide RamProceeds;
    ReleaseKeepsRam(s, q0, account, bytes);
  }
}
