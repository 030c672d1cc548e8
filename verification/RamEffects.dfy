/** What trading and resizing RAM does to the tables. */
module RamEffects {
  import opened Arithmetic
  import opened Outcomes
  import opened RexState
  import opened RexActions
  import opened MapSums
  import opened RexPool
  import opened RexPrices
  import opened RexSteps
  import opened RexLedger
  import opened RamMarket
  import opened RexEffects

  // ---------- supply ----------

  /** One half-second slot after the other adds the rate, the total taken modulo 2^32; the connector grows with the size. */
  lemma SupplyExactly(s: State, slot: nat)
    requires slot * 500_000 <= s.now < slot * 500_000 + 500_000
    ensures var ram := UpdateRamSupply(s).ram;
            && UpdateRamSupply(s) == s.(ram := ram)
            && (if slot <= s.ram.lastIncrease then ram == s.ram
                else
                  && ram.lastIncrease == slot && ram.base - s.ram.base == ram.maxSize - s.ram.maxSize
                  && 0 <= ram.maxSize - s.ram.maxSize < 0x1_0000_0000
                  && ((slot - s.ram.lastIncrease) * s.ram.rate - (ram.maxSize - s.ram.maxSize)) % 0x1_0000_0000 == 0
                  && ram.(maxSize := s.ram.maxSize, base := s.ram.base, lastIncrease := s.ram.lastIncrease) == s.ram)
  {
    DivUnique(s.now, 500_000, slot, s.now - slot * 500_000);
    var total, full := (slot - s.ram.lastIncrease) * s.ram.rate, 0x1_0000_0000;
    DivBounds(total, full);
    DivUnique(total - total % full, full, total / full, 0);
  }

  /** The size can only be raised, below 2^50 bytes. */
  lemma SetRamExactly(s: State, size: int)
    ensures SetRam(s, size).Ok? <==> s.ram.maxSize < size < 1024 * 1024 * 1024 * 1024 * 1024 && size > s.ram.reserved
    ensures SetRam(s, size).Ok? ==>
              var s' := SetRam(s, size).value;
              && s' == s.(ram := s'.ram) && s'.ram.maxSize == size && s'.ram.base - s.ram.base == size - s.ram.maxSize
              && s'.ram.(maxSize := s.ram.maxSize, base := s.ram.base) == s.ram
  {
  }

  /** A new rate counts from now on: the old one is settled first. */
  lemma SetRateExactly(s: State, rate: nat)
    ensures SetRamRate(s, rate).Ok?
    ensures var s0, s' := UpdateRamSupply(s), SetRamRate(s, rate).value;
            s'.ram.rate == rate && s'.ram.(rate := s.ram.rate) == s0.ram && s'.(ram := s.ram) == s
  {
  }

  // ---------- fees ----------

  /** The fee is half a percent, rounded up. */
  lemma FeeExactly(amount: int)
    requires amount > 0
    ensures 200 * (RamFee(amount) - 1) < amount <= 200 * RamFee(amount) && 0 < RamFee(amount) <= amount
  {
  }

  /** The account that ends up with the fees: celes.rex while there is REX. */
  ghost function FeeTaker(s: State): Name {
    if RexOf(s.pool) > 0 then REX_ACCOUNT else RAMFEE_ACCOUNT
  }

  /** While there is REX the pool takes in the fee. */
  ghost predicate PoolTakes(s: State, s': State, fee: int) {
    if RexOf(s.pool) > 0 then
      s'.pool == Some(s.pool.value.(unlent := s.pool.value.unlent + fee, lendable := s.pool.value.lendable + fee))
    else s'.pool == s.pool
  }

  lemma PayFeeExactly(s: State, payer: Name, fee: int)
    requires fee > 0 && PayRamFee(s, payer, fee).Ok?
    ensures var s' := PayRamFee(s, payer, fee).value;
            s' == s.(tokens := s'.tokens, pool := s'.pool) && PoolTakes(s, s', fee) && TokensMove(s, s', payer, FeeTaker(s), fee)
  {
    hide TransferTokens;
    TransferExactly(s, payer, RAMFEE_ACCOUNT, fee);
    var s1 := TransferTokens(s, payer, RAMFEE_ACCOUNT, fee).value;
    if RexAvailable(s1.pool) {
      var p := s1.pool.value;
      var s2 := s1.(pool := Some(p.(unlent := p.unlent + fee, lendable := p.lendable + fee)));
      TransferExactly(s2, RAMFEE_ACCOUNT, REX_ACCOUNT, fee);
    }
  }

  // ---------- trades ----------

  /** The quota of one account changes, every other quota and every limit stays. */
  ghost predicate QuotaMoves(s: State, s': State, account: Name, bytes: int) {
    forall x: Name ::
      var was, now := ResourcesOf(s.resources, x), ResourcesOf(s'.resources, x);
      now == was.(ram := was.ram + if x == account then bytes else 0)
  }

  /** `paid` goes from one account to another, and a fee from one of them to the taker of the fees. */
  ghost predicate TradeMoves(s: State, s': State, from: Name, to: Name, paid: int, payer: Name, fee: int) {
    forall x: Name ::
      Held(s'.tokens, x) == Held(s.tokens, x) + (if x == to then paid else 0) - (if x == from then paid else 0)
                            + (if x == FeeTaker(s) then fee else 0) - (if x == payer then fee else 0)
  }

  /**
   * A purchase of RAM: the payer pays, less half a percent that goes to the pool,
   * the market takes in the rest, and the receiver's quota grows by the largest
   * amount the market gives for it.
   */
  lemma BuyRamExactly(s: State, payer: Name, receiver: Name, quant: int, q0: int)
    requires RamOk(s, q0) && BuyRam(s, payer, receiver, quant).Ok?
    ensures quant > 0
    ensures var s' := BuyRam(s, payer, receiver, quant).value;
            var market := UpdateRamSupply(s).ram;
            var fee := RamFee(quant);
            var paid := quant - fee;
            var bytes := s'.ram.reserved - s.ram.reserved;
            && s' == s.(tokens := s'.tokens, pool := s'.pool, ram := s'.ram, resources := s'.resources)
            && bytes > 0 && paid > 0 && IsFloor(bytes, paid * market.base, market.quote + paid)
            && s'.ram == market.(quote := market.quote + paid, base := market.base - bytes,
                                 reserved := market.reserved + bytes, stake := market.stake + paid)
            && QuotaMoves(s, s', receiver, bytes)
            && TradeMoves(s, s', payer, RAM_ACCOUNT, paid, payer, fee) && PoolTakes(s, s', fee)
  {
    hide UpdateRamSupply, RamFee, TransferTokens, PayRamFee, BancorOutput, QuotasOk, TradeMoves, PoolTakes;
    SupplyFrame(s);
    SupplyKeepsRam(s, q0);
    SupplyKeepsReserved(s);
    var s0 := UpdateRamSupply(s);
    var fee := RamFee(quant);
    FeeExactly(quant);
    var paid := quant - fee;
    TransferExactly(s0, payer, RAM_ACCOUNT, paid);
    var s1 := TransferTokens(s0, payer, RAM_ACCOUNT, paid).value;
    PayFeeExactly(s1, payer, fee);
    var s2 := PayRamFee(s1, payer, fee).value;
    BancorIsFloor(s0.ram.quote, s0.ram.base, paid);
    PoolTakesSame(s, s1, s2, BuyRam(s, payer, receiver, quant).value, fee);
    MovesSame(s, s0, s1, s2, BuyRam(s, payer, receiver, quant).value, payer, RAM_ACCOUNT, paid, payer, fee);
  }

  lemma SupplyKeepsReserved(s: State)
    ensures UpdateRamSupply(s).ram.reserved == s.ram.reserved
  {
  }

  lemma PoolTakesSame(s: State, s1: State, s2: State, s': State, fee: int)
    requires s1.pool == s.pool && PoolTakes(s1, s2, fee) && s'.pool == s2.pool
    ensures PoolTakes(s, s', fee)
  {
  }

  lemma MovesSame(s: State, s0: State, s1: State, s2: State, s': State, from: Name, to: Name, paid: int, payer: Name, fee: int)
    requires s0.tokens == s.tokens && s1.pool == s.pool && TokensMove(s0, s1, from, to, paid)
    requires TokensMove(s1, s2, payer, FeeTaker(s1), fee) && s'.tokens == s2.tokens
    ensures TradeMoves(s, s', from, to, paid, payer, fee)
  {
  }

  /**
   * A sale of RAM: the account's quota shrinks by the bytes, the market pays the
   * largest amount it gives for them, and half a percent of that goes to the pool.
   */
  lemma SellRamExactly(s: State, account: Name, bytes: int, q0: int)
    requires RamOk(s, q0) && SellRam(s, account, bytes).Ok?
    ensures 0 < bytes <= ResourcesOf(s.resources, account).ram
    ensures var s' := SellRam(s, account, bytes).value;
            var market := UpdateRamSupply(s).ram;
            var tokens := s.ram.stake - s'.ram.stake;
            var fee := RamFee(tokens);
            && s' == s.(tokens := s'.tokens, pool := s'.pool, ram := s'.ram, resources := s'.resources)
            && tokens > 1 && IsFloor(tokens, bytes * market.quote, market.base + bytes)
            && s'.ram == market.(base := market.base + bytes, quote := market.quote - tokens,
                                 reserved := market.reserved - bytes, stake := market.stake - tokens)
            && QuotaMoves(s, s', account, -bytes)
            && TradeMoves(s, s', RAM_ACCOUNT, account, tokens, account, fee) && PoolTakes(s, s', fee)
  {
    hide UpdateRamSupply, RamFee, TransferTokens, PayRamFee, BancorOutput, QuotasOk, TradeMoves, PoolTakes;
    SupplyFrame(s);
    SupplyKeepsRam(s, q0);
    SupplyKeepsStake(s);
    var s0 := UpdateRamSupply(s);
    var tokens := RamProceeds(s0.ram, bytes);
    FeeExactly(tokens);
    BancorIsFloor(s0.ram.base, s0.ram.quote, bytes);
    var s1 := ReleaseRam(s0, account, bytes).value;
    TransferExactly(s1, RAM_ACCOUNT, account, tokens);
    var s2 := TransferTokens(s1, RAM_ACCOUNT, account, tokens).value;
    PayFeeExactly(s2, account, RamFee(tokens));
    var s3 := PayRamFee(s2, account, RamFee(tokens)).value;
    PoolTakesSame(s, s2, s3, s3, RamFee(tokens));
    MovesSame(s, s1, s2, s3, s3, RAM_ACCOUNT, account, tokens, account, RamFee(tokens));
  }

  lemma SupplyKeepsStake(s: State)
    ensures UpdateRamSupply(s).ram.stake == s.ram.stake
  {
  }
}
