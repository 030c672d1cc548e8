/** What delegating, undelegating and refunding do to the tables, and who owns what is staked. */
module StakeEffects {
  import opened Outcomes
  import opened RexState
  import opened RexActions
  import opened MapSums
  import opened RexBooks
  import opened RexSteps
  import opened RexLedger
  import opened Bandwidth
  import opened Staking
  import opened RamMarket
  import opened RexRuns
  import opened RexTheorems
  import opened RexIsolation
  import opened RexEffects
  import opened RexLoanEffects

  // ---------- one delegation ----------

  /** One delegation changes by (net, cpu), every other one stays; an empty one has no row. */
  ghost predicate DelegationMoves(s: State, s': State, owner: Name, receiver: Name, net: int, cpu: int) {
    forall a: Name, b: Name ::
      var was, now := DelegationOf(s.delegations, a, b), DelegationOf(s'.delegations, a, b);
      if a == owner && b == receiver then
        && now == Weights(was.net + net, was.cpu + cpu)
        && ((a, b) in s'.delegations <==> now != Weights(0, 0))
      else now == was && ((a, b) in s'.delegations <==> (a, b) in s.delegations)
  }

  /** Both limits of one receiver change, every other limit and every quota stays. */
  ghost predicate LimitsMove(s: State, s': State, receiver: Name, net: int, cpu: int) {
    forall x: Name ::
      var was, now := ResourcesOf(s.resources, x), ResourcesOf(s'.resources, x);
      && now.ram == was.ram
      && now.net == was.net + (if x == receiver then net else 0) && now.cpu == was.cpu + (if x == receiver then cpu else 0)
  }

  lemma AddDelegationExactly(s: State, owner: Name, receiver: Name, net: int, cpu: int)
    ensures var was := DelegationOf(s.delegations, owner, receiver);
            AddDelegation(s, owner, receiver, net, cpu).Ok? <==> was.net + net >= 0 && was.cpu + cpu >= 0
    ensures AddDelegation(s, owner, receiver, net, cpu).Ok? ==>
              var s' := AddDelegation(s, owner, receiver, net, cpu).value;
              s' == s.(delegations := s'.delegations) && DelegationMoves(s, s', owner, receiver, net, cpu)
  {
  }

  // ---------- refunds ----------

  /** The pending refund of an account; (0, 0) if there is none. */
  ghost function RefundAt(s: State, owner: Name): (int, int) {
    if owner in s.refunds then (s.refunds[owner].net, s.refunds[owner].cpu) else (0, 0)
  }

  ghost function Larger(a: int, b: int): int {
    if a > b then a else b
  }

  /** Stake that a pending refund does not cover. */
  ghost function Uncovered(s: State, owner: Name, net: int, cpu: int): int {
    Larger(net - RefundAt(s, owner).0, 0) + Larger(cpu - RefundAt(s, owner).1, 0)
  }

  /**
   * The refund of one account after (net, cpu) more has been staked, or with
   * negative numbers unstaked: what was pending is used first, unstaking starts
   * the three days again, an empty refund has no row, and no other refund moves.
   */
  ghost predicate RefundMoves(s: State, s': State, owner: Name, net: int, cpu: int) {
    && (forall x: Name :: x != owner ==> (x in s'.refunds <==> x in s.refunds) && (x in s.refunds ==> s'.refunds[x] == s.refunds[x]))
    && RefundAt(s', owner) == (Larger(RefundAt(s, owner).0 - net, 0), Larger(RefundAt(s, owner).1 - cpu, 0))
    && (owner in s'.refunds <==> RefundAt(s', owner) != (0, 0))
    && (owner in s'.refunds ==>
          if net < 0 || cpu < 0 then s'.refunds[owner].requested == Seconds(s.now)
          else owner in s.refunds && s'.refunds[owner].requested == s.refunds[owner].requested)
  }

  lemma NetRefundExactly(s: State, owner: Name, net: int, cpu: int)
    requires RefundsOk(s.refunds)
    requires (net >= 0 && cpu >= 0) || (net <= 0 && cpu <= 0)
    ensures var r := NetRefund(s.refunds, owner, net, cpu, Seconds(s.now));
            && r.Ok? && r.value.1 == Uncovered(s, owner, net, cpu)
            && RefundMoves(s, s.(refunds := r.value.0), owner, net, cpu)
  {
  }

  // ---------- staking and unstaking ----------

  /** Stake to be paid for: a refund of the same account is used up first where the source nets it. */
  ghost function Due(s: State, source: Name, owner: Name, nets: bool, net: int, cpu: int): int {
    if source == STAKE_ACCOUNT then 0 else if nets then Uncovered(s, owner, net, cpu) else net + cpu
  }

  /** What a change of stake does: one delegation, one receiver's limits, the owner's refund, and a payment by the source. */
  ghost predicate StakeMoves(s: State, s': State, source: Name, owner: Name, receiver: Name, nets: bool, net: int, cpu: int) {
    && s' == s.(delegations := s'.delegations, resources := s'.resources, refunds := s'.refunds, tokens := s'.tokens)
    && DelegationMoves(s, s', owner, receiver, net, cpu) && LimitsMove(s, s', receiver, net, cpu)
    && (if nets && source != STAKE_ACCOUNT then RefundMoves(s, s', owner, net, cpu) else s'.refunds == s.refunds)
    && TokensMove(s, s', source, STAKE_ACCOUNT, Due(s, source, owner, nets, net, cpu))
  }

  lemma PayStakeExactly(s: State, source: Name, due: int)
    requires due >= 0 && source != STAKE_ACCOUNT
    ensures PayStake(s, source, due).Ok? <==> due == 0 || due <= Held(s.tokens, source)
    ensures PayStake(s, source, due).Ok? ==>
              var s' := PayStake(s, source, due).value;
              s' == s.(tokens := s'.tokens) && TokensMove(s, s', source, STAKE_ACCOUNT, due)
  {
    if due > 0 {
      TransferExactly(s, source, STAKE_ACCOUNT, due);
      hide TransferTokens;
    }
  }

  ghost predicate OneSign(net: int, cpu: int) {
    ((net >= 0 && cpu >= 0) || (net <= 0 && cpu <= 0)) && net + cpu != 0
  }

  lemma UncoveredNonNegative(s: State, owner: Name, net: int, cpu: int)
    ensures Uncovered(s, owner, net, cpu) >= 0
    ensures net <= 0 && cpu <= 0 && RefundsOk(s.refunds) ==> Uncovered(s, owner, net, cpu) == 0
  {
  }

  lemma SettleStakeExactly(s: State, source: Name, owner: Name, nets: bool, net: int, cpu: int)
    requires RefundsOk(s.refunds) && OneSign(net, cpu) && (nets || net + cpu >= 0)
    ensures var due := Due(s, source, owner, nets, net, cpu);
            && due >= 0 && (SettleStake(s, source, owner, nets, net, cpu).Ok? <==> due == 0 || due <= Held(s.tokens, source))
    ensures SettleStake(s, source, owner, nets, net, cpu).Ok? ==>
              var s' := SettleStake(s, source, owner, nets, net, cpu).value;
              && s' == s.(refunds := s'.refunds, tokens := s'.tokens)
              && (if nets && source != STAKE_ACCOUNT then RefundMoves(s, s', owner, net, cpu) else s'.refunds == s.refunds)
              && TokensMove(s, s', source, STAKE_ACCOUNT, Due(s, source, owner, nets, net, cpu))
  {
    hide RefundsOk, NetRefund, PayStake, Uncovered;
    if source != STAKE_ACCOUNT {
      if nets {
        NetRefundExactly(s, owner, net, cpu);
        UncoveredNonNegative(s, owner, net, cpu);
        var netted := NetRefund(s.refunds, owner, net, cpu, Seconds(s.now)).value;
        PayStakeExactly(s.(refunds := netted.0), source, netted.1);
        if PayStake(s.(refunds := netted.0), source, netted.1).Ok? {
          SameRefunds(s, s.(refunds := netted.0), PayStake(s.(refunds := netted.0), source, netted.1).value, owner, net, cpu);
        }
      } else {
        PayStakeExactly(s, source, net + cpu);
      }
    }
  }

  lemma SameRefunds(s: State, s1: State, s': State, owner: Name, net: int, cpu: int)
    requires RefundMoves(s, s1, owner, net, cpu) && s'.refunds == s1.refunds
    ensures RefundMoves(s, s', owner, net, cpu)
  {
  }

  lemma LimitsExactly(s: State, s': State, receiver: Name, net: int, cpu: int)
    requires AddToLimits(s.resources, receiver, net, cpu).Ok? && s'.resources == AddToLimits(s.resources, receiver, net, cpu).value
    ensures LimitsMove(s, s', receiver, net, cpu)
  {
    forall x: Name {
      AddToLimitsExactly(s.resources, receiver, net, cpu, x);
    }
    hide AddToLimits;
  }

  lemma OneSignIsSameSign(net: int, cpu: int)
    requires OneSign(net, cpu)
    ensures SameSign(net, cpu)
  {
  }

  /**
   * A change of stake of one sign succeeds exactly when the delegation covers it
   * and the source can pay what is due. With `transfer` the receiver owns the
   * stake, otherwise the source does.
   */
  lemma ChangeExactly(s: State, source: Name, receiver: Name, net: int, cpu: int, transfer: bool)
    requires Books(s) && LimitsOk(s) && RefundsOk(s.refunds) && OneSign(net, cpu)
    ensures var owner := if transfer then receiver else source;
            var was := DelegationOf(s.delegations, owner, receiver);
            var nets := (!transfer && owner == receiver) || net + cpu < 0;
            var due := Due(s, source, owner, nets, net, cpu);
            var r := ChangeBandwidth(s, source, receiver, net, cpu, transfer);
            && (r.Ok? <==> was.net + net >= 0 && was.cpu + cpu >= 0 && (due == 0 || due <= Held(s.tokens, source)))
            && (r.Ok? ==> StakeMoves(s, r.value, source, owner, receiver, nets, net, cpu))
  {
    hide Books, LimitsOk, RefundsOk, SameSign, AddDelegation, AddToLimits, SettleStake, DelegationMoves, LimitsMove,
      RefundMoves, TokensMove, Due, DelegationOf, StakeMoves;
    ChangeBandwidthKeepsLimits(s, source, receiver, net, cpu, transfer);
    OneSignIsSameSign(net, cpu);
    var owner := if transfer then receiver else source;
    AddDelegationExactly(s, owner, receiver, net, cpu);
    if AddDelegation(s, owner, receiver, net, cpu).Ok? {
      var s1 := AddDelegation(s, owner, receiver, net, cpu).value;
      LimitsFailUnreachably(s1.resources, receiver, net, cpu);
      if AddToLimits(s1.resources, receiver, net, cpu).Ok? {
        var s2 := s1.(resources := AddToLimits(s1.resources, receiver, net, cpu).value);
        var nets := (!transfer && owner == receiver) || net + cpu < 0;
        SettleStakeExactly(s2, source, owner, nets, net, cpu);
        DueFrame(s, s2, source, owner, nets, net, cpu);
        if SettleStake(s2, source, owner, nets, net, cpu).Ok? {
          ChangeFrame(s, s1, s2, SettleStake(s2, source, owner, nets, net, cpu).value, source, owner, receiver, nets, net, cpu);
        }
      }
    }
  }

  lemma LimitsFailUnreachably(m: map<Name, Resources>, receiver: Name, net: int, cpu: int)
    ensures AddToLimits(m, receiver, net, cpu).Abort? ==> Unreachable(AddToLimits(m, receiver, net, cpu).check)
  {
  }

  lemma DueFrame(s: State, s2: State, source: Name, owner: Name, nets: bool, net: int, cpu: int)
    requires s2.refunds == s.refunds
    ensures Due(s2, source, owner, nets, net, cpu) == Due(s, source, owner, nets, net, cpu)
  {
  }

  lemma ChangeFrame(s: State, s1: State, s2: State, s': State, source: Name, owner: Name, receiver: Name, nets: bool, net: int, cpu: int)
    requires s1 == s.(delegations := s1.delegations) && DelegationMoves(s, s1, owner, receiver, net, cpu)
    requires AddToLimits(s1.resources, receiver, net, cpu).Ok?
    requires s2 == s1.(resources := AddToLimits(s1.resources, receiver, net, cpu).value)
    requires s' == s2.(refunds := s'.refunds, tokens := s'.tokens)
    requires if nets && source != STAKE_ACCOUNT then RefundMoves(s2, s', owner, net, cpu) else s'.refunds == s2.refunds
    requires TokensMove(s2, s', source, STAKE_ACCOUNT, Due(s2, source, owner, nets, net, cpu))
    ensures StakeMoves(s, s', source, owner, receiver, nets, net, cpu)
  {
    hide AddToLimits, Due, LimitsMove, DelegationMoves, RefundMoves, TokensMove;
    DueFrame(s, s2, source, owner, nets, net, cpu);
    LimitsExactly(s, s', receiver, net, cpu);
    SameDelegations(s, s1, s', owner, receiver, net, cpu);
    TokensMoveFrom(s, s2, s', source, STAKE_ACCOUNT, Due(s, source, owner, nets, net, cpu));
    if nets && source != STAKE_ACCOUNT {
      SameRefundsBefore(s, s2, s', owner, net, cpu);
    }
  }

  lemma SameDelegations(s: State, s1: State, s': State, owner: Name, receiver: Name, net: int, cpu: int)
    requires DelegationMoves(s, s1, owner, receiver, net, cpu) && s'.delegations == s1.delegations
    ensures DelegationMoves(s, s', owner, receiver, net, cpu)
  {
  }

  lemma TokensMoveFrom(s: State, s2: State, s': State, from: Name, to: Name, amount: int)
    requires s2.tokens == s.tokens && TokensMove(s2, s', from, to, amount)
    ensures TokensMove(s, s', from, to, amount)
  {
  }

  lemma SameRefundsBefore(s: State, s2: State, s': State, owner: Name, net: int, cpu: int)
    requires s2.refunds == s.refunds && s2.now == s.now && RefundMoves(s2, s', owner, net, cpu)
    ensures RefundMoves(s, s', owner, net, cpu)
  {
  }

  /** delegatebw: the stake belongs to the sender, or with `transfer` to the receiver; the sender pays for it. */
  lemma DelegateExactly(s: State, from: Name, receiver: Name, net: int, cpu: int, transfer: bool)
    requires Books(s) && LimitsOk(s) && RefundsOk(s.refunds)
    ensures var owner := if transfer then receiver else from;
            var nets := !transfer && from == receiver;
            var due := Due(s, from, owner, nets, net, cpu);
            var r := DelegateBandwidth(s, from, receiver, net, cpu, transfer);
            && (r.Ok? <==> && net >= 0 && cpu >= 0 && net + cpu > 0 && !(transfer && from == receiver)
                           && (due == 0 || due <= Held(s.tokens, from)))
            && (r.Ok? ==> StakeMoves(s, r.value, from, owner, receiver, nets, net, cpu))
  {
    hide Books, LimitsOk, RefundsOk, ChangeBandwidth, StakeMoves, Due;
    if net >= 0 && cpu >= 0 && net + cpu > 0 {
      ChangeExactly(s, from, receiver, net, cpu, transfer);
      DelegationsPositive(s, if transfer then receiver else from, receiver);
    }
  }

  lemma DelegationsPositive(s: State, owner: Name, receiver: Name)
    requires LimitsOk(s)
    ensures DelegationOf(s.delegations, owner, receiver).net >= 0 && DelegationOf(s.delegations, owner, receiver).cpu >= 0
  {
    hide LimitsAgree;
  }

  /** undelegatebw: the sender's own delegation shrinks into a refund of the sender; no token moves. */
  lemma UndelegateExactly(s: State, from: Name, receiver: Name, net: int, cpu: int)
    requires Books(s) && LimitsOk(s) && RefundsOk(s.refunds)
    ensures var was := DelegationOf(s.delegations, from, receiver);
            var r := UndelegateBandwidth(s, from, receiver, net, cpu);
            && (r.Ok? <==> 0 <= net <= was.net && 0 <= cpu <= was.cpu && net + cpu > 0)
            && (r.Ok? ==> StakeMoves(s, r.value, from, from, receiver, true, -net, -cpu) && Due(s, from, from, true, -net, -cpu) == 0)
  {
    hide Books, LimitsOk, ChangeBandwidth, StakeMoves, Uncovered;
    if net >= 0 && cpu >= 0 && net + cpu > 0 {
      UncoveredNonNegative(s, from, -net, -cpu);
      hide RefundsOk;
      ChangeExactly(s, from, receiver, -net, -cpu, false);
    }
  }

  // ---------- refund ----------

  /** A refund is paid to its owner, whole, three days after it was last asked for, and then has no row. */
  lemma RefundExactly(s: State, owner: Name)
    requires RefundsOk(s.refunds)
    ensures RefundStake(s, owner).Ok?
       <==> && owner in s.refunds && s.refunds[owner].requested + 3 * 24 * 3600 <= Seconds(s.now)
            && owner != STAKE_ACCOUNT && RefundAt(s, owner).0 + RefundAt(s, owner).1 <= Held(s.tokens, STAKE_ACCOUNT)
    ensures RefundStake(s, owner).Ok? ==>
              var s' := RefundStake(s, owner).value;
              && s' == s.(refunds := s'.refunds, tokens := s'.tokens) && s'.refunds == s.refunds - {owner}
              && TokensMove(s, s', STAKE_ACCOUNT, owner, RefundAt(s, owner).0 + RefundAt(s, owner).1)
  {
    if owner in s.refunds {
      TransferExactly(s, STAKE_ACCOUNT, owner, s.refunds[owner].net + s.refunds[owner].cpu);
      hide TransferTokens;
    }
  }

  // ---------- what is staked stays its owner's ----------

  /** No delegation of `u` has shrunk, and its refund is as it was. */
  ghost predicate StakeKept(s: State, s': State, u: Name) {
    && (forall r: Name ::
          && DelegationOf(s'.delegations, u, r).net >= DelegationOf(s.delegations, u, r).net
          && DelegationOf(s'.delegations, u, r).cpu >= DelegationOf(s.delegations, u, r).cpu)
    && (u in s'.refunds <==> u in s.refunds) && (u in s.refunds ==> s'.refunds[u] == s.refunds[u])
  }

  lemma StakeKeptTransitive(s: State, s1: State, s2: State, u: Name)
    requires StakeKept(s, s1, u) && StakeKept(s1, s2, u)
    ensures StakeKept(s, s2, u)
  {
    hide DelegationOf;
    forall r: Name
      ensures DelegationOf(s2.delegations, u, r).net >= DelegationOf(s.delegations, u, r).net
      ensures DelegationOf(s2.delegations, u, r).cpu >= DelegationOf(s.delegations, u, r).cpu
    {
      assert DelegationOf(s1.delegations, u, r).net >= DelegationOf(s.delegations, u, r).net;
    }
  }

  lemma SameStakeKept(s: State, s': State, u: Name)
    requires s'.delegations == s.delegations && s'.refunds == s.refunds
    ensures StakeKept(s, s', u)
  {
  }

  lemma OthersStakeKept(s: State, s': State, source: Name, owner: Name, receiver: Name, nets: bool, net: int, cpu: int, u: Name)
    requires StakeMoves(s, s', source, owner, receiver, nets, net, cpu) && (u != owner || (net >= 0 && cpu >= 0 && !nets))
    ensures StakeKept(s, s', u)
  {
    hide LimitsMove, TokensMove, DelegationOf, Due;
  }

  lemma BandwidthKeepsStake(s: State, a: Action, u: Name)
    requires Books(s) && LimitsOk(s) && RefundsOk(s.refunds) && Apply(s, a).Ok? && !PushedBy(a, u)
    requires a.ActDelegate? || a.ActUndelegate?
    ensures StakeKept(s, Apply(s, a).value, u)
  {
    hide Books, LimitsOk, RefundsOk, DelegateBandwidth, UndelegateBandwidth, StakeMoves, StakeKept, Due;
    if a.ActDelegate? {
      DelegateExactly(s, a.owner, a.receiver, a.net, a.cpu, a.transfer);
      OthersStakeKept(s, Apply(s, a).value, a.owner, if a.transfer then a.receiver else a.owner, a.receiver,
                      !a.transfer && a.owner == a.receiver, a.net, a.cpu, u);
    } else {
      UndelegateExactly(s, a.owner, a.receiver, a.net, a.cpu);
      OthersStakeKept(s, Apply(s, a).value, a.owner, a.owner, a.receiver, true, -a.net, -a.cpu, u);
    }
  }

  lemma UnstakeKeepsStake(s: State, a: Action, u: Name)
    requires a.ActUnstakeToRex? && Apply(s, a).Ok? && u != a.owner
    ensures StakeKept(s, Apply(s, a).value, u)
  {
    hide UpdateRexAccount, RunRex, AddToPool, AcquireRex, UpdateResourceLimits, TransferTokens;
    var w := s.delegations[(a.owner, a.receiver)];
    var left := Weights(w.net - a.net, w.cpu - a.cpu);
    var s1 := s.(delegations := WriteDelegation(s.delegations, a.owner, a.receiver, left));
    LimitsFrameTokens(s1, a.receiver, -a.net, -a.cpu);
    var s2 := UpdateResourceLimits(s1, a.receiver, -a.net, -a.cpu).value;
    TransferMoves(s2, STAKE_ACCOUNT, REX_ACCOUNT, a.net + a.cpu);
    var s3 := TransferTokens(s2, STAKE_ACCOUNT, REX_ACCOUNT, a.net + a.cpu).value;
    var s4 := PurchaseRex(s3, a.owner, a.net + a.cpu).value;
    RunRexApart(s4, 2);
    UpdateAccountFrame(RunRex(s4, 2).value, a.owner, 0);
  }

  lemma PaymentsKeepStake(s: State, a: Action, u: Name)
    requires OrdersOk(s.orders, s.now) && RefundsOk(s.refunds) && Apply(s, a).Ok? && !PushedBy(a, u)
    requires a.ActTransfer? || a.ActDeposit? || a.ActWithdraw? || a.ActRefund?
    ensures StakeKept(s, Apply(s, a).value, u)
  {
    hide TransferTokens, Deposit, Withdraw, RefundStake, OrdersOk, RefundsOk, TokensMove, FundChanges, OrdersSettled, Collectable;
    match a
    case ActTransfer(from, to, amount) => TransferExactly(s, from, to, amount);
    case ActDeposit(owner, amount) => DepositExactly(s, owner, amount);
    case ActWithdraw(owner, amount) => WithdrawExactly(s, owner, amount);
    case ActRefund(owner) => RefundExactly(s, owner);
  }

  lemma RamKeepsStake(s: State, a: Action, u: Name)
    requires Apply(s, a).Ok? && (a.ActBuyRam? || a.ActSellRam? || a.ActSetRam? || a.ActSetRamRate?)
    ensures StakeKept(s, Apply(s, a).value, u)
  {
    hide StakeKept, UpdateRamSupply, BuyRam, SellRam;
    SupplyFrame(s);
    if a.ActBuyRam? || a.ActSellRam? {
      RamTradesKeepStake(s, a);
    }
    SameStakeKept(s, Apply(s, a).value, u);
  }

  /** An action of others takes nothing from what `u` has delegated or is owed. */
  lemma StepKeepsStake(s: State, a: Action, u: Name, q0: int)
    requires Invariant(s, q0) && !PushedBy(a, u)
    ensures StakeKept(s, Step(s, a), u)
  {
    hide Books, LimitsOk, RamOk, RefundsOk, Apply, StakeKept;
    SameStakeKept(s, s, u);
    if Apply(s, a).Ok? {
      if a.ActDelegate? || a.ActUndelegate? {
        BandwidthKeepsStake(s, a, u);
      } else if a.ActUnstakeToRex? {
        UnstakeKeepsStake(s, a, u);
      } else if a.ActTransfer? || a.ActDeposit? || a.ActWithdraw? || a.ActRefund? {
        BooksHaveOrders(s);
        PaymentsKeepStake(s, a, u);
      } else if a.ActBuyRam? || a.ActSellRam? || a.ActSetRam? || a.ActSetRamRate? {
        RamKeepsStake(s, a, u);
      } else {
        RexActionsApart(s, a);
        SameStakeKept(s, Apply(s, a).value, u);
      }
    }
  }

  /** Over any run in which `u` does nothing it keeps every delegation it owns, and its refund. */
  lemma {:induction false} RunKeepsStake(s: State, actions: seq<Action>, u: Name, q0: int)
    requires Invariant(s, q0) && forall a :: a in actions ==> !PushedBy(a, u)
    ensures StakeKept(s, Run(s, actions), u)
    decreases |actions|
  {
    hide Invariant, StakeKept, Step, PushedBy;
    SameStakeKept(s, s, u);
    if |actions| > 0 {
      assert actions[0] in actions;
      var s1 := Step(s, actions[0]);
      StepKeepsStake(s, actions[0], u, q0);
      StepKeepsInvariant(s, actions[0], q0);
      RunKeepsStake(s1, actions[1..], u, q0);
      StakeKeptTransitive(s, s1, Run(s, actions), u);
    } else {
      assert StakeKept(s, s, u);
    }
  }
}
