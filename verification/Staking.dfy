/**
 * Every action keeps the resource limits in agreement with their sources, and
 * staked tokens on celes.stake with delegations and pending refunds.
 */
module Staking {
  import opened Outcomes
  import opened RexState
  import opened RexActions
  import opened MapSums
  import opened RexPool
  import opened RexTables
  import opened RexMaturities
  import opened RexBooks
  import opened RexSteps
  import opened RexLedger
  import opened Bandwidth

  /** Checks the source calls logic errors or says cannot fail. */
  predicate Unreachable(c: Check) {
    || c == LendablePoolEmpty || c == UnlentNegative || c == DivisionByZero
    || c == LogicErrorResourceLimits || c == TotalNetInsufficient || c == TotalCpuInsufficient
    || c == ProgrammerErrorMoveToSavings || c == RefundNegative
  }

  /** A result that keeps the limits, or an abort by a check that can fail. */
  ghost predicate KeepsLimits(r: Result<State>) {
    if r.Ok? then LimitsOk(r.value) else !Unreachable(r.check)
  }

  // ---------- limits: helpers ----------

  lemma LimitsOkFrame(s: State, s': State)
    requires LimitsOk(s)
    requires s'.resources == s.resources && s'.delegations == s.delegations
    requires s'.cpuLoans == s.cpuLoans && s'.netLoans == s.netLoans
    ensures LimitsOk(s')
  {
    LimitsFrame(s, s');
  }

  lemma RunRexKeepsLimits(s: State, max: nat)
    requires Books(s) && LimitsOk(s)
    ensures KeepsLimits(RunRex(s, max))
  {
    RunRexSucceeds(s, max);
    hide Books, LimitsOk, ProcessLoans, ProcessOrders;
  }

  lemma UpdateAccountKeepsLimits(s: State, owner: Name, proceeds: int)
    requires LimitsOk(s)
    ensures UpdateRexAccount(s, owner, proceeds).Ok?
    ensures LimitsOk(UpdateRexAccount(s, owner, proceeds).value.0)
  {
    UpdateAccountFrame(s, owner, proceeds);
    hide UpdateRexAccount, LimitsAgree, SettledOrders;
    LimitsOkFrame(s, UpdateRexAccount(s, owner, proceeds).value.0);
  }

  lemma ChannelKeepsLimits(s: State, from: Name, amount: int)
    requires LimitsOk(s)
    ensures KeepsLimits(ChannelToRex(s, from, amount))
  {
    hide LimitsAgree;
    if ChannelToRex(s, from, amount).Ok? {
      LimitsOkFrame(s, ChannelToRex(s, from, amount).value);
    }
  }

  lemma RunAndSettleLimits(s: State, owner: Name)
    requires Books(s) && LimitsOk(s) && RunRex(s, 2).Ok?
    ensures UpdateRexAccount(RunRex(s, 2).value, owner, 0).Ok?
    ensures LimitsOk(UpdateRexAccount(RunRex(s, 2).value, owner, 0).value.0)
  {
    RunRexKeepsLimits(s, 2);
    hide Books, LimitsOk, RunRex;
    UpdateAccountKeepsLimits(RunRex(s, 2).value, owner, 0);
  }

  // ---------- limits: REX actions ----------

  lemma BuyRexKeepsLimits(s: State, from: Name, amount: int, votes: bool)
    requires Books(s) && LimitsOk(s)
    ensures KeepsLimits(BuyRex(s, from, amount, votes))
  {
    hide Books, LimitsOk, PurchaseRex, RunRex, UpdateRexAccount;
    if amount > 0 && votes && TransferFromFund(s, from, amount).Ok? {
      var s1 := TransferFromFund(s, from, amount).value;
      BooksFrame(s, s1);
      LimitsOkFrame(s, s1);
      PurchaseKeepsLimits(s1, from, amount);
    }
  }

  /** Tokens taken out of a delegation leave the receiver's limits without failing a check. */
  lemma UnstakeSettles(s: State, owner: Name, receiver: Name, net: int, cpu: int)
    requires Books(s) && LimitsOk(s) && (owner, receiver) in s.delegations
    requires 0 <= net <= s.delegations[(owner, receiver)].net && 0 <= cpu <= s.delegations[(owner, receiver)].cpu
    ensures var w := s.delegations[(owner, receiver)];
            var s1 := s.(delegations := WriteDelegation(s.delegations, owner, receiver, Weights(w.net - net, w.cpu - cpu)));
            && UpdateResourceLimits(s1, receiver, -net, -cpu).Ok?
            && var s2 := UpdateResourceLimits(s1, receiver, -net, -cpu).value;
               LimitsOk(s2) && s2 == s1.(resources := s2.resources)
  {
    BooksGiveSources(s);
    var w := s.delegations[(owner, receiver)];
    var left := Weights(w.net - net, w.cpu - cpu);
    DelegationChangesDue(s, owner, receiver, left);
    var s1 := s.(delegations := WriteDelegation(s.delegations, owner, receiver, left));
    assert SourcesOk(s1);
    hide Books, LimitsAgree, LimitsPending;
    SettleLimits(s1, receiver, -net, -cpu);
    LimitsFrameTokens(s1, receiver, -net, -cpu);
  }

  /** A purchase, the maintenance after it and the settling of the account. */
  lemma PurchaseKeepsLimits(s: State, owner: Name, payment: int)
    requires Books(s) && LimitsOk(s) && payment > 0
    ensures PurchaseRex(s, owner, payment).Ok?
    ensures var bought := PurchaseRex(s, owner, payment).value;
            && KeepsLimits(RunRex(bought, 2))
            && (RunRex(bought, 2).Ok? ==>
                  && UpdateRexAccount(RunRex(bought, 2).value, owner, 0).Ok?
                  && LimitsOk(UpdateRexAccount(RunRex(bought, 2).value, owner, 0).value.0))
  {
    hide Books, LimitsOk, PurchaseRex, RunRex, UpdateRexAccount, PriceKept, KeepsLimits;
    PurchaseKeepsBooks(s, owner, payment);
    var bought := PurchaseRex(s, owner, payment).value;
    LimitsOkFrame(s, bought);
    RunRexKeepsLimits(bought, 2);
    if RunRex(bought, 2).Ok? {
      RunAndSettleLimits(bought, owner);
    }
  }

  /** The state in which the unstaked tokens have reached celes.rex. */
  ghost function Unstaked(s: State, owner: Name, receiver: Name, net: int, cpu: int): Result<State>
    requires (owner, receiver) in s.delegations
  {
    var w := s.delegations[(owner, receiver)];
    var s1 := s.(delegations := WriteDelegation(s.delegations, owner, receiver, Weights(w.net - net, w.cpu - cpu)));
    var s2 :- UpdateResourceLimits(s1, receiver, -net, -cpu);
    TransferTokens(s2, STAKE_ACCOUNT, REX_ACCOUNT, net + cpu)
  }

  lemma UnstakedKeepsLimits(s: State, owner: Name, receiver: Name, net: int, cpu: int)
    requires Books(s) && LimitsOk(s) && (owner, receiver) in s.delegations
    requires 0 <= net <= s.delegations[(owner, receiver)].net && 0 <= cpu <= s.delegations[(owner, receiver)].cpu
    ensures var r := Unstaked(s, owner, receiver, net, cpu);
            if r.Ok? then Books(r.value) && LimitsOk(r.value) else !Unreachable(r.check)
  {
    hide Books, LimitsOk, UpdateResourceLimits, WriteDelegation, TransferTokens;
    UnstakeSettles(s, owner, receiver, net, cpu);
    var w := s.delegations[(owner, receiver)];
    var s1 := s.(delegations := WriteDelegation(s.delegations, owner, receiver, Weights(w.net - net, w.cpu - cpu)));
    var s2 := UpdateResourceLimits(s1, receiver, -net, -cpu).value;
    TransferKeepsLimits(s2, STAKE_ACCOUNT, REX_ACCOUNT, net + cpu);
    var r := Unstaked(s, owner, receiver, net, cpu);
    if r.Ok? {
      BooksFrame(s, r.value);
      LimitsOkFrame(s2, r.value);
    }
  }

  ghost predicate UnstakeAllowed(s: State, owner: Name, receiver: Name, net: int, cpu: int) {
    && (owner, receiver) in s.delegations && 0 <= net && 0 <= cpu && (0 < net || 0 < cpu)
    && net <= s.delegations[(owner, receiver)].net && cpu <= s.delegations[(owner, receiver)].cpu
  }

  lemma UnstakeRefused(s: State, owner: Name, receiver: Name, net: int, cpu: int, votes: bool)
    requires !votes || !UnstakeAllowed(s, owner, receiver, net, cpu)
    ensures KeepsLimits(UnstakeToRex(s, owner, receiver, net, cpu, votes))
  {
    hide WriteDelegation, UpdateResourceLimits, TransferTokens, PurchaseRex, RunRex, UpdateRexAccount, LimitsOk;
  }

  lemma UnstakeToRexKeepsLimits(s: State, owner: Name, receiver: Name, net: int, cpu: int, votes: bool)
    requires Books(s) && LimitsOk(s)
    ensures KeepsLimits(UnstakeToRex(s, owner, receiver, net, cpu, votes))
  {
    hide Books, LimitsOk, Unstaked, PurchaseRex, RunRex, UpdateRexAccount, UnstakeToRex;
    if votes && UnstakeAllowed(s, owner, receiver, net, cpu) {
      UnstakeInParts(s, owner, receiver, net, cpu);
      UnstakedKeepsLimits(s, owner, receiver, net, cpu);
      if Unstaked(s, owner, receiver, net, cpu).Ok? {
        PurchaseKeepsLimits(Unstaked(s, owner, receiver, net, cpu).value, owner, net + cpu);
      }
    } else {
      UnstakeRefused(s, owner, receiver, net, cpu, votes);
    }
  }

  /** The action, once its arguments have passed their checks. */
  lemma UnstakeInParts(s: State, owner: Name, receiver: Name, net: int, cpu: int)
    requires UnstakeAllowed(s, owner, receiver, net, cpu)
    ensures UnstakeToRex(s, owner, receiver, net, cpu, true) == UnstakeFrom(Unstaked(s, owner, receiver, net, cpu), owner, net + cpu)
  {
    hide WriteDelegation, UpdateResourceLimits, TransferTokens, PurchaseRex, RunRex, UpdateRexAccount;
  }

  ghost function UnstakeFrom(r: Result<State>, owner: Name, payment: int): Result<State> {
    var s3 :- r;
    var s4 :- PurchaseRex(s3, owner, payment);
    var s5 :- RunRex(s4, 2);
    var (s6, _) :- UpdateRexAccount(s5, owner, 0);
    Ok(s6)
  }

  /** A transfer changes tokens only, and fails none of the checks that cannot fail. */
  lemma TransferKeepsLimits(s: State, from: Name, to: Name, amount: int)
    ensures var r := TransferTokens(s, from, to, amount);
            if r.Ok? then r.value == s.(tokens := r.value.tokens) else !Unreachable(r.check)
  {
  }

  /** The part of a sale after maintenance and maturities. */
  lemma SaleKeepsLimits(s: State, from: Name, rex: int)
    requires BooksButCover(s) && LimitsOk(s) && s.pool.Some? && from in s.balances && 0 < rex <= s.balances[from].matured
    ensures FillFromPool(s.pool.value, rex).Ok?
    ensures var fill := FillFromPool(s.pool.value, rex).value;
            fill.Filled? ==>
              var sold := UpdateRexAccount(DebitRex(s.(pool := Some(fill.pool)), from, rex), from, fill.proceeds);
              sold.Ok? && LimitsOk(sold.value.0)
    ensures var settled := UpdateRexAccount(s, from, 0);
            settled.Ok? && LimitsOk(QueueOrder(settled.value.0, from, rex))
  {
    hide BooksButCover, LimitsOk, PriceRose, UpdateRexAccount, FillFromPool, QueueOrder;
    SaleKeepsBooks(s, from, rex);
    var fill := FillFromPool(s.pool.value, rex).value;
    if fill.Filled? {
      var sold := AfterSale(s, from, rex, fill.pool);
      LimitsOkFrame(s, sold);
      UpdateAccountKeepsLimits(sold, from, fill.proceeds);
    }
    UpdateAccountKeepsLimits(s, from, 0);
    var settled := UpdateRexAccount(s, from, 0).value.0;
    QueueFrame(settled, from, rex);
    LimitsOkFrame(settled, QueueOrder(settled, from, rex));
  }

  /** The sale of a row whose due buckets have matured. */
  ghost function SellFrom(s: State, from: Name, rex: int): Result<State>
    requires from in s.balances && s.pool.Some? && rex <= s.balances[from].matured
  {
    var fill :- FillFromPool(s.pool.value, rex);
    if fill.Filled? then
      if fill.proceeds == 0 then Abort(NegligibleProceeds) else
      var (sold, pending) :- UpdateRexAccount(DebitRex(s.(pool := Some(fill.pool)), from, rex), from, fill.proceeds);
      if !(from in sold.balances && pending <= sold.balances[from].matured) then Abort(OrdersExceedMaturedRex) else Ok(sold)
    else
      var (settled, _) :- UpdateRexAccount(s, from, 0);
      if from == B1 then Abort(B1OrderQueued) else
      var queued := QueueOrder(settled, from, rex);
      if RequestedBy(queued, from) > s.balances[from].matured then Abort(OrdersExceedMaturedRex) else Ok(queued)
  }

  lemma SellFromKeepsLimits(s: State, from: Name, rex: int)
    requires BooksButCover(s) && LimitsOk(s) && s.pool.Some? && from in s.balances && 0 < rex <= s.balances[from].matured
    ensures KeepsLimits(SellFrom(s, from, rex))
  {
    hide BooksButCover, LimitsOk, FillFromPool, UpdateRexAccount, QueueOrder, DebitRex, RequestedBy;
    SaleKeepsLimits(s, from, rex);
  }

  /** The account's row after maintenance, its due buckets matured. */
  ghost function MaturedRow(s1: State, from: Name, now: nat): State
    requires from in s1.balances
  {
    s1.(balances := s1.balances[from := ProcessMaturities(s1.balances[from], Seconds(now))])
  }

  ghost predicate SaleAllowed(s: State, from: Name, rex: int) {
    && RunRex(s, 2).Ok? && from in RunRex(s, 2).value.balances && RunRex(s, 2).value.pool.Some?
    && 0 < rex <= MaturedRow(RunRex(s, 2).value, from, s.now).balances[from].matured
  }

  lemma SellInParts(s: State, from: Name, rex: int)
    requires RunRex(s, 2).Ok? ==> RunRex(s, 2).value.pool.Some?
    ensures SaleAllowed(s, from, rex) ==>
              SellRex(s, from, rex) == SellFrom(MaturedRow(RunRex(s, 2).value, from, s.now), from, rex)
    ensures !SaleAllowed(s, from, rex) && RunRex(s, 2).Ok? ==>
              SellRex(s, from, rex).Abort? && !Unreachable(SellRex(s, from, rex).check)
    ensures RunRex(s, 2).Abort? ==> SellRex(s, from, rex) == RunRex(s, 2)
  {
    hide RunRex, ProcessMaturities, FillFromPool, UpdateRexAccount, QueueOrder, DebitRex, RequestedBy;
  }

  lemma SellRexKeepsLimits(s: State, from: Name, rex: int)
    requires Books(s) && LimitsOk(s)
    ensures KeepsLimits(SellRex(s, from, rex))
  {
    hide Books, BooksButCover, LimitsOk, PriceKept, RunRex, ProcessMaturities, SellFrom, SellRex;
    RunRexKeepsLimits(s, 2);
    if RunRex(s, 2).Ok? {
      MaintainFirst(s);
      if SaleAllowed(s, from, rex) {
        var s1 := RunRex(s, 2).value;
        ProcessRowKeepsBooks(s1, from);
        var s2 := MaturedRow(s1, from, s.now);
        BooksParts(s2);
        LimitsOkFrame(s1, s2);
        SellFromKeepsLimits(s2, from, rex);
      }
    }
    SellInParts(s, from, rex);
  }

  lemma RentKeepsLimits(s: State, kind: Kind, from: Name, receiver: Name, payment: int, fund: int)
    requires Books(s) && LimitsOk(s)
    ensures KeepsLimits(Rent(s, kind, from, receiver, payment, fund))
  {
    hide Books, LimitsAgree, LimitsPending, PriceKept, PriceRose, RunRex, AddLoan, BancorOutput, LoansAvailable, ChangeLimit;
    RunRexKeepsLimits(s, 2);
    if RunRex(s, 2).Ok? {
      var s1 := RunRex(s, 2).value;
      MaintainFirst(s);
      if payment > 0 && fund >= 0 && LoansAvailable(s1) && TransferFromFund(s1, from, payment + fund).Ok? {
        var s2 := TransferFromFund(s1, from, payment + fund).value;
        BooksFrame(s1, s2);
        LimitsOkFrame(s1, s2);
        var rented := BancorOutput(s2.pool.value.rent, s2.pool.value.unlent, payment);
        if payment < rented {
          var p := AddLoan(s2.pool.value, payment, rented, true);
          var loan := Loan(from, receiver, payment, fund, rented, p.loanNum, s.now + LOAN_TERM);
          var s3 := s2.(pool := Some(p));
          LimitsOkFrame(s2, s3);
          InsertLoanTotals(s2.Loans(kind), loan);
          NewLoanSources(s2, kind, loan);
          hide InsertLoan;
          LoanChangesDue(s3, kind, InsertLoan(s2.Loans(kind), loan), receiver, rented);
          SettleLoanLimits(s3.WithLoans(kind, InsertLoan(s2.Loans(kind), loan)), kind, receiver, rented);
          ChangeLimitFrame(s3.WithLoans(kind, InsertLoan(s2.Loans(kind), loan)), kind, receiver, rented);
        }
      }
    }
  }

  lemma NewLoanSources(s: State, kind: Kind, l: Loan)
    requires Books(s) && LimitsOk(s) && l.staked >= 0
    ensures forall p: Option<Pool> :: SourcesOk(s.(pool := p).WithLoans(kind, InsertLoan(s.Loans(kind), l)))
  {
    BooksGiveSources(s);
    InsertLoanMembers(s.Loans(kind), l);
  }

  /** A loan's renewal fund plays no part in the limits. */
  lemma LoanFundKeepsLimits(s: State, kind: Kind, i: nat, balance: int)
    requires LimitsOk(s) && i < |s.Loans(kind)|
    ensures LimitsOk(s.WithLoans(kind, s.Loans(kind)[i := s.Loans(kind)[i].(balance := balance)]))
  {
    RefundLoanTotals(s.Loans(kind), i, balance);
    var s' := s.WithLoans(kind, s.Loans(kind)[i := s.Loans(kind)[i].(balance := balance)]);
    forall r: Name ensures Agrees(s', r) {
      assert Agrees(s, r);
    }
  }

  lemma FundLoanShape(s: State, kind: Kind, from: Name, num: nat, payment: int)
    ensures var r := FundLoan(s, kind, from, num, payment);
            if r.Abort? then !Unreachable(r.check)
            else
              var i := FindLoan(s.Loans(kind), num);
              && i < |s.Loans(kind)| && TransferFromFund(s, from, payment).Ok?
              && r.value == TransferFromFund(s, from, payment).value.WithLoans(kind,
                              s.Loans(kind)[i := s.Loans(kind)[i].(balance := s.Loans(kind)[i].balance + payment)])
  {
  }

  lemma FundLoanKeepsLimits(s: State, kind: Kind, from: Name, num: nat, payment: int)
    requires LimitsOk(s)
    ensures KeepsLimits(FundLoan(s, kind, from, num, payment))
  {
    hide LimitsOk;
    FundLoanShape(s, kind, from, num, payment);
    if FundLoan(s, kind, from, num, payment).Ok? {
      var s1 := TransferFromFund(s, from, payment).value;
      var i := FindLoan(s.Loans(kind), num);
      assert s1 == s.(funds := s1.funds);
      hide FundLoan, TransferFromFund;
      LimitsOkFrame(s, s1);
      LoanFundKeepsLimits(s1, kind, i, s.Loans(kind)[i].balance + payment);
    }
  }

  lemma DefundLoanKeepsLimits(s: State, kind: Kind, from: Name, num: nat, amount: int)
    requires LimitsOk(s)
    ensures KeepsLimits(DefundLoan(s, kind, from, num, amount))
  {
    hide LimitsOk;
    if DefundLoan(s, kind, from, num, amount).Ok? {
      var i := FindLoan(s.Loans(kind), num);
      LoanFundKeepsLimits(s, kind, i, s.Loans(kind)[i].balance - amount);
      var s1 := s.WithLoans(kind, s.Loans(kind)[i := s.Loans(kind)[i].(balance := s.Loans(kind)[i].balance - amount)]);
      LimitsOkFrame(s1, DefundLoan(s, kind, from, num, amount).value);
    }
  }

  /** Actions that maintain, settle the owner and rearrange one balance. */
  lemma UpdateRexKeepsLimits(s: State, owner: Name)
    requires Books(s) && LimitsOk(s)
    ensures KeepsLimits(UpdateRex(s, owner)) && KeepsLimits(Consolidate(s, owner))
  {
    hide Books, LimitsOk, RunRex, UpdateRexAccount, ProcessMaturities, ConsolidateBuckets;
    RunRexKeepsLimits(s, 2);
    if RunRex(s, 2).Ok? {
      RunAndSettleLimits(s, owner);
      var s1 := RunRex(s, 2).value;
      var s2 := UpdateRexAccount(s1, owner, 0).value.0;
      if UpdateRex(s, owner).Ok? {
        LimitsOkFrame(s2, UpdateRex(s, owner).value);
      }
      if Consolidate(s, owner).Ok? {
        LimitsOkFrame(s2, Consolidate(s, owner).value);
      }
    }
  }

  lemma MoveToSavingsKeepsLimits(s: State, owner: Name, rex: Int64)
    requires Books(s) && LimitsOk(s)
    ensures KeepsLimits(MoveToSavings(s, owner, rex))
  {
    hide Books, LimitsOk, PriceKept, RunRex, UpdateRexAccount, MoveIntoSavings, BalanceOk, PendingRex, SettledOrders;
    RunRexKeepsLimits(s, 2);
    if RunRex(s, 2).Ok? {
      MaintainFirst(s);
      RunAndSettleLimits(s, owner);
      var s1 := RunRex(s, 2).value;
      UpdateAccountFrame(s1, owner, 0);
      if owner in s1.balances && rex > 0 {
        SettledOwnOrders(s1, owner);
        MoveInExact(s1.balances[owner], s.now, PendingRex(s1.orders, owner), rex);
        MoveInAborts(s1.balances[owner], s.now, PendingRex(s1.orders, owner), rex);
        if MoveToSavings(s, owner, rex).Ok? {
          LimitsOkFrame(UpdateRexAccount(s1, owner, 0).value.0, MoveToSavings(s, owner, rex).value);
        }
      }
    }
  }

  lemma MoveInAborts(b: RexBalance, now: nat, inOrder: int, rex: Int64)
    ensures var r := MoveIntoSavings(b, now, inOrder, rex);
            r.Abort? ==> r.check in {InsufficientRex, LogicErrorMoveToSavings, ProgrammerErrorMoveToSavings}
  {
  }

  lemma MoveFromSavingsKeepsLimits(s: State, owner: Name, rex: int)
    requires Books(s) && LimitsOk(s)
    ensures KeepsLimits(MoveFromSavings(s, owner, rex))
  {
    hide Books, LimitsOk, RunRex, UpdateRexAccount;
    RunRexKeepsLimits(s, 2);
    if RunRex(s, 2).Ok? {
      var s1 := RunRex(s, 2).value;
      if owner in s1.balances && MoveOutOfSavings(s1.balances[owner], s.now, rex).Ok? {
        var b := MoveOutOfSavings(s1.balances[owner], s.now, rex).value;
        hide MoveOutOfSavings;
        LimitsOkFrame(s1, s1.(balances := s1.balances[owner := b]));
        UpdateAccountKeepsLimits(s1.(balances := s1.balances[owner := b]), owner, 0);
      }
    }
  }

  lemma CloseRexKeepsLimits(s: State, owner: Name)
    requires Books(s) && LimitsOk(s)
    ensures KeepsLimits(CloseRex(s, owner))
  {
    hide Books, LimitsOk, RunRex, UpdateRexAccount;
    if s.pool.Some? {
      RunRexKeepsLimits(s, 2);
    }
    var r1 := if s.pool.Some? then RunRex(s, 2) else Ok(s);
    if r1.Ok? {
      UpdateAccountKeepsLimits(r1.value, owner, 0);
      if CloseRex(s, owner).Ok? {
        LimitsOkFrame(UpdateRexAccount(r1.value, owner, 0).value.0, CloseRex(s, owner).value);
      }
    }
  }

  // ---------- limits: bandwidth and RAM ----------

  lemma SettleStakeFrame(s: State, source: Name, from: Name, nets: bool, dNet: int, dCpu: int)
    ensures var r := SettleStake(s, source, from, nets, dNet, dCpu);
            if r.Ok? then r.value == s.(refunds := r.value.refunds, tokens := r.value.tokens)
            else !Unreachable(r.check)
  {
    hide WriteRefund;
  }

  lemma ChangeBandwidthKeepsLimits(s: State, source: Name, receiver: Name, dNet: int, dCpu: int, transfer: bool)
    requires Books(s) && LimitsOk(s)
    ensures KeepsLimits(ChangeBandwidth(s, source, receiver, dNet, dCpu, transfer))
  {
    var from := if transfer then receiver else source;
    hide LimitsOk, SameSign, AddToLimits, WriteDelegation, Books, SettleStake;
    if AddDelegation(s, from, receiver, dNet, dCpu).Ok? {
      var s1 := AddDelegation(s, from, receiver, dNet, dCpu).value;
      DelegationSettles(s, from, receiver, dNet, dCpu);
      hide AddDelegation;
      var s2 := s1.(resources := AddToLimits(s1.resources, receiver, dNet, dCpu).value);
      var nets := (!transfer && from == receiver) || dNet + dCpu < 0;
      SettleStakeFrame(s2, source, from, nets, dNet, dCpu);
      if SettleStake(s2, source, from, nets, dNet, dCpu).Ok? {
        LimitsOkFrame(s2, SettleStake(s2, source, from, nets, dNet, dCpu).value);
      }
    }
  }

  /** A delegation that may be entered can always be added to the receiver's totals. */
  lemma DelegationSettles(s: State, from: Name, to: Name, dNet: int, dCpu: int)
    requires Books(s) && LimitsOk(s) && AddDelegation(s, from, to, dNet, dCpu).Ok?
    ensures var s1 := AddDelegation(s, from, to, dNet, dCpu).value;
            && AddToLimits(s1.resources, to, dNet, dCpu).Ok?
            && LimitsOk(s1.(resources := AddToLimits(s1.resources, to, dNet, dCpu).value))
  {
    BooksGiveSources(s);
    var was := DelegationOf(s.delegations, from, to);
    var w := Weights(was.net + dNet, was.cpu + dCpu);
    DelegationChangesDue(s, from, to, w);
    var s1 := s.(delegations := WriteDelegation(s.delegations, from, to, w));
    assert SourcesOk(s1);
    hide Books, LimitsAgree, LimitsPending;
    SettleLimits(s1, to, dNet, dCpu);
  }

  /** RAM quotas live in the same rows and leave the limits alone. */
  lemma RamRowKeepsLimits(s: State, s': State, receiver: Name, row: Resources)
    requires LimitsOk(s) && row == ResourcesOf(s.resources, receiver).(ram := row.ram)
    requires s'.resources == s.resources[receiver := row] && s'.delegations == s.delegations
    requires s'.cpuLoans == s.cpuLoans && s'.netLoans == s.netLoans
    ensures LimitsOk(s')
  {
    forall r: Name ensures Agrees(s', r) {
      assert Agrees(s, r);
    }
  }

  lemma RamSupplyFrame(s: State)
    ensures UpdateRamSupply(s) == s.(ram := UpdateRamSupply(s).ram)
  {
  }

  lemma PayRamFeeKeepsLimits(s: State, payer: Name, fee: int)
    requires LimitsOk(s)
    ensures KeepsLimits(PayRamFee(s, payer, fee))
  {
    hide LimitsOk, ChannelToRex;
    if fee > 0 && TransferTokens(s, payer, RAMFEE_ACCOUNT, fee).Ok? {
      var s1 := TransferTokens(s, payer, RAMFEE_ACCOUNT, fee).value;
      LimitsOkFrame(s, s1);
      ChannelKeepsLimits(s1, RAMFEE_ACCOUNT, fee);
    }
  }

  lemma BuyRamKeepsLimits(s: State, payer: Name, receiver: Name, quant: int)
    requires LimitsOk(s)
    ensures KeepsLimits(BuyRam(s, payer, receiver, quant))
  {
    hide LimitsOk, PayRamFee, BancorOutput, RamFee, UpdateRamSupply;
    var s0 := UpdateRamSupply(s);
    RamSupplyFrame(s);
    if TransferTokens(s0, payer, RAM_ACCOUNT, quant - RamFee(quant)).Ok? {
      var s1 := TransferTokens(s0, payer, RAM_ACCOUNT, quant - RamFee(quant)).value;
      LimitsOkFrame(s, s1);
      PayRamFeeKeepsLimits(s1, payer, RamFee(quant));
      if PayRamFee(s1, payer, RamFee(quant)).Ok? {
        var s2 := PayRamFee(s1, payer, RamFee(quant)).value;
        var r := ReserveRam(s2, receiver, quant - RamFee(quant));
        if r.Ok? {
          RamRowKeepsLimits(s2, r.value, receiver, r.value.resources[receiver]);
        }
      }
    }
  }

  lemma SellRamKeepsLimits(s: State, account: Name, bytes: int)
    requires LimitsOk(s)
    ensures KeepsLimits(SellRam(s, account, bytes))
  {
    hide LimitsOk, PayRamFee, RamProceeds, RamFee, UpdateRamSupply;
    var s0 := UpdateRamSupply(s);
    RamSupplyFrame(s);
    if ReleaseRam(s0, account, bytes).Ok? {
      var s1 := ReleaseRam(s0, account, bytes).value;
      RamRowKeepsLimits(s, s1, account, s1.resources[account]);
      var tokens := RamProceeds(s0.ram, bytes);
      if TransferTokens(s1, RAM_ACCOUNT, account, tokens).Ok? {
        var s2 := TransferTokens(s1, RAM_ACCOUNT, account, tokens).value;
        LimitsOkFrame(s1, s2);
        PayRamFeeKeepsLimits(s2, account, RamFee(tokens));
      }
    }
  }

  // ---------- staked tokens ----------

  ghost function StakedTokens(m: map<(Name, Name), Weights>): map<(Name, Name), int> {
    map k | k in m :: m[k].net + m[k].cpu
  }

  ghost function RefundTokens(m: map<Name, Refund>): map<Name, int> {
    map k | k in m :: m[k].net + m[k].cpu
  }

  /** Tokens on celes.stake beyond delegations and pending refunds. */
  ghost function StakeSurplus(s: State): int {
    Held(s.tokens, STAKE_ACCOUNT) - Sum(StakedTokens(s.delegations)) - Sum(RefundTokens(s.refunds))
  }

  ghost predicate RefundsOk(m: map<Name, Refund>) {
    forall k :: k in m ==> m[k].net >= 0 && m[k].cpu >= 0 && m[k].net + m[k].cpu > 0
  }

  lemma DelegationTokens(m: map<(Name, Name), Weights>, from: Name, to: Name, w: Weights)
    ensures var was := DelegationOf(m, from, to);
            Sum(StakedTokens(WriteDelegation(m, from, to, w))) == Sum(StakedTokens(m)) + w.net + w.cpu - was.net - was.cpu
  {
    var m' := WriteDelegation(m, from, to, w);
    var k := (from, to);
    if w.net == 0 && w.cpu == 0 {
      assert StakedTokens(m') == StakedTokens(m) - {k};
      SumErase(StakedTokens(m), k);
    } else {
      assert StakedTokens(m') == StakedTokens(m)[k := w.net + w.cpu];
      SumUpdate(StakedTokens(m), k, w.net + w.cpu);
    }
  }

  lemma RefundTokensUpdate(m: map<Name, Refund>, k: Name, r: Refund)
    ensures Sum(RefundTokens(m[k := r])) ==
            Sum(RefundTokens(m)) + r.net + r.cpu - (if k in m then m[k].net + m[k].cpu else 0)
  {
    assert RefundTokens(m[k := r]) == RefundTokens(m)[k := r.net + r.cpu];
    SumUpdate(RefundTokens(m), k, r.net + r.cpu);
  }

  lemma RefundTokensErase(m: map<Name, Refund>, k: Name)
    ensures Sum(RefundTokens(m - {k})) == Sum(RefundTokens(m)) - (if k in m then m[k].net + m[k].cpu else 0)
  {
    assert RefundTokens(m - {k}) == RefundTokens(m) - {k};
    SumErase(RefundTokens(m), k);
  }

  lemma WriteRefundTokens(m: map<Name, Refund>, k: Name, r: Refund)
    requires RefundsOk(m) && r.net >= 0 && r.cpu >= 0
    ensures RefundsOk(WriteRefund(m, k, r))
    ensures Sum(RefundTokens(WriteRefund(m, k, r))) ==
            Sum(RefundTokens(m)) + r.net + r.cpu - (if k in m then m[k].net + m[k].cpu else 0)
  {
    RefundTokensUpdate(m, k, r);
    RefundTokensErase(m, k);
  }

  /** Netting moves exactly the stake delta between the refund and what is still due. */
  lemma NetRefundBalances(m: map<Name, Refund>, owner: Name, dNet: int, dCpu: int, sec: nat)
    requires RefundsOk(m)
    ensures NetRefund(m, owner, dNet, dCpu, sec).Ok?
    ensures var m' := NetRefund(m, owner, dNet, dCpu, sec).value.0;
            var due := NetRefund(m, owner, dNet, dCpu, sec).value.1;
            && due >= 0 && RefundsOk(m')
            && Sum(RefundTokens(m')) == Sum(RefundTokens(m)) - (dNet + dCpu) + due
  {
    if owner in m {
      var r := m[owner];
      var time := if dNet < 0 || dCpu < 0 then sec else r.requested;
      hide WriteRefund;
      WriteRefundTokens(m, owner, Refund(NetOut(r.net, dNet).0, NetOut(r.cpu, dCpu).0, time));
    } else if dNet < 0 || dCpu < 0 {
      RefundTokensUpdate(m, owner, Refund(NetOut(0, dNet).0, NetOut(0, dCpu).0, sec));
    }
  }

  lemma PayStakeAdds(s: State, source: Name, due: int)
    requires due >= 0 && source != STAKE_ACCOUNT && PayStake(s, source, due).Ok?
    ensures var s' := PayStake(s, source, due).value;
            s' == s.(tokens := s'.tokens) && Held(s'.tokens, STAKE_ACCOUNT) == Held(s.tokens, STAKE_ACCOUNT) + due
  {
    if due > 0 {
      TransferMoves(s, source, STAKE_ACCOUNT, due);
    }
  }

  lemma SettleStakeBalances(s: State, source: Name, from: Name, nets: bool, dNet: int, dCpu: int)
    requires RefundsOk(s.refunds) && (nets || (dNet + dCpu >= 0))
    requires SettleStake(s, source, from, nets, dNet, dCpu).Ok?
    ensures var s' := SettleStake(s, source, from, nets, dNet, dCpu).value;
            && s'.delegations == s.delegations && RefundsOk(s'.refunds)
            && StakeSurplus(s') == StakeSurplus(s) + (if source == STAKE_ACCOUNT then 0 else dNet + dCpu)
  {
    hide RefundsOk, NetRefund, PayStake;
    if source != STAKE_ACCOUNT && nets {
      NetRefundBalances(s.refunds, from, dNet, dCpu, Seconds(s.now));
      var netted := NetRefund(s.refunds, from, dNet, dCpu, Seconds(s.now)).value;
      PayStakeAdds(s.(refunds := netted.0), source, netted.1);
    } else if source != STAKE_ACCOUNT {
      PayStakeAdds(s, source, dNet + dCpu);
    }
  }

  /** Staked tokens arrive on celes.stake, except what celes.stake stakes itself: that is delegated without being set aside. */
  lemma ChangeBandwidthKeepsStake(s: State, source: Name, receiver: Name, dNet: int, dCpu: int, transfer: bool)
    requires RefundsOk(s.refunds)
    requires ChangeBandwidth(s, source, receiver, dNet, dCpu, transfer).Ok?
    ensures var s' := ChangeBandwidth(s, source, receiver, dNet, dCpu, transfer).value;
            && StakeSurplus(s') == StakeSurplus(s) - (if source == STAKE_ACCOUNT then dNet + dCpu else 0)
            && RefundsOk(s'.refunds)
  {
    hide WriteDelegation, AddToLimits, SettleStake, RefundsOk, DelegationOf, SameSign;
    var from := if transfer then receiver else source;
    var was := DelegationOf(s.delegations, from, receiver);
    var w := Weights(was.net + dNet, was.cpu + dCpu);
    DelegationTokens(s.delegations, from, receiver, w);
    var s2 := s.(delegations := WriteDelegation(s.delegations, from, receiver, w),
                 resources := AddToLimits(s.resources, receiver, dNet, dCpu).value);
    var nets := (!transfer && from == receiver) || dNet + dCpu < 0;
    SettleStakeBalances(s2, source, from, nets, dNet, dCpu);
  }

  lemma RefundKeepsStake(s: State, owner: Name)
    requires RefundsOk(s.refunds) && RefundStake(s, owner).Ok?
    ensures var s' := RefundStake(s, owner).value;
            StakeSurplus(s') == StakeSurplus(s) && RefundsOk(s'.refunds)
  {
    var r := s.refunds[owner];
    TransferMoves(s, STAKE_ACCOUNT, owner, r.net + r.cpu);
    RefundTokensErase(s.refunds, owner);
  }

  /** A matured refund can always be paid. */
  lemma RefundIsFunded(s: State, owner: Name)
    requires RefundsOk(s.refunds) && DelegationsOk(s.delegations) && StakeSurplus(s) >= 0
    requires owner in s.refunds && owner != STAKE_ACCOUNT
    requires s.refunds[owner].requested + REFUND_DELAY <= Seconds(s.now)
    ensures RefundStake(s, owner).Ok?
  {
    SumBoundsRow(RefundTokens(s.refunds), owner);
    SumBoundsRow(StakedTokens(s.delegations), (owner, owner));
  }
}
