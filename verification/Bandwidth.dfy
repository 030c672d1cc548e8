/**
 * Resource limits agree with their sources: what an account may use of NET and
 * CPU is what others delegate to it plus what open loans rent for it.
 */
module Bandwidth {
  import opened Outcomes
  import opened RexState
  import opened RexActions
  import opened MapSums
  import opened RexPool
  import opened RexTables
  import opened RexBooks

  ghost function NetTo(delegations: map<(Name, Name), Weights>, receiver: Name): map<(Name, Name), int> {
    map k | k in delegations && k.1 == receiver :: delegations[k].net
  }

  ghost function CpuTo(delegations: map<(Name, Name), Weights>, receiver: Name): map<(Name, Name), int> {
    map k | k in delegations && k.1 == receiver :: delegations[k].cpu
  }

  /** NET bandwidth owed to a receiver by its sources. */
  ghost function NetDue(s: State, receiver: Name): int {
    Sum(NetTo(s.delegations, receiver)) + StakedTo(s.netLoans, receiver)
  }

  ghost function CpuDue(s: State, receiver: Name): int {
    Sum(CpuTo(s.delegations, receiver)) + StakedTo(s.cpuLoans, receiver)
  }

  /** What `r` may use is what its sources give it. */
  ghost predicate Agrees(s: State, r: Name) {
    ResourcesOf(s.resources, r).net == NetDue(s, r) && ResourcesOf(s.resources, r).cpu == CpuDue(s, r)
  }

  ghost predicate LimitsAgree(s: State) {
    forall r: Name :: Agrees(s, r)
  }

  /** As `Agrees`, except that the change `(net, cpu)` of one receiver is still to be entered. */
  ghost predicate AgreesOnce(s: State, r: Name, receiver: Name, net: int, cpu: int) {
    && ResourcesOf(s.resources, r).net + (if r == receiver then net else 0) == NetDue(s, r)
    && ResourcesOf(s.resources, r).cpu + (if r == receiver then cpu else 0) == CpuDue(s, r)
  }

  ghost predicate LimitsPending(s: State, receiver: Name, net: int, cpu: int) {
    forall r: Name :: AgreesOnce(s, r, receiver, net, cpu)
  }

  ghost predicate DelegationsOk(m: map<(Name, Name), Weights>) {
    forall k :: k in m ==> m[k].net >= 0 && m[k].cpu >= 0
  }

  /** Delegations and loans are never negative. */
  ghost predicate SourcesOk(s: State) {
    && DelegationsOk(s.delegations)
    && (forall l :: l in s.cpuLoans ==> l.staked >= 0)
    && (forall l :: l in s.netLoans ==> l.staked >= 0)
  }

  lemma {:induction false} StakedToNonNegative(loans: seq<Loan>, receiver: Name)
    requires forall l :: l in loans ==> l.staked >= 0
    ensures StakedTo(loans, receiver) >= 0
  {
    if |loans| > 0 {
      assert loans[0] in loans;
      StakedToNonNegative(loans[1..], receiver);
    }
  }

  lemma DueNonNegative(s: State, receiver: Name)
    requires SourcesOk(s)
    ensures NetDue(s, receiver) >= 0 && CpuDue(s, receiver) >= 0
  {
    SumBoundsRow(NetTo(s.delegations, receiver), (0, receiver));
    SumBoundsRow(CpuTo(s.delegations, receiver), (0, receiver));
    StakedToNonNegative(s.cpuLoans, receiver);
    StakedToNonNegative(s.netLoans, receiver);
  }

  lemma DelegationSums(m: map<(Name, Name), Weights>, from: Name, to: Name, w: Weights, r: Name)
    ensures var m' := WriteDelegation(m, from, to, w);
            var was := DelegationOf(m, from, to);
            && Sum(NetTo(m', r)) == Sum(NetTo(m, r)) + (if r == to then w.net - was.net else 0)
            && Sum(CpuTo(m', r)) == Sum(CpuTo(m, r)) + (if r == to then w.cpu - was.cpu else 0)
  {
    var m' := WriteDelegation(m, from, to, w);
    var k := (from, to);
    if r == to {
      if w.net == 0 && w.cpu == 0 {
        assert NetTo(m', r) == NetTo(m, r) - {k} && CpuTo(m', r) == CpuTo(m, r) - {k};
        SumErase(NetTo(m, r), k);
        SumErase(CpuTo(m, r), k);
      } else {
        assert NetTo(m', r) == NetTo(m, r)[k := w.net] && CpuTo(m', r) == CpuTo(m, r)[k := w.cpu];
        SumUpdate(NetTo(m, r), k, w.net);
        SumUpdate(CpuTo(m, r), k, w.cpu);
      }
    } else {
      assert NetTo(m', r) == NetTo(m, r) && CpuTo(m', r) == CpuTo(m, r);
    }
  }

  /** A source that changes and the limit that follows it. */
  lemma DelegationChangesDue(s: State, from: Name, to: Name, w: Weights)
    requires LimitsAgree(s)
    ensures var was := DelegationOf(s.delegations, from, to);
            LimitsPending(s.(delegations := WriteDelegation(s.delegations, from, to, w)), to, w.net - was.net, w.cpu - was.cpu)
  {
    var s' := s.(delegations := WriteDelegation(s.delegations, from, to, w));
    var was := DelegationOf(s.delegations, from, to);
    var net, cpu := w.net - was.net, w.cpu - was.cpu;
    forall r: Name ensures AgreesOnce(s', r, to, net, cpu) {
      assert Agrees(s, r);
      DelegationSums(s.delegations, from, to, w, r);
    }
  }

  /** A pending change is settled without failing a check, and then every limit agrees. */
  lemma SettleLimits(s: State, receiver: Name, net: int, cpu: int)
    requires LimitsPending(s, receiver, net, cpu) && SourcesOk(s)
    ensures AddToLimits(s.resources, receiver, net, cpu).Ok?
    ensures LimitsAgree(s.(resources := AddToLimits(s.resources, receiver, net, cpu).value))
    ensures UpdateResourceLimits(s, receiver, net, cpu).Ok?
    ensures LimitsAgree(UpdateResourceLimits(s, receiver, net, cpu).value)
  {
    assert AgreesOnce(s, receiver, receiver, net, cpu);
    DueNonNegative(s, receiver);
    var s' := s.(resources := AddToLimits(s.resources, receiver, net, cpu).value);
    forall r: Name ensures Agrees(s', r) {
      assert AgreesOnce(s, r, receiver, net, cpu);
    }
    if net == 0 && cpu == 0 {
      forall r: Name ensures Agrees(s, r) {
        assert AgreesOnce(s, r, receiver, net, cpu);
      }
    }
  }

  // ---------- maintenance ----------

  lemma LimitsFrame(s: State, s': State)
    requires LimitsAgree(s)
    requires s'.resources == s.resources && s'.delegations == s.delegations
    requires s'.cpuLoans == s.cpuLoans && s'.netLoans == s.netLoans
    ensures LimitsAgree(s')
  {
    forall r: Name ensures Agrees(s', r) {
      assert Agrees(s, r);
    }
  }

  /** A change of one loan table moves what is due to one receiver. */
  lemma LoanChangesDue(s: State, kind: Kind, loans: seq<Loan>, receiver: Name, delta: int)
    requires LimitsAgree(s)
    requires forall r: Name :: StakedTo(loans, r) == StakedTo(s.Loans(kind), r) + (if r == receiver then delta else 0)
    ensures LimitsPending(s.WithLoans(kind, loans), receiver, if kind.Net? then delta else 0, if kind.Cpu? then delta else 0)
  {
    var s' := s.WithLoans(kind, loans);
    var net := if kind.Net? then delta else 0;
    var cpu := if kind.Cpu? then delta else 0;
    forall r: Name ensures AgreesOnce(s', r, receiver, net, cpu) {
      assert Agrees(s, r);
    }
  }

  lemma SettleLoanLimits(s: State, kind: Kind, receiver: Name, delta: int)
    requires LimitsPending(s, receiver, if kind.Net? then delta else 0, if kind.Cpu? then delta else 0) && SourcesOk(s)
    ensures ChangeLimit(s, kind, receiver, delta).Ok?
    ensures LimitsAgree(ChangeLimit(s, kind, receiver, delta).value)
  {
    SettleLimits(s, receiver, if kind.Net? then delta else 0, if kind.Cpu? then delta else 0);
  }

  /** Limits agree with their sources, and delegations are not negative. */
  ghost predicate LimitsOk(s: State) {
    LimitsAgree(s) && DelegationsOk(s.delegations)
  }

  lemma BooksGiveSources(s: State)
    requires Books(s) && LimitsOk(s)
    ensures SourcesOk(s)
  {
    forall l | l in s.cpuLoans || l in s.netLoans ensures l.staked >= 0 {
      assert LoanOk(l, s.now, LastLoanNum(s.pool));
    }
  }

  lemma RenewalKeepsSources(s: State, kind: Kind)
    requires SourcesOk(s) && s.pool.Some? && |s.Loans(kind)| > 0 && Renews(s, kind) && s.Loans(kind)[0].payment >= 0
    ensures var loans := InsertLoan(s.Loans(kind)[1..], Renewed(s.Loans(kind)[0], RentedAgain(s, kind)));
            var p := AddLoan(PoolAfterRelease(s, kind), s.Loans(kind)[0].payment, RentedAgain(s, kind), false);
            SourcesOk(s.(pool := Some(p)).WithLoans(kind, loans))
  {
    hide BancorOutput, AddLoan, RentedAgain;
    InsertLoanMembers(s.Loans(kind)[1..], Renewed(s.Loans(kind)[0], RentedAgain(s, kind)));
    assert s.Loans(kind) == [s.Loans(kind)[0]] + s.Loans(kind)[1..];
  }

  lemma RenewalPays(s: State, kind: Kind)
    requires Books(s) && s.pool.Some? && |s.Loans(kind)| > 0
    ensures s.Loans(kind)[0].payment > 0
  {
    assert s.Loans(kind)[0] in s.Loans(kind) && LoanOk(s.Loans(kind)[0], s.now, LastLoanNum(s.pool));
  }

  lemma RenewKeepsLimits(s: State, kind: Kind)
    requires Books(s) && LimitsOk(s) && s.pool.Some? && HasExpiredLoan(s, kind) && Renews(s, kind)
    ensures RenewLoan(s, kind).Ok? && LimitsOk(RenewLoan(s, kind).value)
  {
    hide Books, LimitsAgree, LimitsPending, RentedAgain, PoolAfterRelease, AddLoan, ChangeLimit, SourcesOk, InsertLoan,
      Renews, DelegationsOk;
    BooksGiveSources(s);
    RenewalPays(s, kind);
    RenewalKeepsSources(s, kind);
    var l := s.Loans(kind)[0];
    var rest := s.Loans(kind)[1..];
    var rented := RentedAgain(s, kind);
    var loans := InsertLoan(rest, Renewed(l, rented));
    var s0 := s.(pool := Some(AddLoan(PoolAfterRelease(s, kind), l.payment, rented, false)));
    InsertLoanTotals(rest, Renewed(l, rented));
    LimitsFrame(s, s0);
    LoanChangesDue(s0, kind, loans, l.receiver, rented - l.staked);
    SettleLoanLimits(s0.WithLoans(kind, loans), kind, l.receiver, rented - l.staked);
    ChangeLimitFrame(s0.WithLoans(kind, loans), kind, l.receiver, rented - l.staked);
  }

  /** The limits do not depend on the loan tables, so the erase can come last. */
  lemma ChangeLimitCommutes(s: State, kind: Kind, loans: seq<Loan>, receiver: Name, delta: int)
    ensures var r := ChangeLimit(s, kind, receiver, delta);
            var r' := ChangeLimit(s.WithLoans(kind, loans), kind, receiver, delta);
            && r.Ok? == r'.Ok?
            && (r.Ok? ==> r.value.WithLoans(kind, loans) == r'.value)
  {
  }

  lemma CloseKeepsLimits(s: State, kind: Kind)
    requires Books(s) && LimitsOk(s) && s.pool.Some? && |s.Loans(kind)| > 0
    ensures CloseLoan(s, kind).Ok? && LimitsOk(CloseLoan(s, kind).value)
  {
    BooksGiveSources(s);
    hide Books, LimitsAgree, LimitsPending, PoolAfterRelease, ChangeLimit, PayIntoFund;
    var l := s.Loans(kind)[0];
    var rest := s.Loans(kind)[1..];
    assert s.Loans(kind) == [l] + rest;
    var s0 := s.(pool := Some(PoolAfterRelease(s, kind)));
    PayIntoFundFrame(s0, l.from, l.balance);
    var s1 := PayIntoFund(s0, l.from, l.balance).value;
    LimitsFrame(s, s1);
    LoanChangesDue(s1, kind, rest, l.receiver, -l.staked);
    SettleLoanLimits(s1.WithLoans(kind, rest), kind, l.receiver, -l.staked);
    ChangeLimitCommutes(s1, kind, rest, l.receiver, -l.staked);
    ChangeLimitFrame(s1.WithLoans(kind, rest), kind, l.receiver, -l.staked);
  }

  /** Processing expired loans never fails a check. */
  lemma {:induction false} ProcessLoansSucceeds(s: State, kind: Kind, max: nat)
    requires Books(s) && LimitsOk(s) && s.pool.Some?
    ensures ProcessLoans(s, kind, max).Ok?
    ensures var s' := ProcessLoans(s, kind, max).value;
            LimitsOk(s') && s'.delegations == s.delegations
    decreases max
  {
    hide Books, LimitsOk, PriceRose, ChangeLimit, PoolAfterRelease, RentedAgain;
    if max > 0 && HasExpiredLoan(s, kind) {
      if Renews(s, kind) {
        RenewKeepsLimits(s, kind);
        RenewLoanFrame(s, kind);
        RenewLoanKeepsBooks(s, kind);
      } else {
        CloseKeepsLimits(s, kind);
        CloseLoanFrame(s, kind);
        CloseLoanKeepsBooks(s, kind);
      }
      hide RenewLoan, CloseLoan;
      ProcessLoansSucceeds(ProcessExpiredLoan(s, kind).value, kind, max - 1);
    }
  }

  lemma {:induction false} ProcessOrdersFrame(s: State, i: nat, max: nat)
    requires ProcessOrders(s, i, max).Ok?
    ensures var s' := ProcessOrders(s, i, max).value;
            s' == s.(pool := s'.pool, balances := s'.balances, orders := s'.orders)
    decreases max
  {
    hide FillFromPool, CloseOrder;
    if max > 0 && s.pool.Some? && i < |s.orders| && s.orders[i].open {
      var o := s.orders[i];
      if o.owner !in s.balances {
        ProcessOrdersFrame(s, i + 1, max - 1);
      } else {
        var fill := FillFromPool(s.pool.value, o.requested).value;
        if fill.NotFilled? {
          ProcessOrdersFrame(s, i + 1, max - 1);
        } else {
          var s1 := DebitRex(s.(pool := Some(fill.pool)), o.owner, o.requested);
          ProcessOrdersFrame(s1.(orders := CloseOrder(s1.orders, i, fill.proceeds)), i, max - 1);
        }
      }
    }
  }

  /** The auction account still holds the proceeds it has announced. */
  ghost predicate NamebidsFunded(s: State) {
    RexAvailable(s.pool) ==> s.pool.value.namebid <= Held(s.tokens, NAMES_ACCOUNT)
  }

  lemma ChannelNamebidsFrame(s: State)
    requires s.pool.Some? && ChannelNamebids(s).Ok?
    ensures var s' := ChannelNamebids(s).value;
            s' == s.(pool := s'.pool, tokens := s'.tokens) && s'.pool.Some?
  {
  }

  /** Maintenance never fails once there is a pool, as long as announced name proceeds are paid in. */
  lemma RunRexSucceeds(s: State, max: nat)
    requires Books(s) && LimitsOk(s)
    ensures RunRex(s, max).Ok? <==> s.pool.Some? && ChannelNamebids(s).Ok?
    ensures s.pool.Some? && NamebidsFunded(s) ==> RunRex(s, max).Ok?
    ensures RunRex(s, max).Ok? ==>
              var s' := RunRex(s, max).value;
              LimitsOk(s') && s'.delegations == s.delegations && s'.refunds == s.refunds && s'.ram == s.ram
  {
    if s.pool.Some? && ChannelNamebids(s).Ok? {
      ChannelNamebidsFrame(s);
      ChannelNamebidsKeepsBooks(s);
      hide Books, LimitsAgree, ProcessLoans, ProcessOrders;
      var s1 := ChannelNamebids(s).value;
      LimitsFrame(s, s1);
      ProcessLoansSucceeds(s1, Cpu, max);
      ProcessLoansKeepsBooks(s1, Cpu, max);
      ProcessLoansFrame(s1, Cpu, max);
      var s2 := ProcessLoans(s1, Cpu, max).value;
      ProcessLoansSucceeds(s2, Net, max);
      ProcessLoansKeepsBooks(s2, Net, max);
      ProcessLoansFrame(s2, Net, max);
      var s3 := ProcessLoans(s2, Net, max).value;
      ProcessOrdersKeepsBooks(s3, 0, max);
      ProcessOrdersFrame(s3, 0, max);
      LimitsFrame(s3, ProcessOrders(s3, 0, max).value);
    }
    if s.pool.Some? && NamebidsFunded(s) {
      NamebidsPaid(s);
    }
  }

  lemma NamebidsPaid(s: State)
    requires s.pool.Some? && NamebidsFunded(s)
    ensures ChannelNamebids(s).Ok?
  {
  }

  lemma {:induction false} ProcessLoansFrame(s: State, kind: Kind, max: nat)
    requires ProcessLoans(s, kind, max).Ok? && s.pool.Some?
    ensures var s' := ProcessLoans(s, kind, max).value;
            s' == s.(pool := s'.pool, funds := s'.funds, resources := s'.resources).WithLoans(kind, s'.Loans(kind))
    decreases max
  {
    if max > 0 && HasExpiredLoan(s, kind) {
      if Renews(s, kind) {
        RenewLoanFrame(s, kind);
      } else {
        CloseLoanFrame(s, kind);
      }
      hide RenewLoan, CloseLoan;
      ProcessLoansFrame(ProcessExpiredLoan(s, kind).value, kind, max - 1);
    }
  }
}
