/** What renting, renewing, closing, funding and defunding a loan do to the tables. */
module RexLoanEffects {
  import opened Outcomes
  import opened RexState
  import opened RexActions
  import opened MapSums
  import opened RexPool
  import opened RexPrices
  import opened RexTables
  import opened RexMaturities
  import opened RexBooks
  import opened RexSteps
  import opened Bandwidth
  import opened Staking
  import opened RamMarket
  import opened RexRuns
  import opened RexTheorems
  import opened RexEffects

  /** 30 days, in microseconds. */
  ghost function ThirtyDays(): nat {
    30 * 24 * 3600 * 1_000_000
  }

  ghost predicate NoOpenOrder(s: State) {
    forall o :: o in s.orders ==> !o.open
  }

  /** The limit of one kind of one receiver changes, every other limit and every quota stays. */
  ghost predicate LimitMoves(s: State, s': State, kind: Kind, receiver: Name, delta: int) {
    forall x: Name ::
      var was, now := ResourcesOf(s.resources, x), ResourcesOf(s'.resources, x);
      && now.ram == was.ram
      && now.net == was.net + (if x == receiver && kind.Net? then delta else 0)
      && now.cpu == was.cpu + (if x == receiver && kind.Cpu? then delta else 0)
  }

  /** Adding to one row, which is dropped when nothing is left in it. */
  lemma AddToLimitsExactly(m: map<Name, Resources>, receiver: Name, dNet: int, dCpu: int, x: Name)
    requires AddToLimits(m, receiver, dNet, dCpu).Ok?
    ensures var was, now := ResourcesOf(m, x), ResourcesOf(AddToLimits(m, receiver, dNet, dCpu).value, x);
            && now.ram == was.ram && now.net == was.net + (if x == receiver then dNet else 0)
            && now.cpu == was.cpu + (if x == receiver then dCpu else 0)
  {
  }

  lemma LimitExactly(s: State, kind: Kind, receiver: Name, delta: int)
    requires ChangeLimit(s, kind, receiver, delta).Ok?
    ensures var s' := ChangeLimit(s, kind, receiver, delta).value;
            s' == s.(resources := s'.resources) && LimitMoves(s, s', kind, receiver, delta)
  {
    hide AddToLimits;
    var dNet, dCpu := if kind.Net? then delta else 0, if kind.Cpu? then delta else 0;
    if delta != 0 {
      forall x: Name {
        AddToLimitsExactly(s.resources, receiver, dNet, dCpu, x);
      }
    }
  }

  lemma {:induction false} InsertLoanRows(loans: seq<Loan>, l: Loan)
    ensures multiset(InsertLoan(loans, l)) == multiset(loans) + multiset{l}
  {
    if |loans| > 0 && !LoanBefore(l, loans[0]) {
      InsertLoanRows(loans[1..], l);
    }
    if |loans| > 0 {
      assert loans == [loans[0]] + loans[1..];
    }
  }

  lemma FirstRow(loans: seq<Loan>)
    requires |loans| > 0
    ensures multiset(loans[1..]) == multiset(loans) - multiset{loans[0]}
  {
    assert loans == [loans[0]] + loans[1..];
  }

  // ---------- expired loans ----------

  /** The pool's price and the loan's balance allow another term, and no sale waits. */
  ghost predicate ShouldRenew(s: State, l: Loan) {
    && s.pool.Some? && NoOpenOrder(s) && l.payment <= l.balance
    && l.payment < Quote(Returned(s.pool.value, l.staked), l.payment)
  }

  /** One payment buys another term: same number, parties and payment, 30 days more, the tokens at today's price. */
  ghost predicate LoanRenewed(s: State, s': State, kind: Kind, l: Loan)
    requires s.pool.Some?
  {
    var q := Returned(s.pool.value, l.staked);
    var rented := Quote(q, l.payment);
    && s' == s.(pool := s'.pool, resources := s'.resources).WithLoans(kind, s'.Loans(kind))
    && s'.pool == Some(LentOut(q, l.payment, rented))
    && multiset(s'.Loans(kind))
       == multiset(s.Loans(kind)) - multiset{l}
          + multiset{Loan(l.from, l.receiver, l.payment, l.balance - l.payment, rented, l.num, l.expiration + ThirtyDays())}
    && LimitMoves(s, s', kind, l.receiver, rented - l.staked)
  }

  /** The loan is gone, what was left of its balance is in the fund of its sender. */
  ghost predicate LoanClosed(s: State, s': State, kind: Kind, l: Loan)
    requires s.pool.Some?
  {
    && s' == s.(pool := s'.pool, funds := s'.funds, resources := s'.resources).WithLoans(kind, s'.Loans(kind))
    && s'.pool == Some(Returned(s.pool.value, l.staked))
    && multiset(s'.Loans(kind)) == multiset(s.Loans(kind)) - multiset{l}
    && FundChanges(s, s', l.from, l.balance)
    && LimitMoves(s, s', kind, l.receiver, -l.staked)
  }

  lemma ReleasedPool(s: State, kind: Kind)
    requires Books(s) && s.pool.Some? && |s.Loans(kind)| > 0
    ensures var l := s.Loans(kind)[0];
            var q := Returned(s.pool.value, l.staked);
            && PoolAfterRelease(s, kind) == q && PoolSound(q) && q.rex > 0
            && l.payment > 0 && l.staked > 0 && l.balance >= 0 && RentedAgain(s, kind) == Quote(q, l.payment)
  {
    var l := s.Loans(kind)[0];
    assert l in s.Loans(kind);
    LoanIsLent(s, kind);
    ReturnExact(s.pool.value, l.staked);
    ReleaseLoanSound(s.pool.value, l.staked);
    hide Books;
    QuoteExact(Returned(s.pool.value, l.staked), l.payment);
  }

  lemma LoanIsLent(s: State, kind: Kind)
    requires Books(s) && s.pool.Some? && |s.Loans(kind)| > 0
    ensures PoolSound(s.pool.value) && 0 <= s.Loans(kind)[0].staked <= s.pool.value.lent && s.pool.value.rex > 0
  {
    StakedBounds(s.cpuLoans);
    StakedBounds(s.netLoans);
  }

  lemma RenewsExactly(s: State, kind: Kind)
    requires Books(s) && s.pool.Some? && |s.Loans(kind)| > 0
    ensures Renews(s, kind) <==> ShouldRenew(s, s.Loans(kind)[0])
  {
    ReleasedPool(s, kind);
    BooksHaveOrders(s);
    hide Books, PoolAfterRelease, RentedAgain, Quote, Returned, OrdersOk;
    NoneOpenFirst(s.orders);
  }

  lemma NoneOpenFirst(orders: seq<Order>)
    requires OrderTable(orders)
    ensures (|orders| == 0 || !orders[0].open) <==> forall o :: o in orders ==> !o.open
  {
    hide OrderTable;
    forall o | o in orders && o.open ensures orders[0].open {
      OpenOrdersFirst(orders, o);
    }
  }

  lemma RenewExactly(s: State, kind: Kind)
    requires Books(s) && s.pool.Some? && |s.Loans(kind)| > 0 && RenewLoan(s, kind).Ok?
    ensures LoanRenewed(s, RenewLoan(s, kind).value, kind, s.Loans(kind)[0])
  {
    hide Books, PoolSound, PoolAfterRelease, RentedAgain, Quote, Returned, LentOut, AddLoan, InsertLoan, ChangeLimit, LimitMoves;
    var loans := s.Loans(kind);
    var l := loans[0];
    var q := Returned(s.pool.value, l.staked);
    var rented := Quote(q, l.payment);
    var renewed := Loan(l.from, l.receiver, l.payment, l.balance - l.payment, rented, l.num, l.expiration + ThirtyDays());
    ReleasedPool(s, kind);
    RenewalPool(q, l.payment, rented);
    InsertLoanRows(loans[1..], renewed);
    FirstRow(loans);
    var s1 := s.(pool := Some(LentOut(q, l.payment, rented))).WithLoans(kind, InsertLoan(loans[1..], renewed));
    assert Renewed(l, rented) == renewed;
    LimitExactly(s1, kind, l.receiver, rented - l.staked);
    LimitsOfSameRows(s, s1, RenewLoan(s, kind).value, kind, l.receiver, rented - l.staked);
  }

  lemma RenewalPool(p: Pool, payment: int, rented: int)
    requires PoolSound(p)
    ensures AddLoan(p, payment, rented, false) == LentOut(p, payment, rented)
  {
    LendExact(p, payment, rented, false);
  }

  lemma LimitsOfSameRows(s: State, s1: State, s': State, kind: Kind, receiver: Name, delta: int)
    requires s1.resources == s.resources && LimitMoves(s1, s', kind, receiver, delta)
    ensures LimitMoves(s, s', kind, receiver, delta)
  {
  }

  lemma CloseExactlyOne(s: State, kind: Kind)
    requires Books(s) && s.pool.Some? && |s.Loans(kind)| > 0 && CloseLoan(s, kind).Ok?
    ensures LoanClosed(s, CloseLoan(s, kind).value, kind, s.Loans(kind)[0])
  {
    var l := s.Loans(kind)[0];
    ReleasedPool(s, kind);
    FirstRow(s.Loans(kind));
    hide Books, PoolSound, PoolAfterRelease, Returned, PayIntoFund, ChangeLimit, LimitMoves, FundChanges;
    var s0 := s.(pool := Some(PoolAfterRelease(s, kind)));
    PayIntoFundExactly(s0, l.from, l.balance);
    var s1 := PayIntoFund(s0, l.from, l.balance).value;
    LimitExactly(s1, kind, l.receiver, -l.staked);
    ClosedFrame(s, s0, s1, ChangeLimit(s1, kind, l.receiver, -l.staked).value, CloseLoan(s, kind).value, kind, l);
  }

  lemma ClosedFrame(s: State, s0: State, s1: State, s2: State, s': State, kind: Kind, l: Loan)
    requires s0.funds == s.funds && s1.resources == s.resources && FundChanges(s0, s1, l.from, l.balance)
    requires LimitMoves(s1, s2, kind, l.receiver, -l.staked) && s'.funds == s1.funds && s'.resources == s2.resources
    ensures FundChanges(s, s', l.from, l.balance) && LimitMoves(s, s', kind, l.receiver, -l.staked)
  {
  }

  /**
   * An expired loan is renewed exactly when no order is open, its balance covers
   * another payment, and that payment rents more tokens than it costs; then it
   * runs 30 days longer for one payment. Otherwise it is closed.
   */
  lemma ExpiredLoanExactly(s: State, kind: Kind)
    requires Books(s) && LimitsOk(s) && s.pool.Some? && HasExpiredLoan(s, kind)
    ensures ProcessExpiredLoan(s, kind).Ok?
    ensures var l, s' := s.Loans(kind)[0], ProcessExpiredLoan(s, kind).value;
            if ShouldRenew(s, l) then LoanRenewed(s, s', kind, l) else LoanClosed(s, s', kind, l)
  {
    hide Books, LimitsOk, RenewLoan, CloseLoan, Renews, ShouldRenew, LoanRenewed, LoanClosed;
    ProcessLoansSucceeds(s, kind, 1);
    assert ProcessLoans(s, kind, 1).Ok?;
    RenewsExactly(s, kind);
    if Renews(s, kind) {
      RenewExactly(s, kind);
    } else {
      CloseExactlyOne(s, kind);
    }
  }

  /** The same in every state of every run. */
  lemma ExpiredLoanInEveryRun(s0: State, q0: int, actions: seq<Action>, kind: Kind)
    requires Genesis(s0, q0) && HasExpiredLoan(Run(s0, actions), kind)
    ensures var s := Run(s0, actions);
            && s.pool.Some? && ProcessExpiredLoan(s, kind).Ok?
            && var l, s' := s.Loans(kind)[0], ProcessExpiredLoan(s, kind).value;
               if ShouldRenew(s, l) then LoanRenewed(s, s', kind, l) else LoanClosed(s, s', kind, l)
  {
    GenesisInvariant(s0, q0);
    RunKeepsInvariant(s0, actions, q0);
    hide Genesis, Books, LimitsOk, RamOk, RefundsOk, Run, ShouldRenew, LoanRenewed, LoanClosed, ProcessExpiredLoan;
    var s := Run(s0, actions);
    LoansNeedPool(s, kind);
    ExpiredLoanExactly(s, kind);
  }

  lemma LoansNeedPool(s: State, kind: Kind)
    requires Books(s) && |s.Loans(kind)| > 0
    ensures s.pool.Some?
  {
    if s.pool.None? {
      EmptyPoolHasNoLoans(s);
    }
  }

  // ---------- the loop ----------

  lemma {:induction false} LoansByDate(loans: seq<Loan>, i: nat, j: nat)
    requires LoanTable(loans) && i < j < |loans|
    ensures loans[i].expiration < loans[j].expiration
         || (loans[i].expiration == loans[j].expiration && loans[i].num < loans[j].num)
  {
    if i == 0 {
      assert loans[1..][j - 1] == loans[j];
    } else {
      LoansByDate(loans[1..], i - 1, j - 1);
    }
  }

  lemma FirstExpires(loans: seq<Loan>, l: Loan)
    requires LoanTable(loans) && l in loans
    ensures loans[0].expiration <= l.expiration
  {
    hide LoanTable;
    var k :| 0 <= k < |loans| && loans[k] == l;
    if k > 0 {
      LoansByDate(loans, 0, k);
    }
  }

  ghost predicate AnyExpired(s: State, kind: Kind) {
    exists l :: l in s.Loans(kind) && l.expiration <= s.now
  }

  /** One pass of the loop: the expired loan with the earliest date is renewed or closed. */
  ghost predicate LoanPass(s: State, s': State, kind: Kind) {
    s.pool.Some? && exists l ::
      && l in s.Loans(kind) && l.expiration <= s.now && (forall x :: x in s.Loans(kind) ==> l.expiration <= x.expiration)
      && (if ShouldRenew(s, l) then LoanRenewed(s, s', kind, l) else LoanClosed(s, s', kind, l))
  }

  /** Passes one after the other, from the first state of the trace to the last. */
  ghost predicate LoanPasses(trace: seq<State>, kind: Kind) {
    |trace| > 0 && forall k :: 0 <= k < |trace| - 1 ==> LoanPass(trace[k], trace[k + 1], kind)
  }

  lemma ExpiredIsFirst(s: State, kind: Kind)
    requires Books(s)
    ensures HasExpiredLoan(s, kind) <==> AnyExpired(s, kind)
    ensures |s.Loans(kind)| > 0 ==> forall x :: x in s.Loans(kind) ==> s.Loans(kind)[0].expiration <= x.expiration
  {
    assert LoanTable(s.Loans(kind));
    hide Books, LoanTable;
    forall x | x in s.Loans(kind) ensures s.Loans(kind)[0].expiration <= x.expiration {
      FirstExpires(s.Loans(kind), x);
    }
  }

  lemma OnePass(s: State, kind: Kind)
    requires Books(s) && LimitsOk(s) && s.pool.Some? && HasExpiredLoan(s, kind)
    ensures ProcessExpiredLoan(s, kind).Ok? && LoanPass(s, ProcessExpiredLoan(s, kind).value, kind)
  {
    hide Books, LimitsOk, ProcessExpiredLoan, ShouldRenew, LoanRenewed, LoanClosed;
    ExpiredLoanExactly(s, kind);
    ExpiredIsFirst(s, kind);
    assert s.Loans(kind)[0] in s.Loans(kind);
  }

  lemma PassKeeps(s: State, kind: Kind)
    requires Books(s) && LimitsOk(s) && s.pool.Some? && HasExpiredLoan(s, kind) && ProcessExpiredLoan(s, kind).Ok?
    ensures var s' := ProcessExpiredLoan(s, kind).value;
            Books(s') && LimitsOk(s') && s'.pool.Some? && s'.now == s.now
    ensures ProcessLoans(s, kind, 1) == ProcessExpiredLoan(s, kind)
  {
    hide Books, LimitsOk, ProcessExpiredLoan, PriceRose;
    ProcessLoansSucceeds(s, kind, 1);
    ProcessLoansKeepsBooks(s, kind, 1);
  }

  /**
   * The loop makes one pass after another, until no loan of the table is expired
   * or `max` passes have been made.
   */
  lemma {:induction false} LoansLoopExactly(s: State, kind: Kind, max: nat) returns (trace: seq<State>)
    requires Books(s) && LimitsOk(s) && s.pool.Some?
    ensures LoanPasses(trace, kind) && trace[0] == s && |trace| <= max + 1
    ensures ProcessLoans(s, kind, max) == Ok(trace[|trace| - 1])
    ensures |trace| == max + 1 || !AnyExpired(trace[|trace| - 1], kind)
    decreases max
  {
    hide Books, LimitsOk, ProcessExpiredLoan, LoanPass, AnyExpired;
    ExpiredIsFirst(s, kind);
    if max == 0 || !HasExpiredLoan(s, kind) {
      trace := [s];
    } else {
      OnePass(s, kind);
      PassKeeps(s, kind);
      var s1 := ProcessExpiredLoan(s, kind).value;
      var rest := LoansLoopExactly(s1, kind, max - 1);
      trace := [s] + rest;
      forall k | 0 <= k < |trace| - 1 ensures LoanPass(trace[k], trace[k + 1], kind) {
        if k > 0 {
          assert trace[k] == rest[k - 1] && trace[k + 1] == rest[k];
        }
      }
    }
  }

  // ---------- renting ----------

  /** What renting asks of the state after maintenance. */
  ghost predicate CanRent(s: State, from: Name, payment: int, fund: int) {
    && RexOf(s.pool) > 0 && NoOpenOrder(s) && payment > 0 && fund >= 0
    && payment + fund <= Get(s.funds, from) && payment < Quote(s.pool.value, payment)
  }

  /** A new loan of 30 days at the quoted price: paid from the fund, numbered next, lent to the receiver. */
  ghost predicate LoanGranted(s: State, s': State, kind: Kind, from: Name, receiver: Name, payment: int, fund: int)
    requires s.pool.Some?
  {
    var p := s.pool.value;
    var rented := Quote(p, payment);
    && s' == s.(pool := s'.pool, funds := s'.funds, resources := s'.resources).WithLoans(kind, s'.Loans(kind))
    && s'.pool == Some(LentOut(p, payment, rented).(loanNum := p.loanNum + 1))
    && multiset(s'.Loans(kind))
       == multiset(s.Loans(kind))
          + multiset{Loan(from, receiver, payment, fund, rented, p.loanNum + 1, s.now + ThirtyDays())}
    && FundChanges(s, s', from, -(payment + fund))
    && LimitMoves(s, s', kind, receiver, rented)
  }

  /** Renting succeeds exactly when it can be paid for and gains tokens, and then grants that loan. */
  lemma RentExactly(s: State, kind: Kind, from: Name, receiver: Name, payment: int, fund: int)
    requires Books(s) && LimitsOk(s)
    ensures Rent(s, kind, from, receiver, payment, fund).Ok?
       <==> RunRex(s, 2).Ok? && CanRent(RunRex(s, 2).value, from, payment, fund)
    ensures Rent(s, kind, from, receiver, payment, fund).Ok? ==>
              && RunRex(s, 2).value.pool.Some?
              && LoanGranted(RunRex(s, 2).value, Rent(s, kind, from, receiver, payment, fund).value,
                             kind, from, receiver, payment, fund)
  {
    hide Books, LimitsOk, RunRex, Quote, LentOut, AddLoan, BancorOutput, InsertLoan, ChangeLimit, LimitMoves, FundChanges,
      PriceKept, LoansAvailable, TransferFromFund, LoanGranted, PoolSound;
    RentKeepsLimits(s, kind, from, receiver, payment, fund);
    if RunRex(s, 2).Ok? {
      MaintainFirst(s);
      var s1 := RunRex(s, 2).value;
      AvailableExactly(s1);
      TakeFromFundExactly(s1, from, payment + fund);
      if RexOf(s1.pool) > 0 && NoOpenOrder(s1) && payment > 0 && fund >= 0 && TransferFromFund(s1, from, payment + fund).Ok? {
        var s2 := TransferFromFund(s1, from, payment + fund).value;
        BooksPool(s1);
        QuoteExact(s1.pool.value, payment);
        var rented := Quote(s1.pool.value, payment);
        LendExact(s1.pool.value, payment, rented, true);
        if payment < rented {
          GrantExactly(s1, s2, kind, from, receiver, payment, fund, rented);
        }
      }
    }
  }

  lemma AvailableExactly(s: State)
    requires Books(s)
    ensures LoansAvailable(s) <==> RexOf(s.pool) > 0 && NoOpenOrder(s)
  {
    BooksHaveOrders(s);
    hide Books, OrdersOk, OrderTable;
    NoneOpenFirst(s.orders);
  }

  lemma BooksPool(s: State)
    requires Books(s)
    ensures s.pool.Some? ==> PoolSound(s.pool.value)
  {
  }

  lemma GrantExactly(s1: State, s2: State, kind: Kind, from: Name, receiver: Name, payment: int, fund: int, rented: int)
    requires s1.pool.Some? && s2 == s1.(funds := s2.funds) && FundChanges(s1, s2, from, -(payment + fund))
    requires rented == Quote(s1.pool.value, payment)
    ensures var p := LentOut(s1.pool.value, payment, rented).(loanNum := s1.pool.value.loanNum + 1);
            var loan := Loan(from, receiver, payment, fund, rented, p.loanNum, s1.now + LOAN_TERM);
            var r := ChangeLimit(s2.(pool := Some(p)).WithLoans(kind, InsertLoan(s2.Loans(kind), loan)), kind, receiver, rented);
            if r.Ok? then LoanGranted(s1, r.value, kind, from, receiver, payment, fund) else Unreachable(r.check)
  {
    hide Quote, LentOut, InsertLoan, ChangeLimit, LimitMoves, FundChanges;
    var p := LentOut(s1.pool.value, payment, rented).(loanNum := s1.pool.value.loanNum + 1);
    var loan := Loan(from, receiver, payment, fund, rented, p.loanNum, s1.now + LOAN_TERM);
    var s3 := s2.(pool := Some(p)).WithLoans(kind, InsertLoan(s2.Loans(kind), loan));
    InsertLoanRows(s2.Loans(kind), loan);
    LimitChecks(s3, kind, receiver, rented);
    var r := ChangeLimit(s3, kind, receiver, rented);
    if r.Ok? {
      LimitExactly(s3, kind, receiver, rented);
      LimitsOfSameRows(s1, s3, r.value, kind, receiver, rented);
      SameFunds(s1, s2, r.value, from, -(payment + fund));
    }
  }

  lemma SameFunds(s: State, s2: State, s': State, owner: Name, amount: int)
    requires FundChanges(s, s2, owner, amount) && s'.funds == s2.funds
    ensures FundChanges(s, s', owner, amount)
  {
  }

  lemma LimitChecks(s: State, kind: Kind, receiver: Name, delta: int)
    ensures ChangeLimit(s, kind, receiver, delta).Abort? ==> Unreachable(ChangeLimit(s, kind, receiver, delta).check)
  {
  }

  // ---------- the fund of a loan ----------

  /** The loan an account may fund or defund: its own, by number, not expired. */
  ghost predicate IsOwnLoan(l: Loan, s: State, kind: Kind, from: Name, num: nat) {
    l in s.Loans(kind) && l.num == num && l.from == from && l.expiration > s.now
  }

  /** One loan's balance changes by an amount taken from its sender's fund, and nothing else. */
  ghost predicate LoanFunded(s: State, s': State, kind: Kind, l: Loan, amount: int) {
    && s' == s.(funds := s'.funds).WithLoans(kind, s'.Loans(kind))
    && multiset(s'.Loans(kind)) == multiset(s.Loans(kind)) - multiset{l} + multiset{l.(balance := l.balance + amount)}
    && FundChanges(s, s', l.from, -amount)
  }

  lemma {:induction false} NumberIsUnique(loans: seq<Loan>, l: Loan)
    requires LoanTable(loans) && l in loans
    ensures FindLoan(loans, l.num) < |loans| && loans[FindLoan(loans, l.num)] == l
  {
    if loans[0] != l {
      assert l in loans[1..];
      NumberIsUnique(loans[1..], l);
    }
  }

  lemma ChangedRow(loans: seq<Loan>, i: nat, l: Loan)
    requires i < |loans|
    ensures multiset(loans[i := l]) == multiset(loans) - multiset{loans[i]} + multiset{l}
  {
  }

  /** The lookup finds the account's own running loan, if there is one. */
  lemma OwnLoanFound(s: State, kind: Kind, from: Name, num: nat)
    requires LoanTable(s.Loans(kind))
    ensures var loans := s.Loans(kind);
            var i := FindLoan(loans, num);
            && ((exists l :: IsOwnLoan(l, s, kind, from, num))
                <==> i < |loans| && loans[i].from == from && loans[i].expiration > s.now)
            && forall l :: IsOwnLoan(l, s, kind, from, num) ==> i < |loans| && loans[i] == l
  {
    hide LoanTable, FindLoan;
    var loans := s.Loans(kind);
    var i := FindLoan(loans, num);
    forall l | IsOwnLoan(l, s, kind, from, num) ensures i < |loans| && loans[i] == l {
      NumberIsUnique(loans, l);
    }
    if i < |loans| && loans[i].from == from && loans[i].expiration > s.now {
      assert loans[i] in loans;
      assert IsOwnLoan(loans[i], s, kind, from, num);
    }
  }

  lemma FundedRow(s: State, s': State, kind: Kind, i: nat, amount: int)
    requires i < |s.Loans(kind)| && FundChanges(s, s', s.Loans(kind)[i].from, -amount)
    requires s' == s.(funds := s'.funds).WithLoans(kind, s'.Loans(kind))
    requires s'.Loans(kind) == s.Loans(kind)[i := s.Loans(kind)[i].(balance := s.Loans(kind)[i].balance + amount)]
    ensures LoanFunded(s, s', kind, s.Loans(kind)[i], amount)
  {
    hide FundChanges;
    var l := s.Loans(kind)[i];
    ChangedRow(s.Loans(kind), i, l.(balance := l.balance + amount));
  }

  lemma SameRows(s: State, kind: Kind, loans: seq<Loan>)
    ensures s.WithLoans(kind, loans).Loans(kind) == loans
  {
  }

  /** Funding a loan is its sender's right alone, while it runs. */
  lemma FundExactly(s: State, kind: Kind, from: Name, num: nat, payment: int)
    requires LoanTable(s.Loans(kind))
    ensures FundLoan(s, kind, from, num, payment).Ok?
       <==> 0 < payment <= Get(s.funds, from) && exists l :: IsOwnLoan(l, s, kind, from, num)
    ensures forall l :: FundLoan(s, kind, from, num, payment).Ok? && IsOwnLoan(l, s, kind, from, num) ==>
              LoanFunded(s, FundLoan(s, kind, from, num, payment).value, kind, l, payment)
  {
    hide LoanTable, FindLoan, FundChanges, TransferFromFund, IsOwnLoan, LoanFunded;
    TakeFromFundExactly(s, from, payment);
    OwnLoanFound(s, kind, from, num);
    var r := FundLoan(s, kind, from, num, payment);
    if r.Ok? {
      SameFunds(s, TransferFromFund(s, from, payment).value, r.value, from, -payment);
      var i := FindLoan(s.Loans(kind), num);
      var l := s.Loans(kind)[i];
      SameRows(TransferFromFund(s, from, payment).value, kind, s.Loans(kind)[i := l.(balance := l.balance + payment)]);
      FundedRow(s, r.value, kind, i, payment);
    }
  }

  /** So is taking back what the loan has left. */
  lemma DefundExactly(s: State, kind: Kind, from: Name, num: nat, amount: int)
    requires LoanTable(s.Loans(kind))
    ensures DefundLoan(s, kind, from, num, amount).Ok?
       <==> amount > 0 && exists l :: IsOwnLoan(l, s, kind, from, num) && amount <= l.balance
    ensures forall l :: DefundLoan(s, kind, from, num, amount).Ok? && IsOwnLoan(l, s, kind, from, num) ==>
              LoanFunded(s, DefundLoan(s, kind, from, num, amount).value, kind, l, -amount)
  {
    hide LoanTable, FindLoan, IsOwnLoan, LoanFunded, TransferToFund;
    OwnLoanFound(s, kind, from, num);
    var r := DefundLoan(s, kind, from, num, amount);
    var i := FindLoan(s.Loans(kind), num);
    if i < |s.Loans(kind)| {
      var l := s.Loans(kind)[i];
      GiveToFundExactly(s.WithLoans(kind, s.Loans(kind)[i := l.(balance := l.balance - amount)]), from, amount);
      if r.Ok? {
        FundChangesFrom(s, s.WithLoans(kind, s.Loans(kind)[i := l.(balance := l.balance - amount)]), r.value, from, amount);
        SameRows(s, kind, s.Loans(kind)[i := l.(balance := l.balance - amount)]);
        FundedRow(s, r.value, kind, i, -amount);
      }
    }
  }

  lemma GiveToFundExactly(s: State, owner: Name, amount: int)
    ensures TransferToFund(s, owner, amount).Ok? <==> amount > 0
    ensures TransferToFund(s, owner, amount).Ok? ==>
              var s' := TransferToFund(s, owner, amount).value;
              s' == s.(funds := s'.funds) && FundChanges(s, s', owner, amount)
  {
  }
}
