/**
 * The system contract itself: its tables, and its actions as they change the
 * tables row by row. Each method is proved against the function of module
 * `RexActions` that says what it does.
 */
module SystemContract {
  import opened Outcomes
  import opened RexState
  import Spec = RexActions
  import RexRuns

  class Contract {
    var now: nat
    var pool: Option<Pool>
    var funds: map<Name, int>
    var balances: map<Name, RexBalance>
    var cpuLoans: seq<Loan>
    var netLoans: seq<Loan>
    var orders: seq<Order>
    var resources: map<Name, Resources>
    var delegations: map<(Name, Name), Weights>
    var refunds: map<Name, Refund>
    var tokens: map<Name, int>
    var ram: Ram

    function View(): State
      reads this
    {
      State(now, pool, funds, balances, cpuLoans, netLoans, orders, resources, delegations, refunds, tokens, ram)
    }

    /** A method ends as its specification says: in the given state, or with the given check failed. */
    ghost predicate Yields(r: Result<()>, spec: Result<State>)
      reads this
    {
      match spec
      case Ok(s') => r == Ok(()) && View() == s'
      case Abort(c) => r == Abort(c)
    }

    function Loans(kind: Kind): seq<Loan>
      reads this
    {
      if kind.Cpu? then cpuLoans else netLoans
    }

    /** Action `init`: opens the RAM market over the free RAM, with a thousandth of the token supply. */
    constructor (start: nat, holdings: map<Name, int>, supply: nat, ramSize: nat, ramRate: nat)
      requires start < CLOCK_LIMIT && supply > 0
      ensures RexRuns.Genesis(View(), supply / 1000)
      ensures now == start && tokens == holdings && ram.maxSize == ramSize && ram.rate == ramRate
    {
      now, pool := start, None;
      funds, balances, cpuLoans, netLoans, orders := map[], map[], [], [], [];
      resources, delegations, refunds := map[], map[], map[];
      tokens := holdings;
      ram := Ram(ramSize, supply / 1000, ramSize, 0, 0, ramRate, BlockSlot(start));
    }

    // ---------- tokens and REX funds ----------

    method Transfer(from: Name, to: Name, amount: int) returns (r: Result<()>)
      modifies this`tokens
      ensures Yields(r, Spec.TransferTokens(old(View()), from, to, amount))
    {
      if from == to { return Abort(TransferToSelf); }
      if amount <= 0 { return Abort(TransferNotPositive); }
      if amount > Held(tokens, from) { return Abort(Overdrawn); }
      tokens := tokens[from := Held(tokens, from) - amount];
      tokens := tokens[to := Held(tokens, to) + amount];
      return Ok(());
    }

    method TransferFromFund(owner: Name, amount: int) returns (r: Result<()>)
      modifies this`funds
      ensures Yields(r, Spec.TransferFromFund(old(View()), owner, amount))
    {
      if amount <= 0 { return Abort(FundTransferNotPositive); }
      if owner !in funds { return Abort(FundMissing); }
      if amount > funds[owner] { return Abort(FundInsufficient); }
      funds := funds[owner := funds[owner] - amount];
      return Ok(());
    }

    method TransferToFund(owner: Name, amount: int) returns (r: Result<()>)
      modifies this`funds
      ensures Yields(r, Spec.TransferToFund(old(View()), owner, amount))
    {
      if amount <= 0 { return Abort(FundTransferNotPositive); }
      if owner !in funds {
        funds := funds[owner := amount];
      } else {
        funds := funds[owner := funds[owner] + amount];
      }
      return Ok(());
    }

    /** Collects the owner's filled order, if any; returns the REX of an open one. */
    method UpdateRexAccount(owner: Name, proceeds: int) returns (r: Result<int>)
      modifies this`funds, this`orders
      ensures match Spec.UpdateRexAccount(old(View()), owner, proceeds)
              case Ok((s', pending)) => r == Ok(pending) && View() == s'
              case Abort(c) => r == Abort(c)
    {
      var toFund, inOrder := proceeds, 0;
      var i := FindOrder(orders, owner);
      if i < |orders| {
        if orders[i].open {
          inOrder := orders[i].requested;
        } else {
          toFund := toFund + orders[i].proceeds;
          orders := RemoveAt(orders, i);
        }
      }
      if toFund > 0 {
        var paid := TransferToFund(owner, toFund);
        assert paid.Ok?;
      }
      return Ok(inOrder);
    }

    method Deposit(owner: Name, amount: int) returns (r: Result<()>)
      modifies this`tokens, this`funds
      ensures Yields(r, Spec.Deposit(old(View()), owner, amount))
    {
      if amount <= 0 { return Abort(AmountNotPositive); }
      var _ :- Transfer(owner, REX_ACCOUNT, amount);
      r := TransferToFund(owner, amount);
    }

    method Withdraw(owner: Name, amount: int) returns (r: Result<()>)
      modifies this`tokens, this`funds, this`orders
      ensures Yields(r, Spec.Withdraw(old(View()), owner, amount))
    {
      hide Spec.UpdateRexAccount;
      if amount <= 0 { return Abort(AmountNotPositive); }
      var _ :- UpdateRexAccount(owner, 0);
      var _ :- TransferFromFund(owner, amount);
      r := Transfer(REX_ACCOUNT, owner, amount);
    }

    // ---------- maturity buckets ----------

    /** Moves the buckets that are due out of the front of the deque. */
    method ProcessRexMaturities(owner: Name)
      requires owner in balances
      modifies this`balances
      ensures balances == old(balances)[owner := Spec.ProcessMaturities(old(balances)[owner], Seconds(now))]
    {
      var rb := balances[owner];
      while |rb.maturities| > 0 && rb.maturities[0].time <= Seconds(now)
        invariant Spec.ProcessMaturities(rb, Seconds(now)) == Spec.ProcessMaturities(old(balances)[owner], Seconds(now))
        decreases |rb.maturities|
      {
        rb := rb.(matured := rb.matured + rb.maturities[0].amount, maturities := rb.maturities[1..]);
      }
      balances := balances[owner := rb];
    }

    /** Takes the savings bucket off the back of the deque. */
    method ReadRexSavings(owner: Name) returns (savings: int)
      requires owner in balances
      modifies this`balances
      ensures savings == Spec.SavingsOf(old(balances)[owner])
      ensures balances == old(balances)[owner := Spec.DropSavings(old(balances)[owner])]
    {
      savings := 0;
      var rb := balances[owner];
      var n := |rb.maturities|;
      if n > 0 && rb.maturities[n - 1].time == END_OF_DAYS {
        savings := rb.maturities[n - 1].amount;
        balances := balances[owner := rb.(maturities := rb.maturities[..n - 1])];
      }
    }

    method AddToLastBucket(owner: Name, time: nat, amount: int)
      requires owner in balances
      modifies this`balances
      ensures balances == old(balances)[owner := Spec.AddBucket(old(balances)[owner], time, amount)]
    {
      var rb := balances[owner];
      var n := |rb.maturities|;
      if n > 0 && rb.maturities[n - 1].time == time {
        var back := rb.maturities[n - 1];
        rb := rb.(maturities := rb.maturities[n - 1 := Bucket(time, back.amount + amount)]);
      } else {
        rb := rb.(maturities := rb.maturities + [Bucket(time, amount)]);
      }
      balances := balances[owner := rb];
    }

    method PutRexSavings(owner: Name, rex: int)
      requires owner in balances
      modifies this`balances
      ensures balances == old(balances)[owner := Spec.PutSavings(old(balances)[owner], rex)]
    {
      if rex == 0 { return; }
      AddToLastBucket(owner, END_OF_DAYS, rex);
    }

    method ConsolidateRexBalance(owner: Name, inOrder: int)
      requires owner in balances
      modifies this`balances
      ensures balances == old(balances)[owner := Spec.ConsolidateBuckets(old(balances)[owner], now, inOrder)]
    {
      var savings := ReadRexSavings(owner);
      var rb := balances[owner];
      var total := rb.matured - inOrder;
      ghost var sum := total + Spec.BucketTotal(rb.maturities);
      rb := rb.(matured := inOrder);
      while |rb.maturities| > 0
        invariant rb == RexBalance(balances[owner].rex, inOrder, rb.maturities)
        invariant total + Spec.BucketTotal(rb.maturities) == sum
        decreases |rb.maturities|
      {
        total := total + rb.maturities[0].amount;
        rb := rb.(maturities := rb.maturities[1..]);
      }
      if total > 0 {
        rb := rb.(maturities := [Bucket(Maturity(now), total)]);
      }
      balances := balances[owner := rb];
      PutRexSavings(owner, savings);
    }

    /** Takes up to `rex` out of the buckets from the back, then the rest from matured REX. */
    method MoveOutOfBuckets(owner: Name, rex: int) returns (moved: int)
      requires owner in balances
      modifies this`balances
      ensures var taken := Spec.TakeFromBack(old(balances)[owner].maturities, rex);
              balances == old(balances)[owner := old(balances)[owner].(maturities := taken.0)] && moved == taken.1
    {
      var rb := balances[owner];
      moved := 0;
      ghost var taken := Spec.TakeFromBack(rb.maturities, rex);
      while |rb.maturities| > 0 && moved < rex
        invariant rb == balances[owner].(maturities := rb.maturities)
        invariant var left := Spec.TakeFromBack(rb.maturities, rex - moved);
                  left.0 == taken.0 && moved + left.1 == taken.1
        decreases |rb.maturities|, rex - moved
      {
        var n := |rb.maturities|;
        var back := rb.maturities[n - 1];
        var d := if rex - moved < back.amount then rex - moved else back.amount;
        moved := moved + d;
        if back.amount - d == 0 {
          rb := rb.(maturities := rb.maturities[..n - 1]);
        } else {
          rb := rb.(maturities := rb.maturities[n - 1 := Bucket(back.time, back.amount - d)]);
          assert moved == rex;
        }
      }
      balances := balances[owner := rb];
    }

    // ---------- the lending pool ----------

    function RexAvailable(): bool
      reads this
    {
      pool.Some? && pool.value.rex > 0
    }

    function LoansAvailable(): bool
      reads this
    {
      RexAvailable() && (|orders| == 0 || !orders[0].open)
    }

    /** Adds a payment to the pool, (re)initialising it when it holds no REX; returns the REX bought. */
    method AddToRexPool(payment: int) returns (r: Result<int>)
      modifies this`pool
      ensures match Spec.AddToPool(old(pool), payment)
              case Ok((p, rex)) => r == Ok(rex) && View() == old(View()).(pool := Some(p))
              case Abort(c) => r == Abort(c)
    {
      var rex;
      if pool.None? {
        rex := AtInitialRatio(payment);
        var lent := 0;
        pool := Some(Pool(lent, payment - lent, INIT_TOTAL_RENT, payment, rex, 0, 0));
      } else if !RexAvailable() {
        rex := AtInitialRatio(payment);
        var p := pool.value.(lendable := payment, lent := 0);
        p := p.(unlent := p.lendable - p.lent);
        p := p.(rent := INIT_TOTAL_RENT, rex := rex);
        pool := Some(p);
      } else {
        var p := pool.value;
        if p.lendable <= 0 { return Abort(LendablePoolEmpty); }
        var s0, r0 := p.lendable, p.rex;
        var s1 := s0 + payment;
        var r1 := Spec.MulDiv(s1, r0, s0);
        rex := r1 - r0;
        p := p.(lendable := s1, rex := r1);
        p := p.(unlent := p.lendable - p.lent);
        if p.unlent < 0 { return Abort(UnlentNegative); }
        pool := Some(p);
      }
      return Ok(rex);
    }

    /** Credits bought REX to its owner's latest maturity bucket. */
    method AddToRexBalance(owner: Name, rex: int)
      modifies this`balances
      ensures var was := if owner in old(balances) then old(balances)[owner] else RexBalance(0, 0, []);
              balances == old(balances)[owner := Spec.AcquireRex(was.(rex := was.rex + rex), now, rex)]
    {
      hide Spec.DropSavings, Spec.SavingsOf, Spec.AddBucket, Spec.PutSavings, Maturity, Seconds;
      if owner !in balances {
        balances := balances[owner := RexBalance(rex, 0, [])];
      } else {
        balances := balances[owner := balances[owner].(rex := balances[owner].rex + rex)];
      }
      var savings := ReadRexSavings(owner);
      ProcessRexMaturities(owner);
      AddToLastBucket(owner, Maturity(now), rex);
      PutRexSavings(owner, savings);
    }

    method AddLoanToRexPool(payment: int, rented: int, isNew: bool)
      requires pool.Some?
      modifies this`pool
      ensures pool == Some(Spec.AddLoan(old(pool).value, payment, rented, isNew))
    {
      var p := pool.value;
      p := p.(rent := p.rent + payment);
      p := p.(unlent := p.unlent - rented, lent := p.lent + rented);
      p := p.(unlent := p.unlent + payment);
      p := p.(lendable := p.unlent + p.lent);
      if isNew {
        p := p.(loanNum := p.loanNum + 1);
      }
      pool := Some(p);
    }

    method RemoveLoanFromRexPool(staked: int)
      requires pool.Some?
      modifies this`pool
      ensures pool == Some(Spec.RemoveLoan(old(pool).value, staked))
    {
      var p := pool.value;
      p := p.(rent := p.rent - Spec.BancorOutput(p.unlent, p.rent, staked));
      p := p.(unlent := p.unlent + staked, lent := p.lent - staked);
      p := p.(lendable := p.unlent + p.lent);
      pool := Some(p);
    }

    /** Sells REX of an existing row if enough unlent tokens are left; returns the proceeds. */
    method FillRexOrder(owner: Name, rex: int) returns (r: Result<Option<int>>)
      requires owner in balances && pool.Some?
      modifies this`pool, this`balances
      ensures match Spec.FillFromPool(old(pool).value, rex)
              case Abort(c) => r == Abort(c)
              case Ok(NotFilled) => r == Ok(None) && View() == old(View())
              case Ok(Filled(p, proceeds)) =>
                r == Ok(Some(proceeds)) && View() == Spec.DebitRex(old(View()).(pool := Some(p)), owner, rex)
    {
      var p := pool.value;
      var s0, r0 := p.lendable, p.rex;
      if r0 == 0 { return Abort(DivisionByZero); }
      var proceeds := Spec.MulDiv(rex, s0, r0);
      var r1, s1 := r0 - rex, s0 - proceeds;
      var lowerBound := 2 * p.lent / 10;
      var available := p.unlent - lowerBound;
      if proceeds > available {
        return Ok(None);
      }
      p := p.(rex := r1, lendable := s1);
      p := p.(unlent := p.lendable - p.lent);
      pool := Some(p);
      var rb := balances[owner];
      balances := balances[owner := rb.(rex := rb.rex - rex, matured := rb.matured - rex)];
      return Ok(Some(proceeds));
    }

    method ChannelToRex(from: Name, amount: int) returns (r: Result<()>)
      modifies this`pool, this`tokens
      ensures Yields(r, Spec.ChannelToRex(old(View()), from, amount)) && (r.Ok? ==> pool.Some? == old(pool.Some?))
    {
      if RexAvailable() {
        var p := pool.value;
        pool := Some(p.(unlent := p.unlent + amount, lendable := p.lendable + amount));
        r := Transfer(from, REX_ACCOUNT, amount);
      } else {
        return Ok(());
      }
    }

    method UpdateResourceLimits(receiver: Name, dNet: int, dCpu: int) returns (r: Result<()>)
      modifies this`resources
      ensures Yields(r, Spec.UpdateResourceLimits(old(View()), receiver, dNet, dCpu))
    {
      if dCpu == 0 && dNet == 0 { return Ok(()); }
      if receiver !in resources && !(0 <= dNet && 0 <= dCpu) { return Abort(LogicErrorResourceLimits); }
      r := ChangeTotals(receiver, dNet, dCpu);
    }

    /** Changes the totals of a receiver, creating the row or erasing it as needed. */
    method ChangeTotals(receiver: Name, dNet: int, dCpu: int) returns (r: Result<()>)
      modifies this`resources
      ensures match Spec.AddToLimits(old(resources), receiver, dNet, dCpu)
              case Ok(rows) => r == Ok(()) && View() == old(View()).(resources := rows)
              case Abort(c) => r == Abort(c)
    {
      if receiver !in resources {
        resources := resources[receiver := Resources(dNet, dCpu, 0)];
      } else {
        var tot := resources[receiver];
        resources := resources[receiver := tot.(net := tot.net + dNet, cpu := tot.cpu + dCpu)];
      }
      var tot := resources[receiver];
      if tot.net < 0 { return Abort(TotalNetInsufficient); }
      if tot.cpu < 0 { return Abort(TotalCpuInsufficient); }
      if tot == Resources(0, 0, 0) {
        resources := resources - {receiver};
        assert resources == old(resources) - {receiver};
      }
      return Ok(());
    }

    method ChangeLimit(kind: Kind, receiver: Name, delta: int) returns (r: Result<()>)
      modifies this`resources
      ensures Yields(r, Spec.ChangeLimit(old(View()), kind, receiver, delta))
      ensures r.Ok? ==> View() == old(View()).(resources := resources)
    {
      if kind.Cpu? {
        r := UpdateResourceLimits(receiver, 0, delta);
      } else {
        r := UpdateResourceLimits(receiver, delta, 0);
      }
    }

    // ---------- maintenance ----------

    method SetLoans(kind: Kind, loans: seq<Loan>)
      modifies this`cpuLoans, this`netLoans
      ensures View() == old(View()).WithLoans(kind, loans)
    {
      if kind.Cpu? {
        cpuLoans := loans;
      } else {
        netLoans := loans;
      }
    }

    /** Renews or closes the first loan of a table, moves the limit that goes with it, and erases it if closed. */
    method ProcessExpiredLoan(kind: Kind) returns (r: Result<()>)
      requires pool.Some? && |Loans(kind)| > 0
      modifies this`pool, this`funds, this`resources, this`cpuLoans, this`netLoans
      ensures Yields(r, Spec.ProcessExpiredLoan(old(View()), kind)) && (r.Ok? ==> pool.Some?)
    {
      hide Spec.BancorOutput, Spec.ChangeLimit, Spec.RemoveLoan, Spec.AddLoan, InsertLoan;
      var loan := Loans(kind)[0];
      RemoveLoanFromRexPool(loan.staked);
      var rented := Spec.BancorOutput(pool.value.rent, pool.value.unlent, loan.payment);
      var renews := loan.payment <= loan.balance && loan.payment < rented && LoansAvailable();
      if renews {
        AddLoanToRexPool(loan.payment, rented, false);
        var renewed := loan.(staked := rented, expiration := loan.expiration + LOAN_TERM, balance := loan.balance - loan.payment);
        SetLoans(kind, InsertLoan(Loans(kind)[1..], renewed));
        r := ChangeLimit(kind, loan.receiver, rented - loan.staked);
      } else {
        if loan.balance > 0 {
          var paid := TransferToFund(loan.from, loan.balance);
          assert paid.Ok?;
        }
        var _ :- ChangeLimit(kind, loan.receiver, -loan.staked);
        SetLoans(kind, Loans(kind)[1..]);
        return Ok(());
      }
    }

    method ProcessLoans(kind: Kind, max: nat) returns (r: Result<()>)
      requires pool.Some?
      modifies this`pool, this`funds, this`resources, this`cpuLoans, this`netLoans
      ensures Yields(r, Spec.ProcessLoans(old(View()), kind, max)) && (r.Ok? ==> pool.Some?)
    {
      hide Spec.ProcessExpiredLoan;
      var i := 0;
      while i < max
        invariant i <= max && pool.Some?
        invariant Spec.ProcessLoans(View(), kind, max - i) == Spec.ProcessLoans(old(View()), kind, max)
      {
        if |Loans(kind)| == 0 || Loans(kind)[0].expiration > now {
          return Ok(());
        }
        var _ :- ProcessExpiredLoan(kind);
        i := i + 1;
      }
      return Ok(());
    }

    /** Tries the open orders in queue order. A filled order leaves its place to the next one. */
    method ProcessOrders(max: nat) returns (r: Result<()>)
      requires pool.Some?
      modifies this`pool, this`balances, this`orders
      ensures Yields(r, Spec.ProcessOrders(old(View()), 0, max))
    {
      hide Spec.FillFromPool, InsertOrder;
      var at := 0;
      var i := 0;
      while i < max
        invariant i <= max && pool.Some?
        invariant Spec.ProcessOrders(View(), at, max - i) == Spec.ProcessOrders(old(View()), 0, max)
      {
        if at >= |orders| || !orders[at].open {
          return Ok(());
        }
        var order := orders[at];
        var outcome := Ok(None);
        if order.owner in balances {
          outcome := FillRexOrder(order.owner, order.requested);
        }
        if outcome.Abort? {
          return Abort(outcome.check);
        }
        if outcome.value.Some? {
          orders := InsertOrder(RemoveAt(orders, at), order.(proceeds := outcome.value.value, open := false));
        } else {
          at := at + 1;
        }
        i := i + 1;
      }
      return Ok(());
    }

    method RunRex(max: nat) returns (r: Result<()>)
      modifies this`pool, this`tokens, this`funds, this`balances, this`resources, this`cpuLoans, this`netLoans, this`orders
      ensures Yields(r, Spec.RunRex(old(View()), max))
    {
      hide Spec.ProcessLoans, Spec.ProcessOrders, Spec.ChannelToRex;
      if pool.None? { return Abort(RexNotInitialized); }
      if pool.value.namebid > 0 {
        var _ :- ChannelToRex(NAMES_ACCOUNT, pool.value.namebid);
        pool := Some(pool.value.(namebid := 0));
      }
      var _ :- ProcessLoans(Cpu, max);
      var _ :- ProcessLoans(Net, max);
      r := ProcessOrders(max);
    }

    // ---------- REX actions ----------

    /** Pays tokens into the pool for an owner, maintains, and settles the owner's account. */
    method PurchaseRex(owner: Name, payment: int) returns (r: Result<()>)
      modifies this`pool, this`balances
      ensures Yields(r, Spec.PurchaseRex(old(View()), owner, payment))
    {
      hide Spec.AddToPool, Spec.AcquireRex;
      var rex :- AddToRexPool(payment);
      AddToRexBalance(owner, rex);
      return Ok(());
    }

    method BuyRex(from: Name, amount: int, votes: bool) returns (r: Result<()>)
      modifies this
      ensures Yields(r, Spec.BuyRex(old(View()), from, amount, votes))
    {
      hide Spec.TransferFromFund, Spec.PurchaseRex, Spec.RunRex, Spec.UpdateRexAccount;
      if amount <= 0 { return Abort(AmountNotPositive); }
      if !votes { return Abort(VotingRequirement); }
      var _ :- TransferFromFund(from, amount);
      var _ :- PurchaseRex(from, amount);
      var _ :- RunRex(2);
      var _ :- UpdateRexAccount(from, 0);
      return Ok(());
    }

    /** Writes a delegation, erasing the row when nothing is left in it. */
    method SetDelegation(from: Name, to: Name, w: Weights)
      modifies this`delegations
      ensures delegations == Spec.WriteDelegation(old(delegations), from, to, w)
    {
      delegations := delegations[(from, to) := w];
      if w == Weights(0, 0) {
        delegations := delegations - {(from, to)};
        assert delegations == old(delegations) - {(from, to)};
      }
    }

    method UnstakeToRex(owner: Name, receiver: Name, net: int, cpu: int, votes: bool) returns (r: Result<()>)
      modifies this
      ensures Yields(r, Spec.UnstakeToRex(old(View()), owner, receiver, net, cpu, votes))
    {
      hide Spec.TransferTokens, Spec.UpdateResourceLimits, Spec.PurchaseRex, Spec.RunRex, Spec.UpdateRexAccount,
        Spec.WriteDelegation;
      if !(0 <= net && 0 <= cpu && (0 < net || 0 < cpu)) { return Abort(AmountNotPositive); }
      if !votes { return Abort(VotingRequirement); }
      if (owner, receiver) !in delegations { return Abort(DelegationMissing); }
      var w := delegations[(owner, receiver)];
      if net > w.net { return Abort(StakedNetInsufficient); }
      if cpu > w.cpu { return Abort(StakedCpuInsufficient); }
      SetDelegation(owner, receiver, Weights(w.net - net, w.cpu - cpu));
      var _ :- UpdateResourceLimits(receiver, -net, -cpu);
      var _ :- Transfer(STAKE_ACCOUNT, REX_ACCOUNT, net + cpu);
      var _ :- PurchaseRex(owner, net + cpu);
      var _ :- RunRex(2);
      var _ :- UpdateRexAccount(owner, 0);
      return Ok(());
    }

    method SellRex(from: Name, rex: int) returns (r: Result<()>)
      modifies this
      ensures Yields(r, Spec.SellRex(old(View()), from, rex))
    {
      hide Spec.RunRex, Spec.ProcessMaturities, Spec.UpdateRexAccount, Spec.FillFromPool, FindOrder, InsertOrder;
      var _ :- RunRex(2);
      if from !in balances { return Abort(NoRexBalance); }
      if rex <= 0 { return Abort(AmountNotPositive); }
      ProcessRexMaturities(from);
      if rex > balances[from].matured { return Abort(InsufficientMaturedRex); }
      if pool.None? { return Abort(RexNotInitialized); }
      var outcome :- FillRexOrder(from, rex);
      if outcome == Some(0) { return Abort(NegligibleProceeds); }
      if outcome.Some? {
        var pending :- UpdateRexAccount(from, outcome.value);
        if !(from in balances && pending <= balances[from].matured) { return Abort(OrdersExceedMaturedRex); }
      } else {
        var matured := balances[from].matured;
        var _ :- UpdateRexAccount(from, 0);
        if from == B1 { return Abort(B1OrderQueued); }
        var pending := QueueOrder(from, rex);
        if pending > matured { return Abort(OrdersExceedMaturedRex); }
      }
      return Ok(());
    }

    /** Queues a request, or adds it to the owner's queued one; returns the REX now requested. */
    method QueueOrder(owner: Name, rex: int) returns (pending: int)
      modifies this`orders
      ensures View() == Spec.QueueOrder(old(View()), owner, rex)
      ensures pending == Spec.RequestedBy(View(), owner)
    {
      var i := FindOrder(orders, owner);
      if i == |orders| {
        orders := InsertOrder(orders, Order(owner, rex, 0, now, true));
      } else {
        orders := orders[i := orders[i].(requested := orders[i].requested + rex)];
      }
      var at := FindOrder(orders, owner);
      pending := if at == |orders| then 0 else orders[at].requested;
    }

    method CancelOrder(owner: Name) returns (r: Result<()>)
      modifies this`orders
      ensures Yields(r, Spec.CancelOrder(old(View()), owner))
    {
      var i := FindOrder(orders, owner);
      if i >= |orders| { return Abort(NoSellOrder); }
      if !orders[i].open { return Abort(OrderAlreadyFilled); }
      orders := RemoveAt(orders, i);
      return Ok(());
    }

    method Rent(kind: Kind, from: Name, receiver: Name, payment: int, fund: int) returns (r: Result<()>)
      modifies this
      ensures Yields(r, Spec.Rent(old(View()), kind, from, receiver, payment, fund))
    {
      hide Spec.RunRex, Spec.BancorOutput, Spec.AddLoan, Spec.ChangeLimit, InsertLoan;
      var _ :- RunRex(2);
      if !LoansAvailable() { return Abort(LoansNotAvailable); }
      if !(0 < payment && 0 <= fund) { return Abort(AmountNotPositive); }
      var _ :- TransferFromFund(from, payment + fund);
      var rented := Spec.BancorOutput(pool.value.rent, pool.value.unlent, payment);
      if payment >= rented { return Abort(LoanPriceUnfavorable); }
      AddLoanToRexPool(payment, rented, true);
      var loan := Loan(from, receiver, payment, fund, rented, pool.value.loanNum, now + LOAN_TERM);
      SetLoans(kind, InsertLoan(Loans(kind), loan));
      r := ChangeLimit(kind, receiver, rented);
    }

    method FundLoan(kind: Kind, from: Name, num: nat, payment: int) returns (r: Result<()>)
      modifies this`funds, this`cpuLoans, this`netLoans
      ensures Yields(r, Spec.FundLoan(old(View()), kind, from, num, payment))
    {
      hide FindLoan;
      var _ :- TransferFromFund(from, payment);
      var loans := Loans(kind);
      var i := FindLoan(loans, num);
      if i >= |loans| { return Abort(LoanNotFound); }
      if loans[i].from != from { return Abort(NotLoanCreator); }
      if loans[i].expiration <= now { return Abort(LoanExpired); }
      SetLoans(kind, loans[i := loans[i].(balance := loans[i].balance + payment)]);
      return Ok(());
    }

    method DefundLoan(kind: Kind, from: Name, num: nat, amount: int) returns (r: Result<()>)
      modifies this`funds, this`cpuLoans, this`netLoans
      ensures Yields(r, Spec.DefundLoan(old(View()), kind, from, num, amount))
    {
      hide FindLoan;
      var loans := Loans(kind);
      var i := FindLoan(loans, num);
      if i >= |loans| { return Abort(LoanNotFound); }
      if loans[i].from != from { return Abort(NotLoanCreator); }
      if loans[i].expiration <= now { return Abort(LoanExpired); }
      if loans[i].balance < amount { return Abort(LoanBalanceInsufficient); }
      SetLoans(kind, loans[i := loans[i].(balance := loans[i].balance - amount)]);
      r := TransferToFund(from, amount);
    }

    method UpdateRex(owner: Name) returns (r: Result<()>)
      modifies this
      ensures Yields(r, Spec.UpdateRex(old(View()), owner))
    {
      hide Spec.RunRex, Spec.ProcessMaturities, Spec.PendingRex, Spec.SettledOrders;
      var _ :- RunRex(2);
      if owner !in balances { return Abort(NoRexBalance); }
      var _ :- UpdateRexAccount(owner, 0);
      ProcessRexMaturities(owner);
      return Ok(());
    }

    method SetRex(balance: int) returns (r: Result<()>)
      modifies this`pool
      ensures Yields(r, Spec.SetRex(old(View()), balance))
    {
      if balance <= 0 { return Abort(AmountNotPositive); }
      if pool.None? { return Abort(RexNotInitialized); }
      pool := Some(pool.value.(rent := balance));
      return Ok(());
    }

    method Consolidate(owner: Name) returns (r: Result<()>)
      modifies this
      ensures Yields(r, Spec.Consolidate(old(View()), owner))
    {
      hide Spec.RunRex, Spec.ConsolidateBuckets, Spec.PendingRex, Spec.SettledOrders;
      var _ :- RunRex(2);
      if owner !in balances { return Abort(NoRexBalance); }
      var inOrder :- UpdateRexAccount(owner, 0);
      ConsolidateRexBalance(owner, inOrder);
      return Ok(());
    }

    method MoveToSavings(owner: Name, rex: Int64) returns (r: Result<()>)
      modifies this
      ensures Yields(r, Spec.MoveToSavings(old(View()), owner, rex))
    {
      hide Spec.RunRex, Spec.MoveIntoSavings, Spec.PendingRex, Spec.SettledOrders;
      var _ :- RunRex(2);
      if owner !in balances { return Abort(NoRexBalance); }
      if rex <= 0 { return Abort(AmountNotPositive); }
      var inOrder :- UpdateRexAccount(owner, 0);
      r := MoveBuckets(owner, inOrder, rex);
    }

    method MoveBuckets(owner: Name, inOrder: int, rex: Int64) returns (r: Result<()>)
      requires owner in balances
      modifies this`balances
      ensures match Spec.MoveIntoSavings(old(balances)[owner], now, inOrder, rex)
              case Ok(b) => r == Ok(()) && balances == old(balances)[owner := b]
              case Abort(c) => r == Abort(c)
    {
      hide Spec.ProcessMaturities, Spec.TakeFromBack, Spec.AddBucket;
      var savings := ReadRexSavings(owner);
      if Wrap64(rex + inOrder + savings) > balances[owner].rex { return Abort(InsufficientRex); }
      ProcessRexMaturities(owner);
      var moved := MoveOutOfBuckets(owner, rex);
      if moved < rex {
        var d := rex - moved;
        balances := balances[owner := balances[owner].(matured := balances[owner].matured - d)];
        moved := moved + d;
        if inOrder > balances[owner].matured { return Abort(LogicErrorMoveToSavings); }
      }
      if moved != rex { return Abort(ProgrammerErrorMoveToSavings); }
      PutRexSavings(owner, savings + rex);
      return Ok(());
    }

    method MoveFromSavings(owner: Name, rex: int) returns (r: Result<()>)
      modifies this
      ensures Yields(r, Spec.MoveFromSavings(old(View()), owner, rex))
    {
      hide Spec.RunRex, Spec.UpdateRexAccount, Spec.MoveOutOfSavings;
      var _ :- RunRex(2);
      if owner !in balances { return Abort(NoRexBalance); }
      if rex <= 0 { return Abort(AmountNotPositive); }
      var _ :- TakeFromSavings(owner, rex);
      var _ :- UpdateRexAccount(owner, 0);
      return Ok(());
    }

    method TakeFromSavings(owner: Name, rex: int) returns (r: Result<()>)
      requires owner in balances
      modifies this`balances
      ensures match Spec.MoveOutOfSavings(old(balances)[owner], now, rex)
              case Ok(b) => r == Ok(()) && balances == old(balances)[owner := b]
              case Abort(c) => r == Abort(c)
    {
      hide Spec.ProcessMaturities, Spec.AddBucket;
      var savings := ReadRexSavings(owner);
      if rex > savings { return Abort(InsufficientSavings); }
      ProcessRexMaturities(owner);
      AddToLastBucket(owner, Maturity(now), rex);
      PutRexSavings(owner, savings - rex);
      return Ok(());
    }

    method CloseRex(owner: Name) returns (r: Result<()>)
      modifies this
      ensures Yields(r, Spec.CloseRex(old(View()), owner))
    {
      hide Spec.RunRex, Spec.UpdateRexAccount, HasLoanFrom;
      if pool.Some? {
        var _ :- RunRex(2);
      }
      var _ :- UpdateRexAccount(owner, 0);
      var noCpuLoans, noNetLoans := !HasLoanFrom(cpuLoans, owner), !HasLoanFrom(netLoans, owner);
      var emptyFund := owner in funds && funds[owner] == 0;
      if noCpuLoans && noNetLoans && emptyFund {
        funds := funds - {owner};
      }
      if owner in balances {
        if balances[owner].rex != 0 { return Abort(RemainingRex); }
        balances := balances - {owner};
      } else {
        assert balances == balances - {owner};
      }
      return Ok(());
    }

    method CloseNameAuction(bid: nat)
      modifies this`pool
      ensures Yields(Ok(()), Spec.CloseNameAuction(old(View()), bid))
    {
      if RexAvailable() {
        pool := Some(pool.value.(namebid := pool.value.namebid + bid));
      }
    }

    // ---------- bandwidth ----------

    /** Nets a stake change against the refund of `owner`; returns what is left to be paid for. */
    method NetRefund(owner: Name, dNet: int, dCpu: int) returns (r: Result<int>)
      modifies this`refunds
      ensures match Spec.NetRefund(old(refunds), owner, dNet, dCpu, Seconds(now))
              case Ok((rows, due)) => r == Ok(due) && refunds == rows
              case Abort(c) => r == Abort(c)
    {
      var net, cpu := dNet, dCpu;
      if owner in refunds {
        var req := refunds[owner];
        if net < 0 || cpu < 0 {
          req := req.(requested := Seconds(now));
        }
        req := req.(net := req.net - net);
        if req.net < 0 {
          net := -req.net;
          req := req.(net := 0);
        } else {
          net := 0;
        }
        req := req.(cpu := req.cpu - cpu);
        if req.cpu < 0 {
          cpu := -req.cpu;
          req := req.(cpu := 0);
        } else {
          cpu := 0;
        }
        refunds := refunds[owner := req];
        if !(0 <= req.net && 0 <= req.cpu) { return Abort(RefundNegative); }
        if req.net == 0 && req.cpu == 0 {
          refunds := refunds - {owner};
          assert refunds == old(refunds) - {owner};
        }
      } else if net < 0 || cpu < 0 {
        var req := Refund(0, 0, Seconds(now));
        if net < 0 {
          req := req.(net := -net);
          net := 0;
        }
        if cpu < 0 {
          req := req.(cpu := -cpu);
          cpu := 0;
        }
        refunds := refunds[owner := req];
      }
      return Ok(net + cpu);
    }

    method ChangeBandwidth(source: Name, receiver: Name, dNet: int, dCpu: int, transfer: bool) returns (r: Result<()>)
      modifies this`delegations, this`resources, this`refunds, this`tokens
      ensures Yields(r, Spec.ChangeBandwidth(old(View()), source, receiver, dNet, dCpu, transfer))
    {
      hide Spec.AddToLimits, Spec.NetRefund, Spec.TransferTokens, Spec.WriteDelegation;
      if dNet == 0 && dCpu == 0 { return Abort(NothingToStake); }
      if !Spec.SameSign(dNet, dCpu) { return Abort(OppositeSigns); }
      var from := if transfer then receiver else source;
      var w := DelegationOf(delegations, from, receiver);
      w := Weights(w.net + dNet, w.cpu + dCpu);
      if w.net < 0 { return Abort(StakedNetInsufficient); }
      if w.cpu < 0 { return Abort(StakedCpuInsufficient); }
      SetDelegation(from, receiver, w);
      var _ :- ChangeTotals(receiver, dNet, dCpu);
      if source != STAKE_ACCOUNT {
        var due := dNet + dCpu;
        var undelegating := dNet + dCpu < 0;
        var toSelf := !transfer && from == receiver;
        if toSelf || undelegating {
          due :- NetRefund(from, dNet, dCpu);
        }
        if 0 < due {
          var _ :- Transfer(source, STAKE_ACCOUNT, due);
        }
      }
      return Ok(());
    }

    method DelegateBandwidth(from: Name, receiver: Name, net: int, cpu: int, transfer: bool) returns (r: Result<()>)
      modifies this`delegations, this`resources, this`refunds, this`tokens
      ensures Yields(r, Spec.DelegateBandwidth(old(View()), from, receiver, net, cpu, transfer))
    {
      hide Spec.ChangeBandwidth;
      if !(cpu >= 0 && net >= 0 && net + cpu > 0) { return Abort(StakeNotPositive); }
      if transfer && from == receiver { return Abort(TransferFlagToSelf); }
      r := ChangeBandwidth(from, receiver, net, cpu, transfer);
    }

    method UndelegateBandwidth(from: Name, receiver: Name, net: int, cpu: int) returns (r: Result<()>)
      modifies this`delegations, this`resources, this`refunds, this`tokens
      ensures Yields(r, Spec.UndelegateBandwidth(old(View()), from, receiver, net, cpu))
    {
      hide Spec.ChangeBandwidth;
      if !(cpu >= 0 && net >= 0 && cpu + net > 0) { return Abort(StakeNotPositive); }
      r := ChangeBandwidth(from, receiver, -net, -cpu, false);
    }

    method RefundStake(owner: Name) returns (r: Result<()>)
      modifies this`refunds, this`tokens
      ensures Yields(r, Spec.RefundStake(old(View()), owner))
    {
      hide Spec.TransferTokens;
      if owner !in refunds { return Abort(RefundMissing); }
      var req := refunds[owner];
      if req.requested + REFUND_DELAY > Seconds(now) { return Abort(RefundTooEarly); }
      var _ :- Transfer(STAKE_ACCOUNT, owner, req.net + req.cpu);
      refunds := refunds - {owner};
      return Ok(());
    }

    // ---------- RAM ----------

    method UpdateRamSupply()
      modifies this`ram
      ensures View() == Spec.UpdateRamSupply(old(View()))
    {
      var slot := BlockSlot(now);
      if slot <= ram.lastIncrease { return; }
      var grown := ((slot - ram.lastIncrease) * ram.rate) % 0x1_0000_0000;
      ram := ram.(maxSize := ram.maxSize + grown);
      ram := ram.(base := ram.base + grown);
      ram := ram.(lastIncrease := slot);
    }

    /** Converts between the two connectors of the RAM market. */
    method DirectConvert(sellsTokens: bool, amount: int) returns (out: int)
      modifies this`ram
      ensures out == (if sellsTokens then Spec.BancorOutput(old(ram).quote, old(ram).base, amount)
                      else Spec.BancorOutput(old(ram).base, old(ram).quote, amount))
      ensures ram == if sellsTokens then old(ram).(quote := old(ram).quote + amount, base := old(ram).base - out)
                     else old(ram).(base := old(ram).base + amount, quote := old(ram).quote - out)
    {
      if sellsTokens {
        out := Spec.BancorOutput(ram.quote, ram.base, amount);
        ram := ram.(quote := ram.quote + amount);
        ram := ram.(base := ram.base - out);
      } else {
        out := Spec.BancorOutput(ram.base, ram.quote, amount);
        ram := ram.(base := ram.base + amount);
        ram := ram.(quote := ram.quote - out);
      }
    }

    method PayRamFee(payer: Name, fee: int) returns (r: Result<()>)
      modifies this`pool, this`tokens
      ensures Yields(r, Spec.PayRamFee(old(View()), payer, fee))
    {
      hide Spec.TransferTokens, Spec.ChannelToRex;
      if fee > 0 {
        var _ :- Transfer(payer, RAMFEE_ACCOUNT, fee);
        r := ChannelToRex(RAMFEE_ACCOUNT, fee);
      } else {
        return Ok(());
      }
    }

    method BuyRam(payer: Name, receiver: Name, quant: int) returns (r: Result<()>)
      modifies this`pool, this`tokens, this`ram, this`resources
      ensures Yields(r, Spec.BuyRam(old(View()), payer, receiver, quant))
    {
      hide Spec.TransferTokens, Spec.PayRamFee, Spec.BancorOutput, Spec.UpdateRamSupply, Spec.RamFee;
      UpdateRamSupply();
      if quant <= 0 { return Abort(AmountNotPositive); }
      var fee := Spec.RamFee(quant);
      var paid := quant - fee;
      var _ :- Transfer(payer, RAM_ACCOUNT, paid);
      var _ :- PayRamFee(payer, fee);
      r := ReserveRam(receiver, paid);
    }

    method ReserveRam(receiver: Name, paid: int) returns (r: Result<()>)
      modifies this`ram, this`resources
      ensures Yields(r, Spec.ReserveRam(old(View()), receiver, paid))
    {
      hide Spec.BancorOutput;
      var bytes := DirectConvert(true, paid);
      if bytes <= 0 { return Abort(RamNotReserved); }
      ram := ram.(reserved := ram.reserved + bytes);
      ram := ram.(stake := ram.stake + paid);
      if receiver !in resources {
        resources := resources[receiver := Resources(0, 0, bytes)];
      } else {
        resources := resources[receiver := resources[receiver].(ram := resources[receiver].ram + bytes)];
      }
      return Ok(());
    }

    method SellRam(account: Name, bytes: int) returns (r: Result<()>)
      modifies this`pool, this`tokens, this`ram, this`resources
      ensures Yields(r, Spec.SellRam(old(View()), account, bytes))
    {
      hide Spec.TransferTokens, Spec.PayRamFee, Spec.RamProceeds, Spec.UpdateRamSupply, Spec.RamFee, Spec.ReleaseRam;
      UpdateRamSupply();
      if bytes <= 0 { return Abort(AmountNotPositive); }
      var tokensOut :- ReleaseRam(account, bytes);
      var _ :- Transfer(RAM_ACCOUNT, account, tokensOut);
      r := PayRamFee(account, Spec.RamFee(tokensOut));
    }

    method ReleaseRam(account: Name, bytes: int) returns (r: Result<int>)
      modifies this`ram, this`resources
      ensures match Spec.ReleaseRam(old(View()), account, bytes)
              case Ok(s') => r == Ok(Spec.RamProceeds(old(ram), bytes)) && View() == s'
              case Abort(c) => r == Abort(c)
    {
      hide Spec.BancorOutput;
      if account !in resources { return Abort(NoResourceRow); }
      if resources[account].ram < bytes { return Abort(RamQuotaExceeded); }
      var tokensOut := DirectConvert(false, bytes);
      if tokensOut <= 1 { return Abort(RamProceedsTooLow); }
      ram := ram.(reserved := ram.reserved - bytes);
      ram := ram.(stake := ram.stake - tokensOut);
      if ram.stake < 0 { return Abort(RamStakeNegative); }
      resources := resources[account := resources[account].(ram := resources[account].ram - bytes)];
      return Ok(tokensOut);
    }

    method SetRam(size: int) returns (r: Result<()>)
      modifies this`ram
      ensures Yields(r, Spec.SetRam(old(View()), size))
    {
      if ram.maxSize >= size { return Abort(RamOnlyIncreases); }
      if size >= RAM_SIZE_LIMIT { return Abort(RamUnrealistic); }
      if size <= ram.reserved { return Abort(RamBelowReserved); }
      var delta := size - ram.maxSize;
      ram := ram.(base := ram.base + delta);
      ram := ram.(maxSize := size);
      return Ok(());
    }

    method SetRamRate(rate: nat) returns (r: Result<()>)
      modifies this`ram
      ensures Yields(r, Spec.SetRamRate(old(View()), rate))
    {
      hide Spec.UpdateRamSupply;
      UpdateRamSupply();
      ram := ram.(rate := rate);
      return Ok(());
    }

    // ---------- the chain ----------

    /** Time passes between actions; the block clock never goes back. */
    method AdvanceClock(to: nat) returns (r: Result<()>)
      modifies this`now
      ensures Yields(r, Spec.AdvanceClock(old(View()), to))
    {
      if !(now <= to < CLOCK_LIMIT) { return Abort(ClockOutOfRange); }
      now := to;
      return Ok(());
    }

    static predicate IsRexAction(a: Spec.Action) {
      a.ActBuyRex? || a.ActUnstakeToRex? || a.ActSellRex? || a.ActCancelOrder? || a.ActRent? || a.ActFundLoan?
      || a.ActDefundLoan? || a.ActUpdateRex? || a.ActSetRex? || a.ActRexExec? || a.ActConsolidate? || a.ActMoveToSavings?
      || a.ActMoveFromSavings? || a.ActCloseRex?
    }

    method PerformRexAction(a: Spec.Action) returns (r: Result<()>)
      requires IsRexAction(a)
      modifies this
      ensures Yields(r, Spec.Apply(old(View()), a))
    {
      hide Spec.BuyRex, Spec.UnstakeToRex, Spec.SellRex, Spec.CancelOrder, Spec.Rent, Spec.FundLoan, Spec.DefundLoan,
        Spec.UpdateRex, Spec.SetRex, Spec.RunRex, Spec.Consolidate, Spec.MoveToSavings, Spec.MoveFromSavings, Spec.CloseRex,
        Yields;
      match a
      case ActBuyRex(owner, amount, votes) => r := BuyRex(owner, amount, votes);
      case ActUnstakeToRex(owner, receiver, net, cpu, votes) => r := UnstakeToRex(owner, receiver, net, cpu, votes);
      case ActSellRex(owner, rex) => r := SellRex(owner, rex);
      case ActCancelOrder(owner) => r := CancelOrder(owner);
      case ActRent(kind, owner, receiver, payment, fund) => r := Rent(kind, owner, receiver, payment, fund);
      case ActFundLoan(kind, owner, num, amount) => r := FundLoan(kind, owner, num, amount);
      case ActDefundLoan(kind, owner, num, amount) => r := DefundLoan(kind, owner, num, amount);
      case ActUpdateRex(owner) => r := UpdateRex(owner);
      case ActSetRex(amount) => r := SetRex(amount);
      case ActRexExec(max) => r := RunRex(max);
      case ActConsolidate(owner) => r := Consolidate(owner);
      case ActMoveToSavings(owner, rex) => r := MoveToSavings(owner, rex);
      case ActMoveFromSavings(owner, rex) => r := MoveFromSavings(owner, rex);
      case ActCloseRex(owner) => r := CloseRex(owner);
    }

    method PerformOtherAction(a: Spec.Action) returns (r: Result<()>)
      requires !IsRexAction(a)
      modifies this
      ensures Yields(r, Spec.Apply(old(View()), a))
    {
      hide Spec.Withdraw, Spec.CloseNameAuction, Spec.DelegateBandwidth, Spec.UndelegateBandwidth, Spec.BuyRam, Spec.SellRam,
        Spec.AdvanceClock, Spec.TransferTokens, Spec.Deposit, Spec.RefundStake, Spec.SetRam, Spec.SetRamRate, Yields;
      match a
      case ActAdvance(to) => r := AdvanceClock(to);
      case ActTransfer(from, to, amount) => r := Transfer(from, to, amount);
      case ActDeposit(owner, amount) => r := Deposit(owner, amount);
      case ActWithdraw(owner, amount) => r := Withdraw(owner, amount);
      case ActCloseNameAuction(bid) => CloseNameAuction(bid); r := Ok(());
      case ActDelegate(owner, receiver, net, cpu, transfer) => r := DelegateBandwidth(owner, receiver, net, cpu, transfer);
      case ActUndelegate(owner, receiver, net, cpu) => r := UndelegateBandwidth(owner, receiver, net, cpu);
      case ActRefund(owner) => r := RefundStake(owner);
      case ActBuyRam(owner, receiver, amount) => r := BuyRam(owner, receiver, amount);
      case ActSellRam(owner, bytes) => r := SellRam(owner, bytes);
      case ActSetRam(size) => r := SetRam(size);
      case ActSetRamRate(rate) => r := SetRamRate(rate);
    }

    method Perform(a: Spec.Action) returns (r: Result<()>)
      modifies this
      ensures Yields(r, Spec.Apply(old(View()), a))
    {
      hide Spec.Apply;
      if IsRexAction(a) {
        r := PerformRexAction(a);
      } else {
        r := PerformOtherAction(a);
      }
    }

    method Restore(s: State)
      modifies this
      ensures View() == s
    {
      now, pool, funds, balances := s.now, s.pool, s.funds, s.balances;
      cpuLoans, netLoans, orders := s.cpuLoans, s.netLoans, s.orders;
      resources, delegations, refunds := s.resources, s.delegations, s.refunds;
      tokens, ram := s.tokens, s.ram;
    }

    /** The chain undoes everything an aborted action has done. */
    method PushAction(a: Spec.Action) returns (r: Result<()>)
      modifies this
      ensures View() == Spec.Step(old(View()), a)
      ensures r.Ok? == Spec.Apply(old(View()), a).Ok?
      ensures r.Abort? ==> View() == old(View()) && Spec.Apply(old(View()), a) == Abort(r.check)
    {
      hide Spec.Apply;
      var before := View();
      r := Perform(a);
      if r.Abort? {
        Restore(before);
      }
    }
  }
}
