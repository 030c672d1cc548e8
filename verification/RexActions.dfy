/**
 * What each action does to the tables, as a function of the state it starts
 * from. `Abort` stands for a failed `check`, which leaves the tables as they were.
 */
module RexActions {
  import opened Outcomes
  import opened RexState

  // ---------- celes.token ----------

  function TransferTokens(s: State, from: Name, to: Name, amount: int): Result<State> {
    if from == to then Abort(TransferToSelf) else
    if amount <= 0 then Abort(TransferNotPositive) else
    if amount > Held(s.tokens, from) then Abort(Overdrawn) else
    var debited := s.tokens[from := Held(s.tokens, from) - amount];
    Ok(s.(tokens := debited[to := Held(debited, to) + amount]))
  }

  // ---------- REX funds ----------

  function TransferToFund(s: State, owner: Name, amount: int): Result<State> {
    if amount <= 0 then Abort(FundTransferNotPositive) else
    var balance := if owner in s.funds then s.funds[owner] else 0;
    Ok(s.(funds := s.funds[owner := balance + amount]))
  }

  /** Settles an amount that may be zero. */
  function PayIntoFund(s: State, owner: Name, amount: int): Result<State> {
    if amount > 0 then TransferToFund(s, owner, amount) else Ok(s)
  }

  function TransferFromFund(s: State, owner: Name, amount: int): Result<State> {
    if amount <= 0 then Abort(FundTransferNotPositive) else
    if owner !in s.funds then Abort(FundMissing) else
    if amount > s.funds[owner] then Abort(FundInsufficient) else
    Ok(s.(funds := s.funds[owner := s.funds[owner] - amount]))
  }

  // ---------- maturity buckets ----------

  function ProcessMaturities(b: RexBalance, sec: nat): RexBalance
    decreases |b.maturities|
  {
    if |b.maturities| > 0 && b.maturities[0].time <= sec then
      ProcessMaturities(
        b.(matured := b.matured + b.maturities[0].amount, maturities := b.maturities[1..]), sec)
    else b
  }

  function SavingsOf(b: RexBalance): int {
    var n := |b.maturities|;
    if n > 0 && b.maturities[n - 1].time == END_OF_DAYS then b.maturities[n - 1].amount else 0
  }

  function DropSavings(b: RexBalance): RexBalance {
    var n := |b.maturities|;
    if n > 0 && b.maturities[n - 1].time == END_OF_DAYS then b.(maturities := b.maturities[..n - 1]) else b
  }

  /** Adds to the last bucket when it has the given time, else appends one. */
  function AddBucket(b: RexBalance, time: nat, amount: int): RexBalance {
    var n := |b.maturities|;
    if n > 0 && b.maturities[n - 1].time == time then
      b.(maturities := b.maturities[n - 1 := Bucket(time, b.maturities[n - 1].amount + amount)])
    else
      b.(maturities := b.maturities + [Bucket(time, amount)])
  }

  function PutSavings(b: RexBalance, amount: int): RexBalance {
    if amount == 0 then b else AddBucket(b, END_OF_DAYS, amount)
  }

  function BucketTotal(buckets: seq<Bucket>): int {
    if |buckets| == 0 then 0 else buckets[0].amount + BucketTotal(buckets[1..])
  }

  function AcquireRex(b: RexBalance, now: nat, amount: int): RexBalance {
    var savings := SavingsOf(b);
    var b1 := ProcessMaturities(DropSavings(b), Seconds(now));
    PutSavings(AddBucket(b1, Maturity(now), amount), savings)
  }

  function ConsolidateBuckets(b: RexBalance, now: nat, inOrder: int): RexBalance {
    var savings := SavingsOf(b);
    var b1 := DropSavings(b);
    var total := b1.matured - inOrder + BucketTotal(b1.maturities);
    var b2 := RexBalance(b1.rex, inOrder, if total > 0 then [Bucket(Maturity(now), total)] else []);
    PutSavings(b2, savings)
  }

  /** Takes up to `want` out of the buckets, latest first; also returns how much was taken. */
  function TakeFromBack(buckets: seq<Bucket>, want: int): (seq<Bucket>, int) {
    var n := |buckets|;
    if n == 0 || want <= 0 then (buckets, 0)
    else
      var last := buckets[n - 1];
      var d := if want < last.amount then want else last.amount;
      if last.amount - d == 0 then
        var (rest, moved) := TakeFromBack(buckets[..n - 1], want - d);
        (rest, moved + d)
      else
        (buckets[n - 1 := Bucket(last.time, last.amount - d)], d)
  }

  function MoveIntoSavings(b: RexBalance, now: nat, inOrder: int, rex: Int64): Result<RexBalance> {
    var savings := SavingsOf(b);
    if Wrap64(rex + inOrder + savings) > b.rex then Abort(InsufficientRex) else
    var b1 := ProcessMaturities(DropSavings(b), Seconds(now));
    var (buckets, moved) := TakeFromBack(b1.maturities, rex);
    var b2 := b1.(maturities := buckets);
    if moved < rex then
      var b3 := b2.(matured := b2.matured - (rex - moved));
      if inOrder > b3.matured then Abort(LogicErrorMoveToSavings) else
      Ok(PutSavings(b3, savings + rex))
    else
      if moved != rex then Abort(ProgrammerErrorMoveToSavings) else
      Ok(PutSavings(b2, savings + rex))
  }

  function MoveOutOfSavings(b: RexBalance, now: nat, rex: int): Result<RexBalance> {
    var savings := SavingsOf(b);
    if rex > savings then Abort(InsufficientSavings) else
    var b1 := ProcessMaturities(DropSavings(b), Seconds(now));
    Ok(PutSavings(AddBucket(b1, Maturity(now), rex), savings - rex))
  }

  // ---------- REX pool ----------

  predicate RexAvailable(pool: Option<Pool>) {
    pool.Some? && pool.value.rex > 0
  }

  predicate LoansAvailable(s: State) {
    RexAvailable(s.pool) && (|s.orders| == 0 || !s.orders[0].open)
  }

  /** The 128-bit product of two amounts, divided. */
  function MulDiv(a: int, b: int, c: int): int
    requires c != 0
  {
    (a * b) / c
  }

  /** Tokens out of a Bancor connector, rounded down. */
  function BancorOutput(inpReserve: int, outReserve: int, inp: int): int {
    if inpReserve + inp <= 0 then 0
    else
      var out := MulDiv(inp, outReserve, inpReserve + inp);
      if out < 0 then 0 else out
  }

  /** The pool after a purchase, and the REX it issues. */
  function AddToPool(pool: Option<Pool>, payment: int): Result<(Pool, int)> {
    if pool.None? then
      var rex := AtInitialRatio(payment);
      Ok((Pool(0, payment, INIT_TOTAL_RENT, payment, rex, 0, 0), rex))
    else
      var p := pool.value;
      if p.rex <= 0 then
        var rex := AtInitialRatio(payment);
        Ok((p.(lendable := payment, lent := 0, unlent := payment, rent := INIT_TOTAL_RENT, rex := rex), rex))
      else
        if p.lendable <= 0 then Abort(LendablePoolEmpty) else
        var s1 := p.lendable + payment;
        var r1 := MulDiv(s1, p.rex, p.lendable);
        if s1 - p.lent < 0 then Abort(UnlentNegative) else
        Ok((p.(lendable := s1, rex := r1, unlent := s1 - p.lent), r1 - p.rex))
  }

  function AddLoan(p: Pool, payment: int, rented: int, isNew: bool): Pool {
    p.(rent := p.rent + payment,
       unlent := p.unlent - rented + payment,
       lent := p.lent + rented,
       lendable := p.unlent - rented + payment + (p.lent + rented),
       loanNum := if isNew then p.loanNum + 1 else p.loanNum)
  }

  function RemoveLoan(p: Pool, staked: int): Pool {
    p.(rent := p.rent - BancorOutput(p.unlent, p.rent, staked),
       unlent := p.unlent + staked,
       lent := p.lent - staked,
       lendable := p.unlent + staked + (p.lent - staked))
  }

  /** Outcome of an attempt to sell REX to the pool. */
  datatype Fill = Filled(pool: Pool, proceeds: int) | NotFilled

  function FillFromPool(p: Pool, rex: int): Result<Fill> {
    if p.rex == 0 then Abort(DivisionByZero) else
    var proceeds := MulDiv(rex, p.lendable, p.rex);
    if proceeds <= p.unlent - (2 * p.lent) / 10 then
      Ok(Filled(p.(rex := p.rex - rex, lendable := p.lendable - proceeds,
                   unlent := p.lendable - proceeds - p.lent), proceeds))
    else
      Ok(NotFilled)
  }

  /** Takes sold REX out of its owner's row. */
  function DebitRex(s: State, owner: Name, rex: int): State
    requires owner in s.balances
  {
    var b := s.balances[owner];
    s.(balances := s.balances[owner := b.(rex := b.rex - rex, matured := b.matured - rex)])
  }

  function ChannelToRex(s: State, from: Name, amount: int): Result<State> {
    if RexAvailable(s.pool) then
      var p := s.pool.value;
      TransferTokens(
        s.(pool := Some(p.(unlent := p.unlent + amount, lendable := p.lendable + amount))), from, REX_ACCOUNT, amount)
    else Ok(s)
  }

  // ---------- resource limits ----------

  /** A row with nothing left in it is erased. */
  function WriteResources(m: map<Name, Resources>, receiver: Name, row: Resources): map<Name, Resources> {
    if row == Resources(0, 0, 0) then m - {receiver} else m[receiver := row]
  }

  function AddToLimits(m: map<Name, Resources>, receiver: Name, dNet: int, dCpu: int): Result<map<Name, Resources>> {
    var was := ResourcesOf(m, receiver);
    var row := was.(net := was.net + dNet, cpu := was.cpu + dCpu);
    if row.net < 0 then Abort(TotalNetInsufficient) else
    if row.cpu < 0 then Abort(TotalCpuInsufficient) else
    Ok(WriteResources(m, receiver, row))
  }

  function UpdateResourceLimits(s: State, receiver: Name, dNet: int, dCpu: int): Result<State> {
    if dNet == 0 && dCpu == 0 then Ok(s)
    else if receiver !in s.resources && (dNet < 0 || dCpu < 0) then Abort(LogicErrorResourceLimits)
    else
      var rows :- AddToLimits(s.resources, receiver, dNet, dCpu);
      Ok(s.(resources := rows))
  }

  function ChangeLimit(s: State, kind: Kind, receiver: Name, delta: int): Result<State> {
    if kind.Cpu? then UpdateResourceLimits(s, receiver, 0, delta)
    else UpdateResourceLimits(s, receiver, delta, 0)
  }

  // ---------- maintenance ----------

  /** The pool once the loan that expires first in a table has been taken back. */
  function PoolAfterRelease(s: State, kind: Kind): Pool
    requires s.pool.Some? && |s.Loans(kind)| > 0
  {
    RemoveLoan(s.pool.value, s.Loans(kind)[0].staked)
  }

  /** Tokens the payment of that loan rents at the current price. */
  function RentedAgain(s: State, kind: Kind): int
    requires s.pool.Some? && |s.Loans(kind)| > 0
  {
    var p := PoolAfterRelease(s, kind);
    BancorOutput(p.rent, p.unlent, s.Loans(kind)[0].payment)
  }

  predicate Renews(s: State, kind: Kind)
    requires s.pool.Some? && |s.Loans(kind)| > 0
  {
    var l := s.Loans(kind)[0];
    l.payment <= l.balance && l.payment < RentedAgain(s, kind)
    && LoansAvailable(s.(pool := Some(PoolAfterRelease(s, kind))))
  }

  function Renewed(l: Loan, rented: int): Loan {
    l.(staked := rented, expiration := l.expiration + LOAN_TERM, balance := l.balance - l.payment)
  }

  function RenewLoan(s: State, kind: Kind): Result<State>
    requires s.pool.Some? && |s.Loans(kind)| > 0
  {
    var l := s.Loans(kind)[0];
    var rented := RentedAgain(s, kind);
    var p := AddLoan(PoolAfterRelease(s, kind), l.payment, rented, false);
    var loans := InsertLoan(s.Loans(kind)[1..], Renewed(l, rented));
    ChangeLimit(s.(pool := Some(p)).WithLoans(kind, loans), kind, l.receiver, rented - l.staked)
  }

  function CloseLoan(s: State, kind: Kind): Result<State>
    requires s.pool.Some? && |s.Loans(kind)| > 0
  {
    var l := s.Loans(kind)[0];
    var s1 :- PayIntoFund(s.(pool := Some(PoolAfterRelease(s, kind))), l.from, l.balance);
    var s2 :- ChangeLimit(s1, kind, l.receiver, -l.staked);
    Ok(s2.WithLoans(kind, s.Loans(kind)[1..]))
  }

  /** Renews or closes the loan that expires first in a table. */
  function ProcessExpiredLoan(s: State, kind: Kind): Result<State>
    requires s.pool.Some? && |s.Loans(kind)| > 0
  {
    if Renews(s, kind) then RenewLoan(s, kind) else CloseLoan(s, kind)
  }

  predicate HasExpiredLoan(s: State, kind: Kind) {
    |s.Loans(kind)| > 0 && s.Loans(kind)[0].expiration <= s.now
  }

  function ProcessLoans(s: State, kind: Kind, max: nat): Result<State>
    decreases max
  {
    if max == 0 || s.pool.None? || !HasExpiredLoan(s, kind) then Ok(s)
    else
      var s1 :- ProcessExpiredLoan(s, kind);
      ProcessLoans(s1, kind, max - 1)
  }

  /** Closes the order at `i`, which moves it behind the open ones. */
  function CloseOrder(orders: seq<Order>, i: nat, proceeds: int): seq<Order>
    requires i < |orders|
  {
    InsertOrder(RemoveAt(orders, i), orders[i].(proceeds := proceeds, open := false))
  }

  /** Tries up to `max` open orders, the next one at index `i`. */
  function ProcessOrders(s: State, i: nat, max: nat): Result<State>
    decreases max
  {
    if max == 0 || s.pool.None? || i >= |s.orders| || !s.orders[i].open then Ok(s)
    else
      var o := s.orders[i];
      if o.owner !in s.balances then ProcessOrders(s, i + 1, max - 1)
      else
        var fill :- FillFromPool(s.pool.value, o.requested);
        if fill.NotFilled? then ProcessOrders(s, i + 1, max - 1)
        else
          var s1 := DebitRex(s.(pool := Some(fill.pool)), o.owner, o.requested);
          ProcessOrders(s1.(orders := CloseOrder(s1.orders, i, fill.proceeds)), i, max - 1)
  }

  function ChannelNamebids(s: State): Result<State>
    requires s.pool.Some?
  {
    if s.pool.value.namebid > 0 then
      var s1 :- ChannelToRex(s, NAMES_ACCOUNT, s.pool.value.namebid);
      Ok(if s1.pool.Some? then s1.(pool := Some(s1.pool.value.(namebid := 0))) else s1)
    else Ok(s)
  }

  function RunRex(s: State, max: nat): Result<State> {
    if s.pool.None? then Abort(RexNotInitialized) else
    var s1 :- ChannelNamebids(s);
    var s2 :- ProcessLoans(s1, Cpu, max);
    var s3 :- ProcessLoans(s2, Net, max);
    ProcessOrders(s3, 0, max)
  }

  /** The queue once a filled order of `owner` has been collected. */
  function SettledOrders(orders: seq<Order>, owner: Name): seq<Order> {
    var i := FindOrder(orders, owner);
    if i < |orders| && !orders[i].open then RemoveAt(orders, i) else orders
  }

  function CollectedProceeds(orders: seq<Order>, owner: Name): int {
    var i := FindOrder(orders, owner);
    if i < |orders| && !orders[i].open then orders[i].proceeds else 0
  }

  function PendingRex(orders: seq<Order>, owner: Name): int {
    var i := FindOrder(orders, owner);
    if i < |orders| && orders[i].open then orders[i].requested else 0
  }

  /** Pays out a filled order of `owner`; returns the REX still in an open one. */
  function UpdateRexAccount(s: State, owner: Name, proceeds: int): Result<(State, int)> {
    var s1 :- PayIntoFund(s.(orders := SettledOrders(s.orders, owner)), owner,
                          proceeds + CollectedProceeds(s.orders, owner));
    Ok((s1, PendingRex(s.orders, owner)))
  }

  // ---------- REX actions ----------

  function Deposit(s: State, owner: Name, amount: int): Result<State> {
    if amount <= 0 then Abort(AmountNotPositive) else
    var s1 :- TransferTokens(s, owner, REX_ACCOUNT, amount);
    TransferToFund(s1, owner, amount)
  }

  function Withdraw(s: State, owner: Name, amount: int): Result<State> {
    if amount <= 0 then Abort(AmountNotPositive) else
    var (s1, _) :- UpdateRexAccount(s, owner, 0);
    var s2 :- TransferFromFund(s1, owner, amount);
    TransferTokens(s2, REX_ACCOUNT, owner, amount)
  }

  /** Pays tokens into the pool and credits `owner` with the REX they buy. */
  function PurchaseRex(s: State, owner: Name, payment: int): Result<State> {
    var (p, rex) :- AddToPool(s.pool, payment);
    var was := if owner in s.balances then s.balances[owner] else RexBalance(0, 0, []);
    Ok(s.(pool := Some(p),
          balances := s.balances[owner := AcquireRex(was.(rex := was.rex + rex), s.now, rex)]))
  }

  function BuyRex(s: State, from: Name, amount: int, votes: bool): Result<State> {
    if amount <= 0 then Abort(AmountNotPositive) else
    if !votes then Abort(VotingRequirement) else
    var s1 :- TransferFromFund(s, from, amount);
    var s2 :- PurchaseRex(s1, from, amount);
    var s3 :- RunRex(s2, 2);
    var (s4, _) :- UpdateRexAccount(s3, from, 0);
    Ok(s4)
  }

  function WriteDelegation(m: map<(Name, Name), Weights>, from: Name, to: Name, w: Weights): map<(Name, Name), Weights> {
    if w == Weights(0, 0) then m - {(from, to)} else m[(from, to) := w]
  }

  function UnstakeToRex(s: State, owner: Name, receiver: Name, net: int, cpu: int, votes: bool): Result<State> {
    if !(0 <= net && 0 <= cpu && (0 < net || 0 < cpu)) then Abort(AmountNotPositive) else
    if !votes then Abort(VotingRequirement) else
    if (owner, receiver) !in s.delegations then Abort(DelegationMissing) else
    var w := s.delegations[(owner, receiver)];
    if net > w.net then Abort(StakedNetInsufficient) else
    if cpu > w.cpu then Abort(StakedCpuInsufficient) else
    var s1 := s.(delegations := WriteDelegation(s.delegations, owner, receiver, Weights(w.net - net, w.cpu - cpu)));
    var s2 :- UpdateResourceLimits(s1, receiver, -net, -cpu);
    var s3 :- TransferTokens(s2, STAKE_ACCOUNT, REX_ACCOUNT, net + cpu);
    var s4 :- PurchaseRex(s3, owner, net + cpu);
    var s5 :- RunRex(s4, 2);
    var (s6, _) :- UpdateRexAccount(s5, owner, 0);
    Ok(s6)
  }

  /** Queues a sale that could not be filled. */
  function QueueOrder(s: State, owner: Name, rex: int): State {
    var i := FindOrder(s.orders, owner);
    if i == |s.orders| then s.(orders := InsertOrder(s.orders, Order(owner, rex, 0, s.now, true)))
    else s.(orders := s.orders[i := s.orders[i].(requested := s.orders[i].requested + rex)])
  }

  function RequestedBy(s: State, owner: Name): int {
    var i := FindOrder(s.orders, owner);
    if i == |s.orders| then 0 else s.orders[i].requested
  }

  function SellRex(s: State, from: Name, rex: int): Result<State> {
    var s1 :- RunRex(s, 2);
    if from !in s1.balances then Abort(NoRexBalance) else
    if rex <= 0 then Abort(AmountNotPositive) else
    var b := ProcessMaturities(s1.balances[from], Seconds(s.now));
    var s2 := s1.(balances := s1.balances[from := b]);
    if rex > b.matured then Abort(InsufficientMaturedRex) else
    if s2.pool.None? then Abort(RexNotInitialized)
    else
      var fill :- FillFromPool(s2.pool.value, rex);
      if fill.Filled? then
        if fill.proceeds == 0 then Abort(NegligibleProceeds) else
        var (s4, pending) :- UpdateRexAccount(DebitRex(s2.(pool := Some(fill.pool)), from, rex), from, fill.proceeds);
        if !(from in s4.balances && pending <= s4.balances[from].matured) then Abort(OrdersExceedMaturedRex) else
        Ok(s4)
      else
        var (s3, _) :- UpdateRexAccount(s2, from, 0);
        if from == B1 then Abort(B1OrderQueued) else
        var s4 := QueueOrder(s3, from, rex);
        if RequestedBy(s4, from) > b.matured then Abort(OrdersExceedMaturedRex) else
        Ok(s4)
  }

  function CancelOrder(s: State, owner: Name): Result<State> {
    var i := FindOrder(s.orders, owner);
    if i >= |s.orders| then Abort(NoSellOrder) else
    if !s.orders[i].open then Abort(OrderAlreadyFilled) else
    Ok(s.(orders := RemoveAt(s.orders, i)))
  }

  function Rent(s: State, kind: Kind, from: Name, receiver: Name, payment: int, fund: int): Result<State> {
    var s1 :- RunRex(s, 2);
    if !LoansAvailable(s1) then Abort(LoansNotAvailable) else
    if payment <= 0 || fund < 0 then Abort(AmountNotPositive) else
    var s2 :- TransferFromFund(s1, from, payment + fund);
    var rented := BancorOutput(s2.pool.value.rent, s2.pool.value.unlent, payment);
    if payment >= rented then Abort(LoanPriceUnfavorable) else
    var p := AddLoan(s2.pool.value, payment, rented, true);
    var loan := Loan(from, receiver, payment, fund, rented, p.loanNum, s.now + LOAN_TERM);
    var s3 := s2.(pool := Some(p)).WithLoans(kind, InsertLoan(s2.Loans(kind), loan));
    ChangeLimit(s3, kind, receiver, rented)
  }

  function FundLoan(s: State, kind: Kind, from: Name, num: nat, payment: int): Result<State> {
    var s1 :- TransferFromFund(s, from, payment);
    var loans := s1.Loans(kind);
    var i := FindLoan(loans, num);
    if i >= |loans| then Abort(LoanNotFound) else
    if loans[i].from != from then Abort(NotLoanCreator) else
    if loans[i].expiration <= s.now then Abort(LoanExpired) else
    Ok(s1.WithLoans(kind, loans[i := loans[i].(balance := loans[i].balance + payment)]))
  }

  function DefundLoan(s: State, kind: Kind, from: Name, num: nat, amount: int): Result<State> {
    var loans := s.Loans(kind);
    var i := FindLoan(loans, num);
    if i >= |loans| then Abort(LoanNotFound) else
    if loans[i].from != from then Abort(NotLoanCreator) else
    if loans[i].expiration <= s.now then Abort(LoanExpired) else
    if loans[i].balance < amount then Abort(LoanBalanceInsufficient) else
    TransferToFund(s.WithLoans(kind, loans[i := loans[i].(balance := loans[i].balance - amount)]), from, amount)
  }

  function UpdateRex(s: State, owner: Name): Result<State> {
    var s1 :- RunRex(s, 2);
    if owner !in s1.balances then Abort(NoRexBalance) else
    var (s2, _) :- UpdateRexAccount(s1, owner, 0);
    Ok(s2.(balances := s2.balances[owner := ProcessMaturities(s1.balances[owner], Seconds(s.now))]))
  }

  function SetRex(s: State, balance: int): Result<State> {
    if balance <= 0 then Abort(AmountNotPositive) else
    if s.pool.None? then Abort(RexNotInitialized) else
    Ok(s.(pool := Some(s.pool.value.(rent := balance))))
  }

  function Consolidate(s: State, owner: Name): Result<State> {
    var s1 :- RunRex(s, 2);
    if owner !in s1.balances then Abort(NoRexBalance) else
    var (s2, inOrder) :- UpdateRexAccount(s1, owner, 0);
    Ok(s2.(balances := s2.balances[owner := ConsolidateBuckets(s1.balances[owner], s.now, inOrder)]))
  }

  function MoveToSavings(s: State, owner: Name, rex: Int64): Result<State> {
    var s1 :- RunRex(s, 2);
    if owner !in s1.balances then Abort(NoRexBalance) else
    if rex <= 0 then Abort(AmountNotPositive) else
    var (s2, inOrder) :- UpdateRexAccount(s1, owner, 0);
    var b :- MoveIntoSavings(s1.balances[owner], s.now, inOrder, rex);
    Ok(s2.(balances := s2.balances[owner := b]))
  }

  function MoveFromSavings(s: State, owner: Name, rex: int): Result<State> {
    var s1 :- RunRex(s, 2);
    if owner !in s1.balances then Abort(NoRexBalance) else
    if rex <= 0 then Abort(AmountNotPositive) else
    var b :- MoveOutOfSavings(s1.balances[owner], s.now, rex);
    var (s2, _) :- UpdateRexAccount(s1.(balances := s1.balances[owner := b]), owner, 0);
    Ok(s2)
  }

  function CloseRex(s: State, owner: Name): Result<State> {
    var s1 :- if s.pool.Some? then RunRex(s, 2) else Ok(s);
    var (s2, _) :- UpdateRexAccount(s1, owner, 0);
    var idle := !HasLoanFrom(s2.cpuLoans, owner) && !HasLoanFrom(s2.netLoans, owner)
                && owner in s2.funds && s2.funds[owner] == 0;
    var s3 := if idle then s2.(funds := s2.funds - {owner}) else s2;
    if owner in s3.balances && s3.balances[owner].rex != 0 then Abort(RemainingRex) else
    Ok(s3.(balances := s3.balances - {owner}))
  }

  /** The system closes a name auction and announces its price to the pool. */
  function CloseNameAuction(s: State, bid: nat): Result<State> {
    if RexAvailable(s.pool) then
      Ok(s.(pool := Some(s.pool.value.(namebid := s.pool.value.namebid + bid))))
    else Ok(s)
  }

  // ---------- bandwidth ----------

  function Abs(x: int): int {
    if x < 0 then -x else x
  }

  function AddDelegation(s: State, from: Name, to: Name, dNet: int, dCpu: int): Result<State> {
    var was := DelegationOf(s.delegations, from, to);
    var w := Weights(was.net + dNet, was.cpu + dCpu);
    if w.net < 0 then Abort(StakedNetInsufficient) else
    if w.cpu < 0 then Abort(StakedCpuInsufficient) else
    Ok(s.(delegations := WriteDelegation(s.delegations, from, to, w)))
  }

  /** What is left of one refund component, and of the stake delta it absorbs. */
  function NetOut(pending: int, delta: int): (int, int) {
    if pending - delta < 0 then (0, -(pending - delta)) else (pending - delta, 0)
  }

  function WriteRefund(m: map<Name, Refund>, owner: Name, r: Refund): map<Name, Refund> {
    if r.net == 0 && r.cpu == 0 then m - {owner} else m[owner := r]
  }

  /** Updates, creates or erases the refund of `owner`; returns the stake still to be paid for. */
  function NetRefund(m: map<Name, Refund>, owner: Name, dNet: int, dCpu: int, sec: nat): Result<(map<Name, Refund>, int)> {
    if owner in m then
      var r := m[owner];
      var time := if dNet < 0 || dCpu < 0 then sec else r.requested;
      var (net, netDue) := NetOut(r.net, dNet);
      var (cpu, cpuDue) := NetOut(r.cpu, dCpu);
      if net < 0 || cpu < 0 then Abort(RefundNegative)
      else Ok((WriteRefund(m, owner, Refund(net, cpu, time)), netDue + cpuDue))
    else if dNet < 0 || dCpu < 0 then
      var (net, netDue) := NetOut(0, dNet);
      var (cpu, cpuDue) := NetOut(0, dCpu);
      Ok((m[owner := Refund(net, cpu, sec)], netDue + cpuDue))
    else Ok((m, dNet + dCpu))
  }

  /** Pays newly staked tokens in. */
  function PayStake(s: State, source: Name, due: int): Result<State> {
    if due > 0 then TransferTokens(s, source, STAKE_ACCOUNT, due) else Ok(s)
  }

  /** Nets a stake change against a pending refund when asked to, and pays for the rest. */
  function SettleStake(s: State, source: Name, from: Name, nets: bool, dNet: int, dCpu: int): Result<State> {
    if source == STAKE_ACCOUNT then Ok(s)
    else if nets then
      var (refunds, due) :- NetRefund(s.refunds, from, dNet, dCpu, Seconds(s.now));
      PayStake(s.(refunds := refunds), source, due)
    else PayStake(s, source, dNet + dCpu)
  }

  predicate SameSign(dNet: int, dCpu: int) {
    Abs(dNet + dCpu) >= Abs(dNet) && Abs(dNet + dCpu) >= Abs(dCpu)
  }

  function ChangeBandwidth(s: State, source: Name, receiver: Name, dNet: int, dCpu: int, transfer: bool): Result<State> {
    if dNet == 0 && dCpu == 0 then Abort(NothingToStake) else
    if !SameSign(dNet, dCpu) then Abort(OppositeSigns) else
    var from := if transfer then receiver else source;
    var s1 :- AddDelegation(s, from, receiver, dNet, dCpu);
    var rows :- AddToLimits(s1.resources, receiver, dNet, dCpu);
    var nets := (!transfer && from == receiver) || dNet + dCpu < 0;
    SettleStake(s1.(resources := rows), source, from, nets, dNet, dCpu)
  }

  function DelegateBandwidth(s: State, from: Name, receiver: Name, net: int, cpu: int, transfer: bool): Result<State> {
    if !(cpu >= 0 && net >= 0 && net + cpu > 0) then Abort(StakeNotPositive) else
    if transfer && from == receiver then Abort(TransferFlagToSelf) else
    ChangeBandwidth(s, from, receiver, net, cpu, transfer)
  }

  function UndelegateBandwidth(s: State, from: Name, receiver: Name, net: int, cpu: int): Result<State> {
    if !(cpu >= 0 && net >= 0 && cpu + net > 0) then Abort(StakeNotPositive) else
    ChangeBandwidth(s, from, receiver, -net, -cpu, false)
  }

  function RefundStake(s: State, owner: Name): Result<State> {
    if owner !in s.refunds then Abort(RefundMissing) else
    var r := s.refunds[owner];
    if r.requested + REFUND_DELAY > Seconds(s.now) then Abort(RefundTooEarly) else
    var s1 :- TransferTokens(s, STAKE_ACCOUNT, owner, r.net + r.cpu);
    Ok(s1.(refunds := s1.refunds - {owner}))
  }

  // ---------- RAM ----------

  function UpdateRamSupply(s: State): State {
    var slot := BlockSlot(s.now);
    if slot <= s.ram.lastIncrease then s
    else
      var grown := ((slot - s.ram.lastIncrease) * s.ram.rate) % 0x1_0000_0000;
      s.(ram := s.ram.(maxSize := s.ram.maxSize + grown, base := s.ram.base + grown, lastIncrease := slot))
  }

  /** Half a percent, rounded up. */
  function RamFee(amount: int): int {
    (amount + 199) / 200
  }

  /** Charges the fee of a RAM trade and passes it on to the REX pool. */
  function PayRamFee(s: State, payer: Name, fee: int): Result<State> {
    if fee > 0 then
      var s1 :- TransferTokens(s, payer, RAMFEE_ACCOUNT, fee);
      ChannelToRex(s1, RAMFEE_ACCOUNT, fee)
    else Ok(s)
  }

  /** Converts tokens into reserved RAM for `receiver`. */
  function ReserveRam(s: State, receiver: Name, paid: int): Result<State> {
    var bytes := BancorOutput(s.ram.quote, s.ram.base, paid);
    if bytes <= 0 then Abort(RamNotReserved) else
    var row := ResourcesOf(s.resources, receiver);
    Ok(s.(ram := s.ram.(quote := s.ram.quote + paid, base := s.ram.base - bytes,
                        reserved := s.ram.reserved + bytes, stake := s.ram.stake + paid),
          resources := s.resources[receiver := row.(ram := row.ram + bytes)]))
  }

  function BuyRam(s: State, payer: Name, receiver: Name, quant: int): Result<State> {
    if quant <= 0 then Abort(AmountNotPositive) else
    var s1 :- TransferTokens(UpdateRamSupply(s), payer, RAM_ACCOUNT, quant - RamFee(quant));
    var s2 :- PayRamFee(s1, payer, RamFee(quant));
    ReserveRam(s2, receiver, quant - RamFee(quant))
  }

  function RamProceeds(ram: Ram, bytes: int): int {
    BancorOutput(ram.base, ram.quote, bytes)
  }

  /** Converts RAM of `account` back into tokens. */
  function ReleaseRam(s: State, account: Name, bytes: int): Result<State> {
    if account !in s.resources then Abort(NoResourceRow) else
    var row := s.resources[account];
    if row.ram < bytes then Abort(RamQuotaExceeded) else
    var tokens := RamProceeds(s.ram, bytes);
    if tokens <= 1 then Abort(RamProceedsTooLow) else
    if s.ram.stake - tokens < 0 then Abort(RamStakeNegative) else
    Ok(s.(ram := s.ram.(base := s.ram.base + bytes, quote := s.ram.quote - tokens,
                        reserved := s.ram.reserved - bytes, stake := s.ram.stake - tokens),
          resources := s.resources[account := row.(ram := row.ram - bytes)]))
  }

  function SellRam(s: State, account: Name, bytes: int): Result<State> {
    if bytes <= 0 then Abort(AmountNotPositive) else
    var s0 := UpdateRamSupply(s);
    var tokens := RamProceeds(s0.ram, bytes);
    var s1 :- ReleaseRam(s0, account, bytes);
    var s2 :- TransferTokens(s1, RAM_ACCOUNT, account, tokens);
    PayRamFee(s2, account, RamFee(tokens))
  }

  function SetRam(s: State, size: int): Result<State> {
    if s.ram.maxSize >= size then Abort(RamOnlyIncreases) else
    if size >= RAM_SIZE_LIMIT then Abort(RamUnrealistic) else
    if size <= s.ram.reserved then Abort(RamBelowReserved) else
    Ok(s.(ram := s.ram.(base := s.ram.base + (size - s.ram.maxSize), maxSize := size)))
  }

  function SetRamRate(s: State, rate: nat): Result<State> {
    var s1 := UpdateRamSupply(s);
    Ok(s1.(ram := s1.ram.(rate := rate)))
  }

  // ---------- one step, and a run ----------

  /** Time passes between actions; the block clock never goes back. */
  function AdvanceClock(s: State, to: nat): Result<State> {
    if !(s.now <= to < CLOCK_LIMIT) then Abort(ClockOutOfRange) else
    Ok(s.(now := to))
  }

  datatype Action =
    | ActAdvance(to: nat)
    | ActTransfer(from: Name, to_: Name, amount: int)
    | ActDeposit(owner: Name, amount: int)
    | ActWithdraw(owner: Name, amount: int)
    | ActBuyRex(owner: Name, amount: int, votes: bool)
    | ActUnstakeToRex(owner: Name, receiver: Name, net: int, cpu: int, votes: bool)
    | ActSellRex(owner: Name, rex: int)
    | ActCancelOrder(owner: Name)
    | ActRent(kind: Kind, owner: Name, receiver: Name, payment: int, fund: int)
    | ActFundLoan(kind: Kind, owner: Name, num: nat, amount: int)
    | ActDefundLoan(kind: Kind, owner: Name, num: nat, amount: int)
    | ActUpdateRex(owner: Name)
    | ActSetRex(amount: int)
    | ActRexExec(max: nat)
    | ActConsolidate(owner: Name)
    | ActMoveToSavings(owner: Name, moved: Int64)
    | ActMoveFromSavings(owner: Name, rex: int)
    | ActCloseRex(owner: Name)
    | ActCloseNameAuction(bid: nat)
    | ActDelegate(owner: Name, receiver: Name, net: int, cpu: int, transfer: bool)
    | ActUndelegate(owner: Name, receiver: Name, net: int, cpu: int)
    | ActRefund(owner: Name)
    | ActBuyRam(owner: Name, receiver: Name, amount: int)
    | ActSellRam(owner: Name, bytes: int)
    | ActSetRam(size: int)
    | ActSetRamRate(rate: nat)

  function Apply(s: State, a: Action): Result<State> {
    match a
    case ActAdvance(to) => AdvanceClock(s, to)
    case ActTransfer(from, to, amount) => TransferTokens(s, from, to, amount)
    case ActDeposit(owner, amount) => Deposit(s, owner, amount)
    case ActWithdraw(owner, amount) => Withdraw(s, owner, amount)
    case ActBuyRex(owner, amount, votes) => BuyRex(s, owner, amount, votes)
    case ActUnstakeToRex(owner, receiver, net, cpu, votes) => UnstakeToRex(s, owner, receiver, net, cpu, votes)
    case ActSellRex(owner, rex) => SellRex(s, owner, rex)
    case ActCancelOrder(owner) => CancelOrder(s, owner)
    case ActRent(kind, owner, receiver, payment, fund) => Rent(s, kind, owner, receiver, payment, fund)
    case ActFundLoan(kind, owner, num, amount) => FundLoan(s, kind, owner, num, amount)
    case ActDefundLoan(kind, owner, num, amount) => DefundLoan(s, kind, owner, num, amount)
    case ActUpdateRex(owner) => UpdateRex(s, owner)
    case ActSetRex(amount) => SetRex(s, amount)
    case ActRexExec(max) => RunRex(s, max)
    case ActConsolidate(owner) => Consolidate(s, owner)
    case ActMoveToSavings(owner, rex) => MoveToSavings(s, owner, rex)
    case ActMoveFromSavings(owner, rex) => MoveFromSavings(s, owner, rex)
    case ActCloseRex(owner) => CloseRex(s, owner)
    case ActCloseNameAuction(bid) => CloseNameAuction(s, bid)
    case ActDelegate(owner, receiver, net, cpu, transfer) => DelegateBandwidth(s, owner, receiver, net, cpu, transfer)
    case ActUndelegate(owner, receiver, net, cpu) => UndelegateBandwidth(s, owner, receiver, net, cpu)
    case ActRefund(owner) => RefundStake(s, owner)
    case ActBuyRam(owner, receiver, amount) => BuyRam(s, owner, receiver, amount)
    case ActSellRam(owner, bytes) => SellRam(s, owner, bytes)
    case ActSetRam(size) => SetRam(s, size)
    case ActSetRamRate(rate) => SetRamRate(s, rate)
  }

  /** An aborted action leaves every table as it was. */
  function Step(s: State, a: Action): State {
    match Apply(s, a)
    case Ok(s') => s'
    case Abort(_) => s
  }

  function Run(s: State, actions: seq<Action>): State
    decreases |actions|
  {
    if |actions| == 0 then s else Run(Step(s, actions[0]), actions[1..])
  }
}
