/** Tables and constants of the system contract that the REX, bandwidth and RAM actions share. */
module RexState {
  import opened Outcomes

  /** An account name, as the 64-bit value it encodes. */
  type Name = nat

  const REX_ACCOUNT: Name := 0x42a2ac02eae80000    // celes.rex
  const STAKE_ACCOUNT: Name := 0x42a2ac0319341400  // celes.stake
  const RAM_ACCOUNT: Name := 0x42a2ac02e6900000    // celes.ram
  const RAMFEE_ACCOUNT: Name := 0x42a2ac02e692d4a0 // celes.ramfee
  const NAMES_ACCOUNT: Name := 0x42a2ac026692b000  // celes.names
  const B1: Name := 0x3840000000000000             // b1

  const LOAN_TERM := 2_592_000_000_000     // 30 days, in microseconds
  const REFUND_DELAY := 259_200            // 3 days, in seconds
  const END_OF_DAYS := 0xffff_ffff         // marks the savings bucket, seconds
  const INIT_TOTAL_RENT := 20_000_0000
  const RAM_SIZE_LIMIT := 0x4_0000_0000_0000

  /** Clock readings (microseconds) for which every maturity date stays below the savings bucket. */
  const CLOCK_LIMIT := 4_294_000_000_000_000

  /** An `int64_t` action argument. */
  type Int64 = x: int | -0x8000_0000_0000_0000 <= x < 0x8000_0000_0000_0000 witness 0

  /** `int64_t` arithmetic keeps the low 64 bits. */
  function Wrap64(x: int): Int64 {
    var low := x % 0x1_0000_0000_0000_0000;
    if low < 0x8000_0000_0000_0000 then low else low - 0x1_0000_0000_0000_0000
  }

  datatype Pool = Pool(lent: int, unlent: int, rent: int, lendable: int, rex: int, namebid: int, loanNum: nat)

  /** REX that matures at `time` (seconds); `END_OF_DAYS` marks savings. */
  datatype Bucket = Bucket(time: nat, amount: int)

  datatype RexBalance = RexBalance(rex: int, matured: int, maturities: seq<Bucket>)

  datatype Loan = Loan(from: Name, receiver: Name, payment: int, balance: int, staked: int, num: nat, expiration: nat)

  datatype Order = Order(owner: Name, requested: int, proceeds: int, time: nat, open: bool)

  datatype Weights = Weights(net: int, cpu: int)

  datatype Resources = Resources(net: int, cpu: int, ram: int)

  datatype Refund = Refund(net: int, cpu: int, requested: nat)

  /** The RAM connector balances and the global counters beside them. */
  datatype Ram = Ram(base: int, quote: int, maxSize: int, reserved: int, stake: int, rate: nat, lastIncrease: nat)

  /** The two loan tables. */
  datatype Kind = Cpu | Net

  /**
   * Rows of every table. Loans are listed in the order of index `byexpr`
   * (expiration, then loan number) and orders in the order of index `bytime`
   * (open orders by time, then filled ones, ties by owner).
   */
  datatype State = State(
    now: nat,
    pool: Option<Pool>,
    funds: map<Name, int>,
    balances: map<Name, RexBalance>,
    cpuLoans: seq<Loan>,
    netLoans: seq<Loan>,
    orders: seq<Order>,
    resources: map<Name, Resources>,
    delegations: map<(Name, Name), Weights>,
    refunds: map<Name, Refund>,
    tokens: map<Name, int>,
    ram: Ram)
  {
    function Loans(kind: Kind): seq<Loan> {
      if kind.Cpu? then cpuLoans else netLoans
    }

    function WithLoans(kind: Kind, loans: seq<Loan>): State {
      if kind.Cpu? then this.(cpuLoans := loans) else this.(netLoans := loans)
    }
  }

  function Seconds(now: nat): nat {
    now / 1_000_000
  }

  /** Start of the UTC day a second falls in. */
  function DayStart(sec: nat): nat {
    sec - sec % 86_400
  }

  /** Four days from the end of the current day, in seconds. */
  function Maturity(now: nat): nat {
    DayStart(Seconds(now)) + 432_000
  }

  /** Number of the half-second block slot. */
  function BlockSlot(now: nat): nat {
    now / 500_000
  }

  /** REX issued for a payment when the pool is empty; also the most REX that many tokens can back. */
  function AtInitialRatio(tokens: int): (rex: int)
    ensures tokens > 0 ==> rex > 0
    ensures tokens == 0 ==> rex == 0
  {
    10_000 * tokens
  }

  function LoanBefore(a: Loan, b: Loan): bool {
    a.expiration < b.expiration || (a.expiration == b.expiration && a.num < b.num)
  }

  function InsertLoan(loans: seq<Loan>, l: Loan): seq<Loan> {
    if |loans| == 0 || LoanBefore(l, loans[0]) then [l] + loans
    else [loans[0]] + InsertLoan(loans[1..], l)
  }

  /** Index of a loan in its table, or the table's size. */
  function FindLoan(loans: seq<Loan>, num: nat): (i: nat)
    ensures i <= |loans|
    ensures i < |loans| ==> loans[i].num == num
    ensures i == |loans| ==> forall k :: 0 <= k < |loans| ==> loans[k].num != num
  {
    if |loans| == 0 || loans[0].num == num then 0 else 1 + FindLoan(loans[1..], num)
  }

  predicate HasLoanFrom(loans: seq<Loan>, owner: Name) {
    exists i :: 0 <= i < |loans| && loans[i].from == owner
  }

  function OrderBefore(a: Order, b: Order): bool {
    if a.open then !b.open || a.time < b.time || (a.time == b.time && a.owner < b.owner)
    else !b.open && a.owner < b.owner
  }

  function InsertOrder(orders: seq<Order>, o: Order): seq<Order> {
    if |orders| == 0 || OrderBefore(o, orders[0]) then [o] + orders
    else [orders[0]] + InsertOrder(orders[1..], o)
  }

  /** Index of an owner's order, or the table's size. */
  function FindOrder(orders: seq<Order>, owner: Name): (i: nat)
    ensures i <= |orders|
    ensures i < |orders| ==> orders[i].owner == owner
    ensures i == |orders| ==> forall k :: 0 <= k < |orders| ==> orders[k].owner != owner
  {
    if |orders| == 0 || orders[0].owner == owner then 0 else 1 + FindOrder(orders[1..], owner)
  }

  function RemoveAt<T>(rows: seq<T>, i: nat): seq<T>
    requires i < |rows|
  {
    rows[..i] + rows[i + 1..]
  }

  function Held(tokens: map<Name, int>, account: Name): int {
    if account in tokens then tokens[account] else 0
  }

  function ResourcesOf(resources: map<Name, Resources>, receiver: Name): Resources {
    if receiver in resources then resources[receiver] else Resources(0, 0, 0)
  }

  function DelegationOf(delegations: map<(Name, Name), Weights>, from: Name, to: Name): Weights {
    if (from, to) in delegations then delegations[(from, to)] else Weights(0, 0)
  }
}
