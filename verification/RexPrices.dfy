/** What the pool charges and pays, exactly, in terms of its totals alone. */
module RexPrices {
  import opened Arithmetic
  import opened Outcomes
  import opened RexState
  import opened RexActions
  import opened RexPool

  /** `q` is the quotient of two amounts rounded down. */
  ghost predicate IsFloor(q: int, a: int, d: int) {
    q * d <= a < q * d + d
  }

  lemma FloorIsUnique(q: int, k: int, a: int, d: int)
    requires d > 0 && IsFloor(q, a, d) && IsFloor(k, a, d)
    ensures q == k
  {
    DivUnique(a, d, q, a - q * d);
    DivUnique(a, d, k, a - k * d);
  }

  lemma MulDivIsFloor(a: int, b: int, d: int)
    requires d > 0
    ensures IsFloor(MulDiv(a, b, d), a * b, d)
  {
    DivBounds(a * b, d);
  }

  // ---------- conversions ----------

  /** A conversion pays the largest amount that does not let the product of the reserves shrink. */
  lemma BancorIsLargest(inpReserve: int, outReserve: int, inp: int, out: int)
    requires inpReserve >= 0 && outReserve >= 0 && inp >= 0 && inpReserve + inp > 0
    ensures out == BancorOutput(inpReserve, outReserve, inp)
       <==> (inpReserve + inp) * (outReserve - out) >= inpReserve * outReserve
            && (inpReserve + inp) * (outReserve - out - 1) < inpReserve * outReserve
  {
    hide BancorOutput;
    BancorIsFloor(inpReserve, outReserve, inp);
    var d, exact := inpReserve + inp, BancorOutput(inpReserve, outReserve, inp);
    assert d * outReserve == inpReserve * outReserve + inp * outReserve;
    assert d * (outReserve - out) == d * outReserve - out * d;
    assert d * (outReserve - out - 1) == d * outReserve - out * d - d;
    if IsFloor(out, inp * outReserve, d) {
      FloorIsUnique(out, exact, inp * outReserve, d);
    }
  }

  lemma BancorIsFloor(inpReserve: int, outReserve: int, inp: int)
    requires inpReserve >= 0 && outReserve >= 0 && inp >= 0 && inpReserve + inp > 0
    ensures IsFloor(BancorOutput(inpReserve, outReserve, inp), inp * outReserve, inpReserve + inp)
  {
    var d := inpReserve + inp;
    MulDivIsFloor(inp, outReserve, d);
    MulLe(0, inp, outReserve);
    FloorAtLeast(inp * outReserve, d, 0);
  }

  // ---------- purchases ----------

  /** REX issued into a pool that holds some: the payment buys at the price of the pool, rounded down. */
  ghost predicate IsIssue(p: Pool, payment: int, issued: int) {
    IsFloor(p.rex + issued, (p.lendable + payment) * p.rex, p.lendable)
  }

  /** A pool without REX sells ten thousand REX for a token unit and starts over with 20000.0000 tokens of rent. */
  lemma FirstPurchaseExact(pool: Option<Pool>, payment: int)
    requires PoolRowSound(pool) && RexOf(pool) == 0 && payment > 0
    ensures AddToPool(pool, payment).Ok? && AddToPool(pool, payment).value.1 == 10_000 * payment
    ensures var q := AddToPool(pool, payment).value.0;
            && q.lent == 0 && q.unlent == payment && q.lendable == payment && q.rex == 10_000 * payment && q.rent == 200_000_000
            && q.namebid == (if pool.Some? then pool.value.namebid else 0)
            && q.loanNum == (if pool.Some? then pool.value.loanNum else 0)
  {
  }

  /** Later purchases add the payment to the unlent tokens and issue REX at the current price. */
  lemma PurchaseExact(p: Pool, payment: int)
    requires PoolSound(p) && p.rex > 0 && payment > 0
    ensures AddToPool(Some(p), payment).Ok?
    ensures var (q, issued) := AddToPool(Some(p), payment).value;
            && IsIssue(p, payment, issued) && issued >= 0
            && q == p.(lendable := p.lendable + payment, unlent := p.unlent + payment, rex := p.rex + issued)
  {
    hide MulDiv;
    MulDivIsFloor(p.lendable + payment, p.rex, p.lendable);
    AddToPoolSound(Some(p), payment);
  }

  // ---------- sales ----------

  /** Tokens that REX is worth in a pool, rounded down. */
  ghost function Worth(p: Pool, rex: int): int {
    if p.rex > 0 then (rex * p.lendable) / p.rex else 0
  }

  /** After paying for the REX a fifth of the lent tokens, rounded down, would still be unlent. */
  ghost predicate LeavesReserve(p: Pool, rex: int) {
    p.unlent - Worth(p, rex) >= p.lent / 5
  }

  /** A sale is filled exactly when it leaves the reserve, for what the REX is worth. */
  lemma SaleExact(p: Pool, rex: int)
    requires PoolSound(p) && 0 < rex <= p.rex
    ensures FillFromPool(p, rex)
         == Ok(if LeavesReserve(p, rex)
               then Filled(p.(rex := p.rex - rex, lendable := p.lendable - Worth(p, rex), unlent := p.unlent - Worth(p, rex)),
                           Worth(p, rex))
               else NotFilled)
  {
    FifthOf(p.lent);
    hide PoolSound;
  }

  lemma FifthOf(lent: int)
    requires lent >= 0
    ensures (2 * lent) / 10 == lent / 5
  {
    var q, r := lent / 5, lent % 5;
    DivUnique(2 * lent, 10, q, 2 * r);
  }

  // ---------- loans ----------

  /** Rent given back with the tokens of a loan: at the price of returning them. */
  ghost function RentReturned(p: Pool, staked: int): int {
    if p.unlent + staked > 0 then (staked * p.rent) / (p.unlent + staked) else 0
  }

  /** Tokens that a payment rents from a pool, rounded down. */
  ghost function Quote(p: Pool, payment: int): int {
    if p.rent + payment > 0 then (payment * p.unlent) / (p.rent + payment) else 0
  }

  /** The pool with the tokens of a loan back. */
  ghost function Returned(p: Pool, staked: int): Pool {
    p.(lent := p.lent - staked, unlent := p.unlent + staked, rent := p.rent - RentReturned(p, staked))
  }

  /** The pool with a loan out, its payment kept. */
  ghost function LentOut(p: Pool, payment: int, rented: int): Pool {
    p.(lent := p.lent + rented, unlent := p.unlent - rented + payment, rent := p.rent + payment, lendable := p.lendable + payment)
  }

  lemma ReturnExact(p: Pool, staked: int)
    requires PoolSound(p) && 0 <= staked <= p.lent
    ensures RemoveLoan(p, staked) == Returned(p, staked)
  {
    QuotientNonNegative(staked, p.rent, p.unlent + staked);
  }

  lemma QuoteExact(p: Pool, payment: int)
    requires PoolSound(p) && payment > 0
    ensures BancorOutput(p.rent, p.unlent, payment) == Quote(p, payment)
  {
    QuotientNonNegative(payment, p.unlent, p.rent + payment);
  }

  lemma QuotientNonNegative(a: int, b: int, d: int)
    requires a >= 0 && b >= 0
    ensures d > 0 ==> (a * b) / d >= 0
  {
    if d > 0 {
      MulLe(0, a, b);
      FloorAtLeast(a * b, d, 0);
    }
  }

  lemma LendExact(p: Pool, payment: int, rented: int, isNew: bool)
    requires PoolSound(p)
    ensures AddLoan(p, payment, rented, isNew)
         == LentOut(p, payment, rented).(loanNum := p.loanNum + if isNew then 1 else 0)
  {
  }
}
