/** The arithmetic of the lending pool: what a purchase, a sale and a loan do to its totals. */
module RexPool {
  import opened Arithmetic
  import opened Outcomes
  import opened RexState
  import opened RexActions

  /** Agreement of the pool's own totals. */
  ghost predicate PoolSound(p: Pool) {
    && p.lent >= 0 && p.unlent >= 0 && p.rent >= 0 && p.rex >= 0 && p.namebid >= 0
    && p.lendable == p.lent + p.unlent
    && (p.rex == 0 ==> p.lendable == 0)
    && (p.rex > 0 ==> p.lendable > 0)
    && p.rex <= AtInitialRatio(p.lendable)
  }

  /** One REX is worth at least as many tokens in `q` as in `p`, as long as `q` has REX at all. */
  ghost predicate PriceRose(p: Pool, q: Pool) {
    q.rex > 0 ==> p.rex > 0 && q.lendable * p.rex >= p.lendable * q.rex
  }

  /** REX held after paying `x` into a pool of `s` tokens and `r` REX. */
  lemma PurchaseArithmetic(s: int, r: int, x: int)
    requires s > 0 && r > 0 && x > 0 && r <= 10_000 * s
    ensures var r1 := ((s + x) * r) / s;
            r <= r1 <= 10_000 * (s + x) && (s + x) * r >= s * r1
  {
    var r1 := ((s + x) * r) / s;
    assert (s + x) * r == r * s + x * r;
    assert x * r >= 0;
    FloorAtLeast((s + x) * r, s, r);
    DivBounds((s + x) * r, s);
    MulLe(r, 10_000 * s, s + x);
    assert 10_000 * s * (s + x) == 10_000 * (s + x) * s;
    assert r * (s + x) == (s + x) * r;
    FloorAtMost((s + x) * r, s, 10_000 * (s + x));
    assert r1 * s == s * r1;
  }

  /** Tokens left after selling `x` of the `r` REX in a pool of `s` tokens. */
  lemma SaleArithmetic(s: int, r: int, x: int)
    requires s > 0 && 0 < x <= r <= 10_000 * s
    ensures var p := (x * s) / r;
            && 0 <= p <= s && (s - p) * r >= s * (r - x)
            && r - x <= 10_000 * (s - p)
            && (x == r ==> p == s) && (x < r ==> p < s)
  {
    var p := (x * s) / r;
    assert 0 * r <= x * s;
    FloorAtLeast(x * s, r, 0);
    MulLe(x, r, s);
    FloorAtMost(x * s, r, s);
    SalePrice(s, r, x, p);
    SaleKeepsBound(s, r, x, p);
    if x == r {
      FloorAtLeast(x * s, r, s);
    } else {
      MulLe(1, r - x, s);
      if s <= p {
        MulLe(s - p, 0, r);
      }
    }
  }

  lemma SalePrice(s: int, r: int, x: int, p: int)
    requires r > 0 && p == (x * s) / r
    ensures (s - p) * r >= s * (r - x)
  {
    DivBounds(x * s, r);
    assert (s - p) * r == s * r - p * r;
    assert s * (r - x) == s * r - x * s;
  }

  lemma SaleKeepsBound(s: int, r: int, x: int, p: int)
    requires s > 0 && r <= 10_000 * s && p <= s && (s - p) * r >= s * (r - x)
    ensures r - x <= 10_000 * (s - p)
  {
    MulLe(r, 10_000 * s, s - p);
    assert 10_000 * s * (s - p) == 10_000 * (s - p) * s;
    assert r * (s - p) == (s - p) * r;
    assert (r - x) * s == s * (r - x);
    CancelLe(r - x, 10_000 * (s - p), s);
  }

  lemma PriceRoseTransitive(p: Pool, q: Pool, r: Pool)
    requires PriceRose(p, q) && PriceRose(q, r)
    ensures PriceRose(p, r)
  {
    if r.rex > 0 {
      MulLe(q.lendable * r.rex, r.lendable * q.rex, p.rex);
      MulLe(p.lendable * q.rex, q.lendable * p.rex, r.rex);
      assert q.lendable * r.rex * p.rex == q.lendable * p.rex * r.rex;
      assert p.lendable * q.rex * r.rex == (p.lendable * r.rex) * q.rex;
      assert r.lendable * q.rex * p.rex == (r.lendable * p.rex) * q.rex;
      CancelLe(p.lendable * r.rex, r.lendable * p.rex, q.rex);
    }
  }

  /** A conversion never pays out more than its reserve, nor a negative amount. */
  lemma BancorWithinReserve(inpReserve: int, outReserve: int, inp: int)
    requires inpReserve >= 0 && outReserve >= 0 && inp >= 0
    ensures 0 <= BancorOutput(inpReserve, outReserve, inp) <= outReserve
  {
    var d := inpReserve + inp;
    if d > 0 {
      var out := (inp * outReserve) / d;
      DivBounds(inp * outReserve, d);
      MulLe(inp, d, outReserve);
      assert d * outReserve == outReserve * d;
      CancelLe(out, outReserve, d);
      assert inp * outReserve >= 0;
    }
  }

  /** A conversion never lets the product of the two reserves shrink. */
  lemma BancorKeepsProduct(inpReserve: int, outReserve: int, inp: int)
    requires inpReserve >= 0 && outReserve >= 0 && inp >= 0
    ensures var out := BancorOutput(inpReserve, outReserve, inp);
            (inpReserve + inp) * (outReserve - out) >= inpReserve * outReserve
  {
    BancorWithinReserve(inpReserve, outReserve, inp);
    var d := inpReserve + inp;
    var out := BancorOutput(inpReserve, outReserve, inp);
    if d > 0 {
      DivBounds(inp * outReserve, d);
      assert inp * outReserve >= 0;
      assert d * (outReserve - out) == d * outReserve - out * d;
      assert d * outReserve == inpReserve * outReserve + inp * outReserve;
    }
  }

  function RexOf(pool: Option<Pool>): int {
    if pool.Some? then pool.value.rex else 0
  }

  function LendableOf(pool: Option<Pool>): int {
    if pool.Some? then pool.value.lendable else 0
  }

  function LentOf(pool: Option<Pool>): int {
    if pool.Some? then pool.value.lent else 0
  }

  /** Before the first purchase there is no pool row. */
  ghost predicate PoolRowSound(pool: Option<Pool>) {
    pool.Some? ==> PoolSound(pool.value)
  }

  ghost function BoughtInto(p: Pool, payment: int): Pool
    requires p.lendable > 0
  {
    p.(lendable := p.lendable + payment, rex := MulDiv(p.lendable + payment, p.rex, p.lendable),
       unlent := p.lendable + payment - p.lent)
  }

  lemma BoughtIntoSound(p: Pool, payment: int)
    requires PoolSound(p) && p.rex > 0 && payment > 0
    ensures var q := BoughtInto(p, payment);
            PoolSound(q) && q.rex >= p.rex && PriceRose(p, q)
  {
    PurchaseArithmetic(p.lendable, p.rex, payment);
  }

  /**
   * A purchase: the "lendable REX pool is empty" and "should never go negative"
   * checks pass, totals stay sound, and the price of REX does not fall while
   * there is REX.
   */
  lemma AddToPoolSound(pool: Option<Pool>, payment: int)
    requires PoolRowSound(pool) && payment > 0
    ensures AddToPool(pool, payment).Ok?
    ensures var q := AddToPool(pool, payment).value.0;
            && PoolSound(q) && q.rex >= RexOf(pool) && q.rex > 0
            && q.lendable == LendableOf(pool) + payment && q.lent == LentOf(pool)
            && (RexOf(pool) > 0 ==> PriceRose(pool.value, q))
            && (pool.Some? ==> q.loanNum == pool.value.loanNum && q.namebid == pool.value.namebid)
            && AddToPool(pool, payment).value.1 == q.rex - RexOf(pool)
  {
    if RexOf(pool) > 0 {
      BoughtIntoSound(pool.value, payment);
      AddToLivePool(pool.value, payment);
    } else {
      AddToDrainedPool(pool, payment);
    }
  }

  lemma AddToLivePool(p: Pool, payment: int)
    requires p.rex > 0 && p.lendable > 0 && p.lendable + payment - p.lent >= 0
    ensures var q := BoughtInto(p, payment);
            AddToPool(Some(p), payment) == Ok((q, q.rex - p.rex))
  {
  }

  lemma AddToDrainedPool(pool: Option<Pool>, payment: int)
    requires PoolRowSound(pool) && RexOf(pool) == 0 && payment > 0
    ensures AddToPool(pool, payment).Ok?
    ensures var q := AddToPool(pool, payment).value.0;
            && PoolSound(q) && q.rex > 0 && q.lendable == LendableOf(pool) + payment && q.lent == LentOf(pool)
            && (pool.Some? ==> q.loanNum == pool.value.loanNum && q.namebid == pool.value.namebid)
            && AddToPool(pool, payment).value.1 == q.rex
  {
  }

  /** Selling straight back what was just bought never returns more than was paid. */
  lemma BuyThenSellNeverGains(pool: Option<Pool>, payment: int, q: Pool, bought: int)
    requires PoolRowSound(pool) && payment > 0
    requires AddToPool(pool, payment) == Ok((q, bought))
    ensures FillFromPool(q, bought).Ok?
    ensures var fill := FillFromPool(q, bought).value;
            fill.Filled? ==> fill.proceeds <= payment
  {
    AddToPoolSound(pool, payment);
    RoundTripArithmetic(LendableOf(pool), RexOf(pool), q.lendable, q.rex);
  }

  lemma RoundTripArithmetic(s0: int, r0: int, s1: int, r1: int)
    requires r1 > 0 && (r0 == 0 ==> s0 == 0) && (r0 != 0 ==> s1 * r0 >= s0 * r1)
    ensures ((r1 - r0) * s1) / r1 <= s1 - s0
  {
    assert (r1 - r0) * s1 == r1 * s1 - s1 * r0;
    assert (s1 - s0) * r1 == r1 * s1 - s0 * r1;
    FloorAtMost((r1 - r0) * s1, r1, s1 - s0);
  }

  /** A sale of REX that exists: no division by zero, totals stay sound, the price does not fall. */
  lemma FillFromPoolSound(p: Pool, rex: int)
    requires PoolSound(p) && 0 < rex <= p.rex
    ensures FillFromPool(p, rex).Ok?
    ensures var fill := FillFromPool(p, rex).value;
            fill.Filled? ==>
              && PoolSound(fill.pool) && 0 <= fill.proceeds && PriceRose(p, fill.pool)
              && fill.pool.rex == p.rex - rex && fill.pool.lendable == p.lendable - fill.proceeds
              && fill.pool.lent == p.lent && fill.pool.loanNum == p.loanNum && fill.pool.namebid == p.namebid
              && (fill.pool.rex == 0 ==> p.lent == 0)
    ensures p.lent == 0 ==> FillFromPool(p, rex).value.Filled?
  {
    SaleArithmetic(p.lendable, p.rex, rex);
  }

  /** Closing a loan and, unless it is dropped, lending again against its next payment. */
  lemma ReleaseLoanSound(p: Pool, staked: int)
    requires PoolSound(p) && 0 <= staked <= p.lent && p.rex > 0
    ensures var q := RemoveLoan(p, staked);
            && PoolSound(q) && PriceRose(p, q)
            && q.lent == p.lent - staked && q.lendable == p.lendable && q.rex == p.rex
  {
    BancorWithinReserve(p.unlent, p.rent, staked);
  }

  lemma AddLoanSound(p: Pool, payment: int, isNew: bool)
    requires PoolSound(p) && payment > 0 && p.rex > 0
    ensures var rented := BancorOutput(p.rent, p.unlent, payment);
            var q := AddLoan(p, payment, rented, isNew);
            && PoolSound(q) && PriceRose(p, q) && rented >= 0
            && q.lent == p.lent + rented && q.lendable == p.lendable + payment && q.rex == p.rex
  {
    BancorWithinReserve(p.rent, p.unlent, payment);
    MulLe(p.lendable, p.lendable + payment, p.rex);
  }

  lemma AddFeesSound(p: Pool, fee: int)
    requires PoolSound(p) && fee >= 0 && p.rex > 0
    ensures var q := p.(unlent := p.unlent + fee, lendable := p.lendable + fee);
            PoolSound(q) && PriceRose(p, q)
  {
    MulLe(p.lendable, p.lendable + fee, p.rex);
  }

  lemma PriceRoseReflexive(p: Pool, q: Pool)
    requires p.rex == q.rex && p.lendable == q.lendable
    ensures PriceRose(p, q)
  {
  }
}
