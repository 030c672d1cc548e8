/** Maturity buckets of one REX balance: their shape, their totals, and when REX becomes sellable. */
module RexMaturities {
  import opened Outcomes
  import opened RexState
  import opened RexActions

  ghost predicate IsDay(time: nat) {
    time % 86_400 == 0
  }

  /** A non-negative amount, on a day boundary or in savings. */
  ghost predicate BucketOk(x: Bucket) {
    x.amount >= 0 && (x.time == END_OF_DAYS || (x.time < END_OF_DAYS && IsDay(x.time)))
  }

  /** `x` matures after `y`: as savings, or within four days of it. */
  ghost predicate Follows(x: Bucket, y: Bucket) {
    y.time < x.time && (x.time == END_OF_DAYS || x.time <= y.time + 345_600)
  }

  /** Buckets at strictly ascending times; only the last one can be savings. */
  ghost predicate BucketsOk(buckets: seq<Bucket>) {
    |buckets| > 0 ==>
      && BucketOk(buckets[0])
      && (forall x :: x in buckets[1..] ==> Follows(x, buckets[0]))
      && BucketsOk(buckets[1..])
  }

  ghost predicate DayBuckets(buckets: seq<Bucket>, last: nat) {
    forall x :: x in buckets ==> x.time < END_OF_DAYS && x.time <= last
  }

  lemma {:induction false} AppendBucket(buckets: seq<Bucket>, x: Bucket)
    ensures BucketsOk(buckets + [x]) <==>
              BucketsOk(buckets) && BucketOk(x) && forall y :: y in buckets ==> Follows(x, y)
  {
    if |buckets| > 0 {
      var whole := buckets + [x];
      assert whole[1..] == buckets[1..] + [x];
      AppendBucket(buckets[1..], x);
      assert whole[0] == buckets[0];
      assert x in whole[1..];
      assert buckets == [buckets[0]] + buckets[1..];
    } else {
      assert buckets + [x] == [x];
    }
  }

  /** Matured REX and buckets account for the whole balance; no bucket matures after `last` except savings. */
  ghost predicate BalanceOk(b: RexBalance, last: nat) {
    && b.matured >= 0
    && b.rex == b.matured + BucketTotal(b.maturities)
    && BucketsOk(b.maturities)
    && forall x :: x in b.maturities && x.time != END_OF_DAYS ==> x.time <= last
  }

  /** REX in buckets that mature by a given time. */
  ghost function DueBy(buckets: seq<Bucket>, time: int): int {
    if |buckets| == 0 then 0
    else (if buckets[0].time <= time then buckets[0].amount else 0) + DueBy(buckets[1..], time)
  }

  /** The most REX a balance lets its owner sell up to a given time. */
  ghost function SellableBy(b: RexBalance, time: int): int {
    b.matured + DueBy(b.maturities, time)
  }

  // ---------- the calendar ----------

  lemma DayStartFacts(sec: nat)
    ensures DayStart(sec) >= 0 && IsDay(DayStart(sec)) && DayStart(sec) <= sec < DayStart(sec) + 86_400
  {
    assert sec % 86_400 + (sec / 86_400) * 86_400 == sec;
  }

  lemma DaysApart(a: nat, b: nat)
    requires IsDay(a) && IsDay(b) && a < b
    ensures a + 86_400 <= b
  {
    var x, y := a / 86_400, b / 86_400;
    assert a == 86_400 * x && b == 86_400 * y;
  }

  lemma MaturityFacts(now: nat)
    requires now < CLOCK_LIMIT
    ensures Maturity(now) < END_OF_DAYS && IsDay(Maturity(now))
    ensures Seconds(now) + 345_600 < Maturity(now) <= Seconds(now) + 432_000
  {
    DayStartFacts(Seconds(now));
  }

  lemma MaturityMonotone(a: nat, b: nat)
    requires a <= b
    ensures Maturity(a) <= Maturity(b)
  {
    var x, y := DayStart(Seconds(a)), DayStart(Seconds(b));
    DayStartFacts(Seconds(a));
    DayStartFacts(Seconds(b));
    assert Seconds(a) <= Seconds(b);
    if y < x { DaysApart(y, x); }
  }

  /** A day bucket that is still in the future matures at most four days before a new one. */
  lemma PendingDayInWindow(time: nat, now: nat)
    requires IsDay(time) && Seconds(now) < time
    ensures Maturity(now) <= time + 345_600
  {
    DayStartFacts(Seconds(now));
    DaysApart(DayStart(Seconds(now)), time);
  }

  // ---------- totals ----------

  lemma {:induction false} AppendTotals(buckets: seq<Bucket>, x: Bucket, t: int)
    ensures BucketTotal(buckets + [x]) == BucketTotal(buckets) + x.amount
    ensures DueBy(buckets + [x], t) == DueBy(buckets, t) + (if x.time <= t then x.amount else 0)
  {
    if |buckets| > 0 {
      assert (buckets + [x])[1..] == buckets[1..] + [x];
      AppendTotals(buckets[1..], x, t);
    }
  }

  /** The buckets before the last one, and the last one. */
  lemma SplitLast(buckets: seq<Bucket>, t: int)
    requires |buckets| > 0
    ensures var rest := buckets[..|buckets| - 1];
            var x := buckets[|buckets| - 1];
            && buckets == rest + [x]
            && BucketTotal(buckets) == BucketTotal(rest) + x.amount
            && DueBy(buckets, t) == DueBy(rest, t) + (if x.time <= t then x.amount else 0)
            && (BucketsOk(buckets) <==> BucketsOk(rest) && BucketOk(x) && forall y :: y in rest ==> Follows(x, y))
  {
    var rest := buckets[..|buckets| - 1];
    var x := buckets[|buckets| - 1];
    assert buckets == rest + [x];
    AppendTotals(rest, x, t);
    AppendBucket(rest, x);
  }

  lemma {:induction false} TotalsNonNegative(buckets: seq<Bucket>, t: int)
    requires BucketsOk(buckets)
    ensures 0 <= DueBy(buckets, t) <= BucketTotal(buckets)
  {
    if |buckets| > 0 {
      TotalsNonNegative(buckets[1..], t);
    }
  }

  /** Day buckets that are still in the future mature at most four days before a new one. */
  lemma {:induction false} PendingInWindow(buckets: seq<Bucket>, now: nat)
    requires BucketsOk(buckets)
    requires forall x :: x in buckets ==> Seconds(now) < x.time < END_OF_DAYS
    ensures forall x :: x in buckets ==> Maturity(now) <= x.time + 345_600
  {
    if |buckets| > 0 {
      PendingDayInWindow(buckets[0].time, now);
      PendingInWindow(buckets[1..], now);
      assert buckets == [buckets[0]] + buckets[1..];
    }
  }

  // ---------- one operation at a time ----------

  /** What `d` is to `b` after its savings bucket has been set aside. */
  lemma DropSavingsFacts(b: RexBalance, last: nat, t: int)
    requires BalanceOk(b, last)
    ensures var d := DropSavings(b);
            && SavingsOf(b) >= 0
            && d.rex == b.rex && d.matured == b.matured
            && BucketsOk(d.maturities) && DayBuckets(d.maturities, last)
            && BucketTotal(d.maturities) + SavingsOf(b) == BucketTotal(b.maturities)
            && (t < END_OF_DAYS ==> SellableBy(d, t) == SellableBy(b, t))
  {
    if |b.maturities| > 0 {
      SplitLast(b.maturities, t);
    }
  }

  lemma {:induction false} ProcessFacts(b: RexBalance, sec: nat, last: nat, t: int)
    requires BucketsOk(b.maturities) && DayBuckets(b.maturities, last) && b.matured >= 0
    ensures var p := ProcessMaturities(b, sec);
            && p.rex == b.rex && p.matured >= b.matured
            && BucketsOk(p.maturities) && DayBuckets(p.maturities, last)
            && p.matured + BucketTotal(p.maturities) == b.matured + BucketTotal(b.maturities)
            && (forall x :: x in p.maturities ==> x.time > sec)
            && (t >= sec ==> SellableBy(p, t) == SellableBy(b, t))
    decreases |b.maturities|
  {
    if |b.maturities| > 0 && b.maturities[0].time <= sec {
      var b1 := b.(matured := b.matured + b.maturities[0].amount, maturities := b.maturities[1..]);
      ProcessFacts(b1, sec, last, t);
    } else if |b.maturities| > 0 {
      assert b.maturities == [b.maturities[0]] + b.maturities[1..];
    }
  }

  lemma AddBucketFacts(b: RexBalance, time: nat, amount: int, t: int)
    requires BucketsOk(b.maturities) && DayBuckets(b.maturities, time) && amount >= 0
    requires BucketOk(Bucket(time, amount))
    requires time < END_OF_DAYS ==> forall x :: x in b.maturities ==> time <= x.time + 345_600
    ensures var r := AddBucket(b, time, amount);
            && r.rex == b.rex && r.matured == b.matured
            && BucketsOk(r.maturities)
            && (time < END_OF_DAYS ==> DayBuckets(r.maturities, time))
            && BucketTotal(r.maturities) == BucketTotal(b.maturities) + amount
            && SellableBy(r, t) == SellableBy(b, t) + (if t < time then 0 else amount)
  {
    hide BucketsOk, DueBy, BucketTotal;
    var n := |b.maturities|;
    var r := AddBucket(b, time, amount);
    if n > 0 && b.maturities[n - 1].time == time {
      SplitLast(b.maturities, t);
      SplitLast(r.maturities, t);
      assert r.maturities[..n - 1] == b.maturities[..n - 1];
    } else {
      if n > 0 {
        SplitLast(b.maturities, t);
        assert b.maturities[n - 1] in b.maturities;
      }
      AppendTotals(b.maturities, Bucket(time, amount), t);
      AppendBucket(b.maturities, Bucket(time, amount));
    }
  }

  /** Putting savings back behind the day buckets completes a balance. */
  lemma PutSavingsFacts(b: RexBalance, savings: int, last: nat, t: int)
    requires BucketsOk(b.maturities) && DayBuckets(b.maturities, last) && savings >= 0 && b.matured >= 0
    requires b.rex == b.matured + BucketTotal(b.maturities) + savings
    ensures var r := PutSavings(b, savings);
            && BalanceOk(r, last) && r.rex == b.rex && r.matured == b.matured
            && (t < END_OF_DAYS ==> SellableBy(r, t) == SellableBy(b, t))
            && (last < END_OF_DAYS ==> SavingsOf(r) == savings)
  {
    if savings != 0 {
      assert DayBuckets(b.maturities, END_OF_DAYS);
      AddBucketFacts(b, END_OF_DAYS, savings, t);
    }
  }

  lemma NoBuckets(buckets: seq<Bucket>, t: int)
    requires |buckets| == 0
    ensures BucketTotal(buckets) == 0 && DueBy(buckets, t) == 0
  {
  }

  /** Once the last bucket is due, all are. */
  lemma {:induction false} AllDue(buckets: seq<Bucket>, t: int)
    requires BucketsOk(buckets) && (|buckets| > 0 ==> buckets[|buckets| - 1].time <= t)
    ensures DueBy(buckets, t) == BucketTotal(buckets)
    decreases |buckets|
  {
    hide DueBy, BucketTotal, BucketsOk;
    var n := |buckets|;
    if n == 0 {
      NoBuckets(buckets, t);
    } else {
      SplitLast(buckets, t);
      if n > 1 {
        assert buckets[n - 2] in buckets[..n - 1];
      }
      AllDue(buckets[..n - 1], t);
    }
  }

  function Min(a: int, b: int): int {
    if a < b then a else b
  }

  /** Taking from the back empties whole buckets, latest first, and takes no more than wanted. */
  lemma {:induction false} TakeFacts(buckets: seq<Bucket>, want: int, last: nat, t: int)
    requires BucketsOk(buckets) && DayBuckets(buckets, last) && want >= 0
    ensures var rest := TakeFromBack(buckets, want).0;
            var moved := TakeFromBack(buckets, want).1;
            && BucketsOk(rest) && DayBuckets(rest, last)
            && moved == Min(want, BucketTotal(buckets)) && (moved < want ==> rest == [])
            && BucketTotal(rest) == BucketTotal(buckets) - moved
            && DueBy(rest, t) == Min(DueBy(buckets, t), BucketTotal(buckets) - moved)
    decreases |buckets|
  {
    hide BucketsOk, DueBy, BucketTotal;
    TotalsNonNegative(buckets, t);
    var n := |buckets|;
    if n == 0 {
      NoBuckets(buckets, t);
    } else if want > 0 {
      var x, front := buckets[n - 1], buckets[..n - 1];
      SplitLast(buckets, t);
      TotalsNonNegative(front, t);
      if x.time <= t {
        AllDue(buckets, t);
      }
      var d := if want < x.amount then want else x.amount;
      if x.amount - d == 0 {
        TakeFacts(front, want - d, last, t);
      } else {
        var rest := buckets[n - 1 := Bucket(x.time, x.amount - d)];
        SplitLast(rest, t);
        assert rest[..n - 1] == front;
        if x.time <= t {
          AllDue(rest, t);
        }
      }
    }
  }

  // ---------- the composite operations ----------

  lemma ProcessKeepsBalance(b: RexBalance, now: nat, t: int)
    requires BalanceOk(b, Maturity(now)) && now < CLOCK_LIMIT
    ensures var p := ProcessMaturities(b, Seconds(now));
            && BalanceOk(p, Maturity(now)) && p.rex == b.rex && p.matured >= b.matured
            && p.matured == SellableBy(b, Seconds(now)) && SavingsOf(p) == SavingsOf(b)
            && (Seconds(now) <= t < END_OF_DAYS ==> SellableBy(p, t) == SellableBy(b, t))
  {
    MaturityFacts(now);
    ProcessWholeFacts(b, Seconds(now), Maturity(now), t);
    ProcessWholeFacts(b, Seconds(now), Maturity(now), Seconds(now));
  }

  /** Processing with the savings bucket still in place leaves that bucket alone. */
  lemma {:induction false} ProcessWholeFacts(b: RexBalance, sec: nat, last: nat, t: int)
    requires BalanceOk(b, last) && sec < END_OF_DAYS
    ensures var p := ProcessMaturities(b, sec);
            && BalanceOk(p, last) && p.rex == b.rex && p.matured >= b.matured && SavingsOf(p) == SavingsOf(b)
            && (t >= sec ==> SellableBy(p, t) == SellableBy(b, t))
            && (t <= sec ==> SellableBy(p, t) == p.matured)
    decreases |b.maturities|
  {
    if |b.maturities| > 0 && b.maturities[0].time <= sec {
      ProcessWholeFacts(b.(matured := b.matured + b.maturities[0].amount, maturities := b.maturities[1..]), sec, last, t);
    } else {
      NoneDue(b.maturities, sec);
      if t <= sec {
        NoneDue(b.maturities, t);
      }
    }
  }

  /** Before the first bucket is due, none is. */
  lemma NoneDue(buckets: seq<Bucket>, t: int)
    requires BucketsOk(buckets) && (|buckets| > 0 ==> buckets[0].time > t)
    ensures DueBy(buckets, t) == 0
  {
    if |buckets| > 1 {
      assert buckets[1] in buckets[1..];
      NoneDue(buckets[1..], t);
    }
  }

  /** REX bought now goes to the bucket four days from the end of today and nowhere else. */
  lemma AcquireKeepsBalance(b: RexBalance, now: nat, amount: int, t: int)
    requires BalanceOk(b, Maturity(now)) && now < CLOCK_LIMIT && amount >= 0
    ensures var r := AcquireRex(b.(rex := b.rex + amount), now, amount);
            && BalanceOk(r, Maturity(now)) && r.rex == b.rex + amount && r.matured >= b.matured
            && SavingsOf(r) == SavingsOf(b)
            && (Seconds(now) <= t < Maturity(now) ==> SellableBy(r, t) == SellableBy(b, t))
            && (Maturity(now) <= t < END_OF_DAYS ==> SellableBy(r, t) == SellableBy(b, t) + amount)
  {
    var m := Maturity(now);
    var sec := Seconds(now);
    var b0 := b.(rex := b.rex + amount);
    MaturityFacts(now);
    DropSavingsFacts(b, m, t);
    assert DropSavings(b0) == DropSavings(b).(rex := b0.rex) && SavingsOf(b0) == SavingsOf(b);
    ProcessFacts(DropSavings(b0), sec, m, t);
    var p := ProcessMaturities(DropSavings(b0), sec);
    PendingInWindow(p.maturities, now);
    AddBucketFacts(p, m, amount, t);
    PutSavingsFacts(AddBucket(p, m, amount), SavingsOf(b), m, t);
  }

  lemma OneBucket(time: nat, total: int, t: int)
    requires total >= 0 && time < END_OF_DAYS && IsDay(time)
    ensures var buckets := if total > 0 then [Bucket(time, total)] else [];
            && BucketsOk(buckets) && DayBuckets(buckets, time) && BucketTotal(buckets) == total
            && DueBy(buckets, t) == if time <= t then total else 0
  {
  }

  /**
   * Consolidation leaves exactly the REX of the open order matured and the
   * savings as they were; everything else becomes sellable at one date.
   */
  lemma ConsolidateKeepsBalance(b: RexBalance, now: nat, inOrder: int, t: int)
    requires BalanceOk(b, Maturity(now)) && now < CLOCK_LIMIT && 0 <= inOrder <= b.matured
    ensures var r := ConsolidateBuckets(b, now, inOrder);
            && BalanceOk(r, Maturity(now)) && r.rex == b.rex && r.matured == inOrder
            && SavingsOf(r) == SavingsOf(b)
            && (t < Maturity(now) ==> SellableBy(r, t) == inOrder <= SellableBy(b, t))
            && (Maturity(now) <= t < END_OF_DAYS ==> SellableBy(r, t) == b.rex - SavingsOf(b))
  {
    hide BucketsOk, DueBy, BucketTotal, DropSavings, PutSavings, SavingsOf, Maturity;
    var m := Maturity(now);
    MaturityFacts(now);
    DropSavingsFacts(b, m, t);
    var d := DropSavings(b);
    TotalsNonNegative(d.maturities, t);
    var total := d.matured - inOrder + BucketTotal(d.maturities);
    var buckets := if total > 0 then [Bucket(m, total)] else [];
    OneBucket(m, total, t);
    PutSavingsFacts(RexBalance(d.rex, inOrder, buckets), SavingsOf(b), m, t);
  }

  /** REX in savings does not mature before the end of days. */
  lemma SavingsAreLocked(b: RexBalance, last: nat, t: int)
    requires BalanceOk(b, last) && t < END_OF_DAYS
    ensures SavingsOf(b) <= b.rex - SellableBy(b, t)
  {
    hide BucketsOk, DueBy, BucketTotal, DropSavings;
    DropSavingsFacts(b, last, t);
    TotalsNonNegative(DropSavings(b).maturities, t);
  }

  /** REX moved out of savings goes to the bucket four days from the end of today. */
  lemma MoveOutKeepsBalance(b: RexBalance, now: nat, rex: int, t: int)
    requires BalanceOk(b, Maturity(now)) && now < CLOCK_LIMIT && rex > 0
    ensures MoveOutOfSavings(b, now, rex).Ok? <==> rex <= SavingsOf(b)
    ensures MoveOutOfSavings(b, now, rex).Ok? ==>
              var r := MoveOutOfSavings(b, now, rex).value;
              && BalanceOk(r, Maturity(now)) && r.rex == b.rex && r.matured >= b.matured
              && SavingsOf(r) == SavingsOf(b) - rex
              && (Seconds(now) <= t < Maturity(now) ==> SellableBy(r, t) == SellableBy(b, t))
              && (Maturity(now) <= t < END_OF_DAYS ==> SellableBy(r, t) == SellableBy(b, t) + rex)
  {
    if rex <= SavingsOf(b) {
      var m := Maturity(now);
      var sec := Seconds(now);
      MaturityFacts(now);
      DropSavingsFacts(b, m, t);
      ProcessFacts(DropSavings(b), sec, m, t);
      var p := ProcessMaturities(DropSavings(b), sec);
      PendingInWindow(p.maturities, now);
      AddBucketFacts(p, m, rex, t);
      PutSavingsFacts(AddBucket(p, m, rex), SavingsOf(b) - rex, m, t);
    }
  }

  /**
   * Moving REX into savings, with the sum of the check wrapped to 64 bits. The
   * "programmer error" check never fails. The "logic error" check fails exactly
   * when that sum wraps although the exact sum exceeds the balance, so the move
   * succeeds exactly when the exact sum is within the balance.
   */
  lemma MoveInExact(b: RexBalance, now: nat, inOrder: int, rex: Int64)
    requires BalanceOk(b, Maturity(now)) && now < CLOCK_LIMIT
    requires rex > 0 && 0 <= inOrder <= b.matured
    ensures var r := MoveIntoSavings(b, now, inOrder, rex);
            var exact := rex + inOrder + SavingsOf(b);
            && (r.Ok? <==> exact <= b.rex && Wrap64(exact) <= b.rex)
            && (r == Abort(LogicErrorMoveToSavings) <==> Wrap64(exact) <= b.rex < exact)
            && r != Abort(ProgrammerErrorMoveToSavings)
  {
    hide BucketsOk, DueBy, DayBuckets, ProcessMaturities, TakeFromBack, Maturity, DropSavings;
    var m := Maturity(now);
    var sec := Seconds(now);
    MaturityFacts(now);
    DropSavingsFacts(b, m, 0);
    ProcessFacts(DropSavings(b), sec, m, 0);
    var p := ProcessMaturities(DropSavings(b), sec);
    TakeFacts(p.maturities, rex, m, 0);
    TotalsNonNegative(p.maturities, 0);
    var rest := TakeFromBack(p.maturities, rex).0;
    TotalsNonNegative(rest, 0);
  }

  lemma SellableParts(b: RexBalance, t: int)
    ensures SellableBy(b, t) == b.matured + DueBy(b.maturities, t)
  {
  }

  lemma MoveInKeepsBalance(b: RexBalance, now: nat, inOrder: int, rex: Int64, t: int)
    requires BalanceOk(b, Maturity(now)) && now < CLOCK_LIMIT
    requires rex > 0 && 0 <= inOrder <= b.matured
    requires MoveIntoSavings(b, now, inOrder, rex).Ok?
    ensures var r := MoveIntoSavings(b, now, inOrder, rex).value;
            && BalanceOk(r, Maturity(now)) && r.rex == b.rex && inOrder <= r.matured
            && SavingsOf(r) == SavingsOf(b) + rex
            && (Seconds(now) <= t < END_OF_DAYS ==> SellableBy(r, t) == Min(SellableBy(b, t), b.rex - SavingsOf(r)))
  {
    hide BucketsOk, DueBy, BucketTotal, DayBuckets, ProcessMaturities, TakeFromBack, Maturity, DropSavings, PutSavings, SavingsOf,
      SellableBy;
    var m := Maturity(now);
    var sec := Seconds(now);
    MaturityFacts(now);
    DropSavingsFacts(b, m, t);
    ProcessFacts(DropSavings(b), sec, m, t);
    var p := ProcessMaturities(DropSavings(b), sec);
    TakeFacts(p.maturities, rex, m, t);
    var rest := TakeFromBack(p.maturities, rex).0;
    var moved := TakeFromBack(p.maturities, rex).1;
    var c := RexBalance(p.rex, p.matured - (rex - moved), rest);
    PutSavingsFacts(c, SavingsOf(b) + rex, m, t);
    SellableParts(c, t);
    SellableParts(p, t);
    TotalsNonNegative(p.maturities, t);
    assert MoveIntoSavings(b, now, inOrder, rex).value == PutSavings(c, SavingsOf(b) + rex);
  }

  /** There are never more than five day buckets, with one savings bucket behind them. */
  lemma AtMostFiveDayBuckets(b: RexBalance, last: nat)
    requires BalanceOk(b, last)
    ensures |DropSavings(b).maturities| <= 5 && |b.maturities| <= 6
  {
    DropSavingsFacts(b, last, 0);
    var days := DropSavings(b).maturities;
    DaysSpread(days);
    if |days| > 1 {
      assert days[|days| - 1] in days[1..];
    }
  }

  lemma {:induction false} DaysSpread(days: seq<Bucket>)
    requires BucketsOk(days) && (forall x :: x in days ==> x.time < END_OF_DAYS)
    ensures |days| > 0 ==> days[|days| - 1].time >= days[0].time + 86_400 * (|days| - 1)
  {
    if |days| > 1 {
      DaysSpread(days[1..]);
      assert days[1] in days[1..];
      DaysApart(days[0].time, days[1].time);
    }
  }
}
