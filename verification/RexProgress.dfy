/** Maintenance in small portions: how many calls it takes at most until an overdue order is filled. */
module RexProgress {
  import opened Outcomes
  import opened RexState
  import opened RexActions
  import opened RexPool
  import opened RexTables
  import opened RexBooks
  import opened RexSteps
  import opened Bandwidth
  import opened Staking
  import opened RamMarket
  import opened RexRuns
  import opened RexTheorems
  import opened RexLiveness
  import opened RexNamebids

  /** Everything that maintenance may have to deal with before an order. */
  ghost function Waiting(s: State): nat {
    |s.cpuLoans| + |s.netLoans| + OpenCount(s.orders)
  }

  // ---------- loans ----------

  /** While an order is open, each call closes at least one of the expired loans. */
  lemma {:induction false} LoansShrink(s: State, kind: Kind, max: nat)
    requires Books(s) && LimitsOk(s) && s.pool.Some? && ProcessLoans(s, kind, max).Ok?
    requires |s.orders| > 0 && s.orders[0].open && AllExpired(s.Loans(kind), s.now)
    ensures var loans := ProcessLoans(s, kind, max).value.Loans(kind);
            |loans| <= |s.Loans(kind)| && (max > 0 && |s.Loans(kind)| > 0 ==> |loans| < |s.Loans(kind)|)
    decreases max
  {
    hide Books, LimitsOk, PriceRose, PoolAfterRelease, ChangeLimit;
    if max > 0 && |s.Loans(kind)| > 0 {
      assert s.Loans(kind)[0] in s.Loans(kind);
      BlockedMeansNoRenewal(s, kind);
      CloseKeepsLimits(s, kind);
      CloseLoanKeepsBooks(s, kind);
      CloseLoanFrame(s, kind);
      hide CloseLoan, Renews;
      LoansShrink(CloseLoan(s, kind).value, kind, max - 1);
    }
  }

  // ---------- orders ----------

  lemma {:induction false} RemoveOpenCount(orders: seq<Order>, i: nat)
    requires i < |orders|
    ensures OpenCount(RemoveAt(orders, i)) == OpenCount(orders) - (if orders[i].open then 1 else 0)
  {
    if i == 0 {
      assert RemoveAt(orders, 0) == orders[1..];
    } else {
      assert RemoveAt(orders, i)[1..] == RemoveAt(orders[1..], i - 1);
      RemoveOpenCount(orders[1..], i - 1);
    }
  }

  /** A filled order is one open order less. */
  lemma FillOpenCount(s: State, i: nat, p: Pool, proceeds: int)
    requires i < |s.orders| && s.orders[i].open && s.orders[i].owner in s.balances
    ensures OpenCount(AfterFill(s, i, p, proceeds).orders) == OpenCount(s.orders) - 1
  {
    hide OpenCount, RemoveAt, InsertOrder;
    RemoveOpenCount(s.orders, i);
    InsertOpenCount(RemoveAt(s.orders, i), s.orders[i].(proceeds := proceeds, open := false));
  }

  /** The order waits, worth at least `least` at today's price, or has been filled for that much. */
  ghost predicate Served(o: Order, s: State, least: int) {
    (o in s.orders && ProceedsAt(s.pool, o.requested) >= least) || FilledFor(o, s.orders, least)
  }

  lemma FillServes(s: State, i: nat, o: Order, least: int)
    requires Books(s) && s.pool.Some? && i < |s.orders| && s.orders[i].open && o.open && Served(o, s, least)
    requires s.orders[i].owner in s.balances && FillFromPool(s.pool.value, s.orders[i].requested).Ok?
    requires FillFromPool(s.pool.value, s.orders[i].requested).value.Filled?
    ensures var fill := FillFromPool(s.pool.value, s.orders[i].requested).value;
            Served(o, AfterFill(s, i, fill.pool, fill.proceeds), least)
  {
    var x := s.orders[i];
    var fill := FillFromPool(s.pool.value, x.requested).value;
    var s1 := AfterFill(s, i, fill.pool, fill.proceeds);
    FillKeepsBooks(s, i);
    FillPays(s, x.requested);
    OrdersAfterFill(s, i, fill.pool, fill.proceeds);
    hide Books, FillFromPool, AfterFill, PriceRose, ProceedsAt;
    if o in s.orders && ProceedsAt(s.pool, o.requested) >= least {
      if o != x {
        StillWorth(s, s1, o);
      }
    } else {
      var y :| y in s.orders && y == o.(proceeds := y.proceeds, open := false) && y.proceeds >= least;
      assert y in s1.orders;
    }
  }

  /** Filling pays the price of the moment. */
  lemma FillPays(s: State, rex: int)
    requires s.pool.Some? && FillFromPool(s.pool.value, rex).Ok? && FillFromPool(s.pool.value, rex).value.Filled?
    requires Books(s)
    ensures FillFromPool(s.pool.value, rex).value.proceeds == ProceedsAt(s.pool, rex)
  {
    assert PoolSound(s.pool.value);
  }

  lemma OrdersAfterFill(s: State, i: nat, p: Pool, proceeds: int)
    requires i < |s.orders| && s.orders[i].owner in s.balances
    ensures var s1 := AfterFill(s, i, p, proceeds);
            && s1.pool == Some(p) && s1.now == s.now
            && s.orders[i].(proceeds := proceeds, open := false) in s1.orders
            && forall o :: o in s.orders && o != s.orders[i] ==> o in s1.orders
  {
    InsertOrderFacts(RemoveAt(s.orders, i), s.orders[i].(proceeds := proceeds, open := false));
    hide InsertOrder;
    forall o | o in s.orders && o != s.orders[i] ensures o in RemoveAt(s.orders, i) {
      var k :| 0 <= k < |s.orders| && s.orders[k] == o;
      assert k < i ==> RemoveAt(s.orders, i)[k] == o;
      assert k > i ==> RemoveAt(s.orders, i)[k - 1] == o;
    }
  }

  /** An open order is worth no less at a later price. */
  lemma StillWorth(s: State, s1: State, o: Order)
    requires Books(s) && Books(s1) && s.pool.Some? && s1.pool.Some? && PriceRose(s.pool.value, s1.pool.value)
    requires o.open && o in s.orders && o in s1.orders
    ensures ProceedsAt(s1.pool, o.requested) >= ProceedsAt(s.pool, o.requested)
  {
    OpenOrderHasBalance(s, o);
    OpenOrderHasBalance(s1, o);
    hide Books, ProceedsAt, PriceRose;
    HigherPricePaysMore(s.pool.value, s1.pool.value, o.requested);
  }

  /** The loop over the queue loses no order, and opens none. */
  lemma {:induction false} QueueServes(s: State, i: nat, max: nat, o: Order, least: int)
    requires Books(s) && s.pool.Some? && o.open && Served(o, s, least)
    ensures ProcessOrders(s, i, max).Ok?
    ensures var s' := ProcessOrders(s, i, max).value;
            Served(o, s', least) && OpenCount(s'.orders) <= OpenCount(s.orders)
    decreases max
  {
    hide Books, PriceRose, FillFromPool, Served, OpenCount;
    if max > 0 && i < |s.orders| && s.orders[i].open {
      FillKeepsBooks(s, i);
      var fill := FillFromPool(s.pool.value, s.orders[i].requested).value;
      if fill.Filled? {
        FillServes(s, i, o, least);
        FillOpenCount(s, i, fill.pool, fill.proceeds);
        QueueServes(AfterFill(s, i, fill.pool, fill.proceeds), i, max - 1, o, least);
      } else {
        QueueServes(s, i + 1, max - 1, o, least);
      }
    }
  }

  /** With nothing lent out, the loop fills at least one order. */
  lemma QueueShrinks(s: State, max: nat, o: Order, least: int)
    requires Books(s) && s.pool.Some? && o.open && Served(o, s, least)
    requires s.cpuLoans == [] && s.netLoans == [] && |s.orders| > 0 && s.orders[0].open && max > 0
    ensures ProcessOrders(s, 0, max).Ok?
    ensures OpenCount(ProcessOrders(s, 0, max).value.orders) < OpenCount(s.orders)
  {
    hide Books, PriceRose, FillFromPool, Served, OpenCount, ProcessOrders, AfterFill;
    FirstFillShape(s);
    FillKeepsBooks(s, 0);
    var fill := FillFromPool(s.pool.value, s.orders[0].requested).value;
    var s1 := AfterFill(s, 0, fill.pool, fill.proceeds);
    FillServes(s, 0, o, least);
    FillOpenCount(s, 0, fill.pool, fill.proceeds);
    AfterFillFrame(s, fill.pool, fill.proceeds);
    ProcessFirst(s, max);
    QueueServes(s1, 0, max - 1, o, least);
  }

  // ---------- one call ----------

  /** The state after the loans, before the queue. */
  ghost function AfterLoans(s: State, max: nat): Result<State>
    requires s.pool.Some?
  {
    var s1 :- ChannelNamebids(s);
    var s2 :- ProcessLoans(s1, Cpu, max);
    ProcessLoans(s2, Net, max)
  }

  lemma LoansPart(s: State, max: nat)
    requires Books(s) && LimitsOk(s) && NamebidsFunded(s) && s.pool.Some? && max > 0
    requires |s.orders| > 0 && s.orders[0].open && AllExpired(s.cpuLoans, s.now) && AllExpired(s.netLoans, s.now)
    ensures AfterLoans(s, max).Ok?
    ensures var s' := AfterLoans(s, max).value;
            && Books(s') && s'.pool.Some? && PriceRose(s.pool.value, s'.pool.value) && s'.orders == s.orders
            && |s'.cpuLoans| + |s'.netLoans| <= |s.cpuLoans| + |s.netLoans|
            && ((s'.cpuLoans == [] && s'.netLoans == []) || |s'.cpuLoans| + |s'.netLoans| < |s.cpuLoans| + |s.netLoans|)
            && RunRex(s, max) == ProcessOrders(s', 0, max)
  {
    NamebidsPaid(s);
    hide Books, LimitsAgree, PriceRose, AllExpired, ProcessLoans, ProcessOrders, NamebidsFunded;
    ChannelNamebidsFrame(s);
    ChannelNamebidsKeepsBooks(s);
    var s1 := ChannelNamebids(s).value;
    LimitsFrame(s, s1);
    hide ChannelNamebids, LimitsOk;
    ProcessLoansSucceeds(s1, Cpu, max);
    ProcessLoansKeepsBooks(s1, Cpu, max);
    ProcessLoansFrame(s1, Cpu, max);
    LoansShrink(s1, Cpu, max);
    var s2 := ProcessLoans(s1, Cpu, max).value;
    ProcessLoansSucceeds(s2, Net, max);
    ProcessLoansKeepsBooks(s2, Net, max);
    ProcessLoansFrame(s2, Net, max);
    LoansShrink(s2, Net, max);
    var s3 := ProcessLoans(s2, Net, max).value;
    PriceRoseTransitive(s.pool.value, s1.pool.value, s2.pool.value);
    PriceRoseTransitive(s.pool.value, s2.pool.value, s3.pool.value);
  }

  /** One call with any `max` above 0: the order is filled, or less is waiting than before. */
  lemma OneCall(s: State, max: nat, o: Order, least: int)
    requires Books(s) && LimitsOk(s) && NamebidsFunded(s) && max > 0
    requires o in s.orders && Overdue(o, s.now) && ProceedsAt(s.pool, o.requested) >= least
    ensures RunRex(s, max).Ok?
    ensures var s' := RunRex(s, max).value;
            Served(o, s', least) && Waiting(s') < Waiting(s)
  {
    OpenOrderHasBalance(s, o);
    OverdueExpiresLoans(s, o);
    hide Books, LimitsOk, NamebidsFunded, AllExpired, PriceRose, ProceedsAt, OpenCount, RunRex, ProcessOrders, AfterLoans;
    LoansPart(s, max);
    var s3 := AfterLoans(s, max).value;
    StillWorth(s, s3, o);
    QueueServes(s3, 0, max, o, least);
    ProcessOrdersFrame(s3, 0, max);
    if s3.cpuLoans == [] && s3.netLoans == [] {
      QueueShrinks(s3, max, o, least);
    }
  }

  // ---------- calls one after the other ----------

  /** The clock advances, and maintenance is called with some `max` above 0. */
  ghost predicate Upkeep(actions: seq<Action>) {
    forall a :: a in actions ==> a.ActAdvance? || (a.ActRexExec? && a.max > 0)
  }

  ghost function Calls(actions: seq<Action>): nat {
    if |actions| == 0 then 0 else (if actions[0].ActRexExec? then 1 else 0) + Calls(actions[1..])
  }

  lemma {:induction false} ClosedStay(s: State, i: nat, max: nat, y: Order)
    requires ProcessOrders(s, i, max).Ok? && y in s.orders && !y.open
    ensures y in ProcessOrders(s, i, max).value.orders
    decreases max
  {
    hide FillFromPool;
    if max > 0 && s.pool.Some? && i < |s.orders| && s.orders[i].open {
      if s.orders[i].owner !in s.balances || FillFromPool(s.pool.value, s.orders[i].requested).value.NotFilled? {
        ClosedStay(s, i + 1, max - 1, y);
      } else {
        var fill := FillFromPool(s.pool.value, s.orders[i].requested).value;
        OrdersAfterFill(s, i, fill.pool, fill.proceeds);
        hide CloseOrder;
        ClosedStay(AfterFill(s, i, fill.pool, fill.proceeds), i, max - 1, y);
      }
    }
  }

  lemma LoansLeaveOrders(s: State, max: nat)
    requires RunRex(s, max).Ok?
    ensures s.pool.Some? && AfterLoans(s, max).Ok? && AfterLoans(s, max).value.orders == s.orders
    ensures RunRex(s, max) == ProcessOrders(AfterLoans(s, max).value, 0, max)
  {
    hide ProcessLoans, ProcessOrders;
    ChannelNamebidsFrame(s);
    hide ChannelNamebids;
    var s1 := ChannelNamebids(s).value;
    ProcessLoansFrame(s1, Cpu, max);
    ProcessLoansKeepsPool(s1, Cpu, max);
    ProcessLoansFrame(ProcessLoans(s1, Cpu, max).value, Net, max);
  }

  lemma FilledSurvives(s: State, max: nat, o: Order, least: int)
    requires FilledFor(o, s.orders, least) && RunRex(s, max).Ok?
    ensures FilledFor(o, RunRex(s, max).value.orders, least)
  {
    hide RunRex, AfterLoans, ProcessOrders;
    var y :| y in s.orders && y == o.(proceeds := y.proceeds, open := false) && y.proceeds >= least;
    LoansLeaveOrders(s, max);
    ClosedStay(AfterLoans(s, max).value, 0, max, y);
  }

  /** A filled order stays in the queue until its owner collects. */
  lemma FilledStays(s: State, a: Action, o: Order, least: int)
    requires FilledFor(o, s.orders, least) && (a.ActAdvance? || a.ActRexExec?)
    ensures FilledFor(o, Step(s, a).orders, least)
  {
    hide RunRex, FilledFor;
    if a.ActRexExec? && RunRex(s, a.max).Ok? {
      FilledSurvives(s, a.max, o, least);
    }
  }

  lemma {:induction false} FilledStaysInRuns(s: State, actions: seq<Action>, o: Order, least: int)
    requires FilledFor(o, s.orders, least) && Upkeep(actions)
    ensures FilledFor(o, Run(s, actions).orders, least)
    decreases |actions|
  {
    hide FilledFor, Step;
    if |actions| > 0 {
      assert actions[0] in actions;
      FilledStays(s, actions[0], o, least);
      FilledStaysInRuns(Step(s, actions[0]), actions[1..], o, least);
    }
  }

  lemma SpareFunds(s: State)
    requires Spare(s) >= 0
    ensures NamebidsFunded(s)
  {
  }

  lemma {:induction false} OpenCounted(orders: seq<Order>, o: Order)
    requires o in orders && o.open
    ensures OpenCount(orders) > 0
  {
    if orders[0] != o {
      OpenCounted(orders[1..], o);
    }
  }

  /** The order is overdue, and worth at least `least`, in a sound state. */
  ghost predicate Waits(s: State, o: Order, least: int) {
    && Books(s) && LimitsOk(s) && Spare(s) >= 0
    && o in s.orders && Overdue(o, s.now) && ProceedsAt(s.pool, o.requested) >= least
  }

  lemma AdvanceKeepsWaiting(s: State, a: Action, o: Order, least: int)
    requires Waits(s, o, least) && a.ActAdvance?
    ensures Waits(Step(s, a), o, least) && Waiting(Step(s, a)) == Waiting(s)
  {
    hide Books, LimitsOk, ProceedsAt, PriceKept;
    AdvanceKeepsBooks(s, a.to);
    ClockKeepsLimits(s, a.to, 0);
  }

  lemma CallStep(s: State, a: Action, o: Order, least: int)
    requires Waits(s, o, least) && a.ActRexExec? && a.max > 0
    ensures Waiting(Step(s, a)) < Waiting(s)
    ensures FilledFor(o, Step(s, a).orders, least) || Waits(Step(s, a), o, least)
  {
    hide Books, LimitsOk, Spare, ProceedsAt, FilledFor, Waiting, PriceRose, RunRex;
    SpareFunds(s);
    OneCall(s, a.max, o, least);
    RunRexKeepsBooks(s, a.max);
    RunRexSucceeds(s, a.max);
    RunRexSpare(s, a.max);
  }

  /**
   * An overdue order is filled, for what it is worth now or more, by as many
   * calls of maintenance as there are loans and open orders, each with any `max`
   * above 0, whenever they come.
   */
  lemma {:induction false} OverdueOrderFills(s: State, o: Order, least: int, actions: seq<Action>)
    requires Waits(s, o, least) && Upkeep(actions) && Calls(actions) >= Waiting(s)
    ensures FilledFor(o, Run(s, actions).orders, least)
    decreases |actions|
  {
    OpenCounted(s.orders, o);
    hide Waits, FilledFor, Waiting, Step;
    assert actions[0] in actions;
    var s1 := Step(s, actions[0]);
    if actions[0].ActAdvance? {
      AdvanceKeepsWaiting(s, actions[0], o, least);
      OverdueOrderFills(s1, o, least, actions[1..]);
    } else {
      CallStep(s, actions[0], o, least);
      if FilledFor(o, s1.orders, least) {
        FilledStaysInRuns(s1, actions[1..], o, least);
      } else {
        OverdueOrderFills(s1, o, least, actions[1..]);
      }
    }
  }

  /** The same from any state that a run reaches whose auctions collect their prices. */
  lemma SmallCallsClearTheQueue(s0: State, q0: int, before: seq<Action>, o: Order, actions: seq<Action>)
    requires Genesis(s0, q0) && Held(s0.tokens, NAMES_ACCOUNT) >= 0 && AuctionsCollect(s0, before)
    requires var s := Run(s0, before);
             o in s.orders && Overdue(o, s.now) && Upkeep(actions) && Calls(actions) >= Waiting(s)
    ensures var s := Run(s0, before);
            FilledFor(o, Run(s, actions).orders, ProceedsAt(s.pool, o.requested))
  {
    GenesisInvariant(s0, q0);
    hide Books, LimitsOk, RamOk, RefundsOk, Run, FilledFor, ProceedsAt, Overdue, AuctionsCollect, Upkeep, Waiting;
    RunKeepsInvariant(s0, before, q0);
    RunKeepsNamebids(s0, before);
    var s := Run(s0, before);
    OverdueOrderFills(s, o, ProceedsAt(s.pool, o.requested), actions);
  }
}
