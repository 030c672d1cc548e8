/** Totals over the loan tables and the order queue, and what inserting and erasing rows does to them. */
module RexTables {
  import opened RexState
  import opened RexActions

  // ---------- loans ----------

  /** Tokens lent out through a table. */
  ghost function Staked(loans: seq<Loan>): int {
    if |loans| == 0 then 0 else loans[0].staked + Staked(loans[1..])
  }

  /** Renewal funds held by the loans of a table. */
  ghost function LoanFunds(loans: seq<Loan>): int {
    if |loans| == 0 then 0 else loans[0].balance + LoanFunds(loans[1..])
  }

  /** Tokens lent through a table for one receiver. */
  ghost function StakedTo(loans: seq<Loan>, receiver: Name): int {
    if |loans| == 0 then 0
    else (if loans[0].receiver == receiver then loans[0].staked else 0) + StakedTo(loans[1..], receiver)
  }

  lemma {:induction false} InsertLoanTotals(loans: seq<Loan>, l: Loan)
    ensures Staked(InsertLoan(loans, l)) == Staked(loans) + l.staked
    ensures LoanFunds(InsertLoan(loans, l)) == LoanFunds(loans) + l.balance
    ensures forall r :: StakedTo(InsertLoan(loans, l), r) == StakedTo(loans, r) + (if l.receiver == r then l.staked else 0)
  {
    var inserted := InsertLoan(loans, l);
    if |loans| == 0 || LoanBefore(l, loans[0]) {
      assert inserted[1..] == loans;
    } else {
      assert inserted[1..] == InsertLoan(loans[1..], l);
      InsertLoanTotals(loans[1..], l);
    }
  }

  lemma {:induction false} InsertLoanMembers(loans: seq<Loan>, l: Loan)
    ensures forall x :: x in InsertLoan(loans, l) <==> x == l || x in loans
  {
    if |loans| > 0 && !LoanBefore(l, loans[0]) {
      InsertLoanMembers(loans[1..], l);
      assert loans == [loans[0]] + loans[1..];
    }
  }

  /** Changing a loan's renewal fund changes no other total. */
  lemma {:induction false} RefundLoanTotals(loans: seq<Loan>, i: nat, balance: int)
    requires i < |loans|
    ensures var changed := loans[i := loans[i].(balance := balance)];
            && Staked(changed) == Staked(loans)
            && LoanFunds(changed) == LoanFunds(loans) - loans[i].balance + balance
            && forall r :: StakedTo(changed, r) == StakedTo(loans, r)
  {
    var changed := loans[i := loans[i].(balance := balance)];
    if i == 0 {
      assert changed[1..] == loans[1..];
    } else {
      assert changed[1..] == loans[1..][i - 1 := loans[i].(balance := balance)];
      RefundLoanTotals(loans[1..], i - 1, balance);
    }
  }

  /** Rows in index order, with distinct loan numbers. */
  ghost predicate LoanTable(loans: seq<Loan>) {
    |loans| > 0 ==>
      && (forall x :: x in loans[1..] ==> LoanBefore(loans[0], x) && x.num != loans[0].num)
      && LoanTable(loans[1..])
  }

  lemma {:induction false} InsertKeepsLoanTable(loans: seq<Loan>, l: Loan)
    requires LoanTable(loans) && forall x :: x in loans ==> x.num != l.num
    ensures LoanTable(InsertLoan(loans, l))
  {
    var inserted := InsertLoan(loans, l);
    if |loans| == 0 || LoanBefore(l, loans[0]) {
      assert inserted[1..] == loans;
      forall x | x in loans ensures LoanBefore(l, x) {
        assert x == loans[0] || x in loans[1..];
      }
    } else {
      assert inserted[1..] == InsertLoan(loans[1..], l);
      InsertKeepsLoanTable(loans[1..], l);
      InsertLoanMembers(loans[1..], l);
      assert loans[0] in loans;
    }
  }

  lemma {:induction false} RefundKeepsLoanTable(loans: seq<Loan>, i: nat, balance: int)
    requires i < |loans| && LoanTable(loans)
    ensures LoanTable(loans[i := loans[i].(balance := balance)])
  {
    var changed := loans[i := loans[i].(balance := balance)];
    if i == 0 {
      assert changed[1..] == loans[1..];
    } else {
      assert changed[1..] == loans[1..][i - 1 := loans[i].(balance := balance)];
      RefundKeepsLoanTable(loans[1..], i - 1, balance);
      forall x | x in changed[1..] ensures LoanBefore(loans[0], x) && x.num != loans[0].num {
        if x !in loans[1..] {
          assert x == loans[i].(balance := balance);
          assert loans[i] == loans[1..][i - 1];
        }
      }
    }
  }

  lemma {:induction false} StakedBounds(loans: seq<Loan>)
    requires forall l :: l in loans ==> l.staked > 0
    ensures Staked(loans) >= 0
    ensures Staked(loans) == 0 ==> loans == []
    ensures |loans| > 0 ==> 0 < loans[0].staked <= Staked(loans)
  {
    if |loans| > 0 {
      assert loans[0] in loans;
      StakedBounds(loans[1..]);
    }
  }

  // ---------- sell orders ----------

  /** Proceeds of filled orders that their owners have not collected. */
  ghost function Proceeds(orders: seq<Order>): int {
    if |orders| == 0 then 0 else orders[0].proceeds + Proceeds(orders[1..])
  }

  ghost predicate OrderTable(orders: seq<Order>) {
    |orders| > 0 ==>
      && (forall x :: x in orders[1..] ==> OrderBefore(orders[0], x) && x.owner != orders[0].owner)
      && OrderTable(orders[1..])
  }

  lemma {:induction false} InsertOrderFacts(orders: seq<Order>, o: Order)
    ensures Proceeds(InsertOrder(orders, o)) == Proceeds(orders) + o.proceeds
    ensures |InsertOrder(orders, o)| == |orders| + 1
    ensures forall x :: x in InsertOrder(orders, o) <==> x == o || x in orders
    ensures OrderTable(orders) && (forall x :: x in orders ==> x.owner != o.owner) ==> OrderTable(InsertOrder(orders, o))
  {
    var inserted := InsertOrder(orders, o);
    if |orders| == 0 || OrderBefore(o, orders[0]) {
      assert inserted[1..] == orders;
      if OrderTable(orders) {
        forall x | x in orders ensures OrderBefore(o, x) {
          assert x == orders[0] || x in orders[1..];
        }
      }
    } else {
      assert inserted[1..] == InsertOrder(orders[1..], o);
      InsertOrderFacts(orders[1..], o);
      assert orders == [orders[0]] + orders[1..];
    }
  }

  lemma {:induction false} RemoveOrderFacts(orders: seq<Order>, i: nat)
    requires i < |orders|
    ensures Proceeds(RemoveAt(orders, i)) == Proceeds(orders) - orders[i].proceeds
    ensures |RemoveAt(orders, i)| == |orders| - 1
    ensures forall x :: x in RemoveAt(orders, i) ==> x in orders
    ensures forall x :: x in orders ==> x == orders[i] || x in RemoveAt(orders, i)
    ensures OrderTable(orders) ==>
              OrderTable(RemoveAt(orders, i)) && forall x :: x in RemoveAt(orders, i) ==> x.owner != orders[i].owner
  {
    var removed := RemoveAt(orders, i);
    if i == 0 {
      assert removed == orders[1..];
    } else {
      assert removed[0] == orders[0];
      assert removed[1..] == RemoveAt(orders[1..], i - 1);
      RemoveOrderFacts(orders[1..], i - 1);
      assert orders[i] == orders[1..][i - 1];
    }
  }

  /** Adding to a queued request leaves the queue order and the proceeds alone. */
  lemma {:induction false} RaiseOrderFacts(orders: seq<Order>, i: nat, requested: int)
    requires i < |orders|
    ensures var raised := orders[i := orders[i].(requested := requested)];
            && Proceeds(raised) == Proceeds(orders)
            && (OrderTable(orders) ==> OrderTable(raised))
  {
    var o := orders[i].(requested := requested);
    var raised := orders[i := o];
    if i == 0 {
      assert raised[1..] == orders[1..];
    } else {
      assert raised[1..] == orders[1..][i - 1 := o];
      RaiseOrderFacts(orders[1..], i - 1, requested);
      if OrderTable(orders) {
        assert orders[i] == orders[1..][i - 1];
        forall x | x in raised[1..] ensures OrderBefore(orders[0], x) && x.owner != orders[0].owner {
          if x !in orders[1..] { assert x == o; }
        }
      }
    }
  }

  /** In a well-formed queue an owner has one order, the one the lookup finds. */
  lemma {:induction false} LookupFinds(orders: seq<Order>, o: Order)
    requires OrderTable(orders) && o in orders
    ensures FindOrder(orders, o.owner) < |orders| && orders[FindOrder(orders, o.owner)] == o
  {
    if o != orders[0] {
      var i :| 0 < i < |orders| && orders[i] == o;
      assert orders[1..][i - 1] == o;
      LookupFinds(orders[1..], o);
    }
  }

  /** The queue is served first come, first served: open orders by time, before the filled ones. */
  lemma {:induction false} QueueByTime(orders: seq<Order>, i: nat, j: nat)
    requires OrderTable(orders) && i < j < |orders| && orders[j].open
    ensures orders[i].open && (orders[i].time < orders[j].time || (orders[i].time == orders[j].time && orders[i].owner < orders[j].owner))
  {
    if i == 0 {
      assert orders[1..][j - 1] == orders[j];
    } else {
      QueueByTime(orders[1..], i - 1, j - 1);
    }
  }

  /** Open orders come first: when the first order is filled, all are. */
  lemma OpenOrdersFirst(orders: seq<Order>, o: Order)
    requires OrderTable(orders) && o in orders && o.open
    ensures orders[0].open
  {
    var i :| 0 <= i < |orders| && orders[i] == o;
    if i > 0 {
      assert orders[1..][i - 1] == o;
    }
  }
}
