/** The producers that lead the vote, and the schedule proposed from them. */
module Schedule {
  import opened Outcomes
  import opened RexState

  const BP_COUNT: nat := 6
  const ACTIVE_NETWORK_CYCLE: nat := 1

  datatype Candidate = Candidate(owner: Name, woods: nat, active: bool)

  /** Key of index `prototalvote`: active producers with most votes first, inactive ones last. */
  function ByVotes(c: Candidate): int {
    if c.active then -(c.woods as int) else c.woods
  }

  predicate Eligible(c: Candidate) {
    c.active && c.woods > 0
  }

  predicate Precedes(a: Candidate, b: Candidate) {
    ByVotes(a) < ByVotes(b) || (ByVotes(a) == ByVotes(b) && a.owner < b.owner)
  }

  /** `a` leads `b`: more votes, or as many and the smaller name. */
  predicate Leads(a: Candidate, b: Candidate) {
    a.woods > b.woods || (a.woods == b.woods && a.owner < b.owner)
  }

  /** Rows in index order. */
  ghost predicate VoteIndex(rows: seq<Candidate>) {
    |rows| > 0 ==> (forall x :: x in rows[1..] ==> Precedes(rows[0], x)) && VoteIndex(rows[1..])
  }

  lemma {:induction false} IndexOrder(rows: seq<Candidate>, k: nat, x: Candidate)
    requires VoteIndex(rows) && k < |rows| && x in rows[k + 1..]
    ensures Precedes(rows[k], x)
  {
    if k > 0 {
      assert rows[1..][k..] == rows[k + 1..];
      IndexOrder(rows[1..], k - 1, x);
    }
  }

  /** After a row that is not eligible no row is. */
  lemma NoneAfter(rows: seq<Candidate>, k: nat, x: Candidate)
    requires VoteIndex(rows) && k < |rows| && !Eligible(rows[k]) && x in rows[k..]
    ensures !Eligible(x)
  {
    if x != rows[k] {
      assert rows[k..] == [rows[k]] + rows[k + 1..];
      IndexOrder(rows, k, x);
    }
  }

  ghost predicate AllEligible(rows: seq<Candidate>) {
    forall x :: x in rows ==> Eligible(x)
  }

  /** Every eligible candidate is among the leaders, or behind each of a full set of them. */
  ghost predicate AreLeaders(top: seq<Candidate>, rows: seq<Candidate>) {
    && |top| <= BP_COUNT && AllEligible(top)
    && (forall t :: t in top ==> t in rows)
    && forall x :: x in rows && Eligible(x) && x !in top ==> |top| == BP_COUNT && forall t :: t in top ==> Leads(t, x)
  }

  /** A row further down the index comes behind the rows before it. */
  lemma LaterComesBehind(rows: seq<Candidate>, k: nat, i: nat, x: Candidate)
    requires VoteIndex(rows) && k < i <= |rows| && x in rows[i..] && Eligible(rows[k]) && Eligible(x)
    ensures Leads(rows[k], x)
  {
    assert rows[k + 1..] == rows[k + 1..i] + rows[i..];
    IndexOrder(rows, k, x);
  }

  /** The eligible rows before the first other one, or before the seventh, are the leaders. */
  lemma PrefixLeads(rows: seq<Candidate>, i: nat)
    requires VoteIndex(rows) && i <= |rows| && i <= BP_COUNT && AllEligible(rows[..i])
    requires i < BP_COUNT && i < |rows| ==> !Eligible(rows[i])
    ensures AreLeaders(rows[..i], rows)
  {
    hide VoteIndex, Eligible, Leads;
    var top := rows[..i];
    forall x | x in rows && Eligible(x) && x !in top
      ensures i == BP_COUNT && forall t :: t in top ==> Leads(t, x)
    {
      assert rows == top + rows[i..];
      if i < BP_COUNT && i < |rows| {
        NoneAfter(rows, i, x);
      }
      forall t | t in top ensures Leads(t, x) {
        var k :| 0 <= k < i && rows[k] == t;
        LaterComesBehind(rows, k, i, x);
      }
    }
  }

  method TopProducers(index: seq<Candidate>) returns (top: seq<Candidate>)
    requires VoteIndex(index)
    ensures AreLeaders(top, index)
    ensures |top| <= |index| && top == index[..|top|]
  {
    top := [];
    var i := 0;
    while i < |index| && |top| < BP_COUNT && 0 < index[i].woods && index[i].active
      invariant i <= |index| && |top| == i <= BP_COUNT && top == index[..i]
      invariant AllEligible(top)
    {
      top := top + [index[i]];
      i := i + 1;
    }
    PrefixLeads(index, i);
  }

  // ---------- the schedule ----------

  function InsertByName(rows: seq<Candidate>, c: Candidate): seq<Candidate> {
    if |rows| == 0 || c.owner <= rows[0].owner then [c] + rows else [rows[0]] + InsertByName(rows[1..], c)
  }

  function SortByName(rows: seq<Candidate>): seq<Candidate> {
    if |rows| == 0 then [] else InsertByName(SortByName(rows[1..]), rows[0])
  }

  ghost predicate SortedByName(rows: seq<Candidate>) {
    |rows| > 0 ==> (forall x :: x in rows[1..] ==> rows[0].owner <= x.owner) && SortedByName(rows[1..])
  }

  lemma AllAtLeast(out: seq<Candidate>, rows: seq<Candidate>, c: Candidate, least: Name)
    requires multiset(out) == multiset(rows) + multiset{c}
    requires least <= c.owner && forall x :: x in rows ==> least <= x.owner
    ensures forall x :: x in out ==> least <= x.owner
  {
    forall x | x in out ensures least <= x.owner {
      assert x in multiset(out);
    }
  }

  lemma {:induction false} InsertByNameFacts(rows: seq<Candidate>, c: Candidate)
    requires SortedByName(rows)
    ensures SortedByName(InsertByName(rows, c))
    ensures multiset(InsertByName(rows, c)) == multiset(rows) + multiset{c}
  {
    var out := InsertByName(rows, c);
    if |rows| == 0 || c.owner <= rows[0].owner {
      assert out[1..] == rows;
      forall x | x in rows ensures c.owner <= x.owner {
        assert x == rows[0] || x in rows[1..];
      }
    } else {
      InsertByNameFacts(rows[1..], c);
      assert out[1..] == InsertByName(rows[1..], c);
      assert rows == [rows[0]] + rows[1..];
      AllAtLeast(out[1..], rows[1..], c, rows[0].owner);
    }
  }

  /** Sorting keeps the candidates and orders their names. */
  lemma {:induction false} SortByNameFacts(rows: seq<Candidate>)
    ensures SortedByName(SortByName(rows)) && multiset(SortByName(rows)) == multiset(rows)
  {
    if |rows| > 0 {
      SortByNameFacts(rows[1..]);
      InsertByNameFacts(SortByName(rows[1..]), rows[0]);
      assert rows == [rows[0]] + rows[1..];
    }
  }

  class Elections {
    var networkActive: bool
    var touches: nat
    var activeBlock: nat

    /** An inactive network has seen too few full rounds in a row. */
    ghost predicate Valid()
      reads this
    {
      !networkActive ==> touches < ACTIVE_NETWORK_CYCLE
    }

    constructor ()
      ensures Valid() && !networkActive && touches == 0
    {
      networkActive, touches, activeBlock := false, 0, 0;
    }

    /** Proposes the leaders, by name, once enough rounds have had a full set of them. */
    method UpdateElected(index: seq<Candidate>, head: nat) returns (schedule: Option<seq<Candidate>>, ghost top: seq<Candidate>)
      requires Valid() && VoteIndex(index)
      modifies this
      ensures Valid() && AreLeaders(top, index)
      ensures schedule.Some? <==> |top| == BP_COUNT
      ensures schedule.Some? ==> multiset(schedule.value) == multiset(top) && SortedByName(schedule.value)
      ensures networkActive <==> old(networkActive) || |top| == BP_COUNT
      ensures activeBlock == if networkActive && !old(networkActive) then head else old(activeBlock)
    {
      var leaders := TopProducers(index);
      top := leaders;
      if !networkActive {
        if |leaders| >= BP_COUNT {
          touches := touches + 1;
        } else {
          touches := 0;
        }
        if touches >= ACTIVE_NETWORK_CYCLE {
          networkActive := true;
          activeBlock := head;
        }
      }
      schedule := None;
      if networkActive && |leaders| >= BP_COUNT {
        SortByNameFacts(leaders);
        schedule := Some(SortByName(leaders));
      }
    }
  }
}
