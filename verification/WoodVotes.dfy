/**
 * Votes by burnt wood: the per-producer counters, the rows they summarise, the
 * burns already counted, and the producers that lead the vote.
 */
module WoodVotes {
  import opened RexState
  import opened WoodKeys

  type Block = x: nat | x < 0x1_0000_0000

  datatype Producer = Producer(woods: int, active: bool, unpaid: nat)

  /** Votes for one producer in one block. */
  datatype StatRow = StatRow(rowid: nat, producer: Name, block: Block, stat: nat)

  datatype Burn = Burn(rowid: nat, voter: Name, block: Block, wood: string)

  /** Key of index `prodblock`: the producer above 32 bits of block number. */
  function BpBlockKey(producer: Name, block: Block): nat {
    producer * 0x1_0000_0000 + block
  }

  lemma KeyInjective(p: Name, b: Block, q: Name, c: Block)
    ensures BpBlockKey(p, b) == BpBlockKey(q, c) <==> p == q && b == c
  {
  }

  // ---------- rows ----------

  /** Votes that the rows record for a producer. */
  ghost function Count(rows: seq<StatRow>, p: Name): int {
    if |rows| == 0 then 0 else (if rows[0].producer == p then rows[0].stat else 0) + Count(rows[1..], p)
  }

  /** Votes that the rows record for a producer in a block. */
  ghost function CountIn(rows: seq<StatRow>, p: Name, b: Block): int {
    if |rows| == 0 then 0
    else (if rows[0].producer == p && rows[0].block == b then rows[0].stat else 0) + CountIn(rows[1..], p, b)
  }

  /** At most one row for a producer and a block, and one for a row id. */
  ghost predicate Distinct(rows: seq<StatRow>) {
    |rows| > 0 ==>
      && (forall x :: x in rows[1..] ==> x.rowid != rows[0].rowid && !(x.producer == rows[0].producer && x.block == rows[0].block))
      && Distinct(rows[1..])
  }

  /** Rows in the order of index `blocknumber`. */
  ghost predicate InBlockOrder(rows: seq<StatRow>) {
    |rows| > 0 ==> (forall x :: x in rows[1..] ==> rows[0].block <= x.block) && InBlockOrder(rows[1..])
  }

  ghost predicate IdsBelow(rows: seq<StatRow>, next: nat) {
    forall x :: x in rows ==> x.rowid < next
  }

  function InsertRow(rows: seq<StatRow>, r: StatRow): seq<StatRow> {
    if |rows| == 0 || r.block < rows[0].block then [r] + rows else [rows[0]] + InsertRow(rows[1..], r)
  }

  /** Position of the row with a key, or the number of rows. */
  function FindKey(rows: seq<StatRow>, key: nat): (i: nat)
    ensures i <= |rows|
    ensures i < |rows| ==> BpBlockKey(rows[i].producer, rows[i].block) == key
    ensures i == |rows| ==> forall x :: x in rows ==> BpBlockKey(x.producer, x.block) != key
  {
    if |rows| == 0 || BpBlockKey(rows[0].producer, rows[0].block) == key then 0 else 1 + FindKey(rows[1..], key)
  }

  function FindRow(rows: seq<StatRow>, rowid: nat): (i: nat)
    ensures i <= |rows|
    ensures i < |rows| ==> rows[i].rowid == rowid
  {
    if |rows| == 0 || rows[0].rowid == rowid then 0 else 1 + FindRow(rows[1..], rowid)
  }

  lemma {:induction false} InsertFacts(rows: seq<StatRow>, r: StatRow, p: Name, b: Block)
    ensures var rows' := InsertRow(rows, r);
            && Count(rows', p) == Count(rows, p) + (if r.producer == p then r.stat else 0)
            && CountIn(rows', p, b) == CountIn(rows, p, b) + (if r.producer == p && r.block == b then r.stat else 0)
            && (forall x :: x in rows' <==> x == r || x in rows)
            && (InBlockOrder(rows) ==> InBlockOrder(rows'))
            && (Distinct(rows) && (forall x :: x in rows ==> x.rowid != r.rowid && !(x.producer == r.producer && x.block == r.block))
                ==> Distinct(rows'))
  {
    var rows' := InsertRow(rows, r);
    if |rows| == 0 || r.block < rows[0].block {
      assert rows'[1..] == rows;
      if InBlockOrder(rows) {
        forall x | x in rows ensures r.block <= x.block {
          assert x == rows[0] || x in rows[1..];
        }
      }
    } else {
      assert rows'[1..] == InsertRow(rows[1..], r);
      InsertFacts(rows[1..], r, p, b);
      assert rows == [rows[0]] + rows[1..];
    }
  }

  /** One more vote in an existing row. */
  lemma {:induction false} BumpFacts(rows: seq<StatRow>, i: nat, p: Name, b: Block)
    requires i < |rows|
    ensures var r := rows[i].(stat := rows[i].stat + 1);
            var rows' := rows[i := r];
            && Count(rows', p) == Count(rows, p) + (if r.producer == p then 1 else 0)
            && CountIn(rows', p, b) == CountIn(rows, p, b) + (if r.producer == p && r.block == b then 1 else 0)
            && (InBlockOrder(rows) ==> InBlockOrder(rows'))
            && (Distinct(rows) ==> Distinct(rows'))
  {
    var r := rows[i].(stat := rows[i].stat + 1);
    var rows' := rows[i := r];
    if i == 0 {
      assert rows'[1..] == rows[1..];
    } else {
      assert rows'[1..] == rows[1..][i - 1 := r];
      BumpFacts(rows[1..], i - 1, p, b);
      assert rows[i] == rows[1..][i - 1];
      forall x | x in rows'[1..]
        ensures x in rows[1..] || (x.rowid == rows[i].rowid && x.producer == rows[i].producer && x.block == rows[i].block)
      {
      }
    }
  }

  ghost predicate OneMore(rows: seq<StatRow>, rows': seq<StatRow>, producer: Name, block: Block) {
    && (forall p: Name :: Count(rows', p) == Count(rows, p) + (if p == producer then 1 else 0))
    && (forall p: Name, b: Block ::
          CountIn(rows', p, b) == CountIn(rows, p, b) + (if p == producer && b == block then 1 else 0))
  }

  lemma BumpCounts(rows: seq<StatRow>, i: nat)
    requires i < |rows|
    ensures OneMore(rows, rows[i := rows[i].(stat := rows[i].stat + 1)], rows[i].producer, rows[i].block)
  {
    forall p: Name, b: Block {
      BumpFacts(rows, i, p, b);
    }
    forall p: Name
      ensures Count(rows[i := rows[i].(stat := rows[i].stat + 1)], p)
           == Count(rows, p) + (if p == rows[i].producer then 1 else 0)
    {
      BumpFacts(rows, i, p, 0);
    }
  }

  lemma InsertCounts(rows: seq<StatRow>, r: StatRow)
    requires r.stat == 1
    ensures OneMore(rows, InsertRow(rows, r), r.producer, r.block)
  {
    forall p: Name, b: Block {
      InsertFacts(rows, r, p, b);
    }
    forall p: Name ensures Count(InsertRow(rows, r), p) == Count(rows, p) + (if p == r.producer then 1 else 0) {
      InsertFacts(rows, r, p, 0);
    }
  }

  lemma {:induction false} CountZero(rows: seq<StatRow>, p: Name)
    requires forall x :: x in rows ==> x.producer != p
    ensures Count(rows, p) == 0
  {
    if |rows| > 0 {
      assert rows[0] in rows;
      CountZero(rows[1..], p);
    }
  }

  /** Rows taken off the front. */
  lemma {:induction false} DropFacts(rows: seq<StatRow>, k: nat, p: Name)
    requires k <= |rows|
    ensures Count(rows, p) == Count(rows[..k], p) + Count(rows[k..], p)
    ensures Distinct(rows) ==> Distinct(rows[k..])
    ensures InBlockOrder(rows) ==> InBlockOrder(rows[k..])
  {
    if k > 0 {
      assert rows[..k][1..] == rows[1..][..k - 1];
      assert rows[k..] == rows[1..][k - 1..];
      DropFacts(rows[1..], k - 1, p);
    } else {
      assert rows[k..] == rows;
    }
  }

  lemma CountStep(rows: seq<StatRow>, k: nat, p: Name)
    requires k < |rows|
    ensures Count(rows[..k + 1], p) == Count(rows[..k], p) + (if rows[k].producer == p then rows[k].stat else 0)
  {
    var front := rows[..k + 1];
    DropFacts(front, k, p);
    assert front[..k] == rows[..k] && front[k..] == [rows[k]];
    assert Count([rows[k]], p) == (if rows[k].producer == p then rows[k].stat else 0) + Count([rows[k]][1..], p);
  }

  // ---------- burns ----------

  ghost predicate SameBurn(x: Burn, y: Burn) {
    x.wood == y.wood && x.block == y.block && x.voter == y.voter
  }

  /** No burn is recorded twice, and row ids are unique. */
  ghost predicate NoRepeats(burns: seq<Burn>) {
    |burns| > 0 ==>
      && (forall x :: x in burns[1..] ==> x.rowid != burns[0].rowid && !SameBurn(x, burns[0]))
      && NoRepeats(burns[1..])
  }

  /** Burns in the order of index `blocknumber`. */
  ghost predicate BurnsInOrder(burns: seq<Burn>) {
    |burns| > 0 ==> (forall x :: x in burns[1..] ==> burns[0].block <= x.block) && BurnsInOrder(burns[1..])
  }

  function InsertBurn(burns: seq<Burn>, b: Burn): (r: seq<Burn>)
    ensures |r| == |burns| + 1
  {
    if |burns| == 0 || b.block < burns[0].block then [b] + burns else [burns[0]] + InsertBurn(burns[1..], b)
  }

  lemma {:induction false} InsertBurnFacts(burns: seq<Burn>, b: Burn)
    ensures forall x :: x in InsertBurn(burns, b) <==> x == b || x in burns
    ensures NoRepeats(burns) && (forall x :: x in burns ==> x.rowid != b.rowid && !SameBurn(x, b)) ==> NoRepeats(InsertBurn(burns, b))
    ensures BurnsInOrder(burns) ==> BurnsInOrder(InsertBurn(burns, b))
  {
    var burns' := InsertBurn(burns, b);
    if |burns| == 0 || b.block < burns[0].block {
      assert burns'[1..] == burns;
      if BurnsInOrder(burns) {
        forall x | x in burns ensures b.block <= x.block {
          assert x == burns[0] || x in burns[1..];
        }
      }
    } else {
      assert burns'[1..] == InsertBurn(burns[1..], b);
      InsertBurnFacts(burns[1..], b);
      assert burns[0] in burns && forall x :: x in burns[1..] ==> x in burns;
      assert burns == [burns[0]] + burns[1..];
    }
  }

  lemma {:induction false} DropBurns(burns: seq<Burn>, k: nat)
    requires k <= |burns|
    ensures NoRepeats(burns) ==> NoRepeats(burns[k..])
    ensures BurnsInOrder(burns) ==> BurnsInOrder(burns[k..])
  {
    if k > 0 {
      assert burns[k..] == burns[1..][k - 1..];
      DropBurns(burns[1..], k - 1);
    } else {
      assert burns[k..] == burns;
    }
  }

  lemma OldestBurnFirst(burns: seq<Burn>, limit: nat)
    requires BurnsInOrder(burns) && (|burns| > 0 ==> burns[0].block >= limit)
    ensures forall x :: x in burns ==> x.block >= limit
  {
    if |burns| > 0 {
      assert burns == [burns[0]] + burns[1..];
    }
  }

  /** The part of index `wood` between the bounds of a key. */
  function KeyRange(burns: seq<Burn>, key: Key): seq<Burn> {
    if |burns| == 0 then []
    else (if KeyOf(burns[0].wood) == key then [burns[0]] else []) + KeyRange(burns[1..], key)
  }

  lemma {:induction false} KeyRangeFacts(burns: seq<Burn>, key: Key, x: Burn)
    ensures x in KeyRange(burns, key) <==> x in burns && KeyOf(x.wood) == key
  {
    hide KeyOf;
    if |burns| > 0 {
      KeyRangeFacts(burns[1..], key, x);
      assert burns == [burns[0]] + burns[1..];
    }
  }

  function FindBurn(burns: seq<Burn>, rowid: nat): (i: nat)
    ensures i <= |burns|
    ensures i < |burns| ==> burns[i].rowid == rowid
  {
    if |burns| == 0 || burns[0].rowid == rowid then 0 else 1 + FindBurn(burns[1..], rowid)
  }

  // ---------- votes one after the other ----------

  /** Blocks below this number have left the window. */
  function WindowStart(head: Block, period: nat): nat {
    if head > period then head - period else 0
  }

  /** Some of the oldest burns are gone, all of blocks before the start. */
  ghost predicate OldBurnsGone(before: seq<Burn>, after: seq<Burn>, start: nat) {
    && |after| <= |before| && after == before[|before| - |after|..]
    && forall j :: 0 <= j < |before| - |after| ==> before[j].block < start
  }

  ghost predicate IsNew(burns: seq<Burn>, row: Burn) {
    forall x :: x in burns ==> !SameBurn(x, row)
  }

  /** What a vote makes of the burns: its row is new and enters them, and some of the oldest leave. */
  ghost predicate VoteStep(before: seq<Burn>, after: seq<Burn>, row: Burn, counted: bool, start: nat) {
    if counted then IsNew(before, row) && OldBurnsGone(InsertBurn(before, row), after, start) else after == before
  }

  /** A run of votes: the burns before and after each, its row, whether it counts, and where its window starts. */
  ghost predicate VoteRun(burns: seq<seq<Burn>>, rows: seq<Burn>, counted: seq<bool>, starts: seq<nat>) {
    && |rows| == |counted| == |starts| && |burns| == |rows| + 1
    && (forall i :: 0 <= i < |rows| ==> VoteStep(burns[i], burns[i + 1], rows[i], counted[i], starts[i]))
    && forall i, j :: 0 <= i < j < |starts| ==> starts[i] <= starts[j]
  }

  /** A burn stays recorded, or its block has left the window. */
  lemma RecordedStays(before: seq<Burn>, after: seq<Burn>, row: Burn, counted: bool, start: nat, x: Burn)
    requires VoteStep(before, after, row, counted, start) && (x in before || (counted && x == row))
    ensures x in after || x.block < start
  {
    if counted {
      var all := InsertBurn(before, row);
      InsertBurnFacts(before, row);
      var k :| 0 <= k < |all| && all[k] == x;
      if k >= |all| - |after| {
        assert after[k - (|all| - |after|)] == x;
      }
    }
  }

  lemma {:induction false} RecordedUntil(burns: seq<seq<Burn>>, rows: seq<Burn>, counted: seq<bool>, starts: seq<nat>, i: nat, j: nat)
    requires VoteRun(burns, rows, counted, starts) && i < j < |rows| && counted[i]
    ensures rows[i] in burns[j] || rows[i].block < starts[j]
    decreases j
  {
    hide VoteStep;
    if j == i + 1 {
      RecordedStays(burns[i], burns[j], rows[i], true, starts[i], rows[i]);
    } else {
      RecordedUntil(burns, rows, counted, starts, i, j - 1);
      if rows[i] in burns[j - 1] {
        RecordedStays(burns[j - 1], burns[j], rows[j - 1], counted[j - 1], starts[j - 1], rows[i]);
      }
    }
  }

  /** Over any run of votes, a burn whose block is still in the window is counted at most once. */
  lemma CountedOnceInWindow(burns: seq<seq<Burn>>, rows: seq<Burn>, counted: seq<bool>, starts: seq<nat>, i: nat, j: nat)
    requires VoteRun(burns, rows, counted, starts) && i < j < |rows|
    requires counted[i] && counted[j] && SameBurn(rows[i], rows[j])
    ensures rows[j].block < starts[j]
  {
    RecordedUntil(burns, rows, counted, starts, i, j);
    assert VoteStep(burns[j], burns[j + 1], rows[j], true, starts[j]);
  }

  // ---------- the contract's tables ----------

  datatype Vote = Counted | NoProducer | InvalidWood | NotAllowed | ProducerNotFound | ProducerInactive

  /** Only the vote counters differ. */
  ghost predicate OnlyWoods(before: map<Name, Producer>, after: map<Name, Producer>) {
    && before.Keys == after.Keys
    && forall p :: p in before ==> after[p].active == before[p].active && after[p].unpaid == before[p].unpaid
  }

  /** One producer has one more unpaid vote; beside that only the vote counters differ. */
  ghost predicate OneUnpaid(before: map<Name, Producer>, after: map<Name, Producer>, producer: Name) {
    && before.Keys == after.Keys
    && forall p :: p in before ==>
         && after[p].active == before[p].active
         && after[p].unpaid == before[p].unpaid + if p == producer then 1 else 0
  }

  lemma OneUnpaidRemains(before: map<Name, Producer>, between: map<Name, Producer>, after: map<Name, Producer>, producer: Name)
    requires OneUnpaid(before, between, producer) && OnlyWoods(between, after)
    ensures OneUnpaid(before, after, producer)
  {
  }

  /** Some of the oldest rows are gone, all of blocks before the start. */
  ghost predicate OldRowsGone(before: seq<StatRow>, after: seq<StatRow>, start: nat) {
    && |after| <= |before| && after == before[|before| - |after|..]
    && forall j :: 0 <= j < |before| - |after| ==> before[j].block < start
  }

  class Votes {
    var producers: map<Name, Producer>
    var stats: seq<StatRow>
    var burns: seq<Burn>
    var nextRow: nat
    var nextBurn: nat

    /** Every counter is the sum of its rows; rows and burns are unique. */
    ghost predicate Valid()
      reads this
    {
      && Distinct(stats) && InBlockOrder(stats) && IdsBelow(stats, nextRow)
      && NoRepeats(burns) && BurnsInOrder(burns) && (forall x :: x in burns ==> x.rowid < nextBurn)
      && (forall x :: x in stats ==> x.producer in producers)
      && forall p :: p in producers ==> producers[p].woods == Count(stats, p)
    }

    constructor ()
      ensures Valid() && producers == map[] && stats == [] && burns == []
    {
      producers, stats, burns, nextRow, nextBurn := map[], [], [], 0, 0;
    }

    /** A producer starts without votes; registering again only reactivates it. */
    method RegisterProducer(p: Name)
      requires Valid()
      modifies this`producers
      ensures Valid() && p in producers && producers[p].active
      ensures producers == old(producers)[p := producers[p]]
      ensures producers[p].woods == if p in old(producers) then old(producers)[p].woods else 0
    {
      if p in producers {
        producers := producers[p := producers[p].(active := true)];
      } else {
        CountZero(stats, p);
        producers := producers[p := Producer(0, true, 0)];
      }
    }

    method Deactivate(p: Name)
      requires Valid() && p in producers
      modifies this`producers
      ensures Valid() && producers == old(producers)[p := old(producers)[p].(active := false)]
    {
      producers := producers[p := producers[p].(active := false)];
    }

    /** Looks for the same burn among those with the key of the wood. */
    method IsNewBurn(wood: string, block: Block, owner: Name) returns (isNew: bool)
      ensures forall id: nat :: isNew <==> IsNew(burns, Burn(id, owner, block, wood))
    {
      hide KeyOf, KeyRange;
      var key := WoodKey(wood);
      var range := KeyRange(burns, key);
      forall x: Burn {
        KeyRangeFacts(burns, key, x);
      }
      var i := 0;
      while i < |range|
        invariant i <= |range|
        invariant forall k :: 0 <= k < i ==> !(range[k].wood == wood && range[k].block == block && range[k].voter == owner)
      {
        if range[i].wood == wood && range[i].block == block && range[i].voter == owner {
          assert range[i] in range;
          return false;
        }
        i := i + 1;
      }
      return true;
    }

    /** Enters one vote in the row of its producer and block, creating the row if needed. */
    method CountVote(producer: Name, block: Block)
      requires Distinct(stats) && InBlockOrder(stats) && IdsBelow(stats, nextRow)
      modifies this`stats, this`nextRow
      ensures Distinct(stats) && InBlockOrder(stats) && IdsBelow(stats, nextRow)
      ensures OneMore(old(stats), stats, producer, block)
      ensures forall x :: x in stats ==> x.producer == producer || exists y :: y in old(stats) && x.producer == y.producer
    {
      hide OneMore;
      var key := BpBlockKey(producer, block);
      var i := FindKey(stats, key);
      if i < |stats| {
        KeyInjective(stats[i].producer, stats[i].block, producer, block);
        BumpCounts(stats, i);
        BumpFacts(stats, i, producer, block);
        stats := stats[i := stats[i].(stat := stats[i].stat + 1)];
      } else {
        var row := StatRow(nextRow, producer, block, 1);
        forall x | x in stats ensures !(x.producer == producer && x.block == block) {
          KeyInjective(x.producer, x.block, producer, block);
        }
        InsertCounts(stats, row);
        InsertFacts(stats, row, producer, block);
        stats := InsertRow(stats, row);
        nextRow := nextRow + 1;
      }
    }

    /** Takes the votes of the oldest rows off their producers' counters, up to `maxline` rows below the limit. */
    method TakeOffVotes(limit: nat, maxline: nat) returns (round: nat)
      modifies this`producers
      ensures round <= maxline && round <= |stats|
      ensures forall j :: 0 <= j < round ==> stats[j].block < limit
      ensures round < maxline && round < |stats| ==> stats[round].block >= limit
      ensures producers.Keys == old(producers).Keys
      ensures forall p :: p in producers ==>
                producers[p] == old(producers)[p].(woods := old(producers)[p].woods - Count(stats[..round], p))
    {
      round := 0;
      while round < maxline && round < |stats| && stats[round].block < limit
        invariant round <= maxline && round <= |stats|
        invariant forall j :: 0 <= j < round ==> stats[j].block < limit
        invariant producers.Keys == old(producers).Keys
        invariant forall p :: p in producers ==>
                    producers[p] == old(producers)[p].(woods := old(producers)[p].woods - Count(stats[..round], p))
      {
        hide Count;
        var row := stats[round];
        forall p: Name
          ensures Count(stats[..round + 1], p) == Count(stats[..round], p) + (if row.producer == p then row.stat else 0)
        {
          CountStep(stats, round, p);
        }
        if row.producer in producers {
          var p := producers[row.producer];
          producers := producers[row.producer := p.(woods := p.woods - row.stat)];
        }
        round := round + 1;
      }
    }

    /**
     * Removes up to `maxline` rows of blocks before the window, oldest first, and
     * takes their votes off the producers' counters; returns what is left of `maxline`.
     */
    method CleanStats(head: Block, period: nat, maxline: nat) returns (remain: nat)
      requires Valid()
      modifies this`producers, this`stats
      ensures Valid()
      ensures head <= period ==> remain == 0 && stats == old(stats) && producers == old(producers)
      ensures head > period ==>
                remain <= maxline && maxline - remain <= |old(stats)| && stats == old(stats)[maxline - remain..]
      ensures head > period ==> forall j :: 0 <= j < maxline - remain ==> old(stats)[j].block < head - period
      ensures head > period && remain > 0 ==> forall x :: x in stats ==> x.block >= head - period
      ensures producers.Keys == old(producers).Keys
      ensures forall p :: p in producers ==> producers[p] == old(producers)[p].(woods := producers[p].woods)
    {
      if head <= period { return 0; }
      ghost var was := stats;
      var round := TakeOffVotes(head - period, maxline);
      remain := maxline - round;
      EraseFirst(round);
      hide Count, Distinct, InBlockOrder;
      forall p: Name ensures Count(was, p) == Count(was[..round], p) + Count(was[round..], p) {
        DropFacts(was, round, p);
      }
      DropFacts(was, round, 0);
      if remain > 0 {
        if |stats| > 0 {
          assert stats[0] == was[round];
        }
        OldestFirst(stats, head - period);
      }
    }

    /** Erases the first `n` rows, finding each by its row id. */
    method EraseFirst(n: nat)
      requires n <= |stats| && Distinct(stats)
      modifies this`stats
      ensures stats == old(stats)[n..]
    {
      var doomed := stats[..n];
      var j := 0;
      while j < n
        invariant j <= n && stats == old(stats)[j..]
      {
        var i := FindRow(stats, doomed[j].rowid);
        assert stats[0] == doomed[j];
        if i < |stats| {
          stats := RemoveAt(stats, i);
        }
        j := j + 1;
      }
    }

    /** Removes up to `maxline` burns of blocks before the window, oldest first; returns what is left of `maxline`. */
    method CleanBurns(head: Block, period: nat, maxline: nat) returns (remain: nat)
      requires Valid() && head > period
      modifies this`burns
      ensures Valid() && remain <= maxline
      ensures maxline - remain <= |old(burns)| && burns == old(burns)[maxline - remain..]
      ensures forall j :: 0 <= j < maxline - remain ==> old(burns)[j].block < head - period
      ensures remain > 0 ==> forall x :: x in burns ==> x.block >= head - period
    {
      var round := 0;
      while round < maxline && round < |burns| && burns[round].block < head - period
        invariant round <= maxline && round <= |burns|
        invariant forall j :: 0 <= j < round ==> burns[j].block < head - period
      {
        round := round + 1;
      }
      DropBurns(burns, round);
      EraseFirstBurns(round);
      remain := maxline - round;
      if remain > 0 {
        OldestBurnFirst(burns, head - period);
      }
    }

    /** Erases the first `n` burns, finding each by its row id. */
    method EraseFirstBurns(n: nat)
      requires n <= |burns| && NoRepeats(burns)
      modifies this`burns
      ensures burns == old(burns)[n..]
    {
      var doomed := burns[..n];
      var j := 0;
      while j < n
        invariant j <= n && burns == old(burns)[j..]
      {
        var i := FindBurn(burns, doomed[j].rowid);
        assert burns[0] == doomed[j];
        if i < |burns| {
          burns := RemoveAt(burns, i);
        }
        j := j + 1;
      }
    }

    /** What a vote needs to be counted. */
    ghost predicate Countable(owner: Name, wood: string, block: Block, producer: Name, mayVote: bool, genuine: bool)
      reads this
    {
      && producer > 0 && |wood| > 0 && mayVote && genuine
      && IsNew(burns, Burn(nextBurn, owner, block, wood))
      && producer in producers && producers[producer].active
    }

    /**
     * One vote: checked, counted once, recorded, followed by some cleaning. `mayVote`
     * says whether the voter is the wood's owner or its proxy, `genuine` whether the
     * chain accepts the wood. `counted` are the rows before cleaning.
     */
    method UpdateVote(owner: Name, wood: string, block: Block, producer: Name, mayVote: bool, genuine: bool,
                      head: Block, period: nat) returns (r: Vote, ghost counted: seq<StatRow>)
      requires Valid()
      modifies this
      ensures Valid()
      ensures r.Counted? <==> old(Countable(owner, wood, block, producer, mayVote, genuine))
      ensures VoteStep(old(burns), burns, Burn(old(nextBurn), owner, block, wood), r.Counted?, WindowStart(head, period))
      ensures !r.Counted? ==> producers == old(producers) && stats == old(stats)
      ensures r.Counted? ==> OneMore(old(stats), counted, producer, block)
      ensures r.Counted? ==> OldRowsGone(counted, stats, WindowStart(head, period))
      ensures r.Counted? && head > period ==>
                var cleaned := |counted| - |stats| + |old(burns)| + 1 - |burns|;
                cleaned <= 5 && (cleaned < 5 ==> NoneBefore(head - period))
      ensures r.Counted? ==> OneUnpaid(old(producers), producers, producer)
    {
      hide Count, CountIn, Distinct, InBlockOrder, NoRepeats, BurnsInOrder, InsertBurn, OneMore, OneUnpaid, OnlyWoods, OldRowsGone,
        OldBurnsGone, IsNew, Valid, NoneBefore;
      counted := stats;
      if producer == 0 { return NoProducer, counted; }
      if |wood| == 0 { return InvalidWood, counted; }
      if !mayVote { return NotAllowed, counted; }
      var isNew := IsNewBurn(wood, block, owner);
      if !(isNew && genuine) { return InvalidWood, counted; }
      if producer !in producers { return ProducerNotFound, counted; }
      if !producers[producer].active { return ProducerInactive, counted; }
      EnterVote(owner, wood, block, producer);
      counted := stats;
      ghost var entered := producers;
      Clean(head, period);
      OneUnpaidRemains(old(producers), entered, producers, producer);
      return Counted, counted;
    }

    /** Adds one vote to the producer's counters, the burns and the rows. */
    method EnterVote(owner: Name, wood: string, block: Block, producer: Name)
      requires Valid() && producer in producers
      requires IsNew(burns, Burn(nextBurn, owner, block, wood))
      modifies this
      ensures Valid()
      ensures burns == InsertBurn(old(burns), Burn(old(nextBurn), owner, block, wood))
      ensures OneMore(old(stats), stats, producer, block)
      ensures OneUnpaid(old(producers), producers, producer)
    {
      hide Count, CountIn, Distinct, InBlockOrder, NoRepeats, BurnsInOrder, InsertBurn;
      var p := producers[producer];
      producers := producers[producer := p.(woods := p.woods + 1, unpaid := p.unpaid + 1)];
      var burn := Burn(nextBurn, owner, block, wood);
      InsertBurnFacts(burns, burn);
      burns := InsertBurn(burns, burn);
      nextBurn := nextBurn + 1;
      CountVote(producer, block);
    }

    /** Once there are blocks before the window, removes at most five rows and burns of such blocks. */
    method Clean(head: Block, period: nat)
      requires Valid()
      modifies this`producers, this`stats, this`burns
      ensures Valid()
      ensures head <= period ==> stats == old(stats) && burns == old(burns)
      ensures OldRowsGone(old(stats), stats, WindowStart(head, period))
      ensures OldBurnsGone(old(burns), burns, WindowStart(head, period))
      ensures head > period ==>
                var cleaned := |old(stats)| - |stats| + |old(burns)| - |burns|;
                cleaned <= 5 && (cleaned < 5 ==> NoneBefore(head - period))
      ensures OnlyWoods(old(producers), producers)
    {
      hide Count, CountIn, Distinct, InBlockOrder, NoRepeats, BurnsInOrder;
      if head > period {
        var remain := CleanStats(head, period, 5);
        remain := CleanBurns(head, period, remain);
      }
    }

    /** Nothing of a block below the limit is left. */
    ghost predicate NoneBefore(limit: nat)
      reads this
    {
      (forall x :: x in stats ==> x.block >= limit) && forall x :: x in burns ==> x.block >= limit
    }
  }

  lemma {:induction false} OldestFirst(rows: seq<StatRow>, limit: nat)
    requires InBlockOrder(rows) && (|rows| > 0 ==> rows[0].block >= limit)
    ensures forall x :: x in rows ==> x.block >= limit
  {
    if |rows| > 0 {
      assert rows == [rows[0]] + rows[1..];
    }
  }
}
