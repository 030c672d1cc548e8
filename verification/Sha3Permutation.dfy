/** The permutation as the program runs it, in place on an array of 25 lanes. */
module Sha3Permutation {
  import opened Keccak

  function XorAt(s: Lanes, k: nat, d: Lane): Lanes
    requires k < 25
  {
    s[k := Xor(s[k], d)]
  }

  method XorLane(a: array<Lane>, k: nat, d: Lane)
    requires a.Length == 25 && k < 25
    modifies a
    ensures a[..] == XorAt(old(a[..]), k, d)
  {
    hide Xor;
    a[k] := Xor(a[k], d);
  }

  /** Adds `d` to the lanes of one column. */
  ghost function AddToColumn(s: Lanes, x: nat, d: Lane): Lanes {
    seq(25, i requires 0 <= i < 25 => if i % 5 == x then Xor(s[i], d) else s[i])
  }

  lemma ColumnOf(i: nat, x: nat)
    requires i < 25 && x < 5
    ensures i % 5 == x <==> i == x || i == x + 5 || i == x + 10 || i == x + 15 || i == x + 20
  {
    assert i == 5 * (i / 5) + i % 5;
  }

  lemma ColumnLaneByLane(s: Lanes, x: nat, d: Lane)
    requires x < 5
    ensures XorAt(XorAt(XorAt(XorAt(XorAt(s, x, d), x + 5, d), x + 10, d), x + 15, d), x + 20, d) == AddToColumn(s, x, d)
  {
    hide Xor;
    forall i: nat | i < 25 ensures i % 5 == x <==> i == x || i == x + 5 || i == x + 10 || i == x + 15 || i == x + 20 {
      ColumnOf(i, x);
    }
  }

  method ThetaStep(a: array<Lane>, i: nat, d: Lane)
    requires a.Length == 25 && i < 5
    modifies a
    ensures a[..] == AddToColumn(old(a[..]), i, d)
  {
    hide XorAt, AddToColumn;
    ColumnLaneByLane(a[..], i, d);
    XorLane(a, i, d);
    XorLane(a, i + 5, d);
    XorLane(a, i + 10, d);
    XorLane(a, i + 15, d);
    XorLane(a, i + 20, d);
  }

  method XoredColumn(a: array<Lane>, i: nat) returns (c: Lane)
    requires a.Length == 25 && i < 5
    ensures c == Column(a[..], i)
  {
    hide Xor, At;
    AtInside(i, 0);
    AtInside(i, 1);
    AtInside(i, 2);
    AtInside(i, 3);
    AtInside(i, 4);
    c := Xor(Xor(Xor(Xor(a[i], a[i + 5]), a[i + 10]), a[i + 15]), a[i + 20]);
  }

  method ThetaOnArray(a: array<Lane>)
    requires a.Length == 25
    modifies a
    ensures a[..] == Theta(old(a[..]))
  {
    hide Column, Rotl, Xor, Theta, AddToColumn, ThetaAdd;
    ghost var s := a[..];
    var c0 := XoredColumn(a, 0);
    var c1 := XoredColumn(a, 1);
    var c2 := XoredColumn(a, 2);
    var c3 := XoredColumn(a, 3);
    var c4 := XoredColumn(a, 4);
    var d0, d1, d2 := Xor(Rotl(c1, 1), c4), Xor(Rotl(c2, 1), c0), Xor(Rotl(c3, 1), c1);
    var d3, d4 := Xor(Rotl(c4, 1), c2), Xor(Rotl(c0, 1), c3);
    ThetaSums(s);
    ThetaStep(a, 0, d0);
    ThetaStep(a, 1, d1);
    ThetaStep(a, 2, d2);
    ThetaStep(a, 3, d3);
    ThetaStep(a, 4, d4);
    ThetaByColumn(s);
  }

  lemma ThetaSums(s: Lanes)
    ensures ThetaAdd(s, 0) == Xor(Rotl(Column(s, 1), 1), Column(s, 4))
    ensures ThetaAdd(s, 1) == Xor(Rotl(Column(s, 2), 1), Column(s, 0))
    ensures ThetaAdd(s, 2) == Xor(Rotl(Column(s, 3), 1), Column(s, 1))
    ensures ThetaAdd(s, 3) == Xor(Rotl(Column(s, 4), 1), Column(s, 2))
    ensures ThetaAdd(s, 4) == Xor(Rotl(Column(s, 0), 1), Column(s, 3))
  {
    hide Column, Rotl, Xor;
    ColumnWraps(s, -1);
    ColumnWraps(s, 0);
  }

  lemma ColumnWraps(s: Lanes, x: int)
    ensures Column(s, x + 5) == Column(s, x)
  {
    hide Xor, At;
    AtWraps(x, 0);
    AtWraps(x, 1);
    AtWraps(x, 2);
    AtWraps(x, 3);
    AtWraps(x, 4);
  }

  lemma AtInside(x: nat, y: nat)
    requires x < 5 && y < 5
    ensures At(x, y) == x + 5 * y
  {
  }

  lemma AtWraps(x: int, y: int)
    ensures At(x + 5, y) == At(x, y)
  {
  }

  /** Five columns, one after the other, are all of theta. */
  lemma ThetaByColumn(s: Lanes)
    ensures AddToColumn(AddToColumn(AddToColumn(AddToColumn(AddToColumn(s, 0, ThetaAdd(s, 0)), 1, ThetaAdd(s, 1)),
                        2, ThetaAdd(s, 2)), 3, ThetaAdd(s, 3)), 4, ThetaAdd(s, 4)) == Theta(s)
  {
    hide Xor, ThetaAdd;
  }

  function Turn(s: Lanes, i: nat, n: nat): Lanes
    requires i < 25 && 0 < n < 64
  {
    s[i := Rotl(s[i], n)]
  }

  method RotateLane(a: array<Lane>, i: nat, n: nat)
    requires a.Length == 25 && i < 25 && 0 < n < 64
    modifies a
    ensures a[..] == Turn(old(a[..]), i, n)
  {
    hide Rotl;
    a[i] := Rotl(a[i], n);
  }

  method RhoOnArray(a: array<Lane>)
    requires a.Length == 25
    modifies a
    ensures a[..] == Rho(old(a[..]))
  {
    hide Turn, Rho;
    ghost var s := a[..];
    RotateLane(a, 1, 1);
    RotateLane(a, 2, 62);
    RotateLane(a, 3, 28);
    RotateLane(a, 4, 27);
    RotateLane(a, 5, 36);
    RotateLane(a, 6, 44);
    RotateLane(a, 7, 6);
    RotateLane(a, 8, 55);
    RotateLane(a, 9, 20);
    RotateLane(a, 10, 3);
    RotateLane(a, 11, 10);
    RotateLane(a, 12, 43);
    RotateLane(a, 13, 25);
    RotateLane(a, 14, 39);
    RotateLane(a, 15, 41);
    RotateLane(a, 16, 45);
    RotateLane(a, 17, 15);
    RotateLane(a, 18, 21);
    RotateLane(a, 19, 8);
    RotateLane(a, 20, 18);
    RotateLane(a, 21, 2);
    RotateLane(a, 22, 61);
    RotateLane(a, 23, 56);
    RotateLane(a, 24, 14);
    TurnsAreRho(s);
  }

  /** The lanes below `n` rotated, the others not yet. */
  ghost function RhoUpTo(s: Lanes, n: nat): Lanes
    requires n <= 25
  {
    seq(25, i requires 0 <= i < 25 => (OffsetSmall(i); if i < n then Rotated(s[i], Offset(i)) else s[i]))
  }

  lemma RhoNext(s: Lanes, n: nat)
    requires 0 < n < 25
    ensures 0 < Offset(n) < 64 && Turn(RhoUpTo(s, n), n, Offset(n)) == RhoUpTo(s, n + 1)
  {
    OffsetSmall(n);
    hide Rotl, Offset;
  }

  lemma RhoEnds(s: Lanes)
    ensures RhoUpTo(s, 1) == s && RhoUpTo(s, 25) == Rho(s)
  {
    assert Offset(0) == 0;
    hide Rotl, Offset;
  }

  lemma OffsetTableLow()
    ensures Offset(1) == 1 && Offset(2) == 62 && Offset(3) == 28 && Offset(4) == 27 && Offset(5) == 36 && Offset(6) == 44
  {
  }

  lemma OffsetTableMiddle()
    ensures Offset(7) == 6 && Offset(8) == 55 && Offset(9) == 20 && Offset(10) == 3 && Offset(11) == 10 && Offset(12) == 43
  {
  }

  lemma OffsetTableHigh()
    ensures Offset(13) == 25 && Offset(14) == 39 && Offset(15) == 41 && Offset(16) == 45 && Offset(17) == 15 && Offset(18) == 21
    ensures Offset(19) == 8 && Offset(20) == 18 && Offset(21) == 2 && Offset(22) == 61 && Offset(23) == 56 && Offset(24) == 14
  {
  }

  lemma OffsetTable()
    ensures Offset(1) == 1 && Offset(2) == 62 && Offset(3) == 28 && Offset(4) == 27 && Offset(5) == 36 && Offset(6) == 44
    ensures Offset(7) == 6 && Offset(8) == 55 && Offset(9) == 20 && Offset(10) == 3 && Offset(11) == 10 && Offset(12) == 43
    ensures Offset(13) == 25 && Offset(14) == 39 && Offset(15) == 41 && Offset(16) == 45 && Offset(17) == 15 && Offset(18) == 21
    ensures Offset(19) == 8 && Offset(20) == 18 && Offset(21) == 2 && Offset(22) == 61 && Offset(23) == 56 && Offset(24) == 14
  {
    hide Offset;
    OffsetTableLow();
    OffsetTableMiddle();
    OffsetTableHigh();
  }

  /** The 24 rotations, one after the other. */
  function Turns(s: Lanes): Lanes {
    var r1 := Turn(s, 1, 1);
    var r2 := Turn(r1, 2, 62);
    var r3 := Turn(r2, 3, 28);
    var r4 := Turn(r3, 4, 27);
    var r5 := Turn(r4, 5, 36);
    var r6 := Turn(r5, 6, 44);
    var r7 := Turn(r6, 7, 6);
    var r8 := Turn(r7, 8, 55);
    var r9 := Turn(r8, 9, 20);
    var r10 := Turn(r9, 10, 3);
    var r11 := Turn(r10, 11, 10);
    var r12 := Turn(r11, 12, 43);
    var r13 := Turn(r12, 13, 25);
    var r14 := Turn(r13, 14, 39);
    var r15 := Turn(r14, 15, 41);
    var r16 := Turn(r15, 16, 45);
    var r17 := Turn(r16, 17, 15);
    var r18 := Turn(r17, 18, 21);
    var r19 := Turn(r18, 19, 8);
    var r20 := Turn(r19, 20, 18);
    var r21 := Turn(r20, 21, 2);
    var r22 := Turn(r21, 22, 61);
    var r23 := Turn(r22, 23, 56);
    var r24 := Turn(r23, 24, 14);
    r24
  }

  lemma TurnsAreRho(s: Lanes)
    ensures Turns(s) == Rho(s)
  {
    hide Turn, RhoUpTo, Rho, Offset;
    RhoEnds(s);
    OffsetTable();
    RhoNext(s, 1);
    RhoNext(s, 2);
    RhoNext(s, 3);
    RhoNext(s, 4);
    RhoNext(s, 5);
    RhoNext(s, 6);
    RhoNext(s, 7);
    RhoNext(s, 8);
    RhoNext(s, 9);
    RhoNext(s, 10);
    RhoNext(s, 11);
    RhoNext(s, 12);
    RhoNext(s, 13);
    RhoNext(s, 14);
    RhoNext(s, 15);
    RhoNext(s, 16);
    RhoNext(s, 17);
    RhoNext(s, 18);
    RhoNext(s, 19);
    RhoNext(s, 20);
    RhoNext(s, 21);
    RhoNext(s, 22);
    RhoNext(s, 23);
    RhoNext(s, 24);
  }

  function Move(s: Lanes, to: nat, from: nat): Lanes
    requires to < 25 && from < 25
  {
    s[to := s[from]]
  }

  method MoveLane(a: array<Lane>, to: nat, from: nat)
    requires a.Length == 25 && to < 25 && from < 25
    modifies a
    ensures a[..] == Move(old(a[..]), to, from)
  {
    a[to] := a[from];
  }

  method PiOnArray(a: array<Lane>)
    requires a.Length == 25
    modifies a
    ensures a[..] == Pi(old(a[..]))
  {
    hide Move, Pi;
    ghost var s := a[..];
    var a1 := a[1];
    MoveLane(a, 1, 6);
    MoveLane(a, 6, 9);
    MoveLane(a, 9, 22);
    MoveLane(a, 22, 14);
    MoveLane(a, 14, 20);
    MoveLane(a, 20, 2);
    MoveLane(a, 2, 12);
    MoveLane(a, 12, 13);
    MoveLane(a, 13, 19);
    MoveLane(a, 19, 23);
    MoveLane(a, 23, 15);
    MoveLane(a, 15, 4);
    MoveLane(a, 4, 24);
    MoveLane(a, 24, 21);
    MoveLane(a, 21, 8);
    MoveLane(a, 8, 16);
    MoveLane(a, 16, 5);
    MoveLane(a, 5, 3);
    MoveLane(a, 3, 18);
    MoveLane(a, 18, 17);
    MoveLane(a, 17, 11);
    MoveLane(a, 11, 7);
    MoveLane(a, 7, 10);
    a[10] := a1;
    MovesArePi(s);
  }

  /** The cycle of lanes that pi moves. */
  function Cycle(k: nat): nat {
    match k
    case 0 => 1
    case 1 => 6
    case 2 => 9
    case 3 => 22
    case 4 => 14
    case 5 => 20
    case 6 => 2
    case 7 => 12
    case 8 => 13
    case 9 => 19
    case 10 => 23
    case 11 => 15
    case 12 => 4
    case 13 => 24
    case 14 => 21
    case 15 => 8
    case 16 => 16
    case 17 => 5
    case 18 => 3
    case 19 => 18
    case 20 => 17
    case 21 => 11
    case 22 => 7
    case _ => 10
  }

  /** Where a lane stands on the cycle; lane 0 is not on it. */
  function Place(i: nat): nat {
    match i
    case 1 => 0
    case 2 => 6
    case 3 => 18
    case 4 => 12
    case 5 => 17
    case 6 => 1
    case 7 => 22
    case 8 => 15
    case 9 => 2
    case 10 => 23
    case 11 => 21
    case 12 => 7
    case 13 => 8
    case 14 => 4
    case 15 => 11
    case 16 => 16
    case 17 => 20
    case 18 => 19
    case 19 => 9
    case 20 => 5
    case 21 => 14
    case 22 => 3
    case 23 => 10
    case 24 => 13
    case _ => 24
  }

  lemma CycleLanesLow()
    ensures Cycle(0) == 1 && Cycle(1) == 6 && Cycle(2) == 9 && Cycle(3) == 22 && Cycle(4) == 14 && Cycle(5) == 20
    ensures Cycle(6) == 2 && Cycle(7) == 12 && Cycle(8) == 13 && Cycle(9) == 19 && Cycle(10) == 23 && Cycle(11) == 15
  {
  }

  lemma CycleLanesHigh()
    ensures Cycle(12) == 4 && Cycle(13) == 24 && Cycle(14) == 21 && Cycle(15) == 8 && Cycle(16) == 16 && Cycle(17) == 5
    ensures Cycle(18) == 3 && Cycle(19) == 18 && Cycle(20) == 17 && Cycle(21) == 11 && Cycle(22) == 7 && Cycle(23) == 10
  {
  }

  lemma CycleLanes()
    ensures Cycle(0) == 1 && Cycle(1) == 6 && Cycle(2) == 9 && Cycle(3) == 22 && Cycle(4) == 14 && Cycle(5) == 20
    ensures Cycle(6) == 2 && Cycle(7) == 12 && Cycle(8) == 13 && Cycle(9) == 19 && Cycle(10) == 23 && Cycle(11) == 15
    ensures Cycle(12) == 4 && Cycle(13) == 24 && Cycle(14) == 21 && Cycle(15) == 8 && Cycle(16) == 16 && Cycle(17) == 5
    ensures Cycle(18) == 3 && Cycle(19) == 18 && Cycle(20) == 17 && Cycle(21) == 11 && Cycle(22) == 7 && Cycle(23) == 10
  {
    hide Cycle;
    CycleLanesLow();
    CycleLanesHigh();
  }

  lemma CyclePlacesLow()
    ensures Place(0) == 24 && Place(1) == 0 && Place(2) == 6 && Place(3) == 18 && Place(4) == 12 && Place(5) == 17
    ensures Place(6) == 1 && Place(7) == 22 && Place(8) == 15 && Place(9) == 2 && Place(10) == 23 && Place(11) == 21
    ensures Place(12) == 7
  {
  }

  lemma CyclePlacesHigh()
    ensures Place(13) == 8 && Place(14) == 4 && Place(15) == 11 && Place(16) == 16 && Place(17) == 20 && Place(18) == 19
    ensures Place(19) == 9 && Place(20) == 5 && Place(21) == 14 && Place(22) == 3 && Place(23) == 10 && Place(24) == 13
  {
  }

  lemma CyclePlaces()
    ensures Place(0) == 24 && Place(1) == 0 && Place(2) == 6 && Place(3) == 18 && Place(4) == 12 && Place(5) == 17
    ensures Place(6) == 1 && Place(7) == 22 && Place(8) == 15 && Place(9) == 2 && Place(10) == 23 && Place(11) == 21
    ensures Place(12) == 7 && Place(13) == 8 && Place(14) == 4 && Place(15) == 11 && Place(16) == 16 && Place(17) == 20
    ensures Place(18) == 19 && Place(19) == 9 && Place(20) == 5 && Place(21) == 14 && Place(22) == 3 && Place(23) == 10
    ensures Place(24) == 13
  {
    hide Place;
    CyclePlacesLow();
    CyclePlacesHigh();
  }

  /** The source of a lane by its coordinates. */
  lemma SourceAt(x: nat, y: nat)
    requires x < 5 && y < 5
    ensures Source(x + 5 * y) == (x + 3 * y) % 5 + 5 * x
  {
    var i := x + 5 * y;
    assert i / 5 == y && i % 5 == x;
  }

  lemma PlaneSources(y: nat)
    requires y < 5
    ensures Source(0 + 5 * y) == (0 + 3 * y) % 5 && Source(1 + 5 * y) == (1 + 3 * y) % 5 + 5
    ensures Source(2 + 5 * y) == (2 + 3 * y) % 5 + 10 && Source(3 + 5 * y) == (3 + 3 * y) % 5 + 15
    ensures Source(4 + 5 * y) == (4 + 3 * y) % 5 + 20
  {
    hide Source;
    SourceAt(0, y);
    SourceAt(1, y);
    SourceAt(2, y);
    SourceAt(3, y);
    SourceAt(4, y);
  }

  /** The sources, lane by lane. */
  function SourceOf(i: nat): nat {
    match i
    case 0 => 0
    case 1 => 6
    case 2 => 12
    case 3 => 18
    case 4 => 24
    case 5 => 3
    case 6 => 9
    case 7 => 10
    case 8 => 16
    case 9 => 22
    case 10 => 1
    case 11 => 7
    case 12 => 13
    case 13 => 19
    case 14 => 20
    case 15 => 4
    case 16 => 5
    case 17 => 11
    case 18 => 17
    case 19 => 23
    case 20 => 2
    case 21 => 8
    case 22 => 14
    case 23 => 15
    case _ => 21
  }

  lemma CycleSources(i: nat)
    requires i < 25
    ensures Source(i) == SourceOf(i)
  {
    hide Source;
    PlaneSources(0);
    PlaneSources(1);
    PlaneSources(2);
    PlaneSources(3);
    PlaneSources(4);
  }

  lemma CycleRow(k: nat)
    requires k < 24
    ensures 0 < Cycle(k) < 25 && Place(Cycle(k)) == k
    ensures Source(Cycle(k)) == if k < 23 then Cycle(k + 1) else Cycle(0)
  {
    hide Cycle, Place, Source;
    CycleLanes();
    CyclePlaces();
    CycleSources(Cycle(k));
  }

  lemma PlaceInverts(i: nat)
    requires 0 < i < 25
    ensures Place(i) < 24 && Cycle(Place(i)) == i
  {
    hide Cycle, Place, Source;
    CycleLanes();
    CyclePlaces();
  }

  /** The first `k` lanes of the cycle moved, the others not yet. */
  ghost function PiUpTo(s: Lanes, k: nat): Lanes {
    seq(25, i requires 0 <= i < 25 => if Place(i) < k then s[Source(i)] else s[i])
  }

  lemma PiNext(s: Lanes, k: nat)
    requires k < 23
    ensures Cycle(k) < 25 && Cycle(k + 1) < 25 && Move(PiUpTo(s, k), Cycle(k), Cycle(k + 1)) == PiUpTo(s, k + 1)
  {
    hide Cycle, Place, Source;
    CycleRow(k);
    CycleRow(k + 1);
    OnlyOnePlace();
  }

  lemma OnlyOnePlace()
    ensures forall i: nat :: 0 < i < 25 ==> Place(i) < 24 && Cycle(Place(i)) == i
    ensures Place(0) == 24 && Source(0) == 0
  {
    hide Cycle, Source;
    CycleSources(0);
    forall i: nat | 0 < i < 25 ensures Place(i) < 24 && Cycle(Place(i)) == i {
      PlaceInverts(i);
    }
  }

  lemma PiStart(s: Lanes)
    ensures PiUpTo(s, 0) == s
  {
    hide Source, Place;
  }

  lemma PiEnd(s: Lanes)
    ensures PiUpTo(s, 23)[10 := s[1]] == Pi(s)
  {
    hide Cycle, Place, Source;
    CycleLanes();
    CycleRow(23);
    OnlyOnePlace();
  }

  /** The moves along the cycle, one after the other. */
  function Moves(s: Lanes): Lanes {
    var r1 := Move(s, 1, 6);
    var r2 := Move(r1, 6, 9);
    var r3 := Move(r2, 9, 22);
    var r4 := Move(r3, 22, 14);
    var r5 := Move(r4, 14, 20);
    var r6 := Move(r5, 20, 2);
    var r7 := Move(r6, 2, 12);
    var r8 := Move(r7, 12, 13);
    var r9 := Move(r8, 13, 19);
    var r10 := Move(r9, 19, 23);
    var r11 := Move(r10, 23, 15);
    var r12 := Move(r11, 15, 4);
    var r13 := Move(r12, 4, 24);
    var r14 := Move(r13, 24, 21);
    var r15 := Move(r14, 21, 8);
    var r16 := Move(r15, 8, 16);
    var r17 := Move(r16, 16, 5);
    var r18 := Move(r17, 5, 3);
    var r19 := Move(r18, 3, 18);
    var r20 := Move(r19, 18, 17);
    var r21 := Move(r20, 17, 11);
    var r22 := Move(r21, 11, 7);
    var r23 := Move(r22, 7, 10);
    r23
  }

  lemma MovesArePi(s: Lanes)
    ensures Moves(s)[10 := s[1]] == Pi(s)
  {
    hide Move, PiUpTo, Pi, Cycle;
    PiStart(s);
    PiEnd(s);
    CycleLanes();
    PiNext(s, 0);
    PiNext(s, 1);
    PiNext(s, 2);
    PiNext(s, 3);
    PiNext(s, 4);
    PiNext(s, 5);
    PiNext(s, 6);
    PiNext(s, 7);
    PiNext(s, 8);
    PiNext(s, 9);
    PiNext(s, 10);
    PiNext(s, 11);
    PiNext(s, 12);
    PiNext(s, 13);
    PiNext(s, 14);
    PiNext(s, 15);
    PiNext(s, 16);
    PiNext(s, 17);
    PiNext(s, 18);
    PiNext(s, 19);
    PiNext(s, 20);
    PiNext(s, 21);
    PiNext(s, 22);
  }

  /** Replaces the five lanes from `i` on. */
  function Plane(s: Lanes, i: nat, v0: Lane, v1: Lane, v2: Lane, v3: Lane, v4: Lane): Lanes
    requires i <= 20
  {
    s[i := v0][i + 1 := v1][i + 2 := v2][i + 3 := v3][i + 4 := v4]
  }

  lemma PlaneAt(s: Lanes, i: nat, v0: Lane, v1: Lane, v2: Lane, v3: Lane, v4: Lane, k: nat)
    requires i <= 20 && k < 25
    ensures var t := Plane(s, i, v0, v1, v2, v3, v4);
            t[k] == if k == i then v0 else if k == i + 1 then v1 else if k == i + 2 then v2
                    else if k == i + 3 then v3 else if k == i + 4 then v4 else s[k]
  {
  }

  /** The chi step on the plane of five lanes from `i` on. */
  function ChiPlane(s: Lanes, i: nat): Lanes
    requires i <= 20
  {
    hide ChiOf;
    Plane(s, i, ChiOf(s[i], s[i + 1], s[i + 2]), ChiOf(s[i + 1], s[i + 2], s[i + 3]), ChiOf(s[i + 2], s[i + 3], s[i + 4]),
          ChiOf(s[i + 3], s[i + 4], s[i]), ChiOf(s[i + 4], s[i], s[i + 1]))
  }

  method ChiStep(a: array<Lane>, i: nat)
    requires a.Length == 25 && i <= 20
    modifies a
    ensures a[..] == ChiPlane(old(a[..]), i)
  {
    hide ChiOf;
    ghost var s := a[..];
    var a0, a1 := a[0 + i], a[1 + i];
    a[0 + i] := ChiOf(a[0 + i], a1, a[2 + i]);
    a[1 + i] := ChiOf(a[1 + i], a[2 + i], a[3 + i]);
    a[2 + i] := ChiOf(a[2 + i], a[3 + i], a[4 + i]);
    a[3 + i] := ChiOf(a[3 + i], a[4 + i], a0);
    a[4 + i] := ChiOf(a[4 + i], a0, a1);
  }

  /** The first `y` planes done, the others not yet. */
  ghost function ChiUpTo(s: Lanes, y: nat): Lanes {
    seq(25, i requires 0 <= i < 25 => if i < 5 * y then ChiLane(s, i) else s[i])
  }

  lemma RowOf(y: nat, x: nat)
    requires x < 5
    ensures (5 * y + x) / 5 == y && (5 * y + x) % 5 == x
  {
  }

  lemma ChiLaneAt(s: Lanes, y: nat, x: nat)
    requires x < 5 && y < 5
    ensures var next, second := if x == 4 then 0 else x + 1, if x >= 3 then x - 3 else x + 2;
            ChiLane(s, 5 * y + x) == ChiOf(s[5 * y + x], s[5 * y + next], s[5 * y + second])
  {
    hide ChiOf;
    RowOf(y, x);
  }

  lemma ChiLanes(s: Lanes, y: nat)
    requires y < 5
    ensures var i := 5 * y;
            && ChiLane(s, i) == ChiOf(s[i], s[i + 1], s[i + 2])
            && ChiLane(s, i + 1) == ChiOf(s[i + 1], s[i + 2], s[i + 3])
            && ChiLane(s, i + 2) == ChiOf(s[i + 2], s[i + 3], s[i + 4])
            && ChiLane(s, i + 3) == ChiOf(s[i + 3], s[i + 4], s[i])
            && ChiLane(s, i + 4) == ChiOf(s[i + 4], s[i], s[i + 1])
  {
    hide ChiOf, ChiLane;
    ChiLaneAt(s, y, 0);
    ChiLaneAt(s, y, 1);
    ChiLaneAt(s, y, 2);
    ChiLaneAt(s, y, 3);
    ChiLaneAt(s, y, 4);
  }

  lemma ChiNext(s: Lanes, y: nat)
    requires y < 5
    ensures ChiPlane(ChiUpTo(s, y), 5 * y) == ChiUpTo(s, y + 1)
  {
    hide ChiOf, ChiLane, Plane;
    ChiLanes(s, y);
    var t, i := ChiUpTo(s, y), 5 * y;
    assert t[i] == s[i] && t[i + 1] == s[i + 1] && t[i + 2] == s[i + 2] && t[i + 3] == s[i + 3] && t[i + 4] == s[i + 4];
    forall k: nat | k < 25 ensures ChiPlane(t, i)[k] == ChiUpTo(s, y + 1)[k] {
      PlaneAt(t, i, ChiOf(t[i], t[i + 1], t[i + 2]), ChiOf(t[i + 1], t[i + 2], t[i + 3]),
              ChiOf(t[i + 2], t[i + 3], t[i + 4]), ChiOf(t[i + 3], t[i + 4], t[i]), ChiOf(t[i + 4], t[i], t[i + 1]), k);
    }
  }

  lemma ChiEnds(s: Lanes)
    ensures ChiUpTo(s, 0) == s && ChiUpTo(s, 5) == Chi(s)
  {
    hide ChiLane;
  }

  method ChiOnArray(a: array<Lane>)
    requires a.Length == 25
    modifies a
    ensures a[..] == Chi(old(a[..]))
  {
    hide ChiPlane, ChiUpTo, Chi;
    ghost var s := a[..];
    ChiEnds(s);
    ChiStep(a, 0);
    ChiNext(s, 0);
    ChiStep(a, 5);
    ChiNext(s, 1);
    ChiStep(a, 10);
    ChiNext(s, 2);
    ChiStep(a, 15);
    ChiNext(s, 3);
    ChiStep(a, 20);
    ChiNext(s, 4);
  }

  /** The 24 rounds. */
  method PermuteOnArray(a: array<Lane>)
    requires a.Length == 25
    modifies a
    ensures a[..] == Permute(old(a[..]))
  {
    hide Xor, Theta, Rho, Pi, Chi, Constant, RoundConstant;
    ghost var s := a[..];
    var round := 0;
    while round < 24
      invariant round <= 24 && a[..] == Rounds(s, round)
    {
      ThetaOnArray(a);
      RhoOnArray(a);
      PiOnArray(a);
      ChiOnArray(a);
      ConstantsFollowRegister(round);
      ghost var t := a[..];
      a[0] := Xor(a[0], Constant(round));
      assert a[..] == Iota(t, RoundConstant(round));
      round := round + 1;
    }
  }
}
