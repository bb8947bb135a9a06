/** The gammon and backgammon tables (gnubg/bearoffgammon.c) are indexed by the
    rank of the chequers on the occupied points.  Every lookup is in range, and
    each table has exactly one entry for each position. */
module BearoffGammon {
  import opened Combinatorics
  import opened PositionId
  import opened Bearoff

  // ----- Groups of occupied points

  /** The number with bit i set when point i is occupied. */
  function GroupOf(b: Board): nat {
    if b == [] then 0 else (if b[0] > 0 then 1 else 0) + 2 * GroupOf(b[1..])
  }

  predicate Bit(group: nat, k: nat) {
    if k == 0 then group % 2 == 1 else Bit(group / 2, k - 1)
  }

  lemma {:induction false} GroupBit(b: Board, k: nat)
    requires k < |b|
    ensures Bit(GroupOf(b), k) <==> b[k] > 0
  {
    if k > 0 {
      GroupBit(b[1..], k - 1);
    }
  }

  /** Occupied points, one chequer lifted off each. */
  function Squash(b: Board): Board {
    if b == [] then []
    else if b[0] > 0 then [b[0] - 1] + Squash(b[1..])
    else Squash(b[1..])
  }

  lemma {:induction false} SquashSnoc(b: Board, v: nat)
    ensures Squash(b + [v]) == Squash(b) + if v > 0 then [v - 1] else []
  {
    if b == [] {
      assert b + [v] == [v] && [v][1..] == [];
    } else {
      assert (b + [v])[1..] == b[1..] + [v];
      SquashSnoc(b[1..], v);
    }
  }

  lemma {:induction false} SquashSum(b: Board)
    ensures Sum(Squash(b)) + |Squash(b)| == Sum(b)
    ensures |Squash(b)| <= |b|
  {
    if b != [] {
      SquashSum(b[1..]);
      if b[0] > 0 {
        assert Squash(b)[1..] == Squash(b[1..]);
      }
    }
  }

  /** Boards of one group differ on their occupied points. */
  lemma {:induction false} SquashInjective(a: Board, b: Board)
    requires |a| == |b| && GroupOf(a) == GroupOf(b) && Squash(a) == Squash(b)
    ensures a == b
  {
    if a != [] {
      assert a[0] > 0 <==> b[0] > 0;
      if a[0] > 0 {
        assert Squash(a)[1..] == Squash(a[1..]) && Squash(b)[1..] == Squash(b[1..]);
        assert Squash(a)[0] == a[0] - 1 && Squash(b)[0] == b[0] - 1;
      }
      SquashInjective(a[1..], b[1..]);
      assert a == [a[0]] + a[1..] && b == [b[0]] + b[1..];
    }
  }

  /** How many points a group has among the first n. */
  function GroupSize(group: nat, n: nat): nat {
    if n == 0 then 0 else (if group % 2 == 1 then 1 else 0) + GroupSize(group / 2, n - 1)
  }

  lemma {:induction false} GroupSizeIs(b: Board)
    ensures |Squash(b)| == GroupSize(GroupOf(b), |b|)
  {
    if b != [] {
      var rest := GroupOf(b[1..]);
      GroupSizeIs(b[1..]);
      assert GroupOf(b) % 2 == (if b[0] > 0 then 1 else 0) && GroupOf(b) / 2 == rest;
    }
  }

  /** Puts the chequers back on the points of a group. */
  lemma {:induction false} Unsquash(s: Board, group: nat, n: nat) returns (b: Board)
    requires |s| == GroupSize(group, n) && group < Power2(n)
    ensures |b| == n && GroupOf(b) == group && Squash(b) == s
  {
    if n == 0 {
      b := [];
    } else if group % 2 == 1 {
      var rest := Unsquash(s[1..], group / 2, n - 1);
      b := [s[0] + 1] + rest;
      assert b[1..] == rest;
    } else {
      var rest := Unsquash(s, group / 2, n - 1);
      b := [0] + rest;
      assert b[1..] == rest;
    }
  }

  // ----- All 15 chequers

  /** With 15 chequers on g points, the index is C(14, g) plus the rank of the
      points after the first. */
  lemma FullIndex(s: Board)
    requires s != [] && Sum(s) + |s| == CHEQUERS
    ensures Rank(s) == Choose(CHEQUERS - 1, |s|) + Rank(s[1..])
    ensures Rank(s[1..]) < Choose(CHEQUERS - 1, |s| - 1)
  {
    RankRange(s[1..], CHEQUERS - |s|);
  }

  /** What the info table gives as the base and the size for g occupied points. */
  function InfoBase(g: nat): nat {
    if g == 2 then 91 else if g == 3 then 364 else if g == 4 then 1001 else 2002
  }

  function InfoSize(g: nat): nat {
    if g == 2 then 14 else if g == 3 then 91 else if g == 4 then 364 else 1001
  }

  lemma InfoConstants(g: nat)
    requires 2 <= g <= 5
    ensures InfoBase(g) == Choose(CHEQUERS - 1, g) && InfoSize(g) == Choose(CHEQUERS - 1, g - 1)
  {
    var n := CHEQUERS - 1;
    ChooseOne(n);
    if g == 2 {
      ChooseTwo(n);
    } else if g == 3 {
      ChooseTwo(n);
      ChooseThree(n);
    } else if g == 4 {
      ChooseThree(n);
      ChooseFour(n);
    } else {
      ChooseFour(n);
      ChooseThree(n - 1);
      ChooseAbsorb(n - 1, 4);
      ChooseAbsorb(n, 5);
    }
  }

  lemma ChooseTwo(n: nat)
    requires n >= 2
    ensures 2 * Choose(n, 2) == n * (n - 1)
  {
    ChooseOne(n - 1);
    ChooseAbsorb(n, 2);
  }

  lemma Regroup(k: nat, n: nat, a: nat)
    ensures k * (n * a) == n * (k * a)
  {
  }

  lemma ChooseThree(n: nat)
    requires n >= 3
    ensures 6 * Choose(n, 3) == n * ((n - 1) * (n - 2))
  {
    ChooseTwo(n - 1);
    ChooseAbsorb(n, 3);
    Regroup(2, n, Choose(n - 1, 2));
  }

  lemma ChooseFour(n: nat)
    requires n >= 4
    ensures 24 * Choose(n, 4) == n * ((n - 1) * ((n - 2) * (n - 3)))
  {
    ChooseThree(n - 1);
    ChooseAbsorb(n, 4);
    Regroup(6, n, Choose(n - 1, 3));
  }

  /** The groups that have a table of their own; the others have one answer for
      all their positions. */
  predicate HasTable(group: nat) {
    9 <= group <= 11 || 17 <= group <= 23 || 25 <= group <= 27 || 33 <= group <= 55
  }

  lemma TablesHave2To5Points(group: nat)
    requires HasTable(group)
    ensures 2 <= GroupSize(group, POINTS) <= 5
  {
  }

  /** Where the source looks for the answer. */
  datatype Lookup = Default(group: nat) | Entry(group: nat, offset: nat)

  ghost predicate FullHome(b: Home, group: nat) {
    Sum(b) == CHEQUERS && GroupOf(b) == group
  }

  ghost function Offset(b: Home): int {
    Rank(Squash(b)) - InfoBase(|Squash(b)|)
  }

  /** The offset of every position is inside its table. */
  lemma OffsetInRange(b: Home, group: nat)
    requires FullHome(b, group) && HasTable(group)
    ensures 0 <= Offset(b) < InfoSize(GroupSize(group, POINTS))
  {
    GroupSizeIs(b);
    SquashSum(b);
    TablesHave2To5Points(group);
    InfoConstants(|Squash(b)|);
    FullIndex(Squash(b));
  }

  /** Different positions of a group have different entries. */
  lemma OffsetInjective(a: Home, b: Home, group: nat)
    requires FullHome(a, group) && FullHome(b, group) && Offset(a) == Offset(b)
    ensures a == b
  {
    GroupSizeIs(a);
    GroupSizeIs(b);
    RankInjective(Squash(a), Squash(b));
    SquashInjective(a, b);
  }

  /** Every entry of a group's table belongs to a position. */
  lemma OffsetSurjective(group: nat, offset: nat) returns (b: Home)
    requires HasTable(group) && offset < InfoSize(GroupSize(group, POINTS))
    ensures FullHome(b, group) && Offset(b) == offset
  {
    var g := GroupSize(group, POINTS);
    TablesHave2To5Points(group);
    InfoConstants(g);
    var tail := RankSurjective(offset, g - 1, CHEQUERS - g);
    var s := [CHEQUERS - g - Sum(tail)] + tail;
    assert s[1..] == tail;
    FullIndex(s);
    assert group < Power2(POINTS) by {
      Power2Plus4(2);
    }
    var home := Unsquash(s, group, POINTS);
    SquashSum(home);
    b := home;
  }

  method GroupAndSquash(board: array<nat>, n: nat) returns (group: nat, grpSize: nat, b1: array<nat>, tot: nat)
    requires board.Length == 6 && n <= 6
    ensures fresh(b1) && b1.Length == 6 && grpSize <= 6
    ensures group == GroupOf(board[..n]) && tot == Sum(board[..n])
    ensures b1[..grpSize] == Squash(board[..n])
  {
    group, tot := CollectGroup(board, n);
    b1 := new nat[6](_ => 0);
    grpSize := 0;
    var k := 0;
    while k < n
      invariant 0 <= k <= n && grpSize <= k
      invariant b1[..grpSize] == Squash(board[..k])
    {
      GroupBit(board[..n], k);
      SquashSnoc(board[..k], board[k]);
      assert board[..k] + [board[k]] == board[..k + 1];
      if Bit(group, k) {
        b1[grpSize] := board[k] - 1;
        grpSize := grpSize + 1;
      }
      k := k + 1;
    }
  }

  /** Counts the group downwards from its highest point. */
  method CollectGroup(board: array<nat>, n: nat) returns (group: nat, tot: nat)
    requires board.Length == 6 && n <= 6
    ensures group == GroupOf(board[..n]) && tot == Sum(board[..n])
  {
    group, tot := 0, 0;
    var i: int := n - 1;
    while i >= 0
      invariant -1 <= i < n
      invariant group == Power2(i + 1) * GroupOf(board[i + 1..n]) && tot == Sum(board[i + 1..n])
    {
      assert board[i..n][1..] == board[i + 1..n];
      Carry(i, GroupOf(board[i + 1..n]), if board[i] > 0 then 1 else 0);
      if board[i] > 0 {
        group := group + Power2(i);
      }
      tot := tot + board[i];
      i := i - 1;
    }
    assert board[0..n] == board[..n];
  }

  lemma Carry(i: nat, high: nat, low: nat)
    ensures Power2(i) * (low + 2 * high) == Power2(i + 1) * high + Power2(i) * low
  {
    var p := Power2(i);
    assert p * (low + 2 * high) == p * low + p * (2 * high);
    assert p * (2 * high) == (2 * p) * high;
  }

  /** The lookup of gammon probabilities.  Its assertions hold: the group is not
      empty, and the entry is inside the table. */
  method GetBearoffGammonProbs(board: array<nat>) returns (r: Lookup)
    requires board.Length == 6 && Sum(board[..]) == CHEQUERS
    ensures r.group == GroupOf(board[..]) > 0
    ensures r.Entry? <==> HasTable(r.group)
    ensures r.Entry? ==> r.offset == Offset(board[..]) < InfoSize(GroupSize(r.group, POINTS))
  {
    var group, grpSize, b1, tot := GroupAndSquash(board, 6);
    assert board[..6] == board[..];
    NonemptyGroup(board[..]);
    if !HasTable(group) {
      return Default(group);
    }
    OffsetInRange(board[..], group);
    SquashSum(board[..]);
    var index := PositionIndex(grpSize, b1);
    r := Entry(group, index - InfoBase(grpSize));
  }

  lemma {:induction false} NonemptyGroup(b: Board)
    ensures Sum(b) > 0 <==> GroupOf(b) > 0
    ensures Sum(b) > 0 <==> Squash(b) != []
  {
    if b != [] {
      NonemptyGroup(b[1..]);
    }
  }

  // ----- Races with up to six chequers left

  /** The length of the race table for a group of g of the five points. */
  function RaceLength(g: nat): nat {
    if g == 1 || g == 5 then 6 else if g == 3 then 20 else 15
  }

  lemma RaceConstants(g: nat, n: nat)
    requires 1 <= g <= 5 && n == 6
    ensures RaceLength(g) == Choose(n, g)
  {
    ChooseOne(n); ChooseOne(n - 1); ChooseOne(n - 2); ChooseOne(n - 3); ChooseOne(n - 4);
    ChooseAbsorb(n, 2); ChooseAbsorb(n, 3); ChooseAbsorb(n, 4); ChooseAbsorb(n, 5);
    ChooseAbsorb(n - 1, 2); ChooseAbsorb(n - 1, 3); ChooseAbsorb(n - 1, 4);
    ChooseAbsorb(n - 2, 2); ChooseAbsorb(n - 2, 3);
    ChooseAbsorb(n - 3, 2);
  }

  /** The boards of five points that have a race table entry. */
  ghost predicate Race(b: Board, group: nat) {
    |b| == 5 && 1 <= Sum(b) <= 6 && GroupOf(b) == group
  }

  lemma RaceIndexInRange(b: Board, group: nat)
    requires Race(b, group)
    ensures 1 <= GroupSize(group, 5) <= 5
    ensures Rank(Squash(b)) < RaceLength(GroupSize(group, 5))
  {
    GroupSizeIs(b);
    SquashSum(b);
    NonemptyGroup(b);
    var n := 6;
    RankRange(Squash(b), n - |Squash(b)|);
    RaceConstants(|Squash(b)|, n);
  }

  /** The positions of a group and the entries of its race table correspond. */
  lemma RaceIndexInjective(a: Board, b: Board, group: nat)
    requires Race(a, group) && Race(b, group) && Rank(Squash(a)) == Rank(Squash(b))
    ensures a == b
  {
    GroupSizeIs(a);
    GroupSizeIs(b);
    RankInjective(Squash(a), Squash(b));
    SquashInjective(a, b);
  }

  lemma RaceIndexSurjective(group: nat, index: nat) returns (b: Board)
    requires 0 < group < 32 && 1 <= GroupSize(group, 5) <= 5 && index < RaceLength(GroupSize(group, 5))
    ensures Race(b, group) && Rank(Squash(b)) == index
  {
    var g, n := GroupSize(group, 5), 6;
    RaceConstants(g, n);
    var s := RankSurjective(index, g, n - g);
    b := Unsquash(s, group, 5);
    SquashSum(b);
  }

  /** The lookup of race backgammon probabilities, or nothing for more than six
      chequers. */
  method GetRaceBGprobs(board: array<nat>) returns (found: bool, group: nat, index: nat)
    requires board.Length == 6 && board[5] == 0 && Sum(board[..5]) > 0
    ensures found <==> Sum(board[..5]) <= 6
    ensures group == GroupOf(board[..5]) && 0 < group < 32
    ensures found ==> index == Rank(Squash(board[..5])) < RaceLength(GroupSize(group, 5))
  {
    var grpSize, b1, tot;
    group, grpSize, b1, tot := GroupAndSquash(board, 5);
    NonemptyGroup(board[..5]);
    GroupBelow(board[..5]);
    assert Power2(5) == 32;
    index := 0;
    found := tot <= 6;
    if found {
      RaceIndexInRange(board[..5], group);
      SquashSum(board[..5]);
      index := PositionIndex(grpSize, b1);
    }
  }

  lemma {:induction false} GroupBelow(b: Board)
    ensures GroupOf(b) < Power2(|b|)
  {
    if b != [] {
      GroupBelow(b[1..]);
    }
  }
}
