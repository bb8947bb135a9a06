/** Backgammon moves as lists of steps between points, and what a move does to
    the position.  Points count from 1; 25 is the bar and 0 is off the board. */
module Moves {

  const OFF: int := 0
  const BAR: int := 25

  datatype Step = Step(from: int, to: int)

  ghost predicate ValidStep(s: Step) {
    OFF <= s.to < s.from <= BAR
  }

  ghost predicate ValidMove(m: seq<Step>) {
    |m| <= 4 && forall s :: s in m ==> ValidStep(s)
  }

  /** The opponent's chequers as the source keeps them: 25 points, counted from
      the other side. */
  type Opponent = o: seq<nat> | |o| == 25 ghost witness seq(25, _ => 0)

  /** A chequer landing here hits. */
  predicate Occupied(opp: Opponent, point: int) {
    1 <= point <= 24 && opp[24 - point] > 0
  }

  /** Departures from a point minus arrivals at it. */
  function Net(m: seq<Step>, point: int): int {
    if m == [] then 0
    else (if m[0].from == point then 1 else 0) - (if m[0].to == point then 1 else 0) + Net(m[1..], point)
  }

  /** The opponent's points that the move lands on. */
  ghost function Hits(opp: Opponent, m: seq<Step>): set<int> {
    set i | 0 <= i < |m| && Occupied(opp, m[i].to) :: m[i].to
  }

  lemma {:induction false} NetConcat(a: seq<Step>, b: seq<Step>, point: int)
    ensures Net(a + b, point) == Net(a, point) + Net(b, point)
  {
    if a == [] {
      assert a + b == b;
    } else {
      assert (a + b)[1..] == a[1..] + b;
      NetConcat(a[1..], b, point);
    }
  }

  lemma HitsConcat(opp: Opponent, a: seq<Step>, b: seq<Step>)
    ensures Hits(opp, a + b) == Hits(opp, a) + Hits(opp, b)
  {
    var ab := a + b;
    forall p | p in Hits(opp, a) + Hits(opp, b)
      ensures p in Hits(opp, ab)
    {
      if p in Hits(opp, a) {
        var i :| 0 <= i < |a| && Occupied(opp, a[i].to) && a[i].to == p;
        assert ab[i] == a[i];
      } else {
        var i :| 0 <= i < |b| && Occupied(opp, b[i].to) && b[i].to == p;
        assert ab[|a| + i] == b[i];
      }
    }
  }

  // ----- The order of steps

  /** The comparison of the source: higher sources first, then higher
      destinations. */
  predicate NotAfter(a: Step, b: Step) {
    a.from > b.from || (a.from == b.from && a.to >= b.to)
  }

  ghost predicate Sorted(m: seq<Step>) {
    forall i, j :: 0 <= i < j < |m| ==> NotAfter(m[i], m[j])
  }

  function Insert(s: Step, m: seq<Step>): (r: seq<Step>)
    ensures |r| == |m| + 1
  {
    if m == [] || NotAfter(s, m[0]) then [s] + m else [m[0]] + Insert(s, m[1..])
  }

  function Sort(m: seq<Step>): (r: seq<Step>)
    ensures |r| == |m|
  {
    if m == [] then [] else Insert(m[0], Sort(m[1..]))
  }

  lemma {:induction false} InsertSorted(s: Step, m: seq<Step>)
    requires Sorted(m)
    ensures Sorted(Insert(s, m)) && multiset(Insert(s, m)) == multiset{s} + multiset(m)
  {
    if m != [] && !NotAfter(s, m[0]) {
      InsertSorted(s, m[1..]);
      assert m == [m[0]] + m[1..];
      forall x | x in Insert(s, m[1..])
        ensures NotAfter(m[0], x)
      {
        assert x in multiset(Insert(s, m[1..]));
        assert x == s || x in m[1..];
      }
    } else {
      assert forall i :: 0 <= i < |m| ==> m[0] == m[i] || NotAfter(m[0], m[i]);
    }
  }

  /** Sorting gives the sorted permutation. */
  lemma {:induction false} SortSorts(m: seq<Step>)
    ensures Sorted(Sort(m)) && multiset(Sort(m)) == multiset(m)
  {
    if m != [] {
      SortSorts(m[1..]);
      InsertSorted(m[0], Sort(m[1..]));
      assert m == [m[0]] + m[1..];
    }
  }

  /** There is only one sorted permutation, so any library sort returns it. */
  lemma {:induction false} SortUnique(a: seq<Step>, b: seq<Step>)
    requires Sorted(a) && Sorted(b) && multiset(a) == multiset(b)
    ensures a == b
  {
    assert |a| == |multiset(a)| == |b|;
    if a != [] {
      assert a[0] in multiset(b) && b[0] in multiset(a);
      assert a[0] == b[0];
      assert a == [a[0]] + a[1..] && b == [b[0]] + b[1..];
      assert multiset(a[1..]) == multiset(a) - multiset{a[0]};
      assert multiset(b[1..]) == multiset(b) - multiset{b[0]};
      SortUnique(a[1..], b[1..]);
    }
  }

  /** Sorting changes neither the net effect nor the hits. */
  lemma {:induction false} SortKeeps(opp: Opponent, m: seq<Step>, point: int)
    ensures Net(Sort(m), point) == Net(m, point)
    ensures Hits(opp, Sort(m)) == Hits(opp, m)
  {
    if m != [] {
      SortKeeps(opp, m[1..], point);
      InsertKeeps(opp, m[0], Sort(m[1..]), point);
      HitsConcat(opp, [m[0]], m[1..]);
      assert m == [m[0]] + m[1..];
    }
  }

  lemma {:induction false} InsertKeeps(opp: Opponent, s: Step, m: seq<Step>, point: int)
    ensures Net(Insert(s, m), point) == Net([s] + m, point)
    ensures Hits(opp, Insert(s, m)) == Hits(opp, [s]) + Hits(opp, m)
  {
    HitsConcat(opp, [s], m);
    if m != [] && !NotAfter(s, m[0]) {
      InsertKeeps(opp, s, m[1..], point);
      assert m == [m[0]] + m[1..] && ([s] + m)[1..] == m && ([s] + m[1..])[1..] == m[1..];
      assert Insert(s, m)[1..] == Insert(s, m[1..]);
      HitsConcat(opp, [m[0]], m[1..]);
      HitsConcat(opp, [m[0]], Insert(s, m[1..]));
    }
  }

  lemma {:induction false} SortMembers(m: seq<Step>)
    ensures forall s :: s in Sort(m) <==> s in m
  {
    SortSorts(m);
    forall s
      ensures s in Sort(m) <==> s in m
    {
      assert s in Sort(m) <==> s in multiset(Sort(m));
      assert s in m <==> s in multiset(m);
    }
  }
}
