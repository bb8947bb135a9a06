/** How long the text of a move can get (gnubg/drawboard.h, lines 31 to 34). */
module MoveLength {
  import opened Moves
  import opened MoveChains
  import opened MoveText

  // ----- The length of the text

  /** How many groups start on the bar. */
  function Bars(gs: seq<Group>): (n: nat)
    requires forall k :: 0 <= k < |gs| ==> gs[k].chain != []
    ensures n <= |gs|
  {
    if gs == [] then 0 else (if gs[0].chain[0] == BAR then 1 else 0) + Bars(gs[1..])
  }

  /** How many groups have intermediate points. */
  function Longs(gs: seq<Group>): nat {
    if gs == [] then 0 else (if |gs[0].chain| > 2 then 1 else 0) + Longs(gs[1..])
  }

  /** How many groups stand for more than one chequer. */
  function Repeats(gs: seq<Group>): nat {
    if gs == [] then 0 else (if gs[0].count > 1 then 1 else 0) + Repeats(gs[1..])
  }

  lemma {:induction false} MiddleLength(c: Chain, j: nat)
    requires ValidChain(c) && 1 <= j <= |c| - 1
    ensures |Middle(c, j)| <= 4 * (|c| - 1 - j)
    decreases |c| - j
  {
    if j < |c| - 1 {
      MiddleLength(c, j + 1);
    }
  }

  /** Each step takes at most 4 characters, and a group 2 or 3 to start with and
      3 for its count. */
  lemma GroupLength(opp: Opponent, g: Group, fl: set<int>)
    requires ValidGroup(g)
    ensures |GroupText(opp, g, fl)| <= 4 * (|g.chain| - 1) + (if g.chain[0] == BAR then 3 else 2)
                                       + (if g.count > 1 then 3 else 0)
  {
    MiddleLength(g.chain, 1);
  }

  /** What a group adds to the bound, with n steps for each of q chequers. */
  lemma GroupBound(n: nat, q: nat, text: nat, bar: nat)
    requires n >= 1 && q >= 1 && bar <= 1
    requires text <= 4 * n + 2 + bar + (if q > 1 then 3 else 0)
    ensures text + 1 <= 7 * (q * n) + bar - (if n > 1 then 3 else 0) - (if q > 1 then 4 else 0)
    ensures 1 + (if n > 1 then 1 else 0) + (if q > 1 then 1 else 0) <= q * n
  {
    if q > 1 {
      assert q * n == 2 * n + (q - 2) * n && (q - 2) * n >= 0;
    }
  }

  /** What a group adds to the bound. */
  lemma GroupShare(opp: Opponent, g: Group, fl: set<int>)
    requires ValidGroup(g)
    ensures var steps := |Repeat(Path(g.chain), g.count)|;
            && |GroupText(opp, g, fl)| + 1 <= 7 * steps + (if g.chain[0] == BAR then 1 else 0)
                                              - (if |g.chain| > 2 then 3 else 0) - (if g.count > 1 then 4 else 0)
            && 1 + (if |g.chain| > 2 then 1 else 0) + (if g.count > 1 then 1 else 0) <= steps
  {
    GroupLength(opp, g, fl);
    GroupBound(|g.chain| - 1, g.count, |GroupText(opp, g, fl)|, if g.chain[0] == BAR then 1 else 0);
    assert |Repeat(Path(g.chain), g.count)| == g.count * (|g.chain| - 1);
  }

  lemma TextOfRest(opp: Opponent, gs: seq<Group>, fl: set<int>)
    requires ValidGroups(gs) && gs != []
    ensures |Text(opp, gs, fl)| == |GroupText(opp, gs[0], fl)| + (if |gs| > 1 then 1 else 0)
                                   + |Text(opp, gs[1..], FlagsAfter(opp, gs[0].chain, fl))|
    ensures |gs| == 1 ==> Text(opp, gs[1..], FlagsAfter(opp, gs[0].chain, fl)) == ""
  {
  }

  /** One group and the rest, each within its bound, are within the bound. */
  lemma GroupAndRest(opp: Opponent, gs: seq<Group>, fl: set<int>)
    requires ValidGroups(gs) && |gs| > 1
    requires TextBound(|Text(opp, gs[1..], FlagsAfter(opp, gs[0].chain, fl))|, gs[1..])
    ensures TextBound(|Text(opp, gs, fl)|, gs)
  {
    GroupShare(opp, gs[0], fl);
    TextOfRest(opp, gs, fl);
    assert |Expand(gs)| == |Repeat(Path(gs[0].chain), gs[0].count)| + |Expand(gs[1..])|;
  }

  lemma OnlyGroup(opp: Opponent, gs: seq<Group>, fl: set<int>)
    requires ValidGroups(gs) && |gs| == 1
    ensures TextBound(|Text(opp, gs, fl)|, gs)
  {
    GroupShare(opp, gs[0], fl);
    TextOfRest(opp, gs, fl);
    assert Expand(gs[1..]) == [] && Bars(gs[1..]) == 0;
  }

  ghost predicate TextBound(text: nat, gs: seq<Group>)
    requires ValidGroups(gs)
  {
    && text + 1 <= 7 * |Expand(gs)| + Bars(gs) - 3 * Longs(gs) - 4 * Repeats(gs)
    && |gs| + Longs(gs) + Repeats(gs) <= |Expand(gs)|
  }

  lemma {:induction false} TextLength(opp: Opponent, gs: seq<Group>, fl: set<int>)
    requires ValidGroups(gs) && gs != []
    ensures TextBound(|Text(opp, gs, fl)|, gs)
  {
    if |gs| > 1 {
      TextLength(opp, gs[1..], FlagsAfter(opp, gs[0].chain, fl));
      GroupAndRest(opp, gs, fl);
    } else {
      OnlyGroup(opp, gs, fl);
    }
  }

  /** All steps from the bar go to one point, as they do when four steps use the
      same die. */
  ghost predicate OneEntry(m: seq<Step>) {
    forall s, t :: s in m && t in m && s.from == t.from == BAR ==> s == t
  }

  /** Nothing was joined when no step was elided and no chain got longer. */
  lemma {:induction false} NotJoined(opp: Opponent, c: Slots, i: nat)
    requires i <= 4 && Linked(c, i, i)
    requires |Paths(JoinAll(opp, c, i))| == |Paths(c)|
    requires forall k :: 0 <= k < 4 ==> |JoinAll(opp, c, i)[k]| <= 2
    ensures JoinAll(opp, c, i) == c
    decreases 4 - i
  {
    if i < 4 {
      var d := JoinRow(opp, c, i, i);
      JoinRowKeeps(opp, c, i, i);
      RowDone(d, i);
      JoinAllKeeps(opp, d, i + 1);
      NotJoined(opp, d, i + 1);
      NotJoinedRow(opp, c, i, i);
    }
  }

  lemma {:induction false} NotJoinedRow(opp: Opponent, c: Slots, i: nat, j: nat)
    requires i <= j <= 4 && i < 4 && Linked(c, i, j)
    requires |Paths(JoinRow(opp, c, i, j))| == |Paths(c)|
    requires |JoinRow(opp, c, i, j)[i]| <= 2
    ensures JoinRow(opp, c, i, j) == c
    decreases 4 - j
  {
    if j < 4 {
      var d := Join(opp, c, i, j);
      JoinLinked(opp, c, i, j);
      JoinKeeps(opp, c, i, j);
      JoinRowKeeps(opp, d, i, j + 1);
      RowGrows(opp, d, i, j + 1);
      JoinCosts(opp, c, i, j);
      NotJoinedRow(opp, d, i, j + 1);
    }
  }

  /** A join elides a step or lengthens its chain. */
  lemma JoinCosts(opp: Opponent, c: Slots, i: nat, j: nat)
    requires i <= j < 4 && Linked(c, i, j)
    ensures var d := Join(opp, c, i, j);
            d == c || |Paths(d)| < |Paths(c)| || |d[i]| > 2
  {
    var d := Join(opp, c, i, j);
    if d != c {
      NetUpdate(c, i, d[i], 0);
      NetUpdate(c[i := d[i]], j, [], 0);
    }
  }

  lemma {:induction false} RowGrows(opp: Opponent, c: Slots, i: nat, j: nat)
    requires j <= 4 && i < 4
    requires i < j
    ensures |JoinRow(opp, c, i, j)[i]| >= |c[i]|
    decreases 4 - j
  {
    if j < 4 {
      RowGrows(opp, Join(opp, c, i, j), i, j + 1);
    }
  }

  /** With single steps only, the groups that start on the bar are steps from the
      bar, so a move with one way in has at most one. */
  lemma {:induction false} OneBar(gs: seq<Group>, m: seq<Step>)
    requires OneEntry(m)
    requires forall k :: 0 <= k < |gs| ==> |gs[k].chain| == 2 && Step(gs[k].chain[0], gs[k].chain[1]) in m
    requires forall k, l :: 0 <= k < l < |gs| ==> gs[k].chain != gs[l].chain
    ensures Bars(gs) <= 1
  {
    if gs != [] {
      OneBar(gs[1..], m);
      if gs[0].chain[0] == BAR && Bars(gs[1..]) > 0 {
        var k := SomeBar(gs[1..]);
        SameBar(gs[0].chain, gs[k + 1].chain, m);
        assert false;
      }
    }
  }

  lemma SameBar(c: Chain, d: Chain, m: seq<Step>)
    requires OneEntry(m) && |c| == |d| == 2 && c[0] == d[0] == BAR
    requires Step(c[0], c[1]) in m && Step(d[0], d[1]) in m
    ensures c == d
  {
    assert Step(c[0], c[1]) == Step(d[0], d[1]);
  }

  lemma {:induction false} SomeBar(gs: seq<Group>) returns (k: nat)
    requires forall k :: 0 <= k < |gs| ==> |gs[k].chain| == 2
    requires Bars(gs) > 0
    ensures k < |gs| && gs[k].chain[0] == BAR
  {
    if gs[0].chain[0] == BAR {
      k := 0;
    } else {
      k := SomeBar(gs[1..]);
      k := k + 1;
    }
  }

  lemma {:induction false} NoLongs(gs: seq<Group>)
    requires Longs(gs) == 0 && forall k :: 0 <= k < |gs| ==> |gs[k].chain| >= 2
    ensures forall k :: 0 <= k < |gs| ==> |gs[k].chain| == 2
  {
    if gs != [] {
      NoLongs(gs[1..]);
      assert gs == [gs[0]] + gs[1..];
    }
  }

  lemma ShortSlots(d: Slots)
    requires Linked(d, 4, 4) && Longs(Groups(d)) == 0
    ensures forall k :: 0 <= k < 4 ==> |d[k]| <= 2
    ensures forall k :: 0 <= k < |Groups(d)| ==> |Groups(d)[k].chain| == 2
  {
    var gs := Groups(d);
    forall k | 0 <= k < |gs|
      ensures |gs[k].chain| >= 2
    {
      GroupsFrom(d, k);
    }
    NoLongs(gs);
    forall k | 0 <= k < 4
      ensures |d[k]| <= 2
    {
      if d[k] != [] {
        var l := GroupOfSlot(d, k);
      }
    }
  }

  lemma NothingJoined(opp: Opponent, c: Slots)
    requires Linked(c, 0, 0) && |Paths(Joined(opp, c))| == |Paths(c)|
    requires forall k :: 0 <= k < 4 ==> |Joined(opp, c)[k]| <= 2
    ensures Joined(opp, c) == c
  {
    assert Joined(opp, c) == JoinAll(opp, c, 0);
    NotJoined(opp, c, 0);
  }

  /** Single steps only, and none of them elided: the slots are the steps. */
  lemma SlotsAreSteps(opp: Opponent, m: seq<Step>)
    requires ValidMove(m)
    requires |Expand(GroupsOf(opp, m))| == |m| && Longs(GroupsOf(opp, m)) == 0
    ensures SlotsOf(opp, m) == Singles(Sort(m))
    ensures forall k :: 0 <= k < |GroupsOf(opp, m)| ==> |GroupsOf(opp, m)[k].chain| == 2
  {
    var c, d := Singles(Sort(m)), SlotsOf(opp, m);
    SlotsOfMove(opp, m);
    GroupsKeep(opp, d);
    ShortSlots(d);
    SortMembers(m);
    SortSorts(m);
    SinglesLinked(Sort(m));
    NothingJoined(opp, c);
  }

  /** In that case at most one group starts on the bar when there is one way in. */
  lemma FourSingles(opp: Opponent, m: seq<Step>)
    requires ValidMove(m) && OneEntry(m)
    requires |Expand(GroupsOf(opp, m))| == |m| && Longs(GroupsOf(opp, m)) == 0
    ensures forall k :: 0 <= k < |GroupsOf(opp, m)| ==> GroupsOf(opp, m)[k].chain != []
    ensures Bars(GroupsOf(opp, m)) <= 1
  {
    var c, gs := Singles(Sort(m)), GroupsOf(opp, m);
    SlotsAreSteps(opp, m);
    SortMembers(m);
    forall k | 0 <= k < |gs|
      ensures Step(gs[k].chain[0], gs[k].chain[1]) in m
      ensures forall l :: k < l < |gs| ==> gs[k].chain != gs[l].chain
    {
      GroupsFrom(c, k);
      var i :| 0 <= i < 4 && c[i] == gs[k].chain;
      assert Sort(m)[i] in Sort(m);
    }
    OneBar(gs, m);
  }

  lemma {:induction false} GroupOfSlot(c: seq<Chain>, i: nat) returns (k: nat)
    requires i < |c| && c[i] != []
    ensures k < |Groups(c)| && Groups(c)[k].chain == c[i]
    decreases |c|
  {
    if i == 0 {
      k := 0;
    } else if c[0] == [] {
      k := GroupOfSlot(c[1..], i - 1);
    } else if c[i] == c[0] {
      k := 0;
    } else {
      k := GroupOfSlot(Erase(c[1..], c[0]), i - 1);
      k := k + 1;
    }
  }

  /** The text has at most 31 characters, and at most 28 when the steps from the bar
      share their destination. */
  lemma LengthBounds(opp: Opponent, m: seq<Step>)
    requires ValidMove(m)
    ensures |MoveString(opp, m)| <= 31
    ensures |m| < 4 || OneEntry(m) ==> |MoveString(opp, m)| <= 28
  {
    var gs := GroupsOf(opp, m);
    GroupsOfMove(opp, m);
    if gs != [] {
      TextLength(opp, gs, {});
      if |m| == 4 && OneEntry(m) && |Expand(gs)| == 4 && Longs(gs) == 0 {
        FourSingles(opp, m);
      }
    }
  }

  /** The steps of one roll: at most two, or all with the same die, which may be
      larger than needed to bear off. */
  ghost predicate OfOneRoll(m: seq<Step>) {
    |m| <= 2 || exists d :: 1 <= d <= 6 && WithDie(m, d)
  }

  ghost predicate WithDie(m: seq<Step>, d: int) {
    forall s :: s in m ==> s.from - s.to == d || (s.to == OFF && s.from <= d)
  }

  /** The bound in the header holds for the moves of one roll. */
  lemma OneRollLength(opp: Opponent, m: seq<Step>)
    requires ValidMove(m) && OfOneRoll(m)
    ensures |MoveString(opp, m)| <= 28
  {
    LengthBounds(opp, m);
    if |m| > 2 {
      var d :| 1 <= d <= 6 && WithDie(m, d);
      forall s, t | s in m && t in m && s.from == t.from == BAR ensures s == t {
        assert s.to == BAR - d && t.to == BAR - d;
      }
    }
  }

  lemma {:induction false} NoJoins(opp: Opponent, c: Slots, i: nat)
    requires i <= 4 && forall k, l :: 0 <= k < 4 && 0 <= l < 4 ==> Apart(c[k], c[l])
    ensures JoinAll(opp, c, i) == c
    decreases 4 - i
  {
    if i < 4 {
      NoJoinsInRow(opp, c, i, i);
      NoJoins(opp, c, i + 1);
    }
  }

  lemma {:induction false} NoJoinsInRow(opp: Opponent, c: Slots, i: nat, j: nat)
    requires i < 4 && j <= 4 && forall k, l :: 0 <= k < 4 && 0 <= l < 4 ==> Apart(c[k], c[l])
    ensures JoinRow(opp, c, i, j) == c
    decreases 4 - j
  {
    if j < 4 {
      assert Apart(c[i], c[j]);
      NoJoinsInRow(opp, c, i, j + 1);
    }
  }

  lemma {:induction false} GroupsOfDistinct(c: seq<Chain>)
    requires forall k :: 0 <= k < |c| ==> c[k] != []
    requires forall k, l :: 0 <= k < l < |c| ==> c[k] != c[l]
    ensures |Groups(c)| == |c| && forall k :: 0 <= k < |c| ==> Groups(c)[k] == Group(c[k], 1)
    decreases |c|
  {
    if c != [] {
      CountNone(c[1..], c[0]);
      assert Erase(c[1..], c[0]) == c[1..];
      GroupsOfDistinct(c[1..]);
    }
  }

  lemma {:induction false} CountNone(c: seq<Chain>, x: Chain)
    requires forall k :: 0 <= k < |c| ==> c[k] != x
    ensures Count(c, x) == 0
  {
    if c != [] {
      CountNone(c[1..], x);
    }
  }

  lemma NothingToJoin(opp: Opponent, c: Slots)
    requires forall k, l :: 0 <= k < 4 && 0 <= l < 4 ==> Apart(c[k], c[l])
    ensures Joined(opp, c) == c
  {
    NoJoins(opp, c, 0);
    assert Joined(opp, c) == JoinAll(opp, c, 0);
  }

  // ----- The exact length

  /** The characters of the points of a move. */
  function Width(m: seq<Step>): nat
    requires forall s :: s in m ==> ValidStep(s)
  {
    if m == [] then 0
    else
      assert m[0] in m && ValidStep(m[0]);
      |Point(m[0].from)| + |Point(m[0].to)| + Width(m[1..])
  }

  lemma {:induction false} WidthOfInsert(s: Step, m: seq<Step>)
    requires ValidStep(s) && forall t :: t in m ==> ValidStep(t)
    requires forall t :: t in Insert(s, m) ==> ValidStep(t)
    ensures Width(Insert(s, m)) == |Point(s.from)| + |Point(s.to)| + Width(m)
  {
    if m != [] && !NotAfter(s, m[0]) {
      var r := Insert(s, m[1..]);
      assert Insert(s, m) == [m[0]] + r && ([m[0]] + r)[1..] == r;
      assert forall t :: t in r ==> t in Insert(s, m);
      WidthOfInsert(s, m[1..]);
    } else {
      assert ([s] + m)[1..] == m;
    }
  }

  lemma {:induction false} WidthOfSort(m: seq<Step>)
    requires forall s :: s in m ==> ValidStep(s)
    ensures forall s :: s in Sort(m) ==> ValidStep(s)
    ensures Width(Sort(m)) == Width(m)
  {
    SortMembers(m);
    if m != [] {
      WidthOfSort(m[1..]);
      WidthOfInsert(m[0], Sort(m[1..]));
    }
  }

  /** Every group is one step. */
  ghost predicate AreSteps(gs: seq<Group>, m: seq<Step>) {
    |gs| == |m| && forall k :: 0 <= k < |gs| ==> gs[k] == Group([m[k].from, m[k].to], 1)
  }

  /** The star of a step, or none. */
  lemma StepText(opp: Opponent, s: Step, fl: set<int>)
    requires ValidStep(s)
    ensures var g := Group([s.from, s.to], 1);
            var star := Occupied(opp, s.to) && s.to !in fl;
            && ValidGroup(g)
            && |GroupText(opp, g, fl)| == |Point(s.from)| + |Point(s.to)| + (if star then 2 else 1)
            && FlagsAfter(opp, g.chain, fl) == if star then fl + {s.to} else fl
  {
    var c := [s.from, s.to];
    assert Mids(c) == {} && Middle(c, 1) == "";
  }

  /** Steps that are printed one by one take their points, a slash each, a star for
      each new point hit, and a blank between them. */
  lemma {:induction false} StepsText(opp: Opponent, gs: seq<Group>, m: seq<Step>, fl: set<int>)
    requires AreSteps(gs, m) && m != [] && forall s :: s in m ==> ValidStep(s)
    ensures ValidGroups(gs)
    ensures |Text(opp, gs, fl)| + 1 == Width(m) + 2 * |m| + |Hits(opp, m) - fl|
    decreases |m|
  {
    StepsAreGroups(gs, m);
    StepText(opp, m[0], fl);
    HitsOfMore(opp, m[0], m[1..], fl);
    assert m == [m[0]] + m[1..];
    var fl' := FlagsAfter(opp, gs[0].chain, fl);
    if |m| > 1 {
      StepsText(opp, gs[1..], m[1..], fl');
      LastBlank(opp, gs, fl);
    } else {
      NoText(opp, gs[1..], fl');
      assert Hits(opp, m[1..]) == {};
    }
  }

  lemma StepsAreGroups(gs: seq<Group>, m: seq<Step>)
    requires AreSteps(gs, m) && forall s :: s in m ==> ValidStep(s)
    ensures ValidGroups(gs)
  {
    forall k | 0 <= k < |gs| ensures ValidGroup(gs[k]) {
      assert m[k] in m;
    }
  }

  lemma LastBlank(opp: Opponent, gs: seq<Group>, fl: set<int>)
    requires ValidGroups(gs) && |gs| > 1
    ensures |Text(opp, gs, fl)|
         == |GroupText(opp, gs[0], fl)| + 1 + |Text(opp, gs[1..], FlagsAfter(opp, gs[0].chain, fl))|
  {
  }

  lemma NoText(opp: Opponent, gs: seq<Group>, fl: set<int>)
    requires gs == []
    ensures Text(opp, gs, fl) == ""
  {
  }

  /** The points that one more step hits. */
  lemma HitsOfMore(opp: Opponent, s: Step, rest: seq<Step>, fl: set<int>)
    ensures var star := Occupied(opp, s.to) && s.to !in fl;
            var left := Hits(opp, rest) - if star then fl + {s.to} else fl;
            |Hits(opp, [s] + rest) - fl| == |left| + if star then 1 else 0
  {
    HitsConcat(opp, [s], rest);
    HitsOfOne(opp, s);
    var hits := Hits(opp, rest);
    if Occupied(opp, s.to) && s.to !in fl {
      assert {s.to} + hits - fl == (hits - (fl + {s.to})) + {s.to};
    } else {
      assert Hits(opp, [s] + rest) - fl == hits - fl;
    }
  }

  lemma HitsOfOne(opp: Opponent, s: Step)
    ensures Hits(opp, [s]) == if Occupied(opp, s.to) then {s.to} else {}
  {
    if Occupied(opp, s.to) {
      assert [s][0].to in Hits(opp, [s]);
    }
  }

  // ----- The moves that are too long

  /** No step is made twice, and none goes on from where another one ends. */
  ghost predicate StepsApart(m: seq<Step>) {
    && Once(m)
    && (forall s, t :: s in m && t in m ==> s.to != t.from)
  }

  ghost predicate Once<T>(m: seq<T>) {
    forall i, j :: 0 <= i < j < |m| ==> m[i] != m[j]
  }

  lemma OnceCons<T>(x: T, rest: seq<T>)
    ensures Once([x] + rest) <==> x !in rest && Once(rest)
  {
    var m := [x] + rest;
    assert forall k :: 0 <= k < |rest| ==> m[k + 1] == rest[k];
    if Once(m) {
      forall i, j | 0 <= i < j < |rest| ensures rest[i] != rest[j] {
        assert m[i + 1] != m[j + 1];
      }
      forall k | 0 <= k < |rest| ensures rest[k] != x {
        assert m[0] != m[k + 1];
      }
    }
  }

  lemma {:induction false} OnceEach<T>(m: seq<T>)
    ensures Once(m) <==> forall x :: multiset(m)[x] <= 1
  {
    if m != [] {
      var x, rest := m[0], m[1..];
      assert m == [x] + rest;
      OnceCons(x, rest);
      OnceEach(rest);
      assert forall y :: multiset(m)[y] == multiset(rest)[y] + if y == x then 1 else 0;
      assert x in rest <==> multiset(rest)[x] > 0;
      if forall y :: multiset(m)[y] <= 1 {
        assert forall y :: multiset(rest)[y] <= multiset(m)[y];
        assert multiset(m)[x] <= 1;
      }
    }
  }

  /** Sorting keeps steps apart. */
  lemma SortApart(m: seq<Step>)
    ensures StepsApart(Sort(m)) <==> StepsApart(m)
  {
    SortSorts(m);
    SortMembers(m);
    OnceEach(m);
    OnceEach(Sort(m));
  }

  /** Steps apart are printed one by one. */
  lemma ApartSlots(opp: Opponent, m: seq<Step>)
    requires |m| == 4 && StepsApart(m)
    ensures AreSteps(GroupsOf(opp, m), Sort(m))
  {
    var s := Sort(m);
    var c := Singles(s);
    SortApart(m);
    forall k, l | 0 <= k < 4 && 0 <= l < 4 ensures Apart(c[k], c[l]) {
      assert s[k] in s && s[l] in s;
    }
    NothingToJoin(opp, c);
    forall k, l | 0 <= k < l < |c| ensures c[k] != c[l] {
      assert s[k] != s[l];
    }
    GroupsOfDistinct(c);
  }

  /** The length of a move of four steps apart. */
  lemma ApartLength(opp: Opponent, m: seq<Step>)
    requires ValidMove(m) && |m| == 4 && StepsApart(m)
    ensures |MoveString(opp, m)| == Width(m) + |Hits(opp, m)| + 7
  {
    var s := Sort(m);
    ApartSlots(opp, m);
    WidthOfSort(m);
    StepsText(opp, GroupsOf(opp, m), s, {});
    SortKeeps(opp, m, 0);
    assert Hits(opp, s) - {} == Hits(opp, m);
  }

  /** Chains that are each counted once are all different. */
  lemma {:induction false} NoneRepeated(c: seq<Chain>)
    requires Repeats(Groups(c)) == 0
    ensures forall k, l :: 0 <= k < l < |c| && c[k] != [] ==> c[k] != c[l]
    decreases |c|
  {
    if c != [] {
      var rest := c[1..];
      if c[0] == [] {
        NoneRepeated(rest);
      } else {
        CountZero(rest, c[0]);
        assert Erase(rest, c[0]) == rest;
        NoneRepeated(rest);
      }
      assert forall k :: 0 < k < |c| ==> c[k] == rest[k - 1];
    }
  }

  lemma {:induction false} CountZero(c: seq<Chain>, x: Chain)
    requires Count(c, x) == 0
    ensures forall k :: 0 <= k < |c| ==> c[k] != x
  {
    if c != [] {
      CountZero(c[1..], x);
      assert forall k :: 0 < k < |c| ==> c[k] == c[1..][k - 1];
    }
  }

  /** Only four steps apart can print as more than 28 characters. */
  lemma LongIsApart(opp: Opponent, m: seq<Step>)
    requires ValidMove(m) && |MoveString(opp, m)| > 28
    ensures |m| == 4 && StepsApart(m)
  {
    var gs := GroupsOf(opp, m);
    GroupsOfMove(opp, m);
    TextLength(opp, gs, {});
    assert |m| == 4 && |Expand(gs)| == 4 && Longs(gs) == 0 && Repeats(gs) == 0;
    SlotsAreSteps(opp, m);
    SlotsOfMove(opp, m);
    SinglesAre(Sort(m), SlotsOf(opp, m));
    SlotsApart(Sort(m), SlotsOf(opp, m));
    SortApart(m);
  }

  lemma SlotsApart(s: seq<Step>, c: Slots)
    requires |s| == 4 && forall k :: 0 <= k < 4 ==> c[k] == [s[k].from, s[k].to] && c[k] != []
    requires Repeats(Groups(c)) == 0 && Linked(c, 4, 4)
    ensures StepsApart(s)
  {
    NoneRepeated(c);
    ChainsOfApart(s, c);
  }

  lemma SinglesAre(s: seq<Step>, c: Slots)
    requires |s| == 4 && c == Singles(s)
    ensures forall k :: 0 <= k < 4 ==> c[k] == [s[k].from, s[k].to] && c[k] != []
  {
  }

  lemma ChainsOfApart(s: seq<Step>, c: Slots)
    requires |s| == 4 && forall k :: 0 <= k < 4 ==> c[k] == [s[k].from, s[k].to]
    requires forall k, l :: 0 <= k < l < 4 ==> c[k] != c[l]
    requires forall k, l :: 0 <= k < 4 && 0 <= l < 4 ==> Apart(c[k], c[l])
    ensures StepsApart(s)
  {
    forall i, j | 0 <= i < j < |s| ensures s[i] != s[j] {
      assert c[i] != c[j];
    }
    forall x, y | x in s && y in s ensures x.to != y.from {
      var i :| 0 <= i < |s| && s[i] == x;
      var j :| 0 <= j < |s| && s[j] == y;
      assert Apart(c[i], c[j]);
    }
  }

  /** The header of FormatMove asks for room for 28 characters. A move needs more
      exactly when it has four steps, no two of them equal and none going on from
      where another one ends, with more than 21 characters for its points and the
      stars of the points it hits. */
  lemma TooLongExactly(opp: Opponent, m: seq<Step>)
    requires ValidMove(m)
    ensures |MoveString(opp, m)| > 28 <==> |m| == 4 && StepsApart(m) && Width(m) + |Hits(opp, m)| > 21
  {
    if |MoveString(opp, m)| > 28 {
      LongIsApart(opp, m);
    }
    if |m| == 4 && StepsApart(m) {
      ApartLength(opp, m);
    }
  }

  /** Such a list of steps: four entries to different points, which hit four blots
      and take 31 characters. No roll makes it. */
  lemma LongMove(opp: Opponent, m: seq<Step>)
    requires forall p :: 21 <= p <= 24 ==> Occupied(opp, p)
    requires |m| == 4 && forall k :: 0 <= k < 4 ==> m[k] == Step(25, 24 - k)
    ensures ValidMove(m) && |MoveString(opp, m)| == 31 && !OfOneRoll(m)
  {
    FourWide(m);
    FourHits(opp, m);
    ApartLength(opp, m);
    assert m[0] in m && m[1] in m;
  }

  lemma FourHits(opp: Opponent, m: seq<Step>)
    requires forall p :: 21 <= p <= 24 ==> Occupied(opp, p)
    requires |m| == 4 && forall k :: 0 <= k < 4 ==> m[k] == Step(25, 24 - k)
    ensures |Hits(opp, m)| == 4
  {
    var hits := Hits(opp, m);
    assert m[0].to in hits && m[1].to in hits && m[2].to in hits && m[3].to in hits;
    assert hits == {24, 23, 22, 21};
  }

  lemma FourWide(m: seq<Step>)
    requires |m| == 4 && forall k :: 0 <= k < 4 ==> m[k] == Step(25, 24 - k)
    ensures ValidMove(m) && StepsApart(m) && Width(m) == 20
  {
    forall s | s in m ensures ValidStep(s) && s.from == 25 && 21 <= s.to <= 24 && |Point(s.from)| == 3 && |Point(s.to)| == 2 {
      var k :| 0 <= k < 4 && m[k] == s;
    }
    WidthOfSame(m, 5);
  }

  lemma {:induction false} WidthOfSame(m: seq<Step>, w: nat)
    requires forall s :: s in m ==> ValidStep(s) && |Point(s.from)| + |Point(s.to)| == w
    ensures Width(m) == |m| * w
  {
    if m != [] {
      assert m[0] in m;
      WidthOfSame(m[1..], w);
      OneMoreTimes(|m| - 1, w);
    }
  }

  lemma OneMoreTimes(n: nat, w: nat)
    ensures (n + 1) * w == n * w + w
  {
  }

  /** Four blots on those points. */
  lemma SuchMove() returns (opp: Opponent, m: seq<Step>)
    ensures forall p :: 1 <= p <= 24 ==> (Occupied(opp, p) <==> p > 20)
    ensures forall p :: 0 <= p < 25 ==> opp[p] <= 1
    ensures |m| == 4 && forall k :: 0 <= k < 4 ==> m[k] == Step(25, 24 - k)
  {
    opp := seq(25, k => if k < 4 then 1 else 0);
    m := seq(4, k => Step(25, 24 - k));
  }
}
