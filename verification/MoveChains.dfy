/** How FormatMove joins the steps of a move into chains, one per chequer, and
    counts equal chains (gnubg/drawboard.c, lines 608 to 680). */
module MoveChains {
  import opened Moves

  /** The points one chequer visits and that are printed; [] is a slot whose
      chain has been taken over by another one. */
  type Chain = seq<int>

  /** The four pointer slots of the source. */
  type Slots = c: seq<Chain> | |c| == 4 witness [[], [], [], []]

  ghost predicate ValidChain(c: Chain) {
    && |c| >= 2
    && (forall i, j :: 0 <= i < j < |c| ==> c[i] > c[j])
    && c[0] <= BAR && OFF <= Last(c)
  }

  function Last(c: Chain): int
    requires c != []
  {
    c[|c| - 1]
  }

  // ----- Joining

  /** The body of the joining loops, for slots i and j. */
  function Join(opp: Opponent, c: Slots, i: nat, j: nat): Slots
    requires i < 4 && j < 4
  {
    if c[i] == [] || c[j] == [] || Last(c[i]) != c[j][0] then c
    else
      var end := Last(c[j]);
      var joined := if Occupied(opp, Last(c[i])) then c[i] + [end] else c[i][..|c[i]| - 1] + [end];
      c[i := joined][j := []]
  }

  /** The inner loop from j on. */
  function JoinRow(opp: Opponent, c: Slots, i: nat, j: nat): Slots
    requires i < 4 && j <= 4
    decreases 4 - j
  {
    if j == 4 then c else JoinRow(opp, Join(opp, c, i, j), i, j + 1)
  }

  /** The outer loop from i on. */
  function JoinAll(opp: Opponent, c: Slots, i: nat): Slots
    requires i <= 4
    decreases 4 - i
  {
    if i == 4 then c else JoinAll(opp, JoinRow(opp, c, i, i), i + 1)
  }

  /** The slots after all joining.  They are given by their property, and not as
      a call, to keep the verifier from unrolling the loops everywhere. */
  ghost function Joined(opp: Opponent, c: Slots): Slots {
    assert IsJoined(opp, c, JoinAll(opp, c, 0));
    var d :| IsJoined(opp, c, d);
    d
  }

  ghost predicate IsJoined(opp: Opponent, c: Slots, d: Slots) {
    forall i {:trigger JoinAll(opp, c, i)} :: i == 0 ==> d == JoinAll(opp, c, i)
  }

  // ----- What joining keeps

  /** The steps a chain is printed for. */
  function Path(c: Chain): (m: seq<Step>)
    ensures |m| == if |c| == 0 then 0 else |c| - 1
  {
    if |c| < 2 then [] else [Step(c[0], c[1])] + Path(c[1..])
  }

  /** The steps of a list of chains. */
  function Paths(c: seq<Chain>): seq<Step> {
    if c == [] then [] else Path(c[0]) + Paths(c[1..])
  }

  /** A chain's net effect is at its ends. */
  lemma {:induction false} NetOfPath(c: Chain, point: int)
    requires |c| >= 1
    ensures Net(Path(c), point) == (if c[0] == point then 1 else 0) - (if Last(c) == point then 1 else 0)
  {
    if |c| >= 2 {
      NetOfPath(c[1..], point);
      assert Path(c)[1..] == Path(c[1..]);
    }
  }

  /** A chain hits at its occupied points after the first. */
  lemma {:induction false} HitsOfPath(opp: Opponent, c: Chain)
    ensures Hits(opp, Path(c)) == set k | 1 <= k < |c| && Occupied(opp, c[k]) :: c[k]
  {
    if |c| >= 2 {
      HitsOfPath(opp, c[1..]);
      HitsConcat(opp, [Step(c[0], c[1])], Path(c[1..]));
      forall p
        ensures p in Hits(opp, Path(c)) <==> p in set k | 1 <= k < |c| && Occupied(opp, c[k]) :: c[k]
      {
        var tail := c[1..];
        if k :| 1 <= k < |c| && Occupied(opp, c[k]) && c[k] == p {
          if k == 1 {
            assert [Step(c[0], c[1])][0].to == p;
          } else {
            assert tail[k - 1] == p;
          }
        }
        if p in Hits(opp, Path(tail)) {
          var k :| 1 <= k < |tail| && Occupied(opp, tail[k]) && tail[k] == p;
          assert c[k + 1] == p;
        }
      }
    }
  }

  lemma {:induction false} NetUpdate(c: seq<Chain>, i: nat, v: Chain, point: int)
    requires i < |c|
    ensures Net(Paths(c[i := v]), point) == Net(Paths(c), point) - Net(Path(c[i]), point) + Net(Path(v), point)
    ensures |Paths(c[i := v])| == |Paths(c)| - |Path(c[i])| + |Path(v)|
  {
    var d := c[i := v];
    NetConcat(Path(c[0]), Paths(c[1..]), point);
    NetConcat(Path(d[0]), Paths(d[1..]), point);
    if i > 0 {
      assert d[1..] == c[1..][i - 1 := v];
      NetUpdate(c[1..], i - 1, v, point);
    } else {
      assert d[1..] == c[1..];
    }
  }

  /** p is hit by the chain in some slot. */
  ghost predicate HitBy(opp: Opponent, c: seq<Chain>, p: int) {
    exists i :: 0 <= i < |c| && p in Hits(opp, Path(c[i]))
  }

  lemma {:induction false} HitsOfPaths(opp: Opponent, c: seq<Chain>, p: int)
    ensures p in Hits(opp, Paths(c)) <==> HitBy(opp, c, p)
  {
    if c != [] {
      HitsConcat(opp, Path(c[0]), Paths(c[1..]));
      HitsOfPaths(opp, c[1..], p);
      var tail := c[1..];
      if HitBy(opp, tail, p) {
        var i :| 0 <= i < |tail| && p in Hits(opp, Path(tail[i]));
        assert p in Hits(opp, Path(c[i + 1]));
      }
      if HitBy(opp, c, p) {
        var i :| 0 <= i < |c| && p in Hits(opp, Path(c[i]));
        if i > 0 {
          assert p in Hits(opp, Path(tail[i - 1]));
        }
      }
    }
  }

  /** The state of the joining loops before they look at slots i and j. */
  ghost predicate Linked(c: Slots, i: nat, j: nat) {
    && (forall k :: 0 <= k < 4 && c[k] != [] ==> ValidChain(c[k]))
    && (forall k :: i < k < 4 && c[k] != [] ==> |c[k]| == 2)
    && (forall k, l :: 0 <= k < l < 4 && c[k] != [] && c[l] != [] ==> c[k][0] >= c[l][0])
    && (forall k, l :: 0 <= k < 4 && 0 <= l < 4 && (k < i || (k == i && l < j)) ==> Apart(c[k], c[l]))
  }

  /** The second chain does not start where the first one ends. */
  ghost predicate Apart(c: Chain, d: Chain) {
    c != [] && d != [] ==> Last(c) != d[0]
  }

  /** Two lists of steps with the same net effect and the same hits. */
  ghost predicate SameEffect(opp: Opponent, a: seq<Step>, b: seq<Step>) {
    && (forall p :: Net(a, p) == Net(b, p))
    && Hits(opp, a) == Hits(opp, b)
  }

  lemma JoinLinked(opp: Opponent, c: Slots, i: nat, j: nat)
    requires i <= j < 4 && Linked(c, i, j)
    ensures Linked(Join(opp, c, i, j), i, j + 1)
  {
    var d := Join(opp, c, i, j);
    if d != c {
      assert i < j && d[j] == [];
      var joined := d[i];
      assert joined[0] == c[i][0] && Last(joined) == Last(c[j]);
      assert forall k :: 0 <= k < |joined| - 1 ==> joined[k] == c[i][k];
      assert forall k :: 0 <= k < |c[i]| ==> c[i][k] >= Last(c[i]);
      assert ValidChain(joined);
      forall k, l | 0 <= k < 4 && 0 <= l < 4 && (k < i || (k == i && l < j + 1))
        ensures Apart(d[k], d[l])
      {
        assert k < i ==> Apart(c[k], c[l]);
        if k == i && d[l] != [] {
          assert l != j && c[l][0] >= c[j][0] > Last(joined);
        }
      }
    }
  }

  lemma JoinKeeps(opp: Opponent, c: Slots, i: nat, j: nat)
    requires i <= j < 4 && Linked(c, i, j)
    ensures SameEffect(opp, Paths(Join(opp, c, i, j)), Paths(c))
    ensures |Paths(Join(opp, c, i, j))| <= |Paths(c)|
  {
    var d := Join(opp, c, i, j);
    if d != c {
      var ci, cj, joined := c[i], c[j], d[i];
      forall p
        ensures Net(Paths(d), p) == Net(Paths(c), p)
      {
        NetUpdate(c, i, joined, p);
        NetUpdate(c[i := joined], j, [], p);
        NetOfPath(ci, p);
        NetOfPath(cj, p);
        NetOfPath(joined, p);
      }
      NetUpdate(c, i, joined, 0);
      NetUpdate(c[i := joined], j, [], 0);
      forall p
        ensures p in Hits(opp, Paths(d)) <==> p in Hits(opp, Paths(c))
      {
        HitsOfPaths(opp, d, p);
        HitsOfPaths(opp, c, p);
        JoinHits(opp, c, i, j, p);
      }
    }
  }

  lemma {:induction false} PathSnoc(c: Chain, x: int)
    requires |c| >= 1
    ensures Path(c + [x]) == Path(c) + [Step(Last(c), x)]
  {
    var d := c + [x];
    if |c| >= 2 {
      assert d[1..] == c[1..] + [x];
      PathSnoc(c[1..], x);
    }
  }

  lemma HitsOfSnoc(opp: Opponent, c: Chain, x: int, p: int)
    requires |c| >= 1
    ensures p in Hits(opp, Path(c + [x])) <==> p in Hits(opp, Path(c)) || (p == x && Occupied(opp, x))
  {
    var s := [Step(Last(c), x)];
    PathSnoc(c, x);
    HitsConcat(opp, Path(c), s);
    if p == x && Occupied(opp, x) {
      assert s[0].to == p;
    }
  }

  /** A joined chain hits what its two parts hit: only a point that is not hit is elided. */
  lemma JoinedHits(opp: Opponent, ci: Chain, cj: Chain, joined: Chain, p: int)
    requires |ci| >= 2 && |cj| == 2
    requires joined == (if Occupied(opp, Last(ci)) then ci else ci[..|ci| - 1]) + [cj[1]]
    ensures p in Hits(opp, Path(joined)) <==> p in Hits(opp, Path(ci)) || p in Hits(opp, Path(cj))
  {
    var shorter := ci[..|ci| - 1];
    assert ci == shorter + [Last(ci)];
    assert cj == [cj[0]] + [cj[1]];
    HitsOfSnoc(opp, [cj[0]], cj[1], p);
    HitsOfSnoc(opp, ci, cj[1], p);
    HitsOfSnoc(opp, shorter, Last(ci), p);
    HitsOfSnoc(opp, shorter, cj[1], p);
  }

  lemma JoinHits(opp: Opponent, c: Slots, i: nat, j: nat, p: int)
    requires i < j < 4 && Linked(c, i, j) && Join(opp, c, i, j) != c
    ensures HitBy(opp, Join(opp, c, i, j), p) <==> HitBy(opp, c, p)
  {
    var d := Join(opp, c, i, j);
    var ci, cj, joined := c[i], c[j], d[i];
    JoinedHits(opp, ci, cj, joined, p);
    if HitBy(opp, c, p) {
      var k :| 0 <= k < 4 && p in Hits(opp, Path(c[k]));
      assert p in Hits(opp, Path(d[if k == j then i else k]));
    }
    if HitBy(opp, d, p) {
      var k :| 0 <= k < 4 && p in Hits(opp, Path(d[k]));
      assert k != j;
      assert p in Hits(opp, Path(c[k])) || p in Hits(opp, Path(c[j]));
    }
  }

  lemma {:induction false} JoinRowKeeps(opp: Opponent, c: Slots, i: nat, j: nat)
    requires i <= j <= 4 && i < 4 && Linked(c, i, j)
    ensures Linked(JoinRow(opp, c, i, j), i, 4)
    ensures SameEffect(opp, Paths(JoinRow(opp, c, i, j)), Paths(c))
    ensures |Paths(JoinRow(opp, c, i, j))| <= |Paths(c)|
    decreases 4 - j
  {
    if j < 4 {
      JoinLinked(opp, c, i, j);
      JoinKeeps(opp, c, i, j);
      JoinRowKeeps(opp, Join(opp, c, i, j), i, j + 1);
    }
  }

  lemma RowDone(c: Slots, i: nat)
    requires i < 4 && Linked(c, i, 4)
    ensures Linked(c, i + 1, i + 1)
  {
    if i + 1 < 4 && c[i + 1] != [] {
      forall l | 0 <= l < i + 1
        ensures Apart(c[i + 1], c[l])
      {
        assert c[l] != [] ==> c[l][0] >= c[i + 1][0];
      }
    }
  }

  lemma {:induction false} JoinAllKeeps(opp: Opponent, c: Slots, i: nat)
    requires i <= 4 && Linked(c, i, i)
    ensures Linked(JoinAll(opp, c, i), 4, 4)
    ensures SameEffect(opp, Paths(JoinAll(opp, c, i)), Paths(c))
    ensures |Paths(JoinAll(opp, c, i))| <= |Paths(c)|
    decreases 4 - i
  {
    if i < 4 {
      JoinRowKeeps(opp, c, i, i);
      var d := JoinRow(opp, c, i, i);
      RowDone(d, i);
      JoinAllKeeps(opp, d, i + 1);
    }
  }

  /** Joining keeps the effect of the move and leaves no chain that starts where
      another one ends. */
  lemma JoinedKeeps(opp: Opponent, c: Slots)
    requires Linked(c, 0, 0)
    ensures Linked(Joined(opp, c), 4, 4)
    ensures SameEffect(opp, Paths(Joined(opp, c)), Paths(c))
    ensures |Paths(Joined(opp, c))| <= |Paths(c)|
  {
    JoinAllKeeps(opp, c, 0);
  }

  /** The slots before joining: the sorted steps. */
  function Singles(m: seq<Step>): (c: Slots)
    requires |m| <= 4
  {
    seq(4, k requires 0 <= k < 4 => if k < |m| then [m[k].from, m[k].to] else [])
  }

  lemma SinglesLinked(m: seq<Step>)
    requires ValidMove(m) && Sorted(m)
    ensures Linked(Singles(m), 0, 0)
    ensures Paths(Singles(m)) == m
  {
    var c := Singles(m);
    forall k | 0 <= k < 4 && c[k] != []
      ensures ValidChain(c[k])
    {
      assert m[k] in m;
    }
    PathsOfSingles(c, m);
  }

  lemma {:induction false} PathsOfSingles(c: seq<Chain>, m: seq<Step>)
    requires |m| <= |c|
    requires forall k :: 0 <= k < |c| ==> c[k] == if k < |m| then [m[k].from, m[k].to] else []
    ensures Paths(c) == m
  {
    if c != [] {
      var rest := if m == [] then m else m[1..];
      PathsOfSingles(c[1..], rest);
      if m != [] {
        assert c[0][1..] == [m[0].to];
        assert m == [m[0]] + m[1..];
      }
    }
  }

  // ----- Counting equal chains

  /** A chain and the number of chequers that follow it. */
  datatype Group = Group(chain: Chain, count: nat)

  function Count(c: seq<Chain>, x: Chain): nat {
    if c == [] then 0 else (if c[0] == x then 1 else 0) + Count(c[1..], x)
  }

  lemma {:induction false} CountSnoc(c: seq<Chain>, v: Chain, x: Chain)
    ensures Count(c + [v], x) == Count(c, x) + if v == x then 1 else 0
  {
    if c == [] {
      assert c + [v] == [v] && [v][1..] == [];
    } else {
      assert (c + [v])[1..] == c[1..] + [v];
      CountSnoc(c[1..], v, x);
    }
  }

  function Erase(c: seq<Chain>, x: Chain): (d: seq<Chain>)
    ensures |d| == |c|
  {
    seq(|c|, k requires 0 <= k < |c| => if c[k] == x then [] else c[k])
  }

  /** Each different chain once, with its count. */
  function Groups(c: seq<Chain>): seq<Group>
    decreases |c|
  {
    if c == [] then []
    else if c[0] == [] then Groups(c[1..])
    else [Group(c[0], 1 + Count(c[1..], c[0]))] + Groups(Erase(c[1..], c[0]))
  }

  function Repeat(m: seq<Step>, n: nat): (r: seq<Step>)
    ensures |r| == n * |m|
  {
    if n == 0 then []
    else
      assert n * |m| == |m| + (n - 1) * |m|;
      m + Repeat(m, n - 1)
  }

  /** The steps of the groups, each chain as often as it is counted. */
  function Expand(g: seq<Group>): seq<Step> {
    if g == [] then [] else Repeat(Path(g[0].chain), g[0].count) + Expand(g[1..])
  }

  lemma {:induction false} EraseKeeps(opp: Opponent, c: seq<Chain>, x: Chain)
    ensures SameEffect(opp, Repeat(Path(x), Count(c, x)) + Paths(Erase(c, x)), Paths(c))
  {
    if c != [] {
      EraseKeeps(opp, c[1..], x);
      assert Erase(c, x)[1..] == Erase(c[1..], x);
      var again, rest := Repeat(Path(x), Count(c[1..], x)), Paths(Erase(c[1..], x));
      SameAfter(opp, Path(c[0]), again + rest, Paths(c[1..]));
      if c[0] == x {
        assert Paths(Erase(c, x)) == rest;
        assert Path(x) + again + rest == Path(x) + (again + rest);
      } else {
        SwapParts(opp, again, Path(c[0]), rest);
      }
    }
  }

  lemma {:induction false} EraseLength(c: seq<Chain>, x: Chain)
    ensures Count(c, x) * |Path(x)| + |Paths(Erase(c, x))| == |Paths(c)|
  {
    if c != [] {
      EraseLength(c[1..], x);
      assert Erase(c, x)[1..] == Erase(c[1..], x);
      var n := Count(c[1..], x);
      assert (n + 1) * |Path(x)| == |Path(x)| + n * |Path(x)|;
    }
  }

  lemma SameAfter(opp: Opponent, m: seq<Step>, a: seq<Step>, b: seq<Step>)
    requires SameEffect(opp, a, b)
    ensures SameEffect(opp, m + a, m + b)
  {
    forall p
      ensures Net(m + a, p) == Net(m + b, p)
    {
      NetConcat(m, a, p);
      NetConcat(m, b, p);
    }
    HitsConcat(opp, m, a);
    HitsConcat(opp, m, b);
  }

  lemma SwapParts(opp: Opponent, a: seq<Step>, b: seq<Step>, c: seq<Step>)
    ensures SameEffect(opp, a + (b + c), b + (a + c))
  {
    forall p
      ensures Net(a + (b + c), p) == Net(b + (a + c), p)
    {
      NetConcat(a, b + c, p); NetConcat(b, c, p);
      NetConcat(b, a + c, p); NetConcat(a, c, p);
    }
    HitsConcat(opp, a, b + c); HitsConcat(opp, b, c);
    HitsConcat(opp, b, a + c); HitsConcat(opp, a, c);
  }

  /** Counting equal chains keeps the effect of the move and its number of steps. */
  lemma {:induction false} GroupsKeep(opp: Opponent, c: seq<Chain>)
    ensures SameEffect(opp, Expand(Groups(c)), Paths(c))
    ensures |Expand(Groups(c))| == |Paths(c)|
    decreases |c|
  {
    if c != [] {
      if c[0] == [] {
        GroupsKeep(opp, c[1..]);
        assert Path([]) + Paths(c[1..]) == Paths(c[1..]);
      } else {
        var x, n, rest := c[0], Count(c[1..], c[0]), Erase(c[1..], c[0]);
        GroupsKeep(opp, rest);
        EraseKeeps(opp, c[1..], x);
        EraseLength(c[1..], x);
        var g := Groups(c);
        assert g[1..] == Groups(rest);
        assert Expand(g) == Path(x) + (Repeat(Path(x), n) + Expand(Groups(rest)));
        assert (n + 1) * |Path(x)| == |Path(x)| + n * |Path(x)|;
        SameAfter(opp, Repeat(Path(x), n), Expand(Groups(rest)), Paths(rest));
        SameAfter(opp, Path(x), Repeat(Path(x), n) + Expand(Groups(rest)), Paths(c[1..]));
      }
    }
  }

  /** Groups come from slots: their chains are in some slot, and are all different. */
  lemma {:induction false} GroupsFrom(c: seq<Chain>, k: nat)
    requires k < |Groups(c)|
    ensures Groups(c)[k].chain != [] && Groups(c)[k].chain in c && Groups(c)[k].count >= 1
    ensures forall l :: k < l < |Groups(c)| ==> Groups(c)[k].chain != Groups(c)[l].chain
    decreases |c|
  {
    if c[0] == [] {
      GroupsFrom(c[1..], k);
    } else {
      var rest := Erase(c[1..], c[0]);
      forall l: nat | l < |Groups(rest)|
        ensures Groups(rest)[l].chain != [] && Groups(rest)[l].chain in c[1..]
        ensures Groups(rest)[l].chain != c[0]
        ensures Groups(rest)[l].count >= 1
      {
        GroupsFrom(rest, l);
      }
      if k > 0 {
        GroupsFrom(rest, k - 1);
      }
    }
  }

  // ----- Leaving out the empty slots

  function Live(c: seq<Chain>): seq<Chain> {
    if c == [] then [] else if c[0] == [] then Live(c[1..]) else [c[0]] + Live(c[1..])
  }

  lemma {:induction false} LiveSnoc(c: seq<Chain>, v: Chain)
    ensures Live(c + [v]) == Live(c) + if v == [] then [] else [v]
  {
    if c == [] {
      assert c + [v] == [v] && [v][1..] == [];
    } else {
      assert (c + [v])[1..] == c[1..] + [v];
      LiveSnoc(c[1..], v);
    }
  }

  lemma {:induction false} LiveLength(c: seq<Chain>)
    ensures |Live(c)| <= |c| && forall k :: 0 <= k < |Live(c)| ==> Live(c)[k] != []
  {
    if c != [] {
      LiveLength(c[1..]);
    }
  }

  lemma {:induction false} LiveCount(c: seq<Chain>, x: Chain)
    requires x != []
    ensures Count(Live(c), x) == Count(c, x)
  {
    if c != [] {
      LiveCount(c[1..], x);
      if c[0] != [] {
        assert Live(c)[1..] == Live(c[1..]);
      }
    }
  }

  lemma {:induction false} LiveErase(c: seq<Chain>, x: Chain)
    ensures Live(Erase(Live(c), x)) == Live(Erase(c, x))
  {
    if c != [] {
      LiveErase(c[1..], x);
      assert Erase(c, x)[1..] == Erase(c[1..], x);
      if c[0] != [] {
        assert Live(c)[1..] == Live(c[1..]);
        assert Erase(Live(c), x)[1..] == Erase(Live(c[1..]), x);
      }
    }
  }

  /** Empty slots do not matter to the groups. */
  lemma {:induction false} GroupsOfLive(c: seq<Chain>)
    ensures Groups(Live(c)) == Groups(c)
    decreases |c|
  {
    if c != [] {
      if c[0] == [] {
        GroupsOfLive(c[1..]);
      } else {
        var x := c[0];
        assert Live(c)[1..] == Live(c[1..]);
        LiveLength(c[1..]);
        LiveCount(c[1..], x);
        LiveErase(c[1..], x);
        GroupsOfLive(Erase(Live(c[1..]), x));
        GroupsOfLive(Erase(c[1..], x));
      }
    }
  }
}
