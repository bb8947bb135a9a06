/** FormatMove as the source runs it (gnubg/drawboard.c, lines 584 to 713): the
    rows of aanMove are the cells of one flat array, and pnSource and pnDest are
    indices into it, with -1 for a null pointer. */
module MoveFormat {
  import opened Moves
  import opened MoveChains
  import opened MoveText

  /** The steps of a move as the engine keeps it: points count from 0, -1 is off
      the board, and a negative source ends the list. */
  function StepsOf(an: seq<int>): (m: seq<Step>)
    ensures |m| <= |an| / 2
  {
    if |an| < 2 || an[0] < 0 then [] else [Step(an[0] + 1, an[1] + 1)] + StepsOf(an[2..])
  }

  /** Slot i shows chain c: its cells run from the source to the destination. */
  ghost predicate ShowsChain(a: seq<int>, source: int, dest: int, c: Chain)
    requires |a| == 16
  {
    if c == [] then source == -1
    else
      && 0 <= source && source + |c| <= 16 && dest == source + |c| - 1
      && forall k :: 0 <= k < |c| ==> a[source + k] == c[k]
  }

  ghost predicate Shows(a: seq<int>, src: seq<int>, dst: seq<int>, c: Slots) {
    && |a| == 16 && |src| == 4 && |dst| == 4
    && forall i :: 0 <= i < 4 ==> ShowsChain(a, src[i], dst[i], c[i])
  }

  /** Every chain starts in its own row. */
  ghost predicate InRows(src: seq<int>) {
    |src| == 4 && forall i :: 0 <= i < 4 ==> src[i] == -1 || src[i] == 4 * i
  }

  // ----- Joining in place

  /** Before slots i and j are looked at: a chain is no longer than its row, except
      that one made of all four steps runs over into rows that are used up. */
  ghost predicate Room(c: Slots, i: nat, j: nat) {
    && (forall k :: 0 <= k < 4 ==> |c[k]| <= 4 || (k == 0 && c[1] == [] && c[2] == [] && c[3] == []))
    && (i < 4 ==> |c[i]| <= 2 || |c[i]| <= j - i + 1)
    && (i < 4 && 2 < |c[i]| == j - i + 1 ==> forall l :: i < l < j && l < 4 ==> c[l] == [])
  }

  lemma RoomAfterJoin(opp: Opponent, c: Slots, i: nat, j: nat)
    requires i <= j < 4 && Linked(c, i, j) && Room(c, i, j)
    ensures Room(Join(opp, c, i, j), i, j + 1)
  {
  }

  lemma RoomNextRow(c: Slots, i: nat)
    requires i < 4 && Room(c, i, 4) && Linked(c, i, 4)
    ensures Room(c, i + 1, i + 1)
  {
  }

  /** Writing the end of the joined chain disturbs no other chain. */
  lemma CellIsFree(a: seq<int>, src: seq<int>, dst: seq<int>, c: Slots, i: nat, j: nat, k: nat)
    requires i < j < 4 && k < 4 && k != i && k != j
    requires Linked(c, i, j) && Room(c, i, j) && Shows(a, src, dst, c) && InRows(src)
    requires c[i] != [] && c[j] != [] && c[k] != []
    ensures !(src[k] <= dst[i] <= src[k] + |c[k]| - 1)
    ensures !(src[k] <= dst[i] + 1 <= src[k] + |c[k]| - 1)
    ensures dst[i] + 1 < 16
  {
  }

  /** The ends of a chain are where the pointers say. */
  lemma EndsAt(a: seq<int>, source: int, dest: int, c: Chain)
    requires |a| == 16 && ShowsChain(a, source, dest, c)
    ensures source >= 0 <==> c != []
    ensures c != [] ==> 0 <= source <= dest < 16 && a[source] == c[0] && a[dest] == Last(c)
  {
    if c != [] {
      assert a[source + 0] == c[0];
      assert a[source + (|c| - 1)] == c[|c| - 1];
    }
  }

  /** What the writes of a join do to a slot that takes no part. */
  lemma OtherSlotAfterJoin(opp: Opponent, a: seq<int>, src: seq<int>, dst: seq<int>, c: Slots, i: nat, j: nat, k: nat, to: int)
    requires i < j < 4 && Linked(c, i, j) && Room(c, i, j) && k < 4 && k != i && k != j
    requires Shows(a, src, dst, c) && InRows(src)
    requires c[i] != [] && c[j] != []
    requires 0 <= dst[j] < 16 && 0 <= to < 16 && (to == dst[i] || to == dst[i] + 1)
    ensures ShowsChain(a[to := a[dst[j]]], src[k], dst[k], c[k])
  {
    assert ShowsChain(a, src[k], dst[k], c[k]);
    if c[k] != [] {
      CellIsFree(a, src, dst, c, i, j, k);
    }
  }

  /** The chain that is made longer. */
  lemma JoinedSlot(a: seq<int>, source: int, dest: int, c: Chain, v: int, hit: bool)
    requires |a| == 16 && c != [] && ShowsChain(a, source, dest, c) && dest < 15
    ensures var to := if hit then dest + 1 else dest;
            ShowsChain(a[to := v], source, to, if hit then c + [v] else c[..|c| - 1] + [v])
  {
  }

  /** What the writes of a join do to slot k. */
  lemma SlotAfterJoin(opp: Opponent, a: seq<int>, src: seq<int>, dst: seq<int>, c: Slots, i: nat, j: nat, k: nat, to: int)
    requires i < j < 4 && Linked(c, i, j) && Room(c, i, j) && k < 4
    requires Shows(a, src, dst, c) && InRows(src)
    requires c[i] != [] && c[j] != [] && Last(c[i]) == c[j][0]
    requires 0 <= dst[i] < 15 && 0 <= dst[j] < 16
    requires to == if Occupied(opp, Last(c[i])) then dst[i] + 1 else dst[i]
    ensures ShowsChain(a[to := a[dst[j]]], src[j := -1][k], dst[i := to][k], Join(opp, c, i, j)[k])
  {
    JoinAt(opp, c, i, j, k);
    if k == i {
      EndsAt(a, src[j], dst[j], c[j]);
      JoinedSlot(a, src[i], dst[i], c[i], a[dst[j]], Occupied(opp, Last(c[i])));
    } else if k != j {
      OtherSlotAfterJoin(opp, a, src, dst, c, i, j, k, to);
    }
  }

  lemma JoinAt(opp: Opponent, c: Slots, i: nat, j: nat, k: nat)
    requires i < j < 4 && k < 4 && c[i] != [] && c[j] != [] && Last(c[i]) == c[j][0]
    ensures var end := [Last(c[j])];
            Join(opp, c, i, j)[k] == if k == j then []
                                     else if k != i then c[k]
                                     else if Occupied(opp, Last(c[i])) then c[i] + end
                                     else c[i][..|c[i]| - 1] + end
  {
  }

  lemma RoomForEnd(a: seq<int>, src: seq<int>, dst: seq<int>, c: Slots, i: nat, j: nat)
    requires i < j < 4 && Linked(c, i, j) && Room(c, i, j)
    requires Shows(a, src, dst, c) && InRows(src) && c[i] != []
    ensures dst[i] < 15
  {
    assert ShowsChain(a, src[i], dst[i], c[i]);
  }

  lemma EndsOfJoin(a: seq<int>, src: seq<int>, dst: seq<int>, c: Slots, i: nat, j: nat)
    requires i < j < 4 && Linked(c, i, j) && Room(c, i, j)
    requires Shows(a, src, dst, c) && InRows(src) && c[i] != [] && c[j] != []
    ensures 0 <= dst[i] < 15 && 0 <= dst[j] < 16
  {
    EndsAt(a, src[i], dst[i], c[i]);
    EndsAt(a, src[j], dst[j], c[j]);
    RoomForEnd(a, src, dst, c, i, j);
  }

  lemma SlotsShown(a: seq<int>, src: seq<int>, dst: seq<int>, c: Slots)
    requires |a| == 16 && |src| == 4 && |dst| == 4
    requires ShowsChain(a, src[0], dst[0], c[0]) && ShowsChain(a, src[1], dst[1], c[1])
    requires ShowsChain(a, src[2], dst[2], c[2]) && ShowsChain(a, src[3], dst[3], c[3])
    ensures Shows(a, src, dst, c)
  {
  }

  /** The writes of a join, on the contents of the arrays. */
  lemma JoinShows(opp: Opponent, a: seq<int>, src: seq<int>, dst: seq<int>, c: Slots, i: nat, j: nat)
    requires i < j < 4 && Linked(c, i, j) && Room(c, i, j)
    requires Shows(a, src, dst, c) && InRows(src)
    requires c[i] != [] && c[j] != [] && Last(c[i]) == c[j][0]
    ensures 0 <= dst[i] < 15 && 0 <= dst[j] < 16
    ensures var to := if Occupied(opp, Last(c[i])) then dst[i] + 1 else dst[i];
            Shows(a[to := a[dst[j]]], src[j := -1], dst[i := to], Join(opp, c, i, j))
  {
    EndsOfJoin(a, src, dst, c, i, j);
    var to := if Occupied(opp, Last(c[i])) then dst[i] + 1 else dst[i];
    SlotAfterJoin(opp, a, src, dst, c, i, j, 0, to);
    SlotAfterJoin(opp, a, src, dst, c, i, j, 1, to);
    SlotAfterJoin(opp, a, src, dst, c, i, j, 2, to);
    SlotAfterJoin(opp, a, src, dst, c, i, j, 3, to);
    SlotsShown(a[to := a[dst[j]]], src[j := -1], dst[i := to], Join(opp, c, i, j));
  }

  /** The pointers tell whether the chains join. */
  lemma JoinTest(a: seq<int>, src: seq<int>, dst: seq<int>, c: Slots, i: nat, j: nat)
    requires i <= j < 4 && Linked(c, i, j) && Shows(a, src, dst, c)
    ensures src[i] >= 0 <==> c[i] != []
    ensures src[j] >= 0 <==> c[j] != []
    ensures c[i] != [] && c[j] != [] ==>
              && 0 <= dst[i] < 16 && 0 <= src[j] < 16
              && (a[dst[i]] == a[src[j]] <==> Last(c[i]) == c[j][0])
              && (Last(c[i]) == c[j][0] ==> i < j && a[dst[i]] == Last(c[i]) && 1 <= Last(c[i]) <= 24)
  {
    EndsAt(a, src[i], dst[i], c[i]);
    EndsAt(a, src[j], dst[j], c[j]);
  }

  lemma StillInRows(src: seq<int>, j: nat)
    requires j < 4 && InRows(src)
    ensures InRows(src[j := -1])
  {
  }

  method JoinSlots(opp: Opponent, a: array<int>, src: array<int>, dst: array<int>, i: nat, j: nat, ghost c: Slots)
    requires a != src && a != dst && src != dst && a.Length == 16 && src.Length == 4 && dst.Length == 4
    requires i <= j < 4 && Linked(c, i, j) && Room(c, i, j)
    requires Shows(a[..], src[..], dst[..], c) && InRows(src[..])
    modifies a, src, dst
    ensures Shows(a[..], src[..], dst[..], Join(opp, c, i, j)) && InRows(src[..])
  {
    ghost var a0, src0, dst0 := a[..], src[..], dst[..];
    JoinTest(a0, src0, dst0, c, i, j);
    if src[i] >= 0 && src[j] >= 0 && a[dst[i]] == a[src[j]] {
      JoinShows(opp, a0, src0, dst0, c, i, j);
      StillInRows(src0, j);
      MovePointers(opp, a, src, dst, i, j);
    }
  }

  /** The writes of a join. */
  method MovePointers(opp: Opponent, a: array<int>, src: array<int>, dst: array<int>, i: nat, j: nat)
    requires a != src && a != dst && src != dst && a.Length == 16 && src.Length == 4 && dst.Length == 4
    requires i < j < 4 && 0 <= dst[i] < 15 && 0 <= dst[j] < 16 && 1 <= a[dst[i]] <= 24
    modifies a, src, dst
    ensures var to := if Occupied(opp, old(a[dst[i]])) then old(dst[i]) + 1 else old(dst[i]);
            && a[..] == old(a[..])[to := old(a[dst[j]])]
            && src[..] == old(src[..])[j := -1]
            && dst[..] == old(dst[..])[i := to]
  {
    if opp[24 - a[dst[i]]] > 0 {
      dst[i] := dst[i] + 1;
    }
    a[dst[i]] := a[dst[j]];
    src[j] := -1;
  }

  /** The joining loops. */
  method JoinMoves(opp: Opponent, a: array<int>, src: array<int>, dst: array<int>, ghost c0: Slots)
    requires a != src && a != dst && src != dst && a.Length == 16 && src.Length == 4 && dst.Length == 4
    requires Linked(c0, 0, 0) && Room(c0, 0, 0)
    requires Shows(a[..], src[..], dst[..], c0) && InRows(src[..])
    modifies a, src, dst
    ensures Shows(a[..], src[..], dst[..], Joined(opp, c0))
  {
    ghost var c := c0;
    var i := 0;
    while i < 4
      invariant 0 <= i <= 4 && Linked(c, i, i) && Room(c, i, i)
      invariant Shows(a[..], src[..], dst[..], c) && InRows(src[..])
      invariant JoinsTo(opp, c, i, c0)
    {
      JoinRowSlots(opp, a, src, dst, i, c);
      JoinRowKeeps(opp, c, i, i);
      RowDone(JoinRow(opp, c, i, i), i);
      NextRow(opp, c, i, c0);
      c := JoinRow(opp, c, i, i);
      i := i + 1;
    }
    DoneJoining(opp, c, i, c0);
  }

  /** What is left to join from c at row i gives what joining c0 gives. */
  ghost predicate JoinsTo(opp: Opponent, c: Slots, i: nat, c0: Slots)
    requires i <= 4
  {
    JoinAll(opp, c, i) == Joined(opp, c0)
  }

  lemma NextRow(opp: Opponent, c: Slots, i: nat, c0: Slots)
    requires i < 4 && JoinsTo(opp, c, i, c0)
    ensures JoinsTo(opp, JoinRow(opp, c, i, i), i + 1, c0)
  {
  }

  lemma DoneJoining(opp: Opponent, c: Slots, i: nat, c0: Slots)
    requires i == 4 && JoinsTo(opp, c, i, c0)
    ensures c == Joined(opp, c0)
  {
  }

  method JoinRowSlots(opp: Opponent, a: array<int>, src: array<int>, dst: array<int>, i: nat, ghost c0: Slots)
    requires a != src && a != dst && src != dst && a.Length == 16 && src.Length == 4 && dst.Length == 4
    requires i < 4 && Linked(c0, i, i) && Room(c0, i, i)
    requires Shows(a[..], src[..], dst[..], c0) && InRows(src[..])
    modifies a, src, dst
    ensures Shows(a[..], src[..], dst[..], JoinRow(opp, c0, i, i)) && InRows(src[..])
    ensures Room(JoinRow(opp, c0, i, i), i + 1, i + 1)
  {
    ghost var c := c0;
    var j := i;
    while j < 4
      invariant i <= j <= 4 && RowState(opp, c, i, j, c0)
      invariant Shows(a[..], src[..], dst[..], c) && InRows(src[..])
    {
      c := JoinNext(opp, a, src, dst, i, j, c, c0);
      j := j + 1;
    }
    RowIsJoined(opp, c, i, j, c0);
  }

  /** What is left to join from c in row i gives what joining row i of c0 gives. */
  ghost predicate RowState(opp: Opponent, c: Slots, i: nat, j: nat, c0: Slots)
    requires i < 4 && j <= 4
  {
    Linked(c, i, j) && Room(c, i, j) && JoinRow(opp, c, i, j) == JoinRow(opp, c0, i, i)
  }

  lemma RowIsJoined(opp: Opponent, c: Slots, i: nat, j: nat, c0: Slots)
    requires i < 4 && j == 4 && RowState(opp, c, i, j, c0)
    ensures c == JoinRow(opp, c0, i, i) && Room(c, i + 1, i + 1)
  {
    RoomNextRow(c, i);
  }

  /** One round of the inner loop. */
  method JoinNext(opp: Opponent, a: array<int>, src: array<int>, dst: array<int>, i: nat, j: nat, ghost c: Slots,
                  ghost c0: Slots)
    returns (ghost d: Slots)
    requires a != src && a != dst && src != dst && a.Length == 16 && src.Length == 4 && dst.Length == 4
    requires i <= j < 4 && RowState(opp, c, i, j, c0)
    requires Shows(a[..], src[..], dst[..], c) && InRows(src[..])
    modifies a, src, dst
    ensures RowState(opp, d, i, j + 1, c0)
    ensures Shows(a[..], src[..], dst[..], d) && InRows(src[..])
  {
    d := NextSlots(opp, c, c0, i, j);
    JoinSlots(opp, a, src, dst, i, j, c);
  }

  lemma NextSlots(opp: Opponent, c: Slots, c0: Slots, i: nat, j: nat) returns (d: Slots)
    requires i <= j < 4 && RowState(opp, c, i, j, c0)
    ensures d == Join(opp, c, i, j) && RowState(opp, d, i, j + 1, c0)
  {
    JoinLinked(opp, c, i, j);
    RoomAfterJoin(opp, c, i, j);
    d := Join(opp, c, i, j);
  }

  // ----- Loading and sorting

  /** The first two cells of the four rows. */
  function RowSteps(a: seq<int>): (m: seq<Step>)
    requires |a| == 16
    ensures |m| == 4
  {
    seq(4, k requires 0 <= k < 4 => Step(a[4 * k], a[4 * k + 1]))
  }

  /** qsort on the rows, by its contract: the first two cells end up in the order
      of the comparison. */
  method SortRows(a: array<int>)
    requires a.Length == 16
    modifies a
    ensures RowSteps(a[..]) == Sort(old(RowSteps(a[..])))
  {
    var m := Sort(RowSteps(a[..]));
    a[0], a[1], a[4], a[5] := m[0].from, m[0].to, m[1].from, m[1].to;
    a[8], a[9], a[12], a[13] := m[2].from, m[2].to, m[3].from, m[3].to;
  }

  const NoStep := Step(-1, -1)

  function Nulls(n: nat): (m: seq<Step>)
    ensures |m| == n && forall k :: 0 <= k < n ==> m[k] == NoStep
  {
    if n == 0 then [] else [NoStep] + Nulls(n - 1)
  }

  /** Unused rows sort last. */
  lemma {:induction false} SortNulls(m: seq<Step>, n: nat)
    requires forall s :: s in m ==> ValidStep(s)
    ensures Sort(m + Nulls(n)) == Sort(m) + Nulls(n)
    decreases |m|, n
  {
    if m != [] {
      assert (m + Nulls(n))[1..] == m[1..] + Nulls(n);
      SortNulls(m[1..], n);
      SortMembers(m[1..]);
      InsertBeforeNulls(m[0], Sort(m[1..]), n);
    } else {
      assert m + Nulls(n) == Nulls(n);
      if n > 0 {
        assert Nulls(n)[1..] == Nulls(n - 1);
        SortNulls(m, n - 1);
        assert m + Nulls(n - 1) == Nulls(n - 1) && Sort(m) + Nulls(n - 1) == Nulls(n - 1);
      }
    }
  }

  lemma {:induction false} InsertBeforeNulls(s: Step, m: seq<Step>, n: nat)
    requires ValidStep(s)
    ensures Insert(s, m + Nulls(n)) == Insert(s, m) + Nulls(n)
  {
    if m != [] && !NotAfter(s, m[0]) {
      assert (m + Nulls(n))[1..] == m[1..] + Nulls(n);
      InsertBeforeNulls(s, m[1..], n);
    } else if m == [] {
      assert m + Nulls(n) == Nulls(n);
    }
  }

  /** The pointers of the first n rows. */
  ghost predicate PointersTo(src: seq<int>, dst: seq<int>, n: nat) {
    && |src| == |dst| == 4
    && (forall k :: 0 <= k < 4 ==> src[k] == if k < n then 4 * k else -1)
    && (forall k :: 0 <= k < 4 && k < n ==> dst[k] == 4 * k + 1)
  }

  /** Row k holds step s, and pointers to it. */
  ghost predicate RowHolds(a: seq<int>, src: seq<int>, dst: seq<int>, k: nat, s: Step) {
    && |a| == 16 && |src| == |dst| == 4 && k < 4
    && src[k] == 4 * k && dst[k] == 4 * k + 1 && a[4 * k] == s.from && a[4 * k + 1] == s.to
  }

  method LoadMove(anMove: array<int>, a: array<int>, src: array<int>, dst: array<int>)
    requires anMove.Length == 8 && a.Length == 16 && src.Length == 4 && dst.Length == 4
    requires a != src && a != dst && src != dst && anMove != a && anMove != src && anMove != dst
    modifies a, src, dst
    ensures var m := StepsOf(anMove[..]);
            && PointersTo(src[..], dst[..], |m|)
            && RowSteps(a[..]) == m + Nulls(4 - |m|)
  {
    var n := LoadSteps(anMove, a, src, dst);
    ghost var m := StepsOf(anMove[..]);
    var i := n;
    while i < 4
      invariant n <= i <= 4
      invariant forall k :: 0 <= k < n ==> RowHolds(a[..], src[..], dst[..], k, m[k])
      invariant forall k :: n <= k < i ==> src[k] == -1 && a[4 * k] == -1 && a[4 * k + 1] == -1
    {
      a[4 * i], a[4 * i + 1] := -1, -1;
      src[i] := -1;
      i := i + 1;
    }
    RowsAre(a[..], src[..], dst[..], m);
  }

  lemma RowsAre(a: seq<int>, src: seq<int>, dst: seq<int>, m: seq<Step>)
    requires |a| == 16 && |src| == |dst| == 4 && |m| <= 4
    requires forall k :: 0 <= k < |m| ==> RowHolds(a, src, dst, k, m[k])
    requires forall k :: |m| <= k < 4 ==> src[k] == -1 && a[4 * k] == -1 && a[4 * k + 1] == -1
    ensures PointersTo(src, dst, |m|) && RowSteps(a) == m + Nulls(4 - |m|)
  {
    forall k | 0 <= k < 4
      ensures RowSteps(a)[k] == (m + Nulls(4 - |m|))[k]
      ensures src[k] == (if k < |m| then 4 * k else -1) && (k < |m| ==> dst[k] == 4 * k + 1)
    {
      assert k < |m| ==> RowHolds(a, src, dst, k, m[k]);
      assert k >= |m| ==> src[k] == -1;
    }
  }

  /** The next two cells hold the next step, or there is none. */
  lemma StepAt(an: seq<int>, i: nat, m: seq<Step>)
    requires |an| == 8 && i <= 4 && StepsOf(an[2 * i..]) == m
    ensures m != [] <==> i < 4 && an[2 * i] >= 0
    ensures m != [] ==> m[0] == Step(an[2 * i] + 1, an[2 * i + 1] + 1) && StepsOf(an[2 * (i + 1)..]) == m[1..]
  {
    if i < 4 {
      assert an[2 * i..][2..] == an[2 * (i + 1)..];
    }
  }

  /** The cells from 2 * i on hold the steps of m from i on. */
  ghost predicate StepsLeft(an: seq<int>, i: nat, m: seq<Step>) {
    |an| == 8 && i <= 4 && i <= |m| && StepsOf(an[2 * i..]) == m[i..]
  }

  lemma AllLeft(an: seq<int>)
    requires |an| == 8
    ensures StepsLeft(an, 0, StepsOf(an))
  {
    assert an[0..] == an;
  }

  lemma NextLeft(an: seq<int>, i: nat, m: seq<Step>)
    requires StepsLeft(an, i, m)
    ensures i < |m| <==> i < 4 && an[2 * i] >= 0
    ensures i < |m| ==> m[i] == Step(an[2 * i] + 1, an[2 * i + 1] + 1) && StepsLeft(an, i + 1, m)
  {
    StepAt(an, i, m[i..]);
  }

  method LoadSteps(anMove: array<int>, a: array<int>, src: array<int>, dst: array<int>) returns (i: nat)
    requires anMove.Length == 8 && a.Length == 16 && src.Length == 4 && dst.Length == 4
    requires a != src && a != dst && src != dst && anMove != a && anMove != src && anMove != dst
    modifies a, src, dst
    ensures var m := StepsOf(anMove[..]);
            i == |m| && forall k :: 0 <= k < i ==> RowHolds(a[..], src[..], dst[..], k, m[k])
  {
    i := 0;
    ghost var an := anMove[..];
    ghost var m := StepsOf(an);
    AllLeft(an);
    while i < 4 && anMove[2 * i] >= 0
      invariant i <= 4 && anMove[..] == an && StepsLeft(an, i, m)
      invariant forall k :: 0 <= k < i ==> RowHolds(a[..], src[..], dst[..], k, m[k])
    {
      NextLeft(an, i, m);
      LoadRow(a, src, dst, i, anMove[2 * i], anMove[2 * i + 1], m[..i]);
      i := i + 1;
    }
    NextLeft(an, i, m);
  }

  /** One row, after the rows of the steps m. */
  method LoadRow(a: array<int>, src: array<int>, dst: array<int>, i: nat, from: int, to: int, ghost m: seq<Step>)
    requires a.Length == 16 && src.Length == 4 && dst.Length == 4 && a != src && a != dst && src != dst
    requires i < 4 && i == |m| && forall k :: 0 <= k < i ==> RowHolds(a[..], src[..], dst[..], k, m[k])
    modifies a, src, dst
    ensures RowHolds(a[..], src[..], dst[..], i, Step(from + 1, to + 1))
    ensures forall k :: 0 <= k < i ==> RowHolds(a[..], src[..], dst[..], k, m[k])
  {
    forall k | 0 <= k < i
      ensures a[4 * k] == m[k].from && a[4 * k + 1] == m[k].to && src[k] == 4 * k && dst[k] == 4 * k + 1
    {
      assert RowHolds(a[..], src[..], dst[..], k, m[k]);
    }
    a[4 * i] := from + 1;
    a[4 * i + 1] := to + 1;
    src[i], dst[i] := 4 * i, 4 * i + 1;
  }

  lemma SinglesRoom(m: seq<Step>)
    requires |m| <= 4
    ensures Room(Singles(m), 0, 0)
  {
  }

  lemma SortedRows(a: seq<int>, m: seq<Step>, n: nat)
    requires ValidMove(m) && |a| == 16 && |m| + n == 4 && RowSteps(a) == Sort(m + Nulls(n))
    ensures forall k :: 0 <= k < |m| ==> RowSteps(a)[k] == Sort(m)[k]
  {
    SortNulls(m, n);
  }

  lemma ShowSingles(a: seq<int>, src: seq<int>, dst: seq<int>, s: seq<Step>)
    requires |a| == 16 && |s| <= 4 && PointersTo(src, dst, |s|)
    requires forall k :: 0 <= k < |s| ==> RowSteps(a)[k] == s[k]
    ensures Shows(a, src, dst, Singles(s)) && InRows(src)
  {
    forall k | 0 <= k < 4
      ensures ShowsChain(a, src[k], dst[k], Singles(s)[k])
    {
      assert RowSteps(a)[k] == Step(a[4 * k], a[4 * k + 1]);
    }
  }

  /** After sorting, the slots show the steps in order. */
  lemma SortedShows(a: seq<int>, src: seq<int>, dst: seq<int>, m: seq<Step>)
    requires ValidMove(m) && |a| == 16 && PointersTo(src, dst, |m|)
    requires RowSteps(a) == Sort(m + Nulls(4 - |m|))
    ensures Shows(a, src, dst, Singles(Sort(m))) && InRows(src)
    ensures Linked(Singles(Sort(m)), 0, 0) && Room(Singles(Sort(m)), 0, 0)
  {
    SortedRows(a, m, 4 - |m|);
    ShowSingles(a, src, dst, Sort(m));
    SortSorts(m);
    SortMembers(m);
    SinglesLinked(Sort(m));
    SinglesRoom(Sort(m));
  }

  // ----- Compacting

  /** The live chains among the first j slots, with their counts. */
  function Listed(c: seq<Chain>, cnt: seq<nat>, j: nat): (gs: seq<Group>)
    requires j <= |c| && j <= |cnt|
    ensures |gs| <= j
  {
    if j == 0 then []
    else Listed(c, cnt, j - 1) + if c[j - 1] == [] then [] else [Group(c[j - 1], cnt[j - 1])]
  }

  lemma {:induction false} ListedIsLive(c: seq<Chain>, cnt: seq<nat>, j: nat)
    requires j <= |c| && j <= |cnt|
    ensures |Listed(c, cnt, j)| == |Live(c[..j])|
    ensures forall k :: 0 <= k < |Listed(c, cnt, j)| ==> Listed(c, cnt, j)[k].chain == Live(c[..j])[k]
  {
    if j > 0 {
      ListedIsLive(c, cnt, j - 1);
      assert c[..j] == c[..j - 1] + [c[j - 1]];
      LiveSnoc(c[..j - 1], c[j - 1]);
    }
  }

  lemma {:induction false} ListedSame(c: seq<Chain>, cnt: seq<nat>, c': seq<Chain>, cnt': seq<nat>, j: nat)
    requires j <= |c| && j <= |cnt| && j <= |c'| && j <= |cnt'|
    requires forall k :: 0 <= k < j ==> c[k] == c'[k] && cnt[k] == cnt'[k]
    ensures Listed(c, cnt, j) == Listed(c', cnt', j)
  {
    if j > 0 {
      ListedSame(c, cnt, c', cnt', j - 1);
    }
  }

  /** Slot k shows group g. */
  ghost predicate ShowsGroup(a: seq<int>, src: seq<int>, dst: seq<int>, cnt: seq<nat>, k: nat, g: Group) {
    && |a| == 16 && |src| == |dst| == |cnt| == 4 && k < 4
    && ShowsChain(a, src[k], dst[k], g.chain) && cnt[k] == g.count
  }

  /** Moves the live slots to the front. */
  method CopyDown(a: array<int>, src: array<int>, dst: array<int>, cnt: array<nat>, ghost c: Slots) returns (i: nat)
    requires a != src && a != dst && src != dst && cnt != a as object && cnt != src as object && cnt != dst as object
    requires a.Length == 16 && src.Length == 4 && dst.Length == 4 && cnt.Length == 4
    requires Shows(a[..], src[..], dst[..], c)
    modifies src, dst, cnt
    ensures var gs := Listed(c, old(cnt[..]), 4);
            i == |gs| && forall k :: 0 <= k < i ==> ShowsGroup(a[..], src[..], dst[..], cnt[..], k, gs[k])
  {
    ghost var cnt0 := cnt[..];
    i := 0;
    var j := 0;
    while j < 4
      invariant 0 <= i <= j <= 4 && i == |Listed(c, cnt0, j)|
      invariant forall k :: 0 <= k < i ==> ShowsGroup(a[..], src[..], dst[..], cnt[..], k, Listed(c, cnt0, j)[k])
      invariant forall k :: j <= k < 4 ==> ShowsChain(a[..], src[k], dst[k], c[k]) && cnt[k] == cnt0[k]
    {
      assert ShowsChain(a[..], src[j], dst[j], c[j]);
      if src[j] >= 0 {
        CopySlot(src, dst, cnt, i, j);
        i := i + 1;
      }
      j := j + 1;
    }
  }

  method CopySlot(src: array<int>, dst: array<int>, cnt: array<nat>, i: nat, j: nat)
    requires src != dst && cnt != src as object && cnt != dst as object
    requires src.Length == 4 && dst.Length == 4 && cnt.Length == 4 && i <= j < 4
    modifies src, dst, cnt
    ensures src[..] == old(src[..])[i := old(src[j])]
    ensures dst[..] == old(dst[..])[i := old(dst[j])]
    ensures cnt[..] == old(cnt[..])[i := old(cnt[j])]
  {
    if j > i {
      src[i] := src[j];
      dst[i] := dst[j];
      cnt[i] := cnt[j];
    }
  }

  function Compacted(c: Slots): (d: Slots) {
    var live := Live(c);
    var d: seq<Chain> := seq(4, k requires 0 <= k < 4 => if k < |live| then live[k] else []);
    assert |d| == 4;
    d
  }

  /** The slots from n on are cleared. */
  method ClearFrom(src: array<int>, n: nat)
    requires src.Length == 4 && n <= 4
    modifies src
    ensures forall k :: 0 <= k < 4 ==> src[k] == if k < n then old(src[k]) else -1
  {
    var i := n;
    while i < 4
      invariant n <= i <= 4
      invariant forall k :: 0 <= k < 4 ==> src[k] == if n <= k < i then -1 else old(src[k])
    {
      src[i] := -1;
      i := i + 1;
    }
  }

  lemma CompactedShows(a: seq<int>, src: seq<int>, dst: seq<int>, c: Slots, gs: seq<Group>)
    requires |a| == 16 && |src| == 4 && |dst| == 4 && |gs| == |Live(c)|
    requires forall k :: 0 <= k < |gs| ==> gs[k].chain == Live(c)[k]
    requires forall k :: 0 <= k < |gs| && k < 4 ==> ShowsChain(a, src[k], dst[k], gs[k].chain)
    requires forall k :: |gs| <= k < 4 ==> src[k] == -1
    ensures Shows(a, src, dst, Compacted(c))
  {
    var d := Compacted(c);
    forall k: nat | k < 4 ensures ShowsChain(a, src[k], dst[k], d[k]) {
      if k < |gs| {
        assert d[k] == gs[k].chain;
      } else {
        assert d[k] == [];
      }
    }
  }

  /** The first compaction, which also clears the rest of the slots. */
  method CompactChains(a: array<int>, src: array<int>, dst: array<int>, cnt: array<nat>, ghost c: Slots)
    requires a != src && a != dst && src != dst && cnt != a as object && cnt != src as object && cnt != dst as object
    requires a.Length == 16 && src.Length == 4 && dst.Length == 4 && cnt.Length == 4
    requires Shows(a[..], src[..], dst[..], c)
    modifies src, dst, cnt
    ensures Shows(a[..], src[..], dst[..], Compacted(c))
  {
    ghost var gs := Listed(c, cnt[..], 4);
    ListedIsLive(c, cnt[..], 4);
    assert c[..4] == c;
    var n := CopyDown(a, src, dst, cnt, c);
    ghost var src1 := src[..];
    assert forall k :: 0 <= k < n ==> ShowsGroup(a[..], src1, dst[..], cnt[..], k, gs[k]);
    ClearFrom(src, n);
    CompactedShows(a[..], src[..], dst[..], c, gs);
  }

  // ----- Counting duplicates

  /** The slots once duplicates of x between i and j are cleared. */
  function ErasedTo(c: Slots, i: nat, j: nat, x: Chain): Slots {
    seq(4, k requires 0 <= k < 4 => if i < k < j && c[k] == x then [] else c[k])
  }

  method SameChain(a: array<int>, src: array<int>, dst: array<int>, i: nat, j: nat, ghost c: Slots) returns (same: bool)
    requires a.Length == 16 && src.Length == 4 && dst.Length == 4 && i < 4 && j < 4
    requires Shows(a[..], src[..], dst[..], c) && c[i] != [] && c[j] != []
    ensures same == (c[i] == c[j])
  {
    assert ShowsChain(a[..], src[i], dst[i], c[i]) && ShowsChain(a[..], src[j], dst[j], c[j]);
    var nMoves := dst[i] - src[i];
    same := true;
    if dst[j] - src[j] != nMoves {
      same := false;
    } else {
      var k := 0;
      while k <= nMoves && same
        invariant 0 <= k <= |c[i]|
        invariant same ==> forall l :: 0 <= l < k ==> c[i][l] == c[j][l]
        invariant !same ==> c[i] != c[j]
      {
        assert a[..][src[i] + k] == c[i][k] && a[..][src[j] + k] == c[j][k];
        if a[src[i] + k] != a[src[j] + k] {
          same := false;
        }
        k := k + 1;
      }
    }
  }

  /** The loop over the slots after i. */
  method CountSlot(a: array<int>, src: array<int>, dst: array<int>, cnt: array<nat>, i: nat, ghost c: Slots)
    requires a != src && a != dst && src != dst && cnt != a as object && cnt != src as object && cnt != dst as object
    requires a.Length == 16 && src.Length == 4 && dst.Length == 4 && cnt.Length == 4
    requires i < 4 && c[i] != [] && cnt[i] == 1 && Shows(a[..], src[..], dst[..], c)
    modifies src, cnt
    ensures Shows(a[..], src[..], dst[..], ErasedTo(c, i, 4, c[i]))
    ensures cnt[i] == 1 + Count(c[i + 1..], c[i]) && forall k :: 0 <= k < 4 && k != i ==> cnt[k] == old(cnt[k])
  {
    ghost var x := c[i];
    var j := i + 1;
    while j < 4
      invariant i < j <= 4
      invariant Shows(a[..], src[..], dst[..], ErasedTo(c, i, j, x))
      invariant cnt[i] == 1 + Count(c[i + 1..j], x) && forall k :: 0 <= k < 4 && k != i ==> cnt[k] == old(cnt[k])
    {
      CountOne(a, src, dst, cnt, i, j, c);
      j := j + 1;
    }
    assert c[i + 1..4] == c[i + 1..];
  }

  /** Slot j, for slot i: counted and cleared if it shows the same chain. */
  method CountOne(a: array<int>, src: array<int>, dst: array<int>, cnt: array<nat>, i: nat, j: nat, ghost c: Slots)
    requires a != src && a != dst && src != dst && cnt != a as object && cnt != src as object && cnt != dst as object
    requires a.Length == 16 && src.Length == 4 && dst.Length == 4 && cnt.Length == 4
    requires i < j < 4 && c[i] != [] && Shows(a[..], src[..], dst[..], ErasedTo(c, i, j, c[i]))
    requires cnt[i] == 1 + Count(c[i + 1..j], c[i])
    modifies src, cnt
    ensures Shows(a[..], src[..], dst[..], ErasedTo(c, i, j + 1, c[i]))
    ensures cnt[i] == 1 + Count(c[i + 1..j + 1], c[i]) && forall k :: 0 <= k < 4 && k != i ==> cnt[k] == old(cnt[k])
  {
    ghost var d := ErasedTo(c, i, j, c[i]);
    assert ShowsChain(a[..], src[j], dst[j], d[j]);
    assert c[i + 1..j + 1] == c[i + 1..j] + [c[j]];
    CountSnoc(c[i + 1..j], c[j], c[i]);
    var same := false;
    if src[j] >= 0 {
      same := SameChain(a, src, dst, i, j, d);
    }
    if same {
      cnt[i] := cnt[i] + 1;
      ClearSlot(a, src, dst, j, d);
      assert ErasedTo(c, i, j + 1, c[i]) == d[j := []];
    } else {
      assert ErasedTo(c, i, j + 1, c[i]) == d;
    }
  }

  method ClearSlot(a: array<int>, src: array<int>, dst: array<int>, j: nat, ghost c: Slots)
    requires a != src && src != dst
    requires a.Length == 16 && src.Length == 4 && dst.Length == 4 && j < 4
    requires Shows(a[..], src[..], dst[..], c)
    modifies src
    ensures Shows(a[..], src[..], dst[..], c[j := []])
  {
    assert forall k :: 0 <= k < 4 ==> ShowsChain(a[..], src[k], dst[k], c[k]);
    src[j] := -1;
  }

  /** The counting loops have dealt with the slots before i. */
  ghost predicate Counted(c: Slots, cnt: seq<nat>, i: nat, c0: Slots) {
    && |cnt| == 4 && i <= 4
    && Listed(c, cnt, i) + Groups(c[i..]) == Groups(c0)
    && forall k :: i <= k < 4 && c[k] != [] ==> cnt[k] == 1
  }

  lemma CountedNone(c: Slots, cnt: seq<nat>)
    requires |cnt| == 4 && forall k :: 0 <= k < 4 && c[k] != [] ==> cnt[k] == 1
    ensures Counted(c, cnt, 0, c)
  {
    assert c[0..] == c;
  }

  lemma CountedSkip(c: Slots, cnt: seq<nat>, i: nat, c0: Slots)
    requires i < 4 && Counted(c, cnt, i, c0) && c[i] == []
    ensures Counted(c, cnt, i + 1, c0)
  {
    assert c[i..][1..] == c[i + 1..];
  }

  lemma GroupsStep(c: Slots, i: nat)
    requires i < 4 && c[i] != []
    ensures var d := ErasedTo(c, i, 4, c[i]);
            Groups(c[i..]) == [Group(c[i], 1 + Count(c[i + 1..], c[i]))] + Groups(d[i + 1..])
  {
    assert c[i..][1..] == c[i + 1..];
    assert ErasedTo(c, i, 4, c[i])[i + 1..] == Erase(c[i + 1..], c[i]);
  }

  lemma ListedStep(c: Slots, cnt: seq<nat>, cnt': seq<nat>, i: nat)
    requires i < 4 && c[i] != [] && |cnt| == |cnt'| == 4
    requires forall k :: 0 <= k < i ==> cnt'[k] == cnt[k]
    ensures Listed(ErasedTo(c, i, 4, c[i]), cnt', i + 1) == Listed(c, cnt, i) + [Group(c[i], cnt'[i])]
  {
    ListedSame(c, cnt, ErasedTo(c, i, 4, c[i]), cnt', i);
  }

  lemma CountedStep(c: Slots, cnt: seq<nat>, cnt': seq<nat>, i: nat, c0: Slots)
    requires i < 4 && Counted(c, cnt, i, c0) && c[i] != [] && |cnt'| == 4
    requires cnt'[i] == 1 + Count(c[i + 1..], c[i]) && forall k :: 0 <= k < 4 && k != i ==> cnt'[k] == cnt[k]
    ensures Counted(ErasedTo(c, i, 4, c[i]), cnt', i + 1, c0)
  {
    GroupsStep(c, i);
    ListedStep(c, cnt, cnt', i);
    Shifted(Listed(c, cnt, i), Group(c[i], cnt'[i]), Groups(ErasedTo(c, i, 4, c[i])[i + 1..]));
  }

  lemma Shifted(a: seq<Group>, g: Group, b: seq<Group>)
    ensures (a + [g]) + b == a + ([g] + b)
  {
  }

  /** The last slot has no slots after it, so the loops may leave it out. */
  lemma CountedLast(c: Slots, cnt: seq<nat>, c0: Slots)
    requires Counted(c, cnt, 3, c0)
    ensures Counted(c, cnt, 4, c0) && Listed(c, cnt, 4) == Groups(c0)
  {
    assert c[3..][1..] == [] && c[4..] == [];
    if c[3] == [] {
      CountedSkip(c, cnt, 3, c0);
    } else {
      assert Groups(c[3..]) == [Group(c[3], 1)];
    }
  }

  method InitCounts(src: array<int>, cnt: array<nat>)
    requires cnt != src as object && src.Length == 4 && cnt.Length == 4
    modifies cnt
    ensures forall k :: 0 <= k < 4 ==> cnt[k] == if src[k] >= 0 then 1 else 0
  {
    var i := 0;
    while i < 4
      invariant 0 <= i <= 4 && forall k :: 0 <= k < i ==> cnt[k] == if src[k] >= 0 then 1 else 0
    {
      cnt[i] := if src[i] >= 0 then 1 else 0;
      i := i + 1;
    }
  }

  method CountDuplicates(a: array<int>, src: array<int>, dst: array<int>, cnt: array<nat>, ghost c0: Slots)
    returns (ghost c: Slots)
    requires a != src && a != dst && src != dst && cnt != a as object && cnt != src as object && cnt != dst as object
    requires a.Length == 16 && src.Length == 4 && dst.Length == 4 && cnt.Length == 4
    requires Shows(a[..], src[..], dst[..], c0)
    modifies src, cnt
    ensures Shows(a[..], src[..], dst[..], c) && Listed(c, cnt[..], 4) == Groups(c0)
  {
    InitCounts(src, cnt);
    c := c0;
    forall k | 0 <= k < 4 && c0[k] != []
      ensures cnt[k] == 1
    {
      assert ShowsChain(a[..], src[k], dst[k], c0[k]);
    }
    CountedNone(c0, cnt[..]);
    var i := 0;
    while i < 3
      invariant 0 <= i <= 3
      invariant Shows(a[..], src[..], dst[..], c) && Counted(c, cnt[..], i, c0)
    {
      ghost var cnt0: seq<nat> := cnt[..];
      assert ShowsChain(a[..], src[i], dst[i], c[i]);
      if src[i] >= 0 {
        CountSlot(a, src, dst, cnt, i, c);
        CountedStep(c, cnt0, cnt[..], i, c0);
        c := ErasedTo(c, i, 4, c[i]);
      } else {
        CountedSkip(c, cnt0, i, c0);
      }
      i := i + 1;
    }
    CountedLast(c, cnt[..], c0);
  }

  // ----- Printing

  method PrintPoint(n: int) returns (s: string)
    requires OFF <= n <= BAR
    ensures s == Point(n)
  {
    if n == 0 {
      return "off";
    } else if n == 25 {
      return "bar";
    }
    s := "";
    if n > 9 {
      s := s + [Digit(n / 10)];
    }
    s := s + [Digit(n % 10)];
  }

  /** Prints one chain, its stars and its count, and keeps the flags. */
  method PrintGroup(opp: Opponent, a: array<int>, source: int, dest: int, count: nat, fl: set<int>, ghost g: Group)
    returns (s: string, fl': set<int>)
    requires a.Length == 16 && ValidGroup(g) && ShowsChain(a[..], source, dest, g.chain) && count == g.count
    ensures s == GroupText(opp, g, fl) && fl' == FlagsAfter(opp, g.chain, fl)
  {
    EndsAt(a[..], source, dest, g.chain);
    s, fl' := PrintMiddle(a, source, dest, fl, g.chain);
    var end := PrintPoint(a[dest]);
    s := s + "/" + end;
    if a[dest] != 0 && opp[24 - a[dest]] > 0 && a[dest] !in fl' {
      s := s + "*";
      fl' := fl' + {a[dest]};
    }
    if count > 1 {
      s := s + ['(', Digit(count), ')'];
    }
  }

  /** The source and the intermediate points, which all get a star. */
  method PrintMiddle(a: array<int>, source: int, dest: int, fl: set<int>, ghost c: Chain)
    returns (s: string, fl': set<int>)
    requires a.Length == 16 && ValidChain(c) && ShowsChain(a[..], source, dest, c)
    ensures s == Point(c[0]) + Middle(c, 1) && fl' == fl + Mids(c)
  {
    EndsAt(a[..], source, dest, c);
    s := PrintPoint(a[source]);
    ghost var start := s;
    fl' := fl;
    var j := 1;
    while source + j < dest
      invariant 1 <= j <= |c| - 1
      invariant s + Middle(c, j) == start + Middle(c, 1)
      invariant fl' + MidsFrom(c, j) == fl + Mids(c)
    {
      assert a[..][source + j] == c[j];
      var p := PrintPoint(a[source + j]);
      MiddleStep(s, c, j);
      s := s + "/" + p + "*";
      fl' := fl' + {a[source + j]};
      j := j + 1;
    }
    assert s + "" == s;
  }

  lemma MiddleStep(s: string, c: Chain, j: nat)
    requires ValidChain(c) && 1 <= j < |c| - 1
    ensures s + "/" + Point(c[j]) + "*" + Middle(c, j + 1) == s + Middle(c, j)
    ensures MidsFrom(c, j) == MidsFrom(c, j + 1) + {c[j]}
  {
    assert Middle(c, j) == "/" + Point(c[j]) + "*" + Middle(c, j + 1);
  }

  /** The blank before group i, when there is one. */
  function Sep(i: nat, n: nat): string {
    if 0 < i < n then " " else ""
  }

  /** What has been printed before group i is a prefix of the whole text. */
  ghost predicate Printed(opp: Opponent, gs: seq<Group>, i: nat, fl: set<int>, sz: string)
    requires ValidGroups(gs) && i <= |gs|
  {
    sz + Sep(i, |gs|) + Text(opp, gs[i..], fl) == Text(opp, gs, {})
  }

  lemma PrintedNone(opp: Opponent, gs: seq<Group>)
    requires ValidGroups(gs)
    ensures Printed(opp, gs, 0, {}, "")
  {
    assert gs[0..] == gs;
    assert "" + "" + Text(opp, gs, {}) == Text(opp, gs, {});
  }

  lemma PrintedOne(opp: Opponent, gs: seq<Group>, i: nat, fl: set<int>, sz: string)
    requires ValidGroups(gs) && i < |gs| && Printed(opp, gs, i, fl, sz)
    ensures Printed(opp, gs, i + 1, FlagsAfter(opp, gs[i].chain, fl), sz + Sep(i, |gs|) + GroupText(opp, gs[i], fl))
  {
    TextStep(opp, gs, i, fl);
    Glue(sz + Sep(i, |gs|), GroupText(opp, gs[i], fl), Sep(i + 1, |gs|),
         Text(opp, gs[i + 1..], FlagsAfter(opp, gs[i].chain, fl)));
  }

  lemma PrintedAll(opp: Opponent, gs: seq<Group>, i: nat, fl: set<int>, sz: string)
    requires ValidGroups(gs) && i == |gs| && Printed(opp, gs, i, fl, sz)
    ensures sz == Text(opp, gs, {})
  {
    assert sz + "" + "" == sz;
  }

  /** Prints the groups that the slots show, up to the first null pointer. */
  method PrintGroups(opp: Opponent, a: array<int>, src: array<int>, dst: array<int>, cnt: array<nat>, ghost gs: seq<Group>)
    returns (sz: string)
    requires a.Length == 16 && src.Length == 4 && dst.Length == 4 && cnt.Length == 4
    requires ValidGroups(gs) && |gs| <= 4 && (|gs| < 4 ==> src[|gs|] == -1)
    requires forall k :: 0 <= k < |gs| ==> ShowsGroup(a[..], src[..], dst[..], cnt[..], k, gs[k])
    ensures sz == Text(opp, gs, {})
  {
    sz := "";
    var fl: set<int> := {};
    var i := 0;
    PrintedNone(opp, gs);
    while i < 4 && src[i] >= 0
      invariant 0 <= i <= |gs| && Printed(opp, gs, i, fl, sz)
    {
      assert i < |gs|;
      assert ShowsGroup(a[..], src[..], dst[..], cnt[..], i, gs[i]);
      var s, fl' := PrintGroup(opp, a, src[i], dst[i], cnt[i], fl, gs[i]);
      PrintedOne(opp, gs, i, fl, sz);
      sz := sz + (if i > 0 then " " else "") + s;
      fl := fl';
      i := i + 1;
    }
    if i < |gs| {
      assert ShowsGroup(a[..], src[..], dst[..], cnt[..], i, gs[i]);
      GroupHasChain(gs[i]);
    }
    PrintedAll(opp, gs, i, fl, sz);
  }

  lemma GroupHasChain(g: Group)
    requires ValidGroup(g)
    ensures g.chain != []
  {
  }

  lemma Glue(sz: string, s: string, sep: string, left: string)
    ensures sz + (s + sep + left) == sz + s + sep + left
  {
  }

  lemma TextStep(opp: Opponent, gs: seq<Group>, i: nat, fl: set<int>)
    requires ValidGroups(gs) && i < |gs|
    ensures Text(opp, gs[i..], fl)
         == GroupText(opp, gs[i], fl) + Sep(i + 1, |gs|) + Text(opp, gs[i + 1..], FlagsAfter(opp, gs[i].chain, fl))
  {
    assert gs[i..][1..] == gs[i + 1..];
  }

  /** The whole of FormatMove. */
  method FormatMove(opp: Opponent, anMove: array<int>) returns (sz: string)
    requires anMove.Length == 8 && ValidMove(StepsOf(anMove[..]))
    ensures sz == MoveString(opp, StepsOf(anMove[..]))
  {
    ghost var m := StepsOf(anMove[..]);
    var a, src, dst, cnt := new int[16], new int[4], new int[4], new nat[4](_ => 0);
    LoadMove(anMove, a, src, dst);
    SortRows(a);
    SortedShows(a[..], src[..], dst[..], m);
    JoinMoves(opp, a, src, dst, Singles(Sort(m)));
    sz := PrintJoined(opp, a, src, dst, cnt, SlotsOf(opp, m), m);
  }

  method PrintJoined(opp: Opponent, a: array<int>, src: array<int>, dst: array<int>, cnt: array<nat>,
                     ghost c: Slots, ghost m: seq<Step>) returns (sz: string)
    requires a != src && a != dst && src != dst && cnt != a as object && cnt != src as object && cnt != dst as object
    requires a.Length == 16 && src.Length == 4 && dst.Length == 4 && cnt.Length == 4
    requires ValidMove(m) && c == SlotsOf(opp, m) && Shows(a[..], src[..], dst[..], c)
    modifies src, dst, cnt
    ensures sz == MoveString(opp, m)
  {
    CompactChains(a, src, dst, cnt, c);
    ghost var d := CountDuplicates(a, src, dst, cnt, Compacted(c));
    GroupsOfCompacted(c);
    ghost var gs := Listed(d, cnt[..], 4);
    var n := CopyDown(a, src, dst, cnt, d);
    if n < 4 {
      src[n] := -1;
    }
    GroupsOfMove(opp, m);
    forall k | 0 <= k < |gs|
      ensures ShowsGroup(a[..], src[..], dst[..], cnt[..], k, gs[k])
    {
    }
    sz := PrintGroups(opp, a, src, dst, cnt, gs);
  }

  lemma GroupsOfCompacted(c: Slots)
    ensures Groups(Compacted(c)) == Groups(c)
  {
    LiveLength(c);
    LiveOfPadded(Live(c), Compacted(c));
    GroupsOfLive(c);
    GroupsOfLive(Compacted(c));
  }

  lemma {:induction false} LiveOfPadded(live: seq<Chain>, c: seq<Chain>)
    requires |live| <= |c| && forall k :: 0 <= k < |live| ==> live[k] != []
    requires forall k :: 0 <= k < |c| ==> c[k] == if k < |live| then live[k] else []
    ensures Live(c) == live
  {
    if c != [] {
      LiveOfPadded(if live == [] then [] else live[1..], c[1..]);
    }
  }
}
