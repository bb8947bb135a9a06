/** Position numbers (gnubg/positionid.c).  A board with |b| points is coded as
    a bit pattern, one mark per point, and the pattern is ranked in the
    combinatorial number system.  `Rank` is the closed form that the recursions
    and loops of the C code are proved to compute, and it is proved to be a
    bijection. */
module PositionId {
  import opened Combinatorics

  /** A board is the number of chequers on each point, lowest point first. */
  type Board = seq<nat>

  /** A 32-bit word used as a bitmap, given by the set of its 1 bits. */
  type Bits = set<nat>

  // ----- Boards

  function Sum(b: Board): nat {
    if b == [] then 0 else b[0] + Sum(b[1..])
  }

  lemma {:induction false} SumOfUpdate(b: Board, i: nat, v: nat)
    requires i < |b|
    ensures Sum(b[i := v]) == Sum(b) - b[i] + v
  {
    if i == 0 {
      assert b[i := v][1..] == b[1..];
    } else {
      assert b[i := v][1..] == b[1..][i - 1 := v];
      SumOfUpdate(b[1..], i - 1, v);
    }
  }

  lemma {:induction false} SumOfSnoc(b: Board, v: nat)
    ensures Sum(b + [v]) == Sum(b) + v
  {
    if b == [] {
      assert b + [v] == [v];
      assert [v][1..] == [];
    } else {
      assert (b + [v])[1..] == b[1..] + [v];
      SumOfSnoc(b[1..], v);
    }
  }

  lemma {:induction false} SumBoundsPoint(b: Board, i: nat)
    requires i < |b|
    ensures b[i] + Sum(b[i + 1..]) <= Sum(b)
  {
    if i > 0 {
      SumBoundsPoint(b[1..], i - 1);
      assert b[1..][i..] == b[i + 1..];
    }
  }

  // ----- The rank

  /** The number of boards with this many points that come before b, when
      boards are ordered by their number of chequers on all points, then on all
      but the first, and so on. */
  function Rank(b: Board): nat {
    if b == [] then 0 else Choose(Sum(b) + |b| - 1, |b|) + Rank(b[1..])
  }

  /** A board's rank lies between the number of boards with fewer chequers and
      the number with no more chequers. */
  lemma {:induction false} RankBounds(b: Board)
    ensures b != [] ==> Choose(Sum(b) + |b| - 1, |b|) <= Rank(b)
    ensures Rank(b) < Choose(Sum(b) + |b|, |b|)
  {
    if b != [] {
      RankBounds(b[1..]);
      ChooseMonotone(Sum(b[1..]) + |b| - 1, Sum(b) + |b| - 1, |b| - 1);
    }
  }

  /** Different boards have different ranks. */
  lemma {:induction false} RankInjective(a: Board, b: Board)
    requires |a| == |b| && Rank(a) == Rank(b)
    ensures a == b
  {
    if a != [] {
      RankBounds(a);
      RankBounds(b);
      if Sum(a) < Sum(b) {
        ChooseMonotone(Sum(a) + |a|, Sum(b) + |b| - 1, |a|);
      } else if Sum(b) < Sum(a) {
        ChooseMonotone(Sum(b) + |b|, Sum(a) + |a| - 1, |a|);
      }
      RankInjective(a[1..], b[1..]);
      assert a == [a[0]] + a[1..] && b == [b[0]] + b[1..];
    }
  }

  /** Every number below Choose(points + chequers, points) is the rank of a
      board with at most that many chequers. */
  lemma {:induction false} RankSurjective(id: nat, points: nat, chequers: nat) returns (b: Board)
    requires id < Choose(points + chequers, points)
    ensures |b| == points && Sum(b) <= chequers && Rank(b) == id
    decreases points, chequers
  {
    if points == 0 {
      b := [];
    } else if id < Choose(points + chequers - 1, points) {
      if chequers == 0 {
        ChooseTooMany(points - 1, points);
      }
      b := RankSurjective(id, points, chequers - 1);
    } else {
      var tail := RankSurjective(id - Choose(points + chequers - 1, points), points - 1, chequers);
      b := [chequers - Sum(tail)] + tail;
      assert b[1..] == tail;
    }
  }

  /** The ranks of boards with at most `chequers` chequers are exactly the
      numbers below Choose(points + chequers, points). */
  lemma RankRange(b: Board, chequers: nat)
    ensures Sum(b) <= chequers <==> Rank(b) < Choose(|b| + chequers, |b|)
  {
    RankBounds(b);
    if Sum(b) <= chequers {
      ChooseMonotone(Sum(b) + |b|, chequers + |b|, |b|);
    } else if b != [] {
      ChooseMonotone(chequers + |b|, Sum(b) + |b| - 1, |b|);
    }
  }

  lemma ChooseGrows(m: nat, n: nat, r: nat)
    requires m < n && 1 <= r && r - 1 <= m
    ensures Choose(m, r) < Choose(n, r)
  {
    ChoosePositive(m, r - 1);
    ChooseMonotone(m + 1, n, r);
  }

  /** Taking a chequer off a point lowers the rank. */
  lemma {:induction false} RankOfBearOff(b: Board, n: nat)
    requires n < |b| && b[n] > 0
    ensures Rank(b[n := b[n] - 1]) < Rank(b)
  {
    var a := b[n := b[n] - 1];
    SumOfUpdate(b, n, b[n] - 1);
    if n == 0 {
      assert a[1..] == b[1..];
      ChooseGrows(Sum(a) + |a| - 1, Sum(b) + |b| - 1, |b|);
    } else {
      assert a[1..] == b[1..][n - 1 := b[n] - 1];
      RankOfBearOff(b[1..], n - 1);
      ChooseMonotone(Sum(a) + |a| - 1, Sum(b) + |b| - 1, |b|);
    }
  }

  /** Moving a chequer to a lower point lowers the rank. */
  lemma {:induction false} RankOfStep(b: Board, n: nat, to: nat)
    requires to < n < |b| && b[n] > 0
    ensures Rank(b[n := b[n] - 1][to := b[to] + 1]) < Rank(b)
  {
    var a := b[n := b[n] - 1][to := b[to] + 1];
    SumOfUpdate(b, n, b[n] - 1);
    SumOfUpdate(b[n := b[n] - 1], to, b[to] + 1);
    if to > 0 {
      RankOfStep(b[1..], n - 1, to - 1);
      assert a[1..] == b[1..][n - 1 := b[n] - 1][to - 1 := b[to] + 1];
    } else {
      RankOfBearOff(b[1..], n - 1);
      assert a[1..] == b[1..][n - 1 := b[n] - 1];
    }
  }

  // ----- Bit patterns

  /** One mark per point: the number of chequers from the point upwards plus the
      number of points above it. */
  function Marks(b: Board): Bits {
    if b == [] then {} else {Sum(b) + |b| - 1} + Marks(b[1..])
  }

  function CountBelow(bits: Bits, n: nat): (count: nat)
    ensures count <= n
  {
    if n == 0 then 0 else CountBelow(bits, n - 1) + if n - 1 in bits then 1 else 0
  }

  lemma {:induction false} MarksBelow(b: Board)
    ensures forall m :: m in Marks(b) ==> m < Sum(b) + |b|
  {
    if b != [] {
      MarksBelow(b[1..]);
    }
  }

  lemma {:induction false} CountBelowSame(x: Bits, y: Bits, n: nat)
    requires forall m: nat :: m < n ==> (m in x <==> m in y)
    ensures CountBelow(x, n) == CountBelow(y, n)
  {
    if n > 0 {
      CountBelowSame(x, y, n - 1);
    }
  }

  lemma {:induction false} CountBelowMonotone(bits: Bits, m: nat, n: nat)
    requires m <= n
    ensures CountBelow(bits, m) <= CountBelow(bits, n)
    ensures CountBelow(bits, m) == CountBelow(bits, n) ==> forall k :: m <= k < n ==> k !in bits
    ensures (forall k :: m <= k < n ==> k !in bits) ==> CountBelow(bits, m) == CountBelow(bits, n)
    decreases n
  {
    if m < n {
      CountBelowMonotone(bits, m, n - 1);
    }
  }

  /** A board with |b| points has |b| marks. */
  lemma {:induction false} CountMarks(b: Board, n: nat)
    requires Sum(b) + |b| <= n
    ensures CountBelow(Marks(b), n) == |b|
  {
    MarksBelow(b);
    if b == [] {
      CountBelowMonotone({}, 0, n);
    } else {
      var top := Sum(b) + |b| - 1;
      MarksBelow(b[1..]);
      CountMarks(b[1..], top);
      CountBelowSame(Marks(b), Marks(b[1..]), top);
      CountBelowMonotone(Marks(b), top + 1, n);
    }
  }

  /** Ranks the r bits below position n, as gnubg/positionid.c does. */
  function PositionF(bits: Bits, n: nat, r: nat): nat
    requires CountBelow(bits, n) == r
  {
    if n == r then 0
    else if n - 1 in bits then Choose(n - 1, r) + PositionF(bits, n - 1, r - 1)
    else PositionF(bits, n - 1, r)
  }

  lemma {:induction false} PositionFSame(x: Bits, y: Bits, n: nat, r: nat)
    requires CountBelow(x, n) == CountBelow(y, n) == r
    requires forall m: nat :: m < n ==> (m in x <==> m in y)
    ensures PositionF(x, n, r) == PositionF(y, n, r)
  {
    if n != r {
      CountBelowSame(x, y, n - 1);
      PositionFSame(x, y, n - 1, if n - 1 in x then r - 1 else r);
    }
  }

  /** The recursion over bits computes the closed form. */
  lemma {:induction false} PositionFIsRank(b: Board, n: nat)
    requires Sum(b) + |b| <= n
    ensures CountBelow(Marks(b), n) == |b|
    ensures PositionF(Marks(b), n, |b|) == Rank(b)
    decreases |b|, n
  {
    CountMarks(b, n);
    MarksBelow(b);
    if n == |b| {
      RankOfEmpty(b);
    } else if Sum(b) + |b| < n {
      PositionFIsRank(b, n - 1);
    } else if b != [] {
      MarksBelow(b[1..]);
      CountMarks(b[1..], n - 1);
      PositionFIsRank(b[1..], n - 1);
      PositionFSame(Marks(b), Marks(b[1..]), n - 1, |b| - 1);
    }
  }

  lemma {:induction false} RankOfEmpty(b: Board)
    requires Sum(b) == 0
    ensures Rank(b) == 0
  {
    if b != [] {
      RankOfEmpty(b[1..]);
      ChooseTooMany(|b| - 1, |b|);
    }
  }

  /** The word with its n lowest bits set. */
  function AllBelow(n: nat): (bits: Bits)
    ensures forall k: nat :: k in bits <==> k < n
  {
    if n == 0 then {} else {n - 1} + AllBelow(n - 1)
  }

  /** The r bits below position n whose rank is id. */
  function PositionInv(id: nat, n: nat, r: nat): Bits
    requires r <= n
  {
    if r == 0 then {}
    else if n == r then AllBelow(n)
    else
      var nC := Choose(n - 1, r);
      if id >= nC then {n - 1} + PositionInv(id - nC, n - 1, r - 1) else PositionInv(id, n - 1, r)
  }

  lemma {:induction false} PositionInvBits(id: nat, n: nat, r: nat)
    requires r <= n
    ensures forall k :: k in PositionInv(id, n, r) ==> k < n
    ensures CountBelow(PositionInv(id, n, r), n) == r
  {
    var bits := PositionInv(id, n, r);
    if r == 0 {
      CountBelowMonotone(bits, 0, n);
    } else if n == r {
      CountAllBelow(bits, n);
    } else if id >= Choose(n - 1, r) {
      PositionInvBits(id - Choose(n - 1, r), n - 1, r - 1);
      CountBelowSame(bits, PositionInv(id - Choose(n - 1, r), n - 1, r - 1), n - 1);
    } else {
      PositionInvBits(id, n - 1, r);
    }
  }

  lemma {:induction false} CountAllBelow(bits: Bits, n: nat)
    requires forall k: nat :: k < n ==> k in bits
    ensures CountBelow(bits, n) == n
  {
    if n > 0 {
      CountAllBelow(bits, n - 1);
    }
  }

  /** PositionInv is a right inverse of PositionF on the whole range. */
  lemma {:induction false} PositionFOfInv(id: nat, n: nat, r: nat)
    requires r <= n && id < Choose(n, r)
    ensures CountBelow(PositionInv(id, n, r), n) == r
    ensures PositionF(PositionInv(id, n, r), n, r) == id
  {
    var bits := PositionInv(id, n, r);
    PositionInvBits(id, n, r);
    if n == r {
      ChooseAll(n);
    } else if r == 0 {
      PositionFNoBits(bits, n);
    } else if id >= Choose(n - 1, r) {
      var rest := PositionInv(id - Choose(n - 1, r), n - 1, r - 1);
      PositionFOfInv(id - Choose(n - 1, r), n - 1, r - 1);
      PositionFSame(bits, rest, n - 1, r - 1);
    } else {
      PositionInvBits(id, n - 1, r);
      PositionFOfInv(id, n - 1, r);
    }
  }

  lemma {:induction false} PositionFNoBits(bits: Bits, n: nat)
    requires CountBelow(bits, n) == 0
    ensures PositionF(bits, n, 0) == 0
  {
    if n > 0 {
      PositionFNoBits(bits, n - 1);
    }
  }

  // ----- The imperative coder and decoder

  /** Builds the bit pattern of a board from its highest mark down. */
  method BuildBits(board: array<nat>, points: nat) returns (bits: Bits)
    requires 1 <= points <= board.Length
    ensures bits == Marks(board[..points])
  {
    ghost var b := board[..points];
    var j, i := points - 1, 0;
    while i < points
      invariant 0 <= i <= points
      invariant j == points - 1 + Sum(b[..i])
    {
      SumOfSnoc(b[..i], b[i]);
      assert b[..i] + [b[i]] == b[..i + 1];
      j := j + board[i];
      i := i + 1;
    }
    assert b[..points] == b && b[0..] == b;
    bits := {j};
    i := 0;
    while i < points - 1
      invariant 0 <= i <= points - 1
      invariant j == Sum(b[i..]) + points - 1 - i
      invariant bits + Marks(b[i + 1..]) == Marks(b)
    {
      assert b[i..][1..] == b[i + 1..] && b[i + 1..][1..] == b[i + 2..];
      j := j - (board[i] + 1);
      bits := bits + {j};
      i := i + 1;
    }
    assert b[points..] == [];
  }

  /** The number of a bearoff position. */
  method PositionBearoff(board: array<nat>, points: nat, chequers: nat) returns (id: nat)
    requires 1 <= points <= board.Length && Sum(board[..points]) <= chequers
    ensures id == Rank(board[..points])
    ensures id < Choose(points + chequers, points)
  {
    var bits := BuildBits(board, points);
    PositionFIsRank(board[..points], chequers + points);
    RankRange(board[..points], chequers);
    id := PositionF(bits, chequers + points, points);
  }

  /** The index of a group of occupied points.  The source fixes 15 as the
      length of the pattern and stores the result in 16 bits. */
  method PositionIndex(g: nat, board: array<nat>) returns (index: nat)
    requires 1 <= g <= board.Length && Sum(board[..g]) + g <= 15
    ensures index == Rank(board[..g]) < Choose(15, g)
    ensures index < 0x1_0000
  {
    var bits := BuildBits(board, g);
    PositionFIsRank(board[..g], 15);
    RankRange(board[..g], 15 - g);
    ChooseFits(15, g);
    Power2At15();
    index := PositionF(bits, 15, g) % 0x1_0000;
  }

  lemma Power2At15()
    ensures Power2(15) == 0x8000
  {
    Power2Plus4(0); Power2Plus4(4); Power2Plus4(8);
    assert Power2(14) == 4 * Power2(12);
  }

  /** The decoder has scanned the bits below i and stands on point j. */
  ghost predicate Scanned(b: Board, bits: Bits, i: nat, j: nat) {
    && j < |b|
    && (forall k :: 0 <= k < j ==> b[k] == 0)
    && Sum(b[j..]) + |b| - 1 - j == i
    && Marks(b[j + 1..]) == bits * AllBelow(i)
    && CountBelow(bits, i) == |b| - 1 - j
  }

  lemma ScannedSetBit(b: Board, bits: Bits, i: nat, j: nat)
    requires Scanned(b, bits, i, j) && i in bits && j > 0
    ensures Scanned(b, bits, i + 1, j - 1)
  {
    assert b[j - 1..][1..] == b[j..] && b[j..][1..] == b[j + 1..];
  }

  lemma ScannedClearBit(b: Board, bits: Bits, i: nat, j: nat)
    requires Scanned(b, bits, i, j) && i !in bits
    ensures Scanned(b[j := b[j] + 1], bits, i + 1, j)
  {
    var a := b[j := b[j] + 1];
    assert a[j..] == b[j..][0 := b[j] + 1];
    SumOfUpdate(b[j..], 0, b[j] + 1);
    assert a[j + 1..] == b[j + 1..];
  }

  /** When the scan stops, the board's marks are exactly the pattern. */
  lemma ScannedAll(b: Board, bits: Bits, i: nat, j: nat, n: nat)
    requires Scanned(b, bits, i, j) && CountBelow(bits, n) == |b|
    requires i == n || (i < n && i in bits && j == 0)
    requires forall k :: k in bits ==> k < n
    ensures Marks(b) == bits && Sum(b) + |b| <= n
  {
    assert b[0..] == b;
    CountBelowMonotone(bits, i + 1, n);
    assert forall k :: k in bits ==> k < i || k == i;
  }

  lemma {:induction false} SumOfZeros(b: Board)
    requires forall k :: 0 <= k < |b| ==> b[k] == 0
    ensures Sum(b) == 0
  {
    if b != [] {
      SumOfZeros(b[1..]);
    }
  }

  /** Decodes a bearoff position. */
  method PositionFromBearoff(board: array<nat>, id: nat, points: nat, chequers: nat)
    requires 1 <= points <= board.Length && id < Choose(points + chequers, points)
    modifies board
    ensures Rank(board[..points]) == id
    ensures Sum(board[..points]) <= chequers
    ensures forall k :: points <= k < board.Length ==> board[k] == old(board[k])
  {
    var bits := PositionInv(id, chequers + points, points);
    PositionInvBits(id, chequers + points, points);
    ScanBits(board, bits, points, chequers + points);
    PositionFIsRank(board[..points], chequers + points);
    PositionFOfInv(id, chequers + points, points);
  }

  /** Scans the pattern from its lowest bit, dropping a chequer on the current
      point for every 0 bit and moving down one point for every 1 bit. */
  method ScanBits(board: array<nat>, bits: Bits, points: nat, n: nat)
    requires 1 <= points <= board.Length
    requires CountBelow(bits, n) == points && forall k :: k in bits ==> k < n
    modifies board
    ensures Marks(board[..points]) == bits && Sum(board[..points]) + points <= n
    ensures forall k :: points <= k < board.Length ==> board[k] == old(board[k])
  {
    ClearBoard(board, points);
    var i, j := 0, points - 1;
    ghost var b := board[..points];
    ScannedNone(b, bits);
    while i < n
      invariant 0 <= i <= n
      invariant 0 <= j < points == |b| && forall k :: 0 <= k < points ==> board[k] == b[k]
      invariant Scanned(b, bits, i, j)
      invariant forall k :: points <= k < board.Length ==> board[k] == old(board[k])
    {
      if i in bits {
        if j == 0 {
          break;
        }
        ScannedSetBit(b, bits, i, j);
        j := j - 1;
      } else {
        ScannedClearBit(b, bits, i, j);
        board[j] := board[j] + 1;
        b := b[j := b[j] + 1];
      }
      i := i + 1;
    }
    assert board[..points] == b;
    ScannedAll(b, bits, i, j, n);
  }

  method ClearBoard(board: array<nat>, points: nat)
    requires points <= board.Length
    modifies board
    ensures forall k :: 0 <= k < points ==> board[k] == 0
    ensures forall k :: points <= k < board.Length ==> board[k] == old(board[k])
  {
    var i := 0;
    while i < points
      invariant 0 <= i <= points
      invariant forall k :: 0 <= k < i ==> board[k] == 0
      invariant forall k :: points <= k < board.Length ==> board[k] == old(board[k])
    {
      board[i] := 0;
      i := i + 1;
    }
  }

  lemma ScannedNone(b: Board, bits: Bits)
    requires b != [] && forall k :: 0 <= k < |b| ==> b[k] == 0
    ensures Scanned(b, bits, 0, |b| - 1)
  {
    SumOfZeros(b[|b| - 1..]);
  }
}
