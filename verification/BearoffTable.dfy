/** The heuristic bearoff database as a recurrence over position numbers
    (gnubg/bearoff.c, lines 205 to 260). */
module BearoffTable {
  import opened Combinatorics
  import opened PositionId
  import opened Bearoff

  const COLUMNS: nat := 32
  const FACES: nat := 6
  const ONE: nat := 65535
  const WORD16: nat := 65536

  type Position = id: nat | id < POSITIONS witness 0

  // ----- Positions by number

  /** The position with this number. */
  ghost function BoardOf(id: Position): (b: Home)
    ensures Rank(b) == id && Sum(b) <= CHEQUERS
  {
    PositionCount();
    Located(id)
  }

  ghost function Located(id: nat): (b: Home)
    requires id < Choose(POINTS + CHEQUERS, POINTS)
    ensures Rank(b) == id && Sum(b) <= CHEQUERS
  {
    assert exists b: Home :: Rank(b) == id && Sum(b) <= CHEQUERS by {
      var b := RankSurjective(id, POINTS, CHEQUERS);
      assert |b| == 6;
    }
    var b: Home :| Rank(b) == id && Sum(b) <= CHEQUERS;
    b
  }

  lemma NumberedNonempty(id: Position)
    requires id > 0
    ensures !Empty(BoardOf(id))
  {
    var b := BoardOf(id);
    if Empty(b) {
      SumOfZeros(b);
      RankOfEmpty(b);
    }
  }

  /** The number of the position the heuristic reaches with a roll. */
  ghost function Reached(id: Position, hi: Die, lo: Die): (best: Position)
    ensures id > 0 ==> best < id
  {
    var b := BoardOf(id);
    PlayProgress(b, hi, lo);
    if id > 0 then
      NumberedNonempty(id);
      Rank(Play(b, hi, lo))
    else 0
  }

  /** A way to play every roll that makes progress towards position 0. */
  type Strategy = best: (Position, Die, Die) -> Position |
    forall id: Position, hi: Die, lo: Die :: id > 0 ==> best(id, hi, lo) < id
    ghost witness (id: Position, hi: Die, lo: Die) => 0

  /** The strategy is the one of the heuristic. */
  ghost predicate Heuristic(best: Strategy) {
    forall id: Position, hi: Die, lo: Die {:trigger Reached(id, hi, lo)} :: best(id, hi, lo) == Reached(id, hi, lo)
  }

  ghost function TheHeuristic(): (best: Strategy)
    ensures Heuristic(best)
  {
    (id: Position, hi: Die, lo: Die) => Reached(id, hi, lo)
  }

  // ----- Sums over rolls

  /** An amount for every outcome of two dice; what it says of other numbers does
      not matter. */
  type Outcomes = (int, int) -> nat

  /** An amount that is given for dice only. */
  function OnDice(f: (Die, Die) -> nat): Outcomes {
    (x: int, y: int) => if 1 <= x <= 6 && 1 <= y <= 6 then f(x, y) else 0
  }

  /** The weighted sum of f over the distinct rolls up to (hi, lo), in the order
      of the loops of the source: a roll counts twice when it is no double. */
  function RollSum(f: Outcomes, hi: nat, lo: nat): nat
    requires lo <= hi
    decreases hi, lo
  {
    if hi == 0 then 0
    else if lo == 0 then RollSum(f, hi - 1, hi - 1)
    else RollSum(f, hi, lo - 1) + if hi == lo then f(hi, lo) else 2 * f(hi, lo)
  }

  /** The sum of f over a first die of x and a second die of 1 to n. */
  function LineSum(f: Outcomes, x: nat, n: nat): nat {
    if n == 0 then 0 else LineSum(f, x, n - 1) + if x >= n then f(x, n) else f(n, x)
  }

  /** The sum of f over a first die of 1 to m and a second die of 1 to n. */
  function SquareSum(f: Outcomes, m: nat, n: nat): nat {
    if m == 0 then 0 else SquareSum(f, m - 1, n) + LineSum(f, m, n)
  }

  lemma {:induction false} SquareSumColumn(f: Outcomes, m: nat, n: nat)
    requires m < n
    ensures SquareSum(f, m, n) == SquareSum(f, m, n - 1) + LineSum(f, n, m)
  {
    if m > 0 {
      SquareSumColumn(f, m - 1, n);
    }
  }

  lemma {:induction false} RollSumLine(f: Outcomes, hi: nat, lo: nat)
    requires lo < hi
    ensures RollSum(f, hi, lo) == RollSum(f, hi - 1, hi - 1) + 2 * LineSum(f, hi, lo)
  {
    if lo > 0 {
      RollSumLine(f, hi, lo - 1);
    }
  }

  /** The loops over the distinct rolls, weighted by two for non-doubles, sum over
      all outcomes of two dice. */
  lemma {:induction false} RollSumIsSquareSum(f: Outcomes, m: nat)
    ensures RollSum(f, m, m) == SquareSum(f, m, m)
  {
    if m > 0 {
      RollSumIsSquareSum(f, m - 1);
      SquareSumColumn(f, m - 1, m);
      RollSumLine(f, m, m - 1);
    }
  }

  lemma {:induction false} RollSumBound(f: Outcomes, g: Outcomes, hi: nat, lo: nat)
    requires lo <= hi && forall x, y :: f(x, y) <= g(x, y)
    ensures RollSum(f, hi, lo) <= RollSum(g, hi, lo)
    decreases hi, lo
  {
    if hi > 0 {
      if lo == 0 {
        RollSumBound(f, g, hi - 1, hi - 1);
      } else {
        RollSumBound(f, g, hi, lo - 1);
      }
    }
  }

  lemma {:induction false} RollSumPlus(f: Outcomes, g: Outcomes, h: Outcomes, hi: nat, lo: nat)
    requires lo <= hi && forall x, y :: f(x, y) == g(x, y) + h(x, y)
    ensures RollSum(f, hi, lo) == RollSum(g, hi, lo) + RollSum(h, hi, lo)
    decreases hi, lo
  {
    if hi > 0 {
      if lo == 0 {
        RollSumPlus(f, g, h, hi - 1, hi - 1);
      } else {
        RollSumPlus(f, g, h, hi, lo - 1);
      }
    }
  }

  function Constant(c: nat): (Die, Die) -> nat {
    (x: Die, y: Die) => c
  }

  function Everywhere(c: nat): Outcomes {
    (x: int, y: int) => c
  }

  /** A constant is summed over m times m outcomes. */
  lemma {:induction false} SquareSumConstant(c: nat, m: nat, n: nat)
    ensures LineSum(Everywhere(c), m, n) == n * c
    ensures SquareSum(Everywhere(c), m, n) == m * (n * c)
  {
    if n > 0 {
      SquareSumConstant(c, m, n - 1);
      Distribute(n - 1, 1, c);
    }
    if m > 0 {
      SquareSumConstant(c, m - 1, n);
      Distribute(m - 1, 1, n * c);
    }
  }

  lemma Distribute(a: int, b: int, c: int)
    ensures (a + b) * c == a * c + b * c
  {
  }

  /** The weighted sum of f over all rolls.  It is given by its property, and not
      as a call, to keep the verifier from unrolling the 21 rolls everywhere. */
  ghost function Over36(f: (Die, Die) -> nat): nat {
    assert IsOver36(f, RollSum(OnDice(f), FACES, FACES));
    var sum :| IsOver36(f, sum);
    sum
  }

  ghost predicate IsOver36(f: (Die, Die) -> nat, sum: nat) {
    forall m {:trigger RollSum(OnDice(f), m, m)} :: m == FACES ==> sum == RollSum(OnDice(f), m, m)
  }

  lemma Over36Is(f: (Die, Die) -> nat, m: nat)
    requires m == FACES
    ensures Over36(f) == RollSum(OnDice(f), m, m)
  {
  }

  /** The loops over the 21 distinct rolls, weighted by two for non-doubles, sum
      over all 36 outcomes of two dice. */
  lemma Over36IsSquareSum(f: (Die, Die) -> nat, m: nat)
    requires m == FACES
    ensures Over36(f) == SquareSum(OnDice(f), m, m)
  {
    Over36Is(f, m);
    RollSumIsSquareSum(OnDice(f), m);
  }

  lemma Over36Bound(f: (Die, Die) -> nat, g: (Die, Die) -> nat)
    requires forall x: Die, y: Die :: f(x, y) <= g(x, y)
    ensures Over36(f) <= Over36(g)
  {
    var m: nat :| m == FACES;
    Over36Is(f, m);
    Over36Is(g, m);
    RollSumBound(OnDice(f), OnDice(g), m, m);
  }

  lemma Over36Plus(f: (Die, Die) -> nat, g: (Die, Die) -> nat, h: (Die, Die) -> nat)
    requires forall x: Die, y: Die :: f(x, y) == g(x, y) + h(x, y)
    ensures Over36(f) == Over36(g) + Over36(h)
  {
    var m: nat :| m == FACES;
    Over36Is(f, m);
    Over36Is(g, m);
    Over36Is(h, m);
    RollSumPlus(OnDice(f), OnDice(g), OnDice(h), m, m);
  }

  /** Outcomes that agree on dice from 1 to m. */
  lemma {:induction false} RollSumSame(f: Outcomes, g: Outcomes, hi: nat, lo: nat)
    requires lo <= hi && forall x, y :: 1 <= x <= hi && 1 <= y <= hi ==> f(x, y) == g(x, y)
    ensures RollSum(f, hi, lo) == RollSum(g, hi, lo)
    decreases hi, lo
  {
    if hi > 0 {
      if lo == 0 {
        RollSumSame(f, g, hi - 1, hi - 1);
      } else {
        RollSumSame(f, g, hi, lo - 1);
      }
    }
  }

  lemma Over36Constant(c: nat)
    ensures Over36(Constant(c)) == 36 * c
  {
    var m: nat :| m == FACES;
    Over36Is(Constant(c), m);
    RollSumSame(OnDice(Constant(c)), Everywhere(c), m, m);
    RollSumIsSquareSum(Everywhere(c), m);
    SquareSumConstant(c, m, m);
    AllOutcomes(m, c);
  }

  lemma AllOutcomes(m: nat, c: nat)
    requires m == FACES
    ensures m * (m * c) == 36 * c
  {
  }

  // ----- The recurrence

  /** A row: entry k is the probability, in units of 1/65535, of bearing off in
      exactly k rolls. */
  type Row = r: seq<nat> | |r| == COLUMNS && forall k :: 0 <= k < COLUMNS ==> r[k] <= ONE
    ghost witness seq(COLUMNS, _ => 0)

  /** Column k of the row reached with a roll. */
  ghost function Column(best: Strategy, rows: seq<Row>, id: Position, k: nat): (Die, Die) -> nat
    requires 0 < id <= |rows| && k < COLUMNS
  {
    (hi: Die, lo: Die) => rows[best(id, hi, lo)][k]
  }

  /** A weighted sum over 36 rolls, rounded to the nearest 36th. */
  function Average(sum: nat): nat {
    (sum + 18) / 36
  }

  /** Column k of the row of position id, from the rows before it. */
  ghost function NextEntry(best: Strategy, rows: seq<Row>, id: Position, k: nat): (entry: nat)
    requires 0 < id <= |rows| && k < COLUMNS
    ensures entry <= ONE
  {
    if k == 0 then 0
    else
      Average(Over36(Column(best, rows, id, k - 1))) % WORD16
  }

  ghost function NextRow(best: Strategy, rows: seq<Row>, id: Position): (row: Row)
    requires 0 < id <= |rows|
    ensures forall k :: 0 <= k < COLUMNS ==> row[k] == NextEntry(best, rows, id, k)
  {
    seq(COLUMNS, k requires 0 <= k < COLUMNS => NextEntry(best, rows, id, k))
  }

  ghost function Finished(): Row {
    [ONE] + seq(COLUMNS - 1, _ => 0)
  }

  /** The first n rows of the database. */
  ghost function Table(best: Strategy, n: nat): (rows: seq<Row>)
    requires n <= POSITIONS
    ensures |rows| == n
  {
    if n == 0 then []
    else if n == 1 then [Finished()]
    else Table(best, n - 1) + [NextRow(best, Table(best, n - 1), n - 1)]
  }

  ghost function RowOf(best: Strategy, id: Position): Row {
    Table(best, id + 1)[id]
  }

  lemma {:induction false} TableStable(best: Strategy, n: nat, id: Position)
    requires id < n <= POSITIONS
    ensures Table(best, n)[id] == RowOf(best, id)
  {
    if id + 1 < n {
      TableStable(best, n - 1, id);
    }
  }

  /** Column k of the finished row reached with a roll. */
  ghost function After(best: Strategy, id: Position, k: nat): (Die, Die) -> nat
    requires k < COLUMNS
  {
    (hi: Die, lo: Die) => RowOf(best, best(id, hi, lo))[k]
  }

  lemma Over36Same(f: (Die, Die) -> nat, g: (Die, Die) -> nat)
    requires forall x: Die, y: Die :: f(x, y) == g(x, y)
    ensures Over36(f) == Over36(g)
  {
    Over36Bound(f, g);
    Over36Bound(g, f);
  }

  /** No average of entries needs more than 16 bits, so the cast in the source
      drops nothing. */
  lemma AverageFits(best: Strategy, id: Position, k: nat)
    requires k < COLUMNS
    ensures Average(Over36(After(best, id, k))) <= ONE
  {
    assert forall x: Die, y: Die :: RowOf(best, best(id, x, y))[k] <= ONE;
    Over36Bound(After(best, id, k), Constant(ONE));
    Over36Constant(ONE);
  }

  lemma RowRecurrenceLoops(best: Strategy, id: Position, k: nat)
    requires 0 < id && k + 1 < COLUMNS
    ensures RowOf(best, id)[0] == 0
    ensures RowOf(best, id)[k + 1] == Average(Over36(After(best, id, k)))
  {
    var rows := Table(best, id);
    forall before: Position | before < id
      ensures rows[before] == RowOf(best, before)
    {
      TableStable(best, id, before);
    }
    RowIsNext(best, id);
    Over36Same(Column(best, rows, id, k), After(best, id, k));
    AverageFits(best, id, k);
  }

  lemma RowIsNext(best: Strategy, id: Position)
    requires 0 < id
    ensures RowOf(best, id) == NextRow(best, Table(best, id), id)
  {
    var n := id + 1;
    assert Table(best, n) == Table(best, id) + [NextRow(best, Table(best, id), id)];
  }

  /** The recurrence that defines the database: a row is the average, over all 36
      outcomes of two dice, of the final rows of positions with smaller numbers,
      moved up one column. */
  lemma RowRecurrence(best: Strategy, id: Position, k: nat, m: nat)
    requires 0 < id && k + 1 < COLUMNS && m == FACES
    ensures RowOf(best, id)[0] == 0
    ensures RowOf(best, id)[k + 1] == Average(SquareSum(OnDice(After(best, id, k)), m, m)) <= ONE
  {
    RowRecurrenceLoops(best, id, k);
    Over36IsSquareSum(After(best, id, k), m);
    AverageFits(best, id, k);
  }
}
