/** The loops that fill the heuristic bearoff database in place
    (gnubg/bearoff.c, lines 205 to 260). */
module BearoffFill {
  import opened Combinatorics
  import opened PositionId
  import opened Bearoff
  import opened BearoffTable
  import opened Bytes

  const TABLE_BYTES: nat := HEADER + 64 * POSITIONS

  /** Where the low byte of a row's column is. */
  function At(id: Position, k: nat): (at: nat)
    requires k < COLUMNS
    ensures HEADER <= at && at + 1 < TABLE_BYTES
  {
    HEADER + 64 * id + 2 * k
  }

  ghost predicate RowStored(pm: array<Byte>, id: Position, row: Row)
    requires pm.Length == TABLE_BYTES
    reads pm
  {
    forall k: nat :: k < COLUMNS ==> Word(pm[At(id, k)], pm[At(id, k) + 1]) == row[k]
  }

  /** The table holds these rows, from row 0 on. */
  ghost predicate TableStored(pm: array<Byte>, rows: seq<Row>)
    requires pm.Length == TABLE_BYTES && |rows| <= POSITIONS
    reads pm
  {
    forall id: Position :: id < |rows| ==> RowStored(pm, id, rows[id])
  }

  /** Fills in the rows in order of their numbers. */
  method HeuristicDatabase() returns (pm: array<Byte>)
    ensures fresh(pm) && pm.Length == TABLE_BYTES
    ensures forall id: Position :: RowStored(pm, id, RowOf(TheHeuristic(), id))
  {
    pm := new Byte[TABLE_BYTES];
    pm[HEADER], pm[HEADER + 1] := 0xFF, 0xFF;
    var i := HEADER + 2;
    while i < HEADER + 64
      invariant HEADER + 2 <= i <= HEADER + 64
      invariant pm[HEADER] == 0xFF == pm[HEADER + 1]
      invariant forall j :: HEADER + 2 <= j < i ==> pm[j] == 0
    {
      pm[i] := 0;
      i := i + 1;
    }
    assert RowStored(pm, 0, Finished());
    FillRows(pm, POSITIONS, TheHeuristic());
  }

  /** The loop over the rows after the first. */
  method FillRows(pm: array<Byte>, n: nat, ghost best: Strategy)
    requires pm.Length == TABLE_BYTES && 1 <= n <= POSITIONS && Heuristic(best) && RowStored(pm, 0, Finished())
    modifies pm
    ensures forall id: Position :: id < n ==> RowStored(pm, id, RowOf(best, id))
  {
    var i := 1;
    while i < n
      invariant 1 <= i <= n
      invariant TableStored(pm, Table(best, i))
    {
      GenerateBearoff(pm, i, best, Table(best, i));
      i := i + 1;
    }
    forall id: Position | id < n
      ensures RowStored(pm, id, RowOf(best, id))
    {
      TableStable(best, n, id);
    }
  }

  /** Computes one row from the rows before it: every row it reads is final, and
      it changes nothing but its own 64 bytes. */
  method GenerateBearoff(pm: array<Byte>, id: Position, ghost best: Strategy, ghost rows: seq<Row>)
    requires pm.Length == TABLE_BYTES && Heuristic(best)
    requires 0 < id == |rows| && TableStored(pm, rows)
    modifies pm
    ensures TableStored(pm, rows + [NextRow(best, rows, id)])
    ensures forall j :: 0 <= j < TABLE_BYTES && !(At(id, 0) <= j < At(id, 0) + 64) ==> pm[j] == old(pm[j])
  {
    var aProb := SumRolls(pm, id, best, rows);
    ghost var bytes := pm[..];
    StoreRow(pm, id, aProb, best, rows);
    RowsKept(pm, bytes, id, rows);
  }

  /** Rows before the one that changes stay as they are. */
  lemma RowsKept(pm: array<Byte>, bytes: seq<Byte>, id: Position, rows: seq<Row>)
    requires pm.Length == |bytes| == TABLE_BYTES && id == |rows| && RowsIn(bytes, rows)
    requires forall j :: 0 <= j < TABLE_BYTES && !(At(id, 0) <= j < At(id, 0) + 64) ==> pm[j] == bytes[j]
    ensures TableStored(pm, rows)
  {
    forall done: Position, k: nat | done < id && k < COLUMNS
      ensures Word(pm[At(done, k)], pm[At(done, k) + 1]) == rows[done][k]
    {
      assert Word(bytes[At(done, k)], bytes[At(done, k) + 1]) == rows[done][k];
    }
  }

  /** The bytes hold these rows. */
  ghost predicate RowsIn(bytes: seq<Byte>, rows: seq<Row>)
    requires |bytes| == TABLE_BYTES && |rows| <= POSITIONS
  {
    forall id: Position, k: nat :: id < |rows| && k < COLUMNS
      ==> Word(bytes[At(id, k)], bytes[At(id, k) + 1]) == rows[id][k]
  }

  /** The accumulated sums, once the loops are done with roll (hi, lo). */
  ghost predicate SumsTo(aProb: seq<nat>, best: Strategy, rows: seq<Row>, id: Position, hi: nat, lo: nat)
    requires 0 < id <= |rows| && lo <= hi
  {
    && |aProb| == COLUMNS && aProb[0] == 0
    && forall k :: 1 <= k < COLUMNS ==> aProb[k] == RollSum(OnDice(Column(best, rows, id, k - 1)), hi, lo)
  }

  /** The accumulated sums, once the loops are done. */
  ghost predicate SumsToAll(aProb: seq<nat>, best: Strategy, rows: seq<Row>, id: Position)
    requires 0 < id <= |rows|
  {
    && |aProb| == COLUMNS && aProb[0] == 0
    && forall k :: 1 <= k < COLUMNS ==> aProb[k] == Over36(Column(best, rows, id, k - 1))
  }

  lemma SumsDone(aProb: seq<nat>, best: Strategy, rows: seq<Row>, id: Position, m: nat)
    requires 0 < id <= |rows| && m == FACES
    ensures SumsTo(aProb, best, rows, id, m, m) ==> SumsToAll(aProb, best, rows, id)
  {
    if SumsTo(aProb, best, rows, id, m, m) {
      forall k | 1 <= k < COLUMNS
        ensures aProb[k] == Over36(Column(best, rows, id, k - 1))
      {
        Over36Is(Column(best, rows, id, k - 1), m);
      }
    }
  }

  /** The loops over the 21 distinct rolls. */
  method SumRolls(pm: array<Byte>, id: Position, ghost best: Strategy, ghost rows: seq<Row>)
    returns (aProb: array<nat>)
    requires pm.Length == TABLE_BYTES && Heuristic(best)
    requires 0 < id == |rows| && TableStored(pm, rows)
    ensures fresh(aProb) && SumsToAll(aProb[..], best, rows, id)
  {
    var board := new nat[6];
    aProb := new nat[COLUMNS](_ => 0);
    AddFaces(pm, board, aProb, id, FACES, best, rows);
    SumsDone(aProb[..], best, rows, id, FACES);
  }

  /** The outer loop, over the first die. */
  method AddFaces(pm: array<Byte>, board: array<nat>, aProb: array<nat>, id: Position, faces: nat,
                  ghost best: Strategy, ghost rows: seq<Row>)
    requires pm.Length == TABLE_BYTES && board.Length == 6 && board != aProb && Heuristic(best)
    requires 0 < id == |rows| && TableStored(pm, rows) && faces <= 6
    requires board != pm as object && aProb != pm as object
    requires aProb.Length == COLUMNS && forall k :: 0 <= k < COLUMNS ==> aProb[k] == 0
    modifies board, aProb
    ensures SumsTo(aProb[..], best, rows, id, faces, faces)
  {
    var hi := 1;
    while hi <= faces
      invariant 1 <= hi <= faces + 1
      invariant SumsTo(aProb[..], best, rows, id, hi - 1, hi - 1)
    {
      AddRolls(pm, board, aProb, id, hi, best, rows);
      hi := hi + 1;
    }
  }

  /** The inner loop, over the second die. */
  method AddRolls(pm: array<Byte>, board: array<nat>, aProb: array<nat>, id: Position, hi: Die,
                  ghost best: Strategy, ghost rows: seq<Row>)
    requires pm.Length == TABLE_BYTES && board.Length == 6 && board != aProb && Heuristic(best)
    requires 0 < id == |rows| && TableStored(pm, rows)
    requires board != pm as object && aProb != pm as object
    requires SumsTo(aProb[..], best, rows, id, hi - 1, hi - 1)
    modifies board, aProb
    ensures SumsTo(aProb[..], best, rows, id, hi, hi)
  {
    var lo := 1;
    while lo <= hi
      invariant 1 <= lo <= hi + 1
      invariant SumsTo(aProb[..], best, rows, id, hi, lo - 1)
    {
      AddRoll(pm, board, aProb, id, hi, lo, best, rows);
      lo := lo + 1;
    }
  }

  /** The body of the loops. */
  method AddRoll(pm: array<Byte>, board: array<nat>, aProb: array<nat>, id: Position, hi: Die, lo: Die,
                 ghost best: Strategy, ghost rows: seq<Row>)
    requires pm.Length == TABLE_BYTES && board.Length == 6 && board != aProb && lo <= hi && Heuristic(best)
    requires 0 < id == |rows| && TableStored(pm, rows)
    requires SumsTo(aProb[..], best, rows, id, hi, lo - 1)
    modifies board, aProb
    ensures SumsTo(aProb[..], best, rows, id, hi, lo)
  {
    var iBest := PlayPosition(board, id, hi, lo, best);
    ghost var before := aProb[..];
    Accumulate(pm, iBest, hi == lo, aProb, rows[iBest]);
    forall k | 1 <= k < COLUMNS
      ensures aProb[k] == RollSum(OnDice(Column(best, rows, id, k - 1)), hi, lo)
    {
      assert before[k] == RollSum(OnDice(Column(best, rows, id, k - 1)), hi, lo - 1);
    }
  }

  /** Decodes the position and plays the roll on it. */
  method PlayPosition(board: array<nat>, id: Position, hi: Die, lo: Die, ghost best: Strategy) returns (iBest: Position)
    requires board.Length == 6 && lo <= hi && 0 < id && Heuristic(best)
    modifies board
    ensures iBest == best(id, hi, lo) < id
  {
    PositionCount();
    PositionFromBearoff(board, id, POINTS, CHEQUERS);
    assert board[..POINTS] == board[..];
    RankInjective(board[..], BoardOf(id));
    iBest := HeuristicBearoff(board, hi, lo);
    assert iBest == Reached(id, hi, lo);
  }

  /** Adds a finished row, once for a double and twice otherwise, one column up. */
  method Accumulate(pm: array<Byte>, iBest: Position, double: bool, aProb: array<nat>, ghost row: Row)
    requires pm.Length == TABLE_BYTES && RowStored(pm, iBest, row) && aProb.Length == COLUMNS
    modifies aProb
    ensures aProb[0] == old(aProb[0])
    ensures forall k :: 1 <= k < COLUMNS ==> aProb[k] == old(aProb[k]) + (if double then 1 else 2) * row[k - 1]
  {
    var i := 0;
    while i < 31
      invariant 0 <= i <= 31 && aProb[0] == old(aProb[0])
      invariant forall k :: 1 <= k <= i ==> aProb[k] == old(aProb[k]) + (if double then 1 else 2) * row[k - 1]
      invariant forall k :: i < k < COLUMNS ==> aProb[k] == old(aProb[k])
    {
      var word := Word(pm[At(iBest, i)], pm[At(iBest, i) + 1]);
      aProb[i + 1] := aProb[i + 1] + if double then word else 2 * word;
      i := i + 1;
    }
  }

  /** Rounds the sums to 36ths and writes them as two bytes each. */
  method StoreRow(pm: array<Byte>, id: Position, aProb: array<nat>, ghost best: Strategy, ghost rows: seq<Row>)
    requires pm.Length == TABLE_BYTES
    requires 0 < id <= |rows| && SumsToAll(aProb[..], best, rows, id)
    modifies pm
    ensures RowStored(pm, id, NextRow(best, rows, id))
    ensures forall j :: 0 <= j < TABLE_BYTES && !(At(id, 0) <= j < At(id, 0) + 64) ==> pm[j] == old(pm[j])
  {
    ghost var row := NextRow(best, rows, id);
    ghost var sums := aProb[..];
    forall k | 0 <= k < COLUMNS
      ensures Average(sums[k]) % WORD16 == row[k]
    {
      assert row[k] == NextEntry(best, rows, id, k);
    }
    var i := 0;
    while i < COLUMNS
      invariant 0 <= i <= COLUMNS && aProb[..] == sums
      invariant forall k: nat :: k < i ==> Word(pm[At(id, k)], pm[At(id, k) + 1]) == row[k]
      invariant forall j :: 0 <= j < TABLE_BYTES && !(At(id, 0) <= j < At(id, 0) + 64) ==> pm[j] == old(pm[j])
    {
      assert aProb[i] == sums[i];
      var us := ((aProb[i] + 18) / 36) % WORD16;
      StoreWord(pm, At(id, i), us);
      i := i + 1;
    }
  }

  method StoreWord(pm: array<Byte>, at: nat, us: nat)
    requires at + 1 < pm.Length && us < WORD16
    modifies pm
    ensures Word(pm[at], pm[at + 1]) == us
    ensures forall j :: 0 <= j < pm.Length && j != at && j != at + 1 ==> pm[j] == old(pm[j])
  {
    pm[at] := us % 256;
    pm[at + 1] := us / 256;
  }
}
