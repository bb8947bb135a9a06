/** What rounding does to the mass of a row of the bearoff database, and where a
    row can be different from zero. */
module BearoffMass {
  import opened PositionId
  import opened Bearoff
  import opened BearoffTable

  /** The mass of the first n columns. */
  function MassTo(row: Row, n: nat): nat
    requires n <= COLUMNS
  {
    if n == 0 then 0 else MassTo(row, n - 1) + row[n - 1]
  }

  function Mass(row: Row): nat {
    MassTo(row, COLUMNS)
  }

  /** The mass of the first n columns of the row reached with a roll. */
  ghost function AfterMass(best: Strategy, id: Position, n: nat): (Die, Die) -> nat
    requires n <= COLUMNS
  {
    (hi: Die, lo: Die) => MassTo(RowOf(best, best(id, hi, lo)), n)
  }

  lemma AverageRounds(sum: nat)
    ensures sum - 17 <= 36 * Average(sum) <= sum + 18
  {
  }

  /** Rounding n columns moves 36 times the mass by at most 18 each. */
  lemma {:induction false} DriftTo(best: Strategy, id: Position, n: nat)
    requires 0 < id && n + 1 <= COLUMNS
    ensures Over36(AfterMass(best, id, n)) - 17 * n
         <= 36 * MassTo(RowOf(best, id), n + 1)
         <= Over36(AfterMass(best, id, n)) + 18 * n
  {
    if n == 0 {
      assert COLUMNS > 1;
      RowRecurrenceLoops(best, id, 0);
      assert MassTo(RowOf(best, id), 1) == MassTo(RowOf(best, id), 0) + RowOf(best, id)[0];
      var none, zero := AfterMass(best, id, 0), Constant(0);
      forall hi: Die, lo: Die
        ensures none(hi, lo) == zero(hi, lo)
      {
        assert MassTo(RowOf(best, best(id, hi, lo)), 0) == 0;
      }
      Over36Same(none, zero);
      Over36Constant(0);
    } else {
      DriftTo(best, id, n - 1);
      RowRecurrenceLoops(best, id, n - 1);
      AverageRounds(Over36(After(best, id, n - 1)));
      AfterMassStep(best, id, n);
    }
  }

  lemma AfterMassStep(best: Strategy, id: Position, n: nat)
    requires 0 < n <= COLUMNS
    ensures Over36(AfterMass(best, id, n)) == Over36(AfterMass(best, id, n - 1)) + Over36(After(best, id, n - 1))
  {
    var f, g, h := AfterMass(best, id, n), AfterMass(best, id, n - 1), After(best, id, n - 1);
    forall hi: Die, lo: Die
      ensures f(hi, lo) == g(hi, lo) + h(hi, lo)
    {
      var row := RowOf(best, best(id, hi, lo));
      assert MassTo(row, n) == MassTo(row, n - 1) + row[n - 1];
    }
    Over36Plus(f, g, h);
  }

  /** 36 times a row's mass differs from the weighted mass of the rows it is made
      from, less what their last column drops, by at most 31 * 18. */
  lemma Drift(best: Strategy, id: Position)
    requires 0 < id
    ensures var kept := Over36(AfterMass(best, id, COLUMNS)) - Over36(After(best, id, COLUMNS - 1));
            kept - 31 * 17 <= 36 * Mass(RowOf(best, id)) <= kept + 31 * 18
  {
    DriftTo(best, id, COLUMNS - 1);
    AfterMassStep(best, id, COLUMNS);
  }

  /** Every way the dice can fall, the position is borne off in n rolls. */
  ghost predicate FinishesWithin(best: Strategy, id: Position, n: nat) {
    id == 0 || (n > 0 && forall hi: Die, lo: Die :: FinishesWithin(best, best(id, hi, lo), n - 1))
  }

  lemma {:induction false} MassOfFinished(n: nat)
    requires n <= COLUMNS
    ensures MassTo(Finished(), n) == if n == 0 then 0 else ONE
  {
    if n > 0 {
      MassOfFinished(n - 1);
    }
  }

  /** The mass never exceeds one by more than 15.5 units for each roll that the
      position can take. */
  lemma {:induction false} MassUpperBound(best: Strategy, id: Position, n: nat)
    requires FinishesWithin(best, id, n)
    ensures 2 * Mass(RowOf(best, id)) <= 2 * ONE + 31 * n
    decreases n
  {
    if id == 0 {
      MassOfFinished(COLUMNS);
    } else {
      Drift(best, id);
      var c := (2 * ONE + 31 * (n - 1)) / 2;
      var f, bound := AfterMass(best, id, COLUMNS), Constant(c);
      forall hi: Die, lo: Die
        ensures f(hi, lo) <= bound(hi, lo)
      {
        MassUpperBound(best, best(id, hi, lo), n - 1);
      }
      Over36Bound(f, bound);
      Over36Constant(c);
    }
  }

  /** A position that takes at most n rolls has nothing beyond column n. */
  lemma {:induction false} NothingLate(best: Strategy, id: Position, n: nat, k: nat)
    requires FinishesWithin(best, id, n) && n < k < COLUMNS
    ensures RowOf(best, id)[k] == 0
    decreases n
  {
    if id != 0 {
      var f, zero := After(best, id, k - 1), Constant(0);
      forall hi: Die, lo: Die
        ensures f(hi, lo) == zero(hi, lo)
      {
        NothingLate(best, best(id, hi, lo), n - 1, k - 1);
      }
      RowRecurrenceLoops(best, id, k - 1);
      Over36Same(f, zero);
      Over36Constant(0);
    }
  }

  /** When no dice can keep the position going past the last column, the mass
      falls short of one by at most 15 units for each roll. */
  lemma {:induction false} MassLowerBound(best: Strategy, id: Position, n: nat)
    requires FinishesWithin(best, id, n) && n < COLUMNS
    ensures 2 * Mass(RowOf(best, id)) >= 2 * ONE - 30 * n
    decreases n
  {
    if id == 0 {
      MassOfFinished(COLUMNS);
    } else {
      Drift(best, id);
      var c := ONE - 15 * (n - 1);
      var f, bound := AfterMass(best, id, COLUMNS), Constant(c);
      var last, zero := After(best, id, COLUMNS - 1), Constant(0);
      forall hi: Die, lo: Die
        ensures bound(hi, lo) <= f(hi, lo)
        ensures last(hi, lo) == zero(hi, lo)
      {
        MassLowerBound(best, best(id, hi, lo), n - 1);
        NothingLate(best, best(id, hi, lo), n - 1, COLUMNS - 1);
      }
      Over36Bound(bound, f);
      Over36Constant(c);
      Over36Same(last, zero);
      Over36Constant(0);
    }
  }

  // ----- The heuristic's own rows

  lemma HeuristicStep(best: Strategy, id: Position, hi: Die, lo: Die)
    requires Heuristic(best) && 0 < id
    ensures var b, b' := BoardOf(id), BoardOf(best(id, hi, lo));
            && Sum(b) - 4 <= Sum(b') <= Sum(b)
            && (Empty(b') || Pips(b') <= Pips(b) - 2)
  {
    var b := BoardOf(id);
    var b' := Play(b, hi, lo);
    NumberedNonempty(id);
    PlayDiceIsLegal(b, Dice(hi, lo), 0);
    LegalPlayProgress(b, Dice(hi, lo), 0, b');
    assert best(id, hi, lo) == Reached(id, hi, lo);
    RankInjective(b', BoardOf(best(id, hi, lo)));
  }

  lemma EmptyIsZero(id: Position)
    requires Empty(BoardOf(id))
    ensures id == 0
  {
    if id > 0 {
      NumberedNonempty(id);
    }
  }

  /** Every roll of the heuristic gains two pips or ends the bearoff. */
  lemma {:induction false} HeuristicFinishes(best: Strategy, id: Position, n: nat)
    requires Heuristic(best) && Pips(BoardOf(id)) <= 2 * n
    ensures FinishesWithin(best, id, n)
    decreases n
  {
    if id > 0 {
      NumberedNonempty(id);
      assert Pips(BoardOf(id)) > 0;
      forall hi: Die, lo: Die
        ensures FinishesWithin(best, best(id, hi, lo), n - 1)
      {
        HeuristicStep(best, id, hi, lo);
        if Empty(BoardOf(best(id, hi, lo))) {
          EmptyIsZero(best(id, hi, lo));
        } else {
          HeuristicFinishes(best, best(id, hi, lo), n - 1);
        }
      }
    }
  }

  /** The mass of a position's row in the heuristic database. */
  lemma HeuristicMass(best: Strategy, id: Position, n: nat)
    requires Heuristic(best) && Pips(BoardOf(id)) <= 2 * n
    ensures 2 * Mass(RowOf(best, id)) <= 2 * ONE + 31 * n
    ensures n < COLUMNS ==> 2 * Mass(RowOf(best, id)) >= 2 * ONE - 30 * n
  {
    HeuristicFinishes(best, id, n);
    MassUpperBound(best, id, n);
    if n < COLUMNS {
      MassLowerBound(best, id, n);
    }
  }

  /** Nothing is borne off sooner than four chequers a roll allow. */
  lemma {:induction false} NothingEarly(best: Strategy, id: Position, k: nat)
    requires Heuristic(best) && k < COLUMNS && 4 * k < Sum(BoardOf(id))
    ensures RowOf(best, id)[k] == 0
    decreases k
  {
    var empty: Home := [0, 0, 0, 0, 0, 0];
    SumOfZeros(empty);
    RankOfEmpty(empty);
    if id == 0 {
      RankInjective(BoardOf(id), empty);
    } else if k == 0 {
      RowRecurrenceLoops(best, id, 0);
    } else {
      var f, zero := After(best, id, k - 1), Constant(0);
      forall hi: Die, lo: Die
        ensures f(hi, lo) == zero(hi, lo)
      {
        HeuristicStep(best, id, hi, lo);
        NothingEarly(best, best(id, hi, lo), k - 1);
      }
      RowRecurrenceLoops(best, id, k - 1);
      Over36Same(f, zero);
      Over36Constant(0);
    }
  }
}
