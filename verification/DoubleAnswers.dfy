/** Which answers to a double count: the take or the pass after a number of doubles
    in a row (gnubg/analysis.c, lines 447 to 544, 760 to 801 and 1594 to 1611). */
module DoubleAnswers {
  import opened MatchStates
  import opened Statistics
  import opened StatContext

  /** The cube decision of the record is analysed at all. */
  predicate Judged(g: Settings, pmr: Record) {
    && (pmr.Normal? || pmr.Double? || pmr.Take? || pmr.Drop?)
    && pmr.cube.evaluated && g.fAnalyseCube && g.fCubeUse
  }

  /** A walk counts the cube decision of a record. */
  predicate Enters(g: Settings, walk: Walk, x: Step) {
    !x.pmr.GameInfo? && Counts(g, walk, x) && Decides(g, x, x.pmr.fPlayer)
  }

  /** The record after n doubles in a row, as a walk sees it. */
  function AnswerAt<E>(r: Rules<E>, walk: Walk, ms: MatchState<E>, game: seq<Record>, n: nat): Step
    requires n < |game|
  {
    StepAt(r, walk, StateAt(r, walk, ms, game, n), game[n])
  }

  lemma AnswerSeen<E>(r: Rules<E>, o: Operations<E>, walk: Walk, ms: MatchState<E>, game: seq<Record>, p: Player, n: nat)
    requires Engine(r, o) && 0 < n < |game| && DoublesInARow(r, ms, game, p, n) && (game[n].Take? || game[n].Drop?)
    ensures AnswerAt(r, walk, ms, game, n) == StepIn(r, StateAt(r, walk, ms, game, n), game[n])
    ensures KindAt(AnswerAt(r, walk, ms, game, n).pms) == if walk.Analysis? && n % 2 == 0 then DT_RACCOON else DT_BEAVER
  {
    EngineIs(r, o);
    KindAtAnswer(r, o, walk, ms, game, p, n);
  }

  /** The analysis counts a take after an odd number of doubles, and skips it after
      an even number; the statistics of a stored game count it always. */
  lemma TakeCounts<E>(g: Settings, r: Rules<E>, o: Operations<E>, walk: Walk, ms: MatchState<E>, game: seq<Record>,
                      p: Player, n: nat)
    requires Engine(r, o) && 0 < n < |game| && DoublesInARow(r, ms, game, p, n) && game[n].Take?
    ensures Enters(g, walk, AnswerAt(r, walk, ms, game, n)) <==>
            Judged(g, game[n]) && (walk.Analysis? ==> game[n].fPlayer in g.afAnalysePlayers && n % 2 == 1)
  {
    AnswerSeen(r, o, walk, ms, game, p, n);
  }

  /** So it is with a pass. */
  lemma DropCounts<E>(g: Settings, r: Rules<E>, o: Operations<E>, walk: Walk, ms: MatchState<E>, game: seq<Record>,
                      p: Player, n: nat)
    requires Engine(r, o) && 0 < n < |game| && DoublesInARow(r, ms, game, p, n) && game[n].Drop?
    ensures Enters(g, walk, AnswerAt(r, walk, ms, game, n)) <==>
            Judged(g, game[n]) && (walk.Analysis? ==> game[n].fPlayer in g.afAnalysePlayers && n % 2 == 1)
  {
    AnswerSeen(r, o, walk, ms, game, p, n);
  }

  /** Of n doubles in a row both count the first one only. */
  lemma DoubleCounts<E>(g: Settings, r: Rules<E>, o: Operations<E>, walk: Walk, ms: MatchState<E>, game: seq<Record>,
                        p: Player, n: nat)
    requires Engine(r, o) && n < |game| && DoublesInARow(r, ms, game, p, n) && game[n].Double?
    ensures Enters(g, walk, AnswerAt(r, walk, ms, game, n)) <==> Judged(g, game[n]) && n == 0
  {
    EngineIs(r, o);
    if n > 0 {
      AfterDoublesIs(r, o, walk, ms, game, p, n);
    }
    assert Seen(r, walk, StateAt(r, walk, ms, game, n), game[n]).fDoubled == (n > 0);
  }

  /** A context after one more record of a walk. */
  function WithStep(g: Settings, walk: Walk, s: Sides, x: Step): Sides {
    if Counts(g, walk, x) then s.Plus(Deltas(g)(x)) else s
  }

  /** What a record adds shows in the number of cube decisions. */
  lemma EntersShows(g: Settings, walk: Walk, s: Sides, x: Step)
    requires x.pmr.Take? || x.pmr.Drop?
    ensures Enters(g, walk, x) ==>
              WithStep(g, walk, s, x).Of(x.pmr.fPlayer).cube.n.anTotalCube == s.Of(x.pmr.fPlayer).cube.n.anTotalCube + 1
    ensures !Enters(g, walk, x) ==> WithStep(g, walk, s, x) == s
  {
    if Enters(g, walk, x) {
      PlusDelta(g, x, s, x.pmr.fPlayer);
    } else if Counts(g, walk, x) {
      NothingAdded(g, x, s);
    }
  }

  /** The two do the same with an answer, in all counts, errors and costs, exactly
      when it is not judged, or the analysis looks at its player and it answers an odd
      number of doubles. */
  lemma WalksAgree<E>(g: Settings, r: Rules<E>, o: Operations<E>, ms: MatchState<E>, game: seq<Record>, p: Player, n: nat,
                      s: Sides)
    requires Engine(r, o) && 0 < n < |game| && DoublesInARow(r, ms, game, p, n) && (game[n].Take? || game[n].Drop?)
    ensures (WithStep(g, Analysis, s, AnswerAt(r, Analysis, ms, game, n))
             == WithStep(g, Stored, s, AnswerAt(r, Stored, ms, game, n)))
            <==> (Judged(g, game[n]) ==> game[n].fPlayer in g.afAnalysePlayers && n % 2 == 1)
  {
    var a, b := AnswerAt(r, Analysis, ms, game, n), AnswerAt(r, Stored, ms, game, n);
    EntersShows(g, Analysis, s, a);
    EntersShows(g, Stored, s, b);
    if game[n].Take? {
      TakeCounts(g, r, o, Analysis, ms, game, p, n);
      TakeCounts(g, r, o, Stored, ms, game, p, n);
    } else {
      DropCounts(g, r, o, Analysis, ms, game, p, n);
      DropCounts(g, r, o, Stored, ms, game, p, n);
    }
    if n % 2 == 1 {
      AfterDoubles(r, o, ms, game, p, n);
      AnswerSeen(r, o, Analysis, ms, game, p, n);
      AnswerSeen(r, o, Stored, ms, game, p, n);
      assert a == b;
    }
  }
}
