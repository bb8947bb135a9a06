/** Order of the records, what errors cost, and the statistics of a match
    (gnubg/analysis.c, lines 335 to 568, 1040 to 1109). */
module StatisticsMatch {
  import opened Common
  import opened MatchStates
  import opened Statistics
  import Variance

  // ----- The order of the records does not matter

  lemma PlusSwap(s: Sides, a: Sides, b: Sides)
    ensures s.Plus(a).Plus(b) == s.Plus(b).Plus(a)
  {
  }

  lemma {:induction false} FoldMove(f: Step -> Sides, s: Sides, a: seq<Step>, x: Step, b: seq<Step>)
    ensures Fold(f, s, a + [x] + b) == Fold(f, s.Plus(f(x)), a + b)
    decreases |a|
  {
    if a == [] {
      assert ([x] + b)[1..] == b && a + [x] + b == [x] + b && a + b == b;
    } else {
      assert (a + [x] + b)[1..] == a[1..] + [x] + b && (a + b)[1..] == a[1..] + b;
      FoldMove(f, s.Plus(f(a[0])), a[1..], x, b);
      PlusSwap(s, f(a[0]), f(x));
    }
  }

  /** The first element of one list, found in another with the same elements. */
  lemma FindFirst<T>(xs: seq<T>, ys: seq<T>) returns (a: seq<T>, b: seq<T>)
    requires xs != [] && multiset(xs) == multiset(ys)
    ensures ys == a + [xs[0]] + b && multiset(xs[1..]) == multiset(a + b)
  {
    assert xs == [xs[0]] + xs[1..];
    assert xs[0] in multiset(ys);
    var k :| 0 <= k < |ys| && ys[k] == xs[0];
    a, b := ys[..k], ys[k + 1..];
    assert ys == a + [xs[0]] + b;
    assert multiset(ys) == multiset(a) + multiset{xs[0]} + multiset(b);
    assert multiset(a + b) == multiset(ys) - multiset{xs[0]};
  }

  lemma {:induction false} FoldPermuted(f: Step -> Sides, s: Sides, xs: seq<Step>, ys: seq<Step>)
    requires multiset(xs) == multiset(ys)
    ensures Fold(f, s, xs) == Fold(f, s, ys)
    decreases |xs|
  {
    if xs == [] {
      assert |ys| == |multiset(ys)| == 0;
    } else {
      var a, b := FindFirst(xs, ys);
      FoldMove(f, s, a, xs[0], b);
      FoldPermuted(f, s.Plus(f(xs[0])), xs[1..], a + b);
    }
  }

  /** The tasks may update the context in any order. */
  lemma RunPermuted(g: Settings, s: Sides, xs: seq<Step>, ys: seq<Step>)
    requires multiset(xs) == multiset(ys)
    ensures Fold(Deltas(g), s, xs) == Fold(Deltas(g), s, ys)
  {
    FoldPermuted(Deltas(g), s, xs, ys);
  }

  /** The records of the tasks, one task after the other. */
  function Joined<T>(tasks: seq<seq<T>>): seq<T> {
    if tasks == [] then [] else tasks[0] + Joined(tasks[1..])
  }

  lemma {:induction false} JoinedConcat<T>(a: seq<seq<T>>, b: seq<seq<T>>)
    ensures Joined(a + b) == Joined(a) + Joined(b)
  {
    if a == [] {
      assert a + b == b;
    } else {
      assert (a + b)[1..] == a[1..] + b;
      JoinedConcat(a[1..], b);
    }
  }

  lemma {:induction false} JoinedPermuted<T>(tasks: seq<seq<T>>, others: seq<seq<T>>)
    requires multiset(tasks) == multiset(others)
    ensures multiset(Joined(tasks)) == multiset(Joined(others))
    decreases |tasks|
  {
    if tasks == [] {
      assert |others| == |multiset(others)| == 0;
    } else {
      var a, b := FindFirst(tasks, others);
      JoinedPermuted(tasks[1..], a + b);
      JoinedConcat(a, b);
      JoinedConcat(a + [tasks[0]], b);
      JoinedConcat(a, [tasks[0]]);
      assert Joined([tasks[0]]) == tasks[0] + Joined([]) == tasks[0];
    }
  }

  /** Worker threads may run the tasks in any order, each with its records in its
      own order. */
  lemma TasksPermuted(g: Settings, s: Sides, tasks: seq<seq<Step>>, others: seq<seq<Step>>)
    requires multiset(tasks) == multiset(others)
    ensures Fold(Deltas(g), s, Joined(tasks)) == Fold(Deltas(g), s, Joined(others))
  {
    JoinedPermuted(tasks, others);
    RunPermuted(g, s, Joined(tasks), Joined(others));
  }

  // ----- Errors and what they cost

  /** Losing costs something at these stakes. */
  predicate Fair(ms: Stakes) {
    if ms.nMatchTo != 0 then ms.rMwcLose < ms.rMwcWin else ms.nCube > 0
  }

  lemma ProductNegative(a: real, b: real)
    requires a < 0.0 && b > 0.0
    ensures a * b < 0.0
  {
  }

  lemma CostNegative(ms: Stakes, r: real)
    requires Fair(ms) && r < 0.0
    ensures Cost(ms, r) < 0.0
  {
    if ms.nMatchTo != 0 {
      ProductNegative(r, ms.rMwcWin - ms.rMwcLose);
    } else {
      ProductNegative(r, ms.nCube as real);
    }
  }

  /** Nothing is lost without an error, and every error loses something. */
  ghost predicate Paid(e: Errors) {
    if e.an == 0 then e.ar.norm == 0.0 && e.ar.cost == 0.0 else e.ar.norm > 0.0 && e.ar.cost > 0.0
  }

  ghost predicate PaidErrors(e: CubeErrors) {
    && Paid(e.missedDoubleDP) && Paid(e.missedDoubleTG) && Paid(e.wrongDoubleDP) && Paid(e.wrongDoubleTG)
    && Paid(e.wrongTake) && Paid(e.wrongPass)
  }

  ghost predicate PaidSides(s: Sides) {
    PaidErrors(s.p0.cube.e) && PaidErrors(s.p1.cube.e)
  }

  lemma ErrorIfPaid(c: bool, ms: Stakes, r: real)
    requires Fair(ms) && (c ==> r < 0.0)
    ensures Paid(ErrorIf(c, ms, r))
  {
    if c {
      CostNegative(ms, r);
    }
  }

  lemma CubeErrorsPaid(g: Settings, x: Step, p: Player)
    requires Fair(x.pms)
    ensures PaidErrors(CubeErrorsOf(g, x, p))
  {
    var ar, ms := x.ar, x.pms;
    ErrorIfPaid(MissedDouble(g, x, p) && ar.take <= 1.0, ms, ar.noDouble - ar.optimal);
    ErrorIfPaid(MissedDouble(g, x, p) && ar.take > 1.0, ms, ar.noDouble - ar.optimal);
    ErrorIfPaid(WrongDouble(g, x, p) && ar.noDouble <= 1.0, ms, Smaller(ar.take, ar.drop) - ar.optimal);
    ErrorIfPaid(WrongDouble(g, x, p) && ar.noDouble > 1.0, ms, Smaller(ar.take, ar.drop) - ar.optimal);
    ErrorIfPaid(WrongTake(g, x, p), ms, ar.drop - ar.take);
    ErrorIfPaid(WrongPass(g, x, p), ms, ar.take - ar.drop);
  }

  lemma PaidPlus(a: Errors, b: Errors)
    requires Paid(a) && Paid(b)
    ensures Paid(a.Plus(b))
  {
  }

  lemma PaidErrorsPlus(a: CubeErrors, b: CubeErrors)
    requires PaidErrors(a) && PaidErrors(b)
    ensures PaidErrors(a.Plus(b))
  {
    PaidPlus(a.missedDoubleDP, b.missedDoubleDP);
    PaidPlus(a.missedDoubleTG, b.missedDoubleTG);
    PaidPlus(a.wrongDoubleDP, b.wrongDoubleDP);
    PaidPlus(a.wrongDoubleTG, b.wrongDoubleTG);
    PaidPlus(a.wrongTake, b.wrongTake);
    PaidPlus(a.wrongPass, b.wrongPass);
  }

  lemma {:induction false} FoldPaid(f: Step -> Sides, s: Sides, xs: seq<Step>)
    requires PaidSides(s) && forall k :: 0 <= k < |xs| ==> PaidSides(f(xs[k]))
    ensures PaidSides(Fold(f, s, xs))
    decreases |xs|
  {
    if xs != [] {
      PaidErrorsPlus(s.p0.cube.e, f(xs[0]).p0.cube.e);
      PaidErrorsPlus(s.p1.cube.e, f(xs[0]).p1.cube.e);
      FoldPaid(f, s.Plus(f(xs[0])), xs[1..]);
    }
  }

  /** At fair stakes, a kind of cube error has cost a player something exactly
      when the player has made one. */
  lemma RunPaid(g: Settings, s: Sides, xs: seq<Step>)
    requires PaidSides(s) && forall k :: 0 <= k < |xs| ==> Fair(xs[k].pms)
    ensures PaidSides(Fold(Deltas(g), s, xs))
  {
    forall k | 0 <= k < |xs| ensures PaidSides(Deltas(g)(xs[k])) {
      CubeErrorsPaid(g, xs[k], 0);
      CubeErrorsPaid(g, xs[k], 1);
    }
    FoldPaid(Deltas(g), s, xs);
  }

  // ----- A whole context

  /** The value of a statcontext. */
  datatype Stats = Stats(fMoves: bool, fCube: bool, fDice: bool, sides: Sides, nGames: nat)

  ghost predicate ClearedAmount(a: Amount) {
    a.norm == 0.0 && a.cost == 0.0
  }

  ghost predicate ClearedMove(t: MoveTally) {
    t.anUnforcedMoves == 0 && t.anTotalMoves == 0 && t.anMoves == multiset{} && ClearedAmount(t.arErrorCheckerplay)
  }

  ghost predicate ClearedError(e: Errors) {
    e.an == 0 && ClearedAmount(e.ar)
  }

  ghost predicate ClearedCube(t: CubeTally) {
    && t.n.anTotalCube == 0 && t.n.anCloseCube == 0 && t.n.anDouble == 0 && t.n.anTake == 0 && t.n.anPass == 0
    && ClearedError(t.e.missedDoubleDP) && ClearedError(t.e.missedDoubleTG)
    && ClearedError(t.e.wrongDoubleDP) && ClearedError(t.e.wrongDoubleTG)
    && ClearedError(t.e.wrongTake) && ClearedError(t.e.wrongPass)
  }

  ghost predicate ClearedScore(s: Score) {
    s.arActualResult == 0.0 && s.arLuckAdj == 0.0 && s.arVarianceActual == 0.0 && s.arVarianceLuckAdj == 0.0
  }

  ghost predicate ClearedTally(t: Tally) {
    && ClearedMove(t.move) && ClearedCube(t.cube) && ClearedScore(t.score)
    && t.luck.anLuck == multiset{} && ClearedAmount(t.luck.arLuck)
  }

  /** All zero, as after IniStatcontext. */
  ghost predicate Cleared(s: Stats) {
    && ClearedTally(s.sides.p0) && ClearedTally(s.sides.p1) && s.nGames == 0
    && !s.fMoves && !s.fCube && !s.fDice
  }

  lemma ClearedConsistent(s: Stats)
    requires Cleared(s)
    ensures Consistent(s.sides) && PaidSides(s.sides)
  {
  }

  // ----- The record that opens a game

  /** What the result of a game is worth to a player. */
  function Result(pmr: Record, p: Player): real
    requires pmr.GameInfo?
  {
    if pmr.fWinner.None? then 0.0
    else
      var win := if pmr.nMatch != 0 then pmr.rGain else pmr.nPoints as real;
      if pmr.fWinner.value == p then win else -win
  }

  function WithResult(t: Tally, r: real): Tally {
    t.(score := t.score.(arActualResult := r, arLuckAdj := r))
  }

  function Opened(s: Sides, pmr: Record): Sides
    requires pmr.GameInfo?
  {
    Sides(WithResult(s.p0, Result(pmr, 0)), WithResult(s.p1, Result(pmr, 1)))
  }

  lemma OpenedConsistent(s: Stats, pmr: Record)
    requires Cleared(s) && pmr.GameInfo?
    ensures Consistent(Opened(s.sides, pmr)) && PaidSides(Opened(s.sides, pmr))
  {
    ClearedConsistent(s);
  }

  /** The context after a game that starts with this record. */
  function GameSides(g: Settings, s: Sides, pmr: Record, xs: seq<Step>): Sides
    requires pmr.GameInfo?
  {
    Fold(Deltas(g), Opened(s, pmr), xs)
  }

  /** The records of a game that is stored, as its statistics count them; the state
      before the game does not matter. */
  function StoredSteps<E>(g: Settings, r: Rules<E>, ms0: MatchState<E>, game: seq<Record>): seq<Step>
    requires IsGame(game)
  {
    Counted(g, Stored, Steps(r, Stored, Advance(r, Stored, ms0, game[0]), game[1..]))
  }

  /** The context of a stored game. */
  function GameStats<E>(g: Settings, s: Sides, r: Rules<E>, ms0: MatchState<E>, game: seq<Record>): Stats
    requires IsGame(game)
  {
    Stats(g.fAnalyseMove, g.fAnalyseCube, g.fAnalyseDice, GameSides(g, s, game[0], StoredSteps(g, r, ms0, game)), 0)
  }

  ghost predicate AllGames(games: seq<seq<Record>>) {
    forall k :: 0 <= k < |games| ==> IsGame(games[k])
  }

  /** These are the contexts of the games. */
  ghost predicate OfGames<E>(values: seq<Stats>, g: Settings, s: Sides, r: Rules<E>, ms0: MatchState<E>,
                             games: seq<seq<Record>>)
    requires AllGames(games)
  {
    |values| == |games| && forall k :: 0 <= k < |games| ==> values[k] == GameStats(g, s, r, ms0, games[k])
  }

  lemma GameConsistent(g: Settings, s: Stats, pmr: Record, xs: seq<Step>)
    requires Cleared(s) && pmr.GameInfo?
    ensures Consistent(GameSides(g, s.sides, pmr, xs))
  {
    OpenedConsistent(s, pmr);
    RunConsistent(g, Opened(s.sides, pmr), xs);
  }

  lemma GamePaid(g: Settings, s: Stats, pmr: Record, xs: seq<Step>)
    requires Cleared(s) && pmr.GameInfo? && forall k :: 0 <= k < |xs| ==> Fair(xs[k].pms)
    ensures PaidSides(GameSides(g, s.sides, pmr, xs))
  {
    OpenedConsistent(s, pmr);
    RunPaid(g, Opened(s.sides, pmr), xs);
  }

  // ----- Adding a game to the match

  function AddedScore(b: Score, a: Score, n: nat): Score {
    var r, l := b.arActualResult + a.arActualResult, b.arLuckAdj + a.arLuckAdj;
    Score(r, l, Variance.Step(b.arVarianceActual, r, a.arActualResult, n),
          Variance.Step(b.arVarianceLuckAdj, l, a.arLuckAdj, n))
  }

  function AddedTally(b: Tally, a: Tally, score: Score): Tally {
    Tally(b.move.Plus(a.move), b.cube.Plus(a.cube), b.luck.Plus(a.luck), score)
  }

  /** The result of the game has been calculated, as the source tests it. */
  predicate HasResult(a: Sides) {
    a.p0.score.arActualResult >= 0.0 || a.p1.score.arActualResult >= 0.0
  }

  function NewScore(c: bool, b: Score, a: Score, n: nat): Score {
    if c then AddedScore(b, a, n) else b
  }

  function AddedSides(b: Sides, a: Sides, n: nat): Sides {
    var c := HasResult(a);
    Sides(AddedTally(b.p0, a.p0, NewScore(c, b.p0.score, a.p0.score, n)),
          AddedTally(b.p1, a.p1, NewScore(c, b.p1.score, a.p1.score, n)))
  }

  function Added(b: Stats, a: Stats): Stats {
    var n := b.nGames + 1;
    Stats(b.fMoves || a.fMoves, b.fCube || a.fCube, b.fDice || a.fDice, AddedSides(b.sides, a.sides, n), n)
  }

  lemma BalancedHasResult(a: Sides)
    requires Balanced(a)
    ensures HasResult(a)
  {
  }

  lemma AddedConsistent(b: Stats, a: Stats)
    requires Consistent(b.sides) && Consistent(a.sides)
    ensures Consistent(Added(b, a).sides)
  {
    BalancedHasResult(a.sides);
    ConsistentPlus(b.sides, a.sides);
    var c := Added(b, a).sides;
    assert c.p0.move == b.sides.Plus(a.sides).p0.move && c.p1.move == b.sides.Plus(a.sides).p1.move;
    assert Balanced(c);
  }

  /** The match after these games. */
  function MatchOf(s: Stats, games: seq<Stats>): Stats {
    if games == [] then s else Added(MatchOf(s, games[..|games| - 1]), games[|games| - 1])
  }

  function Results(games: seq<Stats>, p: Player): seq<real> {
    if games == [] then []
    else Results(games[..|games| - 1], p) + [games[|games| - 1].sides.Of(p).score.arActualResult]
  }

  function LuckAdjusted(games: seq<Stats>, p: Player): seq<real> {
    if games == [] then []
    else LuckAdjusted(games[..|games| - 1], p) + [games[|games| - 1].sides.Of(p).score.arLuckAdj]
  }

  /** The score of a player sums up these results. */
  ghost predicate SumsUp(s: Score, rs: seq<real>, ls: seq<real>) {
    && s.arActualResult == Variance.Sum(rs) && s.arVarianceActual == Variance.SampleVariance(rs)
    && s.arLuckAdj == Variance.Sum(ls) && s.arVarianceLuckAdj == Variance.SampleVariance(ls)
  }

  lemma SumsUpSnoc(b: Score, a: Score, n: nat, rs: seq<real>, ls: seq<real>)
    requires SumsUp(b, rs, ls) && |rs| == |ls| == n
    ensures SumsUp(AddedScore(b, a, n + 1), rs + [a.arActualResult], ls + [a.arLuckAdj])
  {
    Variance.SumSnoc(rs, a.arActualResult);
    Variance.SumSnoc(ls, a.arLuckAdj);
    Variance.StepIsVariance(rs, a.arActualResult);
    Variance.StepIsVariance(ls, a.arLuckAdj);
  }

  /** The context of a match sums up its games. */
  ghost predicate Summary(m: Stats, games: seq<Stats>) {
    && m.nGames == |games| == |Results(games, 0)| == |LuckAdjusted(games, 0)|
    && |games| == |Results(games, 1)| == |LuckAdjusted(games, 1)|
    && Consistent(m.sides)
    && SumsUp(m.sides.p0.score, Results(games, 0), LuckAdjusted(games, 0))
    && SumsUp(m.sides.p1.score, Results(games, 1), LuckAdjusted(games, 1))
  }

  /** After any games, the match holds the sums and the sample variances of their
      results, and its context is consistent. */
  lemma {:induction false} MatchSumsUp(s: Stats, games: seq<Stats>)
    requires Cleared(s) && forall k :: 0 <= k < |games| ==> Consistent(games[k].sides)
    ensures Summary(MatchOf(s, games), games)
  {
    if games == [] {
      ClearedConsistent(s);
    } else {
      var n := |games| - 1;
      var before, a := games[..n], games[n];
      MatchSumsUp(s, before);
      var b := MatchOf(s, before);
      AddedConsistent(b, a);
      BalancedHasResult(a.sides);
      SumsUpSnoc(b.sides.p0.score, a.sides.p0.score, n, Results(before, 0), LuckAdjusted(before, 0));
      SumsUpSnoc(b.sides.p1.score, a.sides.p1.score, n, Results(before, 1), LuckAdjusted(before, 1));
    }
  }

  // ----- The results of the games

  /** The winner of a game wins its worth, and the other player loses it: in a match the
      gain in winning chances, for money the points. */
  ghost predicate Settled(s: Sides, pmr: Record)
    requires pmr.GameInfo?
  {
    var r0, r1 := s.p0.score.arActualResult, s.p1.score.arActualResult;
    && (pmr.fWinner == None ==> r0 == 0.0 && r1 == 0.0)
    && (pmr.fWinner == Some(0) ==> r1 == -r0 && r0 == if pmr.nMatch == 0 then pmr.nPoints as real else pmr.rGain)
    && (pmr.fWinner == Some(1) ==> r0 == -r1 && r1 == if pmr.nMatch == 0 then pmr.nPoints as real else pmr.rGain)
  }

  lemma GameIsSettled(g: Settings, s: Sides, pmr: Record, xs: seq<Step>)
    requires pmr.GameInfo?
    ensures Settled(GameSides(g, s, pmr, xs), pmr)
  {
    FoldKeepsResult(g, Opened(s, pmr), xs, 0);
    FoldKeepsResult(g, Opened(s, pmr), xs, 1);
  }

  /** What a player has won in the games that this player won. */
  function Won(games: seq<seq<Record>>, p: Player): real
    requires AllGames(games)
  {
    if games == [] then 0.0
    else
      var front, pmr := games[..|games| - 1], games[|games| - 1][0];
      Won(front, p) + (if pmr.fWinner == Some(p) then (if pmr.nMatch == 0 then pmr.nPoints as real else pmr.rGain) else 0.0)
  }

  lemma {:induction false} ResultsAreWon(games: seq<seq<Record>>, p: Player)
    requires AllGames(games)
    ensures Variance.Sum(GameResults(games, p)) == Won(games, p) - Won(games, 1 - p)
  {
    if games != [] {
      var n := |games| - 1;
      var front := games[..n];
      ResultsAreWon(front, p);
      assert GameResults(games, p) == GameResults(front, p) + [Result(games[n][0], p)];
      Variance.SumSnoc(GameResults(front, p), Result(games[n][0], p));
    }
  }

  lemma ClearedUnique(a: Stats, b: Stats)
    requires Cleared(a) && Cleared(b)
    ensures a == b
  {
  }

  lemma {:induction false} FoldKeepsResult(g: Settings, s: Sides, xs: seq<Step>, p: Player)
    ensures Fold(Deltas(g), s, xs).Of(p).score.arActualResult == s.Of(p).score.arActualResult
    decreases |xs|
  {
    if xs != [] {
      FoldKeepsResult(g, s.Plus(Deltas(g)(xs[0])), xs[1..], p);
    }
  }

  /** What the games are worth to a player, by the records that open them. */
  function GameResults(games: seq<seq<Record>>, p: Player): (rs: seq<real>)
    requires AllGames(games)
    ensures |rs| == |games| && forall k :: 0 <= k < |games| ==> rs[k] == Result(games[k][0], p)
  {
    seq(|games|, k requires 0 <= k < |games| => Result(games[k][0], p))
  }

  lemma {:induction false} ResultAt(vs: seq<Stats>, p: Player, k: nat)
    requires k < |vs|
    ensures |Results(vs, p)| == |vs| && Results(vs, p)[k] == vs[k].sides.Of(p).score.arActualResult
  {
    var n := |vs| - 1;
    if n > 0 {
      ResultAt(vs[..n], p, if k < n then k else 0);
    }
  }

  lemma GameResult<E>(v: Stats, g: Settings, s: Sides, r: Rules<E>, ms0: MatchState<E>, game: seq<Record>, p: Player)
    requires IsGame(game) && v == GameStats(g, s, r, ms0, game)
    ensures v.sides.Of(p).score.arActualResult == Result(game[0], p)
  {
    FoldKeepsResult(g, Opened(s, game[0]), StoredSteps(g, r, ms0, game), p);
  }

  /** The results that the match sums up are those of its games. */
  lemma ResultsOfGames<E>(values: seq<Stats>, g: Settings, s: Sides, r: Rules<E>, ms0: MatchState<E>,
                          games: seq<seq<Record>>, p: Player)
    requires AllGames(games) && OfGames(values, g, s, r, ms0, games)
    ensures Results(values, p) == GameResults(games, p)
  {
    if games != [] {
      ResultAt(values, p, 0);
      forall k | 0 <= k < |games|
        ensures Results(values, p)[k] == GameResults(games, p)[k]
      {
        ResultAt(values, p, k);
        GameResult(values[k], g, s, r, ms0, games[k], p);
      }
    }
  }

  lemma GamesConsistent<E>(values: seq<Stats>, g: Settings, s: Stats, r: Rules<E>, ms0: MatchState<E>,
                           games: seq<seq<Record>>)
    requires Cleared(s) && AllGames(games) && OfGames(values, g, s.sides, r, ms0, games)
    ensures forall k :: 0 <= k < |games| ==> Consistent(values[k].sides)
  {
    forall k | 0 <= k < |games|
      ensures Consistent(values[k].sides)
    {
      GameConsistent(g, s, games[k][0], StoredSteps(g, r, ms0, games[k]));
    }
  }

  /** The match holds the sums of what its games hold; its results and their
      variances are those of the games' results. */
  ghost predicate SumsUpGames(m: Stats, start: Stats, values: seq<Stats>, games: seq<seq<Record>>)
    requires AllGames(games)
  {
    && m == MatchOf(start, values) && Summary(m, values)
    && ResultsSumUp(m.sides.p0.score, GameResults(games, 0)) && ResultsSumUp(m.sides.p1.score, GameResults(games, 1))
    && m.sides.p0.score.arActualResult == Won(games, 0) - Won(games, 1)
    && m.sides.p1.score.arActualResult == Won(games, 1) - Won(games, 0)
  }

  ghost predicate ResultsSumUp(s: Score, rs: seq<real>) {
    s.arActualResult == Variance.Sum(rs) && s.arVarianceActual == Variance.SampleVariance(rs)
  }

  lemma SummaryResults(m: Stats, values: seq<Stats>, r0: seq<real>, r1: seq<real>)
    requires Summary(m, values) && Results(values, 0) == r0 && Results(values, 1) == r1
    ensures ResultsSumUp(m.sides.p0.score, r0) && ResultsSumUp(m.sides.p1.score, r1)
  {
  }

  lemma MatchOfGames<E>(m: Stats, start: Stats, values: seq<Stats>, g: Settings, r: Rules<E>, ms0: MatchState<E>,
                        games: seq<seq<Record>>)
    requires Cleared(start) && AllGames(games) && OfGames(values, g, start.sides, r, ms0, games)
    requires m == MatchOf(start, values)
    ensures SumsUpGames(m, start, values, games)
  {
    GamesConsistent(values, g, start, r, ms0, games);
    MatchSumsUp(start, values);
    ResultsOfGames(values, g, start.sides, r, ms0, games, 0);
    ResultsOfGames(values, g, start.sides, r, ms0, games, 1);
    SummaryResults(m, values, GameResults(games, 0), GameResults(games, 1));
    ResultsAreWon(games, 0);
    ResultsAreWon(games, 1);
  }

  lemma MatchOfSnoc(s: Stats, games: seq<Stats>, v: Stats)
    ensures MatchOf(s, games + [v]) == Added(MatchOf(s, games), v)
  {
    assert (games + [v])[..|games|] == games;
  }

  lemma MatchOfNext(s: Stats, games: seq<Stats>, i: nat)
    requires i < |games|
    ensures MatchOf(s, games[..i + 1]) == Added(MatchOf(s, games[..i]), games[i])
  {
    assert games[..i + 1] == games[..i] + [games[i]];
    MatchOfSnoc(s, games[..i], games[i]);
  }
}
