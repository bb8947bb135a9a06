/** The context as the program keeps it: updated in place by every record, and
    added to the match (gnubg/analysis.c, lines 291 to 576, 1040 to 1109, 1227 to
    1283 and 1579 to 1677). */
module StatContext {
  import opened Common
  import opened MatchStates
  import opened Statistics
  import opened StatisticsMatch
  import Variance

  // ----- Parts of a record that add nothing

  lemma NoMove(g: Settings, x: Step, p: Player, t: MoveTally)
    requires !Moves(x, p)
    ensures t.Plus(MoveTallyOf(g, x, p)) == t
  {
    assert t.anMoves + SkillIf(Moves(x, p), SkillOf(g, x, p)) == t.anMoves;
    AmountPlusNone(t.arErrorCheckerplay, Unforced(g, x, p), x.pms, MoveSkill(g, x, p));
  }

  lemma AmountPlusNone(a: Amount, b: bool, ms: Stakes, r: real)
    requires !b
    ensures a.Plus(AmountIf(b, ms, r)) == a
  {
  }

  lemma NoCube(g: Settings, x: Step, p: Player, t: CubeTally)
    requires !Decides(g, x, p)
    ensures t.Plus(CubeTally(CubeCountsOf(g, x, p), CubeErrorsOf(g, x, p))) == t
  {
    assert t.e.Plus(CubeErrorsOf(g, x, p)) == t.e;
  }

  lemma NoLuck(g: Settings, x: Step, p: Player, t: LuckTally)
    requires !Rolls(g, x, p)
    ensures t.Plus(LuckTallyOf(g, x, p)) == t
  {
  }

  function CubeOf(g: Settings, x: Step, p: Player): CubeTally {
    CubeTally(CubeCountsOf(g, x, p), CubeErrorsOf(g, x, p))
  }

  lemma NoScore(g: Settings, x: Step, p: Player, t: Score)
    requires !Rolls(g, x, 0) && !Rolls(g, x, 1)
    ensures t.Plus(ScoreOf(g, x, p)) == t
  {
  }

  /** A tally with the parts of the record's own player. */
  function OwnAdded(g: Settings, x: Step, p: Player, t: Tally): Tally {
    t.(move := t.move.Plus(MoveTallyOf(g, x, p)), cube := t.cube.Plus(CubeOf(g, x, p)),
       luck := t.luck.Plus(LuckTallyOf(g, x, p)), score := t.score.Plus(ScoreOf(g, x, p)))
  }

  lemma PlusDelta(g: Settings, x: Step, s: Sides, p: Player)
    ensures s.Plus(Deltas(g)(x)).Of(p) == OwnAdded(g, x, p, s.Of(p))
  {
  }

  /** The other player's tally changes only by the luck. */
  lemma OtherDelta(g: Settings, x: Step, s: Sides, p: Player)
    requires !By(x, p)
    ensures s.Plus(Deltas(g)(x)).Of(p) == s.Of(p).(score := s.Of(p).score.Plus(ScoreOf(g, x, p)))
  {
    PlusDelta(g, x, s, p);
    NoMove(g, x, p, s.Of(p).move);
    NoCube(g, x, p, s.Of(p).cube);
    NoLuck(g, x, p, s.Of(p).luck);
  }

  /** What the record adds to the cube decisions only. */
  lemma CubeDelta(g: Settings, x: Step, s: Sides, p: Player)
    requires By(x, p) && !x.pmr.Normal? && !x.pmr.SetDice?
    ensures s.Plus(Deltas(g)(x)) == s.Put(p, s.Of(p).(cube := s.Of(p).cube.Plus(CubeOf(g, x, p))))
  {
    var t, o := s.Of(p), s.Of(Other(p));
    PlusDelta(g, x, s, p);
    NoMove(g, x, p, t.move);
    NoLuck(g, x, p, t.luck);
    NoScore(g, x, p, t.score);
    OtherDelta(g, x, s, Other(p));
    NoScore(g, x, Other(p), o.score);
  }

  /** A record without a move, a roll of known luck or a decision that counts. */
  lemma NothingAdded(g: Settings, x: Step, s: Sides)
    requires !x.pmr.GameInfo? && !x.pmr.Normal? && !Decides(g, x, x.pmr.fPlayer) && !Rolls(g, x, x.pmr.fPlayer)
    ensures s.Plus(Deltas(g)(x)) == s
  {
    var p := x.pmr.fPlayer;
    OtherDelta(g, x, s, Other(p));
    NoScore(g, x, Other(p), s.Of(Other(p)).score);
    PlusDelta(g, x, s, p);
    NoMove(g, x, p, s.Of(p).move);
    NoCube(g, x, p, s.Of(p).cube);
    NoLuck(g, x, p, s.Of(p).luck);
    NoScore(g, x, p, s.Of(p).score);
    SameSides(s.Plus(Deltas(g)(x)), s, p);
  }

  lemma SameSides(a: Sides, b: Sides, p: Player)
    requires a.Of(p) == b.Of(p) && a.Of(Other(p)) == b.Of(Other(p))
    ensures a == b
  {
  }

  lemma LuckDelta(g: Settings, x: Step, s: Sides, p: Player)
    requires By(x, p) && x.pmr.SetDice?
    ensures s.Plus(Deltas(g)(x)).Of(p)
         == s.Of(p).(luck := s.Of(p).luck.Plus(LuckTallyOf(g, x, p)), score := s.Of(p).score.Plus(ScoreOf(g, x, p)))
  {
    PlusDelta(g, x, s, p);
    NoMove(g, x, p, s.Of(p).move);
    NoCube(g, x, p, s.Of(p).cube);
  }

  // ----- The loops over candidates

  method FindSkill(key: int, ml: seq<Candidate>) returns (r: real)
    ensures r == ChequerSkill(key, ml)
  {
    r := 0.0;
    var i := 0;
    while i < |ml|
      invariant 0 <= i <= |ml| && r == 0.0
      invariant forall k :: 0 <= k < i ==> ml[k].key != key
    {
      if ml[i].key == key {
        r := ml[i].rScore - ml[0].rScore;
        assert FirstIndex(key, ml) == i;
        break;
      }
      i := i + 1;
    }
  }

  class StatContext {
    var fMoves: bool
    var fCube: bool
    var fDice: bool
    var sides: Sides
    var nGames: nat

    function Value(): Stats
      reads this
    {
      Stats(fMoves, fCube, fDice, sides, nGames)
    }

    constructor ()
      ensures Cleared(Value())
    {
      fMoves, fCube, fDice, nGames := false, false, false, 0;
      var n: nat, r: real := 0, 0.0;
      sides := Sides(Zeros(n, r), Zeros(n, r));
    }

    /** IniStatcontext. */
    method Ini()
      modifies this
      ensures Cleared(Value())
    {
      fMoves, fCube, fDice, nGames := false, false, false, 0;
      var n: nat, r: real := 0, 0.0;
      sides := Sides(Zeros(n, r), Zeros(n, r));
    }

    /** The decision not to double, before a move. */
    method CountNoDouble(g: Settings, x: Step)
      requires x.pmr.Normal?
      modifies this`sides
      ensures var p := x.pmr.fPlayer;
              var t := old(sides).Of(p);
              sides == old(sides).Put(p, t.(cube := t.cube.Plus(CubeOf(g, x, p))))
    {
      var p, ms := x.pmr.fPlayer, x.pms;
      var t := sides.Of(p);
      var n, e := t.cube.n, t.cube.e;
      if x.pmr.cube.evaluated && g.fAnalyseCube && g.fCubeUse {
        var arDouble := x.ar;
        n := n.(anTotalCube := n.anTotalCube + 1);
        if IsClose(arDouble) {
          n := n.(anCloseCube := n.anCloseCube + 1);
        }
        if arDouble.noDouble < arDouble.optimal {
          var rSkill := arDouble.noDouble - arDouble.optimal;
          var rCost := Cost(ms, rSkill);
          if arDouble.take > 1.0 {
            e := e.(missedDoubleTG := Charged(e.missedDoubleTG, rSkill, rCost));
          } else {
            e := e.(missedDoubleDP := Charged(e.missedDoubleDP, rSkill, rCost));
          }
        }
      }
      assert n == t.cube.n.Plus(CubeCountsOf(g, x, p));
      assert e == t.cube.e.Plus(CubeErrorsOf(g, x, p));
      sides := sides.Put(p, t.(cube := CubeTally(n, e)));
    }

    method CountDouble(g: Settings, x: Step)
      requires x.pmr.Double?
      modifies this`sides
      ensures var p := x.pmr.fPlayer;
              var t := old(sides).Of(p);
              sides == old(sides).Put(p, t.(cube := t.cube.Plus(CubeOf(g, x, p))))
    {
      var p, ms := x.pmr.fPlayer, x.pms;
      var t := sides.Of(p);
      var n, e := t.cube.n, t.cube.e;
      if KindAt(ms) == DT_NORMAL && g.fAnalyseCube && g.fCubeUse && x.pmr.cube.evaluated {
        var arDouble := x.ar;
        var rSkill := if arDouble.take < arDouble.drop then arDouble.take - arDouble.optimal
                      else arDouble.drop - arDouble.optimal;
        n := n.(anTotalCube := n.anTotalCube + 1, anDouble := n.anDouble + 1, anCloseCube := n.anCloseCube + 1);
        if rSkill < 0.0 {
          var rCost := Cost(ms, rSkill);
          if arDouble.noDouble > 1.0 {
            e := e.(wrongDoubleTG := Charged(e.wrongDoubleTG, rSkill, rCost));
          } else {
            e := e.(wrongDoubleDP := Charged(e.wrongDoubleDP, rSkill, rCost));
          }
        }
      }
      assert n == t.cube.n.Plus(CubeCountsOf(g, x, p));
      assert e == t.cube.e.Plus(CubeErrorsOf(g, x, p));
      sides := sides.Put(p, t.(cube := CubeTally(n, e)));
    }

    method CountTake(g: Settings, x: Step)
      requires x.pmr.Take?
      modifies this`sides
      ensures var p := x.pmr.fPlayer;
              var t := old(sides).Of(p);
              sides == old(sides).Put(p, t.(cube := t.cube.Plus(CubeOf(g, x, p))))
    {
      var p, ms := x.pmr.fPlayer, x.pms;
      var t := sides.Of(p);
      var n, e := t.cube.n, t.cube.e;
      if KindAt(ms) != DT_RACCOON && g.fAnalyseCube && g.fCubeUse && x.pmr.cube.evaluated {
        var arDouble := x.ar;
        n := n.(anTotalCube := n.anTotalCube + 1, anTake := n.anTake + 1, anCloseCube := n.anCloseCube + 1);
        if -arDouble.take < -arDouble.drop {
          var rSkill := -arDouble.take - -arDouble.drop;
          e := e.(wrongTake := Charged(e.wrongTake, rSkill, Cost(ms, rSkill)));
        }
      }
      assert n == t.cube.n.Plus(CubeCountsOf(g, x, p));
      assert e == t.cube.e.Plus(CubeErrorsOf(g, x, p));
      sides := sides.Put(p, t.(cube := CubeTally(n, e)));
    }

    method CountDrop(g: Settings, x: Step)
      requires x.pmr.Drop?
      modifies this`sides
      ensures var p := x.pmr.fPlayer;
              var t := old(sides).Of(p);
              sides == old(sides).Put(p, t.(cube := t.cube.Plus(CubeOf(g, x, p))))
    {
      var p, ms := x.pmr.fPlayer, x.pms;
      var t := sides.Of(p);
      var n, e := t.cube.n, t.cube.e;
      if g.fAnalyseCube && g.fCubeUse && x.pmr.cube.evaluated {
        var arDouble := x.ar;
        n := n.(anTotalCube := n.anTotalCube + 1, anPass := n.anPass + 1, anCloseCube := n.anCloseCube + 1);
        if -arDouble.drop < -arDouble.take {
          var rSkill := -arDouble.drop - -arDouble.take;
          e := e.(wrongPass := Charged(e.wrongPass, rSkill, Cost(ms, rSkill)));
        }
      }
      assert n == t.cube.n.Plus(CubeCountsOf(g, x, p));
      assert e == t.cube.e.Plus(CubeErrorsOf(g, x, p));
      sides := sides.Put(p, t.(cube := CubeTally(n, e)));
    }

    /** The luck of a roll. */
    method CountLuck(g: Settings, x: Step)
      requires x.pmr.Normal? || x.pmr.SetDice?
      modifies this`sides
      ensures var p := x.pmr.fPlayer;
              var t, o := old(sides).Of(p), old(sides).Of(Other(p));
              sides == old(sides).Put(p, t.(luck := t.luck.Plus(LuckTallyOf(g, x, p)),
                                            score := t.score.Plus(ScoreOf(g, x, p))))
                                 .Put(Other(p), o.(score := o.score.Plus(ScoreOf(g, x, Other(p)))))
    {
      var p := x.pmr.fPlayer;
      var t, o := sides.Of(p), sides.Of(Other(p));
      if g.fAnalyseDice && x.pmr.rLuck.Some? {
        var r := Cost(x.pms, x.pmr.rLuck.value);
        var arLuck := t.luck.arLuck;
        arLuck := Amount(arLuck.norm + x.pmr.rLuck.value, arLuck.cost + r);
        t := t.(luck := LuckTally(t.luck.anLuck + multiset{x.pmr.lt}, arLuck),
                score := t.score.(arLuckAdj := t.score.arLuckAdj - r));
        o := o.(score := o.score.(arLuckAdj := o.score.arLuckAdj + r));
      }
      assert !Rolls(g, x, Other(p));
      sides := sides.Put(p, t).Put(Other(p), o);
    }

    /** The chequer play of a move. */
    method CountMove(g: Settings, x: Step)
      requires x.pmr.Normal?
      modifies this`sides
      ensures var p := x.pmr.fPlayer;
              var t := old(sides).Of(p);
              sides == old(sides).Put(p, t.(move := t.move.Plus(MoveTallyOf(g, x, p))))
    {
      var p := x.pmr.fPlayer;
      var t := sides.Of(p);
      var m := t.move.(anTotalMoves := t.move.anTotalMoves + 1);
      if g.fAnalyseMove && (x.pmr.fChequer || !x.pmr.fMoved) {
        var rChequerSkill := FindSkill(x.pmr.key, x.pmr.ml);
        var rCost := Cost(x.pms, rChequerSkill);
        m := m.(anMoves := m.anMoves + multiset{Skill(g, rChequerSkill)});
        if |x.pmr.ml| > 1 {
          m := m.(anUnforcedMoves := m.anUnforcedMoves + 1,
                  arErrorCheckerplay := Amount(m.arErrorCheckerplay.norm - rChequerSkill, m.arErrorCheckerplay.cost - rCost));
        }
      } else {
        m := m.(anMoves := m.anMoves + multiset{SKILL_NONE});
      }
      assert m == t.move.Plus(MoveTallyOf(g, x, p));
      sides := sides.Put(p, t.(move := m));
    }

    /** The result of a game. */
    method SetResult(pmr: Record)
      requires pmr.GameInfo?
      modifies this`sides
      ensures sides == Opened(old(sides), pmr) && Settled(sides, pmr)
    {
      var r0, r1: real := 0.0, 0.0;
      if pmr.fWinner.Some? {
        var won := if pmr.nMatch != 0 then pmr.rGain else pmr.nPoints as real;
        if pmr.fWinner.value == 0 {
          r0, r1 := won, -won;
        } else {
          r1, r0 := won, -won;
        }
      }
      var t0, t1 := sides.p0.score.(arActualResult := r0), sides.p1.score.(arActualResult := r1);
      sides := Sides(sides.p0.(score := t0.(arLuckAdj := t0.arActualResult)),
                     sides.p1.(score := t1.(arLuckAdj := t1.arActualResult)));
    }

    method UpdateNormal(g: Settings, x: Step)
      requires x.pmr.Normal?
      modifies this`sides
      ensures sides == old(sides).Plus(Deltas(g)(x))
    {
      ghost var s, p := sides, x.pmr.fPlayer;
      CountNoDouble(g, x);
      CountLuck(g, x);
      CountMove(g, x);
      PlusDelta(g, x, s, p);
      OtherDelta(g, x, s, Other(p));
      SameSides(sides, s.Plus(Deltas(g)(x)), p);
    }

    method UpdateSetDice(g: Settings, x: Step)
      requires x.pmr.SetDice?
      modifies this`sides
      ensures sides == old(sides).Plus(Deltas(g)(x))
    {
      ghost var s, p := sides, x.pmr.fPlayer;
      CountLuck(g, x);
      LuckDelta(g, x, s, p);
      OtherDelta(g, x, s, Other(p));
      SameSides(sides, s.Plus(Deltas(g)(x)), p);
    }

    /** updateStatcontext. */
    method Update(g: Settings, x: Step)
      modifies this`sides
      ensures sides == if x.pmr.GameInfo? then Opened(old(sides), x.pmr) else old(sides).Plus(Deltas(g)(x))
    {
      ghost var s := sides;
      match x.pmr {
        case GameInfo(_, _, _, _, _) =>
          SetResult(x.pmr);
        case Normal(p, _, _, _, _, _, _, _) =>
          UpdateNormal(g, x);
        case Double(p, _) =>
          CountDouble(g, x);
          CubeDelta(g, x, s, p);
        case Take(p, _) =>
          CountTake(g, x);
          CubeDelta(g, x, s, p);
        case Drop(p, _) =>
          CountDrop(g, x);
          CubeDelta(g, x, s, p);
        case SetDice(p, _, _) =>
          UpdateSetDice(g, x);
        case Resign(p, _) =>
          NothingAdded(g, x, s);
        case SetBoard(p, _) =>
          NothingAdded(g, x, s);
        case SetCubeVal(p, _) =>
          NothingAdded(g, x, s);
        case SetCubePos(p, _) =>
          NothingAdded(g, x, s);
      }
    }

    /** The counts and errors of one player. */
    method AddCounts(p: Player, a: Tally)
      modifies this`sides
      ensures sides == old(sides).Put(p, AddedTally(old(sides).Of(p), a, old(sides).Of(p).score))
    {
      var t := sides.Of(p);
      t := t.(move := MoveTally(t.move.anUnforcedMoves + a.move.anUnforcedMoves, t.move.anTotalMoves + a.move.anTotalMoves,
                                t.move.anMoves + a.move.anMoves, t.move.arErrorCheckerplay.Plus(a.move.arErrorCheckerplay)));
      t := t.(cube := CubeTally(t.cube.n.Plus(a.cube.n), t.cube.e.Plus(a.cube.e)));
      t := t.(luck := LuckTally(t.luck.anLuck + a.luck.anLuck, t.luck.arLuck.Plus(a.luck.arLuck)));
      sides := sides.Put(p, t);
    }

    /** The result of one player, with the variances. */
    method AddResult(p: Player, a: Score)
      modifies this`sides
      ensures sides == old(sides).Put(p, old(sides).Of(p).(score := AddedScore(old(sides).Of(p).score, a, nGames)))
    {
      var s := sides.Of(p).score;
      s := s.(arActualResult := s.arActualResult + a.arActualResult, arLuckAdj := s.arLuckAdj + a.arLuckAdj);
      var v := Variance.UpdateVariance(s.arVarianceActual, s.arActualResult, a.arActualResult, nGames);
      var w := Variance.UpdateVariance(s.arVarianceLuckAdj, s.arLuckAdj, a.arLuckAdj, nGames);
      s := s.(arVarianceActual := v, arVarianceLuckAdj := w);
      sides := sides.Put(p, sides.Of(p).(score := s));
    }

    method AddResults(a0: Score, a1: Score)
      modifies this`sides
      ensures sides == Sides(old(sides.p0).(score := AddedScore(old(sides.p0.score), a0, nGames)),
                             old(sides.p1).(score := AddedScore(old(sides.p1.score), a1, nGames)))
    {
      AddResult(0, a0);
      AddResult(1, a1);
    }

    /** AddStatcontext. */
    method Add(pscA: StatContext)
      requires pscA != this
      modifies this
      ensures Value() == Added(old(Value()), pscA.Value())
    {
      ghost var before := Value();
      nGames := nGames + 1;
      fMoves, fDice, fCube := fMoves || pscA.fMoves, fDice || pscA.fDice, fCube || pscA.fCube;
      AddSides(pscA.sides);
      AddedIs(before, pscA.Value(), Value());
    }

    method AddSides(a: Sides)
      modifies this`sides
      ensures sides == AddedSides(old(sides), a, nGames)
    {
      ghost var b := sides;
      AddCounts(0, a.p0);
      AddCounts(1, a.p1);
      assert sides == Sides(AddedTally(b.p0, a.p0, b.p0.score), AddedTally(b.p1, a.p1, b.p1.score));
      if a.p0.score.arActualResult >= 0.0 || a.p1.score.arActualResult >= 0.0 {
        AddResults(a.p0.score, a.p1.score);
      }
    }

    /** What AnalyzeMove does to the context and the match state, after the record
        that opens the game; the record is as the analysis leaves it. */
    method AnalyzeMove<E>(g: Settings, r: Rules<E>, ms: MatchState<E>, pmr: Record)
      returns (after: MatchState<E>)
      requires !pmr.GameInfo?
      modifies this
      ensures nGames == old(nGames) && after == Advance(r, Analysis, ms, pmr)
      ensures var x := StepAt(r, Analysis, ms, pmr);
              sides == if Counts(g, Analysis, x) then old(sides).Plus(Deltas(g)(x)) else old(sides)
      ensures fMoves == g.fAnalyseMove && fCube == g.fAnalyseCube && fDice == g.fAnalyseDice
    {
      var seen, counted := Look(g, r, ms, pmr);
      UpdateIf(counted, g, StepIn(r, seen, pmr));
      after := r.applyMoveRecord(seen, pmr);
      fMoves, fCube, fDice := g.fAnalyseMove, g.fAnalyseCube, g.fAnalyseDice;
    }

    /** The state that AnalyzeMove sees a record in, and whether it counts it. */
    static method Look<E>(g: Settings, r: Rules<E>, ms: MatchState<E>, pmr: Record)
      returns (after: MatchState<E>, counted: bool)
      requires !pmr.GameInfo?
      ensures after == Seen(r, Analysis, ms, pmr) && counted == Counts(g, Analysis, StepIn(r, after, pmr))
    {
      after := r.fixMatchState(ms, pmr);
      counted := false;
      match pmr {
        case Normal(fPlayer, _, _, _, _, _, _, _) =>
          after := TurnBoard(after, fPlayer);
          counted := fPlayer in g.afAnalysePlayers;
        case Double(_, _) =>
          counted := after.Kind() == DT_NORMAL;
        case Take(fPlayer, _) =>
          counted := fPlayer in g.afAnalysePlayers && after.Kind() != DT_RACCOON;
        case Drop(fPlayer, _) =>
          counted := fPlayer in g.afAnalysePlayers && after.Kind() != DT_RACCOON;
        case Resign(fPlayer, _) =>
          after := TurnBoard(after, fPlayer);
        case SetDice(fPlayer, _, _) =>
          after := TurnBoard(after, fPlayer);
          counted := fPlayer in g.afAnalysePlayers;
        case SetBoard(_, _) =>
        case SetCubeVal(_, _) =>
        case SetCubePos(_, _) =>
      }
    }

    method UpdateIf(c: bool, g: Settings, x: Step)
      requires !x.pmr.GameInfo?
      modifies this`sides
      ensures sides == if c then old(sides).Plus(Deltas(g)(x)) else old(sides)
    {
      if c {
        Update(g, x);
      }
    }

    /** updateStatisticsMove, after the record that opens the game: the record is
        counted in the state that it is seen in. */
    method UpdateStatisticsMove<E>(g: Settings, r: Rules<E>, ms: MatchState<E>, pmr: Record) returns (after: MatchState<E>)
      requires !pmr.GameInfo?
      modifies this`sides
      ensures after == Advance(r, Stored, ms, pmr)
      ensures var x := StepAt(r, Stored, ms, pmr);
              sides == if Counts(g, Stored, x) then old(sides).Plus(Deltas(g)(x)) else old(sides)
    {
      after := r.fixMatchState(ms, pmr);
      match pmr {
        case Normal(fPlayer, _, _, _, _, _, _, _) =>
          after := TurnBoard(after, fPlayer);
          Update(g, StepIn(r, after, pmr));
        case Double(fPlayer, _) =>
          after := TurnBoard(after, fPlayer);
          Update(g, StepIn(r, after, pmr));
        case Take(_, _) =>
          Update(g, StepIn(r, after, pmr));
        case Drop(_, _) =>
          Update(g, StepIn(r, after, pmr));
        case Resign(_, _) =>
        case SetDice(_, _, _) =>
        case SetBoard(_, _) =>
        case SetCubeVal(_, _) =>
        case SetCubePos(_, _) =>
      }
      after := r.applyMoveRecord(after, pmr);
    }

    method UpdateStatisticsMoves<E>(g: Settings, r: Rules<E>, ms0: MatchState<E>, game: seq<Record>)
      requires NoGameInfo(game)
      modifies this`sides
      ensures sides == Fold(Deltas(g), old(sides), Counted(g, Stored, Steps(r, Stored, ms0, game)))
    {
      ghost var s, xs := sides, Steps(r, Stored, ms0, game);
      var ms, i := ms0, 0;
      BeforeAny(g, r, ms0, game, s, xs);
      while i < |game|
        invariant 0 <= i <= |game| && Reached(g, r, ms0, game, s, xs, i, ms, sides)
      {
        ms := NextMove(g, r, ms0, game, i, ms, s, xs);
        i := i + 1;
      }
      AllCounted(g, Stored, s, xs);
    }

    method NextMove<E>(g: Settings, r: Rules<E>, ghost ms0: MatchState<E>, game: seq<Record>, i: nat, ms: MatchState<E>,
                       ghost s: Sides, ghost xs: seq<Step>)
      returns (after: MatchState<E>)
      requires i < |game| && !game[i].GameInfo? && xs == Steps(r, Stored, ms0, game)
      requires Reached(g, r, ms0, game, s, xs, i, ms, sides)
      modifies this`sides
      ensures Reached(g, r, ms0, game, s, xs, i + 1, after, sides)
    {
      CountedNext(g, Stored, s, xs, i);
      after := UpdateStatisticsMove(g, r, ms, game[i]);
    }

    method BeginGame<E>(g: Settings, r: Rules<E>, ms: MatchState<E>, pmr: Record)
      returns (ghost start: Stats, after: MatchState<E>)
      requires pmr.GameInfo?
      modifies this
      ensures Cleared(start) && nGames == 0 && after == Advance(r, Stored, ms, pmr)
      ensures sides == Opened(start.sides, pmr)
    {
      after := r.fixMatchState(ms, pmr);
      Ini();
      start := Value();
      Update(g, StepIn(r, after, pmr));
      after := r.applyMoveRecord(after, pmr);
    }

    /** updateStatisticsGame; the match state before the game may be anything. */
    method UpdateStatisticsGame<E>(g: Settings, r: Rules<E>, ms0: MatchState<E>, game: seq<Record>)
      returns (ghost start: Stats)
      requires IsGame(game)
      modifies this
      ensures Cleared(start) && Value() == GameStats(g, start.sides, r, ms0, game) && Consistent(sides)
      ensures Settled(sides, game[0])
    {
      var ms: MatchState<E>;
      start, ms := BeginGame(g, r, ms0, game[0]);
      UpdateStatisticsMoves(g, r, ms, game[1..]);
      fMoves, fCube, fDice := g.fAnalyseMove, g.fAnalyseCube, g.fAnalyseDice;
      GameConsistent(g, start, game[0], StoredSteps(g, r, ms0, game));
      GameIsSettled(g, start.sides, game[0], StoredSteps(g, r, ms0, game));
    }

    /** The statistics of one game, added to the match. */
    method AddGame<E>(g: Settings, r: Rules<E>, ms0: MatchState<E>, game: seq<Record>, context: StatContext,
                      ghost start: Stats, ghost v: Stats)
      requires IsGame(game) && context != this && Cleared(start) && v == GameStats(g, start.sides, r, ms0, game)
      modifies this, context
      ensures context.Value() == v && Value() == Added(old(Value()), v)
    {
      ghost var cleared := context.UpdateStatisticsGame(g, r, ms0, game);
      ClearedUnique(cleared, start);
      Add(context);
    }

    /** updateStatisticsMatch: every game gets a context of its own, with the
        statistics of its records, and the match sums those up. */
    method UpdateStatisticsMatch<E>(g: Settings, r: Rules<E>, ms0: MatchState<E>, games: seq<seq<Record>>,
                                    contexts: seq<StatContext>)
      returns (ghost start: Stats, ghost values: seq<Stats>)
      requires |games| == |contexts| && AllGames(games)
      requires this !in contexts && Distinct(contexts)
      modifies this, contexts
      ensures Cleared(start) && OfGames(values, g, start.sides, r, ms0, games) && Holds(contexts, values)
      ensures if games == [] then Value() == old(Value()) else SumsUpGames(Value(), start, values, games)
    {
      if |games| == 0 {
        start := Empty();
        values := [];
        assert games == [];
        return;
      }
      Ini();
      start := Value();
      values := StatsOfGames(g, start.sides, r, ms0, games);
      AddGames(g, r, ms0, games, contexts, start, values);
      MatchOfGames(Value(), start, values, g, r, ms0, games);
    }

    /** The loop over the games. */
    method AddGames<E>(g: Settings, r: Rules<E>, ms0: MatchState<E>, games: seq<seq<Record>>,
                       contexts: seq<StatContext>, ghost start: Stats, ghost values: seq<Stats>)
      requires |games| == |contexts| && AllGames(games)
      requires this !in contexts && Distinct(contexts)
      requires Value() == start && Cleared(start) && OfGames(values, g, start.sides, r, ms0, games)
      modifies this, contexts
      ensures Value() == MatchOf(start, values) && Holds(contexts, values)
    {
      var i := 0;
      while i < |games|
        invariant 0 <= i <= |games|
        invariant Value() == MatchOf(start, values[..i]) && Holds(contexts, values[..i])
      {
        AddNext(g, r, ms0, games[i], contexts, i, values, start);
        MatchOfNext(start, values, i);
        i := i + 1;
      }
      assert values[..i] == values;
    }

    /** The next game leaves the contexts of the games before it as they are. */
    method AddNext<E>(g: Settings, r: Rules<E>, ms0: MatchState<E>, game: seq<Record>, contexts: seq<StatContext>,
                      i: nat, ghost values: seq<Stats>, ghost start: Stats)
      requires IsGame(game) && i < |values| == |contexts| && this !in contexts && Distinct(contexts)
      requires Holds(contexts, values[..i]) && Cleared(start) && values[i] == GameStats(g, start.sides, r, ms0, game)
      modifies this, contexts[i]
      ensures Value() == Added(old(Value()), values[i])
      ensures Holds(contexts, values[..i + 1])
    {
      AddGame(g, r, ms0, game, contexts[i], start, values[i]);
      assert forall k :: 0 <= k < i ==> contexts[k].Value() == old(contexts[k].Value());
    }
  }

  /** A context that is all zero. */
  lemma Empty() returns (s: Stats)
    ensures Cleared(s)
  {
    var n: nat, r: real := 0, 0.0;
    s := Stats(false, false, false, Sides(Zeros(n, r), Zeros(n, r)), n);
  }

  lemma StatsOfGames<E>(g: Settings, s: Sides, r: Rules<E>, ms0: MatchState<E>, games: seq<seq<Record>>)
    returns (values: seq<Stats>)
    requires AllGames(games)
    ensures OfGames(values, g, s, r, ms0, games)
  {
    values := seq(|games|, k requires 0 <= k < |games| => GameStats(g, s, r, ms0, games[k]));
  }

  lemma AddedIs(b: Stats, a: Stats, c: Stats)
    requires c.nGames == b.nGames + 1 && c.sides == AddedSides(b.sides, a.sides, c.nGames)
    requires c.fMoves == (b.fMoves || a.fMoves) && c.fCube == (b.fCube || a.fCube) && c.fDice == (b.fDice || a.fDice)
    ensures c == Added(b, a)
  {
  }

  /** SwapSides and the change of move, when the other player is on move. */
  method TurnBoard<E>(ms: MatchState<E>, fPlayer: Player) returns (turned: MatchState<E>)
    ensures turned == ms.TurnedTo(fPlayer)
  {
    turned := ms;
    if fPlayer != turned.fMove {
      turned := turned.(anBoard := turned.anBoard.Swapped());
      turned := turned.(fMove := fPlayer);
    }
  }

  ghost predicate Distinct(contexts: seq<StatContext>) {
    forall j, k :: 0 <= j < k < |contexts| ==> contexts[j] != contexts[k]
  }

  /** What the first contexts hold. */
  ghost predicate Holds(contexts: seq<StatContext>, values: seq<Stats>)
    reads contexts
  {
    |values| <= |contexts| && forall k :: 0 <= k < |values| ==> values[k] == contexts[k].Value()
  }

  // ----- The records that a walk counts

  lemma PrefixNext<T>(s: seq<T>, i: nat)
    requires i < |s|
    ensures s[..i + 1] == s[..i] + [s[i]]
  {
  }

  lemma CountedFold(g: Settings, walk: Walk, s: Sides, xs: seq<Step>, x: Step)
    ensures var f := Deltas(g);
            var before := Fold(f, s, Counted(g, walk, xs));
            Fold(f, s, Counted(g, walk, xs + [x])) == if Counts(g, walk, x) then before.Plus(f(x)) else before
  {
    assert (xs + [x])[..|xs|] == xs;
    if Counts(g, walk, x) {
      FoldSnoc(Deltas(g), s, Counted(g, walk, xs), x);
    } else {
      assert Counted(g, walk, xs) + [] == Counted(g, walk, xs);
    }
  }

  /** The context after the first i of these records. */
  function CountedTo(g: Settings, walk: Walk, s: Sides, xs: seq<Step>, i: nat): Sides
    requires i <= |xs|
  {
    Fold(Deltas(g), s, Counted(g, walk, xs[..i]))
  }

  /** The state and the context before record i of a stored game. */
  ghost predicate Reached<E>(g: Settings, r: Rules<E>, ms0: MatchState<E>, game: seq<Record>, s: Sides, xs: seq<Step>,
                             i: nat, ms: MatchState<E>, sides: Sides)
  {
    i <= |game| == |xs| && ms == StateAt(r, Stored, ms0, game, i) && sides == CountedTo(g, Stored, s, xs, i)
  }

  lemma BeforeAny<E>(g: Settings, r: Rules<E>, ms0: MatchState<E>, game: seq<Record>, s: Sides, xs: seq<Step>)
    requires |xs| == |game|
    ensures Reached(g, r, ms0, game, s, xs, 0, ms0, s)
  {
  }

  lemma NoneCounted(g: Settings, walk: Walk, s: Sides, xs: seq<Step>)
    ensures CountedTo(g, walk, s, xs, 0) == s
  {
  }

  lemma AllCounted(g: Settings, walk: Walk, s: Sides, xs: seq<Step>)
    ensures CountedTo(g, walk, s, xs, |xs|) == Fold(Deltas(g), s, Counted(g, walk, xs))
  {
    assert xs[..|xs|] == xs;
  }

  lemma CountedNext(g: Settings, walk: Walk, s: Sides, xs: seq<Step>, i: nat)
    requires i < |xs|
    ensures var before := CountedTo(g, walk, s, xs, i);
            CountedTo(g, walk, s, xs, i + 1) == if Counts(g, walk, xs[i]) then before.Plus(Deltas(g)(xs[i])) else before
  {
    PrefixNext(xs, i);
    CountedFold(g, walk, s, xs[..i], xs[i]);
  }

  lemma {:induction false} FoldSnoc(f: Step -> Sides, s: Sides, xs: seq<Step>, x: Step)
    ensures Fold(f, s, xs + [x]) == Fold(f, s, xs).Plus(f(x))
    decreases |xs|
  {
    if xs == [] {
      assert [] + [x] == [x] && [x][1..] == [];
    } else {
      assert (xs + [x])[1..] == xs[1..] + [x];
      FoldSnoc(f, s.Plus(f(xs[0])), xs[1..], x);
    }
  }

  function Charged(e: Errors, rSkill: real, rCost: real): Errors {
    Errors(e.an + 1, Amount(e.ar.norm - rSkill, e.ar.cost - rCost))
  }

  function Zeros(n: nat, r: real): Tally {
    var a := Amount(r, r);
    var e := Errors(n, a);
    Tally(MoveTally(n, n, multiset{}, a),
          CubeTally(CubeCounts(n, n, n, n, n), CubeErrors(e, e, e, e, e, e)),
          LuckTally(multiset{}, a), Score(r, r, r, r))
  }
}
