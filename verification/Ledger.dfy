/** What one decision costs: the equity by which it falls short of the best one, and what
    that is worth at the stakes (gnubg/analysis.c, lines 265 to 276 and 335 to 555). */
module Ledger {
  import opened Common
  import opened MatchStates
  import opened Statistics

  // ----- The yardsticks

  /** An equity at these stakes: in a match half the chance that hangs on the game, and for
      money the value of the cube. */
  function Worth(ms: Stakes, r: real): real {
    r * if ms.nMatchTo == 0 then ms.nCube as real else 0.5 * (ms.rMwcWin - ms.rMwcLose)
  }

  lemma HalfSum(r: real, a: real, b: real)
    ensures 0.5 * (r * (a - b) + (a + b)) - 0.5 * (0.0 * (a - b) + (a + b)) == r * (0.5 * (a - b))
  {
  }

  lemma CostExactly(ms: Stakes, r: real)
    ensures Cost(ms, r) == Worth(ms, r)
  {
    HalfSum(r, ms.rMwcWin, ms.rMwcLose);
  }

  /** The thresholds are in order. */
  ghost predicate Graded(g: Settings) {
    g.rVeryBad >= g.rBad >= g.rDoubtful
  }

  /** What is lost against the best move decides the skill. */
  lemma SkillExactly(g: Settings, r: real)
    requires Graded(g)
    ensures Skill(g, r) == SKILL_VERYBAD <==> -r > g.rVeryBad
    ensures Skill(g, r) == SKILL_BAD <==> g.rVeryBad >= -r > g.rBad
    ensures Skill(g, r) == SKILL_DOUBTFUL <==> g.rBad >= -r > g.rDoubtful
    ensures Skill(g, r) == SKILL_NONE <==> g.rDoubtful >= -r
  {
  }

  // ----- A cube decision

  function Larger(a: real, b: real): real {
    if a > b then a else b
  }

  /** The best that the player who can double gets, when the other one answers at best. */
  ghost predicate IsOptimal(ar: Equities) {
    ar.optimal == Larger(ar.noDouble, Smaller(ar.take, ar.drop))
  }

  /** The decision of the record is analysed and counts for the player. */
  ghost predicate Judged(g: Settings, x: Step, p: Player) {
    && g.fAnalyseCube && g.fCubeUse
    && match x.pmr {
      case Normal(q, cube, _, _, _, _, _, _) => q == p && cube.evaluated
      case Double(q, cube) => q == p && cube.evaluated && !x.pms.fDoubled
      case Take(q, cube) => q == p && cube.evaluated && (x.pms.fDoubled ==> x.pms.fTurn != x.pms.fMove)
      case Drop(q, cube) => q == p && cube.evaluated
      case _ => false
    }
  }

  lemma JudgedIs(g: Settings, x: Step, p: Player)
    ensures Judged(g, x, p) <==> Decides(g, x, p)
  {
  }

  /** By how much the decision falls short of the best one. */
  ghost function Regret(x: Step): real {
    var ar := x.ar;
    var answer := Smaller(ar.take, ar.drop);
    match x.pmr {
      case Normal(_, _, _, _, _, _, _, _) => Larger(ar.noDouble, answer) - ar.noDouble
      case Double(_, _) => Larger(ar.noDouble, answer) - answer
      case Take(_, _) => ar.take - answer
      case Drop(_, _) => ar.drop - answer
      case _ => 0.0
    }
  }

  /** The kind of error a bad decision is. */
  ghost function Slot(x: Step, e: CubeErrors): Errors {
    match x.pmr {
      case Normal(_, _, _, _, _, _, _, _) => if x.ar.take > 1.0 then e.missedDoubleTG else e.missedDoubleDP
      case Double(_, _) => if x.ar.noDouble > 1.0 then e.wrongDoubleTG else e.wrongDoubleDP
      case Take(_, _) => e.wrongTake
      case _ => e.wrongPass
    }
  }

  /** One error, with the equity that is lost and what it is worth; none for nothing lost. */
  ghost function ErrorFor(ms: Stakes, lost: real): Errors {
    if lost > 0.0 then Errors(1, Amount(lost, Worth(ms, lost))) else Errors(0, Amount(0.0, 0.0))
  }

  lemma WorthNegative(ms: Stakes, r: real)
    ensures -Cost(ms, -r) == Worth(ms, r)
  {
    CostExactly(ms, -r);
  }

  lemma ErrorIs(ms: Stakes, c: bool, r: real, lost: real)
    requires (c ==> lost == -r) && (c <==> lost > 0.0)
    ensures ErrorIf(c, ms, r) == ErrorFor(ms, lost)
  {
    WorthNegative(ms, lost);
  }

  ghost predicate IsNone(e: Errors) {
    e.an == 0 && e.ar.norm == 0.0 && e.ar.cost == 0.0
  }

  /** Nothing but this slot. */
  ghost predicate OnlyIn(x: Step, e: CubeErrors) {
    match x.pmr {
      case Normal(_, _, _, _, _, _, _, _) =>
        && IsNone(if x.ar.take > 1.0 then e.missedDoubleDP else e.missedDoubleTG)
        && IsNone(e.wrongDoubleDP) && IsNone(e.wrongDoubleTG) && IsNone(e.wrongTake) && IsNone(e.wrongPass)
      case Double(_, _) =>
        && IsNone(if x.ar.noDouble > 1.0 then e.wrongDoubleDP else e.wrongDoubleTG)
        && IsNone(e.missedDoubleDP) && IsNone(e.missedDoubleTG) && IsNone(e.wrongTake) && IsNone(e.wrongPass)
      case Take(_, _) =>
        && IsNone(e.missedDoubleDP) && IsNone(e.missedDoubleTG) && IsNone(e.wrongDoubleDP) && IsNone(e.wrongDoubleTG)
        && IsNone(e.wrongPass)
      case _ =>
        && IsNone(e.missedDoubleDP) && IsNone(e.missedDoubleTG) && IsNone(e.wrongDoubleDP) && IsNone(e.wrongDoubleTG)
        && IsNone(e.wrongTake)
    }
  }

  lemma OthersAreNone(g: Settings, x: Step, p: Player)
    ensures OnlyIn(x, CubeErrorsOf(g, x, p))
    ensures !Decides(g, x, p) ==> IsNone(Slot(x, CubeErrorsOf(g, x, p)))
  {
  }

  lemma SlotIs(g: Settings, x: Step, p: Player)
    requires IsOptimal(x.ar) && Decides(g, x, p)
    ensures Slot(x, CubeErrorsOf(g, x, p)) == ErrorFor(x.pms, Regret(x))
  {
    var ar, ms := x.ar, x.pms;
    if x.pmr.Normal? {
      ErrorIs(ms, ar.noDouble < ar.optimal, ar.noDouble - ar.optimal, Regret(x));
    } else if x.pmr.Double? {
      ErrorIs(ms, Smaller(ar.take, ar.drop) < ar.optimal, Smaller(ar.take, ar.drop) - ar.optimal, Regret(x));
    } else if x.pmr.Take? {
      ErrorIs(ms, ar.drop < ar.take, ar.drop - ar.take, Regret(x));
    } else {
      ErrorIs(ms, ar.take < ar.drop, ar.take - ar.drop, Regret(x));
    }
  }

  /** A decision that counts adds its shortfall to the slot of its kind, and to nothing
      else; one that does not count adds nothing. */
  lemma ErrorsExactly(g: Settings, x: Step, p: Player)
    requires IsOptimal(x.ar)
    ensures var e := Delta(g, x, p).cube.e;
      OnlyIn(x, e) && if Judged(g, x, p) then Slot(x, e) == ErrorFor(x.pms, Regret(x)) else IsNone(Slot(x, e))
  {
    JudgedIs(g, x, p);
    OthersAreNone(g, x, p);
    if Decides(g, x, p) {
      SlotIs(g, x, p);
    }
  }

  /** What is counted: every decision, and as close ones the doubles, the answers, and
      where there was no double an optimum less than 0.16 above both the take and 1. */
  lemma CountsExactly(g: Settings, x: Step, p: Player)
    ensures var n := Delta(g, x, p).cube.n;
      && n.anTotalCube == FlagOf(Judged(g, x, p))
      && n.anDouble == FlagOf(Judged(g, x, p) && x.pmr.Double?)
      && n.anTake == FlagOf(Judged(g, x, p) && x.pmr.Take?)
      && n.anPass == FlagOf(Judged(g, x, p) && x.pmr.Drop?)
      && n.anCloseCube == FlagOf(Judged(g, x, p)
           && (x.pmr.Normal? ==> x.ar.optimal < x.ar.take + 0.16 && x.ar.optimal < 1.16))
  {
    JudgedIs(g, x, p);
  }

  // ----- A move and a roll

  /** The first candidate with this key. */
  ghost predicate Chosen(ml: seq<Candidate>, key: int, i: nat) {
    i < |ml| && ml[i].key == key && forall k :: 0 <= k < i ==> ml[k].key != key
  }

  /** A move that is analysed adds what it falls short of the first candidate, if there was
      a choice, and counts in the class of that. */
  lemma MoveExactly(g: Settings, x: Step, p: Player, i: nat)
    requires x.pmr.Normal? && x.pmr.fPlayer == p && g.fAnalyseMove && (x.pmr.fChequer || !x.pmr.fMoved)
    requires Chosen(x.pmr.ml, x.pmr.key, i)
    ensures var (t, lost) := (Delta(g, x, p).move, x.pmr.ml[0].rScore - x.pmr.ml[i].rScore);
      && t.anTotalMoves == 1 && t.anUnforcedMoves == FlagOf(|x.pmr.ml| >= 2)
      && t.anMoves == multiset{Skill(g, -lost)}
      && t.arErrorCheckerplay == if |x.pmr.ml| >= 2 then Amount(lost, Worth(x.pms, lost)) else Amount(0.0, 0.0)
  {
    var lost := x.pmr.ml[0].rScore - x.pmr.ml[i].rScore;
    assert FirstIndex(x.pmr.key, x.pmr.ml) == i;
    WorthNegative(x.pms, lost);
  }

  /** Luck is added to the roller's, and moves its worth from one adjusted result to the
      other. */
  lemma LuckExactly(g: Settings, x: Step, p: Player, luck: real)
    requires (x.pmr.Normal? || x.pmr.SetDice?) && x.pmr.fPlayer == p && g.fAnalyseDice && x.pmr.rLuck == Some(luck)
    ensures Delta(g, x, p).luck == LuckTally(multiset{x.pmr.lt}, Amount(luck, Worth(x.pms, luck)))
    ensures Delta(g, x, Other(p)).luck == LuckTally(multiset{}, Amount(0.0, 0.0))
    ensures Delta(g, x, p).score.arLuckAdj == -Worth(x.pms, luck)
    ensures Delta(g, x, Other(p)).score.arLuckAdj == Worth(x.pms, luck)
  {
    CostExactly(x.pms, luck);
  }
}
