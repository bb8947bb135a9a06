/** The statistics of a game and of a match: what one record adds, what a game
    adds to the match (gnubg/analysis.c, lines 249 to 576, 1015 to 1109 and
    1227 to 1283). */
module Statistics {
  import opened Common
  import opened MatchStates

  // ----- The context

  datatype SkillType = SKILL_VERYBAD | SKILL_BAD | SKILL_DOUBTFUL | SKILL_NONE

  /** anMoves and anLuck hold one counter for every skill and every kind of luck:
      a multiset, in which a counter is the multiplicity. */
  type SkillCounts = multiset<SkillType>
  type LuckCounts = multiset<LuckType>

  /** An amount in normalised equity, and what it costs at the stakes. */
  datatype Amount = Amount(norm: real, cost: real) {
    function Plus(o: Amount): Amount {
      Amount(norm + o.norm, cost + o.cost)
    }
  }

  /** The chequer play of one player. */
  datatype MoveTally = MoveTally(anUnforcedMoves: nat, anTotalMoves: nat, anMoves: SkillCounts, arErrorCheckerplay: Amount) {
    function Plus(o: MoveTally): MoveTally {
      MoveTally(anUnforcedMoves + o.anUnforcedMoves, anTotalMoves + o.anTotalMoves, anMoves + o.anMoves,
                arErrorCheckerplay.Plus(o.arErrorCheckerplay))
    }
  }

  /** A kind of cube error: how often it was made, and what was lost. */
  datatype Errors = Errors(an: nat, ar: Amount) {
    function Plus(o: Errors): Errors {
      Errors(an + o.an, ar.Plus(o.ar))
    }
  }

  datatype CubeCounts = CubeCounts(anTotalCube: nat, anCloseCube: nat, anDouble: nat, anTake: nat, anPass: nat) {
    function Plus(o: CubeCounts): CubeCounts {
      CubeCounts(anTotalCube + o.anTotalCube, anCloseCube + o.anCloseCube,
                 anDouble + o.anDouble, anTake + o.anTake, anPass + o.anPass)
    }
  }

  /** Missed doubles and wrong doubles, below and above the cash point or the
      point where the position is too good; wrong takes and wrong passes. */
  datatype CubeErrors = CubeErrors(missedDoubleDP: Errors, missedDoubleTG: Errors,
                                   wrongDoubleDP: Errors, wrongDoubleTG: Errors, wrongTake: Errors, wrongPass: Errors)
  {
    function Plus(o: CubeErrors): CubeErrors {
      CubeErrors(missedDoubleDP.Plus(o.missedDoubleDP), missedDoubleTG.Plus(o.missedDoubleTG),
                 wrongDoubleDP.Plus(o.wrongDoubleDP), wrongDoubleTG.Plus(o.wrongDoubleTG),
                 wrongTake.Plus(o.wrongTake), wrongPass.Plus(o.wrongPass))
    }
  }

  /** The cube decisions of one player. */
  datatype CubeTally = CubeTally(n: CubeCounts, e: CubeErrors) {
    function Plus(o: CubeTally): CubeTally {
      CubeTally(n.Plus(o.n), e.Plus(o.e))
    }
  }

  datatype LuckTally = LuckTally(anLuck: LuckCounts, arLuck: Amount) {
    function Plus(o: LuckTally): LuckTally {
      LuckTally(anLuck + o.anLuck, arLuck.Plus(o.arLuck))
    }
  }

  /** The result of one player. */
  datatype Score = Score(arActualResult: real, arLuckAdj: real, arVarianceActual: real, arVarianceLuckAdj: real) {
    function Plus(o: Score): Score {
      Score(arActualResult + o.arActualResult, arLuckAdj + o.arLuckAdj,
            arVarianceActual + o.arVarianceActual, arVarianceLuckAdj + o.arVarianceLuckAdj)
    }
  }

  /** The entries of a statcontext that belong to one player. */
  datatype Tally = Tally(move: MoveTally, cube: CubeTally, luck: LuckTally, score: Score) {
    function Plus(o: Tally): Tally {
      Tally(move.Plus(o.move), cube.Plus(o.cube), luck.Plus(o.luck), score.Plus(o.score))
    }
  }

  /** The tallies of the two players. */
  datatype Sides = Sides(p0: Tally, p1: Tally) {
    function Of(p: Player): Tally {
      if p == 0 then p0 else p1
    }

    function Put(p: Player, t: Tally): Sides {
      if p == 0 then Sides(t, p1) else Sides(p0, t)
    }

    function Plus(o: Sides): Sides {
      Sides(p0.Plus(o.p0), p1.Plus(o.p1))
    }
  }

  function Other(p: Player): Player {
    1 - p
  }

  // ----- Records and stakes

  datatype Settings = Settings(fAnalyseCube: bool, fAnalyseDice: bool, fAnalyseMove: bool, fCubeUse: bool,
                               rVeryBad: real, rBad: real, rDoubtful: real, afAnalysePlayers: set<Player>)

  /** A record, with the stakes and the equities of the state that it is seen in. */
  datatype Step = Step(pmr: Record, pms: Stakes, ar: Equities)

  /** A record that is seen in this state. */
  function StepIn<E>(r: Rules<E>, seen: MatchState<E>, pmr: Record): Step {
    Step(pmr, r.cubeInfo(seen).(fDoubled := seen.fDoubled, fMove := seen.fMove, fTurn := seen.fTurn),
         r.findCubeDecision(pmr, seen))
  }

  /** A record as a walk sees it. */
  function StepAt<E>(r: Rules<E>, walk: Walk, ms: MatchState<E>, pmr: Record): Step {
    StepIn(r, Seen(r, walk, ms, pmr), pmr)
  }

  /** The records of a game as a walk sees them. */
  function Steps<E>(r: Rules<E>, walk: Walk, ms0: MatchState<E>, game: seq<Record>): (xs: seq<Step>)
    ensures |xs| == |game|
    ensures forall k {:trigger xs[k]} :: 0 <= k < |game| ==> xs[k] == StepAt(r, walk, StateAt(r, walk, ms0, game, k), game[k])
  {
    seq(|game|, k requires 0 <= k < |game| => StepAt(r, walk, StateAt(r, walk, ms0, game, k), game[k]))
  }

  /** The records that updateStatcontext is called for, by AnalyzeMove and by
      updateStatisticsMove. */
  predicate Counts(g: Settings, walk: Walk, x: Step) {
    match walk {
      case Stored => x.pmr.GameInfo? || x.pmr.Normal? || x.pmr.Double? || x.pmr.Take? || x.pmr.Drop?
      case Analysis =>
        || x.pmr.GameInfo?
        || ((x.pmr.Normal? || x.pmr.SetDice?) && x.pmr.fPlayer in g.afAnalysePlayers)
        || (x.pmr.Double? && KindAt(x.pms) == DT_NORMAL)
        || ((x.pmr.Take? || x.pmr.Drop?) && x.pmr.fPlayer in g.afAnalysePlayers && KindAt(x.pms) != DT_RACCOON)
    }
  }

  function Counted(g: Settings, walk: Walk, xs: seq<Step>): seq<Step> {
    if xs == [] then []
    else Counted(g, walk, xs[..|xs| - 1]) + (if Counts(g, walk, xs[|xs| - 1]) then [xs[|xs| - 1]] else [])
  }

  /** The kind of double that would come next at these stakes. */
  function KindAt(ms: Stakes): DoubleKind {
    DoubleType(ms.fDoubled, ms.fMove, ms.fTurn)
  }

  function Skill(g: Settings, r: real): SkillType {
    if r < -g.rVeryBad then SKILL_VERYBAD
    else if r < -g.rBad then SKILL_BAD
    else if r < -g.rDoubtful then SKILL_DOUBTFUL
    else SKILL_NONE
  }

  function Eq2mwc(ms: Stakes, r: real): real {
    0.5 * (r * (ms.rMwcWin - ms.rMwcLose) + (ms.rMwcWin + ms.rMwcLose))
  }

  /** What an amount of equity is worth at the stakes. */
  function Cost(ms: Stakes, r: real): real {
    if ms.nMatchTo != 0 then Eq2mwc(ms, r) - Eq2mwc(ms, 0.0) else ms.nCube as real * r
  }

  function IsClose(ar: Equities): bool {
    var rDouble := if ar.take < 1.0 then ar.take else 1.0;
    ar.optimal - rDouble < 0.16
  }

  /** The equity lost by the move with this key; none when it is not a candidate. */
  function ChequerSkill(key: int, ml: seq<Candidate>): real {
    if exists i :: 0 <= i < |ml| && ml[i].key == key
    then ml[FirstIndex(key, ml)].rScore - ml[0].rScore
    else 0.0
  }

  function FirstIndex(key: int, ml: seq<Candidate>): (i: nat)
    requires exists i :: 0 <= i < |ml| && ml[i].key == key
    ensures i < |ml| && ml[i].key == key && forall k :: 0 <= k < i ==> ml[k].key != key
  {
    if ml[0].key == key then 0 else
    assert exists i :: 0 <= i < |ml[1..]| && ml[1..][i].key == key by {
      var i :| 0 <= i < |ml| && ml[i].key == key;
      assert ml[1..][i - 1] == ml[i];
    }
    1 + FirstIndex(key, ml[1..])
  }

  // ----- What a record adds, entry by entry

  /** The record is a move or decision of this player. */
  predicate By(x: Step, p: Player) {
    !x.pmr.GameInfo? && x.pmr.fPlayer == p
  }

  /** The cube decision of the record counts for this player. A double counts when
      no other one is pending. A take counts unless the double that could come next
      would be a raccoon, which says that a beaver has been taken. */
  predicate Decides(g: Settings, x: Step, p: Player) {
    && By(x, p) && (x.pmr.Normal? || x.pmr.Double? || x.pmr.Take? || x.pmr.Drop?)
    && x.pmr.cube.evaluated && g.fAnalyseCube && g.fCubeUse
    && (x.pmr.Double? ==> KindAt(x.pms) == DT_NORMAL)
    && (x.pmr.Take? ==> KindAt(x.pms) != DT_RACCOON)
  }

  function Lost(ms: Stakes, r: real): Amount {
    Amount(-r, -Cost(ms, r))
  }

  function AmountIf(c: bool, ms: Stakes, r: real): Amount {
    if c then Lost(ms, r) else Amount(0.0, 0.0)
  }

  function ErrorIf(c: bool, ms: Stakes, r: real): Errors {
    Errors(FlagOf(c), AmountIf(c, ms, r))
  }

  function Smaller(a: real, b: real): real {
    if a < b then a else b
  }

  predicate MissedDouble(g: Settings, x: Step, p: Player) {
    Decides(g, x, p) && x.pmr.Normal? && x.ar.noDouble < x.ar.optimal
  }

  predicate WrongDouble(g: Settings, x: Step, p: Player) {
    Decides(g, x, p) && x.pmr.Double? && Smaller(x.ar.take, x.ar.drop) < x.ar.optimal
  }

  predicate WrongTake(g: Settings, x: Step, p: Player) {
    Decides(g, x, p) && x.pmr.Take? && x.ar.drop < x.ar.take
  }

  predicate WrongPass(g: Settings, x: Step, p: Player) {
    Decides(g, x, p) && x.pmr.Drop? && x.ar.take < x.ar.drop
  }

  predicate Close(g: Settings, x: Step, p: Player) {
    Decides(g, x, p) && (x.pmr.Normal? ==> IsClose(x.ar))
  }

  function CubeErrorsOf(g: Settings, x: Step, p: Player): CubeErrors {
    var ar, ms := x.ar, x.pms;
    CubeErrors(ErrorIf(MissedDouble(g, x, p) && ar.take <= 1.0, ms, ar.noDouble - ar.optimal),
               ErrorIf(MissedDouble(g, x, p) && ar.take > 1.0, ms, ar.noDouble - ar.optimal),
               ErrorIf(WrongDouble(g, x, p) && ar.noDouble <= 1.0, ms, Smaller(ar.take, ar.drop) - ar.optimal),
               ErrorIf(WrongDouble(g, x, p) && ar.noDouble > 1.0, ms, Smaller(ar.take, ar.drop) - ar.optimal),
               ErrorIf(WrongTake(g, x, p), ms, ar.drop - ar.take),
               ErrorIf(WrongPass(g, x, p), ms, ar.take - ar.drop))
  }

  function CubeCountsOf(g: Settings, x: Step, p: Player): CubeCounts {
    var d := Decides(g, x, p);
    CubeCounts(FlagOf(d), FlagOf(Close(g, x, p)), FlagOf(d && x.pmr.Double?), FlagOf(d && x.pmr.Take?),
               FlagOf(d && x.pmr.Drop?))
  }

  predicate Moves(x: Step, p: Player) {
    By(x, p) && x.pmr.Normal?
  }

  /** The chequer play of the record is analysed. */
  predicate Marked(g: Settings, x: Step, p: Player) {
    Moves(x, p) && g.fAnalyseMove && (x.pmr.fChequer || !x.pmr.fMoved)
  }

  predicate Unforced(g: Settings, x: Step, p: Player) {
    Marked(g, x, p) && |x.pmr.ml| > 1
  }

  function MoveSkill(g: Settings, x: Step, p: Player): real {
    if Marked(g, x, p) then ChequerSkill(x.pmr.key, x.pmr.ml) else 0.0
  }

  /** An unmarked move counts as one without a fault. */
  function SkillOf(g: Settings, x: Step, p: Player): SkillType {
    if Marked(g, x, p) then Skill(g, MoveSkill(g, x, p)) else SKILL_NONE
  }

  function SkillIf(c: bool, k: SkillType): SkillCounts {
    if c then multiset{k} else multiset{}
  }

  function MoveTallyOf(g: Settings, x: Step, p: Player): MoveTally {
    MoveTally(FlagOf(Unforced(g, x, p)), FlagOf(Moves(x, p)), SkillIf(Moves(x, p), SkillOf(g, x, p)),
              AmountIf(Unforced(g, x, p), x.pms, MoveSkill(g, x, p)))
  }

  predicate Rolls(g: Settings, x: Step, p: Player) {
    By(x, p) && (x.pmr.Normal? || x.pmr.SetDice?) && g.fAnalyseDice && x.pmr.rLuck.Some?
  }

  function RollLuck(g: Settings, x: Step, p: Player): Amount {
    if Rolls(g, x, p) then Amount(x.pmr.rLuck.value, Cost(x.pms, x.pmr.rLuck.value)) else Amount(0.0, 0.0)
  }

  function LuckIf(c: bool, k: LuckType): LuckCounts {
    if c then multiset{k} else multiset{}
  }

  function LuckTallyOf(g: Settings, x: Step, p: Player): LuckTally {
    LuckTally(LuckIf(Rolls(g, x, p), if Rolls(g, x, p) then x.pmr.lt else LUCK_NONE), RollLuck(g, x, p))
  }

  /** The luck of a player counts against that player, and for the other. */
  function ScoreOf(g: Settings, x: Step, p: Player): Score {
    Score(0.0, RollLuck(g, x, Other(p)).cost - RollLuck(g, x, p).cost, 0.0, 0.0)
  }

  function Delta(g: Settings, x: Step, p: Player): Tally {
    Tally(MoveTallyOf(g, x, p), CubeTally(CubeCountsOf(g, x, p), CubeErrorsOf(g, x, p)), LuckTallyOf(g, x, p),
          ScoreOf(g, x, p))
  }

  function Deltas(g: Settings): Step -> Sides {
    (x: Step) => Sides(Delta(g, x, 0), Delta(g, x, 1))
  }

  /** The records one after the other. */
  function Fold(f: Step -> Sides, s: Sides, xs: seq<Step>): Sides
    decreases |xs|
  {
    if xs == [] then s else Fold(f, s.Plus(f(xs[0])), xs[1..])
  }

  // ----- What every run keeps

  ghost predicate SoundMoves(t: MoveTally) {
    |t.anMoves| == t.anTotalMoves && t.anUnforcedMoves <= t.anTotalMoves
  }

  ghost predicate SoundCube(t: CubeTally) {
    && t.n.anDouble + t.n.anTake + t.n.anPass <= t.n.anCloseCube <= t.n.anTotalCube
    && t.e.missedDoubleDP.an + t.e.missedDoubleTG.an + t.n.anDouble + t.n.anTake + t.n.anPass <= t.n.anTotalCube
    && t.e.wrongDoubleDP.an + t.e.wrongDoubleTG.an <= t.n.anDouble
    && t.e.wrongTake.an <= t.n.anTake
    && t.e.wrongPass.an <= t.n.anPass
  }

  /** The counts of a player agree with one another. */
  ghost predicate Sound(t: Tally) {
    SoundMoves(t.move) && SoundCube(t.cube)
  }

  /** Results of the two players cancel, and the luck adjustment is the luck of
      both. */
  ghost predicate Balanced(s: Sides) {
    && s.p0.score.arActualResult + s.p1.score.arActualResult == 0.0
    && s.p0.score.arLuckAdj == s.p0.score.arActualResult - s.p0.luck.arLuck.cost + s.p1.luck.arLuck.cost
    && s.p1.score.arLuckAdj == s.p1.score.arActualResult - s.p1.luck.arLuck.cost + s.p0.luck.arLuck.cost
  }

  ghost predicate Consistent(s: Sides) {
    Sound(s.p0) && Sound(s.p1) && Balanced(s)
  }

  lemma BalancedCancels(s: Sides)
    requires Balanced(s)
    ensures s.p0.score.arLuckAdj + s.p1.score.arLuckAdj == 0.0
  {
  }

  lemma SoundPlus(a: Tally, b: Tally)
    requires Sound(a) && Sound(b)
    ensures Sound(a.Plus(b))
  {
  }

  lemma ConsistentPlus(a: Sides, b: Sides)
    requires Consistent(a) && Consistent(b)
    ensures Consistent(a.Plus(b))
  {
    SoundPlus(a.p0, b.p0);
    SoundPlus(a.p1, b.p1);
  }

  lemma MovesSound(g: Settings, x: Step, p: Player)
    ensures SoundMoves(MoveTallyOf(g, x, p))
  {
  }

  lemma CubeSound(g: Settings, x: Step, p: Player)
    ensures SoundCube(CubeTally(CubeCountsOf(g, x, p), CubeErrorsOf(g, x, p)))
  {
    var n, e := CubeCountsOf(g, x, p), CubeErrorsOf(g, x, p);
    assert n.anTake + n.anPass + n.anDouble <= n.anCloseCube <= n.anTotalCube;
    assert e.wrongDoubleDP.an + e.wrongDoubleTG.an == FlagOf(WrongDouble(g, x, p)) <= n.anDouble;
    assert e.missedDoubleDP.an + e.missedDoubleTG.an == FlagOf(MissedDouble(g, x, p));
  }

  lemma DeltaSound(g: Settings, x: Step, p: Player)
    ensures Sound(Delta(g, x, p))
  {
    MovesSound(g, x, p);
    CubeSound(g, x, p);
  }

  lemma DeltaBalanced(g: Settings, x: Step)
    ensures Balanced(Deltas(g)(x))
  {
  }

  lemma DeltasConsistent(g: Settings)
    ensures forall x :: Consistent(Deltas(g)(x))
  {
    forall x ensures Consistent(Deltas(g)(x)) {
      DeltaSound(g, x, 0);
      DeltaSound(g, x, 1);
      DeltaBalanced(g, x);
    }
  }

  lemma {:induction false} FoldConsistent(f: Step -> Sides, s: Sides, xs: seq<Step>)
    requires Consistent(s) && forall x :: Consistent(f(x))
    ensures Consistent(Fold(f, s, xs))
    decreases |xs|
  {
    if xs != [] {
      ConsistentPlus(s, f(xs[0]));
      FoldConsistent(f, s.Plus(f(xs[0])), xs[1..]);
    }
  }

  /** Every run keeps the context consistent. */
  lemma RunConsistent(g: Settings, s: Sides, xs: seq<Step>)
    requires Consistent(s)
    ensures Consistent(Fold(Deltas(g), s, xs))
  {
    DeltasConsistent(g);
    FoldConsistent(Deltas(g), s, xs);
  }
}
