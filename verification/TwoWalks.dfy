/** The statistics that the analysis of a game gathers, and those that are counted
    from the stored game: when the two are equal (gnubg/analysis.c, lines 576 to 905,
    932 to 999 and 1579 to 1649). */
module TwoWalks {
  import opened Common
  import opened MatchStates
  import opened Statistics
  import opened StatContext
  import opened DoubleAnswers
  import opened StatDifference
  import Linking
  import AnalyzeGame
  import AnalysisOrder
  import StatisticsMatch

  // ----- The two statistics, record by record

  /** Record i as a walk sees it. */
  function StepOf<E>(r: Rules<E>, walk: Walk, ms0: MatchState<E>, game: seq<Record>, i: nat): Step
    requires i < |game|
  {
    StepAt(r, walk, StateAt(r, walk, ms0, game, i), game[i])
  }

  /** The records that are analysed at all. */
  function Submitted<E>(r: Rules<E>, ms0: MatchState<E>, game: seq<Record>): seq<nat> {
    Linking.Order(AnalyzeGame.Kinds(r, ms0, game), |game|)
  }

  /** A walk looks at record i. */
  predicate LooksAt<E>(r: Rules<E>, walk: Walk, ms0: MatchState<E>, game: seq<Record>, i: nat) {
    walk.Stored? || i in Submitted(r, ms0, game)
  }

  /** What a walk does with record i. */
  function WithRecord<E>(g: Settings, r: Rules<E>, walk: Walk, ms0: MatchState<E>, game: seq<Record>, s: Sides, i: nat): Sides
    requires i < |game|
  {
    if LooksAt(r, walk, ms0, game, i) then WithStep(g, walk, s, StepOf(r, walk, ms0, game, i)) else s
  }

  /** The same as a function of the context and the record. */
  function Recording<E>(g: Settings, r: Rules<E>, walk: Walk, ms0: MatchState<E>, game: seq<Record>): (Sides, nat) -> Sides {
    (s: Sides, i: nat) => if i < |game| then WithRecord(g, r, walk, ms0, game, s, i) else s
  }

  /** What k rounds make of a state. */
  function Rounds<S>(f: (S, nat) -> S, s: S, k: nat): S {
    if k == 0 then s else f(Rounds(f, s, k - 1), k - 1)
  }

  /** What every round keeps holds in the end. */
  lemma {:induction false} RoundsKeep<S, T>(f: (S, nat) -> S, f': (T, nat) -> T, keeps: (S, T, nat) -> bool,
                                            s: S, t: T, k: nat)
    requires keeps(s, t, 0)
    requires forall a, b, i: nat {:trigger f(a, i), f'(b, i)} :: i < k && keeps(a, b, i) ==> keeps(f(a, i), f'(b, i), i + 1)
    ensures keeps(Rounds(f, s, k), Rounds(f', t, k), k)
  {
    if k > 0 {
      RoundsKeep(f, f', keeps, s, t, k - 1);
    }
  }

  /** The context of a walk after the first k records. */
  function Total<E>(g: Settings, r: Rules<E>, walk: Walk, ms0: MatchState<E>, game: seq<Record>, s: Sides, k: nat): Sides {
    Rounds(Recording(g, r, walk, ms0, game), s, k)
  }

  lemma StoredRounds<E>(g: Settings, r: Rules<E>, ms0: MatchState<E>, game: seq<Record>, s: Sides,
                        f: (Sides, nat) -> Sides, keeps: (Sides, Sides, nat) -> bool)
    requires f == Recording(g, r, Stored, ms0, game)
    requires keeps == ((a: Sides, b: Sides, i: nat) => i <= |game| && a == CountedTo(g, Stored, s, Steps(r, Stored, ms0, game), i))
    ensures keeps(s, s, 0)
    ensures forall a, b, i: nat {:trigger f(a, i), f(b, i)} :: i < |game| && keeps(a, b, i) ==> keeps(f(a, i), f(b, i), i + 1)
  {
    NoneCounted(g, Stored, s, Steps(r, Stored, ms0, game));
    forall a, b, i: nat {:trigger f(a, i), f(b, i)} | i < |game| && keeps(a, b, i)
      ensures keeps(f(a, i), f(b, i), i + 1)
    {
      StoredNext(g, r, ms0, game, s, a, i);
    }
  }

  lemma StoredTotal<E>(g: Settings, r: Rules<E>, ms0: MatchState<E>, game: seq<Record>, s: Sides)
    ensures CountedTo(g, Stored, s, Steps(r, Stored, ms0, game), |game|) == Total(g, r, Stored, ms0, game, s, |game|)
  {
    var f := Recording(g, r, Stored, ms0, game);
    var keeps := (a: Sides, b: Sides, i: nat) => i <= |game| && a == CountedTo(g, Stored, s, Steps(r, Stored, ms0, game), i);
    StoredRounds(g, r, ms0, game, s, f, keeps);
    RoundsKeep(f, f, keeps, s, s, |game|);
  }

  lemma StoredNext<E>(g: Settings, r: Rules<E>, ms0: MatchState<E>, game: seq<Record>, s: Sides, t: Sides, k: nat)
    requires k < |game| && CountedTo(g, Stored, s, Steps(r, Stored, ms0, game), k) == t
    ensures CountedTo(g, Stored, s, Steps(r, Stored, ms0, game), k + 1) == WithRecord(g, r, Stored, ms0, game, t, k)
  {
    CountedNext(g, Stored, s, Steps(r, Stored, ms0, game), k);
  }

  // ----- What differs

  /** The analysis counts a roll and the stored game does not: dice of known luck that
      were set and not played. */
  predicate RollDiffers(g: Settings, pmr: Record) {
    pmr.SetDice? && pmr.fPlayer in g.afAnalysePlayers && g.fAnalyseDice && pmr.rLuck.Some?
  }

  /** The stored game counts a move and the analysis does not. */
  predicate MoveDiffers(g: Settings, pmr: Record) {
    pmr.Normal? && pmr.fPlayer !in g.afAnalysePlayers
  }

  /** The stored game counts a cube decision and the analysis does not: one of a
      player who is not analysed, an answer to an even number of doubles, or a normal
      double without an answer. */
  predicate CubeDiffers<E>(g: Settings, r: Rules<E>, ms0: MatchState<E>, game: seq<Record>, i: nat)
    requires i < |game|
  {
    var pmr, ms := game[i], StateAt(r, Analysis, ms0, game, i);
    && Judged(g, pmr)
    && match pmr {
         case Double(_, _) => !ms.fDoubled && i !in Submitted(r, ms0, game)
         case Take(p, _) => p !in g.afAnalysePlayers || ms.Kind() == DT_RACCOON
         case Drop(p, _) => p !in g.afAnalysePlayers || ms.Kind() == DT_RACCOON
         case Normal(p, _, _, _, _, _, _, _) => p !in g.afAnalysePlayers
         case _ => false
       }
  }

  predicate Differs<E>(g: Settings, r: Rules<E>, ms0: MatchState<E>, game: seq<Record>, i: nat)
    requires i < |game|
  {
    RollDiffers(g, game[i]) || MoveDiffers(g, game[i]) || CubeDiffers(g, r, ms0, game, i)
  }

  // ----- Counting

  function CubeCount(s: Sides): nat {
    s.p0.cube.n.anTotalCube + s.p1.cube.n.anTotalCube
  }

  function MoveCount(s: Sides): nat {
    s.p0.move.anTotalMoves + s.p1.move.anTotalMoves
  }

  lemma CountsPlus(g: Settings, s: Sides, x: Step)
    requires !x.pmr.GameInfo?
    ensures var t, p := s.Plus(Deltas(g)(x)), x.pmr.fPlayer;
            && CubeCount(t) == CubeCount(s) + FlagOf(Decides(g, x, p))
            && MoveCount(t) == MoveCount(s) + FlagOf(Moves(x, p))
            && RollCount(t) == RollCount(s) + FlagOf(Rolls(g, x, p))
  {
    PlusDelta(g, x, s, 0);
    PlusDelta(g, x, s, 1);
  }

  /** A walk counts a cube decision, a move, a roll at record i. */
  predicate CubeIn<E>(g: Settings, r: Rules<E>, walk: Walk, ms0: MatchState<E>, game: seq<Record>, i: nat)
    requires i < |game| && !game[i].GameInfo?
  {
    LooksAt(r, walk, ms0, game, i) && Enters(g, walk, StepOf(r, walk, ms0, game, i))
  }

  predicate MoveIn<E>(g: Settings, r: Rules<E>, walk: Walk, ms0: MatchState<E>, game: seq<Record>, i: nat)
    requires i < |game| && !game[i].GameInfo?
  {
    var x := StepOf(r, walk, ms0, game, i);
    LooksAt(r, walk, ms0, game, i) && Counts(g, walk, x) && Moves(x, x.pmr.fPlayer)
  }

  predicate RollIn<E>(g: Settings, r: Rules<E>, walk: Walk, ms0: MatchState<E>, game: seq<Record>, i: nat)
    requires i < |game| && !game[i].GameInfo?
  {
    var x := StepOf(r, walk, ms0, game, i);
    LooksAt(r, walk, ms0, game, i) && Counts(g, walk, x) && Rolls(g, x, x.pmr.fPlayer)
  }

  lemma RecordShows<E>(g: Settings, r: Rules<E>, walk: Walk, ms0: MatchState<E>, game: seq<Record>, s: Sides, i: nat)
    requires i < |game| && !game[i].GameInfo?
    ensures var t := WithRecord(g, r, walk, ms0, game, s, i);
            && CubeCount(t) == CubeCount(s) + FlagOf(CubeIn(g, r, walk, ms0, game, i))
            && MoveCount(t) == MoveCount(s) + FlagOf(MoveIn(g, r, walk, ms0, game, i))
            && RollCount(t) == RollCount(s) + FlagOf(RollIn(g, r, walk, ms0, game, i))
  {
    CountsPlus(g, s, StepOf(r, walk, ms0, game, i));
  }

  /** Whatever is no double is analysed, and of the doubles only normal ones are. */
  lemma SubmittedIs<E>(r: Rules<E>, ms0: MatchState<E>, game: seq<Record>, i: nat)
    requires i < |game|
    ensures !game[i].Double? ==> i in Submitted(r, ms0, game)
    ensures game[i].Double? && i in Submitted(r, ms0, game) ==> !StateAt(r, Analysis, ms0, game, i).fDoubled
  {
    var kinds := AnalyzeGame.Kinds(r, ms0, game);
    Linking.Exactly(kinds, |game|, i);
    assert kinds[i] == AnalyzeGame.KindAt(r, ms0, game, i);
  }

  // ----- The states of the stored game

  /** The cube is below its limit when record k answers a double by another one. */
  predicate Redoubles<E>(r: Rules<E>, ms0: MatchState<E>, game: seq<Record>, k: nat)
    requires k < |game|
  {
    var ms := StateAt(r, Analysis, ms0, game, k);
    game[k].Double? && ms.fDoubled ==> ms.nCube < MAX_CUBE
  }

  /** No double is answered by another one once the cube is at its limit. */
  ghost predicate Limited<E>(r: Rules<E>, ms0: MatchState<E>, game: seq<Record>) {
    forall k {:trigger Redoubles(r, ms0, game, k)} :: 0 <= k < |game| ==> Redoubles(r, ms0, game, k)
  }

  /** While a double is pending the player on turn is not on move. */
  predicate OffTurn<E>(ms: MatchState<E>) {
    ms.fDoubled ==> 0 <= ms.fMove <= 1 && ms.fTurn == 1 - ms.fMove
  }

  lemma OffTurnNext<E>(r: Rules<E>, o: Operations<E>, ms: MatchState<E>, pmr: Record)
    requires Engine(r, o)
    ensures OffTurn(ms) && (pmr.Double? && ms.fDoubled ==> ms.nCube < MAX_CUBE) ==> OffTurn(Advance(r, Stored, ms, pmr))
  {
    EngineIs(r, o);
  }

  lemma RedoubleAt<E>(r: Rules<E>, o: Operations<E>, ms0: MatchState<E>, game: seq<Record>, k: nat)
    requires Engine(r, o) && Limited(r, ms0, game) && k < |game|
    ensures game[k].Double? && StateAt(r, Stored, ms0, game, k).fDoubled ==> StateAt(r, Stored, ms0, game, k).nCube < MAX_CUBE
  {
    assert Redoubles(r, ms0, game, k);
    CubeAlike(r, o, Analysis, Stored, ms0, game, k);
  }

  lemma {:induction false} StoredOffTurn<E>(r: Rules<E>, o: Operations<E>, ms0: MatchState<E>, game: seq<Record>, k: nat)
    requires Engine(r, o) && Started(ms0) && Limited(r, ms0, game) && k <= |game|
    ensures OffTurn(StateAt(r, Stored, ms0, game, k))
  {
    if k > 0 {
      StoredOffTurn(r, o, ms0, game, k - 1);
      RedoubleAt(r, o, ms0, game, k - 1);
      OffTurnNext(r, o, StateAt(r, Stored, ms0, game, k - 1), game[k - 1]);
    }
  }

  // ----- What differs shows

  lemma EntersStored<E>(g: Settings, r: Rules<E>, o: Operations<E>, ms: MatchState<E>, pmr: Record)
    requires Engine(r, o) && OffTurn(ms)
    ensures Enters(g, Stored, StepAt(r, Stored, ms, pmr)) <==> Judged(g, pmr) && (pmr.Double? ==> !ms.fDoubled)
  {
    EngineIs(r, o);
    assert Seen(r, Stored, ms, pmr).fDoubled == ms.fDoubled;
    assert pmr.Take? ==> Seen(r, Stored, ms, pmr) == ms;
  }

  lemma EntersAnalysis<E>(g: Settings, r: Rules<E>, o: Operations<E>, ms: MatchState<E>, pmr: Record)
    requires Engine(r, o)
    ensures Enters(g, Analysis, StepAt(r, Analysis, ms, pmr)) <==>
            && Judged(g, pmr) && (pmr.Double? ==> !ms.fDoubled)
            && (!pmr.Double? ==> pmr.fPlayer in g.afAnalysePlayers)
            && (pmr.Take? || pmr.Drop? ==> ms.Kind() != DT_RACCOON)
  {
    EngineIs(r, o);
    assert Seen(r, Analysis, ms, pmr).fDoubled == ms.fDoubled;
    assert pmr.Take? || pmr.Drop? ==> Seen(r, Analysis, ms, pmr) == ms;
  }

  lemma CubeShows<E>(g: Settings, r: Rules<E>, o: Operations<E>, ms0: MatchState<E>, game: seq<Record>, i: nat)
    requires Engine(r, o) && Started(ms0) && Limited(r, ms0, game) && i < |game| && !game[i].GameInfo?
    ensures FlagOf(CubeIn(g, r, Stored, ms0, game, i))
         == FlagOf(CubeIn(g, r, Analysis, ms0, game, i)) + FlagOf(CubeDiffers(g, r, ms0, game, i))
  {
    var a, s := StateAt(r, Analysis, ms0, game, i), StateAt(r, Stored, ms0, game, i);
    StoredOffTurn(r, o, ms0, game, i);
    EntersAnalysis(g, r, o, a, game[i]);
    EntersStored(g, r, o, s, game[i]);
    CubeAlike(r, o, Analysis, Stored, ms0, game, i);
    SubmittedIs(r, ms0, game, i);
  }

  lemma MoveShows<E>(g: Settings, r: Rules<E>, ms0: MatchState<E>, game: seq<Record>, i: nat)
    requires i < |game| && !game[i].GameInfo?
    ensures FlagOf(MoveIn(g, r, Stored, ms0, game, i))
         == FlagOf(MoveIn(g, r, Analysis, ms0, game, i)) + FlagOf(MoveDiffers(g, game[i]))
    ensures !MoveDiffers(g, game[i]) ==>
              FlagOf(RollIn(g, r, Analysis, ms0, game, i))
              == FlagOf(RollIn(g, r, Stored, ms0, game, i)) + FlagOf(RollDiffers(g, game[i]))
  {
    SubmittedIs(r, ms0, game, i);
  }

  ghost predicate NoCubeDiffers<E>(g: Settings, r: Rules<E>, ms0: MatchState<E>, game: seq<Record>, k: nat)
    requires k <= |game|
  {
    forall i {:trigger CubeDiffers(g, r, ms0, game, i)} :: 0 <= i < k ==> !CubeDiffers(g, r, ms0, game, i)
  }

  ghost predicate NoMoveDiffers(g: Settings, game: seq<Record>, k: nat)
    requires k <= |game|
  {
    forall i {:trigger MoveDiffers(g, game[i])} :: 0 <= i < k ==> !MoveDiffers(g, game[i])
  }

  ghost predicate NoRollDiffers(g: Settings, game: seq<Record>, k: nat)
    requires k <= |game|
  {
    forall i {:trigger RollDiffers(g, game[i])} :: 0 <= i < k ==> !RollDiffers(g, game[i])
  }

  /** After k records the stored game has counted no fewer decisions and moves, and as
      many only when no record differs; and then the analysis has counted no fewer
      rolls. */
  ghost predicate Apart<E>(g: Settings, r: Rules<E>, ms0: MatchState<E>, game: seq<Record>, a: Sides, b: Sides, k: nat) {
    && k <= |game|
    && CubeCount(a) <= CubeCount(b) && (CubeCount(a) == CubeCount(b) ==> NoCubeDiffers(g, r, ms0, game, k))
    && MoveCount(a) <= MoveCount(b)
    && (MoveCount(a) == MoveCount(b) ==>
          && NoMoveDiffers(g, game, k)
          && RollCount(b) <= RollCount(a) && (RollCount(a) == RollCount(b) ==> NoRollDiffers(g, game, k)))
  }

  lemma ApartNext<E>(g: Settings, r: Rules<E>, o: Operations<E>, ms0: MatchState<E>, game: seq<Record>,
                     a: Sides, b: Sides, i: nat)
    requires Engine(r, o) && Started(ms0) && Limited(r, ms0, game) && i < |game| && !game[i].GameInfo?
    requires Apart(g, r, ms0, game, a, b, i)
    ensures Apart(g, r, ms0, game, WithRecord(g, r, Analysis, ms0, game, a, i), WithRecord(g, r, Stored, ms0, game, b, i), i + 1)
  {
    RecordShows(g, r, Analysis, ms0, game, a, i);
    RecordShows(g, r, Stored, ms0, game, b, i);
    CubeShows(g, r, o, ms0, game, i);
    MoveShows(g, r, ms0, game, i);
  }

  /** Apart, as a function of the two contexts and the number of records. */
  ghost function Apartness<E>(g: Settings, r: Rules<E>, ms0: MatchState<E>, game: seq<Record>): (Sides, Sides, nat) -> bool {
    (a: Sides, b: Sides, i: nat) => Apart(g, r, ms0, game, a, b, i)
  }

  lemma ApartRounds<E>(g: Settings, r: Rules<E>, o: Operations<E>, ms0: MatchState<E>, game: seq<Record>,
                       f: (Sides, nat) -> Sides, f': (Sides, nat) -> Sides, keeps: (Sides, Sides, nat) -> bool)
    requires Engine(r, o) && Started(ms0) && Limited(r, ms0, game) && NoGameInfo(game)
    requires f == Recording(g, r, Analysis, ms0, game) && f' == Recording(g, r, Stored, ms0, game)
    requires keeps == Apartness(g, r, ms0, game)
    ensures forall s :: keeps(s, s, 0)
    ensures forall a, b, i: nat {:trigger f(a, i), f'(b, i)} :: i < |game| && keeps(a, b, i) ==> keeps(f(a, i), f'(b, i), i + 1)
  {
    forall a, b, i: nat {:trigger f(a, i), f'(b, i)} | i < |game| && keeps(a, b, i)
      ensures keeps(f(a, i), f'(b, i), i + 1)
    {
      ApartNext(g, r, o, ms0, game, a, b, i);
    }
  }

  lemma TotalsApart<E>(g: Settings, r: Rules<E>, o: Operations<E>, ms0: MatchState<E>, game: seq<Record>, s: Sides)
    requires Engine(r, o) && Started(ms0) && Limited(r, ms0, game) && NoGameInfo(game)
    ensures Apart(g, r, ms0, game, Total(g, r, Analysis, ms0, game, s, |game|), Total(g, r, Stored, ms0, game, s, |game|), |game|)
  {
    var f, f' := Recording(g, r, Analysis, ms0, game), Recording(g, r, Stored, ms0, game);
    var keeps, n := Apartness(g, r, ms0, game), |game|;
    ApartRounds(g, r, o, ms0, game, f, f', keeps);
    RoundsKeep(f, f', keeps, s, s, n);
    assert keeps(Total(g, r, Analysis, ms0, game, s, n), Total(g, r, Stored, ms0, game, s, n), n);
  }

  /** When the two statistics are equal, no record differs. */
  lemma EqualOnlyIf<E>(g: Settings, r: Rules<E>, o: Operations<E>, ms0: MatchState<E>, game: seq<Record>, s: Sides, i: nat)
    requires Engine(r, o) && Started(ms0) && Limited(r, ms0, game) && NoGameInfo(game) && i < |game|
    requires Total(g, r, Analysis, ms0, game, s, |game|) == Total(g, r, Stored, ms0, game, s, |game|)
    ensures !Differs(g, r, ms0, game, i)
  {
    TotalsApart(g, r, o, ms0, game, s);
    assert !CubeDiffers(g, r, ms0, game, i) && !MoveDiffers(g, game[i]) && !RollDiffers(g, game[i]);
  }

  // ----- The states of the two walks

  /** The two walks are in the same state, but for an even number of pending doubles:
      then the stored game has the other side on move. */
  ghost predicate Paired<E>(a: MatchState<E>, s: MatchState<E>) {
    && (if a.fDoubled then 0 <= a.fMove <= 1 && 0 <= a.fTurn <= 1 else a.fMove == a.fTurn)
    && (if a.Kind() == DT_RACCOON then a.fCubeOwner == 1 - a.fMove && s == OtherSide(a, a.fMove) else s == a)
  }

  /** A double below the limit, and by the player on turn after an even number. */
  predicate GoesOn<E>(ms: MatchState<E>, pmr: Record) {
    && !pmr.GameInfo? && !pmr.Drop? && !pmr.Resign?
    && (pmr.Double? && ms.fDoubled ==> ms.nCube < MAX_CUBE)
    && (ms.Kind() == DT_RACCOON ==> pmr.Double? && pmr.fPlayer == ms.fTurn)
  }

  lemma SameAfter<E>(r: Rules<E>, o: Operations<E>, ms: MatchState<E>, pmr: Record)
    requires Engine(r, o) && GoesOn(ms, pmr) && Paired(ms, ms) && ms.Kind() != DT_RACCOON
    requires pmr.Double? && ms.fDoubled ==> ms.fTurn != pmr.fPlayer
    ensures Advance(r, Analysis, ms, pmr) == Advance(r, Stored, ms, pmr)
    ensures Paired(Advance(r, Analysis, ms, pmr), Advance(r, Stored, ms, pmr))
  {
    EngineIs(r, o);
    if pmr.Double? {
      assert Seen(r, Analysis, ms, pmr) == Seen(r, Stored, ms, pmr);
    } else if pmr.Normal? {
      assert Seen(r, Analysis, ms, pmr) == Seen(r, Stored, ms, pmr);
    } else if pmr.SetDice? {
      assert Seen(r, Analysis, ms, pmr) == ms.TurnedTo(pmr.fPlayer) && Seen(r, Stored, ms, pmr) == ms;
    } else {
      assert Seen(r, Analysis, ms, pmr) == Seen(r, Stored, ms, pmr) == ms;
    }
  }

  lemma PairedNext<E>(r: Rules<E>, o: Operations<E>, a: MatchState<E>, s: MatchState<E>, pmr: Record)
    requires Engine(r, o) && GoesOn(a, pmr) && Paired(a, s)
    ensures Paired(Advance(r, Analysis, a, pmr), Advance(r, Stored, s, pmr))
  {
    if a.Kind() == DT_RACCOON {
      Raccoon(r, o, a, pmr);
    } else if pmr.Double? && a.fDoubled && a.fTurn == pmr.fPlayer {
      Beaver(r, o, a, pmr);
    } else {
      SameAfter(r, o, a, pmr);
    }
  }

  /** Nothing comes after a pass or a resignation; the cube is below its limit when a
      double is answered by another one; and an even number of doubles is answered by
      another one of the player on turn, a take, a pass or a resignation. */
  predicate RegularAt<E>(r: Rules<E>, ms0: MatchState<E>, game: seq<Record>, k: nat)
    requires k < |game|
  {
    var ms, pmr := StateAt(r, Analysis, ms0, game, k), game[k];
    && (pmr.Drop? || pmr.Resign? ==> k + 1 == |game|)
    && Redoubles(r, ms0, game, k)
    && (ms.Kind() == DT_RACCOON ==> pmr.Take? || pmr.Drop? || pmr.Resign? || (pmr.Double? && pmr.fPlayer == ms.fTurn))
  }

  ghost predicate Regular<E>(r: Rules<E>, ms0: MatchState<E>, game: seq<Record>) {
    NoGameInfo(game) && forall k {:trigger RegularAt(r, ms0, game, k)} :: 0 <= k < |game| ==> RegularAt(r, ms0, game, k)
  }

  /** A take of an even number of doubles is judged. */
  predicate TakeJudged<E>(g: Settings, r: Rules<E>, ms0: MatchState<E>, game: seq<Record>, k: nat)
    requires k < |game|
  {
    game[k].Take? && StateAt(r, Analysis, ms0, game, k).Kind() == DT_RACCOON ==> Judged(g, game[k])
  }

  ghost predicate TakesJudged<E>(g: Settings, r: Rules<E>, ms0: MatchState<E>, game: seq<Record>) {
    forall k {:trigger TakeJudged(g, r, ms0, game, k)} :: 0 <= k < |game| ==> TakeJudged(g, r, ms0, game, k)
  }

  ghost predicate NoneDiffers<E>(g: Settings, r: Rules<E>, ms0: MatchState<E>, game: seq<Record>) {
    forall k {:trigger Differs(g, r, ms0, game, k)} :: 0 <= k < |game| ==> !Differs(g, r, ms0, game, k)
  }

  lemma RegularLimited<E>(r: Rules<E>, ms0: MatchState<E>, game: seq<Record>)
    requires Regular(r, ms0, game)
    ensures Limited(r, ms0, game)
  {
    forall k | 0 <= k < |game|
      ensures Redoubles(r, ms0, game, k)
    {
      assert RegularAt(r, ms0, game, k);
    }
  }

  lemma GoesOnAt<E>(g: Settings, r: Rules<E>, ms0: MatchState<E>, game: seq<Record>, k: nat)
    requires Regular(r, ms0, game) && TakesJudged(g, r, ms0, game) && NoneDiffers(g, r, ms0, game) && k + 1 < |game|
    ensures GoesOn(StateAt(r, Analysis, ms0, game, k), game[k])
  {
    assert RegularAt(r, ms0, game, k) && TakeJudged(g, r, ms0, game, k) && !Differs(g, r, ms0, game, k);
  }

  lemma {:induction false} StatesPaired<E>(g: Settings, r: Rules<E>, o: Operations<E>, ms0: MatchState<E>, game: seq<Record>,
                                           k: nat)
    requires Engine(r, o) && Started(ms0) && Regular(r, ms0, game)
    requires TakesJudged(g, r, ms0, game) && NoneDiffers(g, r, ms0, game) && k < |game|
    ensures Paired(StateAt(r, Analysis, ms0, game, k), StateAt(r, Stored, ms0, game, k))
  {
    if k > 0 {
      StatesPaired(g, r, o, ms0, game, k - 1);
      GoesOnAt(g, r, ms0, game, k - 1);
      PairedNext(r, o, StateAt(r, Analysis, ms0, game, k - 1), StateAt(r, Stored, ms0, game, k - 1), game[k - 1]);
    }
  }

  // ----- Records that do not differ

  /** In the same state, with no double pending before a double, the two see the same. */
  lemma SeesSame<E>(r: Rules<E>, o: Operations<E>, ms: MatchState<E>, pmr: Record)
    requires Engine(r, o) && Paired(ms, ms)
    requires pmr.Normal? || pmr.Take? || pmr.Drop? || (pmr.Double? && !ms.fDoubled)
    ensures StepAt(r, Analysis, ms, pmr) == StepAt(r, Stored, ms, pmr)
  {
    EngineIs(r, o);
    assert Seen(r, Analysis, ms, pmr) == Seen(r, Stored, ms, pmr);
  }

  /** A record that adds nothing, whether it counts or not. */
  lemma AddsNothing(g: Settings, walk: Walk, s: Sides, x: Step)
    requires !x.pmr.GameInfo? && !x.pmr.Normal?
    requires !Enters(g, walk, x) && !(Counts(g, walk, x) && Rolls(g, x, x.pmr.fPlayer))
    ensures WithStep(g, walk, s, x) == s
  {
    if Counts(g, walk, x) {
      NothingAdded(g, x, s);
    }
  }

  /** A decision that is not judged, or a double that answers a double. */
  lemma NothingEnters<E>(g: Settings, r: Rules<E>, o: Operations<E>, walk: Walk, ms: MatchState<E>, pmr: Record, t: Sides)
    requires Engine(r, o) && (pmr.Double? || pmr.Take? || pmr.Drop?)
    requires !Judged(g, pmr) || (pmr.Double? && ms.fDoubled)
    ensures WithStep(g, walk, t, StepAt(r, walk, ms, pmr)) == t
  {
    EngineIs(r, o);
    assert Seen(r, walk, ms, pmr).fDoubled == ms.fDoubled;
    AddsNothing(g, walk, t, StepAt(r, walk, ms, pmr));
  }

  lemma NoDecision<E>(g: Settings, r: Rules<E>, walk: Walk, ms: MatchState<E>, pmr: Record, t: Sides)
    requires !pmr.GameInfo? && !pmr.Normal? && !pmr.Double? && !pmr.Take? && !pmr.Drop? && !RollDiffers(g, pmr)
    ensures WithStep(g, walk, t, StepAt(r, walk, ms, pmr)) == t
  {
    AddsNothing(g, walk, t, StepAt(r, walk, ms, pmr));
  }

  lemma SameMove<E>(g: Settings, r: Rules<E>, o: Operations<E>, ms: MatchState<E>, pmr: Record, t: Sides)
    requires Engine(r, o) && Paired(ms, ms) && pmr.Normal? && !MoveDiffers(g, pmr)
    ensures WithStep(g, Analysis, t, StepAt(r, Analysis, ms, pmr)) == WithStep(g, Stored, t, StepAt(r, Stored, ms, pmr))
  {
    SeesSame(r, o, ms, pmr);
  }

  lemma SameAnswer<E>(g: Settings, r: Rules<E>, o: Operations<E>, ms: MatchState<E>, pmr: Record, t: Sides)
    requires Engine(r, o) && Paired(ms, ms) && (pmr.Take? || pmr.Drop?)
    requires pmr.fPlayer in g.afAnalysePlayers && ms.Kind() != DT_RACCOON
    ensures WithStep(g, Analysis, t, StepAt(r, Analysis, ms, pmr)) == WithStep(g, Stored, t, StepAt(r, Stored, ms, pmr))
  {
    EngineIs(r, o);
    SeesSame(r, o, ms, pmr);
    assert Seen(r, Analysis, ms, pmr) == ms;
  }

  lemma SameDouble<E>(g: Settings, r: Rules<E>, o: Operations<E>, ms: MatchState<E>, pmr: Record, t: Sides)
    requires Engine(r, o) && Paired(ms, ms) && pmr.Double? && !ms.fDoubled
    ensures WithStep(g, Analysis, t, StepAt(r, Analysis, ms, pmr)) == WithStep(g, Stored, t, StepAt(r, Stored, ms, pmr))
  {
    EngineIs(r, o);
    SeesSame(r, o, ms, pmr);
    assert !Seen(r, Analysis, ms, pmr).fDoubled;
  }

  lemma SameRecord<E>(g: Settings, r: Rules<E>, o: Operations<E>, ms0: MatchState<E>, game: seq<Record>, t: Sides, i: nat)
    requires Engine(r, o) && i < |game| && NoGameInfo(game) && !Differs(g, r, ms0, game, i) && RegularAt(r, ms0, game, i)
    requires Paired(StateAt(r, Analysis, ms0, game, i), StateAt(r, Stored, ms0, game, i))
    ensures WithRecord(g, r, Analysis, ms0, game, t, i) == WithRecord(g, r, Stored, ms0, game, t, i)
  {
    var a, s, pmr := StateAt(r, Analysis, ms0, game, i), StateAt(r, Stored, ms0, game, i), game[i];
    SubmittedIs(r, ms0, game, i);
    if pmr.Normal? {
      SameMove(g, r, o, a, pmr, t);
    } else if pmr.Double? || pmr.Take? || pmr.Drop? {
      if !Judged(g, pmr) || (pmr.Double? && a.fDoubled) {
        NothingEnters(g, r, o, Analysis, a, pmr, t);
        NothingEnters(g, r, o, Stored, s, pmr, t);
      } else if pmr.Double? {
        SameDouble(g, r, o, a, pmr, t);
      } else {
        SameAnswer(g, r, o, a, pmr, t);
      }
    } else {
      NoDecision(g, r, Analysis, a, pmr, t);
      NoDecision(g, r, Stored, s, pmr, t);
    }
  }

  lemma EqualIf<E>(g: Settings, r: Rules<E>, o: Operations<E>, ms0: MatchState<E>, game: seq<Record>, s: Sides)
    requires Engine(r, o) && Started(ms0) && Regular(r, ms0, game)
    requires TakesJudged(g, r, ms0, game) && NoneDiffers(g, r, ms0, game)
    ensures Total(g, r, Analysis, ms0, game, s, |game|) == Total(g, r, Stored, ms0, game, s, |game|)
  {
    var f, f' := Recording(g, r, Analysis, ms0, game), Recording(g, r, Stored, ms0, game);
    var keeps := (a: Sides, b: Sides, i: nat) => a == b;
    forall a, b, i: nat {:trigger f(a, i), f'(b, i)} | i < |game| && keeps(a, b, i)
      ensures keeps(f(a, i), f'(b, i), i + 1)
    {
      StatesPaired(g, r, o, ms0, game, i);
      assert RegularAt(r, ms0, game, i) && !Differs(g, r, ms0, game, i);
      SameRecord(g, r, o, ms0, game, a, i);
    }
    RoundsKeep(f, f', keeps, s, s, |game|);
  }

  // ----- What the tasks gather

  /** The members of a list below k, in order. */
  function Upto(list: seq<nat>, k: nat): seq<nat> {
    Rounds(Extending(list), [], k)
  }

  function Extending(list: seq<nat>): (seq<nat>, nat) -> seq<nat> {
    (below: seq<nat>, i: nat) => below + (if i in list then [i] else [])
  }

  lemma {:induction false} UptoIs(list: seq<nat>, k: nat)
    ensures Linking.Increasing(Upto(list, k)) && Linking.Below(Upto(list, k), k)
    ensures forall i: nat :: i in Upto(list, k) <==> i < k && i in list
  {
    if k > 0 {
      UptoIs(list, k - 1);
    }
  }

  /** There is one increasing list of the same numbers. */
  lemma {:induction false} IncreasingUnique(a: seq<nat>, b: seq<nat>)
    requires Linking.Increasing(a) && Linking.Increasing(b) && forall i: nat :: i in a <==> i in b
    ensures a == b
  {
    assert (a != [] ==> a[0] in b) && (b != [] ==> b[0] in a);
    if a != [] {
      SameLast(a, b);
      WithoutLast(a);
      WithoutLast(b);
      IncreasingUnique(a[..|a| - 1], b[..|b| - 1]);
    }
  }

  lemma WithoutLast(a: seq<nat>)
    requires Linking.Increasing(a) && a != []
    ensures var n := |a| - 1;
            && a == a[..n] + [a[n]] && Linking.Increasing(a[..n])
            && forall i: nat :: i in a[..n] <==> i in a && i != a[n]
  {
    var n := |a| - 1;
    assert a == a[..n] + [a[n]];
    assert a[n] !in a[..n];
  }

  lemma SameLast(a: seq<nat>, b: seq<nat>)
    requires Linking.Increasing(a) && Linking.Increasing(b) && forall i: nat :: i in a <==> i in b
    requires a != [] && b != []
    ensures a[|a| - 1] == b[|b| - 1]
  {
    var x, y := a[|a| - 1], b[|b| - 1];
    assert x in b && y in a;
    var i :| 0 <= i < |b| && b[i] == x;
    var j :| 0 <= j < |a| && a[j] == y;
  }

  /** The step that the analysis makes of a job. */
  ghost predicate Analyses<E>(f: AnalyzeGame.Job<E> -> Step, r: Rules<E>, ms0: MatchState<E>, game: seq<Record>) {
    forall k {:trigger AnalyzeGame.JobAt(r, ms0, game, k)} :: 0 <= k < |game|
      ==> f(AnalyzeGame.JobAt(r, ms0, game, k)) == StepOf(r, Analysis, ms0, game, k)
  }

  /** Every analysis is such a function of its jobs. */
  lemma AnalysisOf<E>(r: Rules<E>, ms0: MatchState<E>, game: seq<Record>) returns (f: AnalyzeGame.Job<E> -> Step)
    ensures Analyses(f, r, ms0, game)
  {
    f := (job: AnalyzeGame.Job<E>) =>
      StepAt(r, Analysis, job.ms, if job.pmr < |game| then game[job.pmr] else SetBoard(0, 0));
  }

  /** The analysed records of a list, as the context counts them. */
  function GatheredOf<E>(g: Settings, s: Sides, f: AnalyzeGame.Job<E> -> Step, r: Rules<E>, ms0: MatchState<E>,
                         game: seq<Record>, list: seq<nat>): Sides
    requires Linking.Below(list, |game|)
  {
    AnalysisOrder.Gathered(g, s, AnalysisOrder.Analyses(f, AnalysisOrder.JobsOf(r, ms0, game, list)))
  }

  lemma GatheredSnoc<E>(g: Settings, s: Sides, f: AnalyzeGame.Job<E> -> Step, r: Rules<E>, ms0: MatchState<E>,
                        game: seq<Record>, list: seq<nat>, k: nat)
    requires Analyses(f, r, ms0, game) && k < |game| && Linking.Below(list, |game|) && Linking.Below(list + [k], |game|)
    ensures GatheredOf(g, s, f, r, ms0, game, list + [k])
         == WithStep(g, Analysis, GatheredOf(g, s, f, r, ms0, game, list), StepOf(r, Analysis, ms0, game, k))
  {
    var jobs, job := AnalysisOrder.JobsOf(r, ms0, game, list), AnalyzeGame.JobAt(r, ms0, game, k);
    AnalysisOrder.JobsConcat(r, ms0, game, list, [k]);
    AnalysisOrder.OneJob(r, ms0, game, k);
    AnalysisOrder.AnalysesConcat(f, jobs, [job]);
    assert [job][1..] == [] && AnalysisOrder.Analyses(f, [job]) == [f(job)];
    CountedFold(g, Analysis, s, AnalysisOrder.Analyses(f, jobs), f(job));
  }

  /** The jobs of these records give this context. */
  ghost predicate Gathers<E>(g: Settings, s: Sides, f: AnalyzeGame.Job<E> -> Step, r: Rules<E>, ms0: MatchState<E>,
                             game: seq<Record>, list: seq<nat>, t: Sides)
  {
    Linking.Below(list, |game|) && GatheredOf(g, s, f, r, ms0, game, list) == t
  }

  lemma GatheredTotal<E>(g: Settings, s: Sides, f: AnalyzeGame.Job<E> -> Step, r: Rules<E>, ms0: MatchState<E>,
                         game: seq<Record>)
    requires Analyses(f, r, ms0, game)
    ensures Gathers(g, s, f, r, ms0, game, Upto(Submitted(r, ms0, game), |game|), Total(g, r, Analysis, ms0, game, s, |game|))
  {
    var more, next := Extending(Submitted(r, ms0, game)), Recording(g, r, Analysis, ms0, game);
    var keeps := (list: seq<nat>, t: Sides, i: nat) => Linking.Below(list, i) && Gathers(g, s, f, r, ms0, game, list, t);
    GatheredNone(g, s, f, r, ms0, game, []);
    forall list, t, i: nat {:trigger more(list, i), next(t, i)} | i < |game| && keeps(list, t, i)
      ensures keeps(more(list, i), next(t, i), i + 1)
    {
      GatheredNext(g, s, f, r, ms0, game, list, t, i);
    }
    RoundsKeep(more, next, keeps, [], s, |game|);
  }

  lemma GatheredNone<E>(g: Settings, s: Sides, f: AnalyzeGame.Job<E> -> Step, r: Rules<E>, ms0: MatchState<E>,
                        game: seq<Record>, list: seq<nat>)
    requires list == []
    ensures Gathers(g, s, f, r, ms0, game, list, s)
  {
  }

  lemma GatheredNext<E>(g: Settings, s: Sides, f: AnalyzeGame.Job<E> -> Step, r: Rules<E>, ms0: MatchState<E>,
                        game: seq<Record>, list: seq<nat>, t: Sides, k: nat)
    requires Analyses(f, r, ms0, game) && k < |game| && Linking.Below(list, k)
    requires Gathers(g, s, f, r, ms0, game, list, t)
    ensures var more := list + (if k in Submitted(r, ms0, game) then [k] else []);
            Linking.Below(more, k + 1) && Gathers(g, s, f, r, ms0, game, more, WithRecord(g, r, Analysis, ms0, game, t, k))
  {
    if k in Submitted(r, ms0, game) {
      GatheredSnoc(g, s, f, r, ms0, game, list, k);
    } else {
      assert list + [] == list;
    }
  }

  lemma UptoSubmitted<E>(r: Rules<E>, ms0: MatchState<E>, game: seq<Record>)
    ensures Upto(Submitted(r, ms0, game), |game|) == Submitted(r, ms0, game)
  {
    var list := Submitted(r, ms0, game);
    Linking.InOrder(AnalyzeGame.Kinds(r, ms0, game), |game|);
    UptoIs(list, |game|);
    IncreasingUnique(Upto(list, |game|), list);
  }

  /** What the analysis gathers, in whatever order the tasks run. */
  lemma GatheredIs<E>(g: Settings, s: Sides, f: AnalyzeGame.Job<E> -> Step, r: Rules<E>, ms0: MatchState<E>,
                      game: seq<Record>, run: seq<seq<AnalyzeGame.Job<E>>>)
    requires Analyses(f, r, ms0, game) && multiset(run) == multiset(AnalyzeGame.Tasks(r, ms0, game, |game|))
    ensures AnalysisOrder.Gathered(g, s, AnalysisOrder.Analyses(f, StatisticsMatch.Joined(run)))
         == Total(g, r, Analysis, ms0, game, s, |game|)
  {
    AnalysisOrder.AnyOrder(g, s, f, r, ms0, game, run);
    GatheredTotal(g, s, f, r, ms0, game);
    UptoSubmitted(r, ms0, game);
  }

  // ----- The two statistics of a game

  /** The context that the tasks of an analysis leave, in whatever order they run. */
  function AnalysedSides<E>(g: Settings, start: Sides, f: AnalyzeGame.Job<E> -> Step, game: seq<Record>,
                            run: seq<seq<AnalyzeGame.Job<E>>>): Sides
    requires IsGame(game)
  {
    AnalysisOrder.Gathered(g, StatisticsMatch.Opened(start, game[0]), AnalysisOrder.Analyses(f, StatisticsMatch.Joined(run)))
  }

  /** The state that a game starts in, and its other records. */
  ghost predicate Opens<E>(r: Rules<E>, ms: MatchState<E>, game: seq<Record>, ms0: MatchState<E>, moves: seq<Record>)
    requires IsGame(game)
  {
    ms0 == Advance(r, Analysis, ms, game[0]) && moves == game[1..]
  }

  lemma BothTotals<E>(g: Settings, r: Rules<E>, o: Operations<E>, ms: MatchState<E>, ms': MatchState<E>, game: seq<Record>,
                      start: Sides, f: AnalyzeGame.Job<E> -> Step, run: seq<seq<AnalyzeGame.Job<E>>>,
                      ms0: MatchState<E>, moves: seq<Record>)
    requires Engine(r, o) && IsGame(game) && Opens(r, ms, game, ms0, moves) && Analyses(f, r, ms0, moves)
    requires multiset(run) == multiset(AnalyzeGame.Tasks(r, ms0, moves, |moves|))
    ensures Started(ms0)
    ensures AnalysedSides(g, start, f, game, run)
         == Total(g, r, Analysis, ms0, moves, StatisticsMatch.Opened(start, game[0]), |moves|)
    ensures StatisticsMatch.GameStats(g, start, r, ms', game).sides
         == Total(g, r, Stored, ms0, moves, StatisticsMatch.Opened(start, game[0]), |moves|)
  {
    var s := StatisticsMatch.Opened(start, game[0]);
    GameStarts(r, o, Analysis, Stored, ms, ms', game[0]);
    GatheredIs(g, s, f, r, ms0, moves, run);
    StoredTotal(g, r, ms0, moves, s);
    AllCounted(g, Stored, s, Steps(r, Stored, ms0, moves));
  }

  /** When the analysis and the stored game give a game the same statistics, no record
      differs. */
  lemma AgreeOnlyIf<E>(g: Settings, r: Rules<E>, o: Operations<E>, ms: MatchState<E>, ms': MatchState<E>, game: seq<Record>,
                       start: Sides, f: AnalyzeGame.Job<E> -> Step, run: seq<seq<AnalyzeGame.Job<E>>>,
                       ms0: MatchState<E>, moves: seq<Record>)
    requires Engine(r, o) && IsGame(game) && Opens(r, ms, game, ms0, moves) && Analyses(f, r, ms0, moves)
    requires multiset(run) == multiset(AnalyzeGame.Tasks(r, ms0, moves, |moves|)) && Limited(r, ms0, moves)
    requires AnalysedSides(g, start, f, game, run) == StatisticsMatch.GameStats(g, start, r, ms', game).sides
    ensures NoneDiffers(g, r, ms0, moves)
  {
    BothTotals(g, r, o, ms, ms', game, start, f, run, ms0, moves);
    forall k | 0 <= k < |moves|
      ensures !Differs(g, r, ms0, moves, k)
    {
      EqualOnlyIf(g, r, o, ms0, moves, StatisticsMatch.Opened(start, game[0]), k);
    }
  }

  /** In a regular game, in which takes of an even number of doubles are judged, the
      two statistics are the same exactly when no record differs. */
  lemma AgreeExactly<E>(g: Settings, r: Rules<E>, o: Operations<E>, ms: MatchState<E>, ms': MatchState<E>, game: seq<Record>,
                        start: Sides, f: AnalyzeGame.Job<E> -> Step, run: seq<seq<AnalyzeGame.Job<E>>>,
                        ms0: MatchState<E>, moves: seq<Record>)
    requires Engine(r, o) && IsGame(game) && Opens(r, ms, game, ms0, moves) && Analyses(f, r, ms0, moves)
    requires multiset(run) == multiset(AnalyzeGame.Tasks(r, ms0, moves, |moves|))
    requires Regular(r, ms0, moves) && TakesJudged(g, r, ms0, moves)
    ensures AnalysedSides(g, start, f, game, run) == StatisticsMatch.GameStats(g, start, r, ms', game).sides
            <==> NoneDiffers(g, r, ms0, moves)
  {
    RegularLimited(r, ms0, moves);
    BothTotals(g, r, o, ms, ms', game, start, f, run, ms0, moves);
    if AnalysedSides(g, start, f, game, run) == StatisticsMatch.GameStats(g, start, r, ms', game).sides {
      AgreeOnlyIf(g, r, o, ms, ms', game, start, f, run, ms0, moves);
    }
    if NoneDiffers(g, r, ms0, moves) {
      EqualIf(g, r, o, ms0, moves, StatisticsMatch.Opened(start, game[0]));
    }
  }
}
