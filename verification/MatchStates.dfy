/** The records of a game, the match state, and what a record does to it
    (gnubg/play.c, lines 154 to 191, 217 to 368 and 4077 to 4100). */
module MatchStates {
  import opened Common
  import Combinatorics

  type Player = p: int | 0 <= p < 2

  // ----- Records

  datatype LuckType = LUCK_VERYBAD | LUCK_BAD | LUCK_NONE | LUCK_GOOD | LUCK_VERYGOOD

  /** The analysis of a cube decision: the cubeful equities without a double and
      after a take. */
  datatype CubeDecision = CubeDecision(evaluated: bool, rNoDouble: real, rTake: real)

  datatype Candidate = Candidate(key: int, rScore: real)

  /** A record, with its analysis; an unknown luck is None. */
  datatype Record =
    | GameInfo(fWinner: Option<Player>, nMatch: int, nPoints: int, rGain: real, nAutoDoubles: nat)
    | Normal(fPlayer: Player, cube: CubeDecision, rLuck: Option<real>, lt: LuckType,
             fMoved: bool, fChequer: bool, key: int, ml: seq<Candidate>)
    | Double(fPlayer: Player, cube: CubeDecision)
    | Take(fPlayer: Player, cube: CubeDecision)
    | Drop(fPlayer: Player, cube: CubeDecision)
    | Resign(fPlayer: Player, nResigned: int)
    | SetDice(fPlayer: Player, rLuck: Option<real>, lt: LuckType)
    | SetBoard(fPlayer: Player, position: int)
    | SetCubeVal(fPlayer: Player, nCubeSet: int)
    | SetCubePos(fPlayer: Player, fOwnerSet: int)

  /** The list of a game: the record that opens it, and no other such record. */
  predicate IsGame(game: seq<Record>) {
    game != [] && game[0].GameInfo? && NoGameInfo(game[1..])
  }

  predicate NoGameInfo(game: seq<Record>) {
    forall k :: 0 <= k < |game| ==> !game[k].GameInfo?
  }

  // ----- The match state

  const MAX_CUBE: int := 4096

  /** A match state; E stands for the rest of it, with the score. */
  datatype MatchState<E> = MatchState(fDoubled: bool, fMove: int, fTurn: int, nCube: int, fCubeOwner: int,
                                      anBoard: Board, rest: E)
  {
    /** The kind of double that would come next. */
    function Kind(): DoubleKind {
      DoubleType(fDoubled, fMove, fTurn)
    }

    /** The player is on move, with the board turned to that side. */
    function TurnedTo(p: Player): MatchState<E> {
      if fMove != p then this.(fMove := p, anBoard := anBoard.Swapped()) else this
    }
  }

  datatype DoubleKind = DT_NORMAL | DT_BEAVER | DT_RACCOON

  function DoubleType(fDoubled: bool, fMove: int, fTurn: int): DoubleKind {
    if !fDoubled then DT_NORMAL else if fTurn != fMove then DT_BEAVER else DT_RACCOON
  }

  datatype Equities = Equities(optimal: real, noDouble: real, take: real, drop: real)

  /** The stakes at a match state, and what DoubleType looks at. */
  datatype Stakes = Stakes(nMatchTo: int, nCube: int, rMwcWin: real, rMwcLose: real,
                           fDoubled: bool, fMove: int, fTurn: int)

  /** The operations on match states; cubeInfo gives the stakes. */
  datatype Rules<!E> = Rules(fixMatchState: (MatchState<E>, Record) -> MatchState<E>,
                             applyMoveRecord: (MatchState<E>, Record) -> MatchState<E>,
                             cubeInfo: MatchState<E> -> Stakes,
                             findCubeDecision: (Record, MatchState<E>) -> Equities)

  // ----- The two walks over a game

  /** The analysis, and the statistics of a stored game. */
  datatype Walk = Analysis | Stored

  /** The records whose player a walk has the board turned to. */
  predicate Turns(walk: Walk, pmr: Record) {
    pmr.Normal? || (if walk.Analysis? then pmr.Resign? || pmr.SetDice? else pmr.Double?)
  }

  /** The state that a record is seen in. */
  function Seen<E>(r: Rules<E>, walk: Walk, ms: MatchState<E>, pmr: Record): MatchState<E> {
    var fixed := r.fixMatchState(ms, pmr);
    if Turns(walk, pmr) then fixed.TurnedTo(pmr.fPlayer) else fixed
  }

  function Advance<E>(r: Rules<E>, walk: Walk, ms: MatchState<E>, pmr: Record): MatchState<E> {
    r.applyMoveRecord(Seen(r, walk, ms, pmr), pmr)
  }

  /** The state before record k. */
  function StateAt<E>(r: Rules<E>, walk: Walk, ms0: MatchState<E>, game: seq<Record>, k: nat): MatchState<E>
    requires k <= |game|
  {
    if k == 0 then ms0 else Advance(r, walk, StateAt(r, walk, ms0, game, k - 1), game[k - 1])
  }

  // ----- What a record does to the state

  /** What is not part of this model: what a record does to the board and to the
      rest of the state. */
  datatype Operations<!E> = Operations(initBoard: Record -> Board,
                                       newGame: Record -> E,
                                       positionFromKey: Record -> Board,
                                       applyMove: (Board, Record) -> Board,
                                       afterMove: (E, Record, int, int, Board) -> E,
                                       afterOther: (E, Record, bool, int) -> E)

  /** The exclamation mark of C. */
  function Not(f: int): int {
    if f == 0 then 1 else 0
  }

  /** FixMatchState: a record before a move or a double is missing when the other
      player is on turn. */
  function Fixed<E>(ms: MatchState<E>, pmr: Record): MatchState<E> {
    if (pmr.Normal? || pmr.Double?) && ms.fTurn != pmr.fPlayer
    then ms.(anBoard := ms.anBoard.Swapped(), fMove := pmr.fPlayer, fTurn := pmr.fPlayer)
    else ms
  }

  function Played<E>(o: Operations<E>, ms: MatchState<E>, pmr: Record): MatchState<E>
    requires pmr.Normal?
  {
    var turned := if ms.fMove == -1 then ms else ms.TurnedTo(pmr.fPlayer);
    var board := o.applyMove(turned.anBoard, pmr).Swapped();
    turned.(fDoubled := false, fMove := Not(pmr.fPlayer), fTurn := Not(pmr.fPlayer), anBoard := board,
            rest := o.afterMove(ms.rest, pmr, ms.nCube, ms.fCubeOwner, board))
  }

  function Doubled<E>(ms: MatchState<E>, p: Player): MatchState<E> {
    var t := if ms.fMove < 0 then ms.(fMove := p) else ms;
    if t.nCube >= MAX_CUBE then t
    else if t.fDoubled then t.(nCube := 2 * t.nCube, fCubeOwner := Not(t.fMove), fTurn := Not(p))
    else t.(fDoubled := true, fTurn := Not(p))
  }

  function Taken<E>(ms: MatchState<E>): MatchState<E> {
    if !ms.fDoubled then ms
    else ms.(nCube := 2 * ms.nCube, fDoubled := false, fCubeOwner := Not(ms.fMove), fTurn := ms.fMove)
  }

  function OnMove<E>(ms: MatchState<E>): MatchState<E> {
    if ms.fMove < 0 then ms.(fMove := 0) else ms
  }

  /** What a record does to the turns, the cube and the board. */
  function AfterRecord<E>(o: Operations<E>, ms: MatchState<E>, pmr: Record): MatchState<E>
    requires !pmr.GameInfo? && !pmr.Normal?
  {
    match pmr {
      case Double(p, _) => Doubled(ms, p)
      case Take(_, _) => Taken(ms)
      case Drop(_, _) => ms.(fDoubled := false)
      case Resign(_, _) => ms
      case SetDice(p, _, _) => ms.TurnedTo(p).(fTurn := p, fDoubled := false)
      case SetBoard(_, _) =>
        var t := if ms.fMove < 0 then ms.(fMove := 0, fTurn := 0) else ms;
        var board := o.positionFromKey(pmr);
        t.(anBoard := if t.fMove != 0 then board.Swapped() else board)
      case SetCubeVal(_, n) => OnMove(ms).(nCube := n, fDoubled := false, fTurn := OnMove(ms).fMove)
      case SetCubePos(_, owner) => OnMove(ms).(fCubeOwner := owner, fDoubled := false, fTurn := OnMove(ms).fMove)
    }
  }

  /** ApplyMoveRecord. */
  function Applied<E>(o: Operations<E>, ms: MatchState<E>, pmr: Record): MatchState<E> {
    if pmr.GameInfo? then
      MatchState(false, -1, -1, Combinatorics.Power2(pmr.nAutoDoubles), -1, o.initBoard(pmr), o.newGame(pmr))
    else if pmr.Normal? then Played(o, ms, pmr)
    else AfterRecord(o, ms, pmr).(rest := o.afterOther(ms.rest, pmr, ms.fDoubled, ms.nCube))
  }

  function Fixing<E>(): (MatchState<E>, Record) -> MatchState<E> {
    (ms, pmr) => Fixed(ms, pmr)
  }

  function Applying<E>(o: Operations<E>): (MatchState<E>, Record) -> MatchState<E> {
    (ms, pmr) => Applied(o, ms, pmr)
  }

  /** The operations of the program, made of those of o; a proof that needs to look
      into them says EngineIs. */
  ghost predicate Engine<E>(r: Rules<E>, o: Operations<E>) {
    forall k {:trigger Looked(k)} :: Looked(k) ==> r.fixMatchState == Fixing() && r.applyMoveRecord == Applying(o)
  }

  predicate Looked(k: nat) {
    k == 0
  }

  lemma EngineIs<E>(r: Rules<E>, o: Operations<E>)
    requires Engine(r, o)
    ensures r.fixMatchState == Fixing() && r.applyMoveRecord == Applying(o)
  {
    assert Looked(0);
  }

  predicate Started<E>(ms: MatchState<E>) {
    !ms.fDoubled && ms.fMove == -1 && ms.fTurn == -1
  }

  /** A game starts in the same state for both walks, with no double pending and
      nobody on move. */
  lemma GameStarts<E>(r: Rules<E>, o: Operations<E>, walk: Walk, other: Walk, ms: MatchState<E>, ms': MatchState<E>,
                      pmr: Record)
    requires Engine(r, o) && pmr.GameInfo?
    ensures Advance(r, walk, ms, pmr) == Advance(r, other, ms', pmr) && Started(Advance(r, walk, ms, pmr))
  {
    EngineIs(r, o);
  }

  /** Whether a double is pending, and the cube, do not depend on the walk. */
  lemma {:induction false} CubeAlike<E>(r: Rules<E>, o: Operations<E>, walk: Walk, other: Walk,
                                        ms: MatchState<E>, game: seq<Record>, k: nat)
    requires Engine(r, o) && k <= |game|
    ensures var a, b := StateAt(r, walk, ms, game, k), StateAt(r, other, ms, game, k);
            a.fDoubled == b.fDoubled && a.nCube == b.nCube
  {
    if k > 0 {
      CubeAlike(r, o, walk, other, ms, game, k - 1);
      CubeAlikeNext(r, o, walk, other, StateAt(r, walk, ms, game, k - 1), StateAt(r, other, ms, game, k - 1), game[k - 1]);
    }
  }

  lemma CubeAlikeNext<E>(r: Rules<E>, o: Operations<E>, walk: Walk, other: Walk, a: MatchState<E>, b: MatchState<E>,
                         pmr: Record)
    requires Engine(r, o) && a.fDoubled == b.fDoubled && a.nCube == b.nCube
    ensures var c, d := Advance(r, walk, a, pmr), Advance(r, other, b, pmr);
            c.fDoubled == d.fDoubled && c.nCube == d.nCube
  {
    EngineIs(r, o);
    var c, d := Seen(r, walk, a, pmr), Seen(r, other, b, pmr);
    assert c.fDoubled == d.fDoubled && c.nCube == d.nCube;
  }

  // ----- Doubles in a row

  /** The player of double number k, when the players take turns from p on. */
  function Doubler(p: Player, k: nat): Player {
    if k % 2 == 0 then p else 1 - p
  }

  /** Record k is double number k of a row that starts with p, and the cube can still
      be turned. */
  predicate InRow<E>(r: Rules<E>, ms: MatchState<E>, game: seq<Record>, p: Player, k: nat)
    requires k < |game|
  {
    game[k].Double? && game[k].fPlayer == Doubler(p, k) && StateAt(r, Stored, ms, game, k).nCube < MAX_CUBE
  }

  /** The game starts with n doubles by turns, from p on, and nothing is pending
      before them. */
  ghost predicate DoublesInARow<E>(r: Rules<E>, ms: MatchState<E>, game: seq<Record>, p: Player, n: nat) {
    && n <= |game| && !ms.fDoubled && ms.fMove == ms.fTurn
    && forall k {:trigger InRow(r, ms, game, p, k)} :: 0 <= k < n ==> InRow(r, ms, game, p, k)
  }

  /** The state that the statistics of a stored game have where the analysis has
      this one, with the other player on move. */
  function OtherSide<E>(ms: MatchState<E>, p: Player): MatchState<E> {
    ms.(fMove := 1 - p, fCubeOwner := p, anBoard := ms.anBoard.Swapped())
  }

  /** A double when none is pending. */
  lemma FirstDouble<E>(r: Rules<E>, o: Operations<E>, walk: Walk, ms: MatchState<E>, pmr: Record)
    requires Engine(r, o) && pmr.Double? && !ms.fDoubled && ms.fMove == ms.fTurn && ms.nCube < MAX_CUBE
    ensures var t := Advance(r, walk, ms, pmr);
            t.fDoubled && t.fMove == pmr.fPlayer && t.fTurn == 1 - pmr.fPlayer
    ensures Advance(r, walk, ms, pmr) == Advance(r, Stored, ms, pmr)
  {
    EngineIs(r, o);
  }

  /** A double when one is pending, by the player on turn, who is not on move. */
  lemma Beaver<E>(r: Rules<E>, o: Operations<E>, ms: MatchState<E>, pmr: Record)
    requires Engine(r, o) && pmr.Double? && ms.fDoubled && ms.nCube < MAX_CUBE
    requires ms.fTurn == pmr.fPlayer && ms.fMove == 1 - pmr.fPlayer
    ensures var a, s := Advance(r, Analysis, ms, pmr), Advance(r, Stored, ms, pmr);
            && a.fDoubled && a.fMove == a.fTurn == ms.fMove && a.fCubeOwner == 1 - ms.fMove
            && s == OtherSide(a, 1 - pmr.fPlayer)
  {
    EngineIs(r, o);
  }

  /** A double by the player on turn, whom the analysis takes to be on move. */
  lemma Raccoon<E>(r: Rules<E>, o: Operations<E>, ms: MatchState<E>, pmr: Record)
    requires Engine(r, o) && pmr.Double? && ms.fDoubled && ms.nCube < MAX_CUBE
    requires ms.fMove == ms.fTurn == pmr.fPlayer
    ensures var a, s := Advance(r, Analysis, ms, pmr), Advance(r, Stored, OtherSide(ms, pmr.fPlayer), pmr);
            && a.fDoubled && a.fMove == ms.fMove && a.fTurn == 1 - pmr.fPlayer && a.fCubeOwner == 1 - ms.fMove
            && s == a
  {
    EngineIs(r, o);
    var t := OtherSide(ms, pmr.fPlayer);
    assert Seen(r, Stored, t, pmr) == t.TurnedTo(pmr.fPlayer);
    assert ms.anBoard.Swapped().Swapped() == ms.anBoard;
  }

  /** The states of the two walks after n doubles in a row, from p on. */
  ghost predicate AfterRow<E>(a: MatchState<E>, s: MatchState<E>, p: Player, n: nat) {
    && a.fDoubled && a.fMove == p && a.fTurn == Doubler(p, n) && (n > 1 ==> a.fCubeOwner == 1 - p)
    && s == if n % 2 == 1 then a else OtherSide(a, p)
  }

  lemma AfterNext<E>(r: Rules<E>, o: Operations<E>, a: MatchState<E>, s: MatchState<E>,
                     pmr: Record, p: Player, n: nat)
    requires Engine(r, o) && n > 0 && AfterRow(a, s, p, n)
    requires pmr.Double? && pmr.fPlayer == Doubler(p, n) && a.nCube < MAX_CUBE
    ensures AfterRow(Advance(r, Analysis, a, pmr), Advance(r, Stored, s, pmr), p, n + 1)
  {
    if n % 2 == 1 {
      Beaver(r, o, a, pmr);
    } else {
      Raccoon(r, o, a, pmr);
    }
  }

  /** For the analysis the player who doubled first stays on move. The statistics of
      a stored game are in the same state after an odd number of doubles; after an
      even number they take the other player to be on move, and after the answer to
      own the cube. */
  lemma {:induction false} AfterDoubles<E>(r: Rules<E>, o: Operations<E>, ms: MatchState<E>,
                                           game: seq<Record>, p: Player, n: nat)
    requires Engine(r, o) && n > 0 && DoublesInARow(r, ms, game, p, n)
    ensures AfterRow(StateAt(r, Analysis, ms, game, n), StateAt(r, Stored, ms, game, n), p, n)
  {
    var k := n - 1;
    var a, s := StateAt(r, Analysis, ms, game, k), StateAt(r, Stored, ms, game, k);
    assert InRow(r, ms, game, p, k);
    CubeAlike(r, o, Analysis, Stored, ms, game, k);
    if k == 0 {
      FirstDouble(r, o, Analysis, ms, game[k]);
    } else {
      AfterDoubles(r, o, ms, game, p, k);
      AfterNext(r, o, a, s, game[k], p, k);
    }
  }

  lemma AfterDoublesIs<E>(r: Rules<E>, o: Operations<E>, walk: Walk, ms: MatchState<E>, game: seq<Record>,
                        p: Player, n: nat)
    requires Engine(r, o) && n > 0 && DoublesInARow(r, ms, game, p, n)
    ensures var t := StateAt(r, walk, ms, game, n);
            t.fDoubled && t.fTurn == Doubler(p, n) && t.fMove == if walk.Analysis? then p else Doubler(p, n - 1)
  {
    AfterDoubles(r, o, ms, game, p, n);
  }

  /** What the kind of double says when an answer to n doubles is looked at: for
      the analysis a raccoon exactly after an even number of doubles, for the
      statistics of a stored game never. */
  lemma KindAtAnswer<E>(r: Rules<E>, o: Operations<E>, walk: Walk, ms: MatchState<E>, game: seq<Record>,
                        p: Player, n: nat)
    requires Engine(r, o) && n > 0 && DoublesInARow(r, ms, game, p, n)
    ensures StateAt(r, walk, ms, game, n).Kind() == if walk.Analysis? && n % 2 == 0 then DT_RACCOON else DT_BEAVER
  {
    AfterDoublesIs(r, o, walk, ms, game, p, n);
  }

  /** A take after an even number of doubles leaves the two walks with different
      owners of the cube. */
  lemma OwnersDiffer<E>(r: Rules<E>, o: Operations<E>, ms: MatchState<E>, game: seq<Record>,
                        p: Player, n: nat)
    requires Engine(r, o) && n > 0 && n % 2 == 0 && DoublesInARow(r, ms, game, p, n) && n < |game| && game[n].Take?
    ensures StateAt(r, Analysis, ms, game, n + 1).fCubeOwner == 1 - p
    ensures StateAt(r, Stored, ms, game, n + 1).fCubeOwner == p
  {
    EngineIs(r, o);
    AfterDoubles(r, o, ms, game, p, n);
  }
}
