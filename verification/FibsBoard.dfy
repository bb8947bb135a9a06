/** Writing a position as the fields of a FIBS board, and reading it back from
    either side (gnubg/drawboard.c, lines 901 to 1134). */
module FibsBoard {
  import opened Common
  import opened FibsText

  const MAXSCORE: int := 64
  const MAX_NAME_LEN: nat := 32

  /** The players share no point. */
  ghost predicate Disjoint(b: Board) {
    forall i :: 0 <= i < 24 ==> b.opp[23 - i] == 0 || b.player[i] == 0
  }

  // ----- The fields of a board record

  const FIELDS: nat := 50

  /** The numbers of a board record, in the order of the record. */
  type Fields = f: seq<int> | |f| == FIELDS ghost witness seq(FIELDS, _ => 0)

  function MatchTo(f: Fields): int { f[0] }
  function Score(f: Fields): int { f[1] }
  function ScoreOpp(f: Fields): int { f[2] }
  function FibsPoint(f: Fields, k: nat): int requires k < 26 { f[3 + k] }
  function Turn(f: Fields): int { f[29] }
  function Die(f: Fields, k: nat): int requires k < 2 { f[30 + k] }
  function OppDie(f: Fields, k: nat): int requires k < 2 { f[32 + k] }
  function Cube(f: Fields): int { f[34] }
  function CanDouble(f: Fields): int { f[35] }
  function OppCanDouble(f: Fields): int { f[36] }
  function Doubled(f: Fields): int { f[37] }
  function Color(f: Fields): int { f[38] }
  function Direction(f: Fields): int { f[39] }
  function NonCrawford(f: Fields): int { f[40] }
  function PostCrawford(f: Fields): int { f[41] }

  // ----- Writing

  /** What FIBSBoard is told besides the board and the names. */
  datatype State = State(fRoll: bool, nMatchTo: int, nScore: int, nOpponent: int, dice: (int, int),
                         nCube: int, fCubeOwner: int, fDoubled: bool, fTurn: int, fCrawford: bool, nChequers: nat)

  function Minus(n: int): int {
    -n
  }

  function Total(s: seq<nat>): nat {
    if s == [] then 0 else s[0] + Total(s[1..])
  }

  lemma {:induction false} TotalSnoc(s: seq<nat>, v: nat)
    ensures Total(s + [v]) == Total(s) + v
  {
    if s == [] {
      assert s + [v] == [v] && [v][1..] == [];
    } else {
      assert (s + [v])[1..] == s[1..] + [v];
      TotalSnoc(s[1..], v);
    }
  }

  /** A point as FIBS numbers it: the opponent's chequers are negative. */
  function Written(b: Board, i: nat): int
    requires i < 24
  {
    if b.opp[23 - i] > 0 then Minus(b.opp[23 - i]) else b.player[i]
  }

  ghost predicate WritesBoard(f: Fields, b: Board) {
    && FibsPoint(f, 0) == Minus(b.opp[24]) && FibsPoint(f, 25) == b.player[24]
    && forall i: nat :: i < 24 ==> FibsPoint(f, i + 1) == Written(b, i)
  }

  ghost predicate WritesState(f: Fields, st: State) {
    && MatchTo(f) == st.nMatchTo && Score(f) == st.nScore && ScoreOpp(f) == st.nOpponent
    && Turn(f) == (if st.fRoll then 1 else -1)
    && Die(f, 0) == OppDie(f, 0) == st.dice.0 && Die(f, 1) == OppDie(f, 1) == st.dice.1
    && Color(f) == 1 && Direction(f) == -1
    && NonCrawford(f) == 0 && PostCrawford(f) == 25
  }

  ghost predicate WritesCube(f: Fields, st: State) {
    && Cube(f) == (if st.fTurn < 0 then 1 else st.nCube)
    && CanDouble(f) == FlagOf(st.fTurn < 0 || st.fCubeOwner != 0)
    && OppCanDouble(f) == FlagOf(st.fTurn < 0 || st.fCubeOwner != 1)
    && Doubled(f) == (if st.fDoubled then (if st.fTurn != 0 then -1 else 1) else 0)
  }

  /** The fields as a record of their meaning. */
  ghost predicate Writes(f: Fields, b: Board, st: State) {
    WritesBoard(f, b) && WritesState(f, st) && WritesCube(f, st)
  }

  /** The fields that the reader skips. */
  ghost predicate WritesRest(f: Fields, b: Board, st: State) {
    var all := if st.nChequers > 0 then st.nChequers else 15;
    && f[42] == all - Total(b.player) && f[43] == all - Total(b.opp)
    && f[44] == f[45] == f[46] == f[47] == f[49] == 0 && f[48] == FlagOf(st.fCrawford)
  }

  /** The position determines every number of the record, and so its text. */
  lemma FieldsDetermined(f: Fields, f': Fields, b: Board, st: State)
    requires Writes(f, b, st) && WritesRest(f, b, st) && Writes(f', b, st) && WritesRest(f', b, st)
    ensures f == f'
  {
    forall k | 0 <= k < FIELDS
      ensures f[k] == f'[k]
    {
      if 4 <= k < 28 {
        assert FibsPoint(f, k - 4 + 1) == Written(b, k - 4) == FibsPoint(f', k - 4 + 1);
      } else {
        NumberOfField(f, f', b, st, k);
      }
    }
  }

  lemma NumberOfField(f: Fields, f': Fields, b: Board, st: State, k: nat)
    requires Writes(f, b, st) && WritesRest(f, b, st) && Writes(f', b, st) && WritesRest(f', b, st)
    requires k < 4 || 28 <= k < FIELDS
    ensures f[k] == f'[k]
  {
    assert FibsPoint(f, 0) == f[3] && FibsPoint(f, 25) == f[28];
    assert FibsPoint(f', 0) == f'[3] && FibsPoint(f', 25) == f'[28];
  }

  method WritePoints(b: Board) returns (points: seq<int>)
    ensures |points| == 24 && forall i: nat :: i < 24 ==> points[i] == Written(b, i)
  {
    points := [];
    var i := 0;
    while i < 24
      invariant 0 <= i <= 24 && |points| == i
      invariant forall k: nat :: k < i ==> points[k] == Written(b, k)
    {
      var point := b.opp[23 - i];
      points := points + [if point > 0 then Minus(point) else b.player[i]];
      i := i + 1;
    }
  }

  /** The chequers that each side has borne off. */
  method CountOff(b: Board, nChequers: nat) returns (off0: int, off1: int)
    ensures var all := if nChequers > 0 then nChequers else 15;
            off0 == all - Total(b.opp) && off1 == all - Total(b.player)
  {
    var all := if nChequers > 0 then nChequers else 15;
    off0, off1 := all, all;
    var i := 0;
    while i < 25
      invariant 0 <= i <= 25
      invariant off0 == all - Total(b.opp[..i]) && off1 == all - Total(b.player[..i])
    {
      assert b.opp[..i + 1] == b.opp[..i] + [b.opp[i]] && b.player[..i + 1] == b.player[..i] + [b.player[i]];
      TotalSnoc(b.opp[..i], b.opp[i]);
      TotalSnoc(b.player[..i], b.player[i]);
      off0 := off0 - b.opp[i];
      off1 := off1 - b.player[i];
      i := i + 1;
    }
    assert b.opp[..25] == b.opp && b.player[..25] == b.player;
  }

  /** The record, and its numbers in order. */
  method FIBSBoard(b: Board, szPlayer: string, szOpp: string, st: State) returns (sz: string, f: Fields)
    ensures sz == RecordText("board", szPlayer, szOpp, f)
    ensures Writes(f, b, st)
    ensures WritesRest(f, b, st)
  {
    f := Numbers(b, st);
    sz := WriteRecord("board", szPlayer, szOpp, f);
  }

  method Numbers(b: Board, st: State) returns (f: Fields)
    ensures Writes(f, b, st)
    ensures WritesRest(f, b, st)
  {
    var points := WritePoints(b);
    var off0, off1 := CountOff(b, st.nChequers);
    var head := [st.nMatchTo, st.nScore, st.nOpponent, Minus(b.opp[24])];
    var middle := [b.player[24], if st.fRoll then 1 else -1, st.dice.0, st.dice.1, st.dice.0, st.dice.1];
    var cube := [if st.fTurn < 0 then 1 else st.nCube,
                 FlagOf(st.fTurn < 0 || st.fCubeOwner != 0), FlagOf(st.fTurn < 0 || st.fCubeOwner != 1),
                 if st.fDoubled then (if st.fTurn != 0 then -1 else 1) else 0];
    var tail := [1, -1, 0, 25, off1, off0, 0, 0, 0, 0, FlagOf(st.fCrawford), 0];
    f := Assemble(head, points, middle, cube, tail);
    assert WritesRest(f, b, st) by {
      assert f[42] == tail[4] && f[43] == tail[5] && f[44] == tail[6] && f[45] == tail[7];
      assert f[46] == tail[8] && f[47] == tail[9] && f[48] == tail[10] && f[49] == tail[11];
    }
    assert WritesCube(f, st) by {
      assert f[34] == cube[0] && f[35] == cube[1] && f[36] == cube[2] && f[37] == cube[3];
    }
    assert WritesState(f, st) by {
      assert f[29] == middle[1] && f[30] == middle[2] && f[31] == middle[3];
      assert f[32] == middle[4] && f[33] == middle[5];
      assert f[38] == tail[0] && f[39] == tail[1] && f[40] == tail[2] && f[41] == tail[3];
    }
  }

  function Assemble(head: seq<int>, points: seq<int>, middle: seq<int>, cube: seq<int>, tail: seq<int>): (f: seq<int>)
    requires |head| == 4 && |points| == 24 && |middle| == 6 && |cube| == 4 && |tail| == 12
    ensures |f| == FIELDS
    ensures forall k :: 0 <= k < 4 ==> f[k] == head[k]
    ensures forall k: nat :: k < 24 ==> f[3 + (k + 1)] == points[k]
    ensures forall k :: 28 <= k < 34 ==> f[k] == middle[k - 28]
    ensures forall k :: 34 <= k < 38 ==> f[k] == cube[k - 34]
    ensures forall k :: 38 <= k < 50 ==> f[k] == tail[k - 38]
  {
    head + points + middle + cube + tail
  }

  // ----- Reading

  /** What ProcessFIBSBoardInfo fills in. */
  datatype Processed = Processed(szPlayer: string, szOpp: string, nMatchTo: int, nScore: int, nScoreOpp: int,
                                 dice: (int, int), nCube: int, fCubeOwner: int, fDoubled: int, fCrawford: int,
                                 board: Board)

  function Abs(n: int): nat {
    if n < 0 then -n else n
  }

  /** A name as it fits the buffer. */
  function Truncated(name: string): string {
    if |name| < MAX_NAME_LEN then name else name[..MAX_NAME_LEN - 1]
  }

  /** 9999 stands for an unlimited match. */
  function MatchLength(f: Fields): int {
    if MatchTo(f) == 9999 then 0 else MatchTo(f)
  }

  /** A score, once the match is no longer than the tables. */
  function Clamped(match0: int, score: int): int {
    if match0 <= MAXSCORE then score
    else if match0 - score > MAXSCORE then 0
    else score - (match0 - MAXSCORE)
  }

  function ClampedMatch(match0: int): int {
    if match0 > MAXSCORE then MAXSCORE else match0
  }

  /** The flag after the check for a cube that was turned. */
  function CubeTurned(f: Fields): int {
    if Doubled(f) == 0 && CanDouble(f) == 0 && OppCanDouble(f) == 0 then 1 else Doubled(f)
  }

  /** The player of the record is not the one on turn. */
  predicate OppOnTurn(f: Fields) {
    (Turn(f) < 0 && Color(f) > 0) || (Turn(f) > 0 && Color(f) < 0)
  }

  /** The source tests the sign of the product. */
  lemma OppOnTurnIsProduct(f: Fields)
    ensures OppOnTurn(f) <==> Turn(f) * Color(f) < 0
  {
    var t, c := Turn(f), Color(f);
    if t > 0 && c > 0 {
      assert t * c > 0;
    } else if t < 0 && c < 0 {
      assert t * c == (-t) * (-c) > 0;
    } else if t > 0 && c < 0 {
      assert t * (-c) > 0 && t * c == -(t * (-c));
    } else if t < 0 && c > 0 {
      assert (-t) * c > 0 && t * c == -((-t) * c);
    }
  }

  /** The direction as seen by the player on turn. */
  function MoverDirection(f: Fields): int {
    if OppOnTurn(f) then -Direction(f) else Direction(f)
  }

  predicate MustSwap(f: Fields) {
    (CubeTurned(f) != 0) != OppOnTurn(f)
  }

  predicate Accepted(f: Fields) {
    && (MatchLength(f) == 0 || (MatchLength(f) > Score(f) && MatchLength(f) > ScoreOpp(f)))
    && Turn(f) != 0 && Color(f) != 0 && Direction(f) != 0
  }

  /** The point i, from the mover's side, as a number that is negative for the
      mover's chequers. */
  function ReadPoint(f: Fields, i: nat): int
    requires i < 24
  {
    var n := -(if MoverDirection(f) < 0 then FibsPoint(f, i + 1) else FibsPoint(f, 24 - i));
    if Turn(f) > 0 then n else -n
  }

  /** The bar of the mover, or of the other side. */
  function ReadBar(f: Fields, mover: bool): nat {
    Abs(FibsPoint(f, if (MoverDirection(f) < 0) == mover then 25 else 0))
  }

  /** The board from the mover's side, before the swap for a turned cube. */
  function MoverBoard(f: Fields): Board {
    Board(seq(25, i requires 0 <= i < 25 =>
            if i == 24 then ReadBar(f, false) else if ReadPoint(f, 23 - i) > 0 then ReadPoint(f, 23 - i) else 0),
          seq(25, i requires 0 <= i < 25 =>
            if i == 24 then ReadBar(f, true) else if ReadPoint(f, i) < 0 then Abs(ReadPoint(f, i)) else 0))
  }

  lemma BarsOfMover(f: Fields)
    ensures var d := MoverDirection(f) < 0;
            && MoverBoard(f).opp[24] == Abs(-FibsPoint(f, if d then 0 else 25))
            && MoverBoard(f).player[24] == Abs(-FibsPoint(f, if d then 25 else 0))
  {
    assert MoverBoard(f).opp[24] == ReadBar(f, false) && MoverBoard(f).player[24] == ReadBar(f, true);
  }

  lemma SameSide(s: seq<nat>, t: Side)
    requires |s| == 25
    requires forall k: nat :: k < 25 ==> s[k] == t[k]
    ensures s == t
  {
  }

  function CrawfordFlag(f: Fields, match1: int, score: int, scoreOpp: int): int {
    if match1 != 0 && (match1 - score == 1 || match1 - scoreOpp == 1) && NonCrawford(f) == 0 && PostCrawford(f) == 0
    then 1 else 0
  }

  function ReadDice(f: Fields): (int, int) {
    if Die(f, 0) == 0 && OppDie(f, 0) != 0 then (OppDie(f, 0), OppDie(f, 1)) else (Die(f, 0), Die(f, 1))
  }

  function ReadBoards(f: Fields): Board {
    if CubeTurned(f) != 0 then MoverBoard(f).Swapped() else MoverBoard(f)
  }

  /** What reading the record gives. */
  function FibsProcess(name: string, opp: string, f: Fields): Processed
    requires Accepted(f)
  {
    var swap := MustSwap(f);
    var match1 := ClampedMatch(MatchLength(f));
    var s, so := Clamped(MatchLength(f), Score(f)), Clamped(MatchLength(f), ScoreOpp(f));
    var score, scoreOpp := if swap then so else s, if swap then s else so;
    var can, oppCan := if swap then OppCanDouble(f) else CanDouble(f), if swap then CanDouble(f) else OppCanDouble(f);
    Processed(Truncated(if swap then opp else name), Truncated(if swap then name else opp),
              match1, score, scoreOpp, ReadDice(f), Cube(f), if can != oppCan then can else -1, CubeTurned(f),
              CrawfordFlag(f, match1, score, scoreOpp), ReadBoards(f))
  }

  // ----- The reader

  /** What the reader is given; it exchanges the names in it. */
  class FIBSBoardInfo {
    const f: Fields
    var gsName: string
    var gsOpp: string

    constructor (f: Fields, gsName: string, gsOpp: string)
      ensures this.f == f && this.gsName == gsName && this.gsOpp == gsOpp
    {
      this.f, this.gsName, this.gsOpp := f, gsName, gsOpp;
    }
  }

  /** The result of the reader; the fields stay as they are after a failure that
      comes before they are set. */
  class ProcessedFIBSBoard {
    var szPlayer: string
    var szOpp: string
    var nMatchTo: int
    var nScore: int
    var nScoreOpp: int
    var dice: (int, int)
    var nCube: int
    var fCubeOwner: int
    var fDoubled: int
    var fCrawford: int
    var nResignation: int
    const anBoard0: array<nat>
    const anBoard1: array<nat>

    ghost predicate Valid()
      reads this
    {
      anBoard0.Length == 25 && anBoard1.Length == 25 && anBoard0 != anBoard1
    }

    ghost function Value(): Processed
      requires Valid()
      reads this, anBoard0, anBoard1
    {
      Processed(szPlayer, szOpp, nMatchTo, nScore, nScoreOpp, dice, nCube, fCubeOwner, fDoubled, fCrawford,
                Board(anBoard0[..], anBoard1[..]))
    }

    constructor ()
      ensures Valid() && fresh(anBoard0) && fresh(anBoard1)
    {
      szPlayer, szOpp, nMatchTo, nScore, nScoreOpp := "", "", 0, 0, 0;
      dice, nCube, fCubeOwner, fDoubled, fCrawford, nResignation := (0, 0), 0, 0, 0, 0, 0;
      anBoard0 := new nat[25](_ => 0);
      anBoard1 := new nat[25](_ => 0);
    }

    /** The loop over the points and the two bars, for a positive or a negative
        direction. */
    method ReadBoard(f: Fields, dir: int)
      requires Valid() && Accepted(f) && dir == MoverDirection(f)
      modifies anBoard0, anBoard1
      ensures Board(anBoard0[..], anBoard1[..]) == MoverBoard(f)
    {
      var color := if Turn(f) > 0 then 1 else -1;
      var i := 0;
      while i < 24
        invariant 0 <= i <= 24
        invariant forall k: nat :: k < i ==> anBoard1[k] == MoverBoard(f).player[k]
        invariant forall k: nat :: 24 - i <= k < 24 ==> anBoard0[k] == MoverBoard(f).opp[k]
      {
        var n := -(if dir < 0 then FibsPoint(f, i + 1) else FibsPoint(f, 24 - i));
        if color * n < 0 {
          anBoard1[i] := Abs(n);
          anBoard0[23 - i] := 0;
        } else if color * n > 0 {
          anBoard1[i] := 0;
          anBoard0[23 - i] := Abs(n);
        } else {
          anBoard1[i] := 0;
          anBoard0[23 - i] := 0;
        }
        i := i + 1;
      }
      if dir < 0 {
        anBoard1[24] := Abs(-FibsPoint(f, 25));
        anBoard0[24] := Abs(-FibsPoint(f, 0));
      } else {
        anBoard1[24] := Abs(-FibsPoint(f, 0));
        anBoard0[24] := Abs(-FibsPoint(f, 25));
      }
      ghost var m := MoverBoard(f);
      BarsOfMover(f);
      assert anBoard0[24] == m.opp[24] && anBoard1[24] == m.player[24];
      forall k: nat | k < 25 ensures anBoard0[k] == m.opp[k] && anBoard1[k] == m.player[k] {
        assert k == 24 || k < 24;
      }
      SameSide(anBoard0[..], m.opp);
      SameSide(anBoard1[..], m.player);
    }

    /** SwapSides. */
    method SwapSides()
      requires Valid()
      modifies anBoard0, anBoard1
      ensures anBoard0[..] == old(anBoard1[..]) && anBoard1[..] == old(anBoard0[..])
    {
      var i := 0;
      while i < 25
        invariant 0 <= i <= 25
        invariant forall k :: 0 <= k < i ==> anBoard0[k] == old(anBoard1[k]) && anBoard1[k] == old(anBoard0[k])
        invariant forall k :: i <= k < 25 ==> anBoard0[k] == old(anBoard0[k]) && anBoard1[k] == old(anBoard1[k])
      {
        var n := anBoard0[i];
        anBoard0[i] := anBoard1[i];
        anBoard1[i] := n;
        i := i + 1;
      }
    }

    /** Match length and scores: false when the score is impossible. */
    method ReadScores(f: Fields) returns (ok: bool)
      modifies this`nMatchTo, this`nScore, this`nScoreOpp
      ensures ok <==> MatchLength(f) == 0 || (MatchLength(f) > Score(f) && MatchLength(f) > ScoreOpp(f))
      ensures ok ==> nMatchTo == ClampedMatch(MatchLength(f))
                     && nScore == Clamped(MatchLength(f), Score(f)) && nScoreOpp == Clamped(MatchLength(f), ScoreOpp(f))
    {
      nMatchTo, nScore, nScoreOpp := MatchTo(f), Score(f), ScoreOpp(f);
      if nMatchTo == 9999 {
        nMatchTo := 0;
      }
      if nMatchTo != 0 && (nMatchTo <= nScore || nMatchTo <= nScoreOpp) {
        return false;
      }
      if nMatchTo > MAXSCORE {
        if nMatchTo - nScore > MAXSCORE {
          nScore := 0;
        } else {
          nScore := nScore - (nMatchTo - MAXSCORE);
        }
        if nMatchTo - nScoreOpp > MAXSCORE {
          nScoreOpp := 0;
        } else {
          nScoreOpp := nScoreOpp - (nMatchTo - MAXSCORE);
        }
        nMatchTo := MAXSCORE;
      }
      ok := true;
    }

    /** The rest of the flags, after the sides have been settled. */
    method FinishFlags(f: Fields, can: int, oppCan: int)
      modifies this`dice, this`fCrawford, this`fCubeOwner
      ensures dice == ReadDice(f)
      ensures fCrawford == CrawfordFlag(f, nMatchTo, nScore, nScoreOpp)
      ensures fCubeOwner == if can != oppCan then can else -1
    {
      dice := (Die(f, 0), Die(f, 1));
      if dice.0 == 0 && OppDie(f, 0) != 0 {
        dice := (OppDie(f, 0), OppDie(f, 1));
      }
      if nMatchTo == 0 {
        fCrawford := 0;
      } else if nMatchTo - nScore == 1 || nMatchTo - nScoreOpp == 1 {
        fCrawford := if NonCrawford(f) != 0 || PostCrawford(f) != 0 then 0 else 1;
      } else {
        fCrawford := 0;
      }
      fCubeOwner := if can != oppCan then can else -1;
    }

    /** Whether the cube was turned, and which side is the player. */
    method SettleSides(brdInfo: FIBSBoardInfo) returns (can: int, oppCan: int)
      requires fDoubled == Doubled(brdInfo.f)
      modifies this`fDoubled, this`nScore, this`nScoreOpp, brdInfo
      ensures fDoubled == CubeTurned(brdInfo.f)
      ensures MustSwap(brdInfo.f) ==>
                && nScore == old(nScoreOpp) && nScoreOpp == old(nScore)
                && can == OppCanDouble(brdInfo.f) && oppCan == CanDouble(brdInfo.f)
                && brdInfo.gsName == old(brdInfo.gsOpp) && brdInfo.gsOpp == old(brdInfo.gsName)
      ensures !MustSwap(brdInfo.f) ==>
                && nScore == old(nScore) && nScoreOpp == old(nScoreOpp)
                && can == CanDouble(brdInfo.f) && oppCan == OppCanDouble(brdInfo.f)
                && brdInfo.gsName == old(brdInfo.gsName) && brdInfo.gsOpp == old(brdInfo.gsOpp)
    {
      var f := brdInfo.f;
      OppOnTurnIsProduct(f);
      can, oppCan := CanDouble(f), OppCanDouble(f);
      if fDoubled == 0 && can == 0 && oppCan == 0 {
        fDoubled := 1;
      }
      var fMustSwap := false;
      if fDoubled != 0 {
        fMustSwap := !fMustSwap;
      }
      if Turn(f) * Color(f) < 0 {
        fMustSwap := !fMustSwap;
      }
      assert fMustSwap == MustSwap(f);
      if fMustSwap {
        nScore, nScoreOpp := nScoreOpp, nScore;
        can, oppCan := oppCan, can;
        brdInfo.gsName, brdInfo.gsOpp := brdInfo.gsOpp, brdInfo.gsName;
      }
    }

    /** The board, with the sides exchanged when the cube was turned. */
    method PlaceBoard(f: Fields)
      requires Valid() && Accepted(f) && fDoubled == CubeTurned(f)
      modifies anBoard0, anBoard1
      ensures Board(anBoard0[..], anBoard1[..]) == ReadBoards(f)
    {
      OppOnTurnIsProduct(f);
      ReadBoard(f, if Turn(f) * Color(f) < 0 then -Direction(f) else Direction(f));
      if fDoubled != 0 {
        SwapSides();
      }
    }

    /** ProcessFIBSBoardInfo: false stands for its error return. */
    method Process(brdInfo: FIBSBoardInfo) returns (ok: bool)
      requires Valid()
      modifies this, anBoard0, anBoard1, brdInfo
      ensures ok <==> Accepted(brdInfo.f)
      ensures ok ==> Value() == FibsProcess(old(brdInfo.gsName), old(brdInfo.gsOpp), brdInfo.f)
      ensures nResignation == 0
      ensures if ok && MustSwap(brdInfo.f)
              then brdInfo.gsName == old(brdInfo.gsOpp) && brdInfo.gsOpp == old(brdInfo.gsName)
              else brdInfo.gsName == old(brdInfo.gsName) && brdInfo.gsOpp == old(brdInfo.gsOpp)
    {
      var f := brdInfo.f;
      fDoubled, nCube, nResignation := Doubled(f), Cube(f), 0;
      ok := ReadScores(f);
      if !ok {
        return false;
      }
      if Turn(f) == 0 || Color(f) == 0 || Direction(f) == 0 {
        return false;
      }
      OppOnTurnIsProduct(f);
      var can, oppCan := SettleSides(brdInfo);
      PlaceBoard(f);
      FinishFlags(f, can, oppCan);
      szPlayer, szOpp := Truncated(brdInfo.gsName), Truncated(brdInfo.gsOpp);
    }
  }

  // ----- Writing and reading again

  /** When the reader takes what the writer wrote. */
  lemma WrittenAccepted(f: Fields, b: Board, st: State)
    requires Writes(f, b, st)
    ensures Accepted(f) <==> st.nMatchTo in {0, 9999} || (st.nMatchTo > st.nScore && st.nMatchTo > st.nOpponent)
  {
  }

  lemma WrittenPoint(f: Fields, b: Board, st: State, i: nat)
    requires Writes(f, b, st) && i < 24
    ensures ReadPoint(f, i) == if st.fRoll then Minus(Written(b, i)) else Written(b, 23 - i)
  {
    assert MoverDirection(f) == if st.fRoll then -1 else 1;
    if !st.fRoll {
      assert FibsPoint(f, 23 - i + 1) == Written(b, 23 - i);
    }
  }

  function Oriented(b: Board, swap: bool): Board {
    if swap then b.Swapped() else b
  }

  lemma MoverBoardReadAt(f: Fields, b: Board, st: State, k: nat)
    requires Writes(f, b, st) && Disjoint(b) && k < 25
    ensures var w := Oriented(b, !st.fRoll);
            MoverBoard(f).opp[k] == w.opp[k] && MoverBoard(f).player[k] == w.player[k]
  {
    assert MoverDirection(f) == if st.fRoll then -1 else 1;
    if k == 24 {
      assert ReadBar(f, st.fRoll) == b.player[24] && ReadBar(f, !st.fRoll) == b.opp[24];
    } else {
      WrittenPoint(f, b, st, 23 - k);
      WrittenPoint(f, b, st, k);
      assert b.opp[23 - (23 - k)] == 0 || b.player[23 - k] == 0;
      assert b.opp[23 - k] == 0 || b.player[k] == 0;
    }
  }

  lemma MoverBoardRead(f: Fields, b: Board, st: State)
    requires Writes(f, b, st) && Disjoint(b)
    ensures MoverBoard(f) == Oriented(b, !st.fRoll)
  {
    var m, w := MoverBoard(f), Oriented(b, !st.fRoll);
    forall k: nat | k < 25 ensures m.opp[k] == w.opp[k] && m.player[k] == w.player[k] {
      MoverBoardReadAt(f, b, st, k);
    }
    SameSide(m.opp, w.opp);
    SameSide(m.player, w.player);
  }

  /** A shared point is lost: of the two sides only one can be read back. */
  lemma SharedPointLost(f: Fields, b: Board, st: State)
    requires Writes(f, b, st) && !Disjoint(b)
    ensures MoverBoard(f) != Oriented(b, !st.fRoll)
  {
    var i: nat :| i < 24 && b.opp[23 - i] != 0 && b.player[i] != 0;
    WrittenPoint(f, b, st, i);
    WrittenPoint(f, b, st, 23 - i);
    assert 23 - (23 - i) == i;
    if st.fRoll {
      assert MoverBoard(f).player[i] == 0;
    } else {
      assert MoverBoard(f).opp[i] == 0;
    }
  }

  /** Whether the sides change when a record of this state is read. */
  predicate Swaps(st: State) {
    st.fRoll == st.fDoubled
  }

  /** The owner of the cube, as the record can tell it. */
  function KnownOwner(st: State): int {
    if st.fTurn >= 0 && st.fCubeOwner in {0, 1} then st.fCubeOwner else -1
  }

  function OtherOwner(owner: int): int {
    if owner == -1 then -1 else 1 - owner
  }

  lemma WrittenSwaps(f: Fields, b: Board, st: State)
    requires Writes(f, b, st)
    ensures CubeTurned(f) != 0 <==> st.fDoubled
    ensures MustSwap(f) <==> Swaps(st)
  {
  }

  /** Reading what was written gives the position back, with everything kept or
      everything moved to the other side; the board exactly when no point is
      shared. */
  lemma RoundTrip(f: Fields, b: Board, st: State, name: string, opp: string)
    requires Writes(f, b, st) && Accepted(f)
    ensures var p := FibsProcess(CopiedName(name), CopiedName(opp), f);
            var first, second := Truncated(CopiedName(name)), Truncated(CopiedName(opp));
            var match0 := if st.nMatchTo == 9999 then 0 else st.nMatchTo;
            var s, so := Clamped(match0, st.nScore), Clamped(match0, st.nOpponent);
            && (p.board == Oriented(b, Swaps(st)) <==> Disjoint(b))
            && (p.szPlayer, p.szOpp) == (if Swaps(st) then (second, first) else (first, second))
            && (p.nScore, p.nScoreOpp) == (if Swaps(st) then (so, s) else (s, so))
            && p.fCubeOwner == (if Swaps(st) then OtherOwner(KnownOwner(st)) else KnownOwner(st))
            && p.nMatchTo == ClampedMatch(match0)
            && p.dice == st.dice
            && p.nCube == (if st.fTurn < 0 then 1 else st.nCube)
            && (p.fDoubled != 0 <==> st.fDoubled)
  {
    WrittenSwaps(f, b, st);
    if Disjoint(b) {
      MoverBoardRead(f, b, st);
    } else {
      SharedPointLost(f, b, st);
    }
    assert Oriented(b, !st.fRoll).Swapped() == Oriented(b, st.fRoll);
  }

  /** The record always says that the Crawford rule is over, whatever the writer
      was told, because its last flags are not the ones that the reader uses. */
  lemma CrawfordForgotten(f: Fields, b: Board, st: State, name: string, opp: string)
    requires Writes(f, b, st) && Accepted(f)
    ensures FibsProcess(name, opp, f).fCrawford == 0
  {
  }

  // ----- The record does not depend on who looks at it

  function FlippedAt(f: Fields, k: nat): int
    requires k < FIELDS
  {
    if 3 <= k < 29 || k == 29 || k == 38 then -f[k] else f[k]
  }

  /** Colour, turn and all chequers negated. */
  function ColoursExchanged(f: Fields): Fields {
    seq(FIELDS, k requires 0 <= k < FIELDS => FlippedAt(f, k))
  }

  function ReversedAt(f: Fields, k: nat): int
    requires k < FIELDS
  {
    if 3 <= k < 29 then f[31 - k] else if k == 39 then -f[k] else f[k]
  }

  /** Direction negated and the board numbered from the other end. */
  function DirectionReversed(f: Fields): Fields {
    seq(FIELDS, k requires 0 <= k < FIELDS => ReversedAt(f, k))
  }

  lemma SameMoverBoard(f: Fields, g: Fields)
    requires forall i: nat :: i < 24 ==> ReadPoint(g, i) == ReadPoint(f, i)
    requires ReadBar(g, true) == ReadBar(f, true) && ReadBar(g, false) == ReadBar(f, false)
    ensures MoverBoard(g) == MoverBoard(f)
  {
    SameSide(MoverBoard(g).opp, MoverBoard(f).opp);
    SameSide(MoverBoard(g).player, MoverBoard(f).player);
  }

  lemma ColoursDoNotMatter(name: string, opp: string, f: Fields)
    ensures var g := ColoursExchanged(f);
            && (Accepted(g) <==> Accepted(f))
            && (Accepted(f) ==> FibsProcess(name, opp, g) == FibsProcess(name, opp, f))
  {
    var g := ColoursExchanged(f);
    if Accepted(f) {
      assert MoverDirection(g) == MoverDirection(f);
      SameMoverBoard(f, g);
    }
  }

  lemma DirectionDoesNotMatter(name: string, opp: string, f: Fields)
    ensures var g := DirectionReversed(f);
            && (Accepted(g) <==> Accepted(f))
            && (Accepted(f) ==> FibsProcess(name, opp, g) == FibsProcess(name, opp, f))
  {
    var g := DirectionReversed(f);
    if Accepted(f) {
      assert MoverDirection(g) == -MoverDirection(f);
      SameMoverBoard(f, g);
    }
  }

  /** In a match that is too long, each player keeps the points still needed, as
      far as they fit. */
  lemma LongMatch(name: string, opp: string, f: Fields)
    requires Accepted(f) && Score(f) >= 0 && ScoreOpp(f) >= 0
    ensures var p := FibsProcess(name, opp, f);
            var match0 := MatchLength(f);
            var s, so := if MustSwap(f) then ScoreOpp(f) else Score(f), if MustSwap(f) then Score(f) else ScoreOpp(f);
            && p.nMatchTo <= MAXSCORE
            && (match0 > 0 ==> 0 <= p.nScore < p.nMatchTo && 0 <= p.nScoreOpp < p.nMatchTo
                               && p.nMatchTo - p.nScore == Least(match0 - s, MAXSCORE)
                               && p.nMatchTo - p.nScoreOpp == Least(match0 - so, MAXSCORE))
            && (match0 <= MAXSCORE ==> p.nMatchTo == match0 && p.nScore == s && p.nScoreOpp == so)
  {
  }

  function Least(a: int, b: int): int {
    if a < b then a else b
  }
}
