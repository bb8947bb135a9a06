/** What the reader of FIBS records makes of any record, on the numbers of the record
    alone (gnubg/drawboard.c, lines 961 to 1134). */
module FibsLaws {
  import opened Common
  import opened FibsText
  import opened FibsBoard

  /** The opponent of the player in the record is on turn. */
  ghost predicate OthersTurn(f: Fields) {
    f[29] * f[38] < 0
  }

  /** The cube was turned: by the flag, or because nobody may double. */
  ghost predicate Turned(f: Fields) {
    f[37] != 0 || (f[35] == 0 && f[36] == 0)
  }

  ghost predicate Exchanged(f: Fields) {
    Turned(f) != OthersTurn(f)
  }

  ghost predicate Limited(f: Fields) {
    f[0] != 0 && f[0] != 9999
  }

  /** A record is taken when nobody has won the match, and there is a turn, a colour and a
      direction. */
  lemma TakenExactly(f: Fields)
    ensures Accepted(f) <==> (Limited(f) ==> f[0] > f[1] && f[0] > f[2]) && f[29] != 0 && f[38] != 0 && f[39] != 0
  {
  }

  /** The Crawford game is on exactly when somebody needs one point of a limited match and
      neither flag says that it is not. */
  lemma CrawfordExactly(name: string, opp: string, f: Fields)
    requires Accepted(f)
    ensures var crawford := FibsProcess(name, opp, f).fCrawford;
            && 0 <= crawford <= 1
            && (crawford == 1 <==> Limited(f) && (f[0] - f[1] == 1 || f[0] - f[2] == 1) && f[40] == 0 && f[41] == 0)
  {
  }

  /** The dice of the player, or the opponent's when the player has none. */
  lemma DiceExactly(name: string, opp: string, f: Fields)
    requires Accepted(f)
    ensures FibsProcess(name, opp, f).dice == if f[30] == 0 && f[32] != 0 then (f[32], f[33]) else (f[30], f[31])
  {
  }

  /** The cube, whether it was turned, and who may double alone. */
  lemma CubeExactly(name: string, opp: string, f: Fields)
    requires Accepted(f)
    ensures var p := FibsProcess(name, opp, f);
            && p.nCube == f[34] && (p.fDoubled != 0 <==> Turned(f)) && (f[37] != 0 ==> p.fDoubled == f[37])
            && p.fCubeOwner == if f[35] == f[36] then -1 else if Exchanged(f) then f[36] else f[35]
  {
    OppOnTurnIsProduct(f);
  }

  /** Names and needs of the two players; a match keeps at most 64 points. */
  lemma SidesExactly(name: string, opp: string, f: Fields)
    requires Accepted(f)
    ensures var p := FibsProcess(name, opp, f);
            var first, second := if |name| < 32 then name else name[..31], if |opp| < 32 then opp else opp[..31];
            (p.szPlayer, p.szOpp) == if Exchanged(f) then (second, first) else (first, second)
    ensures var p := FibsProcess(name, opp, f);
            var mine, theirs := if Exchanged(f) then f[2] else f[1], if Exchanged(f) then f[1] else f[2];
            if !Limited(f) then p.nMatchTo == 0 && p.nScore == mine && p.nScoreOpp == theirs
            else if f[0] <= 64 then p.nMatchTo == f[0] && p.nScore == mine && p.nScoreOpp == theirs
            else
              && p.nMatchTo == 64
              && 64 - p.nScore == (if f[0] - mine > 64 then 64 else f[0] - mine)
              && 64 - p.nScoreOpp == (if f[0] - theirs > 64 then 64 else f[0] - theirs)
  {
    OppOnTurnIsProduct(f);
  }

  /** The number on point i of the player on turn, counted from that player's home. */
  ghost function OnPoint(f: Fields, i: nat): int
    requires i < 24
  {
    f[if (f[39] < 0) != OthersTurn(f) then 4 + i else 27 - i]
  }

  ghost function OnBar(f: Fields, mine: bool): int {
    f[if ((f[39] < 0) != OthersTurn(f)) == mine then 28 else 3]
  }

  ghost function Size(n: int): nat {
    if n < 0 then -n else n
  }

  /** The chequers of the player on turn have the sign of the turn. The two sides are
      exchanged once more when the cube was turned. */
  lemma BoardExactly(name: string, opp: string, f: Fields, i: nat)
    requires Accepted(f) && i < 24
    ensures var board := FibsProcess(name, opp, f).board;
            var mover, other := if Turned(f) then board.opp else board.player, if Turned(f) then board.player else board.opp;
            && mover[i] == (if (OnPoint(f, i) > 0) == (f[29] > 0) then Size(OnPoint(f, i)) else 0)
            && other[23 - i] == (if (OnPoint(f, i) > 0) == (f[29] > 0) then 0 else Size(OnPoint(f, i)))
            && mover[24] == Size(OnBar(f, true)) && other[24] == Size(OnBar(f, false))
  {
    OppOnTurnIsProduct(f);
    assert 23 - (23 - i) == i;
    assert ReadPoint(f, i) == if f[29] > 0 then -OnPoint(f, i) else OnPoint(f, i);
    BarsOfMover(f);
  }
}
