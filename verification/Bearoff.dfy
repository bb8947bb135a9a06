/** The heuristic bearoff database (gnubg/bearoff.c, lines 118 to 260): how a
    roll is played, and the table of finishing-time distributions built from it
    by dynamic programming over position numbers. */
module Bearoff {
  import opened Combinatorics
  import opened PositionId

  const POINTS: nat := 6
  const CHEQUERS: nat := 15
  const POSITIONS: nat := 54264

  /** A home board: six points, lowest first. */
  type Home = b: seq<nat> | |b| == 6 witness [0, 0, 0, 0, 0, 0]

  type Die = d: nat | 1 <= d <= 6 witness 1

  // ----- Playing one die

  ghost predicate Empty(b: Home) {
    forall k :: 0 <= k < 6 ==> b[k] == 0
  }

  function Pips(b: Home): nat {
    b[0] + 2 * b[1] + 3 * b[2] + 4 * b[3] + 5 * b[4] + 6 * b[5]
  }

  /** The board after a chequer on point n has been moved by die d. */
  function PlayDie(b: Home, n: nat, d: Die): Home
    requires n < 6 && b[n] > 0
  {
    var lifted := b[n := b[n] - 1];
    if n >= d then lifted[n - d := lifted[n - d] + 1] else lifted
  }

  /** The rules for moving one chequer with die d in the bearoff: any chequer
      that stays on the board, a chequer that the die bears off exactly, or the
      highest chequer when the die is too large. */
  ghost predicate LegalStep(b: Home, n: nat, d: Die) {
    && n < 6 && b[n] > 0
    && (n >= d - 1 || forall m :: n < m < 6 ==> b[m] == 0)
  }

  /** b' results from playing dice[i..] one legal step at a time, stopping early
      only when the board is empty. */
  ghost predicate LegalPlay(b: Home, dice: seq<Die>, i: nat, b': Home)
    requires i <= |dice|
    decreases |dice| - i
  {
    if i == |dice| || Empty(b) then b' == b
    else exists n: nat :: LegalStep(b, n, dice[i]) && LegalPlay(PlayDie(b, n, dice[i]), dice, i + 1, b')
  }

  /** The highest occupied point up to `from`, or 0 when there is none. */
  function Highest(b: Home, from: nat): (n: nat)
    requires from < 6
    ensures n <= from
    ensures forall m :: n < m <= from ==> b[m] == 0
    ensures b[n] == 0 ==> forall m :: 0 <= m <= from ==> b[m] == 0
  {
    if from == 0 || b[from] > 0 then from else Highest(b, from - 1)
  }

  /** A chequer that this die and some of the following ones together bear off
      exactly, or -1. */
  function LaterDie(b: Home, dice: seq<Die>, j: nat, total: nat): (n: int)
    requires j <= |dice|
    ensures n == -1 || (total < n < 6 && b[n] > 0)
    decreases |dice| - j
  {
    if j == |dice| then -1
    else
      var next := total + dice[j];
      if next < 6 && b[next] > 0 then next else LaterDie(b, dice, j + 1, next)
  }

  /** The stack that the scan of [d, k) for one that can move to an empty point
      settles on, or -1. */
  function StackTo(b: Home, d: Die, k: nat): (n: int)
    requires k <= 6
    ensures n == -1 || (d <= n < k && b[n] >= 2)
  {
    if k <= d then -1
    else
      var n := StackTo(b, d, k - 1);
      if b[k - 1] >= 2 && b[k - 1 - d] == 0 && (n == -1 || b[k - 1] > b[n]) then k - 1 else n
  }

  /** The stack that the last scan of [d, k) settles on, or -1. */
  function LargestTo(b: Home, d: Die, k: nat): (n: int)
    requires k <= 6
    ensures n == -1 <==> k <= d
    ensures n != -1 ==> d <= n < k
  {
    if k <= d then -1
    else
      var n := LargestTo(b, d, k - 1);
      if n == -1 || b[k - 1] > b[n] || (b[k - 1] == b[n] && b[k - 1 - d] < b[n - d]) then k - 1 else n
  }

  ghost predicate CanSlot(b: Home, d: Die, s: nat) {
    d <= s < 6 && b[s] >= 2 && b[s - d] == 0
  }

  /** The first scan finds the first of the tallest stacks that can move to an
      empty point, and nothing only when no stack can. */
  lemma {:induction false} StackToIsTallest(b: Home, d: Die, k: nat, s: nat)
    requires d <= s < k <= 6 && CanSlot(b, d, s)
    ensures StackTo(b, d, k) != -1 && CanSlot(b, d, StackTo(b, d, k))
    ensures var n := StackTo(b, d, k); b[s] < b[n] || (b[s] == b[n] && n <= s)
  {
    StackToCanSlot(b, d, k - 1);
    if s < k - 1 {
      StackToIsTallest(b, d, k - 1, s);
    }
  }

  lemma {:induction false} StackToCanSlot(b: Home, d: Die, k: nat)
    requires k <= 6
    ensures StackTo(b, d, k) == -1 || CanSlot(b, d, StackTo(b, d, k))
  {
    if d < k {
      StackToCanSlot(b, d, k - 1);
    }
  }

  /** Moving from n is at least as good as moving from s: a taller stack, or the
      same height and an emptier destination, or a tie and a lower point. */
  ghost predicate NotAhead(b: Home, d: Die, s: nat, n: nat)
    requires d <= s < 6 && d <= n < 6
  {
    || b[s] < b[n]
    || (b[s] == b[n] && b[s - d] > b[n - d])
    || (b[s] == b[n] && b[s - d] == b[n - d] && n <= s)
  }

  /** The last scan finds the best stack in this order. */
  lemma {:induction false} LargestToIsBest(b: Home, d: Die, k: nat, s: nat)
    requires d <= s < k <= 6
    ensures NotAhead(b, d, s, LargestTo(b, d, k))
  {
    if s < k - 1 {
      LargestToIsBest(b, d, k - 1, s);
    }
  }

  /** The point played from with dice[i]. */
  function ChoosePoint(b: Home, dice: seq<Die>, i: nat): int
    requires i < |dice|
  {
    var d, nMax := dice[i], Highest(b, 5);
    if b[d - 1] > 0 then d - 1
    else if d - 1 > nMax then nMax
    else
      var later := LaterDie(b, dice, i + 1, d - 1);
      if later >= 0 then later
      else
        var stack := StackTo(b, d, nMax + 1);
        if stack >= 0 then stack else LargestTo(b, d, nMax + 1)
  }

  /** A chequer is always found, and playing it is legal: even the last search,
      which starts from a point that may be empty, ends on an occupied one. */
  lemma ChoosePointIsLegal(b: Home, dice: seq<Die>, i: nat)
    requires i < |dice| && !Empty(b)
    ensures ChoosePoint(b, dice, i) >= 0
    ensures LegalStep(b, ChoosePoint(b, dice, i), dice[i])
  {
    var d, nMax := dice[i], Highest(b, 5);
    assert b[nMax] > 0;
    if d <= nMax {
      LargestToIsBest(b, d, nMax + 1, nMax);
    }
  }

  /** Every step lowers the pip count, by the whole die unless a chequer is
      borne off from below it. */
  lemma StepPips(b: Home, n: nat, d: Die)
    requires n < 6 && b[n] > 0
    ensures Pips(PlayDie(b, n, d)) == Pips(b) - (if n + 1 < d then n + 1 else d)
  {
    var lifted := b[n := b[n] - 1];
    assert Pips(lifted) == Pips(b) - (n + 1);
    if n >= d {
      var to := n - d;
      assert Pips(lifted[to := lifted[to] + 1]) == Pips(lifted) + (to + 1);
    }
  }

  /** A step takes off at most one chequer, and lowers the position's rank. */
  lemma StepRank(b: Home, n: nat, d: Die)
    requires n < 6 && b[n] > 0
    ensures Sum(PlayDie(b, n, d)) == Sum(b) - (if n < d then 1 else 0)
    ensures Rank(PlayDie(b, n, d)) < Rank(b)
  {
    var lifted := b[n := b[n] - 1];
    SumOfUpdate(b, n, b[n] - 1);
    if n >= d {
      SumOfUpdate(lifted, n - d, lifted[n - d] + 1);
      RankOfStep(b, n, n - d);
    } else {
      RankOfBearOff(b, n);
    }
  }

  // ----- Playing a roll

  /** A double is played four times. */
  function Dice(hi: Die, lo: Die): seq<Die> {
    if hi == lo then [hi, hi, hi, hi] else [hi, lo]
  }

  /** Plays dice[i..] by the heuristic until the board is empty. */
  ghost function PlayDice(b: Home, dice: seq<Die>, i: nat): Home
    requires i <= |dice|
    decreases |dice| - i
  {
    if i == |dice| || Empty(b) then b
    else
      ChoosePointIsLegal(b, dice, i);
      PlayDice(PlayDie(b, ChoosePoint(b, dice, i), dice[i]), dice, i + 1)
  }

  ghost function Play(b: Home, hi: Die, lo: Die): Home {
    PlayDice(b, Dice(hi, lo), 0)
  }

  /** The heuristic only ever makes legal plays. */
  lemma {:induction false} PlayDiceIsLegal(b: Home, dice: seq<Die>, i: nat)
    requires i <= |dice|
    ensures LegalPlay(b, dice, i, PlayDice(b, dice, i))
    decreases |dice| - i
  {
    if i < |dice| && !Empty(b) {
      ChoosePointIsLegal(b, dice, i);
      PlayDiceIsLegal(PlayDie(b, ChoosePoint(b, dice, i), dice[i]), dice, i + 1);
    }
  }

  /** What any legal play does, whichever chequers it picks: it never adds a
      chequer, takes off at most one for each die, lowers the pip count by at
      least one for each die played and lowers the rank unless nothing is left
      to play. */
  lemma {:induction false} LegalPlayProgress(b: Home, dice: seq<Die>, i: nat, b': Home)
    requires i <= |dice| && LegalPlay(b, dice, i, b')
    ensures Sum(b) - (|dice| - i) <= Sum(b') <= Sum(b)
    ensures Empty(b') || Pips(b') <= Pips(b) - (|dice| - i)
    ensures Rank(b') <= Rank(b)
    ensures i < |dice| && !Empty(b) ==> Rank(b') < Rank(b) && Pips(b') < Pips(b)
    decreases |dice| - i
  {
    if i < |dice| && !Empty(b) {
      var n: nat :| LegalStep(b, n, dice[i]) && LegalPlay(PlayDie(b, n, dice[i]), dice, i + 1, b');
      StepPips(b, n, dice[i]);
      StepRank(b, n, dice[i]);
      LegalPlayProgress(PlayDie(b, n, dice[i]), dice, i + 1, b');
      if Empty(b') {
        assert Pips(b') == 0 < Pips(b);
      }
    }
  }

  /** One roll of the heuristic, as the database uses it. */
  lemma PlayProgress(b: Home, hi: Die, lo: Die)
    ensures Sum(b) - 4 <= Sum(Play(b, hi, lo)) <= Sum(b)
    ensures !Empty(b) ==> Rank(Play(b, hi, lo)) < Rank(b)
  {
    PlayDiceIsLegal(b, Dice(hi, lo), 0);
    LegalPlayProgress(b, Dice(hi, lo), 0, Play(b, hi, lo));
  }

  /** Plays a roll in place and returns the number of the position reached. */
  method HeuristicBearoff(board: array<nat>, hi: Die, lo: Die) returns (id: nat)
    requires board.Length == 6 && lo <= hi && Sum(board[..]) <= CHEQUERS
    modifies board
    ensures board[..] == Play(old(board[..]), hi, lo)
    ensures id == Rank(board[..]) && id < POSITIONS
  {
    PlayProgress(board[..], hi, lo);
    PlayInPlace(board, Dice(hi, lo));
    PositionCount();
    assert board[..POINTS] == board[..];
    id := PositionBearoff(board, POINTS, CHEQUERS);
  }

  method PlayInPlace(board: array<nat>, dice: seq<Die>)
    requires board.Length == 6
    modifies board
    ensures board[..] == PlayDice(old(board[..]), dice, 0)
  {
    var i := 0;
    while i < |dice|
      invariant 0 <= i <= |dice|
      invariant PlayDice(board[..], dice, i) == PlayDice(old(board[..]), dice, 0)
    {
      ghost var b: Home := board[..];
      var nMax := HighestPoint(board);
      if board[nMax] == 0 {
        break;
      }
      var n := PickPoint(board, dice, i, nMax);
      ChoosePointIsLegal(b, dice, i);
      MoveChequer(board, n, dice[i]);
      i := i + 1;
    }
  }

  method MoveChequer(board: array<nat>, n: nat, d: Die)
    requires board.Length == 6 && n < 6 && board[n] > 0
    modifies board
    ensures board[..] == PlayDie(old(board[..]), n, d)
  {
    board[n] := board[n] - 1;
    if n >= d {
      board[n - d] := board[n - d] + 1;
    }
  }

  method HighestPoint(board: array<nat>) returns (nMax: nat)
    requires board.Length == 6
    ensures nMax == Highest(board[..], 5)
  {
    nMax := 5;
    while nMax > 0
      invariant nMax <= 5 && Highest(board[..], nMax) == Highest(board[..], 5)
    {
      if board[nMax] > 0 {
        break;
      }
      nMax := nMax - 1;
    }
  }

  /** The searches for a point to play from, in the source's order of preference. */
  method PickPoint(board: array<nat>, dice: seq<Die>, i: nat, nMax: nat) returns (n: int)
    requires board.Length == 6 && i < |dice|
    requires nMax == Highest(board[..], 5) && board[nMax] > 0
    ensures n == ChoosePoint(board[..], dice, i)
  {
    var d := dice[i];
    if board[d - 1] > 0 {
      return d - 1;
    }
    if d - 1 > nMax {
      return nMax;
    }
    n := SearchLater(board, dice, i);
    if n >= 0 {
      return;
    }
    n := SearchStack(board, d, nMax);
    if n >= 0 {
      return;
    }
    n := SearchLargest(board, d, nMax);
  }

  /** A chequer that can be borne off with the later dice. */
  method SearchLater(board: array<nat>, dice: seq<Die>, i: nat) returns (n: int)
    requires board.Length == 6 && i < |dice|
    ensures n == LaterDie(board[..], dice, i + 1, (dice[i] as nat) - 1)
  {
    ghost var b := board[..];
    var d: nat := dice[i];
    var nTotal: nat, j := d - 1, i + 1;
    while j < |dice|
      invariant i < j <= |dice|
      invariant LaterDie(b, dice, j, nTotal) == LaterDie(b, dice, i + 1, d - 1)
    {
      nTotal := nTotal + dice[j];
      if nTotal < 6 && board[nTotal] > 0 {
        return nTotal;
      }
      j := j + 1;
    }
    n := -1;
  }

  /** A stack from which an empty point can be filled. */
  method SearchStack(board: array<nat>, d: Die, nMax: nat) returns (n: int)
    requires board.Length == 6 && nMax < 6 && d <= nMax + 1
    ensures n == StackTo(board[..], d, nMax + 1)
  {
    ghost var b := board[..];
    n := -1;
    var iSearch := d;
    while iSearch <= nMax
      invariant d <= iSearch <= nMax + 1
      invariant n == StackTo(b, d, iSearch)
    {
      if board[iSearch] >= 2 && board[iSearch - d] == 0 && (n == -1 || board[iSearch] > board[n]) {
        n := iSearch;
      }
      iSearch := iSearch + 1;
    }
  }

  /** The point with the most on it, or the least on its destination. */
  method SearchLargest(board: array<nat>, d: Die, nMax: nat) returns (n: int)
    requires board.Length == 6 && nMax < 6 && d <= nMax + 1
    ensures n == LargestTo(board[..], d, nMax + 1)
  {
    ghost var b := board[..];
    n := -1;
    var iSearch := d;
    while iSearch <= nMax
      invariant d <= iSearch <= nMax + 1
      invariant n == LargestTo(b, d, iSearch)
    {
      if n == -1 || board[iSearch] > board[n] ||
         (board[iSearch] == board[n] && board[iSearch - d] < board[n - d]) {
        n := iSearch;
      }
      iSearch := iSearch + 1;
    }
  }

  /** 54264 is the number of ways to place up to 15 chequers on 6 points. */
  lemma PositionCount()
    ensures Choose(POINTS + CHEQUERS, POINTS) == POSITIONS
  {
    var n := CHEQUERS;
    ChooseOne(n + 1);
    ChooseAbsorb(n + 2, 2);
    ChooseAbsorb(n + 3, 3);
    ChooseAbsorb(n + 4, 4);
    ChooseAbsorb(n + 5, 5);
    ChooseAbsorb(n + 6, 6);
  }
}
