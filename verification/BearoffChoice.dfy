/** What the heuristic prefers, stated on the board and the dice alone
    (gnubg/bearoff.c, lines 126 to 195). */
module BearoffChoice {
  import opened Bearoff

  // ----- One die

  function Total(dice: seq<Die>): nat {
    if dice == [] then 0 else dice[0] + Total(dice[1..])
  }

  /** The chequer on point n can be borne off exactly by die i and the dice after it,
      up to die j. */
  ghost predicate BearsOff(b: Home, dice: seq<Die>, i: nat, j: nat, n: int) {
    i < j < |dice| && 0 <= n < 6 && b[n] > 0 && n + 1 == Total(dice[i..j + 1])
  }

  /** The fewest dice that bear a chequer off together are those up to j. */
  ghost predicate BearsOffFirst(b: Home, dice: seq<Die>, i: nat, j: nat, n: int) {
    BearsOff(b, dice, i, j, n) && forall l: nat, m {:trigger BearsOff(b, dice, i, l, m)} :: l < j ==> !BearsOff(b, dice, i, l, m)
  }

  /** A stack of two or more whose chequer would land on an empty point. */
  ghost predicate FillsGap(b: Home, d: nat, n: int) {
    0 < d <= n < 6 && b[n] >= 2 && b[n - d] == 0
  }

  /** No more chequers than on n, and no fewer where the chequer would land; the lower
      point when both are the same. */
  ghost predicate NoBetter(b: Home, d: nat, m: int, n: int)
    requires d <= m < 6 && d <= n < 6
  {
    || b[m] < b[n]
    || (b[m] == b[n] && b[m - d] > b[n - d])
    || (b[m] == b[n] && b[m - d] == b[n - d] && n <= m)
  }

  /** What is preferred when neither this die alone nor the highest chequer decides. */
  ghost predicate PreferredBySearch(b: Home, dice: seq<Die>, i: nat, n: int)
    requires i < |dice|
  {
    if exists j: nat, m :: BearsOff(b, dice, i, j, m) then exists j: nat :: BearsOffFirst(b, dice, i, j, n)
    else if exists m :: FillsGap(b, dice[i], m) then
      FillsGap(b, dice[i], n)
      && forall m :: FillsGap(b, dice[i], m) ==> b[m] < b[n] || (b[m] == b[n] && n <= m)
    else
      dice[i] <= n < 6 && forall m {:trigger NoBetter(b, dice[i], m, n)} :: dice[i] <= m < 6 ==> NoBetter(b, dice[i], m, n)
  }

  /** Point n is the one to play die i from. */
  ghost predicate Preferred(b: Home, dice: seq<Die>, i: nat, n: int)
    requires i < |dice|
  {
    var d: nat := dice[i];
    if b[d - 1] > 0 then n == d - 1
    else if forall m :: dice[i] <= m < 6 ==> b[m] == 0 then
      0 <= n < 6 && b[n] > 0 && forall m :: n < m < 6 ==> b[m] == 0
    else PreferredBySearch(b, dice, i, n)
  }

  lemma {:induction false} TotalSnoc(dice: seq<Die>, d: Die)
    ensures Total(dice + [d]) == Total(dice) + d
  {
    if dice != [] {
      assert (dice + [d])[1..] == dice[1..] + [d];
      TotalSnoc(dice[1..], d);
    }
  }

  lemma TotalTo(dice: seq<Die>, i: nat, j: nat)
    requires i <= j < |dice|
    ensures Total(dice[i..j + 1]) == Total(dice[i..j]) + dice[j]
  {
    assert dice[i..j + 1] == dice[i..j] + [dice[j]];
    TotalSnoc(dice[i..j], dice[j]);
  }

  /** The search from die j on finds the chequer for the fewest dice. */
  lemma {:induction false} LaterIs(b: Home, dice: seq<Die>, i: nat, j: nat, total: nat)
    requires i < j <= |dice| && total + 1 == Total(dice[i..j])
    ensures var n := LaterDie(b, dice, j, total);
            if n == -1 then forall l: nat, m {:trigger BearsOff(b, dice, i, l, m)} :: j <= l ==> !BearsOff(b, dice, i, l, m)
            else exists k: nat :: j <= k && BearsOff(b, dice, i, k, n)
                             && forall l: nat, m {:trigger BearsOff(b, dice, i, l, m)} :: j <= l < k ==> !BearsOff(b, dice, i, l, m)
    decreases |dice| - j
  {
    if j < |dice| {
      TotalTo(dice, i, j);
      var next := total + dice[j];
      if next < 6 && b[next] > 0 {
        assert BearsOff(b, dice, i, j, next);
      } else {
        LaterIs(b, dice, i, j + 1, next);
      }
    }
  }

  lemma LaterIsFirst(b: Home, dice: seq<Die>, i: nat)
    requires i < |dice|
    ensures var n := LaterDie(b, dice, i + 1, (dice[i] as nat) - 1);
            && (n == -1 <==> !exists j: nat, m :: BearsOff(b, dice, i, j, m))
            && (n != -1 ==> exists j: nat :: BearsOffFirst(b, dice, i, j, n))
  {
    assert dice[i..i + 1] == [dice[i]] && Total([dice[i]]) == dice[i] + Total([]);
    LaterIs(b, dice, i, i + 1, (dice[i] as nat) - 1);
    var n := LaterDie(b, dice, i + 1, (dice[i] as nat) - 1);
    if n != -1 {
      var k: nat :| i + 1 <= k && BearsOff(b, dice, i, k, n)
               && forall l: nat, m {:trigger BearsOff(b, dice, i, l, m)} :: i + 1 <= l < k ==> !BearsOff(b, dice, i, l, m);
      assert BearsOffFirst(b, dice, i, k, n);
    }
  }

  /** The stack to fill a gap from is found up to the highest occupied point. */
  lemma StackIs(b: Home, d: Die, nMax: nat)
    requires nMax < 6 && forall m :: nMax < m < 6 ==> b[m] == 0
    ensures var n := StackTo(b, d, nMax + 1);
            && (n == -1 <==> !exists m :: FillsGap(b, d, m))
            && (n != -1 ==> FillsGap(b, d, n)
                            && forall m :: FillsGap(b, d, m) ==> b[m] < b[n] || (b[m] == b[n] && n <= m))
  {
    StackToCanSlot(b, d, nMax + 1);
    var n := StackTo(b, d, nMax + 1);
    forall m | FillsGap(b, d, m)
      ensures n != -1 && (b[m] < b[n] || (b[m] == b[n] && n <= m))
    {
      StackToIsTallest(b, d, nMax + 1, m);
    }
    assert n != -1 ==> CanSlot(b, d, n) && FillsGap(b, d, n);
  }

  lemma LargestIs(b: Home, d: Die, nMax: nat)
    requires d <= nMax < 6 && b[nMax] > 0 && forall m :: nMax < m < 6 ==> b[m] == 0
    ensures var n := LargestTo(b, d, nMax + 1);
            d <= n < 6 && forall m {:trigger NoBetter(b, d, m, n)} :: d <= m < 6 ==> NoBetter(b, d, m, n)
  {
    LargestToIsBest(b, d, nMax + 1, nMax);
    var n := LargestTo(b, d, nMax + 1);
    forall m {:trigger NoBetter(b, d, m, n)} | d <= m < 6
      ensures NoBetter(b, d, m, n)
    {
      if m <= nMax {
        LargestToIsBest(b, d, nMax + 1, m);
      }
    }
  }

  lemma SearchIsPreferred(b: Home, dice: seq<Die>, i: nat, nMax: nat, n: int)
    requires i < |dice| && dice[i] <= nMax < 6 && b[nMax] > 0 && forall m :: nMax < m < 6 ==> b[m] == 0
    requires var later, stack := LaterDie(b, dice, i + 1, (dice[i] as nat) - 1), StackTo(b, dice[i], nMax + 1);
             n == if later >= 0 then later else if stack >= 0 then stack else LargestTo(b, dice[i], nMax + 1)
    ensures PreferredBySearch(b, dice, i, n)
  {
    LaterIsFirst(b, dice, i);
    StackIs(b, dice[i], nMax);
    LargestIs(b, dice[i], nMax);
  }

  /** On a board that is not empty the point that is played from is preferred. */
  lemma ChoiceIsPreferred(b: Home, dice: seq<Die>, i: nat)
    requires i < |dice| && !Empty(b)
    ensures Preferred(b, dice, i, ChoosePoint(b, dice, i))
  {
    var d, nMax, n := dice[i], Highest(b, 5), ChoosePoint(b, dice, i);
    assert b[nMax] > 0;
    if b[d - 1] == 0 && d <= nMax {
      SearchIsPreferred(b, dice, i, nMax, n);
      assert !forall m :: d <= m < 6 ==> b[m] == 0;
    }
  }

  lemma FirstIsOne(b: Home, dice: seq<Die>, i: nat, j: nat, k: nat, n: int, m: int)
    requires BearsOffFirst(b, dice, i, j, n) && BearsOffFirst(b, dice, i, k, m)
    ensures n == m
  {
    assert j == k;
  }

  /** And there is no other. */
  lemma PreferredIsOne(b: Home, dice: seq<Die>, i: nat, n: int, m: int)
    requires i < |dice| && Preferred(b, dice, i, n) && Preferred(b, dice, i, m)
    ensures n == m
  {
    if exists j: nat, l :: BearsOff(b, dice, i, j, l) {
      BothFirst(b, dice, i, n, m);
    } else if PreferredBySearch(b, dice, i, n) && PreferredBySearch(b, dice, i, m) {
      SearchIsOne(b, dice, i, n, m);
    }
  }

  lemma BothFirst(b: Home, dice: seq<Die>, i: nat, n: int, m: int)
    requires i < |dice| && exists j: nat, l :: BearsOff(b, dice, i, j, l)
    ensures PreferredBySearch(b, dice, i, n) && PreferredBySearch(b, dice, i, m) ==> n == m
  {
    if PreferredBySearch(b, dice, i, n) && PreferredBySearch(b, dice, i, m) {
      var j: nat :| BearsOffFirst(b, dice, i, j, n);
      var k: nat :| BearsOffFirst(b, dice, i, k, m);
      FirstIsOne(b, dice, i, j, k, n, m);
    }
  }

  lemma SearchIsOne(b: Home, dice: seq<Die>, i: nat, n: int, m: int)
    requires i < |dice| && PreferredBySearch(b, dice, i, n) && PreferredBySearch(b, dice, i, m)
    requires !exists j: nat, l :: BearsOff(b, dice, i, j, l)
    ensures n == m
  {
    if !exists l :: FillsGap(b, dice[i], l) {
      assert NoBetter(b, dice[i], m, n) && NoBetter(b, dice[i], n, m);
    }
  }

  /** So the heuristic chooses a point exactly when it is preferred. */
  lemma ChoiceExactly(b: Home, dice: seq<Die>, i: nat, n: int)
    requires i < |dice| && !Empty(b)
    ensures n == ChoosePoint(b, dice, i) <==> Preferred(b, dice, i, n)
  {
    ChoiceIsPreferred(b, dice, i);
    if Preferred(b, dice, i, n) {
      PreferredIsOne(b, dice, i, n, ChoosePoint(b, dice, i));
    }
  }

  // ----- A roll

  /** b' results from playing dice[i..], each from the preferred point, until the board
      is empty. */
  ghost predicate Prefers(b: Home, dice: seq<Die>, i: nat, b': Home)
    requires i <= |dice|
    decreases |dice| - i
  {
    if i == |dice| || Empty(b) then b' == b
    else exists n: nat :: LegalStep(b, n, dice[i]) && Preferred(b, dice, i, n) && Prefers(PlayDie(b, n, dice[i]), dice, i + 1, b')
  }

  lemma {:induction false} PlayPrefers(b: Home, dice: seq<Die>, i: nat, b': Home)
    requires i <= |dice|
    ensures b' == PlayDice(b, dice, i) <==> Prefers(b, dice, i, b')
    decreases |dice| - i
  {
    if i < |dice| && !Empty(b) {
      var n := ChoosePoint(b, dice, i);
      ChoosePointIsLegal(b, dice, i);
      ChoiceIsPreferred(b, dice, i);
      PlayPrefers(PlayDie(b, n, dice[i]), dice, i + 1, b');
      if Prefers(b, dice, i, b') {
        var m: nat :| LegalStep(b, m, dice[i]) && Preferred(b, dice, i, m) && Prefers(PlayDie(b, m, dice[i]), dice, i + 1, b');
        PreferredIsOne(b, dice, i, n, m);
      }
    }
  }

  /** A double is played four times, and another roll once with each die, the higher
      one first. */
  lemma RollPlays(b: Home, hi: Die, lo: Die, b': Home)
    ensures hi == lo ==> (b' == Play(b, hi, lo) <==> Prefers(b, [hi, hi, hi, hi], 0, b'))
    ensures hi != lo ==> (b' == Play(b, hi, lo) <==> Prefers(b, [hi, lo], 0, b'))
  {
    PlayPrefers(b, Dice(hi, lo), 0, b');
  }

  /** In both cases by legal steps. */
  lemma RollIsLegal(b: Home, hi: Die, lo: Die)
    ensures hi == lo ==> LegalPlay(b, [hi, hi, hi, hi], 0, Play(b, hi, lo))
    ensures hi != lo ==> LegalPlay(b, [hi, lo], 0, Play(b, hi, lo))
  {
    PlayDiceIsLegal(b, Dice(hi, lo), 0);
  }
}
