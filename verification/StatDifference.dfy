/** Where the statistics of a stored game differ from those that the analysis
    gathered (gnubg/analysis.c, lines 546 to 568 and 1579 to 1626). */
module StatDifference {
  import opened Common
  import opened MatchStates
  import opened Statistics
  import opened StatisticsMatch
  import opened StatContext

  /** A roll that the statistics of a stored game pass over: the dice were set and
      not played, and their luck is known. */
  predicate PassedOver(g: Settings, x: Step) {
    x.pmr.SetDice? && Rolls(g, x, x.pmr.fPlayer)
  }

  function Rolled(g: Settings, x: Step): nat {
    FlagOf(Rolls(g, x, 0)) + FlagOf(Rolls(g, x, 1))
  }

  /** How many rolls a context has counted. */
  function RollCount(s: Sides): nat {
    |s.p0.luck.anLuck| + |s.p1.luck.anLuck|
  }

  lemma RollCountPlus(g: Settings, s: Sides, x: Step)
    ensures RollCount(s.Plus(Deltas(g)(x))) == RollCount(s) + Rolled(g, x)
  {
    PlusDelta(g, x, s, 0);
    PlusDelta(g, x, s, 1);
  }

  /** The other records that are passed over add nothing. */
  lemma NothingPassedOver(g: Settings, s: Sides, x: Step)
    requires !Counts(g, Stored, x) && !PassedOver(g, x)
    ensures s.Plus(Deltas(g)(x)) == s
  {
    NothingAdded(g, x, s);
  }

  ghost predicate NonePassedOver(g: Settings, xs: seq<Step>) {
    forall k :: 0 <= k < |xs| ==> !PassedOver(g, xs[k])
  }

  /** How many rolls are passed over. */
  function Missing(g: Settings, xs: seq<Step>): nat {
    if xs == [] then 0 else Missing(g, xs[..|xs| - 1]) + FlagOf(PassedOver(g, xs[|xs| - 1]))
  }

  lemma {:induction false} MissingNone(g: Settings, xs: seq<Step>)
    ensures Missing(g, xs) == 0 <==> NonePassedOver(g, xs)
  {
    if xs != [] {
      var ys, x := xs[..|xs| - 1], xs[|xs| - 1];
      MissingNone(g, ys);
      assert xs == ys + [x];
      assert forall k :: 0 <= k < |ys| ==> xs[k] == ys[k];
    }
  }

  /** The one context has counted m rolls fewer, and is the same when m is 0. */
  ghost predicate Behind(kept: Sides, all: Sides, m: nat) {
    RollCount(all) == RollCount(kept) + m && (m == 0 ==> kept == all)
  }

  lemma BehindNext(g: Settings, kept: Sides, all: Sides, m: nat, x: Step)
    requires Behind(kept, all, m)
    ensures Behind(if Counts(g, Stored, x) then kept.Plus(Deltas(g)(x)) else kept, all.Plus(Deltas(g)(x)), m + FlagOf(PassedOver(g, x)))
  {
    RollCountPlus(g, kept, x);
    RollCountPlus(g, all, x);
    if !Counts(g, Stored, x) {
      RolledIsMissing(g, x);
      if !PassedOver(g, x) {
        NothingPassedOver(g, all, x);
      }
    }
  }

  lemma KeptNext(g: Settings, s: Sides, ys: seq<Step>, x: Step)
    requires Behind(Fold(Deltas(g), s, Counted(g, Stored, ys)), Fold(Deltas(g), s, ys), Missing(g, ys))
    ensures Behind(Fold(Deltas(g), s, Counted(g, Stored, ys + [x])), Fold(Deltas(g), s, ys + [x]), Missing(g, ys + [x]))
  {
    assert (ys + [x])[..|ys|] == ys;
    CountedFold(g, Stored, s, ys, x);
    FoldSnoc(Deltas(g), s, ys, x);
    BehindNext(g, Fold(Deltas(g), s, Counted(g, Stored, ys)), Fold(Deltas(g), s, ys), Missing(g, ys), x);
  }

  lemma {:induction false} KeptDiffers(g: Settings, s: Sides, xs: seq<Step>)
    ensures Behind(Fold(Deltas(g), s, Counted(g, Stored, xs)), Fold(Deltas(g), s, xs), Missing(g, xs))
    decreases |xs|
  {
    if xs != [] {
      var ys, x := xs[..|xs| - 1], xs[|xs| - 1];
      assert xs == ys + [x];
      KeptDiffers(g, s, ys);
      KeptNext(g, s, ys, x);
    }
  }

  lemma RolledIsMissing(g: Settings, x: Step)
    requires !Counts(g, Stored, x)
    ensures Rolled(g, x) == FlagOf(PassedOver(g, x))
  {
  }

  /** The statistics of a stored game are those of all its records exactly when
      no dice with known luck were set and not played. */
  lemma KeptAgrees(g: Settings, s: Sides, xs: seq<Step>)
    ensures Fold(Deltas(g), s, Counted(g, Stored, xs)) == Fold(Deltas(g), s, xs) <==> NonePassedOver(g, xs)
  {
    KeptDiffers(g, s, xs);
    MissingNone(g, xs);
  }

  /** One record is enough to make a difference. */
  lemma DiceSetAndNotPlayed(g: Settings, s: Sides, p: Player, r: real, lt: LuckType, pms: Stakes, ar: Equities)
    requires g.fAnalyseDice
    ensures var xs := [Step(SetDice(p, Some(r), lt), pms, ar)];
            Fold(Deltas(g), s, Counted(g, Stored, xs)) != Fold(Deltas(g), s, xs)
  {
    var xs := [Step(SetDice(p, Some(r), lt), pms, ar)];
    assert PassedOver(g, xs[0]);
    KeptAgrees(g, s, xs);
  }
}
