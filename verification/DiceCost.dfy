/** How many bits a ternary digit takes (gnubg/dice.c, lines 236 to 281), and
    another way to make digits that takes fewer. */
module DiceCost {
  import opened Common
  import opened Combinatorics
  import opened Dice

  // ----- Sums over all strings

  /** The values of f on these strings, added up. */
  function Total(f: seq<bool> -> nat, xs: seq<seq<bool>>): nat {
    if xs == [] then 0 else f(xs[0]) + Total(f, xs[1..])
  }

  lemma {:induction false} TotalConcat(f: seq<bool> -> nat, xs: seq<seq<bool>>, ys: seq<seq<bool>>)
    ensures Total(f, xs + ys) == Total(f, xs) + Total(f, ys)
  {
    if xs == [] {
      assert xs + ys == ys;
    } else {
      assert (xs + ys)[1..] == xs[1..] + ys;
      TotalConcat(f, xs[1..], ys);
    }
  }

  /** A first bit costs one more than what follows it. */
  lemma {:induction false} TotalPrefixed(f: seq<bool> -> nat, g: seq<bool> -> nat, b: bool, xs: seq<seq<bool>>)
    requires forall x :: f([b] + x) == 1 + g(x)
    ensures Total(f, Prefixed(b, xs)) == |xs| + Total(g, xs)
  {
    if xs != [] {
      assert Prefixed(b, xs)[1..] == Prefixed(b, xs[1..]);
      TotalPrefixed(f, g, b, xs[1..]);
    }
  }

  lemma TotalByBit(f: seq<bool> -> nat, f0: seq<bool> -> nat, f1: seq<bool> -> nat, n: nat)
    requires forall x :: f([false] + x) == 1 + f0(x) && f([true] + x) == 1 + f1(x)
    ensures Total(f, Strings(n + 1)) == 2 * Power2(n) + Total(f0, Strings(n)) + Total(f1, Strings(n))
  {
    StringsAll(n);
    TotalConcat(f, Prefixed(false, Strings(n)), Prefixed(true, Strings(n)));
    TotalPrefixed(f, f0, false, Strings(n));
    TotalPrefixed(f, f1, true, Strings(n));
  }

  lemma {:induction false} TotalZero(f: seq<bool> -> nat, xs: seq<seq<bool>>)
    requires forall x :: f(x) == 0
    ensures Total(f, xs) == 0
  {
    if xs != [] {
      TotalZero(f, xs[1..]);
    }
  }

  lemma OneTotal(f: seq<bool> -> nat)
    ensures Total(f, Strings(0)) == f([])
  {
    var xs := Strings(0);
    assert xs == [[]] && xs[1..] == [];
    assert Total(f, xs) == f(xs[0]) + Total(f, xs[1..]);
  }

  // ----- The automaton of the program

  /** The bits that are read after a step. */
  function UsedAfter(first: Outcome): seq<bool> -> nat {
    (bits: seq<bool>) => match first { case Goto(next) => Used(next, bits) case Return(_) => 0 }
  }

  /** All bits that are read, over the strings of n bits. */
  function Cost(first: Outcome, n: nat): nat {
    Total(UsedAfter(first), Strings(n))
  }

  lemma CostReturned(t: Trit, n: nat)
    ensures Cost(Return(t), n) == 0
  {
    TotalZero(UsedAfter(Return(t)), Strings(n));
  }

  lemma CostStep(state: State, n: nat)
    ensures Cost(Goto(state), n + 1) == 2 * Power2(n) + Cost(Step(state, false), n) + Cost(Step(state, true), n)
  {
    var f, f0, f1 := UsedAfter(Goto(state)), UsedAfter(Step(state, false)), UsedAfter(Step(state, true));
    forall x ensures f([false] + x) == 1 + f0(x) && f([true] + x) == 1 + f1(x) {
      assert ([false] + x)[1..] == x && ([true] + x)[1..] == x;
    }
    TotalByBit(f, f0, f1, n);
  }

  /** From states 1 and 2, two bits at a time. */
  lemma CostTwoBits(s: State, s': State, n: nat)
    requires (s == 1 && s' == 3) || (s == 2 && s' == 4)
    ensures Cost(Goto(s), n + 2) == 6 * Power2(n) + Cost(Goto(s), n)
  {
    CostStep(s, n + 1);
    CostStep(s', n);
    CostReturned(0, n + 1);
    CostReturned(1, n);
    CostReturned(2, n + 1);
    Powers(n);
  }

  lemma CostNext(s: State, s': State, n: nat)
    requires (s == 1 && s' == 3) || (s == 2 && s' == 4)
    requires Cost(Goto(s), n) == 2 * Power2(n) - 2
    ensures Cost(Goto(s), n + 2) == 2 * Power2(n + 2) - 2
  {
    CostTwoBits(s, s', n);
    Powers(n);
    assert Cost(Goto(s), n + 2) == 6 * Power2(n) + (2 * Power2(n) - 2);
  }

  lemma {:induction false} CostFromOneOrTwo(s: State, s': State, k: nat)
    requires (s == 1 && s' == 3) || (s == 2 && s' == 4)
    ensures Cost(Goto(s), 2 * k) == 2 * Power2(2 * k) - 2
  {
    if k == 0 {
      OneTotal(UsedAfter(Goto(s)));
    } else {
      var n := 2 * k - 2;
      CostFromOneOrTwo(s, s', k - 1);
      CostNext(s, s', n);
    }
  }

  /** Over the strings of 2k + 1 bits the automaton reads three bits each, less four
      in all: the average is as close to 3 as one likes. */
  lemma TritCost(s0: State, k: nat)
    requires s0 == 0
    ensures Cost(Goto(s0), 2 * k + 1) == 3 * Power2(2 * k + 1) - 4
  {
    var s1: State, s2: State, s3: State, s4: State :| s1 == 1 && s2 == 2 && s3 == 3 && s4 == 4;
    CostFromOneOrTwo(s1, s3, k);
    CostFromOneOrTwo(s2, s4, k);
    CostStep(s0, 2 * k);
    Powers(2 * k);
  }

  // ----- Pairs of bits

  /** A digit from a pair of bits, and another pair when both bits are set; the
      first bit of a pair may have been read. */
  function PairRun(got: Option<bool>, bits: seq<bool>): Option<Trit>
    decreases |bits|
  {
    if bits == [] then None
    else
      match got
      case None => PairRun(Some(bits[0]), bits[1..])
      case Some(a) => if a && bits[0] then PairRun(None, bits[1..]) else Some(PairDigit(a, bits[0]))
  }

  function PairDigit(a: bool, b: bool): Trit
    requires !(a && b)
  {
    if a then 2 else if b then 1 else 0
  }

  function PairUsed(got: Option<bool>, bits: seq<bool>): nat
    decreases |bits|
  {
    if bits == [] then 0
    else
      match got
      case None => 1 + PairUsed(Some(bits[0]), bits[1..])
      case Some(a) => 1 + if a && bits[0] then PairUsed(None, bits[1..]) else 0
  }

  function PairRuns(got: Option<bool>): seq<bool> -> Option<Trit> {
    (bits: seq<bool>) => PairRun(got, bits)
  }

  function PairUses(got: Option<bool>): seq<bool> -> nat {
    (bits: seq<bool>) => PairUsed(got, bits)
  }

  lemma Tails(x: seq<bool>)
    ensures ([false] + x)[1..] == x && ([true] + x)[1..] == x
  {
  }

  /** The digit does not depend on the bits that follow. */
  function Always(d: Trit): seq<bool> -> Option<Trit> {
    (bits: seq<bool>) => Some(d)
  }

  lemma HitsAlways(d: Trit, n: nat, t: Trit)
    ensures Hits(Always(d), Strings(n), Some(t)) == if d == t then Power2(n) else 0
  {
    StringsAll(n);
    HitsConstant(Always(d), Some(d), Strings(n), Some(t));
  }

  lemma CountAfterFalse(n: nat, t: Trit)
    ensures Hits(PairRuns(Some(false)), Strings(n + 1), Some(t)) == if t == 2 then 0 else Power2(n)
  {
    var f, a, b := PairRuns(Some(false)), PairDigit(false, false), PairDigit(false, true);
    forall x ensures f([false] + x) == Always(a)(x) && f([true] + x) == Always(b)(x) { Tails(x); }
    HitsByBit(f, Always(a), Always(b), n, Some(t));
    HitsAlways(a, n, t);
    HitsAlways(b, n, t);
  }

  lemma CountAfterTrue(n: nat, t: Trit)
    ensures Hits(PairRuns(Some(true)), Strings(n + 1), Some(t))
         == (if t == 2 then Power2(n) else 0) + Hits(PairRuns(None), Strings(n), Some(t))
  {
    var f, g, d := PairRuns(Some(true)), PairRuns(None), PairDigit(true, false);
    forall x ensures f([false] + x) == Always(d)(x) && f([true] + x) == g(x) { Tails(x); }
    HitsByBit(f, Always(d), g, n, Some(t));
    HitsAlways(d, n, t);
  }

  lemma PairCountStep(n: nat, t: Trit)
    ensures Hits(PairRuns(None), Strings(n + 2), Some(t)) == Power2(n) + Hits(PairRuns(None), Strings(n), Some(t))
  {
    var f, f0, f1 := PairRuns(None), PairRuns(Some(false)), PairRuns(Some(true));
    forall x ensures f([false] + x) == f0(x) && f([true] + x) == f1(x) { Tails(x); }
    HitsByBit(f, f0, f1, n + 1, Some(t));
    CountAfterFalse(n, t);
    CountAfterTrue(n, t);
  }

  lemma CostAfterFalse(n: nat)
    ensures Total(PairUses(Some(false)), Strings(n + 1)) == 2 * Power2(n)
  {
    var f, zero := PairUses(Some(false)), NoBitsUsed();
    forall x ensures f([false] + x) == 1 + zero(x) && f([true] + x) == 1 + zero(x) { Tails(x); }
    TotalByBit(f, zero, zero, n);
    TotalZero(zero, Strings(n));
  }

  lemma CostAfterTrue(n: nat)
    ensures Total(PairUses(Some(true)), Strings(n + 1)) == 2 * Power2(n) + Total(PairUses(None), Strings(n))
  {
    var f, g, zero := PairUses(Some(true)), PairUses(None), NoBitsUsed();
    forall x ensures f([false] + x) == 1 + zero(x) && f([true] + x) == 1 + g(x) { Tails(x); }
    TotalByBit(f, zero, g, n);
    TotalZero(zero, Strings(n));
  }

  function NoBitsUsed(): seq<bool> -> nat {
    (bits: seq<bool>) => 0
  }

  lemma PairCostStep(n: nat)
    ensures Total(PairUses(None), Strings(n + 2)) == 8 * Power2(n) + Total(PairUses(None), Strings(n))
  {
    var f, f0, f1 := PairUses(None), PairUses(Some(false)), PairUses(Some(true));
    forall x ensures f([false] + x) == 1 + f0(x) && f([true] + x) == 1 + f1(x) { Tails(x); }
    TotalByBit(f, f0, f1, n + 1);
    CostAfterFalse(n);
    CostAfterTrue(n);
    Powers(n);
  }

  lemma PairOneBit(t: Trit)
    ensures Hits(PairRuns(None), Strings(1), Some(t)) == 0 && Total(PairUses(None), Strings(1)) == 2
  {
    var n: nat :| n == 0;
    var f, fa, fb := PairRuns(None), PairRuns(Some(false)), PairRuns(Some(true));
    forall x ensures f([false] + x) == fa(x) && f([true] + x) == fb(x) { Tails(x); }
    HitsByBit(f, fa, fb, n, Some(t));
    OneString(fa, Some(t));
    OneString(fb, Some(t));
    var g, ga, gb := PairUses(None), PairUses(Some(false)), PairUses(Some(true));
    forall x ensures g([false] + x) == 1 + ga(x) && g([true] + x) == 1 + gb(x) { Tails(x); }
    TotalByBit(g, ga, gb, n);
    OneTotal(ga);
    OneTotal(gb);
  }

  lemma PairHitsNext(n: nat, t: Trit)
    requires 3 * Hits(PairRuns(None), Strings(n), Some(t)) == Power2(n) - 2
    ensures 3 * Hits(PairRuns(None), Strings(n + 2), Some(t)) == Power2(n + 2) - 2
  {
    PairCountStep(n, t);
    Powers(n);
  }

  lemma PairCostNext(n: nat)
    requires 3 * Total(PairUses(None), Strings(n)) == 8 * Power2(n) - 10
    ensures 3 * Total(PairUses(None), Strings(n + 2)) == 8 * Power2(n + 2) - 10
  {
    PairCostStep(n);
    Powers(n);
  }

  /** Pairs of bits give every digit as often as the automaton does, and cost less. */
  lemma {:induction false} PairsAre(k: nat, t: Trit)
    ensures 3 * Hits(PairRuns(None), Strings(2 * k + 1), Some(t)) == Power2(2 * k + 1) - 2
    ensures 3 * Total(PairUses(None), Strings(2 * k + 1)) == 8 * Power2(2 * k + 1) - 10
  {
    if k == 0 {
      PairOneBit(t);
    } else {
      var n := 2 * k - 1;
      PairsAre(k - 1, t);
      PairHitsNext(n, t);
      PairCostNext(n);
    }
  }

  /** The automaton does not use the fewest bits: over the strings of three bits and
      more, pairs give as many digits of every kind from fewer bits. */
  lemma FewerBits(s0: State, k: nat, t: Trit)
    requires s0 == 0 && k > 0
    ensures Hits(PairRuns(None), Strings(2 * k + 1), Some(t)) == Count(s0, 2 * k + 1, Return(t))
    ensures Total(PairUses(None), Strings(2 * k + 1)) < Cost(Goto(s0), 2 * k + 1)
  {
    PairsAre(k, t);
    TritCost(s0, k);
    TritsUniform(s0, k, Return(t));
    Powers(2 * k - 1);
    Power2Monotone(0, 2 * k - 1);
  }
}
