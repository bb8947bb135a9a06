/** Unbiased dice from bits and from random words (gnubg/dice.c, lines 236 to 281
    and 770 to 853). */
module Dice {
  import opened Common
  import opened Combinatorics

  // ----- The automaton that makes ternary digits

  type State = s: nat | s < 5
  type Trit = t: nat | t < 3

  datatype Outcome = Goto(state: State) | Return(trit: Trit)

  /** One bit. */
  function Step(state: State, bit: bool): Outcome {
    match state
    case 0 => Goto(if bit then 2 else 1)
    case 1 => if bit then Goto(3) else Return(0)
    case 2 => if bit then Return(2) else Goto(4)
    case 3 => if bit then Return(1) else Goto(1)
    case _ => if bit then Goto(2) else Return(1)
  }

  /** All the bits that are there; whatever follows the digit is not read. */
  function Run(state: State, bits: seq<bool>): Outcome
    decreases |bits|
  {
    if bits == [] then Goto(state)
    else
      match Step(state, bits[0])
      case Goto(next) => Run(next, bits[1..])
      case Return(t) => Return(t)
  }

  /** How many bits are read. */
  function Used(state: State, bits: seq<bool>): (n: nat)
    ensures n <= |bits|
    decreases |bits|
  {
    if bits == [] then 0
    else
      match Step(state, bits[0])
      case Goto(next) => 1 + Used(next, bits[1..])
      case Return(_) => 1
  }

  /** A source of bits, in place of the generator. */
  class BitSource {
    const bits: seq<bool>
    var pos: nat

    constructor (bits: seq<bool>)
      ensures this.bits == bits && pos == 0
    {
      this.bits, pos := bits, 0;
    }

    /** BBSGetBit; None when there are no more bits. */
    method GetBit() returns (bit: Option<bool>)
      requires pos <= |bits|
      modifies this
      ensures pos <= |bits|
      ensures if old(pos) == |bits| then bit == None && pos == old(pos) else bit == Some(bits[old(pos)]) && pos == old(pos) + 1
    {
      bit := None;
      if pos < |bits| {
        bit := Some(bits[pos]);
        pos := pos + 1;
      }
    }

    /** BBSGetTrit. */
    method GetTrit() returns (trit: Option<Trit>)
      requires pos <= |bits|
      modifies this
      ensures pos == old(pos) + Used(0, bits[old(pos)..]) <= |bits|
      ensures match Run(0, bits[old(pos)..]) { case Return(t) => trit == Some(t) case Goto(_) => trit == None }
    {
      var state: State := 0;
      ghost var p := pos;
      while true
        invariant p <= pos <= |bits|
        invariant Run(0, bits[p..]) == Run(state, bits[pos..])
        invariant Used(0, bits[p..]) == pos - p + Used(state, bits[pos..])
        decreases |bits| - pos
      {
        ghost var rest := bits[pos..];
        var bit := GetBit();
        if bit == None {
          return None;
        }
        assert rest[0] == bit.value && rest[1..] == bits[pos..];
        match state {
          case 0 =>
            state := if bit.value then 2 else 1;
          case 1 =>
            if bit.value { state := 3; } else { return Some(0); }
          case 2 =>
            if bit.value { return Some(2); } else { state := 4; }
          case 3 =>
            if bit.value { return Some(1); } else { state := 1; }
          case _ =>
            if bit.value { state := 2; } else { return Some(1); }
        }
      }
    }

    /** One die of RollDice for this generator. */
    method RollDie() returns (die: Option<nat>)
      requires pos <= |bits|
      modifies this
      ensures pos == old(pos) + DieUsed(bits[old(pos)..]) <= |bits|
      ensures die == Die(Goto(0), bits[old(pos)..])
    {
      ghost var rest := bits[pos..];
      DieAfterRun(0, rest);
      var trit := GetTrit();
      assert rest[Used(0, rest)..] == bits[pos..];
      if trit == None {
        return None;
      }
      ghost var left := bits[pos..];
      var bit := GetBit();
      if bit == None {
        return None;
      }
      die := Some(trit.value + (if bit.value then 1 else 0) * 3 + 1);
    }

    /** RollDice for this generator: the second die is made of the bits after those of
        the first one. */
    method RollDice() returns (ok: bool, anDice: (nat, nat))
      requires pos <= |bits|
      modifies this
      ensures pos <= |bits|
      ensures var rest := bits[old(pos)..];
              var first, second := Die(Goto(0), rest), Die(Goto(0), rest[DieUsed(rest)..]);
              && ok == (first.Some? && second.Some?)
              && (ok ==> anDice == (first.value, second.value)
                         && pos == old(pos) + DieUsed(rest) + DieUsed(rest[DieUsed(rest)..]))
    {
      ghost var rest := bits[pos..];
      ok, anDice := false, (0, 0);
      var die := RollDie();
      assert rest[DieUsed(rest)..] == bits[pos..];
      if die.Some? {
        anDice := (die.value, 0);
        die := RollDie();
        if die.Some? {
          ok, anDice := true, (anDice.0, die.value);
        }
      }
    }
  }

  /** How many bits a die reads. */
  function DieUsed(bits: seq<bool>): (n: nat)
    ensures n <= |bits|
  {
    var n := Used(0, bits);
    if Run(0, bits).Return? && n < |bits| then n + 1 else n
  }

  lemma {:induction false} DieAfterRun(state: State, bits: seq<bool>)
    ensures Used(state, bits) <= |bits|
    ensures match Run(state, bits)
            case Return(t) => Die(Goto(state), bits) == Die(Return(t), bits[Used(state, bits)..])
            case Goto(_) => Die(Goto(state), bits) == None
    decreases |bits|
  {
    if bits != [] {
      var rest := bits[1..];
      match Step(state, bits[0])
      case Goto(next) =>
        DieAfterRun(next, rest);
        assert rest[Used(next, rest)..] == bits[1 + Used(next, rest)..];
      case Return(t) =>
    }
  }

  // ----- All strings of bits

  function Prefixed(b: bool, xs: seq<seq<bool>>): (ys: seq<seq<bool>>)
    ensures |ys| == |xs| && forall k :: 0 <= k < |xs| ==> ys[k] == [b] + xs[k]
  {
    seq(|xs|, k requires 0 <= k < |xs| => [b] + xs[k])
  }

  /** Every string of n bits, once. */
  function Strings(n: nat): seq<seq<bool>> {
    if n == 0 then [[]] else Prefixed(false, Strings(n - 1)) + Prefixed(true, Strings(n - 1))
  }

  lemma {:induction false} StringsAll(n: nat)
    ensures |Strings(n)| == Power2(n)
    ensures forall k :: 0 <= k < |Strings(n)| ==> |Strings(n)[k]| == n
  {
    if n > 0 {
      StringsAll(n - 1);
    }
  }

  ghost predicate Distinct(xs: seq<seq<bool>>) {
    forall i, j :: 0 <= i < j < |xs| ==> xs[i] != xs[j]
  }

  lemma ExtendComplete(xs: seq<seq<bool>>, bits: seq<bool>)
    requires bits != [] && bits[1..] in xs
    ensures bits in Prefixed(false, xs) + Prefixed(true, xs)
  {
    var k: nat :| k < |xs| && xs[k] == bits[1..];
    assert bits == [bits[0]] + bits[1..];
    var j := if bits[0] then |xs| + k else k;
    assert (Prefixed(false, xs) + Prefixed(true, xs))[j] == bits;
  }

  lemma ConsDiffer(b: bool, x: seq<bool>, c: bool, y: seq<bool>)
    requires b != c || x != y
    ensures [b] + x != [c] + y
  {
    assert ([b] + x)[0] == b && ([c] + y)[0] == c;
    assert ([b] + x)[1..] == x && ([c] + y)[1..] == y;
  }

  lemma ExtendDistinct(xs: seq<seq<bool>>)
    requires Distinct(xs)
    ensures Distinct(Prefixed(false, xs) + Prefixed(true, xs))
  {
    var ys, h := Prefixed(false, xs) + Prefixed(true, xs), |xs|;
    forall i, j | 0 <= i < j < |ys| ensures ys[i] != ys[j] {
      ConsDiffer(i >= h, if i < h then xs[i] else xs[i - h], j >= h, if j < h then xs[j] else xs[j - h]);
    }
  }

  lemma {:induction false} StringsComplete(bits: seq<bool>)
    ensures bits in Strings(|bits|)
  {
    if bits != [] {
      StringsComplete(bits[1..]);
      ExtendComplete(Strings(|bits| - 1), bits);
    }
  }

  lemma {:induction false} StringsDistinct(n: nat)
    ensures Distinct(Strings(n))
  {
    if n > 0 {
      StringsDistinct(n - 1);
      ExtendDistinct(Strings(n - 1));
    }
  }

  // ----- Counting

  /** How many of these strings have this outcome. */
  function Hits<T(==)>(f: seq<bool> -> T, xs: seq<seq<bool>>, o: T): nat {
    if xs == [] then 0 else (if f(xs[0]) == o then 1 else 0) + Hits(f, xs[1..], o)
  }

  lemma {:induction false} HitsConcat<T>(f: seq<bool> -> T, xs: seq<seq<bool>>, ys: seq<seq<bool>>, o: T)
    ensures Hits(f, xs + ys, o) == Hits(f, xs, o) + Hits(f, ys, o)
  {
    if xs == [] {
      assert xs + ys == ys;
    } else {
      assert (xs + ys)[1..] == xs[1..] + ys;
      HitsConcat(f, xs[1..], ys, o);
    }
  }

  /** A first bit after which the outcome is that of g. */
  lemma {:induction false} HitsPrefixed<T>(f: seq<bool> -> T, g: seq<bool> -> T, b: bool, xs: seq<seq<bool>>, o: T)
    requires forall x :: f([b] + x) == g(x)
    ensures Hits(f, Prefixed(b, xs), o) == Hits(g, xs, o)
  {
    if xs != [] {
      assert Prefixed(b, xs)[1..] == Prefixed(b, xs[1..]);
      HitsPrefixed(f, g, b, xs[1..], o);
    }
  }

  lemma {:induction false} HitsConstant<T>(f: seq<bool> -> T, t: T, xs: seq<seq<bool>>, o: T)
    requires forall x :: f(x) == t
    ensures Hits(f, xs, o) == if o == t then |xs| else 0
  {
    if xs != [] {
      HitsConstant(f, t, xs[1..], o);
    }
  }

  /** The strings of n + 1 bits, by their first bit. */
  lemma HitsByBit<T>(f: seq<bool> -> T, f0: seq<bool> -> T, f1: seq<bool> -> T, n: nat, o: T)
    requires forall x :: f([false] + x) == f0(x) && f([true] + x) == f1(x)
    ensures Hits(f, Strings(n + 1), o) == Hits(f0, Strings(n), o) + Hits(f1, Strings(n), o)
  {
    HitsConcat(f, Prefixed(false, Strings(n)), Prefixed(true, Strings(n)), o);
    HitsPrefixed(f, f0, false, Strings(n), o);
    HitsPrefixed(f, f1, true, Strings(n), o);
  }

  /** What follows a step of the automaton. */
  function RunAfter(first: Outcome): seq<bool> -> Outcome {
    (bits: seq<bool>) => match first { case Goto(next) => Run(next, bits) case Return(t) => Return(t) }
  }

  /** The number of strings of n bits with this outcome. */
  function Count(state: State, n: nat, o: Outcome): nat {
    CountAfter(Goto(state), n, o)
  }

  /** The same after a step that may already have ended the run. */
  function CountAfter(first: Outcome, n: nat, o: Outcome): nat {
    Hits(RunAfter(first), Strings(n), o)
  }

  lemma CountReturned(t: Trit, n: nat, o: Outcome)
    ensures CountAfter(Return(t), n, o) == if o == Return(t) then Power2(n) else 0
  {
    StringsAll(n);
    HitsConstant(RunAfter(Return(t)), Return(t), Strings(n), o);
  }

  lemma CountStep(state: State, n: nat, o: Outcome)
    ensures Count(state, n + 1, o) == CountAfter(Step(state, false), n, o) + CountAfter(Step(state, true), n, o)
  {
    var f, f0, f1 := RunAfter(Goto(state)), RunAfter(Step(state, false)), RunAfter(Step(state, true));
    forall x ensures f([false] + x) == f0(x) && f([true] + x) == f1(x) {
      assert ([false] + x)[1..] == x && ([true] + x)[1..] == x;
    }
    HitsByBit(f, f0, f1, n, o);
  }

  /** From states 1 and 2, two bits at a time. */
  lemma TwoBits(s1: State, s2: State, n: nat, o: Outcome)
    requires s1 == 1 && s2 == 2
    ensures Count(s1, n + 2, o) == CountAfter(Return(0), n + 1, o) + CountAfter(Return(1), n, o) + Count(s1, n, o)
    ensures Count(s2, n + 2, o) == CountAfter(Return(2), n + 1, o) + CountAfter(Return(1), n, o) + Count(s2, n, o)
  {
    var s3: State, s4: State :| s3 == 3 && s4 == 4;
    CountStep(s1, n + 1, o);
    CountStep(s2, n + 1, o);
    CountStep(s3, n, o);
    CountStep(s4, n, o);
  }

  lemma NoBits(state: State, o: Outcome)
    ensures Count(state, 0, o) == if o == Goto(state) then 1 else 0
  {
    OneString(RunAfter(Goto(state)), o);
  }

  lemma OneString<T>(f: seq<bool> -> T, o: T)
    ensures Hits(f, Strings(0), o) == if f([]) == o then 1 else 0
  {
    var xs := Strings(0);
    assert xs == [[]] && xs[1..] == [];
    assert Hits(f, xs, o) == (if f(xs[0]) == o then 1 else 0) + Hits(f, xs[1..], o);
  }

  /** Three times the count after 2k bits from state 1 or state 2, where p stands
      for 4 to the power k: the digit far from the other state, the digit 1, and
      the strings that are left. */
  function Thrice(state: State, p: int, o: Outcome): int {
    match o
    case Goto(s) => if s == state then 3 else 0
    case Return(t) =>
      if t == 1 then p - 1 else if (t == 0) == (state == 1) then 2 * p - 2 else 0
  }

  lemma Powers(n: nat)
    ensures Power2(n + 1) == 2 * Power2(n) && Power2(n + 2) == 4 * Power2(n)
  {
  }

  lemma ThriceStep(s1: State, s2: State, p: nat, n: nat, o: Outcome)
    requires s1 == 1 && s2 == 2 && p == Power2(n) && Power2(n + 1) == 2 * p
    ensures Thrice(s1, 4 * p, o) == Thrice(s1, p, o) + 3 * CountAfter(Return(0), n + 1, o) + 3 * CountAfter(Return(1), n, o)
    ensures Thrice(s2, 4 * p, o) == Thrice(s2, p, o) + 3 * CountAfter(Return(2), n + 1, o) + 3 * CountAfter(Return(1), n, o)
  {
    CountReturned(0, n + 1, o);
    CountReturned(1, n, o);
    CountReturned(2, n + 1, o);
  }

  lemma TwoMoreBits(s1: State, s2: State, n: nat, o: Outcome)
    requires s1 == 1 && s2 == 2
    requires 3 * Count(s1, n, o) == Thrice(s1, Power2(n), o) && 3 * Count(s2, n, o) == Thrice(s2, Power2(n), o)
    ensures 3 * Count(s1, n + 2, o) == Thrice(s1, Power2(n + 2), o)
    ensures 3 * Count(s2, n + 2, o) == Thrice(s2, Power2(n + 2), o)
  {
    TwoBits(s1, s2, n, o);
    Powers(n);
    ThriceStep(s1, s2, Power2(n), n, o);
  }

  lemma {:induction false} FromOneAndTwo(s1: State, s2: State, k: nat, o: Outcome)
    requires s1 == 1 && s2 == 2
    ensures 3 * Count(s1, 2 * k, o) == Thrice(s1, Power2(2 * k), o)
    ensures 3 * Count(s2, 2 * k, o) == Thrice(s2, Power2(2 * k), o)
  {
    if k == 0 {
      NoBits(s1, o);
      NoBits(s2, o);
    } else {
      FromOneAndTwo(s1, s2, k - 1, o);
      TwoMoreBits(s1, s2, 2 * k - 2, o);
    }
  }

  /** Of the strings of 2k + 1 bits, each digit gets the same number, and two
      strings are left, one in state 1 and one in state 2. */
  lemma TritsUniform(s0: State, k: nat, o: Outcome)
    requires s0 == 0
    ensures match o
            case Return(_) => 3 * Count(s0, 2 * k + 1, o) == Power2(2 * k + 1) - 2
            case Goto(s) => Count(s0, 2 * k + 1, o) == if s == 1 || s == 2 then 1 else 0
  {
    var s1: State, s2: State :| s1 == 1 && s2 == 2;
    FromOneAndTwo(s1, s2, k, o);
    CountStep(s0, 2 * k, o);
  }

  // ----- A die from a digit and one more bit

  function FaceOf(t: Trit, b: bool): nat {
    t + (if b then 3 else 0) + 1
  }

  /** The die from these bits; None when there are too few. */
  function Die(first: Outcome, bits: seq<bool>): Option<nat>
    decreases |bits|
  {
    if bits == [] then None
    else
      match first
      case Goto(state) => Die(Step(state, bits[0]), bits[1..])
      case Return(t) => Some(FaceOf(t, bits[0]))
  }

  function Dies(first: Outcome): seq<bool> -> Option<nat> {
    (bits: seq<bool>) => Die(first, bits)
  }

  /** The number of strings of n bits that give this die. */
  function DieCount(first: Outcome, n: nat, o: Option<nat>): nat {
    Hits(Dies(first), Strings(n), o)
  }

  /** The bit after the digit decides between two faces. */
  lemma LastBit(t: Trit, n: nat, face: nat)
    ensures DieCount(Return(t), n + 1, Some(face)) == if face == FaceOf(t, false) || face == FaceOf(t, true) then Power2(n) else 0
  {
    var f, f0, f1 := Dies(Return(t)), (x: seq<bool>) => Some(FaceOf(t, false)), (x: seq<bool>) => Some(FaceOf(t, true));
    HitsByBit(f, f0, f1, n, Some(face));
    StringsAll(n);
    HitsConstant(f0, Some(FaceOf(t, false)), Strings(n), Some(face));
    HitsConstant(f1, Some(FaceOf(t, true)), Strings(n), Some(face));
  }

  lemma DieStep(state: State, n: nat, o: Option<nat>)
    ensures DieCount(Goto(state), n + 1, o) == DieCount(Step(state, false), n, o) + DieCount(Step(state, true), n, o)
  {
    var f, f0, f1 := Dies(Goto(state)), Dies(Step(state, false)), Dies(Step(state, true));
    forall x ensures f([false] + x) == f0(x) && f([true] + x) == f1(x) {
      assert ([false] + x)[1..] == x && ([true] + x)[1..] == x;
    }
    HitsByBit(f, f0, f1, n, o);
  }

  lemma DieAfterReturn(u: Trit, n: nat, t: Trit, b: bool)
    ensures DieCount(Return(u), n + 1, Some(FaceOf(t, b))) == CountAfter(Return(u), n, Return(t))
  {
    LastBit(u, n, FaceOf(t, b));
    CountReturned(u, n, Return(t));
  }

  lemma DieAfterOneBit(state: State, t: Trit, b: bool)
    ensures DieCount(Goto(state), 1, Some(FaceOf(t, b))) == CountAfter(Goto(state), 0, Return(t))
  {
    var n: nat :| n == 0;
    DieStep(state, n, Some(FaceOf(t, b)));
    NoDie(Step(state, false), Some(FaceOf(t, b)));
    NoDie(Step(state, true), Some(FaceOf(t, b)));
    NoBits(state, Return(t));
  }

  lemma DieAfterStep(state: State, n: nat, t: Trit, b: bool)
    requires DieCount(Step(state, false), n + 1, Some(FaceOf(t, b))) == CountAfter(Step(state, false), n, Return(t))
    requires DieCount(Step(state, true), n + 1, Some(FaceOf(t, b))) == CountAfter(Step(state, true), n, Return(t))
    ensures DieCount(Goto(state), n + 2, Some(FaceOf(t, b))) == CountAfter(Goto(state), n + 1, Return(t))
  {
    DieStep(state, n + 1, Some(FaceOf(t, b)));
    CountStep(state, n, Return(t));
  }

  /** As many strings of n + 1 bits give a face as strings of n bits give its digit. */
  lemma {:induction false} DieIsTrit(first: Outcome, n: nat, t: Trit, b: bool)
    ensures DieCount(first, n + 1, Some(FaceOf(t, b))) == CountAfter(first, n, Return(t))
    decreases n
  {
    match first
    case Return(u) =>
      DieAfterReturn(u, n, t, b);
    case Goto(state) =>
      if n == 0 {
        DieAfterOneBit(state, t, b);
      } else {
        DieIsTrit(Step(state, false), n - 1, t, b);
        DieIsTrit(Step(state, true), n - 1, t, b);
        DieAfterStep(state, n - 1, t, b);
      }
  }

  lemma NoDie(first: Outcome, o: Option<nat>)
    requires o.Some?
    ensures DieCount(first, 0, o) == 0
  {
    OneString(Dies(first), o);
  }

  /** Of the strings of 2k + 2 bits every face gets the same number. */
  lemma DieUniform(s0: State, k: nat, face: nat)
    requires s0 == 0 && 1 <= face <= 6
    ensures 3 * DieCount(Goto(s0), 2 * k + 2, Some(face)) == Power2(2 * k + 1) - 2
  {
    var t: Trit, b := (face - 1) % 3, face > 3;
    assert FaceOf(t, b) == face;
    DieIsTrit(Goto(s0), 2 * k + 1, t, b);
    TritsUniform(s0, k, Return(t));
  }

  // ----- Rejection sampling

  const EXP232: nat := 4294967296
  const EXP232_Q: nat := 715827882
  const EXP232_L: nat := 4294967292

  /** The constants of the source, written out there. */
  lemma Exp232()
    ensures EXP232_Q == EXP232 / 6 && EXP232_L == 6 * EXP232_Q <= EXP232
  {
  }

  /** The face of an accepted word, when the range of words holds six times q. */
  function Face(w: nat, q: nat): nat
    requires q > 0
  {
    1 + w / q
  }

  /** A word is accepted and gives this face exactly when it lies in the face's own
      range of q words. */
  lemma FaceRange(w: nat, q: nat, face: nat)
    requires q > 0 && face > 0
    ensures Face(w, q) == face <==> (face - 1) * q <= w < (face - 1) * q + q
  {
    var d := w / q;
    assert w == d * q + w % q;
    MultiplesIf(d + 1, face - 1, q);
    MultiplesIf(face, d, q);
  }

  lemma MultiplesIf(a: nat, b: nat, q: nat)
    ensures a <= b ==> a * q <= b * q
  {
  }

  /** The accepted words below m that give this face. */
  function Preimages(m: nat, q: nat, face: nat): nat
    requires q > 0
  {
    if m == 0 then 0 else Preimages(m - 1, q, face) + (if Face(m - 1, q) == face then 1 else 0)
  }

  lemma {:induction false} PreimagesBelow(m: nat, q: nat, face: nat, low: nat)
    requires q > 0 && face > 0 && low == (face - 1) * q
    ensures Preimages(m, q, face) == if m <= low then 0 else if m < low + q then m - low else q
  {
    if m > 0 {
      PreimagesBelow(m - 1, q, face, low);
      FaceRange(m - 1, q, face);
    }
  }

  /** Every face has the same number of words. */
  lemma FacesUniform(q: nat, face: nat)
    requires q > 0 && 1 <= face <= 6
    ensures Preimages(6 * q, q, face) == q
  {
    MultiplesIf(face, 6, q);
    PreimagesBelow(6 * q, q, face, (face - 1) * q);
  }

  lemma FaceBounds(w: nat, q: nat)
    requires q > 0 && w < 6 * q
    ensures 1 <= Face(w, q) <= 6
  {
    var d := w / q;
    assert w == d * q + w % q;
    MultiplesIf(6, d, q);
  }

  /** The words that are accepted, in order. */
  function Accepted(words: seq<nat>, limit: nat): seq<nat> {
    if words == [] then []
    else (if words[0] < limit then [words[0]] else []) + Accepted(words[1..], limit)
  }

  /** The random number generators behind the dice, as a source of words. */
  class RngContext {
    const words: seq<nat>
    var pos: nat
    var c: nat

    constructor (words: seq<nat>)
      ensures this.words == words && pos == 0 && c == 0
    {
      this.words, pos, c := words, 0, 0;
    }

    ghost function Rest(limit: nat): seq<nat>
      requires pos <= |words|
      reads this
    {
      Accepted(words[pos..], limit)
    }

    /** Words are drawn until one is accepted; None when there are no more. */
    method RollDie(q: nat) returns (die: Option<nat>)
      requires pos <= |words| && q > 0
      modifies this`pos
      ensures pos <= |words|
      ensures var before := old(Rest(6 * q));
              if before == [] then die == None && Rest(6 * q) == []
              else die == Some(Face(before[0], q)) && 1 <= die.value <= 6 && Rest(6 * q) == before[1..]
    {
      ghost var before := Rest(6 * q);
      while pos < |words|
        invariant pos <= |words| && Rest(6 * q) == before
      {
        ghost var rest := words[pos..];
        var tmprnd := words[pos];
        pos := pos + 1;
        assert rest[0] == tmprnd && rest[1..] == words[pos..];
        if tmprnd < 6 * q {
          assert before == [tmprnd] + Rest(6 * q);
          FaceBounds(tmprnd, q);
          return Some(Face(tmprnd, q));
        }
      }
      die := None;
    }

    /** RollDice for the generators that draw words: two dice from the first two
        words that are accepted. */
    method RollDice(q: nat) returns (ok: bool, anDice: (nat, nat))
      requires pos <= |words| && q > 0
      modifies this
      ensures pos <= |words|
      ensures var before := old(Rest(6 * q));
              && ok == (|before| >= 2)
              && (ok ==> && anDice == (Face(before[0], q), Face(before[1], q))
                         && 1 <= anDice.0 <= 6 && 1 <= anDice.1 <= 6
                         && Rest(6 * q) == before[2..] && c == old(c) + 2)
    {
      ok, anDice := false, (0, 0);
      var first := RollDie(q);
      if first.Some? {
        var second := RollDie(q);
        if second.Some? {
          ok, anDice := true, (first.value, second.value);
          c := c + 2;
        }
      }
    }
  }
}
