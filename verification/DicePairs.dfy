/** Which digit and which die a string of bits gives: it is decided by the first two
    neighbours that are equal (gnubg/dice.c, lines 236 to 281 and 820 to 838). */
module DicePairs {
  import opened Common
  import opened Dice

  /** The first two equal neighbours are at j and j + 1. */
  ghost predicate FirstPair(bits: seq<bool>, j: nat) {
    j + 1 < |bits| && bits[j] == bits[j + 1] && forall i :: 0 <= i < j ==> bits[i] != bits[i + 1]
  }

  ghost predicate NoPair(bits: seq<bool>) {
    forall i :: 0 <= i < |bits| - 1 ==> bits[i] != bits[i + 1]
  }

  /** The digit: 1 for a pair at an odd place, and otherwise 2 for ones and 0 for zeros. */
  function PairDigit(j: nat, ones: bool): Trit {
    if j % 2 == 1 then 1 else if ones then 2 else 0
  }

  /** The state after a bit at place i, when there has been no pair. */
  function StateAfter(last: bool, i: nat): State {
    if i % 2 == 0 then (if last then 2 else 1) else if last then 3 else 4
  }

  /** The last bit was at place i. */
  lemma {:induction false} PairFrom(state: State, last: bool, i: nat, bits: seq<bool>, j: nat)
    requires state == StateAfter(last, i) && FirstPair([last] + bits, j)
    ensures j < |bits| && Used(state, bits) == j + 1
    ensures Run(state, bits) == Return(PairDigit(i + j, bits[j]))
    decreases |bits|
  {
    PairLater(last, bits, j);
    if j > 0 {
      PairFrom(StateAfter(bits[0], i + 1), bits[0], i + 1, bits[1..], j - 1);
      GoesOn(state, last, i, bits);
    }
  }

  lemma PairLater(last: bool, bits: seq<bool>, j: nat)
    requires FirstPair([last] + bits, j)
    ensures j < |bits|
    ensures if j == 0 then bits[0] == last
      else bits[0] != last && FirstPair([bits[0]] + bits[1..], j - 1) && bits[1..][j - 1] == bits[j]
  {
    var all := [last] + bits;
    assert all[0] == last && all[1] == bits[0];
    assert bits == [bits[0]] + bits[1..];
    assert forall k :: 0 <= k < |bits| ==> bits[k] == all[k + 1];
  }

  lemma GoesOn(state: State, last: bool, i: nat, bits: seq<bool>)
    requires state == StateAfter(last, i) && bits != [] && bits[0] != last
    ensures Run(state, bits) == Run(StateAfter(bits[0], i + 1), bits[1..])
    ensures Used(state, bits) == 1 + Used(StateAfter(bits[0], i + 1), bits[1..])
  {
  }

  lemma {:induction false} NoPairFrom(state: State, last: bool, i: nat, bits: seq<bool>)
    requires state == StateAfter(last, i) && NoPair([last] + bits)
    ensures Run(state, bits).Goto?
    decreases |bits|
  {
    if bits != [] {
      var all := [last] + bits;
      assert all[0] != all[1] == bits[0];
      assert bits == [bits[0]] + bits[1..];
      assert forall k :: 0 <= k < |bits| ==> bits[k] == all[k + 1];
      var next := StateAfter(bits[0], i + 1);
      NoPairFrom(next, bits[0], i + 1, bits[1..]);
    }
  }

  /** From the start, with a first pair at j. */
  lemma PairRead(s0: State, bits: seq<bool>, j: nat)
    requires s0 == 0 && FirstPair(bits, j)
    ensures Run(s0, bits) == Return(PairDigit(j, bits[j])) && Used(s0, bits) == j + 2
  {
    assert bits == [bits[0]] + bits[1..];
    var next := StateAfter(bits[0], 0);
    PairFrom(next, bits[0], 0, bits[1..], j);
  }

  lemma NoPairRead(s0: State, bits: seq<bool>)
    requires s0 == 0 && NoPair(bits)
    ensures Run(s0, bits).Goto?
  {
    if bits != [] {
      assert bits == [bits[0]] + bits[1..];
      var next := StateAfter(bits[0], 0);
      NoPairFrom(next, bits[0], 0, bits[1..]);
    }
  }

  /** There is a first pair, or none. */
  lemma {:induction false} PairOrNone(bits: seq<bool>)
    ensures NoPair(bits) || exists j: nat :: FirstPair(bits, j)
  {
    if |bits| >= 2 {
      if bits[0] == bits[1] {
        assert FirstPair(bits, 0);
      } else {
        PairOrNone(bits[1..]);
        if j: nat :| FirstPair(bits[1..], j) {
          assert FirstPair(bits, j + 1);
        } else {
          assert forall i :: 1 <= i < |bits| - 1 ==> bits[i] == bits[1..][i - 1];
        }
      }
    }
  }

  /** Bits give a digit exactly when two neighbours are equal.  The first ones decide it,
      and no bit after them is read. */
  lemma DigitExactly(s0: State, bits: seq<bool>, t: Trit)
    requires s0 == 0
    ensures Run(s0, bits) == Return(t)
       <==> exists j: nat :: FirstPair(bits, j) && t == if j % 2 == 1 then 1 else if bits[j] then 2 else 0
    ensures forall j: nat :: FirstPair(bits, j) ==> Used(s0, bits) == j + 2
  {
    forall j: nat | FirstPair(bits, j)
      ensures Run(s0, bits) == Return(PairDigit(j, bits[j])) && Used(s0, bits) == j + 2
    {
      PairRead(s0, bits, j);
    }
    PairOrNone(bits);
    if NoPair(bits) {
      NoPairRead(s0, bits);
    }
  }

  /** They give a die exactly when one more bit follows: its face is the digit and 1, and 3
      more if the bit is set. */
  lemma DieExactly(s0: State, bits: seq<bool>, face: nat)
    requires s0 == 0
    ensures Die(Goto(s0), bits) == Some(face)
       <==> exists j: nat :: FirstPair(bits, j) && j + 2 < |bits|
              && face == 1 + (if j % 2 == 1 then 1 else if bits[j] then 2 else 0) + if bits[j + 2] then 3 else 0
    ensures forall j: nat :: FirstPair(bits, j) && j + 2 < |bits| ==> DieUsed(bits) == j + 3
  {
    DieAfterRun(s0, bits);
    forall j: nat | FirstPair(bits, j)
      ensures Die(Goto(s0), bits) == Die(Return(PairDigit(j, bits[j])), bits[j + 2..])
      ensures j + 2 < |bits| ==> DieUsed(bits) == j + 3 && bits[j + 2..][0] == bits[j + 2]
    {
      PairRead(s0, bits, j);
    }
    PairOrNone(bits);
    if NoPair(bits) {
      NoPairRead(s0, bits);
    }
  }
}
