/** Doubles and the records that answer them, in a list of records of which only
    the kind matters (gnubg/analysis.c, lines 953 to 998). */
module Linking {
  import opened Common

  /** A double is normal when it is neither a beaver nor a raccoon. */
  datatype Kind = Other | NormalDouble | OtherDouble

  /** The double that record k answers: the last normal double among the doubles
      just before it. */
  function DoubleBefore(kinds: seq<Kind>, k: nat): (j: Option<nat>)
    requires k <= |kinds|
    ensures j.Some? ==> j.value < k
  {
    if k == 0 || kinds[k - 1] == Other then None
    else if kinds[k - 1] == NormalDouble then Some(k - 1)
    else DoubleBefore(kinds, k - 1)
  }

  /** Record k is not a double, and record j is the double that it answers. */
  ghost predicate Answers(kinds: seq<Kind>, j: nat, k: nat) {
    j < k < |kinds| && kinds[j] == NormalDouble && kinds[k] == Other && forall i :: j < i < k ==> kinds[i] == OtherDouble
  }

  lemma {:induction false} DoubleBeforeIs(kinds: seq<Kind>, k: nat, j: nat)
    requires k <= |kinds|
    ensures DoubleBefore(kinds, k) == Some(j) <==>
            j < k && kinds[j] == NormalDouble && forall i :: j < i < k ==> kinds[i] == OtherDouble
  {
    if k > 0 && kinds[k - 1] == OtherDouble {
      DoubleBeforeIs(kinds, k - 1, j);
    }
  }

  /** The records that are analysed with record k. */
  function Pair(kinds: seq<Kind>, k: nat): seq<nat>
    requires k < |kinds|
  {
    match DoubleBefore(kinds, k)
    case None => [k]
    case Some(j) => [j, k]
  }

  /** The records that are analysed, in order. */
  function Order(kinds: seq<Kind>, k: nat): seq<nat>
    requires k <= |kinds|
  {
    if k == 0 then []
    else if kinds[k - 1] == Other then Order(kinds, k - 1) + Pair(kinds, k - 1)
    else Order(kinds, k - 1)
  }

  ghost predicate Increasing(s: seq<nat>) {
    forall i, j :: 0 <= i < j < |s| ==> s[i] < s[j]
  }

  ghost predicate Below(s: seq<nat>, k: nat) {
    forall i :: 0 <= i < |s| ==> s[i] < k
  }

  /** A run of doubles adds nothing. */
  lemma {:induction false} DoublesWait(kinds: seq<Kind>, j: nat, k: nat)
    requires j <= k <= |kinds| && forall i :: j <= i < k ==> kinds[i] != Other
    ensures Order(kinds, k) == Order(kinds, j)
  {
    if j < k {
      DoublesWait(kinds, j, k - 1);
    }
  }

  lemma IncreasingMore(a: seq<nat>, j: nat, k: nat)
    requires Increasing(a)
    ensures Below(a, k) ==> Increasing(a + [k]) && Below(a + [k], k + 1)
    ensures Below(a, j) && j < k ==> Increasing(a + [j, k]) && Below(a + [j, k], k + 1)
  {
  }

  /** Records are analysed in the order of the list, none of them twice. */
  lemma {:induction false} InOrder(kinds: seq<Kind>, k: nat)
    requires k <= |kinds|
    ensures Increasing(Order(kinds, k)) && Below(Order(kinds, k), k)
    decreases k, 1
  {
    if k > 0 {
      InOrder(kinds, k - 1);
      if kinds[k - 1] == Other {
        InOrderNext(kinds, k - 1);
      }
    }
  }

  lemma {:induction false} InOrderNext(kinds: seq<Kind>, k: nat)
    requires k < |kinds| && kinds[k] == Other
    requires Increasing(Order(kinds, k)) && Below(Order(kinds, k), k)
    ensures Increasing(Order(kinds, k) + Pair(kinds, k)) && Below(Order(kinds, k) + Pair(kinds, k), k + 1)
    decreases k, 0
  {
    match DoubleBefore(kinds, k)
    case None =>
      IncreasingMore(Order(kinds, k), 0, k);
    case Some(j) =>
      DoubleBeforeIs(kinds, k, j);
      DoublesWait(kinds, j, k);
      InOrder(kinds, j);
      IncreasingMore(Order(kinds, k), j, k);
  }

  /** A record is analysed exactly when it is no double, or is answered. */
  lemma {:induction false} Exactly(kinds: seq<Kind>, n: nat, j: nat)
    requires n <= |kinds|
    ensures j in Order(kinds, n) <==> (j < n && kinds[j] == Other) || exists k: nat :: k < n && Answers(kinds, j, k)
  {
    if n > 0 {
      Exactly(kinds, n - 1, j);
      DoubleBeforeIs(kinds, n - 1, j);
      if kinds[n - 1] == Other {
        assert j in Pair(kinds, n - 1) <==> j == n - 1 || Answers(kinds, j, n - 1);
      }
    }
  }

  /** Between two normal doubles there is another kind of record. */
  ghost predicate Separated(kinds: seq<Kind>) {
    forall i, j :: 0 <= i < j < |kinds| && kinds[i] == NormalDouble && kinds[j] == NormalDouble
                   ==> exists k :: i < k < j && kinds[k] == Other
  }

  /** The first record from k on that is not a double. */
  lemma {:induction false} FirstOther(kinds: seq<Kind>, k: nat, m: nat) returns (f: nat)
    requires k <= m < |kinds| && kinds[m] == Other
    ensures k <= f <= m && kinds[f] == Other && forall i :: k <= i < f ==> kinds[i] != Other
    decreases m - k
  {
    f := k;
    if kinds[k] != Other {
      f := FirstOther(kinds, k + 1, m);
    }
  }

  /** In a separated list only beavers, raccoons and the doubles that nothing but
      doubles follows are left out. */
  lemma UnlessLast(kinds: seq<Kind>, j: nat)
    requires Separated(kinds) && j < |kinds|
    ensures j in Order(kinds, |kinds|) <==>
            kinds[j] == Other || (kinds[j] == NormalDouble && exists m :: j < m < |kinds| && kinds[m] == Other)
  {
    Exactly(kinds, |kinds|, j);
    if kinds[j] == NormalDouble && exists m :: j < m < |kinds| && kinds[m] == Other {
      var m :| j < m < |kinds| && kinds[m] == Other;
      var f := FirstOther(kinds, j + 1, m);
      forall i | j < i < f ensures kinds[i] == OtherDouble {
        assert !exists k :: j < k < i && kinds[k] == Other;
      }
      assert Answers(kinds, j, f);
    }
  }

  /** Without that, the earlier of two normal doubles in a row is never analysed. */
  lemma EarlierDoubleLost(kinds: seq<Kind>, j: nat)
    requires j + 1 < |kinds| && kinds[j] == NormalDouble && kinds[j + 1] == NormalDouble
    ensures j !in Order(kinds, |kinds|)
  {
    Exactly(kinds, |kinds|, j);
    forall k: nat ensures !Answers(kinds, j, k) {
      assert k > j + 1 ==> kinds[j + 1] != OtherDouble;
    }
  }
}
