/** Binomial coefficients, and the lazily filled table of 32-bit words that
    gnubg/positionid.c keeps them in. */
module Combinatorics {

  const WORD: nat := 0x1_0000_0000
  const MAX_N: nat := 40
  const MAX_R: nat := 25

  /** The number of ways to choose r of n things. */
  function Choose(n: nat, r: nat): nat {
    if r == 0 then 1
    else if n == 0 then 0
    else Choose(n - 1, r - 1) + Choose(n - 1, r)
  }

  lemma {:induction false} ChooseTooMany(n: nat, r: nat)
    requires n < r
    ensures Choose(n, r) == 0
  {
    if n > 0 {
      ChooseTooMany(n - 1, r - 1);
      ChooseTooMany(n - 1, r);
    }
  }

  lemma {:induction false} ChooseAll(n: nat)
    ensures Choose(n, n) == 1
  {
    if n > 0 {
      ChooseAll(n - 1);
      ChooseTooMany(n - 1, n);
    }
  }

  lemma {:induction false} ChooseOne(n: nat)
    ensures Choose(n, 1) == n
  {
    if n > 0 {
      ChooseOne(n - 1);
    }
  }

  lemma {:induction false} ChoosePositive(n: nat, r: nat)
    requires r <= n
    ensures Choose(n, r) > 0
  {
    if r > 0 {
      ChoosePositive(n - 1, r - 1);
    }
  }

  lemma {:induction false} ChooseMonotone(m: nat, n: nat, r: nat)
    requires m <= n
    ensures Choose(m, r) <= Choose(n, r)
    decreases n
  {
    if m < n && r > 0 {
      ChooseMonotone(m, n - 1, r);
    }
  }

  lemma AbsorbSum(n: nat, r: nat, a: nat, b: nat, x: nat, y: nat)
    requires n > 1 && r > 1 && r * a == (n - 1) * x && (r - 1) * b == (n - 1) * y && b == x + y
    ensures r * (a + b) == n * b
  {
    assert (n - 1) * b == (n - 1) * x + (n - 1) * y;
    assert r * (a + b) == r * a + (r - 1) * b + b;
  }

  /** Absorption: choosing r of n and marking one of the chosen. */
  lemma {:induction false} ChooseAbsorb(n: nat, r: nat)
    requires 1 <= n && 1 <= r
    ensures r * Choose(n, r) == n * Choose(n - 1, r - 1)
  {
    if n == 1 {
      ChooseTooMany(0, r);
      if r > 1 {
        ChooseTooMany(0, r - 1);
      }
    } else {
      ChooseAbsorb(n - 1, r);
      if r > 1 {
        ChooseAbsorb(n - 1, r - 1);
        AbsorbSum(n, r, Choose(n - 1, r), Choose(n - 1, r - 1), Choose(n - 2, r - 1), Choose(n - 2, r - 2));
      }
    }
  }

  /** No row sums to more than a power of two, so rows up to 31 fit 32 bits. */
  lemma {:induction false} ChooseFits(n: nat, r: nat)
    ensures Choose(n, r) <= Power2(n)
    ensures n <= 31 ==> Choose(n, r) < WORD
  {
    Power2Monotone(0, n);
    if n <= 31 {
      Power2Monotone(n, 31);
      Power2Of31();
    }
    if n > 0 && r > 0 {
      ChooseFits(n - 1, r - 1);
      ChooseFits(n - 1, r);
    }
  }

  function Power2(n: nat): nat {
    if n == 0 then 1 else 2 * Power2(n - 1)
  }

  lemma {:induction false} Power2Monotone(m: nat, n: nat)
    requires m <= n
    ensures 1 <= Power2(m) <= Power2(n)
    decreases n
  {
    if m < n {
      Power2Monotone(m, n - 1);
    } else if m > 0 {
      Power2Monotone(m - 1, m - 1);
    }
  }

  lemma Power2Of31()
    ensures Power2(31) == 0x8000_0000
  {
    Power2Plus4(0); Power2Plus4(4); Power2Plus4(8); Power2Plus4(12);
    Power2Plus4(16); Power2Plus4(20); Power2Plus4(24);
    assert Power2(28) == 0x1000_0000;
  }

  lemma Power2Plus4(n: nat)
    ensures Power2(n + 4) == 16 * Power2(n)
  {
    assert Power2(n + 2) == 4 * Power2(n);
  }

  /** What the table stores at row i, column j: the coefficient reduced to an
      unsigned 32-bit word, because the entries of the far corner overflow. */
  function Entry(i: nat, j: nat): (e: nat) {
    Choose(i + 1, j + 1) % WORD
  }

  lemma EntryFirstColumn(i: nat)
    requires i < MAX_N
    ensures Entry(i, 0) == i + 1
  {
    ChooseOne(i + 1);
  }

  lemma EntryFirstRow(j: nat)
    requires 1 <= j
    ensures Entry(0, j) == 0
  {
    ChooseTooMany(1, j + 1);
  }

  /** Pascal's rule survives the wrap-around of 32-bit addition. */
  lemma EntryPascal(i: nat, j: nat)
    requires 1 <= i && 1 <= j
    ensures Entry(i, j) == (Entry(i - 1, j - 1) + Entry(i - 1, j)) % WORD
  {
    assert Choose(i + 1, j + 1) == Choose(i, j) + Choose(i, j + 1);
  }

  class CombinationTable {
    const table: array2<nat>
    var calculated: bool

    ghost predicate RowDone(i: nat)
      requires i < table.Length0
      reads table
    {
      forall j: nat :: j < table.Length1 ==> table[i, j] == Entry(i, j)
    }

    ghost predicate Valid()
      reads this, table
    {
      && table.Length0 == MAX_N && table.Length1 == MAX_R
      && (calculated ==> forall i: nat :: i < MAX_N ==> RowDone(i))
    }

    constructor ()
      ensures Valid() && !calculated && fresh(table)
    {
      table := new nat[MAX_N, MAX_R];
      calculated := false;
    }

    /** Fills the table row by row with Pascal's rule. */
    method InitCombination()
      requires Valid()
      modifies this, table
      ensures Valid() && calculated
    {
      var i := 0;
      while i < MAX_N
        invariant 0 <= i <= MAX_N
        invariant forall k: nat :: k < i ==> table[k, 0] == Entry(k, 0)
      {
        table[i, 0] := i + 1;
        EntryFirstColumn(i);
        i := i + 1;
      }
      var j := 1;
      while j < MAX_R
        invariant 1 <= j <= MAX_R
        invariant forall k: nat :: k < MAX_N ==> table[k, 0] == Entry(k, 0)
        invariant forall k: nat :: k < j ==> table[0, k] == Entry(0, k)
      {
        table[0, j] := 0;
        EntryFirstRow(j);
        j := j + 1;
      }
      i := 1;
      while i < MAX_N
        invariant 1 <= i <= MAX_N
        invariant forall k: nat :: k < MAX_N ==> table[k, 0] == Entry(k, 0)
        invariant forall k: nat :: k < i ==> RowDone(k)
      {
        label before:
        FillRow(i);
        forall k: nat | k < i
          ensures RowDone(k)
        {
          assert old@before(RowDone(k));
        }
        i := i + 1;
      }
      calculated := true;
    }

    /** The inner loop: row i from row i - 1. */
    method FillRow(i: nat)
      requires table.Length0 == MAX_N && table.Length1 == MAX_R
      requires 1 <= i < MAX_N && RowDone(i - 1) && table[i, 0] == Entry(i, 0)
      modifies table
      ensures RowDone(i)
      ensures forall k, l :: 0 <= k < MAX_N && 0 <= l < MAX_R && k != i ==> table[k, l] == old(table[k, l])
    {
      var j := 1;
      while j < MAX_R
        invariant 1 <= j <= MAX_R
        invariant forall k: nat :: k < j ==> table[i, k] == Entry(i, k)
        invariant forall k, l :: 0 <= k < MAX_N && 0 <= l < MAX_R && k != i ==> table[k, l] == old(table[k, l])
      {
        assert table[i - 1, j - 1] == Entry(i - 1, j - 1) && table[i - 1, j] == Entry(i - 1, j);
        table[i, j] := (table[i - 1, j - 1] + table[i - 1, j]) % WORD;
        EntryPascal(i, j);
        j := j + 1;
      }
    }

    /** The stored word, computed on first use.  It is exact for every row the
        position ranks use; only rows above 31 can wrap around. */
    method Combination(n: nat, r: nat) returns (v: nat)
      requires Valid() && 1 <= n <= MAX_N && 1 <= r <= MAX_R
      modifies this, table
      ensures Valid() && calculated
      ensures v == Choose(n, r) % WORD
      ensures n <= 31 ==> v == Choose(n, r)
    {
      if !calculated {
        InitCombination();
      }
      assert RowDone(n - 1);
      v := table[n - 1, r - 1];
      ChooseFits(n, r);
    }
  }
}
