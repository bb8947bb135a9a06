/** The text of a board record (gnubg/drawboard.c, lines 921 to 956): words with
    colons between them. */
module FibsText {

  const COLON: char := ':'

  // ----- Words

  /** A name, with the separator of the record replaced. */
  function CopiedName(name: string): (t: string)
    ensures |t| == |name| && COLON !in t
  {
    seq(|name|, k requires 0 <= k < |name| => if name[k] != COLON then name[k] else '_')
  }

  /** A number as printf writes it. */
  function DecimalOf(n: nat): (s: string)
    ensures s != "" && forall k :: 0 <= k < |s| ==> '0' <= s[k] <= '9'
  {
    (if n < 10 then "" else DecimalOf(n / 10)) + [(n % 10) as char + '0']
  }

  function Decimal(n: int): (s: string)
    ensures COLON !in s
  {
    if n < 0 then ['-'] + DecimalOf(-n) else DecimalOf(n)
  }

  /** The number that a text of digits stands for. */
  function ValueOf(s: string): int {
    if s == "" then 0 else 10 * ValueOf(s[..|s| - 1]) + (s[|s| - 1] as int - '0' as int)
  }

  function Value(s: string): int {
    if s != "" && s[0] == '-' then -ValueOf(s[1..]) else ValueOf(s)
  }

  lemma {:induction false} DecimalOfReads(n: nat)
    ensures ValueOf(DecimalOf(n)) == n
  {
    var s := DecimalOf(n);
    if n >= 10 {
      DecimalOfReads(n / 10);
      assert s[..|s| - 1] == DecimalOf(n / 10);
    } else {
      assert s[..|s| - 1] == "";
    }
  }

  lemma SignReads(s: string)
    ensures Value(['-'] + s) == -ValueOf(s)
    ensures s != "" && s[0] != '-' ==> Value(s) == ValueOf(s)
  {
    assert (['-'] + s)[1..] == s;
  }

  lemma DecimalReads(n: int)
    ensures Value(Decimal(n)) == n
  {
    var m: nat, s: string :| m == (if n < 0 then -n else n) && s == DecimalOf(m);
    DecimalOfReads(m);
    SignReads(s);
  }

  // ----- The record

  /** Every number after a colon. */
  function NumbersText(f: seq<int>): string {
    if f == [] then "" else [COLON] + (Decimal(f[0]) + NumbersText(f[1..]))
  }

  /** The record, which starts with the word board. */
  function RecordText(word: string, name: string, opp: string, f: seq<int>): string {
    word + ([COLON] + (CopiedName(name) + ([COLON] + (CopiedName(opp) + NumbersText(f)))))
  }

  /** The words between the colons. */
  function Split(s: string): (words: seq<string>)
    ensures words != []
  {
    if s == "" then [""]
    else if s[0] == COLON then [""] + Split(s[1..])
    else var rest := Split(s[1..]); [[s[0]] + rest[0]] + rest[1..]
  }

  lemma {:induction false} SplitLast(w: string)
    requires COLON !in w
    ensures Split(w) == [w]
  {
    if w != "" {
      SplitLast(w[1..]);
      assert w == [w[0]] + w[1..];
    }
  }

  lemma {:induction false} SplitWord(w: string, rest: string)
    requires COLON !in w
    ensures Split(w + ([COLON] + rest)) == [w] + Split(rest)
  {
    if w == "" {
      assert w + ([COLON] + rest) == [COLON] + rest && ([COLON] + rest)[1..] == rest;
    } else {
      SplitWord(w[1..], rest);
      assert w == [w[0]] + w[1..];
      assert (w + ([COLON] + rest))[1..] == w[1..] + ([COLON] + rest);
    }
  }

  function Decimals(f: seq<int>): (words: seq<string>)
    ensures |words| == |f| && forall k :: 0 <= k < |f| ==> words[k] == Decimal(f[k])
  {
    if f == [] then [] else [Decimal(f[0])] + Decimals(f[1..])
  }

  lemma {:induction false} SplitNumbers(w: string, f: seq<int>)
    requires COLON !in w
    ensures Split(w + NumbersText(f)) == [w] + Decimals(f)
    decreases |f|
  {
    if f == [] {
      assert w + "" == w && [w] + [] == [w];
      SplitLast(w);
    } else {
      SplitWord(w, Decimal(f[0]) + NumbersText(f[1..]));
      SplitNumbers(Decimal(f[0]), f[1..]);
    }
  }

  /** No name can break the record: it splits into its first word, the two names
      and the numbers, which read back. */
  lemma RecordSplits(word: string, name: string, opp: string, f: seq<int>)
    requires COLON !in word
    ensures Split(RecordText(word, name, opp, f)) == [word, CopiedName(name), CopiedName(opp)] + Decimals(f)
    ensures forall k :: 0 <= k < |f| ==> Value(Decimals(f)[k]) == f[k]
  {
    SplitNumbers(CopiedName(opp), f);
    SplitThree(word, CopiedName(name), CopiedName(opp), NumbersText(f), Decimals(f));
    forall k | 0 <= k < |f| ensures Value(Decimals(f)[k]) == f[k] {
      DecimalReads(f[k]);
    }
  }

  lemma SplitThree(a: string, b: string, c: string, rest: string, words: seq<string>)
    requires COLON !in a && COLON !in b && Split(c + rest) == [c] + words
    ensures Split(a + ([COLON] + (b + ([COLON] + (c + rest))))) == [a, b, c] + words
  {
    SplitWord(b, c + rest);
    SplitWord(a, b + ([COLON] + (c + rest)));
    ThreeFirst(a, b, c, words);
  }

  lemma ThreeFirst(a: string, b: string, c: string, words: seq<string>)
    ensures [a] + ([b] + ([c] + words)) == [a, b, c] + words
  {
  }

  // ----- Writing

  /** The loop over the characters of a name. */
  method CopyName(name: string) returns (t: string)
    ensures t == CopiedName(name)
  {
    t := "";
    var i := 0;
    while i < |name|
      invariant 0 <= i <= |name| && |t| == i
      invariant forall k :: 0 <= k < i ==> t[k] == CopiedName(name)[k]
    {
      t := t + [if name[i] != COLON then name[i] else '_'];
      i := i + 1;
    }
  }

  lemma {:induction false} NumbersSnoc(f: seq<int>, v: int)
    ensures NumbersText(f + [v]) == NumbersText(f) + ([COLON] + Decimal(v))
  {
    if f == [] {
      assert [] + [v] == [v] && [v][1..] == [];
      assert Decimal(v) + "" == Decimal(v);
    } else {
      assert (f + [v])[1..] == f[1..] + [v];
      NumbersSnoc(f[1..], v);
    }
  }

  lemma NumbersNext(f: seq<int>, i: nat)
    requires i < |f|
    ensures NumbersText(f[..i + 1]) == NumbersText(f[..i]) + ([COLON] + Decimal(f[i]))
  {
    assert f[..i + 1] == f[..i] + [f[i]];
    NumbersSnoc(f[..i], f[i]);
  }

  /** The numbers, one after the other. */
  method WriteNumbers(f: seq<int>) returns (sz: string)
    ensures sz == NumbersText(f)
  {
    sz := "";
    var i := 0;
    while i < |f|
      invariant 0 <= i <= |f| && sz == NumbersText(f[..i])
    {
      NumbersNext(f, i);
      sz := sz + ([COLON] + Decimal(f[i]));
      i := i + 1;
    }
    assert f[..i] == f;
  }

  method WriteRecord(word: string, name: string, opp: string, f: seq<int>) returns (sz: string)
    ensures sz == RecordText(word, name, opp, f)
  {
    var t := CopyName(name);
    var u := CopyName(opp);
    var numbers := WriteNumbers(f);
    sz := word + ([COLON] + (t + ([COLON] + (u + numbers))));
  }
}
