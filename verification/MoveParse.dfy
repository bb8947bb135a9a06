/** Reading a move back from text (gnubg/drawboard.c, lines 571 to 582 and 715 to
    899), as functions on the unread part of the text. */
module MoveParse {
  import opened Common
  import opened Moves

  // ----- Characters and numbers

  predicate IsF(s: string, i: nat) {
    i < |s| && (s[i] == 'f' || s[i] == 'F')
  }

  predicate IsA(s: string, i: nat) {
    i < |s| && (s[i] == 'a' || s[i] == 'A')
  }

  predicate IsR(s: string, i: nat) {
    i < |s| && (s[i] == 'r' || s[i] == 'R')
  }

  /** The leading digits as a number, and what follows them. */
  function Digits(s: string, value: nat): (r: (nat, string))
    ensures |r.1| <= |s| && (s != "" && IsDigit(s[0]) ==> |r.1| < |s|)
  {
    if s != "" && IsDigit(s[0]) then Digits(s[1..], 10 * value + (s[0] as int - '0' as int)) else (value, s)
  }

  /** The result of a strtol that saturates at 32 bits. */
  function Clamp(v: int): int {
    if v > 0x7FFF_FFFF then 0x7FFF_FFFF else if v < -0x8000_0000 then -0x8000_0000 else v
  }

  function Strtol(s: string): (r: (int, string))
    ensures |r.1| <= |s|
    ensures s != "" && IsDigit(s[0]) ==> |r.1| < |s|
  {
    var t := SkipSpace(s);
    var neg := t != "" && t[0] == '-';
    var u := if neg || (t != "" && t[0] == '+') then t[1..] else t;
    if u == "" || !IsDigit(u[0]) then (0, s)
    else
      var (v, rest) := Digits(u, 0);
      var signed := if neg then 0 - v else v;
      (Clamp(signed), rest)
  }

  // ----- Reading points

  /** What has been read: the points, the positions that a '/' stands before, and
      the points that were followed by a star.  The source reads the stars but
      does not use them. */
  datatype Read = Read(user: seq<int>, slash: set<nat>, stars: set<int>)

  /** The start of the chain that ends before position k, or -1. */
  function ChainStart(slash: set<nat>, k: int): (b: int)
    ensures b == -1 || (0 <= b <= k && b !in slash)
    ensures b <= k || b == -1
    decreases k + 1
  {
    if k < 0 then -1 else if k !in slash then k else ChainStart(slash, k - 1)
  }

  /** Appends positions j to end again, with their slashes. */
  function CopyOnce(r: Read, j: nat, end: nat): (r': Read)
    requires j <= end <= |r.user|
    ensures |r'.user| == |r.user| + end - j
    decreases end - j
  {
    if j == end then r
    else
      var slash := if j in r.slash then r.slash + {|r.user|} else r.slash;
      CopyOnce(Read(r.user + [r.user[j]], slash, r.stars), j + 1, end)
  }

  function Copy(r: Read, begin: nat, end: nat, n: nat): Read
    requires begin <= end <= |r.user|
    decreases n
  {
    if n == 0 then r else Copy(CopyOnce(r, begin, end), begin, end, n - 1)
  }

  function AfterOff(s: string): string
    requires s != ""
  {
    if s[0] != '-' && IsF(s, 1) then (if IsF(s, 2) then s[3..] else s[2..]) else s[1..]
  }

  function AfterBar(s: string): string
    requires s != ""
  {
    if IsA(s, 1) then (if IsR(s, 2) then s[3..] else s[2..]) else s[1..]
  }

  /** The checks on a count that come before the one for room. */
  predicate CanRepeat(r: Read, n: int) {
    n >= 1 && HasChain(r)
  }

  /** A chain ends where the points end, and no slash follows it. */
  predicate HasChain(r: Read) {
    var c := |r.user|;
    c >= 2 && c !in r.slash && ChainStart(r.slash, c - 1) >= 0
  }

  function ChainLength(r: Read): nat
    requires HasChain(r)
  {
    |r.user| - ChainStart(r.slash, |r.user| - 1)
  }

  /** How many points there would be after n more copies of the last chain. */
  function RepeatedSize(r: Read, n: int): int
    requires CanRepeat(r, n)
  {
    |r.user| + ChainLength(r) * n
  }

  /** The '(' case: checks the count and repeats the last chain. */
  function Repeated(r: Read, n: int): Option<Read> {
    if !CanRepeat(r, n) || RepeatedSize(r, n) > 8 then None
    else Some(Copy(r, ChainStart(r.slash, |r.user| - 1), |r.user|, n))
  }

  /** What one round of the reading loop leaves unread. */
  function AfterOne(s: string): string
    requires s != ""
  {
    if IsDigit(s[0]) then Strtol(s).1
    else if s[0] == 'o' || s[0] == 'O' || s[0] == '-' then AfterOff(s)
    else if s[0] == 'b' || s[0] == 'B' then AfterBar(s)
    else if s[0] == '(' then
      var (v, rest) := Strtol(s[1..]);
      if v >= 2 && rest != "" then rest[1..] else rest
    else s[1..]
  }

  /** What has been read after one round, or nothing for an error. */
  function ReadOne(s: string, r: Read): Option<Read>
    requires s != ""
  {
    var c := |r.user|;
    if IsSpace(s[0]) then Some(r)
    else if IsDigit(s[0]) then
      var n := Strtol(s).0;
      if c >= 8 || n < 0 || n > 25 then None else Some(r.(user := r.user + [n]))
    else if s[0] == 'o' || s[0] == 'O' || s[0] == '-' then
      if c >= 8 then None else Some(r.(user := r.user + [0]))
    else if s[0] == 'b' || s[0] == 'B' then
      if c >= 8 then None else Some(r.(user := r.user + [25]))
    else if s[0] == '/' then
      if c == 0 || c in r.slash then None else Some(r.(slash := r.slash + {c}))
    else if s[0] == '*' then
      Some(if c > 0 then r.(stars := r.stars + {r.user[c - 1]}) else r)
    else if s[0] == ',' || s[0] == ')' then Some(r)
    else if s[0] == '(' then Repeated(r, Strtol(s[1..]).0 - 1)
    else None
  }

  /** The rest is what is left of s after at least `from` characters. */
  ghost predicate LeftOf(rest: string, s: string, from: nat) {
    |rest| + from <= |s| && rest == s[|s| - |rest|..]
  }

  lemma Dropped(s: string, k: nat)
    requires k <= |s|
    ensures LeftOf(s[k..], s, k)
  {
  }

  lemma LeftOfTail(rest: string, s: string, k: nat)
    requires k <= |s| && LeftOf(rest, s[k..], 0)
    ensures LeftOf(rest, s, k)
    ensures rest != "" ==> LeftOf(rest[1..], s, k + 1)
  {
    var m := |s| - |rest|;
    assert rest == s[m..];
    if rest != "" {
      assert rest[1..] == s[m + 1..];
    }
  }

  lemma AfterNameLeft(s: string)
    requires s != ""
    ensures LeftOf(AfterOff(s), s, 1) && LeftOf(AfterBar(s), s, 1)
  {
    Dropped(s, 1);
    if |s| >= 2 {
      Dropped(s, 2);
    }
    if |s| >= 3 {
      Dropped(s, 3);
    }
  }

  lemma {:induction false} DigitsShrink(s: string, value: nat)
    ensures |Digits(s, value).1| <= |s|
    ensures s != "" && IsDigit(s[0]) ==> |Digits(s, value).1| < |s|
  {
    if s != "" && IsDigit(s[0]) {
      DigitsShrink(s[1..], 10 * value + (s[0] as int - '0' as int));
    }
  }

  lemma AfterNumberLeft(s: string, rest: string)
    requires s != "" && IsDigit(s[0]) && rest == Strtol(s).1
    ensures LeftOf(rest, s, 1)
  {
    StrtolSuffix(s);
    DigitsShrink(s, 0);
  }

  lemma AfterCountLeft(s: string, rest: string)
    requires s != "" && rest == Strtol(s[1..]).1
    ensures LeftOf(rest, s, 1) && (rest != "" ==> LeftOf(rest[1..], s, 2))
  {
    StrtolSuffix(s[1..]);
    LeftOfTail(rest, s, 1);
  }

  lemma AfterOneLeft(s: string)
    requires s != ""
    ensures LeftOf(AfterOne(s), s, 1)
  {
    if IsDigit(s[0]) {
      AfterNumberLeft(s, Strtol(s).1);
    } else if s[0] == '(' {
      AfterCountLeft(s, Strtol(s[1..]).1);
    } else {
      AfterNameLeft(s);
      Dropped(s, 1);
    }
  }

  lemma {:induction false} DigitsSuffix(s: string, value: nat)
    ensures Digits(s, value).1 == s[|s| - |Digits(s, value).1|..]
  {
    if s != "" && IsDigit(s[0]) {
      DigitsSuffix(s[1..], 10 * value + (s[0] as int - '0' as int));
    }
  }

  lemma {:induction false} SkipSpaceSuffix(s: string)
    ensures SkipSpace(s) == s[|s| - |SkipSpace(s)|..]
  {
    if s != "" && IsSpace(s[0]) {
      SkipSpaceSuffix(s[1..]);
    }
  }

  lemma StrtolSuffix(s: string)
    ensures Strtol(s).1 == s[|s| - |Strtol(s).1|..]
  {
    SkipSpaceSuffix(s);
    var t := SkipSpace(s);
    var u := if t != "" && (t[0] == '-' || t[0] == '+') then t[1..] else t;
    DigitsSuffix(u, 0);
  }

  /** The reading loop. */
  function Scan(s: string, r: Read): Option<Read>
    decreases |s|
  {
    if s == "" then (if |r.user| in r.slash then None else Some(r))
    else
      AfterOneLeft(s);
      var r' := ReadOne(s, r);
      if r'.None? then None else Scan(AfterOne(s), r'.value)
  }

  // ----- Points to steps

  /** Pairs the points from position j on into the list of the source, which
      alternates sources and destinations. */
  function Convert(r: Read, j: nat, an: seq<int>): Option<seq<int>>
    requires j <= |r.user|
    decreases |r.user| - j
  {
    if j == |r.user| then (if |an| % 2 == 1 then None else Some(an))
    else
      var i, p := |an|, r.user[j];
      if i >= 8 || (i % 2 == 1 && p == 25) || (i % 2 == 0 && p == 0) then None
      else if i % 2 == 1 && j + 1 in r.slash then
        if i == 7 || p == 0 || p == 25 then None else Convert(r, j + 1, an + [p, p])
      else Convert(r, j + 1, an + [p])
  }

  /** The pairs of a flat list. */
  function Pairs(an: seq<int>): (m: seq<Step>)
    ensures |m| == |an| / 2
  {
    if |an| < 2 then [] else [Step(an[0], an[1])] + Pairs(an[2..])
  }

  const Nothing := Read([], {}, {})

  /** The move that a text stands for, in canonical order. */
  function Parse(s: string): Option<seq<Step>> {
    var r := Scan(s, Nothing);
    if r.None? then None
    else
      var an := Convert(r.value, 0, []);
      if an.None? then None else Some(Sort(Pairs(an.value)))
  }

  // ----- The loops of the parser, hidden

  /** The reading loop.  It is given by its property, and not as a call, to keep
      the verifier from unrolling it wherever a text is mentioned. */
  ghost function Reading(s: string, r: Read): Option<Read> {
    assert IsReading(s, r, Scan(s, r));
    var read :| IsReading(s, r, read);
    read
  }

  ghost predicate IsReading(s: string, r: Read, read: Option<Read>) {
    forall t: string {:trigger Scan(t, r)} :: t == s ==> read == Scan(t, r)
  }

  lemma ReadingIs(s: string, r: Read)
    ensures Reading(s, r) == Scan(s, r)
  {
  }

  /** The pairing loop, hidden in the same way. */
  ghost function Pairing(r: Read, j: nat, an: seq<int>): Option<seq<int>>
    requires j <= |r.user|
  {
    assert IsPairing(r, j, an, Convert(r, j, an));
    var pairs :| IsPairing(r, j, an, pairs);
    pairs
  }

  ghost predicate IsPairing(r: Read, j: nat, an: seq<int>, pairs: Option<seq<int>>)
    requires j <= |r.user|
  {
    forall k: nat {:trigger Convert(r, k, an)} :: k == j ==> pairs == Convert(r, k, an)
  }

  lemma PairingIs(r: Read, j: nat, an: seq<int>)
    requires j <= |r.user|
    ensures Pairing(r, j, an) == Convert(r, j, an)
  {
  }
}
