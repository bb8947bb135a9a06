/** The texts of moves that ParseMove reads, written out: what each of them stands for,
    and which of them it refuses (gnubg/drawboard.c, lines 715 to 899). */
module MoveWritten {
  import opened Common
  import opened Moves
  import opened MoveParse
  import opened MoveGuard
  import opened MoveChains
  import opened MoveRoundTrip

  // ----- The names of points

  ghost predicate Numeral(w: string) {
    w != "" && forall k :: 0 <= k < |w| ==> '0' <= w[k] <= '9'
  }

  /** The value of a numeral: its last digit counts 1, the one before it 10, and so on. */
  ghost function Value(w: string): (v: nat)
    requires forall k :: 0 <= k < |w| ==> '0' <= w[k] <= '9'
  {
    if w == "" then 0 else 10 * Value(w[..|w| - 1]) + (w[|w| - 1] as int - '0' as int)
  }

  ghost predicate SpellsOff(w: string) {
    || w == "-"
    || (1 <= |w| <= 3 && w[0] in "oO" && (|w| >= 2 ==> w[1] in "fF") && (|w| == 3 ==> w[2] in "fF"))
  }

  ghost predicate SpellsBar(w: string) {
    1 <= |w| <= 3 && w[0] in "bB" && (|w| >= 2 ==> w[1] in "aA") && (|w| == 3 ==> w[2] in "rR")
  }

  /** Points are written in decimal, or by the name of the bar or of the place off the
      board. */
  ghost predicate Names(w: string, n: nat) {
    (Numeral(w) && n == Value(w)) || (SpellsOff(w) && n == 0) || (SpellsBar(w) && n == 25)
  }

  /** What is passed over: blanks, commas, stars and closing brackets. */
  ghost predicate PassedOver(c: char) {
    c == ' ' || c == ',' || c == '*' || c == ')' || 9 <= c as int <= 13
  }

  // ----- Texts as points with gaps before, between and after them

  /** A gap: slashes and what is passed over. */
  ghost predicate Gap(g: string) {
    forall k :: 0 <= k < |g| ==> g[k] == '/' || PassedOver(g[k])
  }

  ghost predicate NoSlash(g: string) {
    forall k :: 0 <= k < |g| ==> g[k] != '/'
  }

  ghost predicate OnlySlash(g: string, k: nat) {
    k < |g| && g[k] == '/' && forall j :: 0 <= j < |g| && j != k ==> g[j] != '/'
  }

  ghost predicate OneSlash(g: string) {
    exists k: nat :: OnlySlash(g, k)
  }

  /** The name is not longer than that: what follows does not go on with it. */
  ghost predicate Ends(w: string, rest: string) {
    rest != "" ==>
      && (Numeral(w) ==> !('0' <= rest[0] <= '9'))
      && (SpellsOff(w) && w != "-" && |w| < 3 ==> rest[0] != 'f' && rest[0] != 'F')
      && (SpellsBar(w) && |w| == 1 ==> rest[0] != 'a' && rest[0] != 'A')
      && (SpellsBar(w) && |w| == 2 ==> rest[0] != 'r' && rest[0] != 'R')
  }

  /** A gap, a name, a gap, and so on; from the gap k on. */
  function TextFrom(gaps: seq<string>, names: seq<string>, k: nat): string
    requires k <= |names| && |gaps| == |names| + 1
    decreases |names| - k
  {
    gaps[k] + if k == |names| then "" else names[k] + TextFrom(gaps, names, k + 1)
  }

  /** The name k stands for the point k, and is not longer. */
  ghost predicate NameAt(gaps: seq<string>, names: seq<string>, points: seq<nat>, k: nat)
    requires |gaps| == |names| + 1 && |points| == |names| && k < |names|
  {
    Names(names[k], points[k]) && Ends(names[k], TextFrom(gaps, names, k + 1))
  }

  /** The names stand for these points. */
  ghost predicate Written(gaps: seq<string>, names: seq<string>, points: seq<nat>) {
    && |gaps| == |names| + 1 && |points| == |names|
    && (forall k :: 0 <= k < |gaps| ==> Gap(gaps[k]))
    && (forall k {:trigger NameAt(gaps, names, points, k)} :: 0 <= k < |names| ==> NameAt(gaps, names, points, k))
  }

  // ----- One point

  lemma DigitNext(w: string, k: nat)
    requires Numeral(w) && k < |w|
    ensures Value(w[..k + 1]) == 10 * Value(w[..k]) + (w[k] as int - '0' as int)
  {
    assert w[..k + 1][..k] == w[..k];
  }

  lemma OneDigit(s: string, d: char, rest: string, v: nat)
    requires s == [d] + rest && '0' <= d <= '9'
    ensures Digits(s, v) == Digits(rest, 10 * v + (d as int - '0' as int))
  {
    assert s[1..] == rest;
  }

  lemma {:induction false} DigitsValue(w: string, k: nat, rest: string)
    requires Numeral(w) && k <= |w| && (rest == "" || !IsDigit(rest[0]))
    ensures Digits(w[k..] + rest, Value(w[..k])) == (Value(w), rest)
    decreases |w| - k
  {
    var s := w[k..] + rest;
    if k == |w| {
      assert w[..k] == w && s == rest;
    } else {
      DigitsValue(w, k + 1, rest);
      DigitNext(w, k);
      OneDigit(s, w[k], w[k + 1..] + rest, Value(w[..k]));
    }
  }

  lemma NumeralRead(w: string, rest: string)
    requires Numeral(w) && (rest == "" || !IsDigit(rest[0]))
    ensures Strtol(w + rest) == (Clamp(Value(w)), rest)
  {
    DigitsValue(w, 0, rest);
    assert w[0..] == w && w[..0] == "";
    var s := w + rest;
    assert s[0] == w[0] && SkipSpace(s) == s;
  }

  lemma NameRead(w: string, rest: string)
    requires Ends(w, rest)
    ensures SpellsOff(w) ==> AfterOff(w + rest) == rest
    ensures SpellsBar(w) ==> AfterBar(w + rest) == rest
  {
    var s := w + rest;
    assert s[|w|..] == rest;
  }

  /** A point is read, unless there are eight already or it is above 25. */
  lemma PointRead(w: string, n: nat, rest: string, r: Read)
    requires Names(w, n) && Ends(w, rest)
    ensures n > 25 || |r.user| >= 8 ==> Reading(w + rest, r).None?
    ensures n <= 25 && |r.user| < 8 ==> Reading(w + rest, r) == Reading(rest, r.(user := r.user + [n]))
  {
    var s := w + rest;
    assert s[0] == w[0];
    if Numeral(w) {
      NumeralRead(w, rest);
    } else {
      NameRead(w, rest);
    }
    ReadingIs(s, r);
    ReadingIs(rest, r.(user := r.user + [n]));
  }

  // ----- One gap

  /** What has been read after a gap: it can hold one slash, if there is a point before
      it and no slash yet. */
  ghost predicate AfterGap(g: string, r: Read, r': Read) {
    && r'.user == r.user
    && r'.slash == (if NoSlash(g) then r.slash else r.slash + {|r.user|})
  }

  ghost predicate GapFits(g: string, r: Read) {
    NoSlash(g) || (OneSlash(g) && r.user != [] && |r.user| !in r.slash)
  }

  function CharAdded(c: char, r: Read): Read {
    if c == '/' then r.(slash := r.slash + {|r.user|})
    else if c == '*' && |r.user| > 0 then r.(stars := r.stars + {r.user[|r.user| - 1]})
    else r
  }

  /** What has been read after the gap. */
  function GapAdded(g: string, r: Read): Read {
    if g == "" then r else GapAdded(g[1..], CharAdded(g[0], r))
  }

  lemma CharRead(c: char, rest: string, r: Read) returns (r': Read)
    requires c == '/' || PassedOver(c)
    ensures r' == CharAdded(c, r)
    ensures GapFits([c], r) ==> AfterGap([c], r, r') && Reading([c] + rest, r) == Reading(rest, r')
    ensures !GapFits([c], r) ==> Reading([c] + rest, r).None?
  {
    var s := [c] + rest;
    assert s[1..] == rest;
    ReadingIs(s, r);
    if c == '/' {
      assert OnlySlash([c], 0);
    } else {
      assert NoSlash([c]);
    }
    r' := CharAdded(c, r);
    ReadingIs(rest, r');
  }

  lemma OneSlashFirst(g: string)
    requires g != ""
    ensures NoSlash(g) <==> g[0] != '/' && NoSlash(g[1..])
    ensures g[0] == '/' ==> (OneSlash(g) <==> NoSlash(g[1..]))
    ensures g[0] != '/' ==> (OneSlash(g) <==> OneSlash(g[1..]))
  {
    var t := g[1..];
    assert forall k :: 0 <= k < |t| ==> t[k] == g[k + 1];
    if NoSlash(t) {
      assert forall k :: 0 < k < |g| ==> g[k] == t[k - 1];
      assert g[0] == '/' ==> OnlySlash(g, 0);
    }
    if OneSlash(g) {
      var k: nat :| OnlySlash(g, k);
      assert k > 0 ==> OnlySlash(t, k - 1);
    }
    if g[0] != '/' && OneSlash(t) {
      var k: nat :| OnlySlash(t, k);
      assert OnlySlash(g, k + 1);
    }
  }

  lemma GapStep(g: string, r: Read, r1: Read)
    requires g != "" && (GapFits([g[0]], r) ==> AfterGap([g[0]], r, r1))
    ensures GapFits(g, r) <==> GapFits([g[0]], r) && GapFits(g[1..], r1)
    ensures forall r' :: GapFits(g, r) && AfterGap(g[1..], r1, r') ==> AfterGap(g, r, r')
  {
    OneSlashFirst(g);
    OneSlashFirst([g[0]]);
  }

  lemma {:induction false} GapRead(g: string, rest: string, r: Read) returns (r': Read)
    requires Gap(g)
    ensures GapFits(g, r) ==> r' == GapAdded(g, r)
    ensures GapFits(g, r) ==> AfterGap(g, r, r') && Reading(g + rest, r) == Reading(rest, r')
    ensures !GapFits(g, r) ==> Reading(g + rest, r).None?
  {
    r' := r;
    if g == "" {
      assert g + rest == rest;
    } else {
      var r1 := CharRead(g[0], g[1..] + rest, r);
      assert g + rest == [g[0]] + (g[1..] + rest);
      GapStep(g, r, r1);
      if GapFits([g[0]], r) {
        r' := GapRead(g[1..], rest, r1);
      }
    }
  }

  // ----- All points

  /** No slash before the first and after the last point, and at most one between two. */
  ghost predicate GapAllowed(gaps: seq<string>, k: nat)
    requires k < |gaps|
  {
    NoSlash(gaps[k]) || (0 < k < |gaps| - 1 && OneSlash(gaps[k]))
  }

  ghost predicate Fits(gaps: seq<string>, points: seq<nat>, k: nat)
    requires |gaps| == |points| + 1
  {
    |points| <= 8 && SmallFrom(points, k) && forall i :: k <= i < |gaps| ==> GapAllowed(gaps, i)
  }

  ghost predicate SmallFrom(points: seq<nat>, k: nat) {
    forall i :: k <= i < |points| ==> points[i] <= 25
  }

  /** The points with a slash before them. */
  ghost function Joined(gaps: seq<string>, k: nat): set<nat> {
    set i: nat | k <= i < |gaps| && !NoSlash(gaps[i])
  }

  lemma {:induction false} TextRead(gaps: seq<string>, names: seq<string>, points: seq<nat>, k: nat, r: Read)
    returns (f: Read)
    requires Written(gaps, names, points) && k <= |names| && k <= 8
    requires |r.user| == k && forall i :: i in r.slash ==> i < k
    ensures Fits(gaps, points, k) ==> Reading(TextFrom(gaps, names, k), r) == Some(f) && IsRead(gaps, points, k, r, f)
    ensures !Fits(gaps, points, k) ==> Reading(TextFrom(gaps, names, k), r).None?
    decreases |names| - k
  {
    if k == |names| {
      f := LastGapRead(gaps, names, points, r);
    } else {
      assert NameAt(gaps, names, points, k);
      var r1 := NextRead(gaps, names, points, k, TextFrom(gaps, names, k + 1), r);
      f := r1;
      if GapAllowed(gaps, k) && points[k] <= 25 && k < 8 {
        f := TextRead(gaps, names, points, k + 1, r1);
        FitsNext(gaps, points, k, r, r1, f);
      }
    }
  }

  /** What has been read from the gap k on. */
  ghost predicate IsRead(gaps: seq<string>, points: seq<nat>, k: nat, r: Read, f: Read)
    requires k <= |points|
  {
    f.user == r.user + points[k..] && f.slash == r.slash + Joined(gaps, k)
  }

  lemma FitsNext(gaps: seq<string>, points: seq<nat>, k: nat, r: Read, r1: Read, f: Read)
    requires |gaps| == |points| + 1 && k < |points| && |r.user| == k
    requires r1.user == r.user + [points[k]]
    requires r1.slash == (if NoSlash(gaps[k]) then r.slash else r.slash + {k})
    ensures Fits(gaps, points, k) <==> GapAllowed(gaps, k) && points[k] <= 25 && Fits(gaps, points, k + 1)
    ensures IsRead(gaps, points, k + 1, r1, f) ==> IsRead(gaps, points, k, r, f)
  {
    assert points[k..] == [points[k]] + points[k + 1..];
    assert Joined(gaps, k) == (if NoSlash(gaps[k]) then {} else {k}) + Joined(gaps, k + 1);
    assert r.user + points[k..] == r.user + [points[k]] + points[k + 1..];
  }

  /** One gap and the point after it. */
  lemma NextRead(gaps: seq<string>, names: seq<string>, points: seq<nat>, k: nat, rest: string, r: Read)
    returns (r1: Read)
    requires Written(gaps, names, points) && k < |names| && Names(names[k], points[k]) && Ends(names[k], rest)
    requires |r.user| == k && forall i :: i in r.slash ==> i < k
    ensures var s := gaps[k] + (names[k] + rest);
      if GapAllowed(gaps, k) && points[k] <= 25 && k < 8 then
        && Reading(s, r) == Reading(rest, r1) && r1.user == r.user + [points[k]]
        && r1 == GapAdded(gaps[k], r).(user := r.user + [points[k]])
        && r1.slash == (if NoSlash(gaps[k]) then r.slash else r.slash + {k})
      else Reading(s, r).None?
  {
    r1 := GapRead(gaps[k], names[k] + rest, r);
    if GapFits(gaps[k], r) {
      PointRead(names[k], points[k], rest, r1);
      r1 := r1.(user := r1.user + [points[k]]);
    }
  }

  lemma LastGapRead(gaps: seq<string>, names: seq<string>, points: seq<nat>, r: Read) returns (f: Read)
    requires Written(gaps, names, points) && |names| <= 8
    requires |r.user| == |names| && forall i :: i in r.slash ==> i < |names|
    ensures var k := |names|;
      if GapAllowed(gaps, k) then
        && Reading(TextFrom(gaps, names, k), r) == Some(f)
        && f.user == r.user && f.slash == r.slash && NoSlash(gaps[k])
      else Reading(TextFrom(gaps, names, k), r).None?
  {
    var g := gaps[|names|];
    f := GapRead(g, "", r);
    assert g + "" == g;
    ReadingIs("", f);
  }

  // ----- From points to steps

  /** The steps of one chequer along a chain of points. */
  function StepsOf(c: Chain): (m: seq<Step>)
    requires c != []
    ensures |m| == |c| - 1
  {
    seq(|c| - 1, i requires 0 <= i < |c| - 1 => Step(c[i], c[i + 1]))
  }

  function AllSteps(chains: seq<Chain>): seq<Step>
    requires forall k :: 0 <= k < |chains| ==> chains[k] != []
  {
    if chains == [] then [] else StepsOf(chains[0]) + AllSteps(chains[1..])
  }

  /** The points from position j on are these chains, one after the other: each starts at
      a point with no slash before it, and goes on with slashes after its first step. */
  ghost predicate Split(points: seq<int>, slash: set<nat>, j: nat, chains: seq<Chain>)
    decreases |chains|
  {
    if chains == [] then j == |points|
    else
      var c := chains[0];
      && Playable(c) && j + |c| <= |points| && points[j..j + |c|] == c && j !in slash
      && (forall k :: j + 2 <= k < j + |c| ==> k in slash)
      && Split(points, slash, j + |c|, chains[1..])
  }

  lemma {:induction false} PathIsSteps(c: Chain)
    requires c != []
    ensures Path(c) == StepsOf(c)
  {
    if |c| >= 2 {
      PathIsSteps(c[1..]);
      assert StepsOf(c) == [Step(c[0], c[1])] + StepsOf(c[1..]);
    }
  }

  ghost predicate NotEmpty(chains: seq<Chain>) {
    forall k :: 0 <= k < |chains| ==> chains[k] != []
  }

  lemma {:induction false} SplitNotEmpty(points: seq<int>, slash: set<nat>, j: nat, chains: seq<Chain>)
    requires Split(points, slash, j, chains)
    ensures NotEmpty(chains) && j <= |points|
    decreases |chains|
  {
    if chains != [] {
      SplitNotEmpty(points, slash, j + |chains[0]|, chains[1..]);
      assert forall k :: 1 <= k < |chains| ==> chains[k] == chains[1..][k - 1];
    }
  }

  /** The next chain starts where this one ends, with no slash before it. */
  lemma SplitStart(points: seq<int>, slash: set<nat>, j: nat, chains: seq<Chain>)
    requires Split(points, slash, j, chains) && |points| !in slash
    ensures j !in slash
  {
  }

  /** Points that are chains are paired to the steps of the chains. */
  lemma {:induction false} SplitPairs(r: Read, j: nat, chains: seq<Chain>, an: seq<int>)
    requires Split(r.user, r.slash, j, chains) && |r.user| !in r.slash
    requires NotEmpty(chains) && |an| % 2 == 0 && |an| + 2 * |AllSteps(chains)| <= 8 && j <= |r.user|
    ensures Pairing(r, j, an) == Some(an + Flatten(AllSteps(chains)))
    decreases |chains|
  {
    if chains == [] {
      PairingIs(r, j, an);
      assert an + Flatten([]) == an;
    } else {
      var c := chains[0];
      SplitNotEmpty(r.user, r.slash, j + |c|, chains[1..]);
      SplitStart(r.user, r.slash, j + |c|, chains[1..]);
      PathIsSteps(c);
      ConvertChain(r, c, j, an);
      SplitPairs(r, j + |c|, chains[1..], an + Flatten(StepsOf(c)));
      FlattenAppend(an, StepsOf(c), AllSteps(chains[1..]));
    }
  }

  lemma PairStart(r: Read, j: nat, an: seq<int>)
    requires j < |r.user| && |an| % 2 == 0 && Pairing(r, j, an).Some?
    ensures |an| < 8 && r.user[j] != OFF && Pairing(r, j, an) == Pairing(r, j + 1, an + [r.user[j]])
  {
    PairingIs(r, j, an);
    PairingIs(r, j + 1, an + [r.user[j]]);
  }

  lemma PairNext(r: Read, j: nat, an: seq<int>, x: int)
    requires j <= |r.user| && |an| % 2 == 0 && Pairing(r, j, an + [x]).Some?
    ensures j < |r.user| && |an| < 7 && r.user[j] != BAR
    ensures j + 1 in r.slash ==> r.user[j] != OFF && |an| < 6
    ensures var y := r.user[j];
      Pairing(r, j, an + [x]) == Pairing(r, j + 1, if j + 1 in r.slash then an + [x, y] + [y] else an + [x, y])
  {
    PairingIs(r, j, an + [x]);
    var y := r.user[j];
    TwoMore(an, x, y);
    PairingIs(r, j + 1, if j + 1 in r.slash then an + [x, y] + [y] else an + [x, y]);
  }

  /** The destinations of a chain that has started at x. */
  ghost predicate Tail(r: Read, j: nat, d: seq<int>) {
    && d != [] && j + |d| <= |r.user| && r.user[j..j + |d|] == d && j + |d| !in r.slash
    && (forall k :: 0 <= k < |d| ==> d[k] != BAR)
    && (forall k :: 0 <= k < |d| - 1 ==> d[k] != OFF)
    && (forall k :: j + 1 <= k < j + |d| ==> k in r.slash)
  }

  lemma {:induction false} TailPaired(r: Read, j: nat, an: seq<int>, x: int) returns (d: seq<int>)
    requires j <= |r.user| && |an| % 2 == 0 && Pairing(r, j, an + [x]).Some?
    ensures Tail(r, j, d) && |an| + 2 * |d| <= 8
    ensures Pairing(r, j, an + [x]) == Pairing(r, j + |d|, an + Flatten(Path([x] + d)))
    decreases |r.user| - j
  {
    PairNext(r, j, an, x);
    var y := r.user[j];
    d := [y];
    if j + 1 in r.slash {
      var d' := TailPaired(r, j + 1, an + [x, y], y);
      d := TailNext(r, j, d', y);
      assert ([x] + d)[1..] == [y] + d';
      FlatStep(an, [x] + d, 1);
      assert ([x] + d)[0..] == [x] + d;
    } else {
      FlatStep(an, [x] + d, 1);
      assert ([x] + d)[0..] == [x] + d;
    }
  }

  lemma TailNext(r: Read, j: nat, d': seq<int>, y: int) returns (d: seq<int>)
    requires j < |r.user| && y == r.user[j] && y != BAR && y != OFF && j + 1 in r.slash && Tail(r, j + 1, d')
    ensures d == [y] + d' && Tail(r, j, d)
  {
    d := [y] + d';
  }

  /** Points that are paired are chains. */
  lemma {:induction false} PairedSplit(r: Read, j: nat, an: seq<int>) returns (chains: seq<Chain>)
    requires j <= |r.user| && j !in r.slash && |an| % 2 == 0 && |an| <= 8 && Pairing(r, j, an).Some?
    ensures Split(r.user, r.slash, j, chains) && NotEmpty(chains)
    ensures |an| + 2 * |AllSteps(chains)| <= 8
    decreases |r.user| - j
  {
    if j == |r.user| {
      chains := [];
    } else {
      PairStart(r, j, an);
      var d := TailPaired(r, j + 1, an, r.user[j]);
      var c := [r.user[j]] + d;
      PathIsSteps(c);
      var rest := PairedSplit(r, j + |c|, an + Flatten(Path(c)));
      chains := [c] + rest;
      assert chains[1..] == rest;
      assert r.user[j..j + |c|] == c;
    }
  }

  // ----- What a text stands for

  /** These steps, higher sources first, and then higher destinations. */
  ghost predicate InOrder(m: seq<Step>, steps: seq<Step>) {
    && multiset(m) == multiset(steps)
    && forall i, j :: 0 <= i < j < |m| ==> m[i].from > m[j].from || (m[i].from == m[j].from && m[i].to >= m[j].to)
  }

  lemma InOrderIsSort(m: seq<Step>, steps: seq<Step>)
    ensures InOrder(m, steps) <==> m == Sort(steps)
  {
    SortSorts(steps);
    if InOrder(m, steps) {
      SortUnique(m, Sort(steps));
    }
  }

  /** The points are the chains of at most four steps, and these are m. */
  ghost predicate StandsFor(points: seq<int>, slash: set<nat>, chains: seq<Chain>, m: seq<Step>) {
    && Split(points, slash, 0, chains)
    && NotEmpty(chains) && |AllSteps(chains)| <= 4 && InOrder(m, AllSteps(chains))
  }

  lemma ParseIs(s: string)
    ensures var r := Reading(s, Nothing);
      if r.None? || Pairing(r.value, 0, []).None? then Parse(s).None?
      else Parse(s) == Some(Sort(Pairs(Pairing(r.value, 0, []).value)))
  {
    ReadingIs(s, Nothing);
    if Reading(s, Nothing).Some? {
      PairingIs(Reading(s, Nothing).value, 0, []);
    }
  }

  lemma PairedExactly(r: Read, m: seq<Step>)
    requires 0 !in r.slash && |r.user| !in r.slash
    ensures (Pairing(r, 0, []).Some? && m == Sort(Pairs(Pairing(r, 0, []).value)))
         <==> exists chains :: StandsFor(r.user, r.slash, chains, m)
  {
    if chains :| StandsFor(r.user, r.slash, chains, m) {
      ChainsPaired(r, chains, m);
    }
    if Pairing(r, 0, []).Some? && m == Sort(Pairs(Pairing(r, 0, []).value)) {
      var chains := PairedSplit(r, 0, []);
      SplitPairs(r, 0, chains, []);
      assert [] + Flatten(AllSteps(chains)) == Flatten(AllSteps(chains));
      PairsOfFlatten(AllSteps(chains));
      InOrderIsSort(m, AllSteps(chains));
      assert StandsFor(r.user, r.slash, chains, m);
    }
  }

  lemma ChainsPaired(r: Read, chains: seq<Chain>, m: seq<Step>)
    requires |r.user| !in r.slash && StandsFor(r.user, r.slash, chains, m)
    ensures Pairing(r, 0, []).Some? && m == Sort(Pairs(Pairing(r, 0, []).value))
  {
    SplitPairs(r, 0, chains, []);
    assert [] + Flatten(AllSteps(chains)) == Flatten(AllSteps(chains));
    PairsOfFlatten(AllSteps(chains));
    InOrderIsSort(m, AllSteps(chains));
  }

  /** A written text is read exactly when it has at most eight points, none above 25, and
      slashes only between points and one at a time, and the points are chains of at most
      four steps.  It stands for these steps, in order. */
  lemma WrittenExactly(gaps: seq<string>, names: seq<string>, points: seq<nat>, m: seq<Step>)
    requires Written(gaps, names, points)
    ensures Parse(TextFrom(gaps, names, 0)) == Some(m)
       <==> Fits(gaps, points, 0) && exists chains :: StandsFor(points, Joined(gaps, 0), chains, m)
  {
    var s := TextFrom(gaps, names, 0);
    var f := TextRead(gaps, names, points, 0, Nothing);
    ParseIs(s);
    if Fits(gaps, points, 0) {
      assert [] + points[0..] == points && {} + Joined(gaps, 0) == Joined(gaps, 0);
      assert GapAllowed(gaps, 0) && GapAllowed(gaps, |points|);
      PairedExactly(f, m);
    }
  }

  // ----- Every text

  /** No item starts with the character, and it is no opening bracket. */
  ghost predicate Stray(c: char) {
    && !('0' <= c <= '9') && c != '/' && c != '(' && !PassedOver(c)
    && c != 'o' && c != 'O' && c != '-' && c != 'b' && c != 'B'
  }

  lemma StrayRead(s: string, r: Read)
    requires s != "" && Stray(s[0])
    ensures Reading(s, r).None?
  {
    ReadingIs(s, r);
  }

  lemma {:induction false} LongestNumeral(s: string) returns (k: nat)
    ensures k <= |s| && (forall j :: 0 <= j < k ==> '0' <= s[j] <= '9') && (k < |s| ==> !('0' <= s[k] <= '9'))
  {
    k := 0;
    while k < |s| && '0' <= s[k] <= '9'
      invariant k <= |s| && forall j :: 0 <= j < k ==> '0' <= s[j] <= '9'
    {
      k := k + 1;
    }
  }

  /** A text that starts with neither a gap nor anything strange starts with a name. */
  lemma FirstName(s: string) returns (w: string, n: nat, rest: string)
    requires s != "" && !Stray(s[0]) && s[0] != '/' && s[0] != '(' && !PassedOver(s[0])
    ensures s == w + rest && |rest| < |s| && Names(w, n) && Ends(w, rest)
  {
    var k := 1;
    if '0' <= s[0] <= '9' {
      k := LongestNumeral(s);
      w := s[..k];
      n := Value(w);
    } else if s[0] == '-' {
      n := 0;
    } else if s[0] == 'o' || s[0] == 'O' {
      n := 0;
      k := if 1 < |s| && s[1] in "fF" then if 2 < |s| && s[2] in "fF" then 3 else 2 else 1;
    } else {
      n := 25;
      k := if 1 < |s| && s[1] in "aA" then if 2 < |s| && s[2] in "rR" then 3 else 2 else 1;
    }
    w, rest := s[..k], s[k..];
  }

  lemma {:induction false} SameText(gaps: seq<string>, names: seq<string>, gaps': seq<string>, names': seq<string>,
                                    k: nat, d: int)
    requires k <= |names| && |gaps| == |names| + 1 && |gaps'| == |names'| + 1 && |names'| == |names| + d && 0 <= k + d
    requires gaps[k..] == gaps'[k + d..] && names[k..] == names'[k + d..]
    ensures TextFrom(gaps, names, k) == TextFrom(gaps', names', k + d)
    decreases |names| - k
  {
    assert gaps[k] == gaps[k..][0] == gaps'[k + d..][0] == gaps'[k + d];
    if k < |names| {
      assert names[k] == names[k..][0] == names'[k + d..][0] == names'[k + d];
      assert gaps[k + 1..] == gaps[k..][1..] == gaps'[k + d..][1..] == gaps'[k + d + 1..];
      assert names[k + 1..] == names[k..][1..] == names'[k + d..][1..] == names'[k + d + 1..];
      SameText(gaps, names, gaps', names', k + 1, d);
    }
  }

  /** One character more in the first gap. */
  lemma LongerGap(c: char, gaps: seq<string>, names: seq<string>, points: seq<nat>)
    requires Written(gaps, names, points) && (c == '/' || PassedOver(c))
    ensures var gaps' := gaps[0 := [c] + gaps[0]];
      Written(gaps', names, points) && TextFrom(gaps', names, 0) == [c] + TextFrom(gaps, names, 0)
  {
    var gaps' := gaps[0 := [c] + gaps[0]];
    forall k | 1 <= k <= |names|
      ensures TextFrom(gaps', names, k) == TextFrom(gaps, names, k)
    {
      assert gaps[k..] == gaps'[k..];
      SameText(gaps, names, gaps', names, k, 0);
    }
    forall k | 0 <= k < |names|
      ensures NameAt(gaps', names, points, k)
    {
      assert NameAt(gaps, names, points, k);
    }
    Assoc([c], gaps[0], if names == [] then "" else names[0] + TextFrom(gaps, names, 1));
  }

  /** One point more, and a gap before it. */
  lemma LongerText(g: string, w: string, n: nat, gaps: seq<string>, names: seq<string>, points: seq<nat>)
    returns (gaps': seq<string>, names': seq<string>, points': seq<nat>)
    requires Written(gaps, names, points) && Gap(g) && Names(w, n) && Ends(w, TextFrom(gaps, names, 0))
    ensures gaps' == [g] + gaps && names' == [w] + names && points' == [n] + points
    ensures Written(gaps', names', points') && TextFrom(gaps', names', 0) == g + (w + TextFrom(gaps, names, 0))
  {
    gaps', names', points' := [g] + gaps, [w] + names, [n] + points;
    forall k | 0 <= k <= |names|
      ensures TextFrom(gaps', names', k + 1) == TextFrom(gaps, names, k)
    {
      assert gaps[k..] == gaps'[k + 1..] && names[k..] == names'[k + 1..];
      SameText(gaps, names, gaps', names', k, 1);
    }
    forall k | 0 <= k < |names'|
      ensures NameAt(gaps', names', points', k)
    {
      assert k > 0 ==> NameAt(gaps, names, points, k - 1) && TextFrom(gaps', names', k + 1) == TextFrom(gaps, names, k);
      assert k > 0 ==> names'[k] == names[k - 1] && points'[k] == points[k - 1];
    }
    assert forall k :: 1 <= k < |gaps'| ==> gaps'[k] == gaps[k - 1];
  }

  ghost predicate Refused(s: string) {
    forall r :: Reading(s, r).None?
  }

  /** A text without a count is written in points and gaps, or it is refused. */
  lemma {:induction false} EveryText(s: string) returns (gaps: seq<string>, names: seq<string>, points: seq<nat>)
    requires '(' !in s
    ensures Refused(s) || (Written(gaps, names, points) && TextFrom(gaps, names, 0) == s)
    decreases |s|
  {
    gaps, names, points := [""], [], [];
    if s == "" {
    } else if Stray(s[0]) {
      forall r ensures Reading(s, r).None? {
        StrayRead(s, r);
      }
    } else if s[0] == '/' || PassedOver(s[0]) {
      gaps, names, points := EveryText(s[1..]);
      assert s == [s[0]] + s[1..];
      if Refused(s[1..]) {
        forall r ensures Reading(s, r).None? {
          var r' := CharRead(s[0], s[1..], r);
        }
      } else {
        LongerGap(s[0], gaps, names, points);
        gaps := gaps[0 := [s[0]] + gaps[0]];
      }
    } else {
      var w, n, rest := FirstName(s);
      gaps, names, points := EveryText(rest);
      if Refused(rest) {
        forall r ensures Reading(s, r).None? {
          PointRead(w, n, rest, r);
        }
      } else {
        assert "" + s == s;
        gaps, names, points := LongerText("", w, n, gaps, names, points);
      }
    }
  }

  /** The text is written so, and stands for the steps m. */
  ghost predicate IsMove(s: string, gaps: seq<string>, names: seq<string>, points: seq<nat>, chains: seq<Chain>,
                         m: seq<Step>)
  {
    && Written(gaps, names, points) && TextFrom(gaps, names, 0) == s
    && Fits(gaps, points, 0) && StandsFor(points, Joined(gaps, 0), chains, m)
  }

  /** What ParseMove makes of a text without a count. */
  lemma ParseExactly(s: string, m: seq<Step>)
    requires '(' !in s
    ensures Parse(s) == Some(m) <==> exists gaps, names, points, chains :: IsMove(s, gaps, names, points, chains, m)
    ensures Safe(s, Nothing)
  {
    assert s + "" == s;
    ClosedPrepend(s, "");
    ClosedIsSafe(s, Nothing);
    if gaps, names, points, chains :| IsMove(s, gaps, names, points, chains, m) {
      WrittenExactly(gaps, names, points, m);
    }
    if Parse(s) == Some(m) {
      var gaps, names, points := EveryText(s);
      ParseIs(s);
      assert !Refused(s);
      WrittenExactly(gaps, names, points, m);
      var chains :| StandsFor(points, Joined(gaps, 0), chains, m);
      assert IsMove(s, gaps, names, points, chains, m);
    }
  }

  // ----- Lists of steps

  ghost predicate Separator(c: char) {
    c == ' ' || c == ','
  }

  ghost predicate Separators(s: string) {
    forall k :: 0 <= k < |s| ==> Separator(s[k])
  }

  /** A step as two names with a slash between, and what separates it from the next. */
  ghost predicate OneStep(s: string, step: Step, lead: string, w: string, u: string, rest: string) {
    && s == lead + (w + ("/" + (u + rest))) && Separators(lead) && (rest != "" ==> Separator(rest[0]))
    && step.from >= 0 && Names(w, step.from) && step.to >= 0 && Names(u, step.to)
  }

  ghost predicate ListOf(s: string, m: seq<Step>)
    decreases |m|
  {
    if m == [] then Separators(s)
    else exists lead, w, u, rest :: OneStep(s, m[0], lead, w, u, rest) && ListOf(rest, m[1..])
  }

  /** The gaps of such a list. */
  ghost predicate ListGaps(gaps: seq<string>, m: seq<Step>) {
    |gaps| == 2 * |m| + 1 && forall k :: 0 <= k < |gaps| ==> if k % 2 == 0 then Separators(gaps[k]) else gaps[k] == "/"
  }

  lemma {:induction false} ListWritten(s: string, m: seq<Step>)
    returns (gaps: seq<string>, names: seq<string>, points: seq<nat>)
    requires ListOf(s, m)
    ensures Written(gaps, names, points) && TextFrom(gaps, names, 0) == s
    ensures ListGaps(gaps, m) && points == Flatten(m)
    decreases |m|
  {
    if m == [] {
      gaps, names, points := [s], [], [];
    } else {
      var lead, w, u, rest :| OneStep(s, m[0], lead, w, u, rest) && ListOf(rest, m[1..]);
      gaps, names, points := ListWritten(rest, m[1..]);
      gaps, names, points := ListStep(s, m, lead, w, u, rest, gaps, names, points);
    }
  }

  lemma ListStep(s: string, m: seq<Step>, lead: string, w: string, u: string, rest: string,
                 gaps: seq<string>, names: seq<string>, points: seq<nat>)
    returns (gaps': seq<string>, names': seq<string>, points': seq<nat>)
    requires m != [] && OneStep(s, m[0], lead, w, u, rest)
    requires Written(gaps, names, points) && TextFrom(gaps, names, 0) == rest
    requires ListGaps(gaps, m[1..]) && points == Flatten(m[1..])
    ensures Written(gaps', names', points') && TextFrom(gaps', names', 0) == s
    ensures ListGaps(gaps', m) && points' == Flatten(m)
  {
    gaps', names', points' := StepWritten(m[0].from, m[0].to, lead, w, u, rest, gaps, names, points);
    ListGapsNext(gaps, gaps', m, lead);
    assert points' == [m[0].from, m[0].to] + points;
  }

  lemma StepEnds(lead: string, w: string, u: string, from: nat, to: nat, rest: string)
    requires Separators(lead) && Names(w, from) && Names(u, to) && (rest != "" ==> Separator(rest[0]))
    ensures Gap(lead) && Ends(u, rest) && Ends(w, "/" + (u + rest))
  {
  }

  lemma StepWritten(from: nat, to: nat, lead: string, w: string, u: string, rest: string,
                    gaps: seq<string>, names: seq<string>, points: seq<nat>)
    returns (gaps': seq<string>, names': seq<string>, points': seq<nat>)
    requires Separators(lead) && Names(w, from) && Names(u, to) && (rest != "" ==> Separator(rest[0]))
    requires Written(gaps, names, points) && TextFrom(gaps, names, 0) == rest
    ensures Written(gaps', names', points') && TextFrom(gaps', names', 0) == lead + (w + ("/" + (u + rest)))
    ensures gaps' == [lead] + (["/"] + gaps) && points' == [from] + ([to] + points)
  {
    StepEnds(lead, w, u, from, to, rest);
    var g1, n1, p1 := LongerText("/", u, to, gaps, names, points);
    gaps', names', points' := LongerText(lead, w, from, g1, n1, p1);
  }

  lemma ListGapsNext(gaps: seq<string>, gaps': seq<string>, m: seq<Step>, lead: string)
    requires m != [] && ListGaps(gaps, m[1..]) && gaps' == [lead] + (["/"] + gaps) && Separators(lead)
    ensures ListGaps(gaps', m)
  {
    forall k | 0 <= k < |gaps'|
      ensures if k % 2 == 0 then Separators(gaps'[k]) else gaps'[k] == "/"
    {
      if k >= 2 {
        assert gaps'[k] == gaps[k - 2];
      }
    }
  }

  /** The chains of steps that are not joined. */
  function Singles(m: seq<Step>): (chains: seq<Chain>)
    ensures |chains| == |m| && NotEmpty(chains)
  {
    if m == [] then [] else [[m[0].from, m[0].to]] + Singles(m[1..])
  }

  ghost predicate OnBoard(step: Step) {
    1 <= step.from <= 25 && 0 <= step.to <= 24
  }

  ghost predicate AllOnBoard(m: seq<Step>) {
    forall k :: 0 <= k < |m| ==> OnBoard(m[k])
  }

  lemma FlattenStarts(points: seq<int>, j: nat, m: seq<Step>)
    requires j <= |points| && points[j..] == Flatten(m) && m != []
    ensures j + 2 <= |points| && points[j] == m[0].from && points[j + 1] == m[0].to && points[j + 2..] == Flatten(m[1..])
  {
    var f := Flatten(m);
    assert points[j] == points[j..][0] == f[0] && points[j + 1] == points[j..][1] == f[1];
    assert points[j + 2..] == points[j..][2..] == f[2..];
  }

  lemma {:induction false} SinglesSplit(points: seq<int>, slash: set<nat>, j: nat, m: seq<Step>)
    requires j <= |points| && points[j..] == Flatten(m) && j % 2 == 0 && forall k :: k in slash ==> k % 2 == 1
    requires AllOnBoard(m)
    ensures Split(points, slash, j, Singles(m)) && AllSteps(Singles(m)) == m
    decreases |m|
  {
    if m != [] {
      FlattenStarts(points, j, m);
      SinglesSplit(points, slash, j + 2, m[1..]);
      assert OnBoard(m[0]) && points[j..j + 2] == [m[0].from, m[0].to];
      assert StepsOf([m[0].from, m[0].to]) == [m[0]] && m == [m[0]] + m[1..];
      assert Singles(m)[1..] == Singles(m[1..]);
    }
  }

  /** And only such chains are possible there. */
  lemma {:induction false} OnlySingles(points: seq<int>, slash: set<nat>, j: nat, m: seq<Step>, chains: seq<Chain>)
    requires Split(points, slash, j, chains) && j <= |points| && points[j..] == Flatten(m)
    requires j % 2 == 0 && forall k :: k in slash ==> k % 2 == 1
    ensures chains == Singles(m) && forall k :: 0 <= k < |m| ==> m[k].from != 0 && m[k].to != 25
    decreases |m|
  {
    if m == [] {
      assert chains == [];
    } else {
      FlattenStarts(points, j, m);
      var c := chains[0];
      assert |c| > 2 ==> j + 2 in slash;
      assert points[j..j + 2] == [m[0].from, m[0].to];
      OnlySingles(points, slash, j + 2, m[1..], chains[1..]);
      assert chains == [c] + chains[1..];
      assert forall k :: 1 <= k < |m| ==> m[k] == m[1..][k - 1];
    }
  }

  lemma {:induction false} FlattenAt(m: seq<Step>, k: nat)
    requires k < |m|
    ensures Flatten(m)[2 * k] == m[k].from && Flatten(m)[2 * k + 1] == m[k].to
  {
    if k > 0 {
      FlattenAt(m[1..], k - 1);
    }
  }

  lemma SmallExactly(points: seq<nat>, m: seq<Step>)
    requires points == Flatten(m)
    ensures SmallFrom(points, 0) <==> SmallSteps(m)
  {
    if SmallFrom(points, 0) {
      forall k | 0 <= k < |m|
        ensures m[k].from <= 25 && m[k].to <= 25
      {
        FlattenAt(m, k);
        assert points[2 * k] <= 25 && points[2 * k + 1] <= 25;
      }
    }
    if SmallSteps(m) {
      forall i | 0 <= i < |points|
        ensures points[i] <= 25
      {
        FlattenAt(m, i / 2);
        assert i == 2 * (i / 2) || i == 2 * (i / 2) + 1;
      }
    }
  }

  lemma ListGapAllowed(gaps: seq<string>, m: seq<Step>, k: nat)
    requires ListGaps(gaps, m) && k < |gaps|
    ensures GapAllowed(gaps, k) && (k % 2 == 0 ==> NoSlash(gaps[k]))
  {
    assert k % 2 == 1 ==> OnlySlash(gaps[k], 0);
  }

  lemma ListGapsAllowed(gaps: seq<string>, m: seq<Step>)
    requires ListGaps(gaps, m)
    ensures forall k :: 0 <= k < |gaps| ==> GapAllowed(gaps, k)
    ensures forall k :: k in Joined(gaps, 0) ==> k % 2 == 1
  {
    forall k | 0 <= k < |gaps|
      ensures GapAllowed(gaps, k) && (k % 2 == 0 ==> NoSlash(gaps[k]))
    {
      ListGapAllowed(gaps, m, k);
    }
  }

  lemma ListFits(gaps: seq<string>, points: seq<nat>, m: seq<Step>)
    requires ListGaps(gaps, m) && points == Flatten(m)
    ensures Fits(gaps, points, 0) <==> |m| <= 4 && SmallSteps(m)
  {
    ListGapsAllowed(gaps, m);
    SmallExactly(points, m);
  }

  ghost predicate SmallSteps(m: seq<Step>) {
    forall k :: 0 <= k < |m| ==> m[k].from <= 25 && m[k].to <= 25
  }

  lemma StepsOnBoard(points: seq<nat>, m: seq<Step>)
    requires points == Flatten(m) && SmallSteps(m)
    requires forall k :: 0 <= k < |m| ==> m[k].from != 0 && m[k].to != 25
    ensures AllOnBoard(m)
  {
    forall k | 0 <= k < |m|
      ensures OnBoard(m[k])
    {
      FlattenAt(m, k);
      var from: nat, to: nat := points[2 * k], points[2 * k + 1];
      assert m[k].from == from && m[k].to == to;
    }
  }

  lemma ListRead(gaps: seq<string>, names: seq<string>, points: seq<nat>, m: seq<Step>, r: seq<Step>)
    requires Written(gaps, names, points) && ListGaps(gaps, m) && points == Flatten(m)
    requires Parse(TextFrom(gaps, names, 0)) == Some(r)
    ensures |m| <= 4 && AllOnBoard(m) && InOrder(r, m)
  {
    ListGapsAllowed(gaps, m);
    ListFits(gaps, points, m);
    assert points[0..] == points;
    WrittenExactly(gaps, names, points, r);
    var chains :| StandsFor(points, Joined(gaps, 0), chains, r);
    OnlySingles(points, Joined(gaps, 0), 0, m, chains);
    StepsOnBoard(points, m);
    SinglesSplit(points, Joined(gaps, 0), 0, m);
  }

  lemma ListIsRead(gaps: seq<string>, names: seq<string>, points: seq<nat>, m: seq<Step>)
    requires Written(gaps, names, points) && ListGaps(gaps, m) && points == Flatten(m)
    requires |m| <= 4 && AllOnBoard(m)
    ensures Parse(TextFrom(gaps, names, 0)) == Some(Sort(m))
  {
    ListGapsAllowed(gaps, m);
    ListFits(gaps, points, m);
    assert SmallSteps(m) by {
      assert forall k :: 0 <= k < |m| ==> OnBoard(m[k]);
    }
    assert points[0..] == points;
    SinglesSplit(points, Joined(gaps, 0), 0, m);
    InOrderIsSort(Sort(m), m);
    assert StandsFor(points, Joined(gaps, 0), Singles(m), Sort(m));
    WrittenExactly(gaps, names, points, Sort(m));
  }

  /** A list of steps is read exactly when it has at most four, each from the bar or a point
      of the board to a point of the board or off it.  It is read in order. */
  lemma ListExactly(s: string, m: seq<Step>)
    requires ListOf(s, m)
    ensures Parse(s).Some? <==> |m| <= 4 && AllOnBoard(m)
    ensures Parse(s).Some? ==> InOrder(Parse(s).value, m)
  {
    var gaps, names, points := ListWritten(s, m);
    if Parse(s).Some? {
      ListRead(gaps, names, points, m, Parse(s).value);
    } else if |m| <= 4 && AllOnBoard(m) {
      ListIsRead(gaps, names, points, m);
    }
  }
}
