/** Counts in the texts of moves: a count in brackets stands for the chain before it,
    written that many times (gnubg/drawboard.c, lines 794 to 838). */
module MoveCounts {
  import opened Common
  import opened Moves
  import opened MoveParse
  import opened MoveRoundTrip
  import opened MoveWritten

  /** Nothing that goes on with the name before it. */
  ghost predicate Delimits(s: string) {
    s != "" ==> !('0' <= s[0] <= '9') && s[0] !in "fFaArR"
  }

  lemma EndsHere(w: string, text: string, end: string)
    requires Ends(w, text) && Delimits(end)
    ensures Ends(w, text + end)
  {
    assert text == "" ==> text + end == end;
  }

  /** What has been read after the text from the gap k on. */
  function TextAdded(gaps: seq<string>, points: seq<nat>, k: nat, r: Read): Read
    requires k <= |points| && |gaps| == |points| + 1
    decreases |points| - k
  {
    var r1 := GapAdded(gaps[k], r);
    if k == |points| then r1 else TextAdded(gaps, points, k + 1, r1.(user := r.user + [points[k]]))
  }

  /** A written text with more after it. */
  lemma {:induction false} PrefixRead(gaps: seq<string>, names: seq<string>, points: seq<nat>, k: nat, end: string,
                                      r: Read)
    returns (f: Read)
    requires Written(gaps, names, points) && k <= |names| && Fits(gaps, points, k) && Delimits(end)
    requires |r.user| == k && forall i :: i in r.slash ==> i < k
    ensures Reading(TextFrom(gaps, names, k) + end, r) == Reading(end, f) && IsRead(gaps, points, k, r, f)
    ensures f == TextAdded(gaps, points, k, r)
    decreases |names| - k
  {
    if k == |names| {
      assert TextFrom(gaps, names, k) == gaps[k] && GapAllowed(gaps, k);
      f := GapRead(gaps[k], end, r);
    } else {
      var rest := TextFrom(gaps, names, k + 1) + end;
      assert NameAt(gaps, names, points, k);
      EndsHere(names[k], TextFrom(gaps, names, k + 1), end);
      assert GapAllowed(gaps, k);
      var r1 := NextRead(gaps, names, points, k, rest, r);
      f := PrefixRead(gaps, names, points, k + 1, end, r1);
      FitsNext(gaps, points, k, r, r1, f);
      Assoc(gaps[k], names[k] + TextFrom(gaps, names, k + 1), end);
      Assoc(names[k], TextFrom(gaps, names, k + 1), end);
    }
  }

  // ----- The chain again

  /** The names from position j on, each with a slash before it. */
  function JoinedNames(names: seq<string>, j: nat): string
    decreases |names| - j
  {
    if j >= |names| then "" else "/" + (names[j] + JoinedNames(names, j + 1))
  }

  /** The chain that starts at the name b. */
  function ChainAgain(names: seq<string>, b: nat): string
    requires b < |names|
  {
    " " + (names[b] + JoinedNames(names, b + 1))
  }

  function Times(text: string, k: nat): string {
    if k == 0 then "" else text + Times(text, k - 1)
  }

  /** The names stand for the first points that have been read. */
  ghost predicate Known(names: seq<string>, r: Read) {
    && |names| <= |r.user| && (forall i :: i in r.slash ==> i < |r.user|)
    && forall k :: 0 <= k < |names| ==> 0 <= r.user[k] <= 25 && Names(names[k], r.user[k])
  }

  /** The names end where a blank or a slash comes next. */
  lemma EndsBefore(w: string, rest: string)
    requires Delimits(rest)
    ensures Ends(w, rest)
  {
  }

  /** A slash and a point that has been read before. */
  lemma AgainOnce(w: string, rest: string, r: Read, n: nat)
    requires Names(w, n) && n <= 25 && Delimits(rest)
    requires 0 < |r.user| && |r.user| !in r.slash
    ensures var s := "/" + (w + rest);
      if |r.user| < 8 then Reading(s, r) == Reading(rest, Read(r.user + [n], r.slash + {|r.user|}, r.stars))
      else Reading(s, r).None?
  {
    var s := "/" + (w + rest);
    assert s[1..] == w + rest;
    var r1 := r.(slash := r.slash + {|r.user|});
    ReadingIs(s, r);
    ReadingIs(w + rest, r1);
    EndsBefore(w, rest);
    PointRead(w, n, rest, r1);
  }

  lemma JoinedDelimits(names: seq<string>, j: nat, rest: string)
    requires Delimits(rest)
    ensures Delimits(JoinedNames(names, j) + rest)
  {
    assert j >= |names| ==> JoinedNames(names, j) + rest == rest;
  }

  lemma JoinedSplit(names: seq<string>, j: nat, rest: string)
    requires j < |names|
    ensures JoinedNames(names, j) + rest == "/" + (names[j] + (JoinedNames(names, j + 1) + rest))
  {
    Assoc("/", names[j] + JoinedNames(names, j + 1), rest);
    Assoc(names[j], JoinedNames(names, j + 1), rest);
  }

  lemma {:induction false} JoinedRead(names: seq<string>, j: nat, rest: string, r: Read)
    requires Known(names, r) && 0 < |r.user| && j <= |names| && Delimits(rest)
    requires forall k :: j <= k < |names| ==> k in r.slash
    ensures if |r.user| + |names| - j <= 8 || j == |names|
      then Reading(JoinedNames(names, j) + rest, r) == Reading(rest, CopyOnce(r, j, |names|))
      else Reading(JoinedNames(names, j) + rest, r).None?
    decreases |names| - j
  {
    if j == |names| {
      assert JoinedNames(names, j) + rest == rest;
    } else {
      JoinedDelimits(names, j + 1, rest);
      AgainOnce(names[j], JoinedNames(names, j + 1) + rest, r, r.user[j]);
      JoinedSplit(names, j, rest);
      var r1 := Read(r.user + [r.user[j]], r.slash + {|r.user|}, r.stars);
      if |r.user| < 8 {
        JoinedRead(names, j + 1, rest, r1);
      }
    }
  }

  /** The last chain starts at position b. */
  ghost predicate ChainFrom(r: Read, b: nat, n: nat) {
    b < n && b !in r.slash && forall k :: b < k < n ==> k in r.slash
  }

  lemma AgainRead(names: seq<string>, b: nat, rest: string, r: Read)
    requires Known(names, r) && ChainFrom(r, b, |names|) && Delimits(rest)
    ensures var s := ChainAgain(names, b) + rest;
      if |r.user| + |names| - b <= 8 then Reading(s, r) == Reading(rest, CopyOnce(r, b, |names|))
      else Reading(s, r).None?
  {
    var more := JoinedNames(names, b + 1) + rest;
    JoinedDelimits(names, b + 1, rest);
    AgainSplit(names, b, rest);
    BlankThen(names[b], more, r, r.user[b]);
    if |r.user| < 8 {
      JoinedRead(names, b + 1, rest, Read(r.user + [r.user[b]], r.slash, r.stars));
    }
  }

  lemma AgainSplit(names: seq<string>, b: nat, rest: string)
    requires b < |names|
    ensures ChainAgain(names, b) + rest == " " + (names[b] + (JoinedNames(names, b + 1) + rest))
  {
    Assoc(" ", names[b] + JoinedNames(names, b + 1), rest);
    Assoc(names[b], JoinedNames(names, b + 1), rest);
  }

  lemma BlankThen(w: string, rest: string, r: Read, n: nat)
    requires Names(w, n) && n <= 25 && Delimits(rest)
    ensures var s := " " + (w + rest);
      if |r.user| < 8 then Reading(s, r) == Reading(rest, Read(r.user + [n], r.slash, r.stars)) else Reading(s, r).None?
  {
    var s := " " + (w + rest);
    assert s[1..] == w + rest;
    ReadingIs(s, r);
    ReadingIs(w + rest, r);
    EndsBefore(w, rest);
    PointRead(w, n, rest, r);
  }

  /** Copying a chain leaves what has been read as it is, and no slash behind. */
  lemma {:induction false} CopyKeeps(r: Read, j: nat, n: nat)
    requires j <= n <= |r.user| && forall i :: i in r.slash ==> i < |r.user|
    ensures var r' := CopyOnce(r, j, n);
      && |r'.user| == |r.user| + n - j && r'.user[..|r.user|] == r.user
      && (forall i :: i in r'.slash ==> i < |r'.user|)
      && (forall i :: i < |r.user| ==> (i in r'.slash <==> i in r.slash))
    decreases n - j
  {
    if j == n {
      assert r.user[..|r.user|] == r.user;
    } else {
      var slash := if j in r.slash then r.slash + {|r.user|} else r.slash;
      var r1 := Read(r.user + [r.user[j]], slash, r.stars);
      CopyKeeps(r1, j + 1, n);
      assert r1.user[..|r.user|] == r.user;
      var u := CopyOnce(r1, j + 1, n).user;
      assert u[..|r.user|] == u[..|r1.user|][..|r.user|];
    }
  }

  lemma KnownAfterCopy(names: seq<string>, b: nat, r: Read)
    requires Known(names, r) && ChainFrom(r, b, |names|)
    ensures var r' := CopyOnce(r, b, |names|);
      Known(names, r') && ChainFrom(r', b, |names|) && |r'.user| == |r.user| + |names| - b
  {
    CopyKeeps(r, b, |names|);
    var u := CopyOnce(r, b, |names|).user;
    assert forall k :: 0 <= k < |names| ==> u[k] == u[..|r.user|][k] == r.user[k];
  }

  lemma OneMore(len: nat, n: nat, k: nat)
    requires len > 0 && k > 0
    ensures n + len * k == n + len + len * (k - 1) && len * (k - 1) >= 0
  {
  }

  lemma TimesDelimits(text: string, k: nat, rest: string)
    requires text != "" && Delimits(text) && Delimits(rest)
    ensures Delimits(Times(text, k) + rest)
  {
    assert k == 0 ==> Times(text, k) + rest == rest;
  }

  /** Reading the chain k times more is copying it k times. */
  lemma {:induction false} TimesRead(names: seq<string>, b: nat, k: nat, rest: string, r: Read)
    requires Known(names, r) && ChainFrom(r, b, |names|) && Delimits(rest) && |r.user| <= 8
    ensures var s := Times(ChainAgain(names, b), k) + rest;
      if |r.user| + (|names| - b) * k <= 8 then Reading(s, r) == Reading(rest, Copy(r, b, |names|, k))
      else Reading(s, r).None?
    decreases k
  {
    var again := ChainAgain(names, b);
    if k == 0 {
      assert Times(again, k) + rest == rest;
    } else {
      var more := Times(again, k - 1) + rest;
      TimesDelimits(again, k - 1, rest);
      Assoc(again, Times(again, k - 1), rest);
      OneMore(|names| - b, |r.user|, k);
      AgainRead(names, b, more, r);
      KnownAfterCopy(names, b, r);
      if |r.user| + |names| - b <= 8 {
        TimesRead(names, b, k - 1, rest, CopyOnce(r, b, |names|));
      }
    }
  }

  // ----- A count

  /** A number in brackets, and what follows. */
  function CountThen(w: string, rest: string): string {
    "(" + (w + (")" + rest))
  }

  lemma CountOne(w: string, rest: string, r: Read)
    requires Numeral(w)
    ensures var s := CountThen(w, rest);
      && s[0] == '(' && Strtol(s[1..]).0 == Clamp(Value(w))
      && (Clamp(Value(w)) >= 2 ==> AfterOne(s) == rest)
  {
    var s := CountThen(w, rest);
    assert s[1..] == w + (")" + rest);
    NumeralRead(w, ")" + rest);
    assert (")" + rest)[1..] == rest;
  }

  lemma CountRead(w: string, b: nat, rest: string, r: Read)
    requires Numeral(w) && 2 <= |r.user| <= 8 && |r.user| !in r.slash && ChainFrom(r, b, |r.user|)
    ensures var (s, k) := (CountThen(w, rest), Value(w) - 1);
      if k >= 1 && |r.user| + (|r.user| - b) * k <= 8 then Reading(s, r) == Reading(rest, Copy(r, b, |r.user|, k))
      else Reading(s, r).None?
  {
    var s := CountThen(w, rest);
    CountOne(w, rest, r);
    ClampedCount(b, Value(w), r);
    ReadingIs(s, r);
    if Repeated(r, Clamp(Value(w)) - 1).Some? {
      ReadingIs(rest, Repeated(r, Clamp(Value(w)) - 1).value);
    }
  }

  lemma ClampedCount(b: nat, v: nat, r: Read)
    requires 2 <= |r.user| <= 8 && |r.user| !in r.slash && ChainFrom(r, b, |r.user|)
    ensures Repeated(r, Clamp(v) - 1) == if v >= 2 && |r.user| + (|r.user| - b) * (v - 1) <= 8
      then Some(Copy(r, b, |r.user|, v - 1)) else None
    ensures Repeated(r, Clamp(v) - 1).Some? ==> Clamp(v) == v >= 2
  {
    ManyCopies(|r.user| - b, v - 1);
    ManyCopies(|r.user| - b, Clamp(v) - 1);
    CountIs(b, Clamp(v), r);
  }

  lemma CountIs(b: nat, v: int, r: Read)
    requires 2 <= |r.user| && |r.user| !in r.slash && ChainFrom(r, b, |r.user|)
    ensures Repeated(r, v - 1) == if v >= 2 && |r.user| + (|r.user| - b) * (v - 1) <= 8
      then Some(Copy(r, b, |r.user|, v - 1)) else None
  {
    ChainStartIs(r.slash, b, |r.user| - 1);
  }

  lemma ManyCopies(len: nat, k: int)
    requires len > 0
    ensures k > 8 ==> len * k > 8
  {
  }

  /** The text before a count. */
  lemma CountedRead(gaps: seq<string>, names: seq<string>, points: seq<nat>, b: nat, end: string) returns (f: Read)
    requires Written(gaps, names, points) && Fits(gaps, points, 0)
    requires b < |names| && NoSlash(gaps[b]) && forall k :: b < k < |names| ==> !NoSlash(gaps[k])
    requires Delimits(end)
    ensures Reading(TextFrom(gaps, names, 0) + end, Nothing) == Reading(end, f)
    ensures f == TextAdded(gaps, points, 0, Nothing)
    ensures Known(names, f) && |f.user| == |names| <= 8 && ChainFrom(f, b, |names|)
  {
    f := PrefixRead(gaps, names, points, 0, end, Nothing);
    assert f.user == points && f.slash == Joined(gaps, 0);
    ReadKnown(gaps, names, points, f);
  }

  lemma ReadKnown(gaps: seq<string>, names: seq<string>, points: seq<nat>, f: Read)
    requires Written(gaps, names, points) && Fits(gaps, points, 0)
    requires f.user == points && f.slash == Joined(gaps, 0)
    ensures Known(names, f)
  {
    assert GapAllowed(gaps, |names|);
    assert SmallFrom(points, 0);
    forall k | 0 <= k < |names|
      ensures 0 <= f.user[k] <= 25 && Names(names[k], f.user[k])
    {
      assert NameAt(gaps, names, points, k) && f.user[k] == points[k];
    }
  }

  /** From what has been read on, the count and the copies lead to the same. */
  lemma CountIsTimes(names: seq<string>, b: nat, w: string, rest: string, f: Read)
    requires Known(names, f) && |f.user| == |names| && 2 <= |names| <= 8 && ChainFrom(f, b, |names|)
    requires Numeral(w) && Delimits(rest)
    ensures if Value(w) < 2 then Reading(CountThen(w, rest), f).None?
      else Reading(CountThen(w, rest), f) == Reading(Times(ChainAgain(names, b), Value(w) - 1) + rest, f)
  {
    CountRead(w, b, rest, f);
    if Value(w) >= 2 {
      TimesRead(names, b, Value(w) - 1, rest, f);
    }
  }

  /** The text has a chain from the name b on at its end. */
  ghost predicate EndsInChain(gaps: seq<string>, names: seq<string>, points: seq<nat>, b: nat) {
    && Written(gaps, names, points) && Fits(gaps, points, 0) && |names| >= 2
    && b < |names| && NoSlash(gaps[b]) && forall k :: b < k < |names| ==> !NoSlash(gaps[k])
  }

  lemma CountRefused(gaps: seq<string>, names: seq<string>, points: seq<nat>, b: nat, w: string, rest: string)
    requires EndsInChain(gaps, names, points, b) && Numeral(w) && Delimits(rest) && Value(w) < 2
    ensures Parse(TextFrom(gaps, names, 0) + CountThen(w, rest)).None?
  {
    var f := CountedRead(gaps, names, points, b, CountThen(w, rest));
    CountIsTimes(names, b, w, rest, f);
    RefusedText(TextFrom(gaps, names, 0) + CountThen(w, rest));
  }

  lemma SameAfter(t: string, x: string, y: string, f: Read, f': Read)
    requires Reading(t + x, Nothing) == Reading(x, f) && Reading(t + y, Nothing) == Reading(y, f')
    requires f == f' && Reading(x, f) == Reading(y, f)
    ensures Parse(t + x) == Parse(t + y)
  {
    ReadAlike(t + x, t + y);
  }

  lemma CountCopies(gaps: seq<string>, names: seq<string>, points: seq<nat>, b: nat, w: string, rest: string,
                    copies: string)
    requires EndsInChain(gaps, names, points, b) && Numeral(w) && Delimits(rest) && Value(w) >= 2
    requires copies == Times(ChainAgain(names, b), Value(w) - 1) + rest
    ensures Parse(TextFrom(gaps, names, 0) + CountThen(w, rest)) == Parse(TextFrom(gaps, names, 0) + copies)
  {
    var f := CountedRead(gaps, names, points, b, CountThen(w, rest));
    TimesDelimits(ChainAgain(names, b), Value(w) - 1, rest);
    var f' := CountedRead(gaps, names, points, b, copies);
    CountIsTimes(names, b, w, rest, f);
    SameAfter(TextFrom(gaps, names, 0), CountThen(w, rest), copies, f, f');
  }

  /** A text with a count from 2 on is read as the text with its last chain written that
      many times; a count below 2 is refused. */
  lemma CountRepeats(gaps: seq<string>, names: seq<string>, points: seq<nat>, b: nat, w: string, rest: string)
    requires EndsInChain(gaps, names, points, b) && Numeral(w) && Delimits(rest)
    ensures var (t, k) := (TextFrom(gaps, names, 0), Value(w));
      if k < 2 then Parse(t + CountThen(w, rest)).None?
      else Parse(t + CountThen(w, rest)) == Parse(t + (Times(ChainAgain(names, b), k - 1) + rest))
  {
    if Value(w) < 2 {
      CountRefused(gaps, names, points, b, w, rest);
    } else {
      CountCopies(gaps, names, points, b, w, rest, Times(ChainAgain(names, b), Value(w) - 1) + rest);
    }
  }

  /** A count is refused as well where fewer than two points stand before it, or a slash. */
  lemma CountNeedsChain(gaps: seq<string>, names: seq<string>, points: seq<nat>, g: string, rest: string)
    requires Written(gaps, names, points) && Fits(gaps, points, 0) && Gap(g)
    requires |names| < 2 || OneSlash(g)
    ensures Parse(TextFrom(gaps, names, 0) + (g + ("(" + rest))).None?
  {
    var end := g + ("(" + rest);
    var f := PrefixRead(gaps, names, points, 0, end, Nothing);
    var f' := GapRead(g, "(" + rest, f);
    ReadingIs("(" + rest, f');
    RefusedText(TextFrom(gaps, names, 0) + end);
  }

  lemma RefusedText(s: string)
    requires Reading(s, Nothing).None?
    ensures Parse(s).None?
  {
    ReadingIs(s, Nothing);
  }

  lemma ReadAlike(s: string, t: string)
    requires Reading(s, Nothing) == Reading(t, Nothing)
    ensures Parse(s) == Parse(t)
  {
    ReadingIs(s, Nothing);
    ReadingIs(t, Nothing);
  }
}
