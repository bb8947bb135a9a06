/** ParseMove and CanonicalMoveOrder as the source runs them
    (gnubg/drawboard.c, lines 573 to 582 and 715 to 899). */
module MoveReader {
  import opened Common
  import opened Moves
  import opened MoveParse
  import opened MoveGuard

  /** What the loop variables hold. */
  function ReadSoFar(user: seq<int>, c: nat, fl: set<nat>, stars: set<int>): Read
    requires c <= |user|
  {
    Read(user[..c], fl, stars)
  }

  // ----- Repeating a chain

  /** The copying loops of the '(' case. */
  method CopyChain(user: array<int>, c0: nat, fl0: set<nat>, begin: nat, n: nat, ghost stars: set<int>)
    returns (c: nat, fl: set<nat>)
    requires user.Length == 12 && begin <= c0 && Room(c0, c0 - begin, n)
    modifies user
    ensures c <= 8
    ensures ReadSoFar(user[..], c, fl, stars) == Copy(old(ReadSoFar(user[..], c0, fl0, stars)), begin, c0, n)
  {
    c, fl := c0, fl0;
    ghost var whole := Copy(ReadSoFar(user[..], c0, fl0, stars), begin, c0, n);
    var i := 0;
    while i < n
      invariant 0 <= i <= n && c0 <= c && Room(c, c0 - begin, n - i)
      invariant Copy(ReadSoFar(user[..], c, fl, stars), begin, c0, n - i) == whole
    {
      c, fl := CopyChainOnce(user, c, fl, begin, c0, stars);
      i := i + 1;
    }
  }

  /** There is room for n more copies of a chain of len points. */
  ghost predicate Room(c: nat, len: nat, n: nat)
    decreases n
  {
    c <= 8 && (n > 0 ==> Room(c + len, len, n - 1))
  }

  lemma {:induction false} RoomByProduct(c: nat, len: nat, n: nat)
    requires c + len * n <= 8
    ensures Room(c, len, n)
    decreases n
  {
    if n > 0 {
      assert len * n == len + len * (n - 1);
      RoomByProduct(c + len, len, n - 1);
    }
  }

  method CopyChainOnce(user: array<int>, c0: nat, fl0: set<nat>, begin: nat, end: nat, ghost stars: set<int>)
    returns (c: nat, fl: set<nat>)
    requires user.Length == 12 && begin <= end <= c0 && c0 + (end - begin) <= 8
    modifies user
    ensures c == c0 + (end - begin)
    ensures ReadSoFar(user[..], c, fl, stars) == CopyOnce(old(ReadSoFar(user[..], c0, fl0, stars)), begin, end)
  {
    c, fl := c0, fl0;
    var j := begin;
    while j < end
      invariant begin <= j <= end && c == c0 + (j - begin)
      invariant CopyOnce(ReadSoFar(user[..], c, fl, stars), j, end)
             == CopyOnce(old(ReadSoFar(user[..], c0, fl0, stars)), begin, end)
    {
      ghost var was := user[..c];
      if j in fl {
        fl := fl + {c};
      }
      user[c] := user[j];
      c := c + 1;
      assert user[..c] == was + [was[j]];
      j := j + 1;
    }
  }

  /** The '(' case, with the count less one. */
  method RepeatChain(user: array<int>, c0: nat, fl0: set<nat>, n: int, ghost stars: set<int>)
    returns (ok: bool, c: nat, fl: set<nat>)
    requires user.Length == 12 && c0 <= 8
    requires var r := ReadSoFar(user[..], c0, fl0, stars); CanRepeat(r, n) ==> RepeatedSize(r, n) <= INT_MAX
    modifies user
    ensures c <= 8
    ensures var r := Repeated(old(ReadSoFar(user[..], c0, fl0, stars)), n);
            ok == r.Some? && (ok ==> ReadSoFar(user[..], c, fl, stars) == r.value)
  {
    c, fl := c0, fl0;
    if n < 1 {
      return false, c, fl;
    }
    if c < 2 {
      return false, c, fl;
    }
    if c in fl {
      return false, c, fl;
    }
    var iBegin: int := c - 1;
    while iBegin >= 0 && iBegin in fl
      invariant -1 <= iBegin < c
      invariant ChainStart(fl, iBegin) == ChainStart(fl, c - 1)
    {
      iBegin := iBegin - 1;
    }
    if iBegin < 0 {
      return false, c, fl;
    }
    CheckWithin(c + (c - iBegin) * n);
    if Int32(c + (c - iBegin) * n) > 8 {
      return false, c, fl;
    }
    RoomByProduct(c, c - iBegin, n);
    c, fl := CopyChain(user, c0, fl0, iBegin, n, stars);
    ok := true;
  }

  // ----- One round of the reading loop

  /** Reads one token at pch. */
  method ReadToken(text: string, pch: nat, user: array<int>, c0: nat, fl0: set<nat>, ghost stars: set<int>)
    returns (ok: bool, pch': nat, c: nat, fl: set<nat>, ghost stars': set<int>)
    requires pch < |text| && user.Length == 12 && c0 <= 8
    requires CountSafe(text[pch..], ReadSoFar(user[..], c0, fl0, stars))
    modifies user
    ensures c <= 8
    ensures var s, r := text[pch..], old(ReadSoFar(user[..], c0, fl0, stars));
            && ok == ReadOne(s, r).Some?
            && (ok ==> pch < pch' <= |text| && text[pch'..] == AfterOne(s)
                       && ReadSoFar(user[..], c, fl, stars') == ReadOne(s, r).value)
  {
    ghost var s, r := text[pch..], ReadSoFar(user[..], c0, fl0, stars);
    AfterOneLeft(s);
    ok, c, fl, stars' := true, c0, fl0, stars;
    var ch := text[pch];
    pch' := SkipToken(text, pch);
    if IsSpace(ch) {
    } else if IsDigit(ch) {
      var n := Strtol(text[pch..]).0;
      if c == 8 || n < 0 || n > 25 {
        ok := false;
      } else {
        c := AddPoint(user, c, n);
      }
    } else if ch == 'o' || ch == 'O' || ch == '-' {
      if c == 8 {
        ok := false;
      } else {
        c := AddPoint(user, c, 0);
      }
    } else if ch == 'b' || ch == 'B' {
      if c == 8 {
        ok := false;
      } else {
        c := AddPoint(user, c, 25);
      }
    } else if ch == '/' {
      if c == 0 || c in fl {
        ok := false;
      } else {
        fl := fl + {c};
      }
    } else if ch == '*' || ch == ',' || ch == ')' {
      if ch == '*' && c > 0 {
        stars' := stars + {user[c - 1]};
      }
    } else if ch == '(' {
      assert text[pch..][1..] == text[pch + 1..];
      var v := Strtol(text[pch + 1..]).0;
      StrtolRange(text[pch + 1..]);
      CheckWithin(v - 1);
      ok, c, fl := RepeatChain(user, c, fl, Int32(v - 1), stars);
      if ok {
        pch' := pch' + 1;
      }
    } else {
      ok := false;
    }
  }

  method AddPoint(user: array<int>, c: nat, n: int) returns (c': nat)
    requires user.Length == 12 && c < 8
    modifies user
    ensures c' == c + 1 && user[..c'] == old(user[..c]) + [n]
  {
    user[c] := n;
    c' := c + 1;
  }

  /** Where the pointer is after the token, or for a count after its number; strtol
      is the library's, by its contract. */
  method SkipToken(text: string, pch: nat) returns (pch': nat)
    requires pch < |text|
    ensures pch < pch' <= |text|
    ensures text[pch'..] == if text[pch] == '(' then Strtol(text[pch..][1..]).1 else AfterOne(text[pch..])
  {
    ghost var s := text[pch..];
    var ch := text[pch];
    pch' := pch + 1;
    if IsDigit(ch) {
      AfterNumberLeft(s, Strtol(s).1);
      pch' := |text| - |Strtol(text[pch..]).1|;
      Remains(text, pch, Strtol(s).1);
    } else if ch == 'o' || ch == 'O' || ch == '-' {
      pch' := SkipOff(text, pch);
    } else if ch == 'b' || ch == 'B' {
      pch' := SkipBar(text, pch);
    } else if ch == '(' {
      AfterCountLeft(s, Strtol(s[1..]).1);
      Rest(text, pch, 1);
      pch' := |text| - |Strtol(text[pch + 1..]).1|;
      Remains(text, pch, Strtol(s[1..]).1);
    } else {
      Rest(text, pch, 1);
    }
  }

  lemma Rest(text: string, pch: nat, k: nat)
    requires pch + k <= |text|
    ensures text[pch..][k..] == text[pch + k..]
  {
  }

  lemma Remains(text: string, pch: nat, rest: string)
    requires pch <= |text| && LeftOf(rest, text[pch..], 1)
    ensures |rest| <= |text| - pch - 1 && text[|text| - |rest|..] == rest
  {
    Rest(text, pch, |text| - pch - |rest|);
  }

  method SkipOff(text: string, pch: nat) returns (pch': nat)
    requires pch < |text|
    ensures pch < pch' <= |text| && text[pch'..] == AfterOff(text[pch..])
  {
    pch' := pch + 1;
    if text[pch] != '-' && pch' < |text| && (text[pch'] == 'f' || text[pch'] == 'F') {
      pch' := pch' + 1;
      if pch' < |text| && (text[pch'] == 'f' || text[pch'] == 'F') {
        pch' := pch' + 1;
      }
    }
    Rest(text, pch, pch' - pch);
  }

  method SkipBar(text: string, pch: nat) returns (pch': nat)
    requires pch < |text|
    ensures pch < pch' <= |text| && text[pch'..] == AfterBar(text[pch..])
  {
    pch' := pch + 1;
    if pch' < |text| && (text[pch'] == 'a' || text[pch'] == 'A') {
      pch' := pch' + 1;
      if pch' < |text| && (text[pch'] == 'r' || text[pch'] == 'R') {
        pch' := pch' + 1;
      }
    }
    Rest(text, pch, pch' - pch);
  }

  /** The reading loop. */
  method ReadPoints(text: string, user: array<int>) returns (ok: bool, c: nat, fl: set<nat>, ghost stars: set<int>)
    requires Safe(text, Nothing) && user.Length == 12
    modifies user
    ensures c <= 8
    ensures ok == Scan(text, Nothing).Some?
    ensures ok ==> ReadSoFar(user[..], c, fl, stars) == Scan(text, Nothing).value
  {
    c, fl, stars := 0, {}, {};
    ReadingIs(text, Nothing);
    var pch := 0;
    assert text[0..] == text && user[..0] == [];
    while pch < |text|
      invariant 0 <= pch <= |text| && c <= 8 && Safe(text[pch..], ReadSoFar(user[..], c, fl, stars))
      invariant Reading(text[pch..], ReadSoFar(user[..], c, fl, stars)) == Reading(text, Nothing)
    {
      ghost var r := ReadSoFar(user[..], c, fl, stars);
      ReadingStep(text[pch..], r);
      ok, pch, c, fl, stars := ReadToken(text, pch, user, c, fl, stars);
      if !ok {
        return;
      }
    }
    ReadingIs("", ReadSoFar(user[..], c, fl, stars));
    ok := c !in fl;
  }

  lemma ReadingStep(s: string, r: Read)
    requires s != ""
    ensures ReadOne(s, r).None? ==> Reading(s, r).None?
    ensures ReadOne(s, r).Some? ==> Reading(s, r) == Reading(AfterOne(s), ReadOne(s, r).value)
  {
    AfterOneLeft(s);
    ReadingIs(s, r);
    if ReadOne(s, r).Some? {
      ReadingIs(AfterOne(s), ReadOne(s, r).value);
    }
  }

  // ----- From points to steps

  lemma PairingStep(r: Read, j: nat, an: seq<int>)
    requires j < |r.user|
    ensures var i, p := |an|, r.user[j];
            if i >= 8 || (i % 2 == 1 && p == 25) || (i % 2 == 0 && p == 0) then Pairing(r, j, an).None?
            else if i % 2 == 1 && j + 1 in r.slash then
              if i == 7 || p == 0 || p == 25 then Pairing(r, j, an).None?
              else Pairing(r, j, an) == Pairing(r, j + 1, an + [p, p])
            else Pairing(r, j, an) == Pairing(r, j + 1, an + [p])
  {
    PairingIs(r, j, an);
    PairingIs(r, j + 1, an + [r.user[j]]);
    PairingIs(r, j + 1, an + [r.user[j], r.user[j]]);
  }

  /** The loop that fills the move, up to and with the check for an odd point. */
  method PairPoints(user: array<int>, c: nat, fl: set<nat>, an: array<int>, ghost r: Read) returns (ok: bool, i: nat)
    requires user != an && user.Length == 12 && an.Length == 8 && c <= 8
    requires r.user == user[..c] && r.slash == fl
    modifies an
    ensures i <= 8
    ensures ok == Convert(r, 0, []).Some?
    ensures ok ==> an[..i] == Convert(r, 0, []).value
  {
    PairingIs(r, 0, []);
    i := 0;
    var j := 0;
    assert an[..0] == [];
    while j < c
      invariant 0 <= j <= c && i <= 8
      invariant Pairing(r, j, an[..i]) == Pairing(r, 0, [])
    {
      PairingStep(r, j, an[..i]);
      if i == 8 {
        return false, i;
      }
      if (i % 2 == 1 && user[j] == 25) || (i % 2 == 0 && user[j] == 0) {
        return false, i;
      }
      ghost var was := an[..i];
      an[i] := user[j];
      assert an[..i + 1] == was + [user[j]];
      if i % 2 == 1 && j + 1 in fl {
        if i == 7 {
          return false, i;
        }
        if an[i] == 0 || an[i] == 25 {
          return false, i;
        }
        i := i + 1;
        an[i] := user[j];
        assert an[..i + 1] == was + [user[j], user[j]];
      }
      i := i + 1;
      j := j + 1;
    }
    PairingIs(r, j, an[..i]);
    ok := i % 2 == 0;
  }

  // ----- Canonical order

  /** How many pairs CanonicalMoveOrder sorts: those before the first negative
      source, and at most four. */
  function Leading(an: seq<int>): (n: nat)
    ensures 2 * n <= |an|
  {
    if |an| < 2 || an[0] < 0 then 0 else 1 + Leading(an[2..])
  }

  /** qsort on the first n pairs, by its contract. */
  method SortPairs(an: array<int>, n: nat)
    requires 2 * n <= an.Length
    modifies an
    ensures Pairs(an[..2 * n]) == Sort(Pairs(old(an[..2 * n])))
    ensures an[2 * n..] == old(an[2 * n..])
  {
    var m := Sort(Pairs(an[..2 * n]));
    var k := 0;
    while k < n
      invariant 0 <= k <= n
      invariant forall l :: 0 <= l < k ==> an[2 * l] == m[l].from && an[2 * l + 1] == m[l].to
      invariant an[2 * n..] == old(an[2 * n..])
    {
      an[2 * k], an[2 * k + 1] := m[k].from, m[k].to;
      k := k + 1;
    }
    PairsAre(an[..2 * n], m);
  }

  lemma {:induction false} PairsAre(an: seq<int>, m: seq<Step>)
    requires |an| == 2 * |m|
    requires forall l :: 0 <= l < |m| ==> an[2 * l] == m[l].from && an[2 * l + 1] == m[l].to
    ensures Pairs(an) == m
  {
    if m != [] {
      assert an[2 * 0] == m[0].from && an[2 * 0 + 1] == m[0].to;
      forall l | 0 <= l < |m[1..]|
        ensures an[2..][2 * l] == m[1..][l].from && an[2..][2 * l + 1] == m[1..][l].to
      {
        assert an[2 * (l + 1)] == m[l + 1].from && an[2 * (l + 1) + 1] == m[l + 1].to;
      }
      PairsAre(an[2..], m[1..]);
    }
  }

  /** Puts the steps of a move in canonical order. */
  method CanonicalMoveOrder(an: array<int>)
    requires an.Length == 8
    modifies an
    ensures var n := Leading(old(an[..]));
            && Pairs(an[..2 * n]) == Sort(Pairs(old(an[..2 * n])))
            && an[2 * n..] == old(an[2 * n..])
  {
    var i := 0;
    assert an[0..] == an[..];
    while i < 4 && an[2 * i] > -1
      invariant 0 <= i <= 4 && i + Leading(an[2 * i..]) == Leading(an[..])
    {
      assert an[2 * i..][2..] == an[2 * (i + 1)..];
      i := i + 1;
    }
    assert i == Leading(an[..]);
    SortPairs(an, i);
  }

  /** Every source that the parser writes is on the board or the bar. */
  lemma {:induction false} ConvertSources(r: Read, j: nat, an: seq<int>)
    requires j <= |r.user| && Convert(r, j, an).Some?
    requires forall k :: 0 <= k < |r.user| ==> 0 <= r.user[k] <= 25
    requires forall k :: 0 <= k < |an| && k % 2 == 0 ==> an[k] > 0
    ensures var all := Convert(r, j, an).value; forall k :: 0 <= k < |all| && k % 2 == 0 ==> all[k] > 0
    ensures |Convert(r, j, an).value| % 2 == 0
    decreases |r.user| - j
  {
    if j < |r.user| {
      var p := r.user[j];
      if |an| % 2 == 1 && j + 1 in r.slash {
        ConvertSources(r, j + 1, an + [p, p]);
      } else {
        ConvertSources(r, j + 1, an + [p]);
      }
    }
  }

  /** Every point that is read is between 0 and 25. */
  ghost predicate PointsOnBoard(r: Read) {
    forall k :: 0 <= k < |r.user| ==> 0 <= r.user[k] <= 25
  }

  lemma {:induction false} CopyOnceOnBoard(r: Read, j: nat, end: nat)
    requires j <= end <= |r.user| && PointsOnBoard(r)
    ensures PointsOnBoard(CopyOnce(r, j, end))
    decreases end - j
  {
    if j < end {
      var slash := if j in r.slash then r.slash + {|r.user|} else r.slash;
      CopyOnceOnBoard(Read(r.user + [r.user[j]], slash, r.stars), j + 1, end);
    }
  }

  lemma {:induction false} CopyOnBoard(r: Read, begin: nat, end: nat, n: nat)
    requires begin <= end <= |r.user| && PointsOnBoard(r)
    ensures PointsOnBoard(Copy(r, begin, end, n))
    decreases n
  {
    if n > 0 {
      CopyOnceOnBoard(r, begin, end);
      CopyOnBoard(CopyOnce(r, begin, end), begin, end, n - 1);
    }
  }

  lemma {:induction false} ScanOnBoard(s: string, r: Read)
    requires PointsOnBoard(r) && Scan(s, r).Some?
    ensures PointsOnBoard(Scan(s, r).value)
    decreases |s|
  {
    if s != "" {
      AfterOneLeft(s);
      if s[0] == '(' {
        var c := |r.user|;
        CopyOnBoard(r, ChainStart(r.slash, c - 1), c, Strtol(s[1..]).0 - 1);
      }
      ScanOnBoard(AfterOne(s), ReadOne(s, r).value);
    }
  }

  lemma {:induction false} LeadingAll(an: seq<int>, n: nat)
    requires 2 * n <= |an| && forall k :: 0 <= k < 2 * n && k % 2 == 0 ==> an[k] > 0
    requires 2 * n == |an| || an[2 * n] < 0
    ensures Leading(an) == n
    decreases n
  {
    if n > 0 {
      assert an[0] > 0;
      forall k | 0 <= k < 2 * (n - 1) && k % 2 == 0
        ensures an[2..][k] > 0
      {
        assert (k + 2) % 2 == 0;
      }
      LeadingAll(an[2..], n - 1);
    }
  }

  /** The whole of ParseMove: the number of steps, or -1 for an error.  The list
      holds the steps in canonical order, with -1 after the last of fewer than
      four. */
  method ParseMove(text: string, an: array<int>) returns (n: int)
    requires Safe(text, Nothing) && an.Length == 8
    modifies an
    ensures n == -1 <==> Parse(text).None?
    ensures n != -1 ==> 0 <= n <= 4 && Pairs(an[..2 * n]) == Parse(text).value && n == |Parse(text).value|
    ensures n != -1 && n < 4 ==> an[2 * n] == -1
  {
    var user := new int[12];
    var ok, c, fl, stars := ReadPoints(text, user);
    if !ok {
      return -1;
    }
    ghost var r := ReadSoFar(user[..], c, fl, stars);
    ScanOnBoard(text, Nothing);
    var i;
    ok, i := PairPoints(user, c, fl, an, r);
    if !ok {
      return -1;
    }
    ConvertSources(r, 0, []);
    ghost var steps := an[..i];
    if i < 8 {
      an[i] := -1;
    }
    assert an[..i] == steps;
    n := i / 2;
    LeadingAll(an[..], n);
    CanonicalMoveOrder(an);
  }
}
