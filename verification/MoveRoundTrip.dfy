/** ParseMove reads back what FormatMove writes: the same net effect and the same
    hits, although steps were elided and equal chains collapsed. */
module MoveRoundTrip {
  import opened Common
  import opened Moves
  import opened MoveChains
  import opened MoveText
  import opened MoveParse
  import opened MoveGuard

  // ----- Reading the pieces of a printed group

  lemma {:induction false} ClosedPrepend(x: string, rest: string)
    requires Closed(rest) && '(' !in x
    ensures Closed(x + rest)
  {
    if x == "" {
      assert x + rest == rest;
    } else {
      assert (x + rest)[1..] == x[1..] + rest;
      ClosedPrepend(x[1..], rest);
    }
  }

  lemma DigitValue(n: nat)
    requires n <= 9
    ensures IsDigit(Digit(n)) && Digit(n) as int - '0' as int == n
  {
  }

  /** A printed number is read back. */
  lemma StrtolNumber(n: nat, rest: string)
    requires 1 <= n <= 24 && (rest == "" || !IsDigit(rest[0]))
    ensures Strtol(Point(n) + rest) == (n, rest)
  {
    var s := Point(n) + rest;
    assert SkipSpace(s) == s;
    if n > 9 {
      DigitValue(n / 10);
      DigitValue(n % 10);
      assert s[1..] == [Digit(n % 10)] + rest && s[1..][1..] == rest;
      assert Digits(s[1..], n / 10) == Digits(rest, n);
    } else {
      DigitValue(n);
      assert s[1..] == rest;
    }
    assert Digits(s, 0) == Digits(rest, n);
  }

  lemma PointNoBracket(n: int)
    requires OFF <= n <= BAR
    ensures '(' !in Point(n)
  {
  }

  lemma ScanPoint(n: int, rest: string, r: Read)
    requires OFF <= n <= BAR && |r.user| < 8
    requires Closed(rest) && (rest == "" || !IsDigit(rest[0]))
    ensures Closed(Point(n) + rest)
    ensures Reading(Point(n) + rest, r) == Reading(rest, r.(user := r.user + [n]))
  {
    PointNoBracket(n);
    ClosedPrepend(Point(n), rest);
    var s := Point(n) + rest;
    ReadingIs(s, r);
    ReadingIs(rest, r.(user := r.user + [n]));
    if n == 0 || n == 25 {
      assert s[3..] == rest;
    } else {
      StrtolNumber(n, rest);
      DigitValue(n % 10);
      if n > 9 {
        DigitValue(n / 10);
      }
      assert IsDigit(s[0]);
    }
  }

  lemma ScanChar(ch: char, rest: string, r: Read)
    requires Closed(rest) && (ch == '/' || ch == '*' || ch == ' ')
    requires ch == '/' ==> 0 < |r.user| && |r.user| !in r.slash
    requires ch == '*' ==> 0 < |r.user|
    ensures Closed([ch] + rest)
    ensures Reading([ch] + rest, r) == Reading(rest, CharRead(ch, r))
  {
    ClosedPrepend([ch], rest);
    assert ([ch] + rest)[1..] == rest;
    ReadingIs([ch] + rest, r);
    ReadingIs(rest, CharRead(ch, r));
  }

  function CharRead(ch: char, r: Read): Read
    requires ch == '*' ==> 0 < |r.user|
  {
    if ch == '/' then r.(slash := r.slash + {|r.user|})
    else if ch == '*' then r.(stars := r.stars + {r.user[|r.user| - 1]})
    else r
  }

  // ----- What has been read

  /** All slashes stand before points that have been read. */
  ghost predicate Tidy(r: Read) {
    forall k :: k in r.slash ==> k < |r.user|
  }

  /** The slashes of a chain of n points that starts at position b. */
  function Slashes(b: nat, n: nat): (s: set<nat>)
    ensures forall k: nat :: k in s <==> b < k < b + n
  {
    if n < 2 then {} else Slashes(b, n - 1) + {b + n - 1}
  }

  ghost function AddChain(r: Read, c: Chain): Read {
    Read(r.user + c, r.slash + Slashes(|r.user|, |c|), r.stars)
  }

  ghost function AddTimes(r: Read, c: Chain, n: nat): (r': Read)
    ensures r'.stars == r.stars
    ensures |r'.user| == |r.user| + n * |c|
    decreases n
  {
    if n == 0 then r
    else
      assert n * |c| == (n - 1) * |c| + |c|;
      AddTimes(AddChain(r, c), c, n - 1)
  }

  lemma Assoc(a: string, b: string, c: string)
    ensures a + b + c == a + (b + c)
  {
  }

  lemma Assoc4(a: string, b: string, c: string, d: string)
    ensures a + b + c + d == a + (b + (c + d))
  {
  }

  lemma Assoc5(a: string, b: string, c: string, d: string, e: string)
    ensures a + b + c + d + e == a + (b + (c + (d + e)))
  {
  }

  // ----- Reading a chain

  function MiddleRead(r: Read, c: Chain, j: nat): Read
    requires ValidChain(c) && 1 <= j <= |c| - 1
    decreases |c| - j
  {
    if j == |c| - 1 then r
    else MiddleRead(Read(r.user + [c[j]], r.slash + {|r.user|}, r.stars + {c[j]}), c, j + 1)
  }

  /** One point in the middle of a chain. */
  lemma ScanMid(x: int, rest: string, r: Read)
    requires OFF <= x <= BAR && Tidy(r) && 0 < |r.user| < 8 && Closed(rest)
    ensures Closed("/" + Point(x) + "*" + rest)
    ensures Reading("/" + Point(x) + "*" + rest, r)
         == Reading(rest, Read(r.user + [x], r.slash + {|r.user|}, r.stars + {x}))
  {
    var slashed := r.(slash := r.slash + {|r.user|});
    var read := slashed.(user := r.user + [x]);
    ScanChar('*', rest, read);
    ScanPoint(x, "*" + rest, slashed);
    ScanChar('/', Point(x) + ("*" + rest), r);
    Assoc4("/", Point(x), "*", rest);
  }

  lemma MiddleNext(c: Chain, j: nat, rest: string)
    requires ValidChain(c) && 1 <= j < |c| - 1
    ensures Middle(c, j) + rest == "/" + Point(c[j]) + "*" + (Middle(c, j + 1) + rest)
  {
    Assoc("/" + Point(c[j]) + "*", Middle(c, j + 1), rest);
  }

  lemma {:induction false} ScanMiddle(c: Chain, j: nat, rest: string, r: Read)
    requires ValidChain(c) && 1 <= j <= |c| - 1
    requires Tidy(r) && 0 < |r.user| && |r.user| + |c| - 1 - j <= 8
    requires Closed(rest) && rest != "" && rest[0] == '/'
    ensures Closed(Middle(c, j) + rest)
    ensures Reading(Middle(c, j) + rest, r) == Reading(rest, MiddleRead(r, c, j))
    decreases |c| - j
  {
    if j == |c| - 1 {
      assert Middle(c, j) + rest == rest;
    } else {
      ScanMiddle(c, j + 1, rest, Read(r.user + [c[j]], r.slash + {|r.user|}, r.stars + {c[j]}));
      ScanMid(c[j], Middle(c, j + 1) + rest, r);
      MiddleNext(c, j, rest);
    }
  }

  lemma {:induction false} MiddleReadIs(r: Read, c: Chain, j: nat)
    requires ValidChain(c) && 1 <= j <= |c| - 1 && 0 < |r.user|
    ensures MiddleRead(r, c, j).user == r.user + c[j..|c| - 1]
    ensures MiddleRead(r, c, j).slash == r.slash + Slashes(|r.user| - 1, |c| - j)
    ensures MiddleRead(r, c, j).stars == r.stars + MidsFrom(c, j)
    decreases |c| - j
  {
    if j < |c| - 1 {
      var next := Read(r.user + [c[j]], r.slash + {|r.user|}, r.stars + {c[j]});
      MiddleReadIs(next, c, j + 1);
      assert c[j..|c| - 1] == [c[j]] + c[j + 1..|c| - 1];
    }
  }

  /** The text of a chain without its count. */
  ghost function ChainText(opp: Opponent, c: Chain, fl: set<int>): string
    requires ValidChain(c)
  {
    Point(c[0]) + Middle(c, 1) + "/" + Point(Last(c)) + if EndStarred(opp, c, fl) then "*" else ""
  }

  /** What may follow a chain in the text. */
  ghost predicate Follows(rest: string) {
    Closed(rest) && (rest == "" || rest[0] == ' ' || rest[0] == '(')
  }

  function Star(on: bool): string {
    if on then "*" else ""
  }

  /** The end of a chain, and what it adds. */
  lemma ScanEnd(end: int, star: bool, rest: string, r: Read)
    requires OFF <= end <= BAR && Tidy(r) && 0 < |r.user| < 8 && Follows(rest)
    ensures Closed("/" + (Point(end) + (Star(star) + rest)))
    ensures Reading("/" + (Point(end) + (Star(star) + rest)), r)
         == Reading(rest, Read(r.user + [end], r.slash + {|r.user|}, r.stars + if star then {end} else {}))
  {
    var slashed := r.(slash := r.slash + {|r.user|});
    var read := slashed.(user := r.user + [end]);
    if star {
      ScanChar('*', rest, read);
    } else {
      assert Star(star) + rest == rest;
      assert r.stars + {} == r.stars;
    }
    ScanPoint(end, Star(star) + rest, slashed);
    ScanChar('/', Point(end) + (Star(star) + rest), r);
  }

  /** What has been read after a chain. */
  ghost function ChainRead(opp: Opponent, r: Read, c: Chain, fl: set<int>): Read
    requires ValidChain(c)
  {
    AddChain(r, c).(stars := r.stars + Mids(c) + if EndStarred(opp, c, fl) then {Last(c)} else {})
  }

  lemma ChainReadIs(opp: Opponent, r: Read, c: Chain, fl: set<int>)
    requires ValidChain(c)
    ensures var middle := MiddleRead(r.(user := r.user + [c[0]]), c, 1);
            && |middle.user| == |r.user| + |c| - 1
            && middle.slash == r.slash + Slashes(|r.user|, |c| - 1)
            && ChainRead(opp, r, c, fl)
            == Read(middle.user + [Last(c)], middle.slash + {|middle.user|},
                    middle.stars + if EndStarred(opp, c, fl) then {Last(c)} else {})
  {
    var first := r.(user := r.user + [c[0]]);
    var middle := MiddleRead(first, c, 1);
    MiddleReadIs(first, c, 1);
    UserIs(r.user, c);
    var n := |r.user|;
    assert r.slash + Slashes(n, |c| - 1) + {n + |c| - 1} == r.slash + (Slashes(n, |c| - 1) + {n + |c| - 1});
  }

  lemma UserIs(user: seq<int>, c: Chain)
    requires |c| >= 2
    ensures user + [c[0]] + c[1..|c| - 1] + [Last(c)] == user + c
  {
    assert c == [c[0]] + c[1..|c| - 1] + [Last(c)];
  }

  lemma ChainTextSplit(opp: Opponent, c: Chain, fl: set<int>, rest: string)
    requires ValidChain(c)
    ensures var star := Star(EndStarred(opp, c, fl));
            ChainText(opp, c, fl) + rest == Point(c[0]) + (Middle(c, 1) + ("/" + (Point(Last(c)) + (star + rest))))
  {
    var star := Star(EndStarred(opp, c, fl));
    var end := "/" + (Point(Last(c)) + star);
    Assoc5(Point(c[0]), Middle(c, 1), "/", Point(Last(c)), star);
    Assoc(Point(c[0]), Middle(c, 1) + end, rest);
    Assoc(Middle(c, 1), end, rest);
    Assoc("/", Point(Last(c)) + star, rest);
    Assoc(Point(Last(c)), star, rest);
  }

  lemma ScanChain(opp: Opponent, c: Chain, fl: set<int>, rest: string, r: Read)
    requires ValidChain(c) && Tidy(r) && |r.user| + |c| <= 8 && Follows(rest)
    ensures Closed(ChainText(opp, c, fl) + rest)
    ensures Reading(ChainText(opp, c, fl) + rest, r) == Reading(rest, ChainRead(opp, r, c, fl))
  {
    var star := EndStarred(opp, c, fl);
    var middle := MiddleRead(r.(user := r.user + [c[0]]), c, 1);
    ChainReadIs(opp, r, c, fl);
    ChainTextSplit(opp, c, fl, rest);
    var s1 := "/" + (Point(Last(c)) + (Star(star) + rest));
    ScanEnd(Last(c), star, rest, middle);
    ScanStart(c, s1, r);
  }

  lemma ScanStart(c: Chain, s: string, r: Read)
    requires ValidChain(c) && Tidy(r) && |r.user| + |c| <= 8
    requires Closed(s) && s != "" && s[0] == '/'
    ensures Closed(Point(c[0]) + (Middle(c, 1) + s))
    ensures Reading(Point(c[0]) + (Middle(c, 1) + s), r) == Reading(s, MiddleRead(r.(user := r.user + [c[0]]), c, 1))
  {
    ScanMiddle(c, 1, s, r.(user := r.user + [c[0]]));
    MiddleStart(c, 1, s);
    ScanPoint(c[0], Middle(c, 1) + s, r);
  }

  lemma MiddleStart(c: Chain, j: nat, s: string)
    requires ValidChain(c) && 1 <= j <= |c| - 1 && s != "" && s[0] == '/'
    ensures Middle(c, j) + s != "" && (Middle(c, j) + s)[0] == '/'
  {
  }

  // ----- Reading a count

  lemma {:induction false} ChainStartIs(slash: set<nat>, b: nat, m: nat)
    requires b <= m && b !in slash && forall k :: b < k <= m ==> k in slash
    ensures ChainStart(slash, m) == b
    decreases m
  {
    if b < m {
      ChainStartIs(slash, b, m - 1);
    }
  }

  lemma SliceTail(u: seq<int>, v: int, j: nat, end: nat)
    requires j < end <= |u| && v == u[j]
    ensures (u + [v])[j + 1..end] == u[j + 1..end]
    ensures u + u[j..end] == u + [v] + (u + [v])[j + 1..end]
  {
    assert u[j..end] == [v] + u[j + 1..end];
  }

  lemma {:induction false} CopyTail(r: Read, j: nat, end: nat)
    requires j <= end <= |r.user| && forall k :: j <= k < end ==> k in r.slash
    requires 0 < |r.user|
    ensures CopyOnce(r, j, end) == Read(r.user + r.user[j..end], r.slash + Slashes(|r.user| - 1, end - j + 1), r.stars)
    decreases end - j
  {
    if j < end {
      var r' := Read(r.user + [r.user[j]], r.slash + {|r.user|}, r.stars);
      CopyTail(r', j + 1, end);
      SliceTail(r.user, r.user[j], j, end);
    }
  }

  /** The last chain read is c, from position b on. */
  ghost predicate EndsWith(r: Read, c: Chain, b: nat) {
    && Tidy(r) && |c| >= 2 && b + |c| <= |r.user|
    && r.user[b..b + |c|] == c && b !in r.slash
    && forall k :: b < k < b + |c| ==> k in r.slash
  }

  lemma CopyOnceIs(r: Read, c: Chain, b: nat)
    requires EndsWith(r, c, b)
    ensures CopyOnce(r, b, b + |c|) == AddChain(r, c)
    ensures EndsWith(AddChain(r, c), c, b)
  {
    var r' := r.(user := r.user + [r.user[b]]);
    CopyTail(r', b + 1, b + |c|);
    assert r'.user[b + 1..b + |c|] == c[1..];
    assert r.user[b] == c[0] && c == [c[0]] + c[1..];
    assert r.user + [c[0]] + c[1..] == r.user + c;
  }

  lemma {:induction false} CopyIs(r: Read, c: Chain, b: nat, n: nat)
    requires EndsWith(r, c, b)
    ensures Copy(r, b, b + |c|, n) == AddTimes(r, c, n)
    decreases n
  {
    if n > 0 {
      CopyOnceIs(r, c, b);
      CopyIs(AddChain(r, c), c, b, n - 1);
    }
  }

  lemma StrtolCount(n: nat, rest: string)
    requires 2 <= n <= 4
    ensures Strtol([Digit(n), ')'] + rest) == (n, [')'] + rest)
  {
    var s := [Digit(n), ')'] + rest;
    DigitValue(n);
    assert SkipSpace(s) == s;
    assert s[1..] == [')'] + rest;
    assert Digits(s, 0) == Digits([')'] + rest, n);
  }

  lemma LastChainStart(r: Read, c: Chain)
    requires |c| <= |r.user| && EndsWith(r, c, |r.user| - |c|)
    ensures HasChain(r) && ChainLength(r) == |c|
  {
    ChainStartIs(r.slash, |r.user| - |c|, |r.user| - 1);
  }

  lemma RepeatedFits(r: Read, len: nat, n: nat)
    requires n > 0 && HasChain(r) && ChainLength(r) == len && |r.user| + len * n <= 8
    ensures len <= |r.user| && Repeated(r, n) == Some(Copy(r, |r.user| - len, |r.user|, n))
  {
  }

  lemma RepeatedIs(n: nat, r: Read, c: Chain)
    requires 2 <= n <= 4 && |c| <= |r.user| && EndsWith(r, c, |r.user| - |c|)
    requires |r.user| + |c| * (n - 1) <= 8
    ensures Repeated(r, n - 1) == Some(AddTimes(r, c, n - 1))
  {
    LastChainStart(r, c);
    RepeatedFits(r, |c|, n - 1);
    CopyIs(r, c, |r.user| - |c|, n - 1);
  }

  lemma CountToken(n: nat, rest: string)
    requires 2 <= n <= 4
    ensures var s := CountText(n) + rest;
            && s[0] == '(' && s[1..] == [Digit(n), ')'] + rest && AfterOne(s) == rest
            && Strtol(s[1..]).0 == n && CountEnds(s[1..])
  {
    var s := CountText(n) + rest;
    assert s[1..] == [Digit(n), ')'] + rest;
    StrtolCount(n, rest);
    DigitValue(n);
    assert ([')'] + rest)[1..] == rest;
  }

  lemma ScanCount(n: nat, rest: string, r: Read)
    requires 2 <= n <= 4 && Closed(rest) && Repeated(r, n - 1).Some?
    ensures Closed(CountText(n) + rest)
    ensures Reading(CountText(n) + rest, r) == Reading(rest, Repeated(r, n - 1).value)
  {
    var s := CountText(n) + rest;
    ClosedPrepend([Digit(n), ')'], rest);
    CountToken(n, rest);
    ReadingIs(s, r);
    ReadingIs(rest, Repeated(r, n - 1).value);
  }

  // ----- Reading all groups

  ghost function GroupRead(opp: Opponent, r: Read, g: Group, fl: set<int>): Read
    requires ValidGroup(g)
  {
    AddTimes(ChainRead(opp, r, g.chain, fl), g.chain, g.count - 1)
  }

  ghost function GroupsRead(opp: Opponent, r: Read, gs: seq<Group>, fl: set<int>): Read
    requires ValidGroups(gs)
    decreases |gs|
  {
    if gs == [] then r
    else GroupsRead(opp, GroupRead(opp, r, gs[0], fl), gs[1..], FlagsAfter(opp, gs[0].chain, fl))
  }

  /** How many points reading the groups yields. */
  function Points(gs: seq<Group>): nat {
    if gs == [] then 0 else gs[0].count * |gs[0].chain| + Points(gs[1..])
  }

  lemma {:induction false} AddTimesTidy(r: Read, c: Chain, n: nat)
    requires Tidy(r)
    ensures Tidy(AddTimes(r, c, n))
    decreases n
  {
    if n > 0 {
      AddTimesTidy(AddChain(r, c), c, n - 1);
    }
  }

  lemma GroupReadIs(opp: Opponent, r: Read, g: Group, fl: set<int>)
    requires ValidGroup(g) && Tidy(r)
    ensures Tidy(GroupRead(opp, r, g, fl))
    ensures |GroupRead(opp, r, g, fl).user| == |r.user| + g.count * |g.chain|
  {
    AddTimesTidy(ChainRead(opp, r, g.chain, fl), g.chain, g.count - 1);
    assert g.count * |g.chain| == |g.chain| + (g.count - 1) * |g.chain|;
  }

  lemma ChainReadEnds(opp: Opponent, r: Read, c: Chain, fl: set<int>)
    requires ValidChain(c) && Tidy(r)
    ensures EndsWith(ChainRead(opp, r, c, fl), c, |r.user|)
    ensures |ChainRead(opp, r, c, fl).user| == |r.user| + |c|
  {
    assert (r.user + c)[|r.user|..|r.user| + |c|] == c;
  }

  lemma Copies(n: nat, k: nat)
    requires n >= 1
    ensures n * k == k + k * (n - 1) && k <= n * k
  {
  }

  /** A count above one repeats the chain before it. */
  lemma GroupRepeated(opp: Opponent, g: Group, fl: set<int>, r: Read)
    requires ValidGroup(g) && Tidy(r) && |r.user| + g.count * |g.chain| <= 8 && g.count > 1
    ensures Repeated(ChainRead(opp, r, g.chain, fl), g.count - 1) == Some(GroupRead(opp, r, g, fl))
  {
    Copies(g.count, |g.chain|);
    ChainReadEnds(opp, r, g.chain, fl);
    RepeatedIs(g.count, ChainRead(opp, r, g.chain, fl), g.chain);
  }

  lemma ScanRepeated(opp: Opponent, g: Group, fl: set<int>, rest: string, r: Read)
    requires ValidGroup(g) && Tidy(r) && |r.user| + g.count * |g.chain| <= 8 && g.count > 1 && Closed(rest)
    ensures Follows(CountText(g.count) + rest)
    ensures Reading(CountText(g.count) + rest, ChainRead(opp, r, g.chain, fl)) == Reading(rest, GroupRead(opp, r, g, fl))
  {
    GroupRepeated(opp, g, fl, r);
    ScanCount(g.count, rest, ChainRead(opp, r, g.chain, fl));
  }

  lemma RoomForChain(g: Group, n: nat)
    requires ValidGroup(g) && n + g.count * |g.chain| <= 8
    ensures n + |g.chain| <= 8
  {
    Copies(g.count, |g.chain|);
  }

  /** The count after a chain, if there is one. */
  lemma ScanCopies(opp: Opponent, g: Group, fl: set<int>, rest: string, r: Read)
    requires ValidGroup(g) && Tidy(r) && |r.user| + g.count * |g.chain| <= 8
    requires Closed(rest) && (rest == "" || rest[0] == ' ')
    ensures Follows(CountText(g.count) + rest) && |r.user| + |g.chain| <= 8
    ensures Reading(CountText(g.count) + rest, ChainRead(opp, r, g.chain, fl)) == Reading(rest, GroupRead(opp, r, g, fl))
  {
    RoomForChain(g, |r.user|);
    if g.count > 1 {
      ScanRepeated(opp, g, fl, rest, r);
    } else {
      assert CountText(g.count) + rest == rest;
    }
  }

  lemma ScanGroup(opp: Opponent, g: Group, fl: set<int>, rest: string, r: Read)
    requires ValidGroup(g) && Tidy(r) && |r.user| + g.count * |g.chain| <= 8
    requires Closed(rest) && (rest == "" || rest[0] == ' ')
    ensures Closed(GroupText(opp, g, fl) + rest)
    ensures Reading(GroupText(opp, g, fl) + rest, r) == Reading(rest, GroupRead(opp, r, g, fl))
  {
    ScanCopies(opp, g, fl, rest, r);
    ScanChain(opp, g.chain, fl, CountText(g.count) + rest, r);
    Assoc(ChainText(opp, g.chain, fl), CountText(g.count), rest);
  }

  lemma {:induction false} ScanText(opp: Opponent, gs: seq<Group>, fl: set<int>, r: Read)
    requires ValidGroups(gs) && Tidy(r) && |r.user| + Points(gs) <= 8
    ensures Closed(Text(opp, gs, fl))
    ensures Reading(Text(opp, gs, fl), r) == Some(GroupsRead(opp, r, gs, fl))
    decreases |gs|
  {
    if gs != [] {
      var g, fl' := gs[0], FlagsAfter(opp, gs[0].chain, fl);
      var tail, next := Text(opp, gs[1..], fl'), GroupRead(opp, r, g, fl);
      GroupReadIs(opp, r, g, fl);
      ScanText(opp, gs[1..], fl', next);
      if |gs| > 1 {
        ScanChar(' ', tail, next);
        ScanGroup(opp, g, fl, [' '] + tail, r);
        Assoc(GroupText(opp, g, fl), " ", tail);
      } else {
        LastText(opp, gs, fl);
        ScanGroup(opp, g, fl, "", r);
      }
    } else {
      ReadingIs("", r);
    }
  }

  lemma LastText(opp: Opponent, gs: seq<Group>, fl: set<int>)
    requires ValidGroups(gs) && |gs| == 1
    ensures Text(opp, gs, fl) == GroupText(opp, gs[0], fl) + ""
    ensures Text(opp, gs[1..], FlagsAfter(opp, gs[0].chain, fl)) == ""
  {
  }

  // ----- From points to steps

  function Flatten(m: seq<Step>): (an: seq<int>)
    ensures |an| == 2 * |m|
  {
    if m == [] then [] else [m[0].from, m[0].to] + Flatten(m[1..])
  }

  lemma {:induction false} FlattenConcat(a: seq<Step>, b: seq<Step>)
    ensures Flatten(a + b) == Flatten(a) + Flatten(b)
  {
    if a == [] {
      assert a + b == b;
    } else {
      assert (a + b)[1..] == a[1..] + b;
      FlattenConcat(a[1..], b);
    }
  }

  lemma FlattenAppend(an: seq<int>, a: seq<Step>, b: seq<Step>)
    ensures an + Flatten(a) + Flatten(b) == an + Flatten(a + b)
  {
    FlattenConcat(a, b);
  }

  lemma {:induction false} PairsOfFlatten(m: seq<Step>)
    ensures Pairs(Flatten(m)) == m
  {
    if m != [] {
      assert Flatten(m)[2..] == Flatten(m[1..]);
      PairsOfFlatten(m[1..]);
    }
  }

  /** Chain c was read at position j, with slashes after its first step, and nothing
      joins it to what follows. */
  ghost predicate ChainAt(r: Read, c: Chain, j: nat) {
    && j + |c| <= |r.user| && r.user[j..j + |c|] == c
    && (forall k :: j + 1 < k < j + |c| ==> k in r.slash)
    && j + |c| !in r.slash
  }

  lemma FlattenTail(c: Chain, k: nat)
    requires 1 <= k < |c|
    ensures Flatten(Path(c[k - 1..])) == [c[k - 1], c[k]] + Flatten(Path(c[k..]))
    ensures k == |c| - 1 ==> Flatten(Path(c[k..])) == []
  {
    var tail := c[k - 1..];
    assert tail[1..] == c[k..];
    assert Path(tail) == [Step(c[k - 1], c[k])] + Path(c[k..]);
    assert Path(tail)[1..] == Path(c[k..]);
  }

  /** One destination: the start of the next step as well when a slash follows. */
  lemma ConvertNext(r: Read, j: nat, an: seq<int>, y: int)
    requires j < |r.user| && r.user[j] == y && y != BAR && (j + 1 in r.slash ==> y != OFF && |an| < 7)
    requires |an| % 2 == 1 && |an| <= 7
    ensures Pairing(r, j, an) == Pairing(r, j + 1, if j + 1 in r.slash then an + [y, y] else an + [y])
  {
    PairingIs(r, j, an);
    PairingIs(r, j + 1, if j + 1 in r.slash then an + [y, y] else an + [y]);
  }

  lemma ConvertStart(r: Read, j: nat, an: seq<int>, y: int)
    requires j < |r.user| && r.user[j] == y && y != OFF && |an| % 2 == 0 && |an| <= 6
    ensures Pairing(r, j, an) == Pairing(r, j + 1, an + [y])
  {
    PairingIs(r, j, an);
    PairingIs(r, j + 1, an + [y]);
  }

  lemma TwoMore(an: seq<int>, x: int, y: int)
    ensures an + [x] + [y] == an + [x, y] && an + [x] + [y, y] == an + [x, y] + [y]
  {
  }

  /** The parser takes c as one chain: it neither leaves the place off the board nor
      comes to the bar. */
  ghost predicate Playable(c: Chain) {
    && |c| >= 2 && c[0] != OFF
    && (forall k :: 1 <= k < |c| ==> c[k] != BAR)
    && (forall k :: 1 <= k < |c| - 1 ==> c[k] != OFF)
  }

  lemma ValidIsPlayable(c: Chain)
    requires ValidChain(c)
    ensures Playable(c)
  {
    assert forall k :: 1 <= k < |c| ==> c[0] > c[k];
    assert forall k :: 1 <= k < |c| - 1 ==> c[k] > Last(c);
  }

  /** One destination of a chain. */
  lemma ConvertStep(r: Read, c: Chain, j: nat, k: nat, an: seq<int>)
    requires Playable(c) && ChainAt(r, c, j) && 1 <= k < |c|
    requires |an| % 2 == 0 && |an| + 2 * (|c| - k) <= 8
    ensures var longer := an + [c[k - 1], c[k]];
            Pairing(r, j + k, an + [c[k - 1]]) == Pairing(r, j + k + 1, if k < |c| - 1 then longer + [c[k]] else longer)
  {
    assert r.user[j + k] == r.user[j..j + |c|][k] == c[k];
    ConvertNext(r, j + k, an + [c[k - 1]], c[k]);
    TwoMore(an, c[k - 1], c[k]);
  }

  lemma {:induction false} ConvertFrom(r: Read, c: Chain, j: nat, k: nat, an: seq<int>)
    requires Playable(c) && ChainAt(r, c, j) && 1 <= k < |c|
    requires |an| % 2 == 0 && |an| + 2 * (|c| - k) <= 8
    ensures Pairing(r, j + k, an + [c[k - 1]]) == Pairing(r, j + |c|, an + Flatten(Path(c[k - 1..])))
    decreases |c| - k
  {
    ConvertStep(r, c, j, k, an);
    FlatStep(an, c, k);
    if k < |c| - 1 {
      ConvertFrom(r, c, j, k + 1, an + [c[k - 1], c[k]]);
    }
  }

  /** One step of a chain more. */
  lemma FlatStep(an: seq<int>, c: Chain, k: nat)
    requires 1 <= k < |c| && |an| % 2 == 0
    ensures var longer := an + [c[k - 1], c[k]];
            && |longer| == |an| + 2 && |longer| % 2 == 0
            && an + Flatten(Path(c[k - 1..])) == longer + Flatten(Path(c[k..]))
            && (k == |c| - 1 ==> an + Flatten(Path(c[k - 1..])) == longer)
  {
    FlattenTail(c, k);
  }

  lemma ConvertChain(r: Read, c: Chain, j: nat, an: seq<int>)
    requires Playable(c) && ChainAt(r, c, j)
    requires |an| % 2 == 0 && |an| + 2 * (|c| - 1) <= 8
    ensures Pairing(r, j, an) == Pairing(r, j + |c|, an + Flatten(Path(c)))
  {
    assert r.user[j] == r.user[j..j + |c|][0] == c[0];
    assert c[0..] == c;
    ConvertStart(r, j, an, c[0]);
    ConvertFrom(r, c, j, 1, an);
  }

  /** f continues r: the same points and slashes so far, and no slash between
      what r has read and the rest. */
  ghost predicate Continues(r: Read, f: Read) {
    && |r.user| <= |f.user| && f.user[..|r.user|] == r.user
    && (forall k :: k < |r.user| ==> (k in f.slash <==> k in r.slash))
    && |r.user| !in f.slash
  }

  lemma ContinuesChain(r: Read, c: Chain)
    requires Tidy(r)
    ensures Continues(r, AddChain(r, c)) && Tidy(AddChain(r, c))
  {
  }

  lemma ContinuesTrans(a: Read, b: Read, c: Read)
    requires Continues(a, b) && Continues(b, c)
    ensures Continues(a, c)
  {
    assert c.user[..|a.user|] == b.user[..|a.user|];
  }

  lemma {:induction false} ContinuesTimes(r: Read, c: Chain, n: nat)
    requires Tidy(r)
    ensures Continues(r, AddTimes(r, c, n))
    decreases n
  {
    if n > 0 {
      ContinuesChain(r, c);
      ContinuesTimes(AddChain(r, c), c, n - 1);
      ContinuesTrans(r, AddChain(r, c), AddTimes(r, c, n));
    } else {
      assert r.user[..|r.user|] == r.user;
    }
  }

  lemma ChainIsAt(r: Read, c: Chain, f: Read)
    requires Tidy(r) && Continues(AddChain(r, c), f)
    ensures ChainAt(f, c, |r.user|)
  {
    var b := |r.user|;
    assert f.user[b..b + |c|] == f.user[..b + |c|][b..] == c;
    forall k | b < k < b + |c|
      ensures k in f.slash
    {
      assert k in AddChain(r, c).slash;
    }
  }

  lemma ConvertOnce(r: Read, c: Chain, n: nat, f: Read, an: seq<int>)
    requires ValidChain(c) && Tidy(r) && n > 0 && Continues(AddTimes(r, c, n), f)
    requires |an| % 2 == 0 && |an| + 2 * |Path(c)| <= 8
    ensures Tidy(AddChain(r, c)) && Continues(AddTimes(AddChain(r, c), c, n - 1), f)
    ensures |an + Flatten(Path(c))| == |an| + 2 * |Path(c)|
    ensures Pairing(f, |r.user|, an) == Pairing(f, |AddChain(r, c).user|, an + Flatten(Path(c)))
  {
    NextChainAt(r, c, n, f);
    ValidIsPlayable(c);
    ConvertChain(f, c, |r.user|, an);
  }

  lemma {:induction false} ConvertTimes(r: Read, c: Chain, n: nat, f: Read, an: seq<int>)
    requires ValidChain(c) && Tidy(r) && Continues(AddTimes(r, c, n), f)
    requires |an| % 2 == 0 && |an| + 2 * |Repeat(Path(c), n)| <= 8
    ensures |r.user| <= |AddTimes(r, c, n).user|
    ensures Pairing(f, |r.user|, an) == Pairing(f, |AddTimes(r, c, n).user|, an + Flatten(Repeat(Path(c), n)))
    decreases n
  {
    if n > 0 {
      RepeatFlat(an, Path(c), n);
      ConvertOnce(r, c, n, f, an);
      ConvertTimes(AddChain(r, c), c, n - 1, f, an + Flatten(Path(c)));
    } else {
      assert an + Flatten(Repeat(Path(c), n)) == an;
    }
  }

  lemma RepeatFlat(an: seq<int>, m: seq<Step>, n: nat)
    requires n > 0
    ensures |Repeat(m, n)| == |m| + |Repeat(m, n - 1)|
    ensures an + Flatten(Repeat(m, n)) == an + Flatten(m) + Flatten(Repeat(m, n - 1))
  {
    FlattenAppend(an, m, Repeat(m, n - 1));
  }

  lemma ExpandFlat(an: seq<int>, gs: seq<Group>)
    requires gs != []
    ensures var here := Repeat(Path(gs[0].chain), gs[0].count);
            && |Expand(gs)| == |here| + |Expand(gs[1..])|
            && an + Flatten(Expand(gs)) == an + Flatten(here) + Flatten(Expand(gs[1..]))
  {
    FlattenAppend(an, Repeat(Path(gs[0].chain), gs[0].count), Expand(gs[1..]));
  }

  lemma NextChainAt(r: Read, c: Chain, n: nat, f: Read)
    requires n > 0 && Tidy(r) && Continues(AddTimes(r, c, n), f)
    ensures ChainAt(f, c, |r.user|) && Tidy(AddChain(r, c))
  {
    var next := AddChain(r, c);
    ContinuesChain(r, c);
    ContinuesTimes(next, c, n - 1);
    ContinuesTrans(next, AddTimes(r, c, n), f);
    ChainIsAt(r, c, f);
  }

  lemma {:induction false} ContinuesGroups(opp: Opponent, r: Read, gs: seq<Group>, fl: set<int>)
    requires ValidGroups(gs) && Tidy(r)
    ensures Continues(r, GroupsRead(opp, r, gs, fl))
    decreases |gs|
  {
    if gs != [] {
      var g := gs[0];
      var read, next := ChainRead(opp, r, g.chain, fl), GroupRead(opp, r, g, fl);
      ContinuesChain(r, g.chain);
      assert Continues(r, read);
      ContinuesTimes(read, g.chain, g.count - 1);
      ContinuesTrans(r, read, next);
      GroupReadIs(opp, r, g, fl);
      ContinuesGroups(opp, next, gs[1..], FlagsAfter(opp, g.chain, fl));
      ContinuesTrans(r, next, GroupsRead(opp, r, gs, fl));
    } else {
      assert r.user[..|r.user|] == r.user;
    }
  }

  /** Chains that were read become their steps. */
  lemma {:induction false} ConvertGroups(opp: Opponent, r: Read, gs: seq<Group>, fl: set<int>, an: seq<int>)
    requires ValidGroups(gs) && Tidy(r)
    requires |an| % 2 == 0 && |an| + 2 * |Expand(gs)| <= 8
    requires |r.user| <= |GroupsRead(opp, r, gs, fl).user|
    ensures Pairing(GroupsRead(opp, r, gs, fl), |r.user|, an) == Some(an + Flatten(Expand(gs)))
    decreases |gs|
  {
    if gs == [] {
      assert an + [] == an;
      PairingIs(r, |r.user|, an);
    } else {
      ExpandFlat(an, gs);
      ConvertGroup(opp, r, gs, fl, an);
      var next, fl' := GroupRead(opp, r, gs[0], fl), FlagsAfter(opp, gs[0].chain, fl);
      ConvertGroups(opp, next, gs[1..], fl', an + Flatten(Repeat(Path(gs[0].chain), gs[0].count)));
    }
  }

  lemma ConvertGroup(opp: Opponent, r: Read, gs: seq<Group>, fl: set<int>, an: seq<int>)
    requires ValidGroups(gs) && gs != [] && Tidy(r)
    requires |an| % 2 == 0 && |an| + 2 * |Repeat(Path(gs[0].chain), gs[0].count)| <= 8
    ensures var f, next := GroupsRead(opp, r, gs, fl), GroupRead(opp, r, gs[0], fl);
            && Tidy(next) && |r.user| <= |next.user| <= |f.user|
            && Pairing(f, |r.user|, an) == Pairing(f, |next.user|, an + Flatten(Repeat(Path(gs[0].chain), gs[0].count)))
  {
    var g, next := gs[0], GroupRead(opp, r, gs[0], fl);
    GroupReadIs(opp, r, g, fl);
    ContinuesGroups(opp, next, gs[1..], FlagsAfter(opp, g.chain, fl));
    PlainRead(opp, r, g, fl);
    var plain := r.(stars := ChainRead(opp, r, g.chain, fl).stars);
    ConvertTimes(plain, g.chain, g.count, GroupsRead(opp, r, gs, fl), an);
  }

  lemma PlainRead(opp: Opponent, r: Read, g: Group, fl: set<int>)
    requires ValidGroup(g)
    ensures AddTimes(r.(stars := ChainRead(opp, r, g.chain, fl).stars), g.chain, g.count) == GroupRead(opp, r, g, fl)
  {
    var plain := r.(stars := ChainRead(opp, r, g.chain, fl).stars);
    assert AddChain(plain, g.chain) == ChainRead(opp, r, g.chain, fl);
  }

  lemma {:induction false} PointsBound(gs: seq<Group>)
    requires ValidGroups(gs)
    ensures Points(gs) <= 2 * |Expand(gs)|
  {
    if gs != [] {
      PointsBound(gs[1..]);
      PairBound(gs[0].count, |gs[0].chain|);
    }
  }

  lemma PairBound(n: nat, k: nat)
    requires k >= 2
    ensures n * k <= 2 * (n * (k - 1))
  {
    assert 2 * (n * (k - 1)) == n * k + n * (k - 2);
  }

  /** The printed groups are read back as their steps, in canonical order. */
  lemma ParseText(opp: Opponent, gs: seq<Group>)
    requires ValidGroups(gs) && |Expand(gs)| <= 4
    ensures Closed(Text(opp, gs, {}))
    ensures Scan(Text(opp, gs, {}), Nothing) == Some(GroupsRead(opp, Nothing, gs, {}))
    ensures Parse(Text(opp, gs, {})) == Some(Sort(Expand(gs)))
  {
    PointsBound(gs);
    ScanText(opp, gs, {}, Nothing);
    var f := GroupsRead(opp, Nothing, gs, {});
    ReadingIs(Text(opp, gs, {}), Nothing);
    ConvertGroups(opp, Nothing, gs, {}, []);
    PairingIs(f, 0, []);
    assert [] + Flatten(Expand(gs)) == Flatten(Expand(gs));
    PairsOfFlatten(Expand(gs));
  }

  // ----- The main results

  /** ParseMove accepts what FormatMove writes, and returns a list, in canonical
      order, with the same net effect at every point and the same hits. */
  lemma RoundTrip(opp: Opponent, m: seq<Step>)
    requires ValidMove(m)
    ensures Safe(MoveString(opp, m), Nothing)
    ensures var back := Parse(MoveString(opp, m));
            && back.Some? && |back.value| <= |m| && Sorted(back.value)
            && SameEffect(opp, back.value, m)
  {
    var gs := GroupsOf(opp, m);
    GroupsOfMove(opp, m);
    ParseText(opp, gs);
    ClosedIsSafe(MoveString(opp, m), Nothing);
    SortSorts(Expand(gs));
    forall p
      ensures Net(Sort(Expand(gs)), p) == Net(m, p)
    {
      SortKeeps(opp, Expand(gs), p);
    }
    SortKeeps(opp, Expand(gs), 0);
  }

  /** The stars after all groups. */
  ghost function FlagsOf(opp: Opponent, gs: seq<Group>, fl: set<int>): set<int>
    requires ValidGroups(gs)
  {
    if gs == [] then fl else FlagsOf(opp, gs[1..], FlagsAfter(opp, gs[0].chain, fl))
  }

  lemma {:induction false} StarsRead(opp: Opponent, r: Read, gs: seq<Group>, fl: set<int>)
    requires ValidGroups(gs) && r.stars == fl
    ensures GroupsRead(opp, r, gs, fl).stars == FlagsOf(opp, gs, fl)
    decreases |gs|
  {
    if gs != [] {
      StarsRead(opp, GroupRead(opp, r, gs[0], fl), gs[1..], FlagsAfter(opp, gs[0].chain, fl));
    }
  }

  /** Every intermediate point of a chain is hit. */
  ghost predicate Hitting(opp: Opponent, c: Chain) {
    forall k :: 1 <= k < |c| - 1 ==> Occupied(opp, c[k])
  }

  lemma {:induction false} JoinRowHitting(opp: Opponent, c: Slots, i: nat, j: nat)
    requires i < 4 && j <= 4 && forall k :: 0 <= k < 4 ==> Hitting(opp, c[k])
    ensures forall k :: 0 <= k < 4 ==> Hitting(opp, JoinRow(opp, c, i, j)[k])
    decreases 4 - j
  {
    if j < 4 {
      JoinRowHitting(opp, Join(opp, c, i, j), i, j + 1);
    }
  }

  lemma {:induction false} JoinAllHitting(opp: Opponent, c: Slots, i: nat)
    requires i <= 4 && forall k :: 0 <= k < 4 ==> Hitting(opp, c[k])
    ensures forall k :: 0 <= k < 4 ==> Hitting(opp, JoinAll(opp, c, i)[k])
    decreases 4 - i
  {
    if i < 4 {
      JoinRowHitting(opp, c, i, i);
      JoinAllHitting(opp, JoinRow(opp, c, i, i), i + 1);
    }
  }

  lemma JoinedHitting(opp: Opponent, c: Slots)
    requires forall k :: 0 <= k < 4 ==> Hitting(opp, c[k])
    ensures forall k :: 0 <= k < 4 ==> Hitting(opp, Joined(opp, c)[k])
  {
    JoinAllHitting(opp, c, 0);
    assert Joined(opp, c) == JoinAll(opp, c, 0);
  }

  /** A chain hits in its middle, and where it ends when that is occupied. */
  lemma HitOfChain(opp: Opponent, c: Chain, p: int)
    requires ValidChain(c) && Hitting(opp, c)
    ensures p in Hits(opp, Path(c)) <==> p in Mids(c) || (p == Last(c) && Occupied(opp, p))
  {
    HitsOfPath(opp, c);
    if p in Mids(c) {
      var k :| 1 <= k < |c| - 1 && c[k] == p;
      assert Occupied(opp, c[k]);
    }
    if p in Hits(opp, Path(c)) {
      var k :| 1 <= k < |c| && Occupied(opp, c[k]) && c[k] == p;
      assert k == |c| - 1 || p in Mids(c);
    }
    assert c[|c| - 1] == Last(c);
  }

  /** The stars of a chain, with those before it, are its hits. */
  lemma FlagsOfChain(opp: Opponent, c: Chain, fl: set<int>)
    requires ValidChain(c) && Hitting(opp, c)
    ensures FlagsAfter(opp, c, fl) == fl + Hits(opp, Path(c))
  {
    forall p
      ensures p in FlagsAfter(opp, c, fl) <==> p in fl + Hits(opp, Path(c))
    {
      HitOfChain(opp, c, p);
    }
  }

  lemma {:induction false} HitsOfRepeat(opp: Opponent, m: seq<Step>, n: nat)
    requires n > 0
    ensures Hits(opp, Repeat(m, n)) == Hits(opp, m)
  {
    HitsConcat(opp, m, Repeat(m, n - 1));
    if n > 1 {
      HitsOfRepeat(opp, m, n - 1);
    }
  }

  lemma {:induction false} FlagsAreHits(opp: Opponent, gs: seq<Group>, fl: set<int>)
    requires ValidGroups(gs) && forall k :: 0 <= k < |gs| ==> Hitting(opp, gs[k].chain)
    ensures FlagsOf(opp, gs, fl) == fl + Hits(opp, Expand(gs))
  {
    if gs == [] {
      assert Hits(opp, []) == {};
    } else {
      var g := gs[0];
      FlagsOfChain(opp, g.chain, fl);
      HitsOfRepeat(opp, Path(g.chain), g.count);
      HitsConcat(opp, Repeat(Path(g.chain), g.count), Expand(gs[1..]));
      FlagsAreHits(opp, gs[1..], FlagsAfter(opp, g.chain, fl));
    }
  }

  /** In the text, exactly the points that the move hits are followed by a star. */
  lemma StarsAreHits(opp: Opponent, m: seq<Step>)
    requires ValidMove(m)
    ensures Scan(MoveString(opp, m), Nothing).Some?
    ensures Scan(MoveString(opp, m), Nothing).value.stars == Hits(opp, m)
  {
    var gs := GroupsOf(opp, m);
    GroupsOfMove(opp, m);
    ParseText(opp, gs);
    StarsRead(opp, Nothing, gs, {});
    JoinedHitting(opp, Singles(Sort(m)));
    forall k | 0 <= k < |gs|
      ensures Hitting(opp, gs[k].chain)
    {
      GroupsFrom(SlotsOf(opp, m), k);
    }
    FlagsAreHits(opp, gs, {});
  }

  lemma {:induction false} GroupsOrdered(c: seq<Chain>, k: nat, l: nat)
    requires forall i, j :: 0 <= i < j < |c| && c[i] != [] && c[j] != [] ==> c[i][0] >= c[j][0]
    requires k < l < |Groups(c)|
    ensures Groups(c)[k].chain != [] && Groups(c)[l].chain != []
    ensures Groups(c)[k].chain[0] >= Groups(c)[l].chain[0]
    decreases |c|
  {
    GroupsFrom(c, k);
    GroupsFrom(c, l);
    if c[0] == [] {
      GroupsOrdered(c[1..], k, l);
    } else {
      var rest := Erase(c[1..], c[0]);
      if k > 0 {
        assert forall i :: 0 <= i < |rest| && rest[i] != [] ==> rest[i] == c[i + 1];
        GroupsOrdered(rest, k - 1, l - 1);
      }
    }
  }

  /** The groups of a text are different chains, from higher points down, and between the
      ends of a chain stand only points that are hit. */
  lemma GroupsInOrder(opp: Opponent, m: seq<Step>, k: nat)
    requires ValidMove(m) && k < |GroupsOf(opp, m)|
    ensures var c := GroupsOf(opp, m)[k].chain;
      && |c| >= 2 && (forall i :: 1 <= i < |c| - 1 ==> Occupied(opp, c[i]))
      && forall l {:trigger GroupsOf(opp, m)[l]} :: k < l < |GroupsOf(opp, m)| ==>
           var d := GroupsOf(opp, m)[l].chain; d != [] && d != c && d[0] <= c[0]
  {
    var gs := GroupsOf(opp, m);
    GroupsOfMove(opp, m);
    SlotsOfMove(opp, m);
    JoinedHitting(opp, Singles(Sort(m)));
    GroupsFrom(SlotsOf(opp, m), k);
    assert ValidGroup(gs[k]);
    forall l | k < l < |gs|
      ensures gs[l].chain != [] && gs[l].chain[0] <= gs[k].chain[0]
    {
      GroupsOrdered(SlotsOf(opp, m), k, l);
    }
  }
}
