/** The texts that ParseMove reads without stepping over the end and without an
    overflow (gnubg/drawboard.c, lines 794 to 838). */
module MoveGuard {
  import opened Common
  import opened Moves
  import opened MoveParse

  const INT_MAX: int := 0x7FFF_FFFF
  const INT_MIN: int := -0x8000_0000

  /** An int of 32 bits that has wrapped around. */
  function Int32(v: int): int {
    (v + 0x8000_0000) % 0x1_0000_0000 - 0x8000_0000
  }

  // ----- The guard

  /** At a bracket: neither the count less one nor the check for room overflows, and
      something comes after a count that is accepted. */
  predicate CountSafe(s: string, r: Read)
    requires s != ""
  {
    s[0] == '(' ==>
      var (v, rest) := Strtol(s[1..]);
      && v > INT_MIN
      && (CanRepeat(r, v - 1) ==> RepeatedSize(r, v - 1) <= INT_MAX)
      && (Repeated(r, v - 1).Some? ==> rest != "")
  }

  /** The same at every bracket that the reading gets to. */
  predicate Safe(s: string, r: Read)
    decreases |s|
  {
    if s == "" then true
    else
      AfterOneLeft(s);
      CountSafe(s, r) && (ReadOne(s, r).Some? ==> Safe(AfterOne(s), ReadOne(s, r).value))
  }

  // ----- The check for room on 32 bits

  /** Within an int nothing wraps. */
  lemma CheckWithin(v: int)
    requires INT_MIN <= v <= INT_MAX
    ensures Int32(v) == v
  {
  }

  lemma StrtolRange(s: string)
    ensures INT_MIN <= Strtol(s).0 <= INT_MAX
  {
  }

  /** What the program decides about a count, with its two wrap-arounds. */
  predicate Accepts(r: Read, v: int) {
    var n := Int32(v - 1);
    CanRepeat(r, n) && Int32(RepeatedSize(r, n)) <= 8
  }

  /** The first and the last count for which the number of points, c and len more for
      each count but the first, wraps around to at most 8 for the k-th time. */
  function FirstWrong(c: nat, len: nat, k: nat): int
    requires len > 0
  {
    (k * 0x1_0000_0000 - 0x8000_0000 - c + len - 1) / len + 1
  }

  function LastWrong(c: nat, len: nat, k: nat): int
    requires len > 0
  {
    (k * 0x1_0000_0000 + 8 - c) / len + 1
  }

  /** The counts at which the program goes wrong. */
  predicate Misleads(c: nat, len: nat, v: int)
    requires len > 0
  {
    || v == INT_MIN
    || (FirstWrong(c, len, 1) <= v <= LastWrong(c, len, 1)) || (FirstWrong(c, len, 2) <= v <= LastWrong(c, len, 2))
    || (FirstWrong(c, len, 3) <= v <= LastWrong(c, len, 3)) || (FirstWrong(c, len, 4) <= v <= LastWrong(c, len, 4))
  }

  /** x wraps around to a number of at most 8, for the k-th time. */
  predicate WrapsLow(x: int, k: nat) {
    k * 0x1_0000_0000 - 0x8000_0000 <= x <= k * 0x1_0000_0000 + 8
  }

  lemma WrapsExactly(x: int)
    requires 0 <= x <= 8 + 8 * 0x7FFF_FFFF
    ensures x > 8 && Int32(x) <= 8 <==> WrapsLow(x, 1) || WrapsLow(x, 2) || WrapsLow(x, 3) || WrapsLow(x, 4)
  {
  }

  lemma CountsWrap(c: nat, len: nat, v: int, k: nat)
    requires 1 <= len <= 8 && 1 <= k <= 4
    ensures WrapsLow(c + len * (v - 1), k) <==> FirstWrong(c, len, k) <= v <= LastWrong(c, len, k)
  {
    AtLeast(len, v - 1, k * 0x1_0000_0000 - 0x8000_0000 - c);
    AtMost(len, v - 1, k * 0x1_0000_0000 + 8 - c);
  }

  lemma Ordered(len: int, a: int, b: int)
    requires len > 0 && a <= b
    ensures len * a <= len * b
  {
  }

  lemma AtLeast(len: nat, n: int, x: int)
    requires len > 0
    ensures x <= len * n <==> (x + len - 1) / len <= n
  {
    var q := (x + len - 1) / len;
    assert len * q <= x + len - 1 < len * q + len;
    if n >= q {
      Ordered(len, q, n);
    } else {
      Ordered(len, n, q - 1);
    }
  }

  lemma AtMost(len: nat, n: int, x: int)
    requires len > 0
    ensures len * n <= x <==> n <= x / len
  {
    var q := x / len;
    assert len * q <= x < len * q + len;
    if n <= q {
      Ordered(len, n, q);
    } else {
      Ordered(len, q + 1, n);
    }
  }

  /** The program decides a count rightly exactly when no chain can be repeated, or
      the count is none of those. */
  lemma CountExactly(r: Read, v: int)
    requires |r.user| <= 8 && INT_MIN <= v <= INT_MAX
    ensures (Accepts(r, v) <==> Repeated(r, v - 1).Some?) <==> !HasChain(r) || !Misleads(|r.user|, ChainLength(r), v)
  {
    if HasChain(r) {
      var c, len := |r.user|, ChainLength(r);
      if v == INT_MIN {
        LeastCount(r);
      } else {
        CheckWithin(v - 1);
        if v >= 2 {
          SizeRange(c, len, v - 1);
          WrapsExactly(c + len * (v - 1));
        } else {
          FirstIsPositive(c, len, v);
        }
        CountsWrap(c, len, v, 1);
        CountsWrap(c, len, v, 2);
        CountsWrap(c, len, v, 3);
        CountsWrap(c, len, v, 4);
      }
    }
  }

  lemma SizeRange(c: nat, len: nat, n: int)
    requires c <= 8 && len <= 8 && 0 <= n <= INT_MAX
    ensures 0 <= c + len * n <= 8 + 8 * 0x7FFF_FFFF
  {
    assert 0 <= len * n <= 8 * n;
  }

  lemma FirstIsPositive(c: nat, len: nat, v: int)
    requires c <= 8 && 1 <= len <= 8 && v < 2
    ensures !WrapsLow(c + len * (v - 1), 1) && !WrapsLow(c + len * (v - 1), 2)
    ensures !WrapsLow(c + len * (v - 1), 3) && !WrapsLow(c + len * (v - 1), 4)
  {
    assert len * (v - 1) <= 0;
  }

  /** The count of -2147483648 is accepted for every chain: less one it wraps around to
      the largest int, and the number of points to a negative one or to at most 6. */
  lemma LeastCount(r: Read)
    requires |r.user| <= 8 && HasChain(r)
    ensures Accepts(r, INT_MIN) && Repeated(r, INT_MIN - 1).None?
  {
    var c, len := |r.user|, ChainLength(r);
    assert Int32(INT_MIN - 1) == INT_MAX;
    LeastSize(c, len);
  }

  lemma LeastSize(c: nat, len: nat)
    requires len <= c <= 8 && len > 0
    ensures Int32(c + len * INT_MAX) <= 8
  {
    assert len == 1 || len == 2 || len == 3 || len == 4 || len == 5 || len == 6 || len == 7 || len == 8;
  }

  lemma DigitAt(t: string, k: nat, value: nat, d: nat)
    requires k < |t| && d <= 9 && t[k] == '0' + d as char
    ensures Digits(t[k..], value) == Digits(t[k + 1..], 10 * value + d)
  {
    assert t[k..][1..] == t[k + 1..];
  }

  /** The digits 214748364 and d, and a closing bracket. */
  predicate IsBillions(t: string, d: nat) {
    && d <= 9
    && |t| == 11 && t[0] == '2' && t[1] == '1' && t[2] == '4' && t[3] == '7' && t[4] == '4' && t[5] == '8'
    && t[6] == '3' && t[7] == '6' && t[8] == '4' && t[9] == '0' + d as char && t[10] == ')'
  }

  lemma FirstDigits(t: string, d: nat)
    requires IsBillions(t, d)
    ensures Digits(t[0..], 0) == Digits(t[6..], 214748)
  {
    DigitAt(t, 0, 0, 2);
    DigitAt(t, 1, 2, 1);
    DigitAt(t, 2, 21, 4);
    DigitAt(t, 3, 214, 7);
    DigitAt(t, 4, 2147, 4);
    DigitAt(t, 5, 21474, 8);
  }

  lemma BillionsAre(t: string, d: nat)
    requires IsBillions(t, d)
    ensures Digits(t, 0) == (2147483640 + d, [')'])
  {
    assert t[0..] == t && t[10..] == [')'];
    FirstDigits(t, d);
    DigitAt(t, 6, 214748, 3);
    DigitAt(t, 7, 2147483, 6);
    DigitAt(t, 8, 21474836, 4);
    DigitAt(t, 9, 214748364, d);
  }

  lemma OneRound(s: string, r: Read, rest: string, r': Read)
    requires s != "" && ReadOne(s, r) == Some(r') && AfterOne(s) == rest
    ensures Safe(s, r) ==> Safe(rest, r')
    ensures Scan(s, r) == Scan(rest, r')
  {
    AfterOneLeft(s);
  }

  /** What has been read of 8/4. */
  function EightFour(): Read {
    Read([8, 4], {1}, {})
  }

  /** In a text that repeats 8/4 the program goes wrong at a count at which it overflows,
      and accepts what has no meaning. */
  lemma WrongText(t: string, n: int, w: string, x: string, v: string, u: string)
    requires Strtol(t) == (n, [')']) && (n == INT_MAX || n == INT_MIN)
    requires w == ['('] + t && x == ['4'] + w && v == ['/'] + x && u == ['8'] + v
    ensures !Safe(u, Nothing) && Parse(u).None? && Accepts(EightFour(), n)
  {
    var r1, r2, r3 := Read([8], {}, {}), Read([8], {1}, {}), EightFour();
    assert [] + [8] == [8] && [8] + [4] == [8, 4] && {} + {1} == {1};
    NumberRead(u, 8, v, Nothing);
    OneRound(u, Nothing, v, r1);
    assert v[1..] == x;
    OneRound(v, r1, x, r2);
    NumberRead(x, 4, w, r2);
    OneRound(x, r2, w, r3);
    WrongCount(t, n, w, r3);
  }

  lemma WrongCount(t: string, n: int, w: string, r: Read)
    requires Strtol(t) == (n, [')']) && (n == INT_MAX || n == INT_MIN) && w == ['('] + t && r == EightFour()
    ensures !CountSafe(w, r) && !Safe(w, r) && Scan(w, r).None? && Accepts(r, n)
  {
    assert w[1..] == t;
    assert ChainStart(r.slash, 1) == ChainStart(r.slash, 0) == 0 && HasChain(r) && ChainLength(r) == 2;
    if n == INT_MIN {
      LeastCount(r);
    }
  }

  /** At 8/4(2147483647) the number of points wraps around to -2. */
  lemma OverflowText(t: string, w: string, x: string, v: string, u: string)
    requires t == "2147483647)" && w == ['('] + t && x == ['4'] + w && v == ['/'] + x && u == ['8'] + v
    ensures !Safe(u, Nothing) && Parse(u).None? && Strtol(t).0 == INT_MAX && Accepts(EightFour(), INT_MAX)
  {
    BillionsAre(t, 7);
    assert SkipSpace(t) == t;
    WrongText(t, INT_MAX, w, x, v, u);
  }

  /** At 8/4(-2147483648) the count less one wraps around to 2147483647, and then the
      number of points to 0. */
  lemma UnderflowText(digits: string, t: string, w: string, x: string, v: string, u: string)
    requires digits == "2147483648)" && t == ['-'] + digits
    requires w == ['('] + t && x == ['4'] + w && v == ['/'] + x && u == ['8'] + v
    ensures !Safe(u, Nothing) && Parse(u).None? && Strtol(t).0 == INT_MIN && Accepts(EightFour(), INT_MIN)
  {
    BillionsAre(digits, 8);
    assert SkipSpace(t) == t && t[1..] == digits;
    WrongText(t, INT_MIN, w, x, v, u);
  }

  /** One digit, and no digit after it. */
  lemma NumberRead(s: string, d: nat, rest: string, r: Read)
    requires 1 <= d <= 9 && s == ['0' + d as char] + rest && rest != "" && !IsDigit(rest[0]) && |r.user| < 8
    ensures AfterOne(s) == rest && ReadOne(s, r) == Some(r.(user := r.user + [d]))
  {
    assert s[0..] == s && s[1..] == rest && SkipSpace(s) == s;
    DigitAt(s, 0, 0, d);
    assert Digits(rest, d) == (d, rest);
  }

  // ----- The width of a long

  /** The number that the source keeps where a long has 64 bits: strtol saturates
      there, and the cast to int cuts. */
  function Cut(v: int): int {
    Int32(if v > 0x7FFF_FFFF_FFFF_FFFF then 0x7FFF_FFFF_FFFF_FFFF
          else if v < -0x8000_0000_0000_0000 then -0x8000_0000_0000_0000 else v)
  }

  /** It is the number of this model, where a long has 32 bits, for every number
      that fits an int; 4294967300 is a 4 on the one, and out of range on the other. */
  lemma LongMatters(v: int)
    ensures -0x8000_0000 <= v <= INT_MAX ==> Cut(v) == Clamp(v) == v
    ensures Cut(4294967300) == 4 && Clamp(4294967300) == INT_MAX
  {
    if -0x8000_0000 <= v <= INT_MAX {
      CheckWithin(v);
    }
  }

  // ----- A condition on the text alone

  /** Every count is above the least int, and small and closed by something when it is
      not refused at once. */
  predicate Closed(s: string) {
    s == "" || (Closed(s[1..]) && (s[0] == '(' ==> CountEnds(s[1..])))
  }

  predicate CountEnds(s: string) {
    var (v, rest) := Strtol(s);
    v > INT_MIN && (v >= 2 ==> rest != "" && v <= 0x800_0000)
  }

  lemma {:induction false} ClosedSuffix(s: string, k: nat)
    requires Closed(s) && k <= |s|
    ensures Closed(s[k..])
  {
    if k == 0 {
      assert s[0..] == s;
    } else {
      ClosedSuffix(s[1..], k - 1);
      assert s[1..][k - 1..] == s[k..];
    }
  }

  lemma ClosedAfterOne(s: string)
    requires s != "" && Closed(s)
    ensures Closed(AfterOne(s))
  {
    AfterOneLeft(s);
    ClosedSuffix(s, |s| - |AfterOne(s)|);
  }

  lemma SmallSize(c: nat, len: int, n: int)
    requires c <= 8 && len <= 8 && 1 <= n <= 0x7FF_FFFF
    ensures c + len * n <= INT_MAX
  {
    assert len * n <= 8 * n;
  }

  lemma {:induction false} CopySize(r: Read, begin: nat, end: nat, n: nat)
    requires begin <= end <= |r.user|
    ensures |Copy(r, begin, end, n).user| == |r.user| + (end - begin) * n
    decreases n
  {
    if n > 0 {
      CopySize(CopyOnce(r, begin, end), begin, end, n - 1);
      assert (end - begin) * n == (end - begin) + (end - begin) * (n - 1);
    }
  }

  /** One round reads at most up to eight points. */
  lemma ReadOneSize(s: string, r: Read)
    requires s != "" && |r.user| <= 8 && ReadOne(s, r).Some?
    ensures |ReadOne(s, r).value.user| <= 8
  {
    if s[0] == '(' {
      var n := Strtol(s[1..]).0 - 1;
      CopySize(r, ChainStart(r.slash, |r.user| - 1), |r.user|, n);
    }
  }

  /** Such texts are safe. */
  lemma {:induction false} ClosedIsSafe(s: string, r: Read)
    requires Closed(s) && |r.user| <= 8
    ensures Safe(s, r)
    decreases |s|
  {
    if s != "" {
      AfterOneLeft(s);
      ClosedAfterOne(s);
      if s[0] == '(' {
        var n := Strtol(s[1..]).0 - 1;
        if CanRepeat(r, n) {
          SmallSize(|r.user|, |r.user| - ChainStart(r.slash, |r.user| - 1), n);
        }
      }
      if ReadOne(s, r).Some? {
        ReadOneSize(s, r);
        ClosedIsSafe(AfterOne(s), ReadOne(s, r).value);
      }
    }
  }
}
