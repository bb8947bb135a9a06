/** Splitting a command line in place (gnubg/gnubg.c, lines 652 to 804). */
module Tokenizer {
  import opened Common

  /** The terminators of NextToken. */
  predicate Terminators(terms: string) {
    forall c :: c in terms <==> IsSpace(c)
  }

  // ----- What a token is

  /** The token at the start of a text, and what follows it. */
  function Scan(s: string, terms: string, quoted: bool): (r: (string, string))
    ensures |r.1| <= |s| && (s != "" ==> |r.1| < |s|)
    decreases |s|
  {
    if s == "" then ("", "")
    else if s[0] in terms then
      if !quoted then ("", s[1..]) else var r := Scan(s[1..], terms, quoted); ([s[0]] + r.0, r.1)
    else if s[0] == '"' then Scan(s[1..], terms, !quoted)
    else if s[0] == '\\' then
      if |s| == 1 then ("\\", "") else var r := Scan(s[2..], terms, quoted); ([s[1]] + r.0, r.1)
    else var r := Scan(s[1..], terms, quoted); ([s[0]] + r.0, r.1)
  }

  /** The tokens that repeated calls return. */
  function Tokens(s: string, terms: string): seq<string>
    decreases |s|
  {
    var t := SkipSpace(s);
    if t == "" then []
    else
      var r := Scan(t, terms, false);
      [r.0] + Tokens(SkipSpace(r.1), terms)
  }

  // ----- The same on positions in a buffer

  function SkipAt(s: seq<char>, k: nat, n: nat): (i: nat)
    requires k <= n <= |s|
    ensures k <= i <= n && (i < n ==> !IsSpace(s[i]))
    decreases n - k
  {
    if k < n && IsSpace(s[k]) then SkipAt(s, k + 1, n) else k
  }

  lemma {:induction false} SkipAtIsSkip(s: seq<char>, k: nat, n: nat)
    requires k <= n <= |s|
    ensures SkipSpace(s[k..n]) == s[SkipAt(s, k, n)..n]
    decreases n - k
  {
    if k < n && IsSpace(s[k]) {
      SkipAtIsSkip(s, k + 1, n);
      assert s[k..n][1..] == s[k + 1..n];
    }
  }

  function ScanAt(s: seq<char>, k: nat, n: nat, terms: string, quoted: bool): (r: (string, nat))
    requires k <= n <= |s|
    ensures k <= r.1 <= n
    decreases n - k
  {
    if k == n then ("", n)
    else if s[k] in terms then
      if !quoted then ("", k + 1) else var r := ScanAt(s, k + 1, n, terms, quoted); ([s[k]] + r.0, r.1)
    else if s[k] == '"' then ScanAt(s, k + 1, n, terms, !quoted)
    else if s[k] == '\\' then
      if k + 1 == n then ("\\", n) else var r := ScanAt(s, k + 2, n, terms, quoted); ([s[k + 1]] + r.0, r.1)
    else var r := ScanAt(s, k + 1, n, terms, quoted); ([s[k]] + r.0, r.1)
  }

  lemma {:induction false} ScanAtIsScan(s: seq<char>, k: nat, n: nat, terms: string, quoted: bool)
    requires k <= n <= |s|
    ensures var r := ScanAt(s, k, n, terms, quoted); Scan(s[k..n], terms, quoted) == (r.0, s[r.1..n])
    decreases n - k
  {
    if k < n {
      assert s[k..n][1..] == s[k + 1..n];
      if k + 1 < n {
        assert s[k..n][2..] == s[k + 2..n];
      }
      ScanAtIsScan(s, k + 1, n, terms, if s[k] == '"' && s[k] !in terms then !quoted else quoted);
      if k + 1 < n {
        ScanAtIsScan(s, k + 2, n, terms, quoted);
      }
    }
  }

  // ----- The tokenizer

  /** The buffer holds the text s from position k on. */
  ghost predicate Unread(a: array<char>, s: seq<char>, k: nat)
    reads a
  {
    |s| == a.Length && forall j :: k <= j < |s| ==> a[j] == s[j]
  }

  /** The buffer holds the token between position i and its end. */
  ghost predicate Written(a: array<char>, i: nat, token: string)
    reads a
  {
    i + |token| <= a.Length && forall j :: 0 <= j < |token| ==> a[i + j] == token[j]
  }

  /** Over blanks, up to the terminator at n. */
  method SkipSpaces(a: array<char>, pos: nat, ghost s: seq<char>, ghost n: nat) returns (i: nat)
    requires Unread(a, s, pos) && pos <= n < |s| && s[n] == NUL
    ensures i == SkipAt(s, pos, n)
  {
    i := pos;
    while IsSpace(a[i])
      invariant pos <= i <= n && SkipAt(s, pos, n) == SkipAt(s, i, n)
      decreases |s| - i
    {
      i := i + 1;
    }
  }

  /** Character c is put at the end of the token, which is not beyond the
      character that was read last. */
  method Put(a: array<char>, w: nat, c: char, ghost i: nat, ghost token: string, ghost s: seq<char>, ghost k: nat)
    requires Written(a, i, token) && w == i + |token| && w < k && Unread(a, s, k) && w < a.Length
    modifies a
    ensures Written(a, i, token + [c]) && Unread(a, s, k)
    ensures forall j :: 0 <= j < i ==> a[j] == old(a[j])
  {
    a[w] := c;
  }

  lemma Append(s: string, t: string)
    ensures s + "" == s && "" + t == t
  {
  }

  lemma Push(s: string, c: char, t: string)
    ensures s + [c] + t == s + ([c] + t) && s + [c] + "" == s + [c]
  {
  }

  /** One or two characters of a token: whether c belongs to it, and whether it
      ends. */
  method ReadChar(a: array<char>, pos: nat, quote: char, szTokens: string, ghost s: seq<char>, ghost n: nat)
    returns (next: nat, chQuote: char, literal: bool, c: char, fEnd: bool)
    requires Unread(a, s, pos) && pos <= n < |s| && s[n] == NUL && forall k :: pos <= k < n ==> s[k] != NUL
    requires quote == NUL || quote == '"'
    ensures pos <= next <= n && (chQuote == NUL || chQuote == '"')
    ensures pos == n ==> fEnd && !literal
    ensures pos < n ==> pos < next
    ensures fEnd && literal ==> next == n
    ensures var r := ScanAt(s, pos, n, szTokens, quote != NUL);
            if fEnd then r == (if literal then [c] else "", next)
            else
              var rest := ScanAt(s, next, n, szTokens, chQuote != NUL);
              r == (if literal then [c] + rest.0 else rest.0, rest.1)
  {
    next, chQuote, literal, c, fEnd := pos, quote, false, a[pos], false;
    if c != NUL && c in szTokens {
      if chQuote == NUL {
        fEnd := true;
        next := next + 1;
      } else {
        literal := true;
      }
    } else if c == '"' {
      chQuote := if chQuote == NUL then c else NUL;
    } else if c == '\\' {
      next := next + 1;
      c := a[next];
      literal := true;
      if c == NUL {
        c := '\\';
        fEnd := true;
      }
    } else if c == NUL {
      fEnd := true;
    } else {
      literal := true;
    }
    if !fEnd {
      next := next + 1;
    }
  }

  /** The loop over the characters of a token that starts at position i. */
  method ScanToken(a: array<char>, i: nat, szTokens: string, ghost s: seq<char>, ghost n: nat)
    returns (pchSave: nat, next: nat, ghost token: string)
    requires Unread(a, s, i) && i <= n < |s| && s[n] == NUL && forall k :: i <= k < n ==> s[k] != NUL
    modifies a
    ensures (token, next) == ScanAt(s, i, n, szTokens, false)
    ensures pchSave == i + |token| <= next && (next < n ==> pchSave < next)
    ensures Written(a, i, token) && Unread(a, s, next)
    ensures forall j :: 0 <= j < i ==> a[j] == old(a[j])
  {
    token := "";
    var chQuote, fEnd := NUL, false;
    pchSave, next := i, i;
    Append("", ScanAt(s, i, n, szTokens, false).0);
    while !fEnd
      invariant i <= next <= n && pchSave == i + |token| <= next
      invariant Written(a, i, token) && Unread(a, s, next)
      invariant forall j :: 0 <= j < i ==> a[j] == old(a[j])
      invariant chQuote == NUL || chQuote == '"'
      invariant fEnd ==> (token, next) == ScanAt(s, i, n, szTokens, false) && (next < n ==> pchSave < next)
      invariant !fEnd ==> var r := ScanAt(s, next, n, szTokens, chQuote != NUL);
                          ScanAt(s, i, n, szTokens, false) == (token + r.0, r.1)
      decreases !fEnd, n - next
    {
      var literal: bool, c: char;
      next, chQuote, literal, c, fEnd := ReadChar(a, next, chQuote, szTokens, s, n);
      Append(token, "");
      if literal {
        Put(a, pchSave, c, i, token, s, next);
        pchSave := pchSave + 1;
        Push(token, c, if fEnd then "" else ScanAt(s, next, n, szTokens, chQuote != NUL).0);
        token := token + [c];
      }
    }
  }

  /** What the next call does to the list of tokens that are still to come. */
  lemma TokensAt(s: seq<char>, k: nat, n: nat, terms: string)
    requires k <= n <= |s|
    ensures var i := SkipAt(s, k, n);
            if i == n then Tokens(s[k..n], terms) == []
            else
              var r := ScanAt(s, i, n, terms, false);
              Tokens(s[k..n], terms) == [r.0] + Tokens(s[SkipAt(s, r.1, n)..n], terms)
  {
    var i := SkipAt(s, k, n);
    SkipAtIsSkip(s, k, n);
    if i < n {
      ScanAtIsScan(s, i, n, terms, false);
      SkipAtIsSkip(s, ScanAt(s, i, n, terms, false).1, n);
    }
  }

  /** NextTokenGeneral: the position of the token, or -1 when nothing is left, and
      the position after it; n is the end of the text. */
  method NextTokenGeneral(a: array<char>, ppch: nat, szTokens: string, ghost n: nat)
    returns (pch: int, next: nat, ghost token: string)
    requires ppch <= n < a.Length && a[n] == NUL && forall k :: ppch <= k < n ==> a[k] != NUL
    modifies a
    ensures ppch <= next <= n && Unread(a, old(a[..]), next) && a[n] == NUL
    ensures forall j :: 0 <= j < ppch ==> a[j] == old(a[j])
    ensures Tokens(old(a[ppch..n]), szTokens) == if pch < 0 then [] else [token] + Tokens(a[next..n], szTokens)
    ensures pch < 0 ==> a[..] == old(a[..]) && next == n
    ensures pch >= 0 ==> ppch <= pch && pch + |token| <= n && Written(a, pch, token) && a[pch + |token|] == NUL
    ensures pch >= 0 && next < n ==> pch + |token| < next
  {
    ghost var s := a[..];
    TokensAt(s, ppch, n, szTokens);
    assert s[ppch..n] == a[ppch..n];
    next := SkipSpaces(a, ppch, s, n);
    token := "";
    if a[next] == NUL {
      pch := -1;
    } else {
      pch := next;
      next, token := TakeToken(a, next, szTokens, s, n);
      assert a[next..n] == s[next..n];
    }
  }

  /** The token at position i is terminated, and the blanks after it are skipped. */
  method TakeToken(a: array<char>, i: nat, szTokens: string, ghost s: seq<char>, ghost n: nat)
    returns (next: nat, ghost token: string)
    requires Unread(a, s, i) && i <= n < |s| && s[n] == NUL && forall k :: i <= k < n ==> s[k] != NUL
    modifies a
    ensures var r := ScanAt(s, i, n, szTokens, false); token == r.0 && next == SkipAt(s, r.1, n)
    ensures i + |token| <= next && (next < n ==> i + |token| < next)
    ensures Written(a, i, token) && a[i + |token|] == NUL && Unread(a, s, next)
    ensures forall j :: 0 <= j < i ==> a[j] == old(a[j])
  {
    var pchSave: nat;
    pchSave, next, token := ScanToken(a, i, szTokens, s, n);
    next := SkipSpaces(a, next, s, n);
    a[pchSave] := NUL;
  }

  // ----- Words

  /** The length of the run of characters that are not blanks. */
  function Run(s: string): (k: nat)
    ensures k <= |s|
  {
    if s == "" || IsSpace(s[0]) then 0 else 1 + Run(s[1..])
  }

  /** The runs of characters that are not blanks. */
  function Words(s: string): seq<string>
    decreases |s|
  {
    var t := SkipSpace(s);
    if t == "" then []
    else if IsSpace(t[0]) then []
    else [t[..Run(t)]] + Words(t[Run(t)..])
  }

  /** No quote and no backslash. */
  ghost predicate Plain(s: string) {
    '"' !in s && '\\' !in s
  }

  lemma {:induction false} SkipStops(s: string)
    ensures var t := SkipSpace(s); (t != "" ==> !IsSpace(t[0])) && SkipSpace(t) == t && (Plain(s) ==> Plain(t))
  {
    if s != "" && IsSpace(s[0]) {
      SkipStops(s[1..]);
    }
  }

  /** Outside quotes, a plain text is cut at the first blank, which is dropped. */
  lemma {:induction false} ScanPlain(s: string, terms: string)
    requires Plain(s) && Terminators(terms)
    ensures Scan(s, terms, false) == (s[..Run(s)], if Run(s) < |s| then s[Run(s) + 1..] else "")
  {
    if s != "" && !IsSpace(s[0]) {
      ScanPlain(s[1..], terms);
      var k := Run(s[1..]);
      assert [s[0]] + s[1..][..k] == s[..k + 1];
      if k < |s| - 1 {
        assert s[1..][k + 1..] == s[k + 2..];
      }
    }
  }

  lemma {:induction false} RunStops(s: string)
    ensures Run(s) < |s| ==> IsSpace(s[Run(s)])
    ensures s != "" && !IsSpace(s[0]) ==> Run(s) > 0
  {
    if s != "" && !IsSpace(s[0]) {
      RunStops(s[1..]);
    }
  }

  /** Without quotes and backslashes the tokens are the words. */
  lemma {:induction false} TokensAreWords(s: string, terms: string)
    requires Plain(s) && Terminators(terms)
    ensures Tokens(s, terms) == Words(s)
    decreases |s|
  {
    var t := SkipSpace(s);
    SkipStops(s);
    if t != "" {
      RunStops(t);
      ScanPlain(t, terms);
      var k := Run(t);
      var r := Scan(t, terms, false);
      SkipStops(r.1);
      TokensAreWords(SkipSpace(r.1), terms);
      WordsSkip(r.1);
      if k < |t| {
        assert t[k..][1..] == r.1;
        WordsSkip(t[k..]);
      } else {
        assert t[k..] == "" == r.1;
      }
    }
  }

  /** Leading blanks do not matter to the words. */
  lemma WordsSkip(s: string)
    ensures Words(SkipSpace(s)) == Words(s)
  {
    SkipStops(s);
  }

  function RunAt(s: seq<char>, k: nat, n: nat): (e: nat)
    requires k <= n <= |s|
    ensures k <= e <= n && (k < n && !IsSpace(s[k]) ==> k < e)
    decreases n - k
  {
    if k == n || IsSpace(s[k]) then k else RunAt(s, k + 1, n)
  }

  lemma {:induction false} RunAtIsRun(s: seq<char>, k: nat, n: nat)
    requires k <= n <= |s|
    ensures RunAt(s, k, n) == k + Run(s[k..n])
    decreases n - k
  {
    if k < n && !IsSpace(s[k]) {
      RunAtIsRun(s, k + 1, n);
      assert s[k..n][1..] == s[k + 1..n];
    }
  }

  /** The words of a text, at its positions. */
  lemma WordsAt(s: seq<char>, k: nat, n: nat)
    requires k <= n <= |s|
    ensures var i := SkipAt(s, k, n);
            |Words(s[k..n])| == if i == n then 0 else 1 + |Words(s[RunAt(s, i, n)..n])|
  {
    var i := SkipAt(s, k, n);
    SkipAtIsSkip(s, k, n);
    RunAtIsRun(s, i, n);
    if i < n {
      assert s[i..n][RunAt(s, i, n) - i..] == s[RunAt(s, i, n)..n];
    }
  }

  /** Over the characters of a word. */
  method SkipWord(a: array<char>, pos: nat, ghost s: seq<char>, ghost n: nat) returns (e: nat)
    requires s == a[..] && pos <= n < |s| && s[n] == NUL && forall k :: pos <= k < n ==> s[k] != NUL
    ensures e == RunAt(s, pos, n)
  {
    e := pos;
    while a[e] != NUL && !IsSpace(a[e])
      invariant pos <= e <= n && RunAt(s, pos, n) == RunAt(s, e, n)
      decreases |s| - e
    {
      e := e + 1;
    }
  }

  /** CountTokens: how many words there are. */
  method CountTokens(a: array<char>, ppch: nat, ghost n: nat) returns (c: nat)
    requires ppch <= n < a.Length && a[n] == NUL && forall k :: ppch <= k < n ==> a[k] != NUL
    ensures c == |Words(a[ppch..n])|
  {
    ghost var s := a[..];
    c := 0;
    var pch, more := ppch, true;
    while more
      invariant ppch <= pch <= n && more == (pch < n || more)
      invariant |Words(s[ppch..n])| == c + |Words(s[pch..n])|
      invariant !more ==> pch == n
      decreases more, n - pch
    {
      WordsAt(s, pch, n);
      pch := SkipSpaces(a, pch, s, n);
      if a[pch] != NUL {
        c := c + 1;
        pch := SkipWord(a, pch, s, n);
      }
      more := a[pch] != NUL;
    }
    assert s[ppch..n] == a[ppch..n];
  }

  // ----- Quoted tokens

  predicate Special(c: char) {
    c == '"' || c == '\\'
  }

  /** Every quote and every backslash with a backslash before it. */
  function Escaped(t: string): string {
    if t == "" then "" else (if Special(t[0]) then ['\\', t[0]] else [t[0]]) + Escaped(t[1..])
  }

  /** The rest of a quoted text, up to its quote, with what follows. */
  function Closing(t: string, rest: string): string {
    if t == "" then ['"'] + rest
    else (if Special(t[0]) then ['\\', t[0]] else [t[0]]) + Closing(t[1..], rest)
  }

  lemma {:induction false} ClosingIs(t: string, rest: string)
    ensures Closing(t, rest) == Escaped(t) + ['"'] + rest
  {
    if t != "" {
      ClosingIs(t[1..], rest);
    }
  }

  function Quoted(t: string): string {
    ['"'] + Escaped(t) + ['"']
  }

  lemma ScanEscape(s: string, c: char, tail: string, terms: string)
    requires '\\' !in terms && s == ['\\', c] + tail
    ensures var r := Scan(tail, terms, true); Scan(s, terms, true) == ([c] + r.0, r.1)
  {
    assert s[2..] == tail;
  }

  lemma ScanLiteral(s: string, c: char, tail: string, terms: string)
    requires !Special(c) && s == [c] + tail
    ensures var r := Scan(tail, terms, true); Scan(s, terms, true) == ([c] + r.0, r.1)
  {
    assert s[1..] == tail;
  }

  /** Inside quotes an escaped text reads back unchanged. */
  lemma {:induction false} ScanClosing(t: string, rest: string, terms: string)
    requires '"' !in terms && '\\' !in terms
    ensures var r := Scan(rest, terms, false); Scan(Closing(t, rest), terms, true) == (t + r.0, r.1)
  {
    if t == "" {
      assert (['"'] + rest)[1..] == rest;
      assert t + Scan(rest, terms, false).0 == Scan(rest, terms, false).0;
    } else {
      ScanClosing(t[1..], rest, terms);
      Uncons(t, Scan(rest, terms, false).0);
      if Special(t[0]) {
        ScanEscape(Closing(t, rest), t[0], Closing(t[1..], rest), terms);
      } else {
        ScanLiteral(Closing(t, rest), t[0], Closing(t[1..], rest), terms);
      }
    }
  }

  lemma Uncons(t: string, u: string)
    requires t != ""
    ensures t + u == [t[0]] + (t[1..] + u)
  {
  }

  lemma ScanQuoted(t: string, rest: string, terms: string)
    requires '"' !in terms && '\\' !in terms && (rest != "" ==> rest[0] in terms)
    ensures Scan(Quoted(t) + rest, terms, false) == (t, if rest == "" then "" else rest[1..])
  {
    var s := Quoted(t) + rest;
    ClosingIs(t, rest);
    assert s[1..] == Closing(t, rest);
    ScanClosing(t, rest, terms);
    assert t + "" == t;
  }

  /** A list of quoted texts, separated by blanks. */
  function Line(ts: seq<string>): string {
    if ts == [] then "" else Quoted(ts[0]) + ([' '] + Line(ts[1..]))
  }

  /** Any list of texts, quoted, reads back unchanged; the empty text too. */
  lemma {:induction false} QuotedTokens(ts: seq<string>, terms: string)
    requires Terminators(terms)
    ensures Tokens(Line(ts), terms) == ts
  {
    if ts != [] {
      var rest := Line(ts[1..]);
      var s := Line(ts);
      assert s[0] == '"' && SkipSpace(s) == s;
      assert ([' '] + rest)[1..] == rest;
      ScanQuoted(ts[0], [' '] + rest, terms);
      QuotedTokens(ts[1..], terms);
      LineSkip(ts[1..]);
    }
  }

  lemma LineSkip(ts: seq<string>)
    ensures SkipSpace(Line(ts)) == Line(ts)
  {
    if ts != [] {
      assert Line(ts)[0] == '"';
    }
  }

  /** A text in single quotes, as the comment on the source would have it. */
  function SingleQuoted(t: string): string {
    ['\''] + t + ['\'']
  }

  /** A single quote is a character like any other, so that the first token keeps
      it: a text in single quotes never reads back as that text. */
  lemma SingleQuotesStay(t: string, terms: string)
    requires Terminators(terms) && '\'' !in t
    ensures Tokens(SingleQuoted(t), terms) != [t]
  {
    var s := SingleQuoted(t);
    assert s[0] == '\'' && SkipSpace(s) == s;
    var first := Scan(s, terms, false).0;
    assert first[0] == '\'';
    assert Tokens(s, terms)[0] == first;
    assert first[0] in first;
  }

  ghost predicate HasBlank(t: string) {
    exists k :: 0 <= k < |t| && IsSpace(t[k])
  }

  lemma {:induction false} RunHasNoBlank(s: string)
    ensures forall k :: 0 <= k < Run(s) ==> !IsSpace(s[k])
  {
    if s != "" && !IsSpace(s[0]) {
      RunHasNoBlank(s[1..]);
      assert forall k :: 0 < k < Run(s) ==> s[k] == s[1..][k - 1];
    }
  }

  /** It is one token, single quotes included, exactly when it holds no blank. */
  lemma SingleQuotesSplit(t: string, terms: string)
    requires Terminators(terms) && Plain(t)
    ensures Tokens(SingleQuoted(t), terms) == [SingleQuoted(t)] <==> !HasBlank(t)
  {
    var s := SingleQuoted(t);
    assert s[0] == '\'' && SkipSpace(s) == s;
    TokensAreWords(s, terms);
    assert forall k :: 0 <= k < |t| ==> s[k + 1] == t[k];
    if HasBlank(t) {
      var k :| 0 <= k < |t| && IsSpace(t[k]);
      RunHasNoBlank(s);
      assert IsSpace(s[k + 1]) && Words(s)[0] == s[..Run(s)];
    } else {
      forall k | 0 <= k < |s| ensures !IsSpace(s[k]) {
        assert 0 < k <= |t| ==> s[k] == t[k - 1];
      }
      WordsCons(s, "");
      assert s + "" == s;
    }
  }

  lemma WordsCons(x: string, rest: string)
    requires x != "" && forall k :: 0 <= k < |x| ==> !IsSpace(x[k])
    requires rest != "" ==> IsSpace(rest[0])
    ensures Words(x + rest) == [x] + Words(rest)
  {
    RunOf(x, rest);
    assert (x + rest)[..|x|] == x && (x + rest)[|x|..] == rest;
  }

  lemma {:induction false} RunOf(x: string, rest: string)
    requires forall k :: 0 <= k < |x| ==> !IsSpace(x[k])
    requires rest != "" ==> IsSpace(rest[0])
    ensures Run(x + rest) == |x|
  {
    if x == "" {
      assert x + rest == rest;
    } else {
      assert (x + rest)[1..] == x[1..] + rest;
      RunOf(x[1..], rest);
    }
  }
}
