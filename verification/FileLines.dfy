/** The texts that the recognisers of matches and of money games accept, line after line
    (gnubg/file.c, lines 319 to 378). */
module FileLines {
  import opened Common
  import opened FileFormats
  import opened FileLanguages

  // ----- Lines

  /** Lines that are passed over, one after the other, up to a text that is an end. */
  ghost predicate LineText(w: string, skip: (string, string) -> bool, ends: string -> bool) {
    exists r :: r != [] && r[0] == w && Lines(r, skip, ends)
  }

  ghost predicate Lines(r: seq<string>, skip: (string, string) -> bool, ends: string -> bool) {
    r != [] && ends(r[|r| - 1]) && forall k :: 0 <= k < |r| - 1 ==> skip(r[k], r[k + 1])
  }

  lemma LinesTail(r: seq<string>, skip: (string, string) -> bool, ends: string -> bool)
    requires |r| > 1 && Lines(r, skip, ends)
    ensures skip(r[0], r[1]) && LineText(r[1], skip, ends)
  {
    var tail := r[1..];
    forall k | 0 <= k < |tail| - 1 ensures skip(tail[k], tail[k + 1]) {
      assert skip(r[k + 1], r[k + 2]);
    }
    assert Lines(tail, skip, ends) && tail[0] == r[1];
  }

  lemma LinesCons(s: string, r: seq<string>, skip: (string, string) -> bool, ends: string -> bool)
    requires Lines(r, skip, ends) && skip(s, r[0])
    ensures LineText(s, skip, ends)
  {
    var more := [s] + r;
    forall k | 0 <= k < |more| - 1 ensures skip(more[k], more[k + 1]) {
      assert k > 0 ==> skip(r[k - 1], r[k]);
    }
    assert Lines(more, skip, ends) && more[0] == s;
  }

  /** When there is at most one way to pass over a line. */
  lemma LineStep(s: string, skip: (string, string) -> bool, ends: string -> bool, more: bool, t: string)
    requires forall u {:trigger skip(s, u)} :: skip(s, u) <==> more && u == t
    ensures LineText(s, skip, ends) <==> ends(s) || (more && LineText(t, skip, ends))
  {
    if LineText(s, skip, ends) {
      var r :| r != [] && r[0] == s && Lines(r, skip, ends);
      if |r| > 1 {
        LinesTail(r, skip, ends);
      }
    }
    if ends(s) {
      assert Lines([s], skip, ends) && [s][0] == s;
    }
    if more && LineText(t, skip, ends) {
      var r :| r != [] && r[0] == t && Lines(r, skip, ends);
      assert skip(s, t);
      LinesCons(s, r, skip, ends);
    }
  }

  /** From position k both accept the end, or what follows a line that passes. */
  ghost predicate AlikeAt(f: nat -> bool, g: nat -> bool, ends: nat -> bool, passes: nat -> bool, next: nat -> nat,
                          n: nat, k: nat)
  {
    && (passes(k) ==> k < next(k) <= n)
    && (f(k) <==> ends(k) || (passes(k) && f(next(k))))
    && (g(k) <==> ends(k) || (passes(k) && g(next(k))))
  }

  /** Two recognisers that look at one line after the other in the same way. */
  lemma {:induction false} SameFrom(f: nat -> bool, g: nat -> bool, ends: nat -> bool, passes: nat -> bool,
                                    next: nat -> nat, n: nat, pos: nat)
    requires pos <= n
    requires forall k: nat {:trigger AlikeAt(f, g, ends, passes, next, n, k)} :: k <= n ==>
               AlikeAt(f, g, ends, passes, next, n, k)
    ensures f(pos) <==> g(pos)
    decreases n - pos
  {
    assert AlikeAt(f, g, ends, passes, next, n, pos);
    if passes(pos) {
      SameFrom(f, g, ends, passes, next, n, next(pos));
    }
  }

  // ----- Matches

  /** What is passed over up to the end of a line, after blanks. The first one or two
      characters of a comment may be anything, even the end of the line. */
  ghost predicate MatIgnored(text: string) {
    || (text != "" && !Blank(text[0]) && !Digit(text[0]) && text[0] != ';' && OneLine(text))
    || (|text| >= 2 && text[0] == ';' && text[1] != ' ' && OneLine(text[2..]))
    || (|text| >= 3 && text[0] == ';' && text[1] == ' ' && text[2] != '[' && OneLine(text[3..]))
  }

  /** t is what is left of s after a line that is passed over. */
  ghost predicate MatSkip(s: string, t: string) {
    exists b, text :: Blanks(b) && MatIgnored(text) && s == b + text + (['\n'] + t)
  }

  /** A comment in brackets, or the length of the match. */
  ghost predicate MatEnds(s: string) {
    || (exists r :: Splits(s, r, 1) && Leads(r[0], "; [", r[1]))
    || (exists r :: Splits(s, r, 3)
                    && LeadsNumber(r[0], r[1]) && LeadsSpelled(r[1], "point", r[2]) && LeadsSpelled(r[2], "match", r[3]))
  }

  ghost predicate MatText(w: string) {
    LineText(w, (s, t) => MatSkip(s, t), s => MatEnds(s))
  }

  predicate MatComment(w: string, p: nat) {
    At(w, p) == ';' && At(w, p + 1) == ' ' && At(w, p + 2) == '['
  }

  function MatFrom(w: string, p: nat): nat {
    if At(w, p) != ';' then p else if At(w, p + 1) == ' ' then p + 3 else p + 2
  }

  lemma MatEndsIs(w: string, pos: nat)
    requires pos <= |w|
    ensures var p := AfterWS(w, pos);
            MatEnds(w[pos..]) <==> MatComment(w, p) || (IsDigit(At(w, p)) && MatLength(w, p))
  {
    MatCommentIs(w, pos);
    MatLengthIs(w, pos);
  }

  lemma MatCommentIs(w: string, pos: nat)
    requires pos <= |w|
    ensures (exists r :: Splits(w[pos..], r, 1) && Leads(r[0], "; [", r[1])) <==> MatComment(w, AfterWS(w, pos))
  {
    var comment := TheWord("; [");
    PartsFrom(w, pos, [comment]);
    OneAfter(w, pos, comment, [comment]);
    OneMade(w[pos..], comment, [comment]);
    CommentIs(w, AfterWS(w, pos), "; [");
  }

  lemma MatLengthIs(w: string, pos: nat)
    requires pos <= |w|
    ensures var p := AfterWS(w, pos);
            (exists r :: Splits(w[pos..], r, 3)
                         && LeadsNumber(r[0], r[1]) && LeadsSpelled(r[1], "point", r[2]) && LeadsSpelled(r[2], "match", r[3]))
            <==> IsDigit(At(w, p)) && MatLength(w, p)
  {
    var point, length := Spelled("point"), Spelled("match");
    var parts := [ANumber, point, length];
    PartsFrom(w, pos, parts);
    MatLengthAfter(w, pos, point, length, parts);
    ThreeMade(w[pos..], ANumber, point, length, parts);
  }

  lemma MatLengthAfter(w: string, pos: nat, point: Part, length: Part, parts: seq<Part>)
    requires point == Spelled("point") && length == Spelled("match") && parts == [ANumber, point, length]
    ensures AfterAll(w, pos, parts).Some? <==> IsDigit(At(w, AfterWS(w, pos))) && MatLength(w, AfterWS(w, pos))
  {
    ThreeAfter(w, pos, ANumber, point, length, parts);
  }

  lemma CommentIs(w: string, p: nat, word: string)
    requires word == "; ["
    ensures Has(w, p, word, false) <==> MatComment(w, p)
  {
    if Has(w, p, word, false) {
      assert Folded(false, At(w, p + 0)) == word[0] && Folded(false, At(w, p + 1)) == word[1];
      assert Folded(false, At(w, p + 2)) == word[2];
    }
  }

  lemma IgnoredLine(w: string, p: nat, text: string, off: nat, t: string)
    requires p <= |w| && w[p..] == text + (['\n'] + t) && off <= |text| && OneLine(text[off..])
    ensures LineEnd(w, p + off) == p + |text| < |w| && At(w, p + |text|) == '\n' && t == w[p + |text| + 1..]
  {
    assert w[p + off..] == w[p..][off..] == text[off..] + ['\n'] + t;
    LineOf(w, p + off, text[off..], '\n', t);
    assert w[p + |text|] == w[p..][|text|] == '\n';
  }

  lemma IgnoredAt(w: string, p: nat, text: string, t: string)
    requires p <= |w| && w[p..] == text + (['\n'] + t) && MatIgnored(text)
    ensures !MatComment(w, p) && !IsDigit(At(w, p))
    ensures var e := LineEnd(w, MatFrom(w, p)); At(w, e) == '\n' && e < |w| && t == w[e + 1..]
  {
    TextAt(w, p, text, ['\n'] + t);
    assert At(w, p + 0) == text[0];
    if text[0] != ';' {
      assert text[0..] == text;
      IgnoredLine(w, p, text, 0, t);
    } else {
      assert At(w, p + 1) == text[1];
      if text[1] != ' ' {
        IgnoredLine(w, p, text, 2, t);
      } else {
        assert At(w, p + 2) == text[2];
        IgnoredLine(w, p, text, 3, t);
      }
    }
  }

  lemma MatSkipFrom(w: string, pos: nat, t: string)
    requires pos <= |w| && MatSkip(w[pos..], t)
    ensures var p := AfterWS(w, pos);
            && !MatComment(w, p) && !IsDigit(At(w, p))
            && var e := LineEnd(w, MatFrom(w, p));
               At(w, e) == '\n' && e < |w| && t == w[e + 1..]
  {
    var b, text :| Blanks(b) && MatIgnored(text) && w[pos..] == b + text + (['\n'] + t);
    Assoc(b, text, ['\n'] + t);
    BlanksEnd(w, pos, b, text + (['\n'] + t));
    IgnoredAt(w, pos + |b|, text, t);
  }

  lemma TextAt(w: string, p: nat, text: string, rest: string)
    requires p <= |w| && w[p..] == text + rest
    ensures p + |text| <= |w| && forall k {:trigger text[k]} :: 0 <= k < |text| ==> At(w, p + k) == text[k]
  {
    forall k {:trigger text[k]} | 0 <= k < |text| ensures At(w, p + k) == text[k] {
      assert w[p..][k] == w[p + k];
    }
  }

  lemma MatSkipTo(w: string, pos: nat) returns (e: nat)
    requires pos <= |w|
    requires var p := AfterWS(w, pos);
             && !MatComment(w, p) && !IsDigit(At(w, p)) && At(w, LineEnd(w, MatFrom(w, p))) == '\n'
    ensures e == LineEnd(w, MatFrom(w, AfterWS(w, pos))) < |w| && pos <= e && MatSkip(w[pos..], w[e + 1..])
  {
    var p := BlanksTo(w, pos);
    e := LineEnd(w, MatFrom(w, p));
    var from := MatFrom(w, p);
    var e' := LineTo(w, from);
    var text := w[p..e];
    Parts(w, pos, p, e);
    assert w[e..] == ['\n'] + w[e + 1..];
    assert text[from - p..] == w[from..e];
    assert from == p ==> text == w[from..e];
    NotEmpty(w, p, e, from);
    assert MatIgnored(text);
  }

  lemma NotEmpty(w: string, p: nat, e: nat, from: nat)
    requires p <= from <= e < |w| && w[e] == '\n' && !Blank(w[p])
    ensures p < e && w[p..e][0] == w[p] && forall k :: 0 <= k < e - p ==> w[p..e][k] == w[p + k]
  {
  }

  /** Whether the line at a position is passed over. */
  predicate MatPasses(w: string, pos: nat) {
    var p := AfterWS(w, pos);
    !MatComment(w, p) && !IsDigit(At(w, p)) && At(w, LineEnd(w, MatFrom(w, p))) == '\n'
  }

  lemma MatSkipIs(w: string, pos: nat) returns (e: nat)
    requires pos <= |w|
    ensures e == LineEnd(w, MatFrom(w, AfterWS(w, pos))) && pos <= e && (MatPasses(w, pos) ==> e < |w|)
    ensures forall t :: MatSkip(w[pos..], t) <==> MatPasses(w, pos) && t == w[e + 1..]
  {
    var p := BlanksTo(w, pos);
    e := LineEnd(w, MatFrom(w, p));
    if MatPasses(w, pos) {
      var k := MatSkipTo(w, pos);
    }
    forall t | MatSkip(w[pos..], t)
      ensures MatPasses(w, pos) && e < |w| && t == w[e + 1..]
    {
      MatSkipFrom(w, pos, t);
    }
  }

  lemma MatUnfolds(w: string, pos: nat, e: nat)
    requires pos <= |w| && e == LineEnd(w, MatFrom(w, AfterWS(w, pos)))
    ensures IsMAT(w, pos) <==> MatEnds(w[pos..]) || (MatPasses(w, pos) && IsMAT(w, e + 1))
  {
    MatEndsIs(w, pos);
  }

  lemma MatStep(w: string, pos: nat) returns (e: nat)
    requires pos <= |w|
    ensures e == LineEnd(w, MatFrom(w, AfterWS(w, pos))) && pos <= e && (MatPasses(w, pos) ==> e < |w|)
    ensures MatText(w[pos..]) <==> MatEnds(w[pos..]) || (MatPasses(w, pos) && MatText(w[e + 1..]))
  {
    e := MatSkipIs(w, pos);
    var more, t := MatPasses(w, pos), if MatPasses(w, pos) then w[e + 1..] else "";
    LineStep(w[pos..], (s, t) => MatSkip(s, t), s => MatEnds(s), more, t);
  }

  function MatNext(w: string, pos: nat): nat {
    LineEnd(w, MatFrom(w, AfterWS(w, pos))) + 1
  }

  lemma MatAlike(w: string, k: nat, f: nat -> bool, g: nat -> bool, ends: nat -> bool, passes: nat -> bool,
                 next: nat -> nat)
    requires k <= |w| && f == ((i: nat) => IsMAT(w, i)) && g == ((i: nat) => i <= |w| && MatText(w[i..]))
    requires ends == ((i: nat) => i <= |w| && MatEnds(w[i..])) && passes == ((i: nat) => MatPasses(w, i)) && next == ((i: nat) => MatNext(w, i))
    ensures AlikeAt(f, g, ends, passes, next, |w|, k)
  {
    var e := MatBoth(w, k);
  }

  lemma MatBoth(w: string, k: nat) returns (e: nat)
    requires k <= |w|
    ensures e + 1 == MatNext(w, k) && (MatPasses(w, k) ==> k <= e < |w|)
    ensures IsMAT(w, k) <==> MatEnds(w[k..]) || (MatPasses(w, k) && IsMAT(w, e + 1))
    ensures MatText(w[k..]) <==> MatEnds(w[k..]) || (MatPasses(w, k) && MatText(w[e + 1..]))
  {
    e := MatStep(w, k);
    MatUnfolds(w, k, e);
  }

  lemma MatSame(w: string)
    ensures IsMAT(w, 0) <==> MatText(w[0..])
  {
    var f, g := (i: nat) => IsMAT(w, i), (i: nat) => i <= |w| && MatText(w[i..]);
    var ends, passes := (i: nat) => i <= |w| && MatEnds(w[i..]), (i: nat) => MatPasses(w, i);
    var next := (i: nat) => MatNext(w, i);
    forall k: nat {:trigger AlikeAt(f, g, ends, passes, next, |w|, k)} | k <= |w|
      ensures AlikeAt(f, g, ends, passes, next, |w|, k)
    {
      MatAlike(w, k, f, g, ends, passes, next);
    }
    SameFrom(f, g, ends, passes, next, |w|, 0);
  }

  lemma MatExactly(w: string)
    ensures IsMAT(w, 0) <==> MatText(w)
  {
    MatSame(w);
    assert w[0..] == w;
  }

  // ----- Money games

  /** A line with a name, or nothing, in front of a colon; the name does not start with the
      word for a game. */
  ghost predicate TmgSkip(s: string, t: string) {
    exists b, n, text :: TmgLine(b, n, text) && s == b + n + ([':'] + text + (['\n'] + t))
  }

  ghost predicate TmgLine(b: string, n: string, text: string) {
    Blanks(b) && (n == "" || Name(n)) && !(|n| >= 4 && Spells(n[..4], "game")) && OneLine(text)
  }

  /** The number of a game, with a colon right after it. */
  ghost predicate TmgEnds(s: string) {
    exists r :: Splits(s, r, 3) && LeadsSpelled(r[0], "game", r[1]) && LeadsNumber(r[1], r[2]) && r[2] == [':'] + r[3]
  }

  ghost predicate TmgText(w: string) {
    LineText(w, (s, t) => TmgSkip(s, t), s => TmgEnds(s))
  }

  predicate GameAt(w: string, p: nat) {
    Has(w, p, "game", true)
  }

  lemma TmgEndsIs(w: string, pos: nat)
    requires pos <= |w|
    ensures var p := AfterWS(w, pos);
            TmgEnds(w[pos..]) <==> && GameAt(w, p) && NumberAt(w, AfterWS(w, p + 4))
                                   && At(w, AfterNumber(w, AfterWS(w, p + 4))) == ':'
  {
    var game, colon := Spelled("game"), Exactly(':');
    var parts := [game, ANumber, colon];
    PartsFrom(w, pos, parts);
    ThreeAfter(w, pos, game, ANumber, colon, parts);
    ThreeMade(w[pos..], game, ANumber, colon, parts);
  }

  /** Four characters that spell the word are letters. */
  lemma GameInName(w: string, p: nat, n: string, rest: string)
    requires p <= |w| && w[p..] == n + rest && rest != "" && rest[0] == ':'
    ensures GameAt(w, p) <==> |n| >= 4 && Spells(n[..4], "game")
  {
    var word :| word == "game";
    TextAt(w, p, n + rest, "");
    assert n + rest + "" == n + rest;
    if |n| < 4 {
      assert (n + rest)[|n|] == ':' && At(w, p + |n|) == ':';
      NotGame(w, p, |n|, word);
    } else {
      HasSpelled(w, p, word);
      assert w[p..p + 4] == w[p..][..4] == n[..4];
    }
  }

  lemma NotGame(w: string, p: nat, k: nat, word: string)
    requires word == "game" && k < 4 && At(w, p + k) == ':'
    ensures !GameAt(w, p)
  {
    assert Folded(true, At(w, p + k)) != word[k];
  }

  lemma NameOrNothing(w: string, p: nat, n: string, rest: string)
    requires p <= |w| && w[p..] == n + rest && rest != "" && rest[0] == ':' && (n == "" || Name(n))
    ensures AfterNameRead(w, p) == p + |n| < |w| && w[p + |n|..] == rest && At(w, p + |n|) == ':'
  {
    assert w[p + |n|..] == w[p..][|n|..] == rest;
    assert w[p + |n|] == rest[0];
    if n != "" {
      NameEnd(w, p, n, rest);
    }
  }

  lemma ColonAt(w: string, p: nat, n: string, text: string, t: string)
    requires p <= |w| && w[p..] == n + ([':'] + text + (['\n'] + t)) && (n == "" || Name(n)) && OneLine(text)
    requires !(|n| >= 4 && Spells(n[..4], "game"))
    ensures var q := AfterNameRead(w, p);
            var e := LineEnd(w, q);
            !GameAt(w, p) && At(w, q) == ':' && At(w, e) == '\n' && e < |w| && t == w[e + 1..]
  {
    var line := [':'] + text;
    GameInName(w, p, n, line + (['\n'] + t));
    NameOrNothing(w, p, n, line + (['\n'] + t));
    assert line[0..] == line;
    IgnoredLine(w, p + |n|, line, 0, t);
  }

  lemma TmgSkipFrom(w: string, pos: nat, t: string)
    requires pos <= |w| && TmgSkip(w[pos..], t)
    ensures var p := AfterWS(w, pos);
            var q := AfterNameRead(w, p);
            var e := LineEnd(w, q);
            !GameAt(w, p) && At(w, q) == ':' && At(w, e) == '\n' && e < |w| && t == w[e + 1..]
  {
    var b, n, text :| TmgLine(b, n, text) && w[pos..] == b + n + ([':'] + text + (['\n'] + t));
    TmgLineAt(w, pos, b, n, text, t);
  }

  lemma NoBlankFirst(n: string, line: string)
    requires (n == "" || Name(n)) && line != "" && line[0] == ':'
    ensures n + line != "" && !Blank((n + line)[0])
  {
    assert n != "" ==> (n + line)[0] == n[0];
  }

  lemma TmgLineAt(w: string, pos: nat, b: string, n: string, text: string, t: string)
    requires pos <= |w| && TmgLine(b, n, text) && w[pos..] == b + n + ([':'] + text + (['\n'] + t))
    ensures var p := AfterWS(w, pos);
            var q := AfterNameRead(w, p);
            var e := LineEnd(w, q);
            !GameAt(w, p) && At(w, q) == ':' && At(w, e) == '\n' && e < |w| && t == w[e + 1..]
  {
    var line := [':'] + text + (['\n'] + t);
    NoBlankFirst(n, line);
    Assoc(b, n, line);
    BlanksEnd(w, pos, b, n + line);
    ColonAt(w, pos + |b|, n, text, t);
  }

  lemma TmgSkipTo(w: string, pos: nat) returns (e: nat)
    requires pos <= |w|
    requires var q := AfterNameRead(w, AfterWS(w, pos));
             !GameAt(w, AfterWS(w, pos)) && At(w, q) == ':' && At(w, LineEnd(w, q)) == '\n'
    ensures e == LineEnd(w, AfterNameRead(w, AfterWS(w, pos))) < |w| && pos <= e && TmgSkip(w[pos..], w[e + 1..])
  {
    var p := BlanksTo(w, pos);
    var q := AfterNameRead(w, p);
    var n := NamePart(w, p);
    e := LineTo(w, q);
    TmgPartsAre(w, pos, p, q, e, n);
  }

  lemma TmgPartsAre(w: string, pos: nat, p: nat, q: nat, e: nat, n: string)
    requires pos <= p <= q <= e < |w| && Blanks(w[pos..p]) && n == w[p..q] && (n == "" || Name(n)) && !GameAt(w, p)
    requires w[q] == ':' && w[e] == '\n' && OneLine(w[q..e])
    ensures TmgSkip(w[pos..], w[e + 1..])
  {
    var text, t := w[q + 1..e], w[e + 1..];
    ColonLine(w, q, e);
    var rest := [':'] + text + (['\n'] + t);
    Parts(w, pos, p, q);
    assert w[p..] == n + rest;
    GameInName(w, p, n, rest);
    assert TmgLine(w[pos..p], n, text);
  }

  lemma ColonLine(w: string, q: nat, e: nat)
    requires q <= e < |w| && w[q] == ':' && w[e] == '\n' && OneLine(w[q..e])
    ensures q < e && OneLine(w[q + 1..e]) && w[q..] == [':'] + w[q + 1..e] + (['\n'] + w[e + 1..])
  {
    assert w[q + 1..e] == w[q..e][1..];
  }

  lemma NamePart(w: string, p: nat) returns (n: string)
    requires p <= |w| && At(w, AfterNameRead(w, p)) == ':'
    ensures p <= AfterNameRead(w, p) < |w| && n == w[p..AfterNameRead(w, p)] && (n == "" || Name(n))
  {
    var q := AfterNameRead(w, p);
    n := w[p..q];
    if IsAlnum(At(w, p)) {
      FirstStops(w, NotName, p);
      forall j | 0 <= j < q - p ensures LetterOrDigit(n[j]) || n[j] == '_' {
        assert !NotName(At(w, p + j));
      }
    }
  }

  predicate TmgPasses(w: string, pos: nat) {
    var p := AfterWS(w, pos);
    var q := AfterNameRead(w, p);
    !GameAt(w, p) && At(w, q) == ':' && At(w, LineEnd(w, q)) == '\n'
  }

  lemma TmgSkipIs(w: string, pos: nat) returns (e: nat)
    requires pos <= |w|
    ensures e == LineEnd(w, AfterNameRead(w, AfterWS(w, pos))) && pos <= e && (TmgPasses(w, pos) ==> e < |w|)
    ensures forall t :: TmgSkip(w[pos..], t) <==> TmgPasses(w, pos) && t == w[e + 1..]
  {
    var p := BlanksTo(w, pos);
    e := LineEnd(w, AfterNameRead(w, p));
    if TmgPasses(w, pos) {
      var k := TmgSkipTo(w, pos);
    }
    forall t | TmgSkip(w[pos..], t)
      ensures TmgPasses(w, pos) && e < |w| && t == w[e + 1..]
    {
      TmgSkipFrom(w, pos, t);
    }
  }

  lemma TmgUnfolds(w: string, pos: nat, e: nat)
    requires pos <= |w| && e == LineEnd(w, AfterNameRead(w, AfterWS(w, pos)))
    ensures IsTMG(w, pos) <==> TmgEnds(w[pos..]) || (TmgPasses(w, pos) && IsTMG(w, e + 1))
  {
    TmgEndsIs(w, pos);
  }

  lemma TmgStep(w: string, pos: nat) returns (e: nat)
    requires pos <= |w|
    ensures e == LineEnd(w, AfterNameRead(w, AfterWS(w, pos))) && pos <= e && (TmgPasses(w, pos) ==> e < |w|)
    ensures TmgText(w[pos..]) <==> TmgEnds(w[pos..]) || (TmgPasses(w, pos) && TmgText(w[e + 1..]))
  {
    e := TmgSkipIs(w, pos);
    var more, t := TmgPasses(w, pos), if TmgPasses(w, pos) then w[e + 1..] else "";
    LineStep(w[pos..], (s, t) => TmgSkip(s, t), s => TmgEnds(s), more, t);
  }

  function TmgNext(w: string, pos: nat): nat {
    LineEnd(w, AfterNameRead(w, AfterWS(w, pos))) + 1
  }

  lemma TmgAlike(w: string, k: nat, f: nat -> bool, g: nat -> bool, ends: nat -> bool, passes: nat -> bool,
                 next: nat -> nat)
    requires k <= |w| && f == ((i: nat) => IsTMG(w, i)) && g == ((i: nat) => i <= |w| && TmgText(w[i..]))
    requires ends == ((i: nat) => i <= |w| && TmgEnds(w[i..])) && passes == ((i: nat) => TmgPasses(w, i)) && next == ((i: nat) => TmgNext(w, i))
    ensures AlikeAt(f, g, ends, passes, next, |w|, k)
  {
    var e := TmgBoth(w, k);
  }

  lemma TmgBoth(w: string, k: nat) returns (e: nat)
    requires k <= |w|
    ensures e + 1 == TmgNext(w, k) && (TmgPasses(w, k) ==> k <= e < |w|)
    ensures IsTMG(w, k) <==> TmgEnds(w[k..]) || (TmgPasses(w, k) && IsTMG(w, e + 1))
    ensures TmgText(w[k..]) <==> TmgEnds(w[k..]) || (TmgPasses(w, k) && TmgText(w[e + 1..]))
  {
    e := TmgStep(w, k);
    TmgUnfolds(w, k, e);
  }

  lemma TmgSame(w: string)
    ensures IsTMG(w, 0) <==> TmgText(w[0..])
  {
    var f, g := (i: nat) => IsTMG(w, i), (i: nat) => i <= |w| && TmgText(w[i..]);
    var ends, passes := (i: nat) => i <= |w| && TmgEnds(w[i..]), (i: nat) => TmgPasses(w, i);
    var next := (i: nat) => TmgNext(w, i);
    forall k: nat {:trigger AlikeAt(f, g, ends, passes, next, |w|, k)} | k <= |w|
      ensures AlikeAt(f, g, ends, passes, next, |w|, k)
    {
      TmgAlike(w, k, f, g, ends, passes, next);
    }
    SameFrom(f, g, ends, passes, next, |w|, 0);
  }

  lemma TmgExactly(w: string)
    ensures IsTMG(w, 0) <==> TmgText(w)
  {
    TmgSame(w);
    assert w[0..] == w;
  }

  // ----- The preview

  /** The type of a file, by the first 5120 bytes of it. */
  lemma PreviewExactly(file: string)
    ensures var w := if |file| <= 5120 then file else file[..5120];
            Preview(Window(file)) ==
              if SgfText(w) then IMPORT_SGF
              else if SggText(w) then IMPORT_SGG
              else if TxtText(w) then IMPORT_SNOWIETXT
              else if TmgText(w) then IMPORT_TMG
              else if MatText(w) then IMPORT_MAT
              else if JfpText(w) then IMPORT_POS
              else if GamText(w) then IMPORT_EMPIRE
              else if ParText(w) then IMPORT_PARTY
              else if BgrText(w) then IMPORT_BGROOM
              else N_IMPORT_TYPES
  {
    var w := Window(file);
    SgfExactly(w);
    SggExactly(w);
    TxtExactly(w);
    TmgExactly(w);
    MatExactly(w);
    JfpExactly(w);
    GamExactly(w);
    ParExactly(w);
    BgrExactly(w);
  }
}
