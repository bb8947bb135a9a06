/** The texts that the recognisers of file formats accept, written out
    (gnubg/file.c, lines 269 to 465). */
module FileLanguages {
  import opened Common
  import opened FileFormats

  // ----- Parts of texts

  ghost predicate Blank(c: char) {
    c == ' ' || c == '\t' || c == '\r' || c == '\n'
  }

  ghost predicate Blanks(s: string) {
    forall k :: 0 <= k < |s| ==> Blank(s[k])
  }

  ghost predicate Digit(c: char) {
    c in "0123456789"
  }

  ghost predicate Number(s: string) {
    s != "" && forall k :: 0 <= k < |s| ==> Digit(s[k])
  }

  ghost predicate LetterOrDigit(c: char) {
    Digit(c) || 'a' <= c <= 'z' || 'A' <= c <= 'Z'
  }

  /** Letters, digits and underscores, the first no underscore. */
  ghost predicate Name(s: string) {
    s != "" && LetterOrDigit(s[0]) && forall k :: 0 <= k < |s| ==> LetterOrDigit(s[k]) || s[k] == '_'
  }

  /** The word, with small or capital letters. */
  ghost predicate Spells(s: string, word: string) {
    |s| == |word| && forall k :: 0 <= k < |s| ==> s[k] == word[k] || ('A' <= s[k] <= 'Z' && word[k] as int == s[k] as int + 32)
  }

  /** The rest of a line: neither the end of a line nor a terminator. */
  ghost predicate OneLine(s: string) {
    forall k :: 0 <= k < |s| ==> s[k] != '\n' && s[k] != 0 as char
  }

  // ----- What a text starts with, after blanks, and what is left then

  ghost predicate Leads(s: string, word: string, rest: string) {
    exists b :: Blanks(b) && s == b + word + rest
  }

  ghost predicate LeadsSpelled(s: string, word: string, rest: string) {
    exists b, x :: Blanks(b) && Spells(x, word) && s == b + x + rest
  }

  /** A name with a blank after it. */
  ghost predicate LeadsName(s: string, rest: string) {
    rest != "" && Blank(rest[0]) && exists b, n :: Blanks(b) && Name(n) && s == b + n + rest
  }

  ghost predicate LeadsNumber(s: string, rest: string) {
    (rest == "" || !Digit(rest[0])) && exists b, n :: Blanks(b) && Number(n) && s == b + n + rest
  }

  // ----- Positions and parts

  lemma StopsWithin(w: string, stop: char -> bool, pos: nat)
    requires stop(NUL) && pos <= |w|
    ensures pos <= First(w, stop, pos) <= |w|
  {
    FirstStops(w, stop, pos);
    assert stop(At(w, |w|));
  }

  lemma BlanksTo(w: string, pos: nat) returns (k: nat)
    requires pos <= |w|
    ensures k == AfterWS(w, pos) && pos <= k <= |w| && Blanks(w[pos..k]) && (k < |w| ==> !Blank(w[k]))
  {
    k := AfterWS(w, pos);
    StopsWithin(w, NotWS, pos);
    FirstStops(w, NotWS, pos);
    forall j | 0 <= j < k - pos ensures Blank(w[pos..k][j]) {
      assert !NotWS(At(w, pos + j));
    }
  }

  lemma BlanksEnd(w: string, pos: nat, b: string, rest: string)
    requires pos <= |w| && w[pos..] == b + rest && Blanks(b) && (rest == "" || !Blank(rest[0]))
    ensures AfterWS(w, pos) == pos + |b| <= |w| && w[pos + |b|..] == rest
  {
    var k := pos + |b|;
    forall j | pos <= j < k ensures !NotWS(At(w, j)) {
      assert w[j] == w[pos..][j - pos] == b[j - pos];
    }
    assert w[k..] == w[pos..][|b|..] == rest;
    assert k < |w| ==> w[k] == rest[0];
    FirstIs(w, NotWS, pos, k);
  }

  lemma NameTo(w: string, pos: nat) returns (k: nat)
    requires pos <= |w| && NameAt(w, pos)
    ensures k == AfterName(w, pos) && pos < k < |w| && Name(w[pos..k]) && Blank(w[k])
  {
    k := AfterName(w, pos);
    StopsWithin(w, NotName, pos);
    FirstStops(w, NotName, pos);
    forall j | 0 <= j < k - pos ensures LetterOrDigit(w[pos..k][j]) || w[pos..k][j] == '_' {
      assert !NotName(At(w, pos + j));
    }
  }

  lemma NameEnd(w: string, pos: nat, n: string, rest: string)
    requires pos <= |w| && w[pos..] == n + rest && Name(n) && rest != "" && !LetterOrDigit(rest[0]) && rest[0] != '_'
    ensures IsAlnum(At(w, pos)) && AfterName(w, pos) == pos + |n| < |w| && w[pos + |n|..] == rest
  {
    var k := pos + |n|;
    forall j | pos <= j < k ensures !NotName(At(w, j)) {
      assert w[j] == w[pos..][j - pos] == n[j - pos];
    }
    assert w[k..] == w[pos..][|n|..] == rest && w[k] == rest[0];
    assert w[pos] == w[pos..][0] == n[0];
    FirstIs(w, NotName, pos, k);
  }

  lemma NumberTo(w: string, pos: nat) returns (k: nat)
    requires pos <= |w| && NumberAt(w, pos)
    ensures k == AfterNumber(w, pos) && pos < k <= |w| && Number(w[pos..k]) && (k < |w| ==> !Digit(w[k]))
  {
    k := AfterNumber(w, pos);
    StopsWithin(w, NotDigit, pos);
    FirstStops(w, NotDigit, pos);
    forall j | 0 <= j < k - pos ensures Digit(w[pos..k][j]) {
      assert !NotDigit(At(w, pos + j));
    }
  }

  lemma NumberEnd(w: string, pos: nat, n: string, rest: string)
    requires pos <= |w| && w[pos..] == n + rest && Number(n) && (rest == "" || !Digit(rest[0]))
    ensures NumberAt(w, pos) && AfterNumber(w, pos) == pos + |n| <= |w| && w[pos + |n|..] == rest
  {
    var k := pos + |n|;
    forall j | pos <= j < k ensures !NotDigit(At(w, j)) {
      assert w[j] == w[pos..][j - pos] == n[j - pos];
    }
    assert w[k..] == w[pos..][|n|..] == rest;
    assert k < |w| ==> w[k] == rest[0];
    assert w[pos] == w[pos..][0] == n[0];
    FirstIs(w, NotDigit, pos, k);
  }

  /** A word of the recognisers: no blank in front, no terminator, no capital letter when
      its case does not matter. */
  ghost predicate Word(word: string, nc: bool) {
    && word != "" && !Blank(word[0])
    && forall k :: 0 <= k < |word| ==> word[k] != NUL && (nc ==> !('A' <= word[k] <= 'Z'))
  }

  lemma HasWithin(w: string, pos: nat, word: string, nc: bool)
    requires Word(word, nc) && pos <= |w| && Has(w, pos, word, nc)
    ensures pos + |word| <= |w|
  {
    HasAt(w, pos, word, nc, |word| - 1);
  }

  lemma HasIs(w: string, pos: nat, word: string)
    requires Word(word, false) && pos <= |w|
    ensures Has(w, pos, word, false) <==> pos + |word| <= |w| && w[pos..pos + |word|] == word
  {
    if Has(w, pos, word, false) {
      HasWithin(w, pos, word, false);
      forall k | 0 <= k < |word| ensures w[pos..pos + |word|][k] == word[k] {
        HasAt(w, pos, word, false, k);
      }
    } else {
      var k :| 0 <= k < |word| && Folded(false, At(w, pos + k)) != word[k];
      assert pos + |word| <= |w| ==> w[pos..pos + |word|][k] == w[pos + k];
    }
  }

  lemma HasSpelled(w: string, pos: nat, word: string)
    requires Word(word, true) && pos <= |w|
    ensures Has(w, pos, word, true) <==> pos + |word| <= |w| && Spells(w[pos..pos + |word|], word)
  {
    if Has(w, pos, word, true) {
      HasWithin(w, pos, word, true);
      forall k | 0 <= k < |word|
        ensures w[pos..pos + |word|][k] == word[k]
             || ('A' <= w[pos..pos + |word|][k] <= 'Z' && word[k] as int == w[pos..pos + |word|][k] as int + 32)
      {
        HasAt(w, pos, word, true, k);
      }
    } else {
      var k :| 0 <= k < |word| && Folded(true, At(w, pos + k)) != word[k];
      assert pos + |word| <= |w| ==> w[pos..pos + |word|][k] == w[pos + k];
    }
  }

  lemma Assoc(a: string, b: string, c: string)
    ensures a + b + c == a + (b + c)
  {
  }

  lemma Parts(w: string, pos: nat, i: nat, j: nat)
    requires pos <= i <= j <= |w|
    ensures w[pos..] == w[pos..i] + w[i..j] + w[j..]
  {
  }

  lemma LeadsIs(w: string, pos: nat, word: string, rest: string)
    requires Word(word, false) && pos <= |w|
    ensures var p := AfterWS(w, pos);
            Leads(w[pos..], word, rest) <==> Has(w, p, word, false) && p + |word| <= |w| && rest == w[p + |word|..]
  {
    var p := BlanksTo(w, pos);
    HasIs(w, p, word);
    if Has(w, p, word, false) && rest == w[p + |word|..] {
      Parts(w, pos, p, p + |word|);
    }
    if Leads(w[pos..], word, rest) {
      var b :| Blanks(b) && w[pos..] == b + word + rest;
      Assoc(b, word, rest);
      BlanksEnd(w, pos, b, word + rest);
      assert w[p..p + |word|] == w[p..][..|word|] == word && w[p + |word|..] == w[p..][|word|..] == rest;
    }
  }

  lemma SpelledParts(w: string, pos: nat, word: string, rest: string)
    requires Word(word, true) && pos <= |w| && LeadsSpelled(w[pos..], word, rest)
    ensures var p := AfterWS(w, pos);
            p + |word| <= |w| && Spells(w[p..p + |word|], word) && rest == w[p + |word|..]
  {
    var b, x :| Blanks(b) && Spells(x, word) && w[pos..] == b + x + rest;
    Assoc(b, x, rest);
    BlanksEnd(w, pos, b, x + rest);
    var p := pos + |b|;
    assert w[p..p + |word|] == w[p..][..|word|] == x && w[p + |word|..] == w[p..][|word|..] == rest;
  }

  lemma LeadsSpelledIs(w: string, pos: nat, word: string, rest: string)
    requires Word(word, true) && pos <= |w|
    ensures var p := AfterWS(w, pos);
            LeadsSpelled(w[pos..], word, rest) <==> Has(w, p, word, true) && p + |word| <= |w| && rest == w[p + |word|..]
  {
    var p := BlanksTo(w, pos);
    HasSpelled(w, p, word);
    if Has(w, p, word, true) && rest == w[p + |word|..] {
      Parts(w, pos, p, p + |word|);
    }
    if LeadsSpelled(w[pos..], word, rest) {
      SpelledParts(w, pos, word, rest);
    }
  }

  lemma NameParts(w: string, pos: nat, rest: string)
    requires pos <= |w| && LeadsName(w[pos..], rest)
    ensures var p := AfterWS(w, pos);
            NameAt(w, p) && AfterName(w, p) <= |w| && rest == w[AfterName(w, p)..]
  {
    var b, n :| Blanks(b) && Name(n) && w[pos..] == b + n + rest;
    Assoc(b, n, rest);
    BlanksEnd(w, pos, b, n + rest);
    var p := pos + |b|;
    NameEnd(w, p, n, rest);
    assert w[p + |n|] == rest[0];
  }

  lemma LeadsNameIs(w: string, pos: nat, rest: string)
    requires pos <= |w|
    ensures var p := AfterWS(w, pos);
            LeadsName(w[pos..], rest) <==> NameAt(w, p) && AfterName(w, p) <= |w| && rest == w[AfterName(w, p)..]
  {
    var p := BlanksTo(w, pos);
    if NameAt(w, p) {
      var k := NameTo(w, p);
      Parts(w, pos, p, k);
    }
    if LeadsName(w[pos..], rest) {
      NameParts(w, pos, rest);
    }
  }

  lemma NumberParts(w: string, pos: nat, rest: string)
    requires pos <= |w| && LeadsNumber(w[pos..], rest)
    ensures var p := AfterWS(w, pos);
            NumberAt(w, p) && AfterNumber(w, p) <= |w| && rest == w[AfterNumber(w, p)..]
  {
    var b, n :| Blanks(b) && Number(n) && w[pos..] == b + n + rest;
    Assoc(b, n, rest);
    BlanksEnd(w, pos, b, n + rest);
    NumberEnd(w, pos + |b|, n, rest);
  }

  lemma LeadsNumberIs(w: string, pos: nat, rest: string)
    requires pos <= |w|
    ensures var p := AfterWS(w, pos);
            LeadsNumber(w[pos..], rest) <==> NumberAt(w, p) && AfterNumber(w, p) <= |w| && rest == w[AfterNumber(w, p)..]
  {
    var p := BlanksTo(w, pos);
    if NumberAt(w, p) {
      var k := NumberTo(w, p);
      Parts(w, pos, p, k);
    }
    if LeadsNumber(w[pos..], rest) {
      NumberParts(w, pos, rest);
    }
  }

  // ----- The formats that are one list of parts

  /** r[k] is what is left of a text before its part number k. */
  ghost predicate Splits(w: string, r: seq<string>, n: nat) {
    |r| == n + 1 && r[0] == w
  }

  /** An SGF file of game 6, with blanks anywhere between its first words. */
  ghost predicate SgfText(w: string) {
    exists r :: Splits(w, r, 10) && SgfParts(r)
  }

  ghost predicate SgfParts(r: seq<string>)
    requires |r| == 11
  {
    && Leads(r[0], "(", r[1]) && Leads(r[1], ";", r[2]) && Leads(r[2], "FF", r[3])
    && Leads(r[3], "[", r[4]) && Leads(r[4], "4", r[5]) && Leads(r[5], "]", r[6])
    && Leads(r[6], "GM", r[7]) && Leads(r[7], "[", r[8]) && Leads(r[8], "6", r[9]) && Leads(r[9], "]", r[10])
  }

  /** Two names with vs. between them, each name with a blank after it. */
  ghost predicate SggText(w: string) {
    exists r :: Splits(w, r, 3) && LeadsName(r[0], r[1]) && Leads(r[1], "vs.", r[2]) && LeadsName(r[2], r[3])
  }

  /** Two numbers with a semicolon right after each. */
  ghost predicate TxtText(w: string) {
    exists r :: Splits(w, r, 4)
                && LeadsNumber(r[0], r[1]) && r[1] == [';'] + r[2] && LeadsNumber(r[2], r[3]) && r[3] == [';'] + r[4]
  }

  /** A byte from 124 to 126, and a zero byte or nothing. */
  ghost predicate JfpText(w: string) {
    w != "" && w[0] in "|}~" && (|w| == 1 || w[1] == 0 as char)
  }

  /** Two names, each with a blank after it, and the first game. */
  ghost predicate GamText(w: string) {
    exists r :: Splits(w, r, 3) && LeadsName(r[0], r[1]) && LeadsName(r[1], r[2]) && Leads(r[2], "1)", r[3])
  }

  /** The word creator= right after the end of a line. */
  ghost predicate NextCreator(s: string, rest: string) {
    exists line, c: char, x :: s == line + [c] + x + rest
                               && OneLine(line) && (c == '\n' || c == 0 as char) && Spells(x, "creator=")
  }

  /** The word boardid= and a line, and creator= at the start of the next one. */
  ghost predicate ParText(w: string) {
    exists r :: Splits(w, r, 2) && LeadsSpelled(r[0], "boardid=", r[1]) && NextCreator(r[1], r[2])
  }

  ghost predicate BgrText(w: string) {
    exists r :: Splits(w, r, 1) && LeadsSpelled(r[0], "bgf version", r[1])
  }

  // ----- Parts one after the other

  /** A part of a text: the first four after any blanks. */
  datatype Part = TheWord(word: string) | Spelled(word: string) | AName | ANumber | Exactly(c: char) | Creator

  ghost predicate LeadsPart(s: string, part: Part, rest: string) {
    match part {
      case TheWord(word) => Leads(s, word, rest)
      case Spelled(word) => LeadsSpelled(s, word, rest)
      case AName => LeadsName(s, rest)
      case ANumber => LeadsNumber(s, rest)
      case Exactly(c) => s == [c] + rest
      case Creator => NextCreator(s, rest)
    }
  }

  ghost predicate GoodPart(part: Part) {
    match part {
      case TheWord(word) => Word(word, false)
      case Spelled(word) => Word(word, true)
      case Exactly(c) => c != NUL
      case _ => true
    }
  }

  /** Where a part ends, as the recognisers find it. */
  function After(w: string, pos: nat, part: Part): Option<nat> {
    var p := AfterWS(w, pos);
    match part {
      case TheWord(word) => if Has(w, p, word, false) then Some(p + |word|) else None
      case Spelled(word) => if Has(w, p, word, true) then Some(p + |word|) else None
      case AName => if NameAt(w, p) then Some(AfterName(w, p)) else None
      case ANumber => if NumberAt(w, p) then Some(AfterNumber(w, p)) else None
      case Exactly(c) => if At(w, pos) == c then Some(pos + 1) else None
      case Creator => if Has(w, LineEnd(w, pos) + 1, "creator=", true) then Some(LineEnd(w, pos) + 9) else None
    }
  }

  lemma PartIs(w: string, pos: nat, part: Part, rest: string)
    requires pos <= |w| && GoodPart(part)
    ensures LeadsPart(w[pos..], part, rest) <==>
            After(w, pos, part).Some? && After(w, pos, part).value <= |w| && rest == w[After(w, pos, part).value..]
    ensures After(w, pos, part).Some? ==> After(w, pos, part).value <= |w|
  {
    var p := BlanksTo(w, pos);
    match part {
      case TheWord(word) =>
        LeadsIs(w, pos, word, rest);
        if Has(w, p, word, false) {
          HasWithin(w, p, word, false);
        }
      case Spelled(word) =>
        LeadsSpelledIs(w, pos, word, rest);
        if Has(w, p, word, true) {
          HasWithin(w, p, word, true);
        }
      case AName =>
        LeadsNameIs(w, pos, rest);
        StopsWithin(w, NotName, p);
      case ANumber =>
        LeadsNumberIs(w, pos, rest);
        StopsWithin(w, NotDigit, p);
      case Exactly(c) =>
        CharIs(w, pos, c, rest);
      case Creator =>
        CreatorIs(w, pos, "creator=", rest);
    }
  }

  lemma CharIs(w: string, k: nat, c: char, rest: string)
    requires k <= |w| && c != NUL
    ensures w[k..] == [c] + rest <==> At(w, k) == c && k < |w| && rest == w[k + 1..]
  {
    if w[k..] == [c] + rest {
      assert w[k..][0] == c && w[k..][1..] == rest;
    }
  }

  function AfterAll(w: string, pos: nat, parts: seq<Part>): Option<nat>
    decreases |parts|
  {
    if parts == [] then Some(pos)
    else
      match After(w, pos, parts[0])
      case None => None
      case Some(next) => AfterAll(w, next, parts[1..])
  }

  /** What is left before and after each of the parts. */
  ghost predicate Chain(r: seq<string>, parts: seq<Part>) {
    |r| == |parts| + 1 && forall k :: 0 <= k < |parts| ==> LeadsPart(r[k], parts[k], r[k + 1])
  }

  ghost predicate GoodParts(parts: seq<Part>) {
    forall k :: 0 <= k < |parts| ==> GoodPart(parts[k])
  }

  lemma {:induction false} PartsToChain(w: string, pos: nat, parts: seq<Part>) returns (r: seq<string>)
    requires pos <= |w| && GoodParts(parts) && AfterAll(w, pos, parts).Some?
    ensures Chain(r, parts) && r[0] == w[pos..]
    decreases |parts|
  {
    r := [w[pos..]];
    if parts != [] {
      var next := After(w, pos, parts[0]).value;
      PartIs(w, pos, parts[0], r[0]);
      PartIs(w, pos, parts[0], w[next..]);
      var tail := PartsToChain(w, next, parts[1..]);
      r := ChainCons(w[pos..], parts, tail);
    }
  }

  lemma ChainCons(s: string, parts: seq<Part>, tail: seq<string>) returns (r: seq<string>)
    requires parts != [] && Chain(tail, parts[1..]) && LeadsPart(s, parts[0], tail[0])
    ensures Chain(r, parts) && r[0] == s
  {
    r := [s] + tail;
    forall k | 0 <= k < |parts| ensures LeadsPart(r[k], parts[k], r[k + 1]) {
      if k > 0 {
        assert LeadsPart(tail[k - 1], parts[1..][k - 1], tail[k]);
      }
    }
  }

  lemma {:induction false} ChainToParts(w: string, pos: nat, parts: seq<Part>, r: seq<string>)
    requires pos <= |w| && GoodParts(parts) && Chain(r, parts) && r[0] == w[pos..]
    ensures AfterAll(w, pos, parts).Some?
    decreases |parts|
  {
    if parts != [] {
      assert LeadsPart(r[0], parts[0], r[1]);
      PartIs(w, pos, parts[0], r[1]);
      ChainTail(parts, r);
      ChainToParts(w, After(w, pos, parts[0]).value, parts[1..], r[1..]);
    }
  }

  lemma ChainTail(parts: seq<Part>, r: seq<string>)
    requires parts != [] && Chain(r, parts)
    ensures Chain(r[1..], parts[1..])
  {
    forall k | 0 <= k < |parts[1..]| ensures LeadsPart(r[1..][k], parts[1..][k], r[1..][k + 1]) {
      assert LeadsPart(r[k + 1], parts[k + 1], r[k + 2]);
    }
  }

  /** A text that is made of these parts. */
  ghost predicate MadeOf(w: string, parts: seq<Part>) {
    exists r :: Splits(w, r, |parts|) && Chain(r, parts)
  }

  /** The recognisers find all parts exactly when the text is made of them. */
  lemma PartsFrom(w: string, pos: nat, parts: seq<Part>)
    requires GoodParts(parts) && pos <= |w|
    ensures AfterAll(w, pos, parts).Some? <==> MadeOf(w[pos..], parts)
  {
    if AfterAll(w, pos, parts).Some? {
      var r := PartsToChain(w, pos, parts);
      assert Splits(w[pos..], r, |parts|);
    }
    if MadeOf(w[pos..], parts) {
      var r :| Splits(w[pos..], r, |parts|) && Chain(r, parts);
      ChainToParts(w, pos, parts, r);
    }
  }

  lemma PartsExactly(w: string, parts: seq<Part>)
    requires GoodParts(parts)
    ensures AfterAll(w, 0, parts).Some? <==> MadeOf(w, parts)
  {
    assert w[0..] == w;
    PartsFrom(w, 0, parts);
  }

  lemma ChainOf(w: string, r: seq<string>, parts: seq<Part>)
    requires Splits(w, r, |parts|) && Chain(r, parts)
    ensures MadeOf(w, parts)
  {
  }

  lemma LineTo(w: string, pos: nat) returns (k: nat)
    requires pos <= |w|
    ensures k == LineEnd(w, pos) && pos <= k <= |w| && OneLine(w[pos..k]) && EndsLine(At(w, k))
  {
    k := LineEnd(w, pos);
    StopsWithin(w, EndsLine, pos);
    FirstStops(w, EndsLine, pos);
    forall j | 0 <= j < k - pos ensures w[pos..k][j] != '\n' && w[pos..k][j] != 0 as char {
      assert !EndsLine(At(w, pos + j));
    }
  }

  lemma LineStops(w: string, pos: nat, line: string, rest: string)
    requires pos <= |w| && w[pos..] == line + rest && OneLine(line)
    requires rest != "" && (rest[0] == '\n' || rest[0] == 0 as char)
    ensures LineEnd(w, pos) == pos + |line| < |w| && w[pos + |line|..] == rest
  {
    var k := pos + |line|;
    forall j | pos <= j < k ensures !EndsLine(At(w, j)) {
      assert w[j] == w[pos..][j - pos] == line[j - pos];
    }
    assert w[k..] == w[pos..][|line|..] == rest && w[k] == rest[0];
    FirstIs(w, EndsLine, pos, k);
  }

  lemma CreatorIs(w: string, pos: nat, word: string, rest: string)
    requires pos <= |w| && word == "creator="
    ensures var e := LineEnd(w, pos);
            && (NextCreator(w[pos..], rest) <==> Has(w, e + 1, word, true) && e + 9 <= |w| && rest == w[e + 9..])
            && (Has(w, e + 1, word, true) ==> e + 9 <= |w|)
  {
    var e := LineTo(w, pos);
    if Has(w, e + 1, word, true) {
      HasAt(w, e + 1, word, true, 0);
      HasWithin(w, e + 1, word, true);
      HasSpelled(w, e + 1, word);
      if rest == w[e + 9..] {
        CreatorParts(w, pos, e, word);
      }
    }
    if NextCreator(w[pos..], rest) {
      PartsCreator(w, pos, word, rest);
    }
  }

  lemma CreatorParts(w: string, pos: nat, e: nat, word: string)
    requires word == "creator=" && pos <= e && e + 1 + |word| <= |w| && OneLine(w[pos..e]) && EndsLine(w[e])
    requires Spells(w[e + 1..e + 1 + |word|], word)
    ensures NextCreator(w[pos..], w[e + 1 + |word|..])
  {
    var line, c, x, rest := w[pos..e], w[e], w[e + 1..e + 1 + |word|], w[e + 1 + |word|..];
    assert w[pos..] == line + [c] + x + rest;
  }

  lemma PartsCreator(w: string, pos: nat, word: string, rest: string)
    requires word == "creator=" && pos <= |w| && NextCreator(w[pos..], rest)
    ensures var e := LineEnd(w, pos); Has(w, e + 1, word, true) && e + 9 <= |w| && rest == w[e + 9..]
  {
    var line, c: char, x :| w[pos..] == line + [c] + x + rest
                            && OneLine(line) && (c == '\n' || c == 0 as char) && Spells(x, "creator=");
    Assoc(line + [c], x, rest);
    LineOf(w, pos, line, c, x + rest);
    SpelledHere(w, pos + |line| + 1, word, x, rest);
  }

  lemma SpelledHere(w: string, k: nat, word: string, x: string, rest: string)
    requires Word(word, true) && Spells(x, word) && k <= |w| && w[k..] == x + rest
    ensures Has(w, k, word, true) && k + |word| <= |w| && rest == w[k + |word|..]
  {
    assert w[k..k + |word|] == w[k..][..|word|] == x && w[k + |word|..] == w[k..][|word|..] == rest;
    HasSpelled(w, k, word);
  }

  lemma LineOf(w: string, pos: nat, line: string, c: char, more: string)
    requires pos <= |w| && w[pos..] == line + [c] + more && OneLine(line) && EndsLine(c)
    ensures LineEnd(w, pos) == pos + |line| < |w| && w[pos + |line| + 1..] == more
  {
    Assoc(line, [c], more);
    LineStops(w, pos, line, [c] + more);
    assert w[pos + |line| + 1..] == w[pos + |line|..][1..] == more;
  }

  // ----- The formats that are a list of parts

  lemma PartAt(r: seq<string>, parts: seq<Part>, k: nat)
    requires Chain(r, parts) && k < |parts|
    ensures LeadsPart(r[k], parts[k], r[k + 1])
  {
  }

  lemma {:induction false} WordsFollow(w: string, pos: nat, words: seq<string>, parts: seq<Part>)
    requires |words| == |parts| && forall k :: 0 <= k < |words| ==> parts[k] == TheWord(words[k])
    ensures Follow(w, pos, words) <==> AfterAll(w, pos, parts).Some?
    decreases |words|
  {
    if words != [] {
      WordsFollow(w, AfterWS(w, pos) + |words[0]|, words[1..], parts[1..]);
    }
  }

  function SgfList(): (parts: seq<Part>)
    ensures |parts| == 10
  {
    [TheWord("("), TheWord(";"), TheWord("FF"), TheWord("["), TheWord("4"), TheWord("]"),
     TheWord("GM"), TheWord("["), TheWord("6"), TheWord("]")]
  }

  lemma SgfMade(w: string)
    ensures MadeOf(w, SgfList()) ==> SgfText(w)
  {
    if MadeOf(w, SgfList()) {
      var r :| Splits(w, r, 10) && Chain(r, SgfList());
      SgfChain(r, SgfList());
    }
  }

  lemma SgfChain(r: seq<string>, parts: seq<Part>)
    requires parts == SgfList() && Chain(r, parts)
    ensures |r| == 11 && SgfParts(r)
  {
    PartAt(r, parts, 0);
    PartAt(r, parts, 1);
    PartAt(r, parts, 2);
    PartAt(r, parts, 3);
    PartAt(r, parts, 4);
    PartAt(r, parts, 5);
    PartAt(r, parts, 6);
    PartAt(r, parts, 7);
    PartAt(r, parts, 8);
    PartAt(r, parts, 9);
  }

  lemma SgfPartsChain(r: seq<string>)
    requires |r| == 11 && SgfParts(r)
    ensures Chain(r, SgfList())
  {
    forall k | 0 <= k < 10 ensures LeadsPart(r[k], SgfList()[k], r[k + 1]) {
      assert k in {0, 1, 2, 3, 4, 5, 6, 7, 8, 9};
    }
  }

  lemma SgfParted(w: string)
    ensures SgfText(w) ==> MadeOf(w, SgfList())
  {
    if SgfText(w) {
      var r :| Splits(w, r, 10) && SgfParts(r);
      SgfPartsChain(r);
      ChainOf(w, r, SgfList());
    }
  }

  lemma SgfGood()
    ensures GoodParts(SgfList())
    ensures |SgfHeader| == 10 && forall k :: 0 <= k < 10 ==> SgfList()[k] == TheWord(SgfHeader[k])
  {
  }

  lemma SgfExactly(w: string)
    ensures IsSGF(w, 0) <==> SgfText(w)
  {
    SgfGood();
    WordsFollow(w, 0, SgfHeader, SgfList());
    PartsExactly(w, SgfList());
    SgfMade(w);
    SgfParted(w);
  }

  lemma OneAfter(w: string, pos: nat, p: Part, parts: seq<Part>)
    requires parts == [p]
    ensures AfterAll(w, pos, parts) == After(w, pos, p)
  {
    assert parts[1..] == [];
  }

  lemma MoreAfter(w: string, pos: nat, p: Part, rest: seq<Part>, parts: seq<Part>)
    requires parts == [p] + rest
    ensures AfterAll(w, pos, parts) == if After(w, pos, p) == None then None else AfterAll(w, After(w, pos, p).value, rest)
  {
    assert parts[1..] == rest;
  }

  lemma ThreeAfter(w: string, pos: nat, p: Part, q: Part, r: Part, parts: seq<Part>)
    requires parts == [p, q, r]
    ensures AfterAll(w, pos, parts).Some? <==>
            && After(w, pos, p).Some? && After(w, After(w, pos, p).value, q).Some?
            && After(w, After(w, After(w, pos, p).value, q).value, r).Some?
  {
    MoreAfter(w, pos, p, [q, r], parts);
    var a := After(w, pos, p);
    if a.Some? {
      MoreAfter(w, a.value, q, [r], [q, r]);
      var b := After(w, a.value, q);
      if b.Some? {
        OneAfter(w, b.value, r, [r]);
      }
    }
  }

  ghost predicate ThreeParts(s: seq<string>, p: Part, q: Part, r: Part)
    requires |s| == 4
  {
    LeadsPart(s[0], p, s[1]) && LeadsPart(s[1], q, s[2]) && LeadsPart(s[2], r, s[3])
  }

  lemma ThreeChain(s: seq<string>, p: Part, q: Part, r: Part, parts: seq<Part>)
    requires parts == [p, q, r] && |s| == 4
    ensures Chain(s, parts) <==> ThreeParts(s, p, q, r)
  {
    if Chain(s, parts) {
      PartAt(s, parts, 0);
      PartAt(s, parts, 1);
      PartAt(s, parts, 2);
    }
  }

  lemma ThreeMade(w: string, p: Part, q: Part, r: Part, parts: seq<Part>)
    requires parts == [p, q, r]
    ensures MadeOf(w, parts) <==> exists s :: Splits(w, s, 3) && ThreeParts(s, p, q, r)
  {
    if MadeOf(w, parts) {
      var s :| Splits(w, s, 3) && Chain(s, parts);
      ThreeChain(s, p, q, r, parts);
    }
    if exists s :: Splits(w, s, 3) && ThreeParts(s, p, q, r) {
      var s :| Splits(w, s, 3) && ThreeParts(s, p, q, r);
      ThreeChain(s, p, q, r, parts);
      ChainOf(w, s, parts);
    }
  }

  lemma SggExactly(w: string)
    ensures IsSGG(w, 0) <==> SggText(w)
  {
    var vs := TheWord("vs.");
    var parts := [AName, vs, AName];
    PartsExactly(w, parts);
    ThreeAfter(w, 0, AName, vs, AName, parts);
    ThreeMade(w, AName, vs, AName, parts);
  }

  lemma GamExactly(w: string)
    ensures IsGAM(w, 0) <==> GamText(w)
  {
    var one := TheWord("1)");
    var parts := [AName, AName, one];
    PartsExactly(w, parts);
    ThreeAfter(w, 0, AName, AName, one, parts);
    ThreeMade(w, AName, AName, one, parts);
  }

  lemma TwoAfter(w: string, p: Part, q: Part, parts: seq<Part>)
    requires parts == [p, q]
    ensures AfterAll(w, 0, parts).Some? <==> After(w, 0, p).Some? && After(w, After(w, 0, p).value, q).Some?
  {
    MoreAfter(w, 0, p, [q], parts);
    if After(w, 0, p).Some? {
      OneAfter(w, After(w, 0, p).value, q, [q]);
    }
  }

  ghost predicate TwoParts(s: seq<string>, p: Part, q: Part)
    requires |s| == 3
  {
    LeadsPart(s[0], p, s[1]) && LeadsPart(s[1], q, s[2])
  }

  lemma TwoChain(s: seq<string>, p: Part, q: Part, parts: seq<Part>)
    requires parts == [p, q] && |s| == 3
    ensures Chain(s, parts) <==> TwoParts(s, p, q)
  {
    if Chain(s, parts) {
      PartAt(s, parts, 0);
      PartAt(s, parts, 1);
    }
  }

  lemma TwoMade(w: string, p: Part, q: Part, parts: seq<Part>)
    requires parts == [p, q]
    ensures MadeOf(w, parts) <==> exists s :: Splits(w, s, 2) && TwoParts(s, p, q)
  {
    if MadeOf(w, parts) {
      var s :| Splits(w, s, 2) && Chain(s, parts);
      TwoChain(s, p, q, parts);
    }
    if exists s :: Splits(w, s, 2) && TwoParts(s, p, q) {
      var s :| Splits(w, s, 2) && TwoParts(s, p, q);
      TwoChain(s, p, q, parts);
      ChainOf(w, s, parts);
    }
  }

  lemma ParAfter(w: string, id: Part, parts: seq<Part>)
    requires id == Spelled("boardid=") && parts == [id, Creator]
    ensures IsPAR(w, 0) <==> AfterAll(w, 0, parts).Some?
  {
    TwoAfter(w, id, Creator, parts);
  }

  lemma ParMade(w: string, id: Part, parts: seq<Part>)
    requires id == Spelled("boardid=") && parts == [id, Creator]
    ensures MadeOf(w, parts) <==> ParText(w)
  {
    TwoMade(w, id, Creator, parts);
  }

  lemma ParExactly(w: string)
    ensures IsPAR(w, 0) <==> ParText(w)
  {
    var id := Spelled("boardid=");
    var parts := [id, Creator];
    PartsExactly(w, parts);
    ParAfter(w, id, parts);
    ParMade(w, id, parts);
  }

  lemma OneMade(w: string, p: Part, parts: seq<Part>)
    requires parts == [p]
    ensures MadeOf(w, parts) <==> exists s :: Splits(w, s, 1) && LeadsPart(s[0], p, s[1])
  {
    if MadeOf(w, parts) {
      var s :| Splits(w, s, 1) && Chain(s, parts);
      PartAt(s, parts, 0);
    }
    if exists s :: Splits(w, s, 1) && LeadsPart(s[0], p, s[1]) {
      var s :| Splits(w, s, 1) && LeadsPart(s[0], p, s[1]);
      assert Chain(s, parts);
      ChainOf(w, s, parts);
    }
  }

  lemma BgrExactly(w: string)
    ensures IsBGR(w, 0) <==> BgrText(w)
  {
    var version := Spelled("bgf version");
    var parts := [version];
    PartsExactly(w, parts);
    OneAfter(w, 0, version, parts);
    OneMade(w, version, parts);
  }

  lemma FourAfter(w: string, p: Part, q: Part, r: Part, t: Part, parts: seq<Part>)
    requires parts == [p, q, r, t]
    ensures AfterAll(w, 0, parts).Some? <==>
            && After(w, 0, p).Some? && After(w, After(w, 0, p).value, q).Some?
            && After(w, After(w, After(w, 0, p).value, q).value, r).Some?
            && After(w, After(w, After(w, After(w, 0, p).value, q).value, r).value, t).Some?
  {
    MoreAfter(w, 0, p, [q, r, t], parts);
    var a := After(w, 0, p);
    if a.Some? {
      MoreAfter(w, a.value, q, [r, t], [q, r, t]);
      var b := After(w, a.value, q);
      if b.Some? {
        MoreAfter(w, b.value, r, [t], [r, t]);
        var c := After(w, b.value, r);
        if c.Some? {
          OneAfter(w, c.value, t, [t]);
        }
      }
    }
  }

  ghost predicate FourParts(s: seq<string>, p: Part, q: Part, r: Part, t: Part)
    requires |s| == 5
  {
    LeadsPart(s[0], p, s[1]) && LeadsPart(s[1], q, s[2]) && LeadsPart(s[2], r, s[3]) && LeadsPart(s[3], t, s[4])
  }

  lemma FourChain(s: seq<string>, p: Part, q: Part, r: Part, t: Part, parts: seq<Part>)
    requires parts == [p, q, r, t] && |s| == 5
    ensures Chain(s, parts) <==> FourParts(s, p, q, r, t)
  {
    if Chain(s, parts) {
      PartAt(s, parts, 0);
      PartAt(s, parts, 1);
      PartAt(s, parts, 2);
      PartAt(s, parts, 3);
    }
  }

  lemma FourMade(w: string, p: Part, q: Part, r: Part, t: Part, parts: seq<Part>)
    requires parts == [p, q, r, t]
    ensures MadeOf(w, parts) <==> exists s :: Splits(w, s, 4) && FourParts(s, p, q, r, t)
  {
    if MadeOf(w, parts) {
      var s :| Splits(w, s, 4) && Chain(s, parts);
      FourChain(s, p, q, r, t, parts);
    }
    if exists s :: Splits(w, s, 4) && FourParts(s, p, q, r, t) {
      var s :| Splits(w, s, 4) && FourParts(s, p, q, r, t);
      FourChain(s, p, q, r, t, parts);
      ChainOf(w, s, parts);
    }
  }

  lemma TxtExactly(w: string)
    ensures IsTXT(w, 0) <==> TxtText(w)
  {
    var semicolon := Exactly(';');
    var parts := [ANumber, semicolon, ANumber, semicolon];
    PartsExactly(w, parts);
    FourAfter(w, ANumber, semicolon, ANumber, semicolon, parts);
    FourMade(w, ANumber, semicolon, ANumber, semicolon, parts);
  }

  lemma JfpExactly(w: string)
    ensures IsJFP(w) <==> JfpText(w)
  {
  }
}
