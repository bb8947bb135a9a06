/** What the recognisers of file formats accept, as predicates on the bytes that
    they can see (gnubg/file.c, lines 133 to 465). */
module FileFormats {
  import opened Common

  // ----- The window on the file

  const MAX_VISIBLE: nat := 5120

  /** The bytes that are ever looked at. */
  function Window(file: string): string {
    if |file| <= MAX_VISIBLE then file else file[..MAX_VISIBLE]
  }

  /** The byte at a position; past the end there are only terminators. */
  function At(w: string, k: nat): char {
    if k < |w| then w[k] else NUL
  }

  // ----- Kinds of characters

  predicate IsWS(c: char) {
    c == ' ' || c == '\t' || c == '\r' || c == '\n'
  }

  predicate NotWS(c: char) {
    !IsWS(c)
  }

  predicate NotDigit(c: char) {
    !IsDigit(c)
  }

  predicate IsAlnum(c: char) {
    IsDigit(c) || 'a' <= c <= 'z' || 'A' <= c <= 'Z'
  }

  predicate NotName(c: char) {
    !IsAlnum(c) && c != '_'
  }

  predicate EndsLine(c: char) {
    c == '\n' || c == NUL
  }

  function Lower(c: char): char {
    if 'A' <= c <= 'Z' then c + 32 as char else c
  }

  // ----- Scanning

  /** The first position, from pos on, whose byte stops the scan. */
  function First(w: string, stop: char -> bool, pos: nat): (k: nat)
    requires stop(NUL)
    ensures pos <= k
    decreases if pos < |w| then |w| - pos else 0
  {
    if stop(At(w, pos)) then pos else First(w, stop, pos + 1)
  }

  lemma {:induction false} FirstStops(w: string, stop: char -> bool, pos: nat)
    requires stop(NUL)
    ensures var k := First(w, stop, pos); stop(At(w, k)) && forall j :: pos <= j < k ==> !stop(At(w, j))
    decreases if pos < |w| then |w| - pos else 0
  {
    if !stop(At(w, pos)) {
      FirstStops(w, stop, pos + 1);
    }
  }

  lemma FirstIs(w: string, stop: char -> bool, pos: nat, k: nat)
    requires stop(NUL) && pos <= k && stop(At(w, k)) && forall j :: pos <= j < k ==> !stop(At(w, j))
    ensures First(w, stop, pos) == k
  {
    FirstStops(w, stop, pos);
    var f := First(w, stop, pos);
    assert !(f < k) && !(k < f);
  }

  function AfterWS(w: string, pos: nat): nat {
    First(w, NotWS, pos)
  }

  function AfterNumber(w: string, pos: nat): nat {
    First(w, NotDigit, pos)
  }

  function AfterName(w: string, pos: nat): nat {
    First(w, NotName, pos)
  }

  function LineEnd(w: string, pos: nat): nat {
    First(w, EndsLine, pos)
  }

  function Folded(nc: bool, c: char): char {
    if nc then Lower(c) else c
  }

  /** The word is there; its case is ignored when the word is in lower case. */
  predicate Has(w: string, pos: nat, word: string, nc: bool) {
    forall k :: 0 <= k < |word| ==> Folded(nc, At(w, pos + k)) == word[k]
  }

  lemma HasAt(w: string, p: nat, word: string, nc: bool, k: nat)
    requires Has(w, p, word, nc) && k < |word|
    ensures Folded(nc, At(w, p + k)) == word[k]
  {
  }

  /** A name: letters, digits and underscores, the first no underscore, with a
      blank after it. */
  predicate NameAt(w: string, pos: nat) {
    IsAlnum(At(w, pos)) && IsWS(At(w, AfterName(w, pos)))
  }

  /** Where reading a name stops. */
  function AfterNameRead(w: string, pos: nat): nat {
    if IsAlnum(At(w, pos)) then AfterName(w, pos) else pos
  }

  predicate NumberAt(w: string, pos: nat) {
    IsDigit(At(w, pos))
  }

  // ----- The formats

  predicate Follow(w: string, pos: nat, words: seq<string>)
    decreases |words|
  {
    if words == [] then true
    else
      var p := AfterWS(w, pos);
      Has(w, p, words[0], false) && Follow(w, p + |words[0]|, words[1..])
  }

  const SgfHeader: seq<string> := ["(", ";", "FF", "[", "4", "]", "GM", "[", "6", "]"]

  predicate IsSGF(w: string, start: nat) {
    Follow(w, start, SgfHeader)
  }

  predicate IsSGG(w: string, start: nat) {
    var p := AfterWS(w, start);
    && NameAt(w, p)
    && var q := AfterWS(w, AfterName(w, p));
       Has(w, q, "vs.", false) && NameAt(w, AfterWS(w, q + 3))
  }

  predicate IsTXT(w: string, start: nat) {
    var p := AfterWS(w, start);
    var q := AfterNumber(w, p);
    var t := AfterWS(w, q + 1);
    NumberAt(w, p) && At(w, q) == ';' && NumberAt(w, t) && At(w, AfterNumber(w, t)) == ';'
  }

  predicate MatLength(w: string, p: nat) {
    var q := AfterWS(w, AfterNumber(w, p));
    Has(w, q, "point", true) && Has(w, AfterWS(w, q + 5), "match", true)
  }

  /** Line after line, until one says what the file is. */
  predicate IsMAT(w: string, start: nat)
    decreases if start < |w| then |w| - start else 0
  {
    var p := AfterWS(w, start);
    var c := At(w, p);
    if c == ';' && At(w, p + 1) == ' ' && At(w, p + 2) == '[' then true
    else if IsDigit(c) then MatLength(w, p)
    else
      var e := LineEnd(w, if c != ';' then p else if At(w, p + 1) == ' ' then p + 3 else p + 2);
      At(w, e) == '\n' && IsMAT(w, e + 1)
  }

  predicate IsTMG(w: string, start: nat)
    decreases if start < |w| then |w| - start else 0
  {
    var p := AfterWS(w, start);
    if Has(w, p, "game", true) then
      var q := AfterWS(w, p + 4);
      NumberAt(w, q) && At(w, AfterNumber(w, q)) == ':'
    else
      var q := AfterNameRead(w, p);
      && At(w, q) == ':'
      && var e := LineEnd(w, q);
         At(w, e) == '\n' && IsTMG(w, e + 1)
  }

  predicate IsJFP(w: string) {
    124 as char <= At(w, 0) <= 126 as char && At(w, 1) == NUL
  }

  predicate IsGAM(w: string, start: nat) {
    var p := AfterWS(w, start);
    && NameAt(w, p)
    && var q := AfterWS(w, AfterName(w, p));
       NameAt(w, q) && Has(w, AfterWS(w, AfterName(w, q)), "1)", false)
  }

  predicate IsPAR(w: string, start: nat) {
    var p := AfterWS(w, start);
    && Has(w, p, "boardid=", true)
    && Has(w, LineEnd(w, p + 8) + 1, "creator=", true)
  }

  predicate IsBGR(w: string, start: nat) {
    Has(w, AfterWS(w, start), "bgf version", true)
  }

  datatype ImportType = IMPORT_SGF | IMPORT_SGG | IMPORT_MAT | IMPORT_POS | IMPORT_SNOWIETXT | IMPORT_TMG
                      | IMPORT_EMPIRE | IMPORT_PARTY | IMPORT_BGROOM | N_IMPORT_TYPES

  function Preview(w: string): ImportType {
    if IsSGF(w, 0) then IMPORT_SGF
    else if IsSGG(w, 0) then IMPORT_SGG
    else if IsTXT(w, 0) then IMPORT_SNOWIETXT
    else if IsTMG(w, 0) then IMPORT_TMG
    else if IsMAT(w, 0) then IMPORT_MAT
    else if IsJFP(w) then IMPORT_POS
    else if IsGAM(w, 0) then IMPORT_EMPIRE
    else if IsPAR(w, 0) then IMPORT_PARTY
    else if IsBGR(w, 0) then IMPORT_BGROOM
    else N_IMPORT_TYPES
  }
}
