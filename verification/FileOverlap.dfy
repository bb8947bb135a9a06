/** Which recognisers can accept the same file, so that their order matters
    (gnubg/file.c, lines 269 to 465). */
module FileOverlap {
  import opened Common
  import opened FileFormats

  lemma NameEnds(w: string, p: nat, k: nat)
    requires p <= k && NotName(At(w, k)) && forall j :: p <= j < k ==> !NotName(At(w, j))
    ensures AfterName(w, p) == k
  {
    FirstIs(w, NotName, p, k);
  }

  lemma NoBlank(w: string, p: nat)
    requires !IsWS(At(w, p))
    ensures AfterWS(w, p) == p
  {
  }

  lemma DigitsEnd(w: string, p: nat)
    ensures var q := AfterNumber(w, p); !IsDigit(At(w, q)) && forall j :: p <= j < q ==> IsDigit(At(w, j))
  {
    FirstStops(w, NotDigit, p);
  }

  /** After a number, a character that no name has ends the name as well. */
  lemma NumberAsName(w: string, p: nat)
    requires NotName(At(w, AfterNumber(w, p)))
    ensures AfterName(w, p) == AfterNumber(w, p)
  {
    DigitsEnd(w, p);
    NameEnds(w, p, AfterNumber(w, p));
  }

  /** What a file whose first word is a name of these letters looks like. */
  lemma LettersAt(w: string, p: nat, word: string, n: nat)
    requires Has(w, p, word, true) && n < |word|
    requires forall k :: 0 <= k < n ==> 'a' <= word[k] <= 'z'
    requires word[n] == '=' || word[n] == ' '
    ensures At(w, p + n) == word[n] && AfterName(w, p) == p + n
  {
    forall j | p <= j < p + n ensures !NotName(At(w, j)) {
      HasAt(w, p, word, true, j - p);
    }
    HasAt(w, p, word, true, n);
    NameEnds(w, p, p + n);
  }

  lemma JfpAlone(w: string)
    requires IsJFP(w)
    ensures !IsSGF(w, 0) && !IsSGG(w, 0) && !IsTXT(w, 0) && !IsTMG(w, 0) && !IsMAT(w, 0) && !IsGAM(w, 0) && !IsPAR(w, 0)
            && !IsBGR(w, 0)
  {
    var p: nat :| p == 0;
    NoBlank(w, p);
    FirstIs(w, EndsLine, p, p + 1);
    NotFirst(w, p);
  }

  /** Formats whose first character is another one. */
  lemma NotFirst(w: string, p: nat)
    requires AfterWS(w, 0) == p
    ensures Lower(At(w, p)) != 'b' ==> !IsPAR(w, 0) && !IsBGR(w, 0)
    ensures At(w, p) != '(' ==> !IsSGF(w, 0)
    ensures Lower(At(w, p)) != 'g' ==> !Has(w, p, "game", true)
  {
    if Has(w, p, "boardid=", true) {
      HasAt(w, p, "boardid=", true, 0);
    }
    if Has(w, p, "bgf version", true) {
      HasAt(w, p, "bgf version", true, 0);
    }
    if Has(w, p, "game", true) {
      HasAt(w, p, "game", true, 0);
    }
    if IsSGF(w, 0) {
      assert Has(w, p, SgfHeader[0], false);
      HasAt(w, p, SgfHeader[0], false, 0);
    }
  }

  lemma SgfAlone(w: string)
    requires IsSGF(w, 0)
    ensures !IsSGG(w, 0) && !IsTXT(w, 0) && !IsTMG(w, 0) && !IsGAM(w, 0) && !IsPAR(w, 0) && !IsBGR(w, 0)
  {
    NotFirst(w, AfterWS(w, 0));
  }

  lemma TxtAlone(w: string)
    requires IsTXT(w, 0)
    ensures !IsSGG(w, 0) && !IsTMG(w, 0) && !IsMAT(w, 0) && !IsGAM(w, 0) && !IsPAR(w, 0) && !IsBGR(w, 0)
  {
    var p := AfterWS(w, 0);
    NotFirst(w, p);
    NumberAsName(w, p);
    NoBlank(w, AfterNumber(w, p));
    if Has(w, AfterNumber(w, p), "point", true) {
      HasAt(w, AfterNumber(w, p), "point", true, 0);
    }
  }

  /** A line of a money game that names the game is no list of names. */
  lemma GameLine(w: string, p: nat)
    requires Has(w, p, "game", true)
    requires var q := AfterWS(w, p + 4); NumberAt(w, q) && At(w, AfterNumber(w, q)) == ':'
    ensures NameAt(w, p) ==>
              var q := AfterWS(w, AfterName(w, p));
              NumberAt(w, q) && !NameAt(w, q)
  {
    forall j | p <= j < p + 4 ensures !NotName(At(w, j)) {
      HasAt(w, p, "game", true, j - p);
    }
    var q := AfterWS(w, p + 4);
    NumberAsName(w, q);
    if IsWS(At(w, p + 4)) {
      NameEnds(w, p, p + 4);
    } else {
      NoBlank(w, p + 4);
      DigitsEnd(w, q);
      NameEnds(w, p, AfterNumber(w, q));
    }
  }

  lemma TmgAlone(w: string)
    requires IsTMG(w, 0)
    ensures !IsSGG(w, 0) && !IsGAM(w, 0) && !IsPAR(w, 0) && !IsBGR(w, 0)
  {
    var p := AfterWS(w, 0);
    if Has(w, p, "game", true) {
      HasAt(w, p, "game", true, 0);
      NotFirst(w, p);
      GameLine(w, p);
      if NameAt(w, p) && Has(w, AfterWS(w, AfterName(w, p)), "vs.", false) {
        HasAt(w, AfterWS(w, AfterName(w, p)), "vs.", false, 0);
      }
    } else {
      FirstLetters(w, p);
    }
  }

  /** The first word of the two formats that start with a fixed text. */
  lemma FirstLetters(w: string, p: nat)
    requires AfterWS(w, 0) == p
    ensures IsPAR(w, 0) ==> AfterName(w, p) == p + 7 && At(w, p + 7) == '='
    ensures IsBGR(w, 0) ==> AfterName(w, p) == p + 3 && At(w, p + 3) == ' '
  {
    if IsPAR(w, 0) {
      LettersAt(w, p, "boardid=", 7);
    }
    if IsBGR(w, 0) {
      LettersAt(w, p, "bgf version", 3);
    }
  }

  /** After the first word of a room file comes the word version. */
  lemma VersionNext(w: string, p: nat)
    requires Has(w, p, "bgf version", true) && At(w, p + 3) == ' '
    ensures AfterWS(w, p + 3) == p + 4 && !Has(w, p + 4, "vs.", false)
  {
    HasAt(w, p, "bgf version", true, 4);
    HasAt(w, p, "bgf version", true, 5);
    FirstIs(w, NotWS, p + 3, p + 4);
    if Has(w, p + 4, "vs.", false) {
      HasAt(w, p + 4, "vs.", false, 1);
    }
  }

  lemma SggAlone(w: string)
    requires IsSGG(w, 0)
    ensures !IsGAM(w, 0) && !IsPAR(w, 0) && !IsBGR(w, 0)
  {
    var p := AfterWS(w, 0);
    var q := AfterWS(w, AfterName(w, p));
    FirstLetters(w, p);
    if IsBGR(w, 0) {
      VersionNext(w, p);
    }
    HasAt(w, q, "vs.", false, 0);
    HasAt(w, q, "vs.", false, 1);
    HasAt(w, q, "vs.", false, 2);
    NameEnds(w, q, q + 2);
  }

  lemma ParAlone(w: string)
    requires IsPAR(w, 0)
    ensures !IsGAM(w, 0) && !IsBGR(w, 0)
  {
    FirstLetters(w, AfterWS(w, 0));
  }

  predicate Accepts(t: ImportType, w: string) {
    match t
    case IMPORT_SGF => IsSGF(w, 0)
    case IMPORT_SGG => IsSGG(w, 0)
    case IMPORT_SNOWIETXT => IsTXT(w, 0)
    case IMPORT_TMG => IsTMG(w, 0)
    case IMPORT_MAT => IsMAT(w, 0)
    case IMPORT_POS => IsJFP(w)
    case IMPORT_EMPIRE => IsGAM(w, 0)
    case IMPORT_PARTY => IsPAR(w, 0)
    case IMPORT_BGROOM => IsBGR(w, 0)
    case N_IMPORT_TYPES => false
  }

  /** Two recognisers that accept the same file are the one for matches and one
      of six others, or the last two with free text in their first line. */
  lemma OnlyOverlaps(t: ImportType, u: ImportType, w: string)
    requires Accepts(t, w) && Accepts(u, w) && t != u
    ensures (t == IMPORT_MAT && u !in {IMPORT_SNOWIETXT, IMPORT_POS})
         || (u == IMPORT_MAT && t !in {IMPORT_SNOWIETXT, IMPORT_POS})
         || {t, u} == {IMPORT_EMPIRE, IMPORT_BGROOM}
  {
    Alone(w);
  }

  lemma Alone(w: string)
    ensures IsJFP(w) ==> !IsSGF(w, 0) && !IsSGG(w, 0) && !IsTXT(w, 0) && !IsTMG(w, 0) && !IsMAT(w, 0) && !IsGAM(w, 0)
                         && !IsPAR(w, 0) && !IsBGR(w, 0)
    ensures IsSGF(w, 0) ==> !IsSGG(w, 0) && !IsTXT(w, 0) && !IsTMG(w, 0) && !IsGAM(w, 0) && !IsPAR(w, 0) && !IsBGR(w, 0)
    ensures IsTXT(w, 0) ==> !IsSGG(w, 0) && !IsTMG(w, 0) && !IsMAT(w, 0) && !IsGAM(w, 0) && !IsPAR(w, 0) && !IsBGR(w, 0)
    ensures IsTMG(w, 0) ==> !IsSGG(w, 0) && !IsGAM(w, 0) && !IsPAR(w, 0) && !IsBGR(w, 0)
    ensures IsSGG(w, 0) ==> !IsGAM(w, 0) && !IsPAR(w, 0) && !IsBGR(w, 0)
    ensures IsPAR(w, 0) ==> !IsGAM(w, 0) && !IsBGR(w, 0)
  {
    if IsJFP(w) { JfpAlone(w); }
    if IsSGF(w, 0) { SgfAlone(w); }
    if IsTXT(w, 0) { TxtAlone(w); }
    if IsTMG(w, 0) { TmgAlone(w); }
    if IsSGG(w, 0) { SggAlone(w); }
    if IsPAR(w, 0) { ParAlone(w); }
  }

  /** The preview gives a format whose recogniser accepts the file, when there is
      one; it is the only one unless the file could also be a match, or is both a
      game and a room file. */
  lemma PreviewAccepts(w: string)
    ensures var t := Preview(w);
            && (t != N_IMPORT_TYPES <==> exists u :: Accepts(u, w))
            && (t != N_IMPORT_TYPES ==> Accepts(t, w))
            && (t == IMPORT_MAT ==> forall u :: Accepts(u, w) && u != t ==> u in {IMPORT_EMPIRE, IMPORT_PARTY, IMPORT_BGROOM})
            && (t != IMPORT_MAT ==> forall u :: Accepts(u, w) && u != t ==>
                  u == IMPORT_MAT || (t == IMPORT_EMPIRE && u == IMPORT_BGROOM))
  {
    var t := Preview(w);
    if t != N_IMPORT_TYPES {
      assert Accepts(t, w);
      forall u | Accepts(u, w) && u != t
        ensures t == IMPORT_MAT || u == IMPORT_MAT || {t, u} == {IMPORT_EMPIRE, IMPORT_BGROOM}
        ensures t == IMPORT_MAT ==> u in {IMPORT_EMPIRE, IMPORT_PARTY, IMPORT_BGROOM} {
        OnlyOverlaps(t, u, w);
      }
    }
  }
}
