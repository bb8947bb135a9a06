/** The growing buffer with its cursor, and the recognisers that use it
    (gnubg/file.c, lines 97 to 465). */
module FileHelper {
  import opened Common
  import opened FileFormats

  const BLOCK_SIZE: nat := 1024
  const MAX_READ_SIZE: nat := 5000

  function Min(a: nat, b: nat): nat {
    if a < b then a else b
  }

  class FileHelper {
    const file: string
    var fpos: nat
    var data: string
    var dataPos: nat

    /** The buffer shows the window on the file. */
    ghost predicate Valid()
      reads this
    {
      && dataPos <= |data|
      && (forall k :: 0 <= k < |data| ==> data[k] == At(Window(file), k))
      && fpos == Min(|data|, |Window(file)|)
      && (|data| <= |Window(file)| ==> |data| % BLOCK_SIZE == 0)
    }

    constructor (file: string)
      ensures Valid() && this.file == file && dataPos == 0
    {
      this.file, fpos, data, dataPos := file, 0, "", 0;
    }

    method Reset()
      requires Valid()
      modifies this`dataPos
      ensures Valid() && dataPos == 0
    {
      dataPos := 0;
    }

    /** fread: as many bytes as there are, up to a block. */
    method Read() returns (s: string)
      requires fpos <= |file|
      modifies this`fpos
      ensures fpos == Min(old(fpos) + BLOCK_SIZE, |file|) && old(fpos) <= fpos <= |file|
      ensures s == file[old(fpos)..fpos]
    {
      var n := Min(fpos + BLOCK_SIZE, |file|);
      s := file[fpos..n];
      fpos := n;
    }

    /** fhDataGetChar: the byte at the cursor is in the buffer. */
    method DataGetChar()
      requires Valid()
      modifies this`data, this`fpos
      ensures Valid() && dataPos < |data|
    {
      if dataPos < |data| {
        return;
      }
      var w := Window(file);
      var s := "";
      if |data| <= MAX_READ_SIZE {
        s := Read();
      }
      if |s| < BLOCK_SIZE {
        s := s + [NUL];
      }
      forall k | |data| <= k < |data| + |s| ensures (data + s)[k] == At(w, k) {
        assert (data + s)[k] == s[k - |data|];
      }
      data := data + s;
    }

    method PeekNextChar() returns (c: char)
      requires Valid()
      modifies this`data, this`fpos
      ensures Valid() && c == At(Window(file), dataPos)
    {
      DataGetChar();
      c := data[dataPos];
    }

    method ReadNextChar() returns (c: char)
      requires Valid()
      modifies this
      ensures Valid() && c == At(Window(file), old(dataPos)) && dataPos == old(dataPos) + 1
    {
      DataGetChar();
      c := data[dataPos];
      dataPos := dataPos + 1;
    }

    method PeekNextIsWS() returns (b: bool)
      requires Valid()
      modifies this`data, this`fpos
      ensures Valid() && b == IsWS(At(Window(file), dataPos))
    {
      var c := PeekNextChar();
      b := c == ' ' || c == '\t' || c == '\r' || c == '\n';
    }

    method SkipWS()
      requires Valid()
      modifies this
      ensures Valid() && dataPos == AfterWS(Window(file), old(dataPos))
    {
      ghost var w, start := Window(file), dataPos;
      var ws := PeekNextIsWS();
      while ws
        invariant Valid() && start <= dataPos && ws == IsWS(At(w, dataPos))
        invariant forall k :: start <= k < dataPos ==> IsWS(At(w, k))
        decreases if dataPos < |w| then |w| - dataPos else 0, ws
      {
        var c := ReadNextChar();
        ws := PeekNextIsWS();
      }
      FirstIs(w, NotWS, start, dataPos);
    }

    method SkipToEOL() returns (more: bool)
      requires Valid()
      modifies this
      ensures Valid()
      ensures var e := LineEnd(Window(file), old(dataPos));
              dataPos == e + 1 && more == (At(Window(file), e) == '\n')
    {
      ghost var w, start := Window(file), dataPos;
      while true
        invariant Valid() && start <= dataPos
        invariant forall k :: start <= k < dataPos ==> !EndsLine(At(w, k))
        decreases if dataPos < |w| then |w| - dataPos else 0
      {
        var c := ReadNextChar();
        if c == '\n' || c == NUL {
          FirstIs(w, EndsLine, start, dataPos - 1);
          return c == '\n';
        }
      }
    }

    /** fhReadString, and fhReadStringNC for words in lower case. */
    method ReadString(word: string, nc: bool) returns (b: bool)
      requires Valid()
      modifies this
      ensures Valid()
      ensures b == Has(Window(file), old(dataPos), word, nc)
      ensures b ==> dataPos == old(dataPos) + |word|
      ensures old(dataPos) <= dataPos
    {
      ghost var w, start := Window(file), dataPos;
      var i := 0;
      while i < |word|
        invariant Valid() && 0 <= i <= |word| && dataPos == start + i
        invariant forall k :: 0 <= k < i ==> Folded(nc, At(w, start + k)) == word[k]
      {
        var c := ReadNextChar();
        if Folded(nc, c) != word[i] {
          assert Folded(nc, At(w, start + i)) != word[i];
          return false;
        }
        i := i + 1;
      }
      b := true;
    }

    method PeekStringNC(word: string) returns (b: bool)
      requires Valid()
      modifies this
      ensures Valid() && dataPos == old(dataPos)
      ensures b == Has(Window(file), dataPos, word, true)
    {
      var pos := dataPos;
      b := ReadString(word, true);
      dataPos := pos;
    }

    method ReadNumber() returns (any: bool)
      requires Valid()
      modifies this
      ensures Valid() && dataPos == AfterNumber(Window(file), old(dataPos))
      ensures any == NumberAt(Window(file), old(dataPos))
    {
      ghost var w, start := Window(file), dataPos;
      any := false;
      while true
        invariant Valid() && start <= dataPos && any == (start < dataPos)
        invariant forall k :: start <= k < dataPos ==> IsDigit(At(w, k))
        decreases if dataPos < |w| then |w| - dataPos else 0
      {
        var c := PeekNextChar();
        if !IsDigit(c) {
          FirstIs(w, NotDigit, start, dataPos);
          return;
        }
        any := true;
        c := ReadNextChar();
      }
    }

    method ReadAnyAlphNumString() returns (b: bool)
      requires Valid()
      modifies this
      ensures Valid() && dataPos == AfterNameRead(Window(file), old(dataPos))
      ensures b == NameAt(Window(file), old(dataPos))
    {
      ghost var w, start := Window(file), dataPos;
      var c := PeekNextChar();
      if !IsAlnum(c) {
        return false;
      }
      while true
        invariant Valid() && start <= dataPos
        invariant forall k :: start <= k < dataPos ==> !NotName(At(w, k))
        decreases if dataPos < |w| then |w| - dataPos else 0
      {
        c := PeekNextChar();
        if !IsAlnum(c) && c != '_' {
          FirstIs(w, NotName, start, dataPos);
          b := PeekNextIsWS();
          return;
        }
        c := ReadNextChar();
      }
    }

    // ----- The recognisers

    method IsSGFFile() returns (b: bool)
      requires Valid()
      modifies this
      ensures Valid() && b == IsSGF(Window(file), 0)
    {
      Reset();
      ghost var start := dataPos;
      var elements := SgfHeader;
      while |elements| > 0
        invariant Valid()
        invariant Follow(Window(file), start, SgfHeader) == Follow(Window(file), dataPos, elements)
        decreases |elements|
      {
        SkipWS();
        var ok := ReadString(elements[0], false);
        if !ok {
          return false;
        }
        elements := elements[1..];
      }
      b := true;
    }

    method IsSGGFile() returns (b: bool)
      requires Valid()
      modifies this
      ensures Valid() && b == IsSGG(Window(file), 0)
    {
      Reset();
      SkipWS();
      b := ReadAnyAlphNumString();
      if b {
        SkipWS();
        b := ReadString("vs.", false);
        if !b {
          return;
        }
        SkipWS();
        b := ReadAnyAlphNumString();
      }
    }

    method IsTXTFile() returns (b: bool)
      requires Valid()
      modifies this
      ensures Valid() && b == IsTXT(Window(file), 0)
    {
      Reset();
      SkipWS();
      b := ReadNumber();
      if b {
        var c := ReadNextChar();
        b := c == ';';
        if b {
          SkipWS();
          b := ReadNumber();
          if b {
            c := ReadNextChar();
            b := c == ';';
          }
        }
      }
    }

    /** The rest of a line of a match file, after a number was found. */
    method ReadMatLength() returns (b: bool)
      requires Valid() && NumberAt(Window(file), dataPos)
      modifies this
      ensures Valid() && b == MatLength(Window(file), old(dataPos))
    {
      b := ReadNumber();
      SkipWS();
      b := ReadString("point", true);
      if b {
        SkipWS();
        b := ReadString("match", true);
      }
    }

    /** The start of a comment, up to its bracket. */
    method ReadComment() returns (b: bool)
      requires Valid()
      modifies this
      ensures Valid()
      ensures b == (At(Window(file), old(dataPos) + 1) == ' ' && At(Window(file), old(dataPos) + 2) == '[')
      ensures dataPos == old(dataPos) + if At(Window(file), old(dataPos) + 1) == ' ' then 3 else 2
    {
      b := false;
      var c := ReadNextChar();
      c := ReadNextChar();
      if c == ' ' {
        c := ReadNextChar();
        b := c == '[';
      }
    }

    /** One line of a match file: done when it decides. */
    method ReadMatLine() returns (done: bool, b: bool)
      requires Valid()
      modifies this
      ensures Valid()
      ensures IsMAT(Window(file), old(dataPos)) == if done then b else IsMAT(Window(file), dataPos)
      ensures !done ==> old(dataPos) < dataPos <= |Window(file)|
    {
      SkipWS();
      var c := PeekNextChar();
      if c == ';' {
        var comment := ReadComment();
        if comment {
          return true, true;
        }
      } else if IsDigit(c) {
        b := ReadMatLength();
        return true, b;
      }
      var more := SkipToEOL();
      return !more, false;
    }

    method IsMATFile() returns (b: bool)
      requires Valid()
      modifies this
      ensures Valid() && b == IsMAT(Window(file), 0)
    {
      Reset();
      ghost var w, start := Window(file), dataPos;
      var done := false;
      b := false;
      while !done
        invariant Valid() && IsMAT(w, start) == if done then b else IsMAT(w, dataPos)
        decreases !done, if dataPos < |w| then |w| - dataPos else 0
      {
        done, b := ReadMatLine();
      }
    }

    /** One line of a money game file. */
    method ReadTmgLine() returns (done: bool, b: bool)
      requires Valid()
      modifies this
      ensures Valid()
      ensures IsTMG(Window(file), old(dataPos)) == if done then b else IsTMG(Window(file), dataPos)
      ensures !done ==> old(dataPos) < dataPos <= |Window(file)|
    {
      SkipWS();
      var game := PeekStringNC("game");
      if game {
        game := ReadString("game", true);
        SkipWS();
        b := ReadNumber();
        if b {
          var c := PeekNextChar();
          b := c == ':';
        }
        return true, b;
      }
      var name := ReadAnyAlphNumString();
      var c := PeekNextChar();
      if c != ':' {
        return true, false;
      }
      var more := SkipToEOL();
      return !more, false;
    }

    method IsTMGFile() returns (b: bool)
      requires Valid()
      modifies this
      ensures Valid() && b == IsTMG(Window(file), 0)
    {
      Reset();
      ghost var w, start := Window(file), dataPos;
      var done := false;
      b := false;
      while !done
        invariant Valid() && IsTMG(w, start) == if done then b else IsTMG(w, dataPos)
        decreases !done, if dataPos < |w| then |w| - dataPos else 0
      {
        done, b := ReadTmgLine();
      }
    }

    method IsJFPFile() returns (b: bool)
      requires Valid()
      modifies this
      ensures Valid() && b == IsJFP(Window(file))
    {
      Reset();
      var firstbyte := ReadNextChar();
      if firstbyte < 124 as char || firstbyte > 126 as char {
        return false;
      }
      var c := ReadNextChar();
      b := c == NUL;
    }

    method IsGAMFile() returns (b: bool)
      requires Valid()
      modifies this
      ensures Valid() && b == IsGAM(Window(file), 0)
    {
      Reset();
      SkipWS();
      b := ReadAnyAlphNumString();
      if b {
        SkipWS();
        b := ReadAnyAlphNumString();
        if b {
          SkipWS();
          b := ReadString("1)", false);
        }
      }
    }

    method IsPARFile() returns (b: bool)
      requires Valid()
      modifies this
      ensures Valid() && b == IsPAR(Window(file), 0)
    {
      Reset();
      SkipWS();
      b := ReadString("boardid=", true);
      if b {
        var more := SkipToEOL();
        b := ReadString("creator=", true);
      }
    }

    /** The warning about an unexpected version is left out. */
    method IsBGRFile() returns (b: bool)
      requires Valid()
      modifies this
      ensures Valid() && b == IsBGR(Window(file), 0)
    {
      Reset();
      SkipWS();
      b := ReadString("bgf version", true);
      if b {
        SkipWS();
        var version := ReadString("1.2", false);
      }
    }
  }

  /** ReadFilePreview on a file that could be opened. */
  method ReadFilePreview(file: string) returns (t: ImportType)
    ensures t == Preview(Window(file))
  {
    var fh := new FileHelper(file);
    var found := fh.IsSGFFile();
    if found { return IMPORT_SGF; }
    found := fh.IsSGGFile();
    if found { return IMPORT_SGG; }
    found := fh.IsTXTFile();
    if found { return IMPORT_SNOWIETXT; }
    found := fh.IsTMGFile();
    if found { return IMPORT_TMG; }
    found := fh.IsMATFile();
    if found { return IMPORT_MAT; }
    found := fh.IsJFPFile();
    if found { return IMPORT_POS; }
    found := fh.IsGAMFile();
    if found { return IMPORT_EMPIRE; }
    found := fh.IsPARFile();
    if found { return IMPORT_PARTY; }
    found := fh.IsBGRFile();
    if found { return IMPORT_BGROOM; }
    t := N_IMPORT_TYPES;
  }
}
