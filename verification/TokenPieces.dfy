/** What a token is made of: characters, characters after a backslash, and quotes
    (gnubg/gnubg.c, lines 678 to 742). */
module TokenPieces {
  import opened Tokenizer

  datatype Piece = Plain(c: char) | Escape(c: char) | Quote {
    function Text(): string {
      match this
      case Plain(c) => [c]
      case Escape(c) => ['\\', c]
      case Quote => ['"']
    }

    function Letters(): string {
      match this
      case Plain(c) => [c]
      case Escape(c) => [c]
      case Quote => ""
    }
  }

  function Text(ps: seq<Piece>): string {
    if ps == [] then "" else ps[0].Text() + Text(ps[1..])
  }

  function Letters(ps: seq<Piece>): string {
    if ps == [] then "" else ps[0].Letters() + Letters(ps[1..])
  }

  /** A quote opens or closes; quoted says whether one is open at the start. */
  function Open(ps: seq<Piece>, quoted: bool): bool {
    if ps == [] then quoted else Open(ps[1..], if ps[0].Quote? then !quoted else quoted)
  }

  /** A character of its own is no quote and no backslash, and it ends no token unless a
      quote is open. */
  ghost predicate Within(ps: seq<Piece>, terms: string, quoted: bool) {
    ps == [] || (
      && (ps[0].Plain? ==> ps[0].c != '"' && ps[0].c != '\\' && (ps[0].c in terms ==> quoted))
      && Within(ps[1..], terms, if ps[0].Quote? then !quoted else quoted))
  }

  /** A token ends at the end of the text, at a backslash there, or at a terminator where no
      quote is open. */
  ghost predicate Ending(rest: string, terms: string, open: bool) {
    rest == "" || rest == "\\" || (rest[0] in terms && !open)
  }

  lemma Uncat(x: string, y: string, z: string)
    ensures x + y + z == x + (y + z)
  {
  }

  lemma OnePiece(p: Piece, s: string, terms: string, quoted: bool)
    requires '"' !in terms && '\\' !in terms
    requires p.Plain? ==> p.c != '"' && p.c != '\\' && (p.c in terms ==> quoted)
    ensures var r := Scan(s, terms, if p.Quote? then !quoted else quoted);
      Scan(p.Text() + s, terms, quoted) == (p.Letters() + r.0, r.1)
  {
    var t := p.Text() + s;
    assert t[|p.Text()|..] == s;
    var r := Scan(s, terms, if p.Quote? then !quoted else quoted);
    assert "" + r.0 == r.0;
  }

  lemma EndRead(rest: string, terms: string, quoted: bool)
    requires '"' !in terms && '\\' !in terms && Ending(rest, terms, quoted)
    ensures Scan(rest, terms, quoted) == if rest == "" || rest == "\\" then (rest, "") else ("", rest[1..])
  {
  }

  /** Pieces are read as their letters, up to the end of the token; a backslash at the end
      of the text stands for itself, and a terminator is dropped. */
  lemma {:induction false} PiecesRead(ps: seq<Piece>, rest: string, terms: string, quoted: bool)
    requires '"' !in terms && '\\' !in terms
    requires Within(ps, terms, quoted) && Ending(rest, terms, Open(ps, quoted))
    ensures Scan(Text(ps) + rest, terms, quoted)
         == if rest == "" || rest == "\\" then (Letters(ps) + rest, "") else (Letters(ps), rest[1..])
  {
    if ps == [] {
      assert Text(ps) + rest == rest && Letters(ps) + rest == rest;
      EndRead(rest, terms, quoted);
    } else {
      PiecesRead(ps[1..], rest, terms, if ps[0].Quote? then !quoted else quoted);
      OnePiece(ps[0], Text(ps[1..]) + rest, terms, quoted);
      Uncat(ps[0].Text(), Text(ps[1..]), rest);
      Uncat(ps[0].Letters(), Letters(ps[1..]), rest);
    }
  }

  lemma PieceAhead(p: Piece, ps: seq<Piece>, rest: string)
    ensures Text([p] + ps) + rest == p.Text() + (Text(ps) + rest)
  {
    assert ([p] + ps)[1..] == ps;
    Uncat(p.Text(), Text(ps), rest);
  }

  lemma FirstPiece(s: string, terms: string, quoted: bool) returns (p: Piece, t: string)
    requires !Ending(s, terms, quoted)
    ensures s == p.Text() + t && |t| < |s|
    ensures p.Plain? ==> p.c != '"' && p.c != '\\' && (p.c in terms ==> quoted)
  {
    if s[0] == '"' {
      p, t := Quote, s[1..];
    } else if s[0] == '\\' {
      p, t := Escape(s[1]), s[2..];
    } else {
      p, t := Plain(s[0]), s[1..];
    }
  }

  /** Every text starts with pieces and goes on with an end. */
  lemma {:induction false} EveryText(s: string, terms: string, quoted: bool) returns (ps: seq<Piece>, rest: string)
    ensures s == Text(ps) + rest && Within(ps, terms, quoted) && Ending(rest, terms, Open(ps, quoted))
    decreases |s|
  {
    if Ending(s, terms, quoted) {
      ps, rest := [], s;
    } else {
      var p, t := FirstPiece(s, terms, quoted);
      ps, rest := EveryText(t, terms, if p.Quote? then !quoted else quoted);
      PieceAhead(p, ps, rest);
      ps := [p] + ps;
    }
  }

  /** The text is these pieces and this end. */
  ghost predicate MadeOf(s: string, terms: string, ps: seq<Piece>, rest: string) {
    s == Text(ps) + rest && Within(ps, terms, false) && Ending(rest, terms, Open(ps, false))
  }

  /** What the first token is, and what it leaves of the text. */
  lemma TokenExactly(s: string, terms: string, token: string, left: string)
    requires '"' !in terms && '\\' !in terms
    ensures Scan(s, terms, false) == (token, left) <==>
      exists ps, rest :: MadeOf(s, terms, ps, rest)
        && if rest == "" || rest == "\\" then token == Letters(ps) + rest && left == ""
           else token == Letters(ps) && left == rest[1..]
  {
    forall ps, rest | MadeOf(s, terms, ps, rest)
      ensures Scan(s, terms, false)
           == if rest == "" || rest == "\\" then (Letters(ps) + rest, "") else (Letters(ps), rest[1..])
    {
      PiecesRead(ps, rest, terms, false);
    }
    var ps, rest := EveryText(s, terms, false);
    assert MadeOf(s, terms, ps, rest);
  }
}
