/** The coder and the decoder of positions on words of 32 bits, with the table of
    coefficients that they share (gnubg/positionid.c, lines 437 to 509). */
module PositionWords {
  import opened Combinatorics
  import opened PositionId

  /** The word with these bits among its n lowest. */
  function WordOf(bits: Bits, n: nat): nat {
    if n == 0 then 0 else WordOf(bits, n - 1) + if n - 1 in bits then Power2(n - 1) else 0
  }

  lemma {:induction false} WordBelow(bits: Bits, n: nat)
    ensures WordOf(bits, n) < Power2(n)
  {
    if n > 0 {
      WordBelow(bits, n - 1);
    }
  }

  lemma Power2Of32()
    ensures Power2(32) == WORD
  {
    Power2Of31();
  }

  /** With at most 32 points and chequers the pattern of a board fits a word, and so
      does its number. */
  lemma WordsFit(b: Board, chequers: nat)
    requires b != [] && Sum(b) <= chequers && |b| + chequers <= 32
    ensures WordOf(Marks(b), |b| + chequers) < WORD
    ensures Rank(b) < WORD
  {
    WordBelow(Marks(b), |b| + chequers);
    Power2Of32();
    Power2Monotone(|b| + chequers, 32);
    RankRange(b, chequers);
    ChooseFits(|b| + chequers, |b|);
  }

  /** PositionF with the coefficients of the table: for n up to 32 none of them has
      wrapped around. */
  method RankBits(t: CombinationTable, bits: Bits, n: nat, r: nat) returns (id: nat)
    requires t.Valid() && CountBelow(bits, n) == r && n <= 32 && r <= MAX_R
    modifies t, t.table
    ensures t.Valid() && id == PositionF(bits, n, r)
    decreases n
  {
    if n == r {
      id := 0;
    } else if n - 1 in bits {
      var c := t.Combination(n - 1, r);
      var rest := RankBits(t, bits, n - 1, r - 1);
      id := c + rest;
    } else {
      id := RankBits(t, bits, n - 1, r);
    }
  }

  /** PositionInv with the coefficients of the table. */
  method UnrankBits(t: CombinationTable, id: nat, n: nat, r: nat) returns (bits: Bits)
    requires t.Valid() && r <= n <= 32 && r <= MAX_R
    modifies t, t.table
    ensures t.Valid() && bits == PositionInv(id, n, r)
    decreases n
  {
    if r == 0 {
      bits := {};
    } else if n == r {
      bits := AllBelow(n);
    } else {
      var nC := t.Combination(n - 1, r);
      if id >= nC {
        bits := UnrankBits(t, id - nC, n - 1, r - 1);
        bits := {n - 1} + bits;
      } else {
        bits := UnrankBits(t, id, n - 1, r);
      }
    }
  }

  /** PositionBearoff on words. */
  method WordOfPosition(t: CombinationTable, board: array<nat>, points: nat, chequers: nat) returns (id: nat)
    requires t.Valid() && 1 <= points <= board.Length && points <= MAX_R && points + chequers <= 32
    requires Sum(board[..points]) <= chequers
    modifies t, t.table
    ensures t.Valid() && id == Rank(board[..points]) < WORD
    ensures WordOf(Marks(board[..points]), points + chequers) < WORD
  {
    var bits := BuildBits(board, points);
    PositionFIsRank(board[..points], chequers + points);
    WordsFit(board[..points], chequers);
    id := RankBits(t, bits, chequers + points, points);
  }

  /** PositionFromBearoff on words. */
  method PositionOfWord(t: CombinationTable, board: array<nat>, id: nat, points: nat, chequers: nat)
    requires t.Valid() && 1 <= points <= board.Length && points <= MAX_R && points + chequers <= 32
    requires id < Choose(points + chequers, points)
    modifies t, t.table, board
    ensures t.Valid() && Rank(board[..points]) == id && Sum(board[..points]) <= chequers
    ensures forall k :: points <= k < board.Length ==> board[k] == old(board[k])
  {
    var bits := UnrankBits(t, id, chequers + points, points);
    PositionInvBits(id, chequers + points, points);
    ScanBits(board, bits, points, chequers + points);
    PositionFIsRank(board[..points], chequers + points);
    PositionFOfInv(id, chequers + points, points);
  }
}
