/** Looking up a distribution in a one-sided bearoff file, compressed or not
    (gnubg/bearoff.c, lines 1047 to 1159). */
module BearoffLookup {
  import opened Bytes

  /** 32 bearoff probabilities followed by 32 gammon probabilities. */
  type Dist = d: seq<nat> | |d| == 64 && forall k :: 0 <= k < 64 ==> d[k] < 0x1_0000
    ghost witness seq(64, _ => 0)

  /** Where the nonzero part of each half of a distribution lies. */
  datatype Window = Window(nz: nat, ioff: nat, nzg: nat, ioffg: nat) {
    /** What the lookup checks before it copies. */
    predicate Checked() {
      nz <= 32 && ioff <= 32 && nzg <= 32 && ioffg <= 32
    }

    /** Checked, and the copy stays inside its 64 words. */
    predicate Within() {
      nz <= 32 && ioff <= 32 && ioffg + nzg <= 32
    }

    /** Word k comes from the gammon words, or from the others. */
    predicate CoversGammon(k: nat) {
      32 + ioffg <= k < 32 + ioffg + nzg
    }

    predicate CoversPlain(k: nat) {
      ioff <= k < ioff + nz
    }
  }

  // ----- The lookups

  function MakeInt(a: nat, b: nat, c: nat, d: nat): nat {
    a + 0x100 * b + 0x1_0000 * c + 0x100_0000 * d
  }

  /** Word number j of the data at a position in the file. */
  function WordAt(p: seq<Byte>, at: nat, j: nat): nat
    requires at + 2 * j + 1 < |p|
  {
    Word(p[at + 2 * j], p[at + 2 * j + 1])
  }

  /** The distribution that window w spreads the data at a position into. */
  function Spread(p: seq<Byte>, at: nat, w: Window): (d: seq<nat>)
    requires w.Within() && at + 2 * (w.nz + w.nzg) <= |p|
    ensures |d| == 64
  {
    seq(64, k requires 0 <= k < 64 =>
      if w.CoversGammon(k) then WordAt(p, at, w.nz + k - 32 - w.ioffg)
      else if w.CoversPlain(k) then WordAt(p, at, k - w.ioff)
      else 0)
  }

  /** Of the entries that pass the check, exactly these are copied inside the 64
      words; the plain half may run over into the other one. */
  lemma WithinIsInside(w: Window)
    requires w.Checked()
    ensures w.Within() <==> (forall k: nat :: w.CoversPlain(k) || w.CoversGammon(k) ==> k < 64)
  {
    if !w.Within() {
      assert w.CoversGammon(31 + w.ioffg + w.nzg);
    }
  }

  method CopyBytes(aus: array<nat>, p: seq<Byte>, at: nat, w: Window)
    requires aus.Length == 64 && w.Within() && at + 2 * (w.nz + w.nzg) <= |p|
    modifies aus
    ensures aus[..] == Spread(p, at, w)
  {
    var i, j := 0, 0;
    while j < 64
      invariant 0 <= j <= 64 && forall k :: 0 <= k < j ==> aus[k] == 0
    {
      aus[j] := 0;
      j := j + 1;
    }
    j := 0;
    while j < w.nz
      invariant 0 <= j <= w.nz && i == 2 * j
      invariant forall k :: 0 <= k < 64 ==>
                  aus[k] == if w.ioff <= k < w.ioff + j then WordAt(p, at, k - w.ioff) else 0
    {
      aus[w.ioff + j] := Word(p[at + i], p[at + i + 1]);
      j, i := j + 1, i + 2;
    }
    j := 0;
    while j < w.nzg
      invariant 0 <= j <= w.nzg && i == 2 * (w.nz + j)
      invariant forall k :: 0 <= k < 64 ==>
                  aus[k] == if 32 + w.ioffg <= k < 32 + w.ioffg + j then WordAt(p, at, w.nz + k - 32 - w.ioffg)
                            else if w.ioff <= k < w.ioff + w.nz then WordAt(p, at, k - w.ioff)
                            else 0
    {
      aus[32 + w.ioffg + j] := Word(p[at + i], p[at + i + 1]);
      j, i := j + 1, i + 2;
    }
  }

  function EntrySize(gammon: bool): nat {
    if gammon then 8 else 6
  }

  /** Where the index entry of a position starts. */
  function EntryAt(gammon: bool, id: nat): nat {
    HEADER + EntrySize(gammon) * id
  }

  /** The window and the data position that a compressed file's index gives. */
  function Entry(p: seq<Byte>, nPos: nat, gammon: bool, id: nat): (Window, nat)
    requires HEADER + EntrySize(gammon) * (id + 1) <= |p|
  {
    var e := HEADER + EntrySize(gammon) * id;
    var w := if gammon then Window(p[e + 4], p[e + 5], p[e + 6], p[e + 7]) else Window(p[e + 4], p[e + 5], 0, 0);
    (w, MakeInt(p[e], p[e + 1], p[e + 2], p[e + 3]))
  }

  /** The index entry passes the source's sanity checks and its data is there. */
  predicate SaneEntry(p: seq<Byte>, nPos: nat, gammon: bool, id: nat) {
    && HEADER + EntrySize(gammon) * (id + 1) <= |p|
    && var (w, offset) := Entry(p, nPos, gammon, id);
    && w.Within() && offset <= 64 * nPos
    && DataAt(nPos, gammon, offset) + 2 * (w.nz + w.nzg) <= |p| < 0x1_0000_0000
  }

  function DataAt(nPos: nat, gammon: bool, offset: nat): nat {
    HEADER + EntrySize(gammon) * nPos + 2 * offset
  }

  function Compressed(p: seq<Byte>, nPos: nat, gammon: bool, id: nat): seq<nat>
    requires SaneEntry(p, nPos, gammon, id)
  {
    var (w, offset) := Entry(p, nPos, gammon, id);
    Spread(p, DataAt(nPos, gammon, offset), w)
  }

  method ReadEntry(p: seq<Byte>, nPos: nat, gammon: bool, id: nat) returns (w: Window, offset: nat)
    requires HEADER + EntrySize(gammon) * (id + 1) <= |p|
    ensures (w, offset) == Entry(p, nPos, gammon, id)
  {
    var puch := HEADER + id * EntrySize(gammon);
    offset := MakeInt(p[puch], p[puch + 1], p[puch + 2], p[puch + 3]);
    var nz, ioff, nzg, ioffg := p[puch + 4], p[puch + 5], 0, 0;
    if gammon {
      nzg, ioffg := p[puch + 6], p[puch + 7];
    }
    w := Window(nz, ioff, nzg, ioffg);
  }

  method GetDistCompressed(p: seq<Byte>, nPos: nat, gammon: bool, id: nat) returns (aus: array<nat>)
    requires SaneEntry(p, nPos, gammon, id)
    ensures fresh(aus) && aus[..] == Compressed(p, nPos, gammon, id)
  {
    var w, offset := ReadEntry(p, nPos, gammon, id);
    aus := new nat[64];
    CopyBytes(aus, p, HEADER + EntrySize(gammon) * nPos + 2 * offset, w);
  }

  function RecordSize(gammon: bool): nat {
    if gammon then 128 else 64
  }

  const Whole := Window(32, 0, 32, 0)

  function Uncompressed(p: seq<Byte>, gammon: bool, id: nat): seq<nat>
    requires HEADER + RecordSize(gammon) * id + 128 <= |p|
  {
    Spread(p, HEADER + RecordSize(gammon) * id, Whole)
  }

  /** The buffer of 128 bytes after a record has been read from the disk; without
      gammon data its second half is as before. */
  function Buffer(p: seq<Byte>, before: seq<Byte>, gammon: bool, id: nat): (ac: seq<Byte>)
    requires HEADER + RecordSize(gammon) * (id + 1) <= |p| && |before| == 64
    ensures |ac| == 128
  {
    var record := p[HEADER + RecordSize(gammon) * id..][..RecordSize(gammon)];
    if gammon then record else record + before
  }

  /** Always copies 64 words, whether or not the file has gammon data. What the file
      does not hold is in other: the bytes that follow it in memory, or those in the
      second half of the buffer. */
  method GetDistUncompressed(inMemory: bool, p: seq<Byte>, other: seq<Byte>, gammon: bool, id: nat)
    returns (aus: array<nat>)
    requires HEADER + RecordSize(gammon) * (id + 1) <= |p| && |other| == 64
    ensures fresh(aus)
    ensures aus[..] == if inMemory then Uncompressed(p + other, gammon, id)
                       else Spread(Buffer(p, other, gammon, id), 0, Whole)
  {
    var iOffset := HEADER + 64 * id * (if gammon then 2 else 1);
    aus := new nat[64];
    if inMemory {
      CopyBytes(aus, p + other, iOffset, Whole);
    } else {
      var ac := p[iOffset..iOffset + (if gammon then 128 else 64)];
      assert ac == p[iOffset..][..RecordSize(gammon)];
      CopyBytes(aus, if gammon then ac else ac + other, 0, Whole);
    }
  }

  // ----- Files

  /** The bytes of a sequence of 16-bit words. */
  function EncodeWords(ws: seq<nat>): (bytes: seq<Byte>)
    ensures |bytes| == 2 * |ws|
  {
    seq(2 * |ws|, i requires 0 <= i < 2 * |ws| => if i % 2 == 0 then ws[i / 2] % 256 else ws[i / 2] / 256 % 256)
  }

  function Cat(chunks: seq<seq<Byte>>): seq<Byte> {
    if chunks == [] then [] else Cat(chunks[..|chunks| - 1]) + chunks[|chunks| - 1]
  }

  /** Where chunk i starts, and that it is there. */
  lemma {:induction false} CatChunk(chunks: seq<seq<Byte>>, i: nat)
    requires i < |chunks|
    ensures |Cat(chunks[..i])| + |chunks[i]| <= |Cat(chunks)|
    ensures Cat(chunks)[|Cat(chunks[..i])|..|Cat(chunks[..i])| + |chunks[i]|] == chunks[i]
  {
    var front := chunks[..|chunks| - 1];
    if i < |front| {
      assert front[..i] == chunks[..i];
      CatChunk(front, i);
    }
  }

  lemma {:induction false} CatLength(chunks: seq<seq<Byte>>, size: nat)
    requires forall i :: 0 <= i < |chunks| ==> |chunks[i]| == size
    ensures |Cat(chunks)| == size * |chunks|
  {
    if chunks != [] {
      CatLength(chunks[..|chunks| - 1], size);
      assert size * |chunks| == size * (|chunks| - 1) + size;
    }
  }

  lemma {:induction false} CatLengthAtMost(chunks: seq<seq<Byte>>, size: nat)
    requires forall i :: 0 <= i < |chunks| ==> |chunks[i]| <= size
    ensures |Cat(chunks)| <= size * |chunks|
  {
    if chunks != [] {
      CatLengthAtMost(chunks[..|chunks| - 1], size);
      assert size * |chunks| == size * (|chunks| - 1) + size;
    }
  }

  function Record(d: Dist, gammon: bool): seq<Byte> {
    EncodeWords(if gammon then d else d[..32])
  }

  function Records(ds: seq<Dist>, gammon: bool): seq<seq<Byte>> {
    seq(|ds|, i requires 0 <= i < |ds| => Record(ds[i], gammon))
  }

  /** An uncompressed file: every word of every distribution. */
  function FlatFile(header: seq<Byte>, ds: seq<Dist>, gammon: bool): seq<Byte> {
    header + Cat(Records(ds, gammon))
  }

  /** The window holds all the nonzero words of the distribution. */
  ghost predicate Supports(w: Window, d: Dist) {
    && w.ioff + w.nz <= 32 && w.ioffg + w.nzg <= 32
    && forall k: nat :: k < 64 && !w.CoversPlain(k) && !w.CoversGammon(k) ==> d[k] == 0
  }

  function Payload(d: Dist, w: Window): seq<Byte>
    requires w.ioff + w.nz <= 32 && w.ioffg + w.nzg <= 32
  {
    EncodeWords(d[w.ioff..w.ioff + w.nz] + d[32 + w.ioffg..32 + w.ioffg + w.nzg])
  }

  /** In a file without gammon data there is no gammon part to a window, and none of a
      distribution but zeros. */
  ghost predicate Supported(ds: seq<Dist>, ws: seq<Window>, gammon: bool) {
    && |ws| == |ds| && (forall i :: 0 <= i < |ds| ==> Supports(ws[i], ds[i]))
    && (!gammon ==> forall i :: 0 <= i < |ws| ==> ws[i].nzg == 0 && ws[i].ioffg == 0)
  }

  ghost function Payloads(ds: seq<Dist>, ws: seq<Window>, gammon: bool): seq<seq<Byte>>
    requires Supported(ds, ws, gammon)
  {
    seq(|ds|, i requires 0 <= i < |ds| => Payload(ds[i], ws[i]))
  }

  /** The index entry of distribution i: where its words start, and its window. */
  ghost function IndexEntry(ds: seq<Dist>, ws: seq<Window>, gammon: bool, i: nat): seq<Byte>
    requires Supported(ds, ws, gammon) && i < |ds|
  {
    var offset := |Cat(Payloads(ds, ws, gammon)[..i])| / 2;
    [offset % 256, offset / 0x100 % 256, offset / 0x1_0000 % 256, offset / 0x100_0000 % 256, ws[i].nz, ws[i].ioff]
    + if gammon then [ws[i].nzg, ws[i].ioffg] else []
  }

  ghost function Index(ds: seq<Dist>, ws: seq<Window>, gammon: bool): seq<seq<Byte>>
    requires Supported(ds, ws, gammon)
  {
    seq(|ds|, i requires 0 <= i < |ds| => IndexEntry(ds, ws, gammon, i))
  }

  /** A compressed file: an index, then the windows' words. */
  ghost function CompressedFile(header: seq<Byte>, ds: seq<Dist>, ws: seq<Window>, gammon: bool): seq<Byte>
    requires Supported(ds, ws, gammon)
  {
    header + Cat(Index(ds, ws, gammon)) + Cat(Payloads(ds, ws, gammon))
  }

  // ----- The lookups agree

  /** The words read back from encoded bytes are the words that were written. */
  lemma ReadBack(p: seq<Byte>, at: nat, ws: seq<nat>, j: nat)
    requires at + 2 * |ws| <= |p| && p[at..at + 2 * |ws|] == EncodeWords(ws)
    requires j < |ws| && ws[j] < 0x1_0000
    ensures WordAt(p, at, j) == ws[j]
  {
    var bytes := p[at..at + 2 * |ws|];
    assert bytes[2 * j] == p[at + 2 * j] && bytes[2 * j + 1] == p[at + 2 * j + 1];
  }

  /** The uncompressed lookup finds what was written. */
  lemma UncompressedReads(header: seq<Byte>, ds: seq<Dist>, id: nat)
    requires |header| == HEADER && id < |ds|
    ensures HEADER + 128 * id + 128 <= |FlatFile(header, ds, true)|
    ensures Uncompressed(FlatFile(header, ds, true), true, id) == ds[id]
  {
    var p := FlatFile(header, ds, true);
    var at := HEADER + 128 * id;
    RecordIsThere(header, ds, true, id);
    forall k: nat | k < 64
      ensures WordAt(p, at, k) == ds[id][k]
    {
      ReadBack(p, at, ds[id], k);
    }
  }

  lemma RecordIsThere(header: seq<Byte>, ds: seq<Dist>, gammon: bool, id: nat)
    requires |header| == HEADER && id < |ds|
    ensures var at := HEADER + RecordSize(gammon) * id;
            && at + RecordSize(gammon) <= |FlatFile(header, ds, gammon)|
            && FlatFile(header, ds, gammon)[at..at + RecordSize(gammon)] == Record(ds[id], gammon)
  {
    var chunks := Records(ds, gammon);
    CatChunk(chunks, id);
    CatLength(chunks[..id], RecordSize(gammon));
  }

  lemma IndexIsThere(header: seq<Byte>, ds: seq<Dist>, ws: seq<Window>, gammon: bool, id: nat)
    requires |header| == HEADER && Supported(ds, ws, gammon) && id < |ds|
    ensures var p := CompressedFile(header, ds, ws, gammon);
            && EntryAt(gammon, |ds|) + |Cat(Payloads(ds, ws, gammon))| == |p|
            && p[EntryAt(gammon, |ds|)..] == Cat(Payloads(ds, ws, gammon))
            && EntryAt(gammon, id) <= EntryAt(gammon, id + 1) <= |p|
            && p[EntryAt(gammon, id)..EntryAt(gammon, id + 1)] == IndexEntry(ds, ws, gammon, id)
  {
    var from, to := IndexEntryIsThere(ds, ws, gammon, id);
    Middle(header, Cat(Index(ds, ws, gammon)), Cat(Payloads(ds, ws, gammon)), from, to);
  }

  lemma IndexEntryIsThere(ds: seq<Dist>, ws: seq<Window>, gammon: bool, id: nat) returns (from: nat, to: nat)
    requires Supported(ds, ws, gammon) && id < |ds|
    ensures var index := Cat(Index(ds, ws, gammon));
            && HEADER + |index| == EntryAt(gammon, |ds|)
            && HEADER + from == EntryAt(gammon, id) && HEADER + to == EntryAt(gammon, id + 1)
            && from <= to <= |index| && index[from..to] == IndexEntry(ds, ws, gammon, id)
  {
    EntryRange(gammon, id, |ds|);
    from, to := EqualChunk(Index(ds, ws, gammon), EntrySize(gammon), id);
  }

  /** Chunks of one size. */
  lemma EqualChunk(chunks: seq<seq<Byte>>, size: nat, i: nat) returns (from: nat, to: nat)
    requires i < |chunks| && forall k :: 0 <= k < |chunks| ==> |chunks[k]| == size
    ensures from == size * i && to == from + size <= |Cat(chunks)| == size * |chunks|
    ensures Cat(chunks)[from..to] == chunks[i]
  {
    CatChunk(chunks, i);
    CatLength(chunks[..i], size);
    CatLength(chunks, size);
    from, to := size * i, size * i + size;
  }

  lemma Middle(a: seq<Byte>, b: seq<Byte>, c: seq<Byte>, i: nat, j: nat)
    requires i <= j <= |b|
    ensures (a + b + c)[|a| + i..|a| + j] == b[i..j] && (a + b + c)[|a| + |b|..] == c
  {
  }

  lemma OffsetBound(ds: seq<Dist>, ws: seq<Window>, gammon: bool, id: nat)
    requires Supported(ds, ws, gammon) && id < |ds|
    ensures |Cat(Payloads(ds, ws, gammon)[..id])| <= 128 * |ds|
  {
    CatLengthAtMost(Payloads(ds, ws, gammon)[..id], 128);
  }

  /** The index entry of a compressed file is found and decoded. */
  lemma EntryReads(header: seq<Byte>, ds: seq<Dist>, ws: seq<Window>, gammon: bool, id: nat)
    requires |header| == HEADER && Supported(ds, ws, gammon) && id < |ds|
    requires |CompressedFile(header, ds, ws, gammon)| < 0x1_0000_0000
    ensures var p, offset := CompressedFile(header, ds, ws, gammon), |Cat(Payloads(ds, ws, gammon)[..id])| / 2;
            && HEADER + EntrySize(gammon) * (id + 1) <= |p|
            && offset <= 64 * |ds|
            && Entry(p, |ds|, gammon, id) == (ws[id], offset)
  {
    IndexIsThere(header, ds, ws, gammon, id);
    OffsetBound(ds, ws, gammon, id);
    CatChunk(Payloads(ds, ws, gammon), id);
    FourBytes(|Cat(Payloads(ds, ws, gammon)[..id])| / 2);
    EntryRange(gammon, id, |ds|);
    EntryDecodes(CompressedFile(header, ds, ws, gammon), |ds|, gammon, id, IndexEntry(ds, ws, gammon, id), ws[id],
                 |Cat(Payloads(ds, ws, gammon)[..id])| / 2);
  }

  lemma EntryRange(gammon: bool, id: nat, n: nat)
    requires id < n
    ensures EntryAt(gammon, id + 1) == EntryAt(gammon, id) + EntrySize(gammon)
    ensures EntryAt(gammon, id + 1) <= HEADER + EntrySize(gammon) * n
  {
  }

  lemma EntryDecodes(p: seq<Byte>, nPos: nat, gammon: bool, id: nat, entry: seq<Byte>, w: Window, offset: nat)
    requires EntryAt(gammon, id + 1) == EntryAt(gammon, id) + EntrySize(gammon) <= |p|
    requires p[EntryAt(gammon, id)..EntryAt(gammon, id + 1)] == entry
    requires |entry| == EntrySize(gammon) && MakeInt(entry[0], entry[1], entry[2], entry[3]) == offset
    requires entry[4] == w.nz && entry[5] == w.ioff
    requires if gammon then entry[6] == w.nzg && entry[7] == w.ioffg else w.nzg == 0 && w.ioffg == 0
    ensures Entry(p, nPos, gammon, id) == (w, offset)
  {
    var at := EntryAt(gammon, id);
    assert forall b :: 0 <= b < EntrySize(gammon) ==> entry[b] == p[at + b];
  }

  lemma FourBytes(n: nat)
    requires n < 0x1_0000_0000
    ensures MakeInt(n % 256, n / 0x100 % 256, n / 0x1_0000 % 256, n / 0x100_0000 % 256) == n
  {
    var a, b, c := n / 0x100, n / 0x1_0000, n / 0x100_0000;
    assert n == 0x100 * a + n % 256;
    assert a == 0x100 * b + a % 256;
    assert b == 0x100 * c + b % 256;
    assert c % 256 == c;
  }

  lemma PlainWord(p: seq<Byte>, at: nat, d: Dist, w: Window, words: seq<nat>, k: nat)
    requires w.ioff + w.nz <= 32 && w.ioffg + w.nzg <= 32 && w.CoversPlain(k)
    requires words == d[w.ioff..w.ioff + w.nz] + d[32 + w.ioffg..32 + w.ioffg + w.nzg]
    requires at + 2 * |words| <= |p| && p[at..at + 2 * |words|] == EncodeWords(words)
    ensures WordAt(p, at, k - w.ioff) == d[k]
  {
    ReadBack(p, at, words, k - w.ioff);
  }

  lemma GammonWord(p: seq<Byte>, at: nat, d: Dist, w: Window, words: seq<nat>, k: nat)
    requires w.ioff + w.nz <= 32 && w.ioffg + w.nzg <= 32 && w.CoversGammon(k)
    requires words == d[w.ioff..w.ioff + w.nz] + d[32 + w.ioffg..32 + w.ioffg + w.nzg]
    requires at + 2 * |words| <= |p| && p[at..at + 2 * |words|] == EncodeWords(words)
    ensures WordAt(p, at, w.nz + k - 32 - w.ioffg) == d[k]
  {
    ReadBack(p, at, words, w.nz + k - 32 - w.ioffg);
  }

  /** A distribution is rebuilt from the words inside its window. */
  lemma SpreadRebuilds(p: seq<Byte>, at: nat, d: Dist, w: Window)
    requires Supports(w, d)
    requires at + 2 * (w.nz + w.nzg) <= |p| && p[at..at + 2 * (w.nz + w.nzg)] == Payload(d, w)
    ensures Spread(p, at, w) == d
  {
    var spread := Spread(p, at, w);
    forall k: nat | k < 64
      ensures spread[k] == d[k]
    {
      WordRebuilt(p, at, d, w, k);
    }
  }

  lemma WordRebuilt(p: seq<Byte>, at: nat, d: Dist, w: Window, k: nat)
    requires Supports(w, d) && k < 64
    requires at + 2 * (w.nz + w.nzg) <= |p| && p[at..at + 2 * (w.nz + w.nzg)] == Payload(d, w)
    ensures Spread(p, at, w)[k] == d[k]
  {
    if w.CoversGammon(k) {
      GammonRebuilt(p, at, d, w, k);
    } else if w.CoversPlain(k) {
      PlainRebuilt(p, at, d, w, k);
    }
  }

  lemma GammonRebuilt(p: seq<Byte>, at: nat, d: Dist, w: Window, k: nat)
    requires w.ioff + w.nz <= 32 && w.ioffg + w.nzg <= 32 && w.CoversGammon(k)
    requires at + 2 * (w.nz + w.nzg) <= |p| && p[at..at + 2 * (w.nz + w.nzg)] == Payload(d, w)
    ensures WordAt(p, at, w.nz + k - 32 - w.ioffg) == d[k]
  {
    GammonWord(p, at, d, w, d[w.ioff..w.ioff + w.nz] + d[32 + w.ioffg..32 + w.ioffg + w.nzg], k);
  }

  lemma PlainRebuilt(p: seq<Byte>, at: nat, d: Dist, w: Window, k: nat)
    requires w.ioff + w.nz <= 32 && w.ioffg + w.nzg <= 32 && w.CoversPlain(k)
    requires at + 2 * (w.nz + w.nzg) <= |p| && p[at..at + 2 * (w.nz + w.nzg)] == Payload(d, w)
    ensures WordAt(p, at, k - w.ioff) == d[k]
  {
    PlainWord(p, at, d, w, d[w.ioff..w.ioff + w.nz] + d[32 + w.ioffg..32 + w.ioffg + w.nzg], k);
  }

  /** Where the words of a position start. */
  ghost function PayloadAt(ds: seq<Dist>, ws: seq<Window>, gammon: bool, id: nat): nat
    requires Supported(ds, ws, gammon) && id < |ds|
  {
    EntryAt(gammon, |ds|) + |Cat(Payloads(ds, ws, gammon)[..id])|
  }

  lemma PayloadIsThere(header: seq<Byte>, ds: seq<Dist>, ws: seq<Window>, gammon: bool, id: nat)
    requires |header| == HEADER && Supported(ds, ws, gammon) && id < |ds|
    ensures var p, at := CompressedFile(header, ds, ws, gammon), PayloadAt(ds, ws, gammon, id);
            && at + 2 * (ws[id].nz + ws[id].nzg) <= |p|
            && p[at..at + 2 * (ws[id].nz + ws[id].nzg)] == Payload(ds[id], ws[id])
  {
    IndexIsThere(header, ds, ws, gammon, id);
    PayloadSize(ds, ws, gammon, id);
    ChunkInTail(CompressedFile(header, ds, ws, gammon), Payloads(ds, ws, gammon), EntryAt(gammon, |ds|), id,
                ws[id].nz + ws[id].nzg);
  }

  /** A chunk of the chunks that a file ends with. */
  lemma ChunkInTail(p: seq<Byte>, chunks: seq<seq<Byte>>, from: nat, id: nat, words: nat)
    requires from <= |p| && p[from..] == Cat(chunks) && id < |chunks| && |chunks[id]| == 2 * words
    ensures var at := from + |Cat(chunks[..id])|;
            at + 2 * words <= |p| && p[at..at + 2 * words] == chunks[id]
  {
    CatChunk(chunks, id);
    SliceOfTail(p, Cat(chunks), from, |Cat(chunks[..id])|, 2 * words);
  }

  lemma PayloadSize(ds: seq<Dist>, ws: seq<Window>, gammon: bool, id: nat)
    requires Supported(ds, ws, gammon) && id < |ds|
    ensures ws[id].ioff + ws[id].nz <= 32 && ws[id].ioffg + ws[id].nzg <= 32
    ensures Payloads(ds, ws, gammon)[id] == Payload(ds[id], ws[id])
    ensures |Payloads(ds, ws, gammon)[id]| == 2 * (ws[id].nz + ws[id].nzg)
  {
  }

  lemma SliceOfTail(p: seq<Byte>, q: seq<Byte>, from: nat, start: nat, n: nat)
    requires from <= |p| && p[from..] == q && start + n <= |q|
    ensures from + start + n <= |p| && p[from + start..from + start + n] == q[start..start + n]
  {
    assert p[from..][start..start + n] == p[from + start..from + start + n];
  }

  lemma EntryIsSane(header: seq<Byte>, ds: seq<Dist>, ws: seq<Window>, gammon: bool, id: nat)
    requires |header| == HEADER && Supported(ds, ws, gammon) && id < |ds|
    requires |CompressedFile(header, ds, ws, gammon)| < 0x1_0000_0000
    ensures var p, at := CompressedFile(header, ds, ws, gammon), PayloadAt(ds, ws, gammon, id);
            && SaneEntry(p, |ds|, gammon, id)
            && Entry(p, |ds|, gammon, id).0 == ws[id]
            && DataAt(|ds|, gammon, Entry(p, |ds|, gammon, id).1) == at
  {
    EntryReads(header, ds, ws, gammon, id);
    PayloadIsThere(header, ds, ws, gammon, id);
    EvenStart(ds, ws, gammon, id);
  }

  /** The compressed lookup finds what was written, and its checks pass. */
  lemma CompressedReads(header: seq<Byte>, ds: seq<Dist>, ws: seq<Window>, gammon: bool, id: nat)
    requires |header| == HEADER && Supported(ds, ws, gammon) && id < |ds|
    requires |CompressedFile(header, ds, ws, gammon)| < 0x1_0000_0000
    ensures SaneEntry(CompressedFile(header, ds, ws, gammon), |ds|, gammon, id)
    ensures Compressed(CompressedFile(header, ds, ws, gammon), |ds|, gammon, id) == ds[id]
  {
    EntryIsSane(header, ds, ws, gammon, id);
    PayloadIsThere(header, ds, ws, gammon, id);
    var p, at := CompressedFile(header, ds, ws, gammon), PayloadAt(ds, ws, gammon, id);
    SpreadRebuilds(p, at, ds[id], ws[id]);
  }

  lemma {:induction false} EvenStart(ds: seq<Dist>, ws: seq<Window>, gammon: bool, i: nat)
    requires Supported(ds, ws, gammon) && i <= |ds|
    ensures |Cat(Payloads(ds, ws, gammon)[..i])| % 2 == 0
  {
    if i > 0 {
      EvenStart(ds, ws, gammon, i - 1);
      assert Payloads(ds, ws, gammon)[..i][..i - 1] == Payloads(ds, ws, gammon)[..i - 1];
    }
  }

  /** For every database with gammon data, both lookups return the same 64 words
      for every position. */
  lemma LookupsAgree(h: seq<Byte>, g: seq<Byte>, ds: seq<Dist>, ws: seq<Window>, id: nat)
    requires |h| == |g| == HEADER && Supported(ds, ws, true) && id < |ds|
    requires |CompressedFile(g, ds, ws, true)| < 0x1_0000_0000
    ensures HEADER + 128 * id + 128 <= |FlatFile(h, ds, true)|
    ensures SaneEntry(CompressedFile(g, ds, ws, true), |ds|, true, id)
    ensures Uncompressed(FlatFile(h, ds, true), true, id) == Compressed(CompressedFile(g, ds, ws, true), |ds|, true, id)
  {
    UncompressedReads(h, ds, id);
    CompressedReads(g, ds, ws, true, id);
  }

  /** The plain lookup reads inside the file exactly when the file has gammon data
      or the record is not the last one. */
  lemma PlainReadInside(h: seq<Byte>, ds: seq<Dist>, gammon: bool, id: nat)
    requires |h| == HEADER && id < |ds|
    ensures HEADER + RecordSize(gammon) * id + 128 <= |FlatFile(h, ds, gammon)| <==> gammon || id + 1 < |ds|
  {
    CatLength(Records(ds, gammon), RecordSize(gammon));
  }

  /** Without gammon data the uncompressed lookup runs on into the next record,
      so its second half is zero if and only if the next distribution is. */
  lemma PlainLookupRunsOn(h: seq<Byte>, ds: seq<Dist>, id: nat)
    requires |h| == HEADER && id + 1 < |ds|
    ensures HEADER + 64 * id + 128 <= |FlatFile(h, ds, false)|
    ensures Uncompressed(FlatFile(h, ds, false), false, id) == ds[id][..32] + ds[id + 1][..32]
  {
    var p := FlatFile(h, ds, false);
    RecordIsThere(h, ds, false, id);
    RecordIsThere(h, ds, false, id + 1);
    var at := HEADER + 64 * id;
    forall k: nat | k < 64
      ensures WordAt(p, at, k) == (ds[id][..32] + ds[id + 1][..32])[k]
    {
      if k < 32 {
        ReadBack(p, at, ds[id][..32], k);
      } else {
        ReadBack(p, at + 64, ds[id + 1][..32], k - 32);
        assert WordAt(p, at + 64, k - 32) == WordAt(p, at, k);
      }
    }
  }

  /** The words of some bytes. */
  function Words(bytes: seq<Byte>): (ws: seq<nat>)
    ensures |ws| == |bytes| / 2
  {
    seq(|bytes| / 2, k requires 0 <= k < |bytes| / 2 => WordAt(bytes, 0, k))
  }

  lemma WordMoved(p: seq<Byte>, at: nat, q: seq<Byte>, from: nat, k: nat)
    requires at + 2 * k + 1 < |p| && from + 2 * k + 1 < |q|
    requires p[at + 2 * k] == q[from + 2 * k] && p[at + 2 * k + 1] == q[from + 2 * k + 1]
    ensures WordAt(p, at, k) == WordAt(q, from, k)
  {
  }

  /** With gammon data what the file does not hold does not matter, and the record is
      found, in memory and on the disk. */
  lemma WholeRecord(h: seq<Byte>, ds: seq<Dist>, other: seq<Byte>, id: nat)
    requires |h| == HEADER && id < |ds| && |other| == 64
    ensures HEADER + 128 * (id + 1) <= |FlatFile(h, ds, true)|
    ensures Uncompressed(FlatFile(h, ds, true) + other, true, id) == ds[id]
    ensures Spread(Buffer(FlatFile(h, ds, true), other, true, id), 0, Whole) == ds[id]
  {
    RecordIsThere(h, ds, true, id);
    forall k: nat | k < 64
      ensures WordAt(FlatFile(h, ds, true) + other, HEADER + 128 * id, k) == ds[id][k]
      ensures WordAt(Buffer(FlatFile(h, ds, true), other, true, id), 0, k) == ds[id][k]
    {
      WholeWord(FlatFile(h, ds, true), ds[id], other, id, k);
    }
  }

  lemma WholeWord(p: seq<Byte>, d: Dist, other: seq<Byte>, id: nat, k: nat)
    requires HEADER + 128 * (id + 1) <= |p| && |other| == 64 && k < 64
    requires p[HEADER + 128 * id..HEADER + 128 * id + 128] == EncodeWords(d)
    ensures WordAt(p + other, HEADER + 128 * id, k) == d[k] == WordAt(Buffer(p, other, true, id), 0, k)
  {
    var at := HEADER + 128 * id;
    ReadBack(p, at, d, k);
    WordMoved(p + other, at, p, at, k);
    WordMoved(Buffer(p, other, true, id), 0, p, at, k);
  }

  /** Without gammon data the second half is in memory the next record, or for the
      last one what follows the file; and from the disk what the buffer held. */
  lemma HalfRecord(h: seq<Byte>, ds: seq<Dist>, other: seq<Byte>, id: nat)
    requires |h| == HEADER && id < |ds| && |other| == 64
    ensures HEADER + 64 * (id + 1) <= |FlatFile(h, ds, false)|
    ensures Uncompressed(FlatFile(h, ds, false) + other, false, id)
         == ds[id][..32] + (if id + 1 < |ds| then ds[id + 1][..32] else Words(other))
    ensures Spread(Buffer(FlatFile(h, ds, false), other, false, id), 0, Whole) == ds[id][..32] + Words(other)
  {
    var p, at := FlatFile(h, ds, false), HEADER + 64 * id;
    RecordIsThere(h, ds, false, id);
    var ac := Buffer(p, other, false, id);
    forall k: nat | k < 64
      ensures WordAt(p + other, at, k) == (ds[id][..32] + (if id + 1 < |ds| then ds[id + 1][..32] else Words(other)))[k]
      ensures WordAt(ac, 0, k) == (ds[id][..32] + Words(other))[k]
    {
      if k < 32 {
        FirstHalf(h, ds, other, id, k);
      } else {
        SecondHalf(h, ds, other, id, k - 32);
        WordMoved(ac, 64, other, 0, k - 32);
        assert WordAt(ac, 64, k - 32) == WordAt(ac, 0, k);
      }
    }
  }

  lemma FirstHalf(h: seq<Byte>, ds: seq<Dist>, other: seq<Byte>, id: nat, k: nat)
    requires |h| == HEADER && id < |ds| && |other| == 64 && k < 32
    ensures HEADER + 64 * (id + 1) <= |FlatFile(h, ds, false)|
    ensures WordAt(FlatFile(h, ds, false) + other, HEADER + 64 * id, k) == ds[id][k]
    ensures WordAt(Buffer(FlatFile(h, ds, false), other, false, id), 0, k) == ds[id][k]
  {
    var p, at := FlatFile(h, ds, false), HEADER + 64 * id;
    RecordIsThere(h, ds, false, id);
    var half := ds[id][..32];
    assert p[at..at + 64] == EncodeWords(half);
    ReadBack(p, at, half, k);
    WordMoved(p + other, at, p, at, k);
    WordMoved(Buffer(p, other, false, id), 0, p, at, k);
  }

  lemma SecondHalf(h: seq<Byte>, ds: seq<Dist>, other: seq<Byte>, id: nat, k: nat)
    requires |h| == HEADER && id < |ds| && |other| == 64 && k < 32
    ensures HEADER + 64 * (id + 1) <= |FlatFile(h, ds, false)|
    ensures WordAt(FlatFile(h, ds, false) + other, HEADER + 64 * id, 32 + k)
         == if id + 1 < |ds| then ds[id + 1][k] else Words(other)[k]
  {
    var p, at := FlatFile(h, ds, false), HEADER + 64 * id;
    RecordIsThere(h, ds, false, id);
    assert WordAt(p + other, at, 32 + k) == WordAt(p + other, at + 64, k);
    if id + 1 < |ds| {
      RecordIsThere(h, ds, false, id + 1);
      ReadBack(p, at + 64, ds[id + 1][..32], k);
      WordMoved(p + other, at + 64, p, at + 64, k);
    } else {
      CatLength(Records(ds, false), RecordSize(false));
      WordMoved(p + other, at + 64, other, 0, k);
    }
  }
}
