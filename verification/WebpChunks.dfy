/**
 Telling a lossless WebP from its RIFF chunks without decoding it (api/images.py `_webp_is_lossless`).
 The container is section 2.3 of RFC 9649: a name, a little-endian size, the body, and a padding byte when the size is odd.
 */
module WebpChunks {

  import opened ByteStrings

  const RIFF: Bytes := [0x52, 0x49, 0x46, 0x46]
  const WEBP: Bytes := [0x57, 0x45, 0x42, 0x50]
  const VP8L: Bytes := [0x56, 0x50, 0x38, 0x4C]
  const ANMF: Bytes := [0x41, 0x4E, 0x4D, 0x46]

  /** A slice that, like the source's, is cut short where the data ends. */
  function Slice(data: Bytes, from: nat, to: nat): Bytes
    requires from <= to
  {
    data[Min(from, |data|)..Min(to, |data|)]
  }

  function LittleEndian(s: Bytes): nat {
    if s == [] then 0 else s[0] + 256 * LittleEndian(s[1..])
  }

  function NameAt(data: Bytes, pos: nat): Bytes { Slice(data, pos, pos + 4) }
  function SizeAt(data: Bytes, pos: nat): nat { LittleEndian(Slice(data, pos + 4, pos + 8)) }

  /** Where the chunk behind one of `size` bytes at `pos` starts. */
  function Behind(pos: nat, size: nat): nat { pos + 8 + size + size % 2 }

  /** Whether the chunks from `pos` to `end` include a VP8L, or, when `deep`, a frame that does. */
  predicate Lossless(data: Bytes, pos: nat, end: nat, deep: bool)
    decreases deep, 1, end - pos
  {
    pos + 8 <= end && (LosslessAt(data, pos, deep) || Lossless(data, Behind(pos, SizeAt(data, pos)), end, deep))
  }

  /** Whether the chunk at `pos` is a VP8L, or, when `deep`, a frame holding one. */
  predicate LosslessAt(data: Bytes, pos: nat, deep: bool)
    decreases deep, 0, 1
  {
    || NameAt(data, pos) == VP8L
    || (deep && NameAt(data, pos) == ANMF && Lossless(data, pos + 24, pos + 8 + SizeAt(data, pos), false))
  }

  predicate IsWebp(data: Bytes) { Slice(data, 0, 4) == RIFF && Slice(data, 8, 12) == WEBP }

  function RiffEnd(data: Bytes): nat { Min(|data|, 8 + SizeAt(data, 0)) }

  /** Whether a frame's chunks include a VP8L. */
  method FrameIsLossless(data: Bytes, start: nat, end: nat) returns (yes: bool)
    ensures yes == Lossless(data, start, end, false)
  {
    var pos := start;
    while pos + 8 <= end
      invariant Lossless(data, pos, end, false) == Lossless(data, start, end, false)
      decreases end - pos
    {
      if NameAt(data, pos) == VP8L {
        return true;
      }
      pos := Behind(pos, SizeAt(data, pos));
    }
    return false;
  }

  /** The body of the walk: one top-level chunk judged. */
  method JudgeChunk(data: Bytes, pos: nat) returns (yes: bool)
    ensures yes == LosslessAt(data, pos, true)
  {
    if NameAt(data, pos) == VP8L {
      return true;
    }
    if NameAt(data, pos) == ANMF {
      yes := FrameIsLossless(data, pos + 24, pos + 8 + SizeAt(data, pos));
      return;
    }
    return false;
  }

  method WebpIsLossless(data: Bytes) returns (yes: bool)
    ensures yes <==> IsWebp(data) && Lossless(data, 12, RiffEnd(data), true)
  {
    if Slice(data, 0, 4) != RIFF || Slice(data, 8, 12) != WEBP {
      return false;
    }
    var end := RiffEnd(data);
    var pos: nat := 12;
    while pos + 8 <= end
      invariant Lossless(data, pos, end, true) == Lossless(data, 12, end, true)
      decreases end - pos
    {
      var found := JudgeChunk(data, pos);
      if found {
        return true;
      }
      pos := Behind(pos, SizeAt(data, pos));
    }
    return false;
  }

  // ----- WebP files as they are built

  datatype Chunk = Chunk(name: Bytes, body: Bytes, pad: byte)

  /** What stands at the top level: a plain chunk, or an animation frame with its 16 bytes of header and its own chunks. */
  datatype Piece = Plain(chunk: Chunk) | Frame(place: Bytes, chunks: seq<Chunk>, pad: byte)

  const LIMIT: nat := 0x1_0000_0000

  function Digits(n: nat, count: nat): (s: Bytes)
    ensures |s| == count
  {
    if count == 0 then [] else [n % 256] + Digits(n / 256, count - 1)
  }

  function ChunkHead(c: Chunk): Bytes { c.name + Digits(|c.body|, 4) }

  function ChunkRest(c: Chunk): Bytes { c.body + if |c.body| % 2 == 1 then [c.pad] else [] }

  function EncodeChunk(c: Chunk): Bytes { ChunkHead(c) + ChunkRest(c) }

  function EncodeChunks(chunks: seq<Chunk>): Bytes {
    if chunks == [] then [] else EncodeChunk(chunks[0]) + EncodeChunks(chunks[1..])
  }

  function AsChunk(p: Piece): Chunk {
    match p
    case Plain(chunk) => chunk
    case Frame(place, chunks, pad) => Chunk(ANMF, place + EncodeChunks(chunks), pad)
  }

  function AsChunks(pieces: seq<Piece>): seq<Chunk> {
    if pieces == [] then [] else [AsChunk(pieces[0])] + AsChunks(pieces[1..])
  }

  function Header(size: nat): Bytes { RIFF + (Digits(size, 4) + WEBP) }

  /** A file of these pieces, with `tail` behind what its RIFF header announces. */
  function Encode(pieces: seq<Piece>, tail: Bytes): Bytes {
    var chunks := EncodeChunks(AsChunks(pieces));
    Header((4 + |chunks|) % LIMIT) + (chunks + tail)
  }

  ghost predicate ChunkOk(c: Chunk) { |c.name| == 4 && |c.body| < LIMIT }

  ghost predicate PieceOk(p: Piece) {
    && ChunkOk(AsChunk(p))
    && (p.Plain? ==> p.chunk.name != ANMF)
    && (p.Frame? ==> |p.place| == 16 && forall c | c in p.chunks :: ChunkOk(c))
  }

  ghost predicate HasLossless(chunks: seq<Chunk>) { exists c :: c in chunks && c.name == VP8L }

  ghost predicate LosslessPiece(p: Piece) {
    match p
    case Plain(chunk) => chunk.name == VP8L
    case Frame(_, chunks, _) => HasLossless(chunks)
  }

  // ----- reading back what was built

  lemma {:induction false} DigitsRead(n: nat, count: nat, limit: nat)
    requires n < limit && Powers(count, limit)
    ensures LittleEndian(Digits(n, count)) == n
    decreases count
  {
    if count > 0 {
      DigitsRead(n / 256, count - 1, limit / 256);
      assert Digits(n, count)[1..] == Digits(n / 256, count - 1);
    }
  }

  /** `limit` is 256 to the power `count`. */
  predicate Powers(count: nat, limit: nat)
    decreases count
  {
    if count == 0 then limit == 1 else limit % 256 == 0 && Powers(count - 1, limit / 256)
  }

  lemma SliceHeld(data: Bytes, pos: nat, part: Bytes)
    requires Holds(data, pos, part)
    ensures Slice(data, pos, pos + |part|) == part
  {
  }

  lemma ChunkRead(data: Bytes, pos: nat, c: Chunk)
    requires ChunkOk(c) && Holds(data, pos, EncodeChunk(c))
    ensures NameAt(data, pos) == c.name && SizeAt(data, pos) == |c.body|
    ensures Holds(data, pos + 8, c.body) && Behind(pos, |c.body|) == pos + |EncodeChunk(c)|
  {
    HoldsParts(data, pos, ChunkHead(c), ChunkRest(c));
    HoldsParts(data, pos, c.name, Digits(|c.body|, 4));
    HoldsParts(data, pos + 8, c.body, if |c.body| % 2 == 1 then [c.pad] else []);
    SliceHeld(data, pos, c.name);
    SliceHeld(data, pos + 4, Digits(|c.body|, 4));
    DigitsRead(|c.body|, 4, LIMIT);
  }

  lemma FirstChunkHeld(data: Bytes, pos: nat, chunks: seq<Chunk>)
    requires chunks != [] && Holds(data, pos, EncodeChunks(chunks))
    ensures Holds(data, pos, EncodeChunk(chunks[0]))
    ensures Holds(data, pos + |EncodeChunk(chunks[0])|, EncodeChunks(chunks[1..]))
    ensures |EncodeChunks(chunks)| == |EncodeChunk(chunks[0])| + |EncodeChunks(chunks[1..])|
  {
    HeldApart(data, pos, EncodeChunks(chunks), EncodeChunk(chunks[0]), EncodeChunks(chunks[1..]));
  }

  lemma {:induction false} FrameRead(data: Bytes, pos: nat, chunks: seq<Chunk>, end: nat)
    requires forall c | c in chunks :: ChunkOk(c)
    requires Holds(data, pos, EncodeChunks(chunks)) && end == pos + |EncodeChunks(chunks)|
    ensures Lossless(data, pos, end, false) <==> HasLossless(chunks)
    decreases |chunks|
  {
    if chunks != [] {
      FirstChunkHeld(data, pos, chunks);
      ChunkRead(data, pos, chunks[0]);
      FrameRead(data, pos + |EncodeChunk(chunks[0])|, chunks[1..], end);
    }
  }

  lemma FrameBody(data: Bytes, pos: nat, p: Piece)
    requires PieceOk(p) && p.Frame? && Holds(data, pos + 8, AsChunk(p).body)
    ensures Lossless(data, pos + 24, pos + 8 + |AsChunk(p).body|, false) <==> HasLossless(p.chunks)
  {
    HoldsParts(data, pos + 8, p.place, EncodeChunks(p.chunks));
    FrameRead(data, pos + 24, p.chunks, pos + 8 + |AsChunk(p).body|);
  }

  lemma PieceRead(data: Bytes, pos: nat, p: Piece, end: nat)
    requires PieceOk(p) && Holds(data, pos, EncodeChunk(AsChunk(p)))
    requires pos + |EncodeChunk(AsChunk(p))| <= end
    ensures Lossless(data, pos, end, true) <==>
            LosslessPiece(p) || Lossless(data, pos + |EncodeChunk(AsChunk(p))|, end, true)
  {
    ChunkRead(data, pos, AsChunk(p));
    if p.Frame? {
      FrameBody(data, pos, p);
    }
  }

  /** `walk` answers for each position what the chunks from there to `end` answer. */
  ghost predicate Answers(walk: nat -> bool, data: Bytes, end: nat) {
    forall pos: nat :: AnswersAt(walk, data, end, pos)
  }

  ghost predicate AnswersAt(walk: nat -> bool, data: Bytes, end: nat, pos: nat) {
    walk(pos) == Lossless(data, pos, end, true)
  }

  lemma PieceAnswers(data: Bytes, pos: nat, p: Piece, end: nat, walk: nat -> bool, next: nat)
    requires PieceOk(p) && Holds(data, pos, EncodeChunk(AsChunk(p))) && Answers(walk, data, end)
    requires next == pos + |EncodeChunk(AsChunk(p))| <= end
    ensures walk(pos) <==> LosslessPiece(p) || walk(next)
  {
    PieceRead(data, pos, p, end);
    assert AnswersAt(walk, data, end, pos) && AnswersAt(walk, data, end, next);
  }

  lemma {:induction false} PiecesRead(data: Bytes, pos: nat, pieces: seq<Piece>, end: nat, walk: nat -> bool)
    requires forall p | p in pieces :: PieceOk(p)
    requires Holds(data, pos, EncodeChunks(AsChunks(pieces))) && end == pos + |EncodeChunks(AsChunks(pieces))|
    requires Answers(walk, data, end) && !walk(end)
    ensures walk(pos) <==> exists p :: p in pieces && LosslessPiece(p)
    decreases |pieces|
  {
    if pieces != [] {
      var chunks := AsChunks(pieces);
      assert chunks[1..] == AsChunks(pieces[1..]);
      FirstChunkHeld(data, pos, chunks);
      var next := pos + |EncodeChunk(chunks[0])|;
      PieceAnswers(data, pos, pieces[0], end, walk, next);
      PiecesRead(data, next, pieces[1..], end, walk);
      FirstOrRest(pieces);
    }
  }

  lemma FirstOrRest(pieces: seq<Piece>)
    requires pieces != []
    ensures (exists p :: p in pieces && LosslessPiece(p)) <==>
            LosslessPiece(pieces[0]) || exists p :: p in pieces[1..] && LosslessPiece(p)
  {
  }

  /**
   For every well-formed WebP, whatever follows it, the walk answers whether a VP8L chunk stands at the top level or
   inside a frame.
   */
  lemma WalkReadsEncoding(pieces: seq<Piece>, tail: Bytes, data: Bytes)
    requires forall p | p in pieces :: PieceOk(p)
    requires data == Encode(pieces, tail) && 4 + |EncodeChunks(AsChunks(pieces))| < LIMIT
    ensures IsWebp(data)
    ensures Lossless(data, 12, RiffEnd(data), true) <==> exists p :: p in pieces && LosslessPiece(p)
  {
    var chunks := EncodeChunks(AsChunks(pieces));
    HeaderRead(data, chunks, tail);
    var end := 12 + |chunks|;
    var walk := (pos: nat) => Lossless(data, pos, end, true);
    assert AnswersAt(walk, data, end, 12) && forall pos: nat :: AnswersAt(walk, data, end, pos);
    PiecesRead(data, 12, pieces, end, walk);
  }

  lemma HeaderRead(data: Bytes, chunks: Bytes, tail: Bytes)
    requires 4 + |chunks| < LIMIT && data == Header((4 + |chunks|) % LIMIT) + (chunks + tail)
    ensures IsWebp(data) && RiffEnd(data) == 12 + |chunks| && Holds(data, 12, chunks)
  {
    var size := Digits((4 + |chunks|) % LIMIT, 4);
    var header := RIFF + (size + WEBP);
    FrontHeld(data, header, chunks, tail);
    NamesRead(data, size);
    DigitsRead(4 + |chunks|, 4, LIMIT);
    EndRead(data, size, |chunks|);
  }

  lemma EndRead(data: Bytes, size: Bytes, n: nat)
    requires Slice(data, 4, 8) == size && LittleEndian(size) == 4 + n && 12 + n <= |data|
    ensures RiffEnd(data) == 12 + n
  {
  }

  lemma FrontHeld(data: Bytes, front: Bytes, chunks: Bytes, tail: Bytes)
    requires data == front + (chunks + tail)
    ensures Holds(data, 0, front) && Holds(data, |front|, chunks)
  {
    HoldsParts(data, 0, front, chunks + tail);
    HoldsParts(data, |front|, chunks, tail);
  }

  lemma NamesRead(data: Bytes, size: Bytes)
    requires |size| == 4 && Holds(data, 0, RIFF + (size + WEBP))
    ensures IsWebp(data) && Slice(data, 4, 8) == size
  {
    HoldsParts(data, 0, RIFF, size + WEBP);
    HoldsParts(data, 4, size, WEBP);
    SliceHeld(data, 0, RIFF);
    SliceHeld(data, 4, size);
    SliceHeld(data, 8, WEBP);
  }
}
