/**
 Walking a GIF's blocks without decoding them (api/images.py `_gif_extensions`, and the GIF branch of
 `carries_metadata`).
 */
module GifBlocks {

  import opened ByteStrings

  /** An extension as the walker reports it: its label and its first sub-block. */
  datatype Extension = Extension(code: byte, first: Bytes)

  /** What the walker finds, and whether it reached an end without running off the data or into an unknown block. */
  datatype Walked = Walked(found: seq<Extension>, clean: bool)

  const TRAILER: byte := 0x3B
  const EXTENSION: byte := 0x21
  const IMAGE: byte := 0x2C

  function Pow2(n: nat): nat { if n == 0 then 1 else 2 * Pow2(n - 1) }

  /** Bytes of the color table the flags announce. */
  function TableSize(flags: byte): nat {
    if flags >= 0x80 then 3 * Pow2(flags % 8 + 1) else 0
  }

  /** The flag byte's top bit says that there is a colour table, its last three how many colours: 2 to 256, of 3 bytes each. */
  lemma TableIsColours(there: bool, other: nat, size: nat)
    requires other < 16 && size < 8
    ensures TableSize((if there then 128 else 0) + 8 * other + size)
         == if there then 3 * [2, 4, 8, 16, 32, 64, 128, 256][size] else 0
  {
    assert (8 * other + size) % 8 == size && (128 + 8 * other + size) % 8 == size;
    assert Pow2(1) == 2 && Pow2(2) == 4 && Pow2(3) == 8 && Pow2(4) == 16;
    assert Pow2(5) == 32 && Pow2(6) == 64 && Pow2(7) == 128 && Pow2(8) == 256;
  }

  datatype Skipped = PastEnd | Next(pos: nat)

  /** The position behind the sub-blocks at `pos` and the empty one that ends them. */
  function SkipSubs(data: Bytes, pos: nat): (r: Skipped)
    ensures r.Next? ==> pos < r.pos <= |data|
    decreases |data| - pos
  {
    if pos >= |data| then PastEnd
    else if data[pos] == 0 then Next(pos + 1)
    else SkipSubs(data, pos + 1 + data[pos])
  }

  /** The first sub-block at `pos`, empty when there is none. */
  function FirstSub(data: Bytes, pos: nat): Bytes {
    if pos < |data| && data[pos] != 0 then data[pos+1..Min(pos + 1 + data[pos], |data|)] else []
  }

  /** Where the sub-blocks of the image whose introducer is at `pos` start; `None` past the end of its descriptor. */
  function ImageData(data: Bytes, pos: nat): Skipped {
    if pos + 9 >= |data| then PastEnd else Next(pos + 10 + TableSize(data[pos+9]) + 1)
  }

  /** One block read: the walk stops, or goes on behind the block with what it found in it. */
  datatype Read = Stop(clean: bool) | GoOn(found: seq<Extension>, pos: nat)

  function ReadExtension(data: Bytes, pos: nat): (r: Read)
    ensures r.GoOn? ==> pos < r.pos <= |data|
  {
    if pos + 1 >= |data| then Stop(false)
    else
      match SkipSubs(data, pos + 2)
      case PastEnd => Stop(false)
      case Next(p) => GoOn([Extension(data[pos+1], FirstSub(data, pos + 2))], p)
  }

  function ReadImage(data: Bytes, pos: nat): (r: Read)
    ensures r.GoOn? ==> pos < r.pos <= |data|
  {
    match ImageData(data, pos)
    case PastEnd => Stop(false)
    case Next(start) =>
      match SkipSubs(data, start)
      case PastEnd => Stop(false)
      case Next(p) => GoOn([], p)
  }

  function ReadBlock(data: Bytes, pos: nat): (r: Read)
    ensures r.GoOn? ==> pos < r.pos <= |data|
  {
    if pos >= |data| || data[pos] == TRAILER then Stop(true)
    else if data[pos] == EXTENSION then ReadExtension(data, pos)
    else if data[pos] == IMAGE then ReadImage(data, pos)
    else Stop(false)
  }

  function Walk(data: Bytes, pos: nat): Walked
    decreases |data| - pos
  {
    match ReadBlock(data, pos)
    case Stop(clean) => Walked([], clean)
    case GoOn(found, p) =>
      var rest := Walk(data, p);
      Walked(found + rest.found, rest.clean)
  }

  function WalkGif(data: Bytes): Walked {
    if |data| <= 10 then Walked([], false) else Walk(data, 13 + TableSize(data[10]))
  }

  // ----- the walker

  /** Skips sub-blocks from `pos`, remembering the first. */
  method ReadSubs(data: Bytes, pos: nat) returns (r: Skipped, first: Bytes)
    ensures r == SkipSubs(data, pos)
    ensures r.Next? ==> first == FirstSub(data, pos)
  {
    first := [];
    var p := pos;
    while p < |data| && data[p] != 0
      invariant SkipSubs(data, p) == SkipSubs(data, pos)
      invariant p > pos ==> first == FirstSub(data, pos) && pos < |data| && data[pos] != 0
      invariant p > pos && p <= |data| ==> first != []
      invariant p == pos ==> first == []
      decreases |data| - p
    {
      if first == [] {
        first := data[p+1..Min(p + 1 + data[p], |data|)];
      }
      p := p + 1 + data[p];
    }
    r := if p < |data| then Next(p + 1) else PastEnd;
  }

  method GifExtensions(data: Bytes) returns (w: Walked)
    ensures w == WalkGif(data)
  {
    if |data| <= 10 {
      return Walked([], false);
    }
    var found: seq<Extension> := [];
    var pos := 13 + TableSize(data[10]);
    while pos < |data|
      invariant found + Walk(data, pos).found == WalkGif(data).found
      invariant Walk(data, pos).clean == WalkGif(data).clean
      decreases |data| - pos
    {
      var read := ReadNext(data, pos);
      if read.Stop? {
        return Walked(found, read.clean);
      }
      found := found + read.found;
      pos := read.pos;
    }
    return Walked(found, true);
  }

  /** Reads the block at `pos`. */
  method ReadNext(data: Bytes, pos: nat) returns (r: Read)
    requires pos < |data|
    ensures r == ReadBlock(data, pos)
  {
    var intro := data[pos];
    if intro == TRAILER {
      return Stop(true);
    } else if intro == EXTENSION {
      if pos + 1 >= |data| {
        return Stop(false);
      }
      var next, first := ReadSubs(data, pos + 2);
      return if next.PastEnd? then Stop(false) else GoOn([Extension(data[pos+1], first)], next.pos);
    } else if intro == IMAGE {
      var start := ImageData(data, pos);
      if start.PastEnd? {
        return Stop(false);
      }
      var next, _ := ReadSubs(data, start.pos);
      return if next.PastEnd? then Stop(false) else GoOn([], next.pos);
    }
    return Stop(false);
  }

  // ----- GIFs as they are built (GIF89a specification, sections 15, 18, 20 and 26)

  datatype Block =
    | ExtensionBlock(code: byte, subs: seq<Bytes>)
    | ImageBlock(place: Bytes, flags: byte, table: Bytes, lzw: byte, subs: seq<Bytes>)

  /** `tail` is whatever follows the trailer; without a trailer the file just ends. */
  datatype Gif = Gif(head: Bytes, flags: byte, screen: Bytes, table: Bytes, blocks: seq<Block>, trailer: bool, tail: Bytes)

  ghost predicate SubsOk(subs: seq<Bytes>) {
    forall i | 0 <= i < |subs| :: 0 < |subs[i]| < 256
  }

  ghost predicate BlockOk(b: Block) {
    SubsOk(b.subs) && (b.ImageBlock? ==> |b.place| == 8 && |b.table| == TableSize(b.flags))
  }

  ghost predicate BlocksOk(blocks: seq<Block>) {
    forall i | 0 <= i < |blocks| :: BlockOk(blocks[i])
  }

  ghost predicate GifOk(g: Gif) {
    && |g.head| == 10 && |g.screen| == 2 && |g.table| == TableSize(g.flags)
    && BlocksOk(g.blocks)
    && (!g.trailer ==> g.tail == [])
  }

  /** A sub-block's size byte. */
  function SizeByte(sub: Bytes): byte { |sub| % 256 }

  function EncodeSubs(subs: seq<Bytes>): Bytes {
    if subs == [] then [0] else [SizeByte(subs[0])] + subs[0] + EncodeSubs(subs[1..])
  }

  /** What stands before a block's sub-blocks. */
  function BlockHead(b: Block): Bytes {
    match b
    case ExtensionBlock(code, _) => [EXTENSION, code]
    case ImageBlock(place, flags, table, lzw, _) => [IMAGE] + place + [flags] + table + [lzw]
  }

  function EncodeBlock(b: Block): Bytes { BlockHead(b) + EncodeSubs(b.subs) }

  function EncodeBlocks(blocks: seq<Block>): Bytes {
    if blocks == [] then [] else EncodeBlock(blocks[0]) + EncodeBlocks(blocks[1..])
  }

  function Ending(trailer: bool, tail: Bytes): Bytes {
    if trailer then [TRAILER] + tail else tail
  }

  function Encode(g: Gif): Bytes {
    Front(g) + EncodeBlocks(g.blocks) + Ending(g.trailer, g.tail)
  }

  /** Each extension with its first sub-block, in order. */
  function ExtensionsOf(blocks: seq<Block>): seq<Extension> {
    if blocks == [] then []
    else Found(blocks[0]) + ExtensionsOf(blocks[1..])
  }

  /** The first sub-block takes its size byte and its bytes; the others follow. */
  lemma FirstSubHeld(data: Bytes, pos: nat, subs: seq<Bytes>)
    requires SubsOk(subs) && subs != [] && Holds(data, pos, EncodeSubs(subs))
    ensures data[pos] == |subs[0]| && Holds(data, pos + 1, subs[0])
    ensures Holds(data, pos + 1 + |subs[0]|, EncodeSubs(subs[1..]))
    ensures |EncodeSubs(subs)| == 1 + |subs[0]| + |EncodeSubs(subs[1..])|
  {
    var size, rest := [SizeByte(subs[0])], EncodeSubs(subs[1..]);
    HoldsParts(data, pos, size + subs[0], rest);
    HoldsParts(data, pos, size, subs[0]);
    assert size[0] == |subs[0]|;
  }

  lemma {:induction false} SubsSkipped(data: Bytes, pos: nat, subs: seq<Bytes>)
    requires SubsOk(subs) && Holds(data, pos, EncodeSubs(subs))
    ensures SkipSubs(data, pos) == Next(pos + |EncodeSubs(subs)|)
    decreases |subs|
  {
    if subs == [] {
      assert EncodeSubs(subs)[0] == 0;
    } else {
      FirstSubHeld(data, pos, subs);
      SubsSkipped(data, pos + 1 + |subs[0]|, subs[1..]);
    }
  }

  lemma FirstIsFirst(data: Bytes, pos: nat, subs: seq<Bytes>)
    requires SubsOk(subs) && Holds(data, pos, EncodeSubs(subs))
    ensures FirstSub(data, pos) == if subs == [] then [] else subs[0]
  {
    if subs == [] {
      assert EncodeSubs(subs)[0] == 0;
    } else {
      FirstSubHeld(data, pos, subs);
    }
  }

  /** `after` preceded by what was found before it. */
  function Preceded(found: seq<Extension>, after: Walked): Walked {
    Walked(found + after.found, after.clean)
  }

  /** At `p`, `walk` goes on behind the block read there. */
  ghost predicate StepsOver(data: Bytes, walk: nat -> Walked, p: nat) {
    var r := ReadBlock(data, p);
    r.GoOn? ==> walk(p) == Preceded(r.found, walk(r.pos))
  }

  /** `walk` goes from block to block as the walker does. */
  ghost predicate Walks(data: Bytes, walk: nat -> Walked) {
    forall p: nat :: StepsOver(data, walk, p)
  }

  lemma FirstBlockHeld(data: Bytes, pos: nat, blocks: seq<Block>, next: nat)
    requires blocks != [] && Holds(data, pos, EncodeBlocks(blocks)) && next == pos + |EncodeBlock(blocks[0])|
    ensures Holds(data, pos, EncodeBlock(blocks[0]))
    ensures Holds(data, next, EncodeBlocks(blocks[1..]))
    ensures next + |EncodeBlocks(blocks[1..])| == pos + |EncodeBlocks(blocks)|
  {
    FirstEncoded(blocks);
    HeldBehind(data, pos, EncodeBlocks(blocks), EncodeBlock(blocks[0]), EncodeBlocks(blocks[1..]), next);
  }

  lemma FirstEncoded(blocks: seq<Block>)
    requires blocks != []
    ensures EncodeBlocks(blocks) == EncodeBlock(blocks[0]) + EncodeBlocks(blocks[1..])
  {
  }

  lemma BlockStepped(data: Bytes, pos: nat, b: Block, walk: nat -> Walked)
    requires BlockOk(b) && Holds(data, pos, EncodeBlock(b)) && Walks(data, walk)
    ensures walk(pos) == Preceded(Found(b), walk(pos + |EncodeBlock(b)|))
  {
    BlockRead(data, pos, b);
    assert StepsOver(data, walk, pos);
  }

  lemma {:induction false} BlocksWalked(data: Bytes, pos: nat, blocks: seq<Block>, walk: nat -> Walked, end: nat)
    requires BlocksOk(blocks) && Walks(data, walk)
    requires Holds(data, pos, EncodeBlocks(blocks)) && end == pos + |EncodeBlocks(blocks)|
    ensures walk(pos) == Preceded(ExtensionsOf(blocks), walk(end))
    decreases |blocks|
  {
    if blocks == [] {
      assert [] + walk(end).found == walk(end).found;
    } else {
      var next := pos + |EncodeBlock(blocks[0])|;
      FirstBlockHeld(data, pos, blocks, next);
      BlockStepped(data, pos, blocks[0], walk);
      BlocksWalked(data, next, blocks[1..], walk, end);
      PrecededTwice(Found(blocks[0]), ExtensionsOf(blocks[1..]), walk(end));
    }
  }

  lemma PrecededTwice(a: seq<Extension>, b: seq<Extension>, w: Walked)
    ensures Preceded(a, Preceded(b, w)) == Preceded(a + b, w)
  {
    assert a + (b + w.found) == (a + b) + w.found;
  }

  function Found(b: Block): seq<Extension> {
    match b
    case ExtensionBlock(code, subs) => [Extension(code, if subs == [] then [] else subs[0])]
    case ImageBlock(_, _, _, _, _) => []
  }

  lemma BlockRead(data: Bytes, pos: nat, b: Block)
    requires BlockOk(b) && Holds(data, pos, EncodeBlock(b))
    ensures ReadBlock(data, pos) == GoOn(Found(b), pos + |EncodeBlock(b)|)
  {
    match b {
      case ExtensionBlock(code, subs) =>
        HoldsParts(data, pos, [EXTENSION, code], EncodeSubs(subs));
        assert ([EXTENSION, code])[0] == data[pos+0];
        assert ([EXTENSION, code])[1] == data[pos+1];
        SubsSkipped(data, pos + 2, subs);
        FirstIsFirst(data, pos + 2, subs);
      case ImageBlock(place, flags, table, lzw, subs) =>
        ImageRead(data, pos, b);
    }
  }

  lemma ImageRead(data: Bytes, pos: nat, b: Block)
    requires BlockOk(b) && b.ImageBlock? && Holds(data, pos, EncodeBlock(b))
    ensures data[pos] == IMAGE && ReadImage(data, pos) == GoOn([], pos + |EncodeBlock(b)|)
  {
    var descriptor, coded := [IMAGE] + b.place + [b.flags], EncodeSubs(b.subs);
    var rest := b.table + [b.lzw] + coded;
    assert BlockHead(b) + coded == descriptor + rest;
    HoldsParts(data, pos, descriptor, rest);
    assert (descriptor)[0] == data[pos+0];
    assert (descriptor)[9] == data[pos+9];
    assert ImageData(data, pos) == Next(pos + 10 + |b.table| + 1);
    HoldsParts(data, pos + 10, b.table + [b.lzw], coded);
    SubsSkipped(data, pos + 10 + |b.table| + 1, b.subs);
  }

  /** What stands before the blocks: header, screen descriptor and the global colour table. */
  function Front(g: Gif): Bytes { g.head + [g.flags] + g.screen + g.table }

  lemma FrontIsRead(g: Gif)
    requires GifOk(g)
    ensures |Front(g)| == 13 + TableSize(g.flags) && Front(g)[10] == g.flags
  {
  }

  lemma HeldInThree(data: Bytes, front: Bytes, blocks: Bytes, ending: Bytes)
    requires data == front + blocks + ending
    ensures Holds(data, 0, front) && Holds(data, |front|, blocks) && Holds(data, |front| + |blocks|, ending)
    ensures |data| == |front| + |blocks| + |ending|
  {
    HeldApart(data, 0, data, front + blocks, ending);
    HoldsParts(data, 0, front, blocks);
  }

  /** Where the blocks of a GIF start, and what stands behind them. */
  lemma EncodingParts(g: Gif, data: Bytes)
    requires GifOk(g) && data == Encode(g)
    ensures |data| > 10 && data[10] == g.flags
    ensures var start := 13 + TableSize(g.flags);
            && Holds(data, start, EncodeBlocks(g.blocks))
            && Holds(data, start + |EncodeBlocks(g.blocks)|, Ending(g.trailer, g.tail))
            && |data| == start + |EncodeBlocks(g.blocks)| + |Ending(g.trailer, g.tail)|
  {
    FrontIsRead(g);
    HeldInThree(data, Front(g), EncodeBlocks(g.blocks), Ending(g.trailer, g.tail));
    assert Front(g)[10] == data[0+10];
  }

  lemma WalkIsAWalk(data: Bytes)
    ensures Walks(data, (p: nat) => Walk(data, p))
  {
  }

  /** For every well-formed GIF the walker yields exactly its extensions with their first sub-block, in order. */
  lemma WalkReadsEncoding(g: Gif)
    requires GifOk(g)
    ensures WalkGif(Encode(g)) == Walked(ExtensionsOf(g.blocks), true)
  {
    var data, walk := Encode(g), (p: nat) => Walk(Encode(g), p);
    var start := 13 + TableSize(g.flags);
    EncodingParts(g, data);
    WalkIsAWalk(data);
    var end := start + |EncodeBlocks(g.blocks)|;
    BlocksWalked(data, start, g.blocks, walk, end);
    WalkEnds(data, end, g.trailer, g.tail);
    assert Preceded(ExtensionsOf(g.blocks), Walked([], true)).found == ExtensionsOf(g.blocks);
  }

  lemma WalkEnds(data: Bytes, pos: nat, trailer: bool, tail: Bytes)
    requires !trailer ==> tail == []
    requires Holds(data, pos, Ending(trailer, tail))
    requires |data| == pos + |Ending(trailer, tail)|
    ensures Walk(data, pos) == Walked([], true)
  {
    if trailer {
      assert ([TRAILER] + tail)[0] == data[pos+0];
    }
  }

  // ----- what the walker accepts

  lemma {:induction false} SubsBack(data: Bytes, pos: nat, end: nat) returns (subs: seq<Bytes>)
    requires SkipSubs(data, pos) == Next(end)
    ensures SubsOk(subs) && pos <= end <= |data| && data[pos..end] == EncodeSubs(subs)
    decreases |data| - pos
  {
    var size := data[pos];
    if size == 0 {
      subs := [];
    } else {
      var first, next := data[pos+1..pos+1+size], pos + 1 + size;
      var rest := SubsBack(data, next, end);
      subs := [first] + rest;
      assert subs[1..] == rest && subs[0] == first;
      assert data[pos..end] == [size] + first + data[next..end];
    }
  }

  /** Every block that is read is the encoding of one. */
  lemma BlockBack(data: Bytes, pos: nat) returns (b: Block)
    requires ReadBlock(data, pos).GoOn?
    ensures BlockOk(b) && data[pos..ReadBlock(data, pos).pos] == EncodeBlock(b)
  {
    if data[pos] == EXTENSION {
      b := ExtensionBack(data, pos);
    } else {
      b := ImageBack(data, pos);
    }
  }

  lemma ExtensionBack(data: Bytes, pos: nat) returns (b: Block)
    requires ReadExtension(data, pos).GoOn? && data[pos] == EXTENSION
    ensures BlockOk(b) && data[pos..ReadExtension(data, pos).pos] == EncodeBlock(b)
  {
    var end := ReadExtension(data, pos).pos;
    var subs := SubsBack(data, pos + 2, end);
    b := ExtensionBlock(data[pos+1], subs);
    assert data[pos..end] == data[pos..pos+2] + data[pos+2..end];
    assert data[pos..pos+2] == BlockHead(b);
  }

  lemma ImageBack(data: Bytes, pos: nat) returns (b: Block)
    requires ReadImage(data, pos).GoOn? && pos < |data| && data[pos] == IMAGE
    ensures BlockOk(b) && data[pos..ReadImage(data, pos).pos] == EncodeBlock(b)
  {
    var end, table := ReadImage(data, pos).pos, TableSize(data[pos+9]);
    var start := pos + 10 + table + 1;
    var subs := SubsBack(data, start, end);
    b := ImageBlock(data[pos+1..pos+9], data[pos+9], data[pos+10..pos+10+table], data[pos+10+table], subs);
    assert data[pos..end] == data[pos..start] + data[start..end];
    HeadBack(data, pos, b, table);
  }

  lemma HeadBack(data: Bytes, pos: nat, b: Block, table: nat)
    requires pos + 10 + table < |data| && data[pos] == IMAGE && b.ImageBlock?
    requires b.place == data[pos+1..pos+9] && b.flags == data[pos+9]
    requires b.table == data[pos+10..pos+10+table] && b.lzw == data[pos+10+table]
    ensures data[pos..pos+10+table+1] == BlockHead(b)
  {
    var head := [IMAGE] + b.place + [b.flags] + b.table + [b.lzw];
    forall k | 0 <= k < |head| ensures data[pos..pos+10+table+1][k] == head[k] {
      assert data[pos..pos+10+table+1][k] == data[pos+k];
    }
  }

  lemma {:induction false} WalkBack(data: Bytes, pos: nat) returns (blocks: seq<Block>, trailer: bool, tail: Bytes)
    requires Walk(data, pos).clean && pos <= |data|
    ensures BlocksOk(blocks) && (!trailer ==> tail == [])
    ensures data[pos..] == EncodeBlocks(blocks) + Ending(trailer, tail)
    decreases |data| - pos
  {
    var r := ReadBlock(data, pos);
    if r.Stop? {
      blocks, trailer, tail := [], pos < |data|, if pos < |data| then data[pos+1..] else [];
      assert pos < |data| ==> data[pos..] == [TRAILER] + data[pos+1..];
    } else {
      var first := BlockBack(data, pos);
      var rest;
      rest, trailer, tail := WalkBack(data, r.pos);
      blocks := [first] + rest;
      JoinBack(data, pos, r.pos, first, rest, Ending(trailer, tail));
    }
  }

  lemma JoinBack(data: Bytes, pos: nat, next: nat, first: Block, rest: seq<Block>, ending: Bytes)
    requires pos <= next <= |data| && data[pos..next] == EncodeBlock(first) && data[next..] == EncodeBlocks(rest) + ending
    ensures data[pos..] == EncodeBlocks([first] + rest) + ending
  {
    var blocks := [first] + rest;
    assert blocks[0] == first && blocks[1..] == rest;
    FirstEncoded(blocks);
    assert data[pos..] == data[pos..next] + data[next..];
    ThreeParts(EncodeBlock(first), EncodeBlocks(rest), ending);
  }

  lemma ThreeParts(a: Bytes, b: Bytes, c: Bytes)
    ensures a + (b + c) == (a + b) + c
  {
  }

  ghost predicate Encodes(g: Gif, data: Bytes) { GifOk(g) && Encode(g) == data }

  /** The walk starts inside the file and is clean. */
  predicate WalksThrough(data: Bytes) {
    |data| > 10 && 13 + TableSize(data[10]) <= |data| && Walk(data, 13 + TableSize(data[10])).clean
  }

  lemma AcceptedIsEncoded(data: Bytes) returns (g: Gif)
    requires WalksThrough(data)
    ensures Encodes(g, data)
  {
    var start := 13 + TableSize(data[10]);
    var blocks, trailer, tail := WalkBack(data, start);
    g := Gif(data[..10], data[10], data[11..13], data[13..start], blocks, trailer, tail);
    FrontBack(data, g, start);
  }

  lemma EncodedIsAccepted(data: Bytes, g: Gif)
    requires Encodes(g, data)
    ensures WalksThrough(data)
  {
    WalkReadsEncoding(g);
    EncodingParts(g, data);
    assert WalkGif(data) == Walk(data, 13 + TableSize(data[10]));
  }

  /** The files the walker gets through, from a start inside them, are exactly the encodings of well-formed GIFs. */
  lemma WalkAcceptsEncodings(data: Bytes)
    ensures WalksThrough(data) <==> exists g :: Encodes(g, data)
  {
    if WalksThrough(data) {
      var g := AcceptedIsEncoded(data);
      assert Encodes(g, data);
    }
    forall g | Encodes(g, data) ensures WalksThrough(data) {
      EncodedIsAccepted(data, g);
    }
  }

  lemma FrontBack(data: Bytes, g: Gif, start: nat)
    requires 13 <= start <= |data| && g.head == data[..10] && g.flags == data[10] && g.screen == data[11..13]
    requires g.table == data[13..start] && data[start..] == EncodeBlocks(g.blocks) + Ending(g.trailer, g.tail)
    ensures Encode(g) == data
  {
    assert data[..start] == g.head + [g.flags] + g.screen + g.table;
    assert data == data[..start] + data[start..];
    ThreeParts(data[..start], EncodeBlocks(g.blocks), Ending(g.trailer, g.tail));
  }

  // ----- what counts as metadata

  const NETSCAPE: Bytes := [78, 69, 84, 83, 67, 65, 80, 69, 50, 46, 48]
  const ANIMEXTS: Bytes := [65, 78, 73, 77, 69, 88, 84, 83, 49, 46, 48]

  /** Graphic control, or the application extension that only holds the loop count. */
  predicate PlainExtension(e: Extension) {
    e.code == 0xF9 || (e.code == 0xFF && (NETSCAPE <= e.first || ANIMEXTS <= e.first))
  }

  /** Whether the GIF's blocks carry metadata: an extension that is not plain, or a file that cannot be read to its end. */
  method CarriesMetadata(data: Bytes) returns (yes: bool)
    ensures yes <==> !WalkGif(data).clean || exists e :: e in WalkGif(data).found && !PlainExtension(e)
  {
    var w := GifExtensions(data);
    yes := !w.clean;
    for i := 0 to |w.found|
      invariant yes <==> !w.clean || exists j :: 0 <= j < i && !PlainExtension(w.found[j])
    {
      if !PlainExtension(w.found[i]) {
        yes := true;
      }
    }
  }

  ghost predicate HasMetadata(b: Block) {
    b.ExtensionBlock? && !PlainExtension(Extension(b.code, if b.subs == [] then [] else b.subs[0]))
  }

  /** A well-formed GIF is judged by its blocks alone, whichever frame they precede and whatever the image data holds. */
  lemma {:induction false} MetadataIsInBlocks(blocks: seq<Block>)
    ensures (exists e :: e in ExtensionsOf(blocks) && !PlainExtension(e)) <==>
            exists i :: 0 <= i < |blocks| && HasMetadata(blocks[i])
  {
    if blocks != [] {
      MetadataIsInBlocks(blocks[1..]);
      var rest := ExtensionsOf(blocks[1..]);
      assert forall e | e in rest :: e in ExtensionsOf(blocks);
      assert forall i | 0 <= i < |blocks| - 1 :: blocks[1..][i] == blocks[i+1];
      if i :| 0 <= i < |blocks| && HasMetadata(blocks[i]) {
        if i == 0 {
          assert ExtensionsOf(blocks)[0] in ExtensionsOf(blocks);
        } else {
          assert HasMetadata(blocks[1..][i-1]);
        }
      }
      if e :| e in ExtensionsOf(blocks) && !PlainExtension(e) {
        if e in rest {
          var i :| 0 <= i < |blocks[1..]| && HasMetadata(blocks[1..][i]);
          assert HasMetadata(blocks[i+1]);
        } else {
          assert HasMetadata(blocks[0]);
        }
      }
    }
  }

  /** What a block is, by its label (section 12 and appendix A of the GIF89a specification). */
  datatype Role = Image | GraphicControl | Comment | PlainText | Application(identifier: Bytes) | Unknown

  function RoleOf(b: Block): Role {
    match b
    case ImageBlock(_, _, _, _, _) => Image
    case ExtensionBlock(code, subs) =>
      match code
      case 249 => GraphicControl
      case 254 => Comment
      case 1 => PlainText
      case 255 => Application(if subs == [] then [] else subs[0])
      case _ => Unknown
  }

  predicate StartsWith(id: Bytes, text: string) {
    |text| <= |id| && forall i | 0 <= i < |text| :: id[i] == text[i] as int
  }

  /** Pictures and their timing say nothing more, nor does the loop count; every other block may. */
  predicate TellsMore(role: Role) {
    match role
    case Image => false
    case GraphicControl => false
    case Comment => true
    case PlainText => true
    case Unknown => true
    case Application(id) => !StartsWith(id, "NETSCAPE2.0") && !StartsWith(id, "ANIMEXTS1.0")
  }

  lemma StartIs(id: Bytes, text: string, bytes: Bytes)
    requires |bytes| == |text| && forall i | 0 <= i < |text| :: bytes[i] == text[i] as int
    ensures StartsWith(id, text) <==> bytes <= id
  {
    if StartsWith(id, text) {
      assert id[..|text|] == bytes;
    }
  }

  lemma RoleDecides(b: Block)
    ensures HasMetadata(b) <==> TellsMore(RoleOf(b))
  {
    if b.ExtensionBlock? && b.code == 255 {
      var id: Bytes := if b.subs == [] then [] else b.subs[0];
      StartIs(id, "NETSCAPE2.0", NETSCAPE);
      StartIs(id, "ANIMEXTS1.0", ANIMEXTS);
    }
  }

  /**
   A well-formed GIF carries metadata exactly when it holds a comment, a plain text, a block of unknown label, or an
   application block other than the two that hold the loop count.
   */
  lemma MetadataByLabel(g: Gif)
    requires GifOk(g)
    ensures (!WalkGif(Encode(g)).clean || exists e :: e in WalkGif(Encode(g)).found && !PlainExtension(e)) <==>
            exists b :: b in g.blocks && TellsMore(RoleOf(b))
  {
    WalkReadsEncoding(g);
    MetadataIsInBlocks(g.blocks);
    forall b ensures HasMetadata(b) <==> TellsMore(RoleOf(b)) {
      RoleDecides(b);
    }
  }
}
