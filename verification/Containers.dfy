/** The image container walkers (service/frame.py): they read the declared size of a PNG, WebP or JPEG
    without decoding it. Each walker is tied to the format's own grammar, in both directions. */
module Containers {
  import opened Detection

  type Byte = x: int | 0 <= x < 256
  type Bytes = seq<Byte>
  datatype Size = Size(width: int, height: int)

  /** Why a walker gives up; the source raises ValueError with a text of its own for each. */
  datatype Fault =
    | UnsupportedFormat | EmptyImage | TooManyBytes | TooSmall | TooLong | TooManyPixels
    | TruncatedPngChunk | BadPngChecksum | BadPngHeader | SecondPngHeader | AnimatedPng | BadPngEnding | IncompletePng
    | BadWebpContainer | TruncatedWebpChunk | BadWebpCanvas | AnimatedWebp | SecondWebpFrame | NoWebpFrame
    | CanvasMismatch
    | IncompleteJpeg | BadJpegMarker | TruncatedJpegSegment | BadJpegSegment | BadJpegHeader | BadJpegSize
    | NoJpegHeader

  datatype Parsed<+T> = Read(value: T) | Bad(fault: Fault)

  // ---- Numbers ---------------------------------------------------------------------------------

  function Big(b: Bytes): nat {
    if b == [] then 0 else 256 * Big(b[..|b| - 1]) + b[|b| - 1]
  }

  function Little(b: Bytes): nat {
    if b == [] then 0 else b[0] + 256 * Little(b[1..])
  }

  /** A number by its bytes, the most significant first. */
  function Word(high: int, low: int): int {
    0x100 * high + low
  }

  function Quad(a: int, b: int, c: int, d: int): int {
    0x1000000 * a + 0x10000 * b + 0x100 * c + d
  }

  /** Big-endian: the first byte weighs most. */
  lemma BigBytes(a: Byte, b: Byte, c: Byte, d: Byte)
    ensures Big([a, b]) == Word(a, b) && Big([a, b, c, d]) == Quad(a, b, c, d)
  {
    assert [a, b, c, d][..3] == [a, b, c] && [a, b, c][..2] == [a, b] && [a, b][..1] == [a] && [a][..0] == [];
    assert Big([a]) == a;
    assert Big([a, b, c]) == 256 * Big([a, b]) + c;
  }

  /** Little-endian: the last byte weighs most. */
  lemma LittleBytes(a: Byte, b: Byte, c: Byte, d: Byte)
    ensures Little([a, b]) == Word(b, a) && Little([a, b, c]) == Quad(0, c, b, a)
    ensures Little([a, b, c, d]) == Quad(d, c, b, a)
  {
    LittlePair(a, b);
    LittlePair(b, c);
    LittlePair(c, d);
    assert [a, b, c][1..] == [b, c];
    assert [b, c, d][1..] == [c, d];
    assert [a, b, c, d][1..] == [b, c, d];
  }

  lemma LittlePair(a: Byte, b: Byte)
    ensures Little([a, b]) == Word(b, a)
  {
    assert [a, b][1..] == [b] && [b][1..] == [];
    assert Little([b]) == b;
  }

  /** Four consecutive pieces make up the bytes they were cut from. */
  lemma Pieces(s: Bytes, a: nat, b: nat, c: nat, d: nat)
    requires a <= b <= c <= d <= |s|
    ensures s[..a] + s[a..b] + s[b..c] + s[c..d] == s[..d] <= s
  {
    assert s[..a] + s[a..b] == s[..b];
    assert s[..b] + s[b..c] == s[..c];
    assert s[..c] + s[c..d] == s[..d];
  }

  lemma Split(start: Bytes, s: Bytes)
    requires start <= s
    ensures s == start + s[|start|..]
  {
  }

  // ---- PNG ---------------------------------------------------------------------------------------

  const PNG_SIGNATURE: Bytes := [0x89, 0x50, 0x4E, 0x47, 0x0D, 0x0A, 0x1A, 0x0A]
  const IHDR: Bytes := [0x49, 0x48, 0x44, 0x52]
  const IEND: Bytes := [0x49, 0x45, 0x4E, 0x44]
  const ACTL: Bytes := [0x61, 0x63, 0x54, 0x4C]

  /** A chunk as it stands in the file: length, type, data and checksum fields. */
  datatype PngChunk = PngChunk(length: Bytes, kind: Bytes, data: Bytes, crc: Bytes) {

    /** The fields fit together: RFC 2083, section 3.2. */
    predicate WellFormed(checksum: Bytes -> nat) {
      && |length| == 4 && |kind| == 4 && |crc| == 4
      && Big(length) == |data| && Big(crc) == checksum(kind + data)
    }

    function Encoded(): Bytes {
      length + kind + data + crc
    }
  }

  function PngStream(chunks: seq<PngChunk>): Bytes {
    if chunks == [] then [] else chunks[0].Encoded() + PngStream(chunks[1..])
  }

  /** The chunks of one still image: one leading 13-byte header, one final empty end, no animation. */
  predicate StillPng(chunks: seq<PngChunk>, checksum: Bytes -> nat) {
    && |chunks| >= 2
    && (forall i :: 0 <= i < |chunks| ==> chunks[i].WellFormed(checksum))
    && chunks[0].kind == IHDR && |chunks[0].data| == 13
    && (forall i :: 0 < i < |chunks| ==> chunks[i].kind != IHDR && chunks[i].kind != ACTL)
    && (forall i :: 0 < i < |chunks| ==> (chunks[i].kind == IEND <==> i == |chunks| - 1))
    && chunks[|chunks| - 1].data == []
  }

  function HeaderSize(data: Bytes): Size
    requires |data| == 13
  {
    Size(Big(data[..4]), Big(data[4..8]))
  }

  /** The first chunk of `s`, cut as its length field says; None if the bytes end before the chunk does. */
  function FirstChunk(s: Bytes): (r: Option<PngChunk>)
    ensures r.Some? ==> r.value.Encoded() <= s && |r.value.Encoded()| >= 12
  {
    if |s| < 12 || 12 + Big(s[..4]) > |s| then None
    else
      var n := Big(s[..4]);
      var chunk := PngChunk(s[..4], s[4..8], s[8..8 + n], s[8 + n..12 + n]);
      Pieces(s, 4, 8, 8 + n, 12 + n);
      Some(chunk)
  }

  datatype Verdict = Reject(fault: Fault) | Accept(size: Size) | Continue(size: Size)

  /** What one chunk decides; `size` is set once the header has been read. */
  function JudgePng(chunk: PngChunk, size: Option<Size>, atEnd: bool, checksum: Bytes -> nat): Verdict {
    if checksum(chunk.kind + chunk.data) != Big(chunk.crc) then Reject(BadPngChecksum)
    else if size == None && (chunk.kind != IHDR || |chunk.data| != 13) then Reject(BadPngHeader)
    else if size != None && chunk.kind == IHDR then Reject(SecondPngHeader)
    else if chunk.kind == ACTL then Reject(AnimatedPng)
    else if chunk.kind == IEND then
      if chunk.data != [] || !atEnd then Reject(BadPngEnding) else Accept(size.value)
    else Continue(if size == None then HeaderSize(chunk.data) else size.value)
  }

  /** What the walker makes of the chunks from here on. */
  function PngWalk(s: Bytes, size: Option<Size>, checksum: Bytes -> nat): Parsed<Size>
    decreases |s|
  {
    if |s| < 12 then Bad(IncompletePng)
    else
      match FirstChunk(s)
      case None => Bad(TruncatedPngChunk)
      case Some(chunk) =>
        var length := |chunk.Encoded()|;
        match JudgePng(chunk, size, length == |s|, checksum)
        case Reject(fault) => Bad(fault)
        case Accept(found) => Read(found)
        case Continue(found) => PngWalk(s[length..], Some(found), checksum)
  }

  /** A well-formed chunk is cut back out of any bytes it starts. */
  lemma FirstChunkInverts(chunk: PngChunk, rest: Bytes, checksum: Bytes -> nat)
    requires chunk.WellFormed(checksum)
    ensures FirstChunk(chunk.Encoded() + rest) == Some(chunk)
    ensures (chunk.Encoded() + rest)[|chunk.Encoded()|..] == rest
  {
    var s := chunk.Encoded() + rest;
    var n := |chunk.data|;
    assert s[..4] == chunk.length;
    assert s[4..8] == chunk.kind;
    assert s[8..8 + n] == chunk.data;
    assert s[8 + n..12 + n] == chunk.crc;
  }

  /** The chunks still to come once the header has been read. */
  predicate PngTail(chunks: seq<PngChunk>, checksum: Bytes -> nat) {
    && |chunks| >= 1
    && (forall i :: 0 <= i < |chunks| ==> chunks[i].WellFormed(checksum))
    && (forall i :: 0 <= i < |chunks| ==> chunks[i].kind != IHDR && chunks[i].kind != ACTL)
    && (forall i :: 0 <= i < |chunks| ==> (chunks[i].kind == IEND <==> i == |chunks| - 1))
    && chunks[|chunks| - 1].data == []
  }

  lemma {:induction false} TailAccepted(chunks: seq<PngChunk>, size: Size, checksum: Bytes -> nat)
    requires PngTail(chunks, checksum)
    ensures PngWalk(PngStream(chunks), Some(size), checksum) == Read(size)
  {
    var rest := chunks[1..];
    FirstChunkInverts(chunks[0], PngStream(rest), checksum);
    if rest == [] {
      assert chunks[0].kind == IEND;
    } else {
      assert forall i :: 0 <= i < |rest| ==> rest[i] == chunks[i + 1];
      assert chunks[0].kind != IEND;
      TailAccepted(rest, size, checksum);
    }
  }

  lemma {:induction false} AcceptedTail(s: Bytes, size: Size, checksum: Bytes -> nat) returns (chunks: seq<PngChunk>)
    requires PngWalk(s, Some(size), checksum).Read?
    ensures PngTail(chunks, checksum) && PngStream(chunks) == s
    ensures PngWalk(s, Some(size), checksum) == Read(size)
    decreases |s|
  {
    var chunk := FirstChunk(s).value;
    var length := |chunk.Encoded()|;
    Split(chunk.Encoded(), s);
    if chunk.kind == IEND {
      chunks := [chunk];
      assert s[length..] == [];
      StreamCons(chunk, []);
    } else {
      var rest := AcceptedTail(s[length..], size, checksum);
      chunks := [chunk] + rest;
      TailCons(chunk, rest, checksum);
      StreamCons(chunk, rest);
    }
  }

  lemma StreamCons(chunk: PngChunk, rest: seq<PngChunk>)
    ensures PngStream([chunk] + rest) == chunk.Encoded() + PngStream(rest)
  {
    assert ([chunk] + rest)[1..] == rest;
  }

  lemma TailCons(chunk: PngChunk, rest: seq<PngChunk>, checksum: Bytes -> nat)
    requires chunk.WellFormed(checksum) && chunk.kind != IHDR && chunk.kind != ACTL && chunk.kind != IEND
             && PngTail(rest, checksum)
    ensures PngTail([chunk] + rest, checksum)
  {
    var chunks := [chunk] + rest;
    assert forall i :: 0 < i < |chunks| ==> chunks[i] == rest[i - 1];
  }

  predicate PngDispatched(encoded: Bytes)
    ensures PngDispatched(encoded) ==> |encoded| >= 8
  {
    PNG_SIGNATURE <= encoded
  }

  /** `encoded` is the file of a still image whose chunks are these. */
  ghost predicate PngFile(chunks: seq<PngChunk>, encoded: Bytes, size: Size, checksum: Bytes -> nat) {
    StillPng(chunks, checksum) && encoded == PNG_SIGNATURE + PngStream(chunks) && size == HeaderSize(chunks[0].data)
  }

  ghost predicate IsPng(encoded: Bytes, size: Size, checksum: Bytes -> nat) {
    exists chunks :: PngFile(chunks, encoded, size, checksum)
  }

  lemma AcceptedIsPng(encoded: Bytes, size: Size, checksum: Bytes -> nat)
    requires PngDispatched(encoded) && PngWalk(encoded[8..], None, checksum) == Read(size)
    ensures IsPng(encoded, size, checksum)
  {
    var s := encoded[8..];
    assert encoded == PNG_SIGNATURE + s;
    var chunk := FirstChunk(s).value;
    var rest := AcceptedTail(s[|chunk.Encoded()|..], HeaderSize(chunk.data), checksum);
    var chunks := [chunk] + rest;
    StillFromTail(chunk, rest, checksum);
    hide StillPng, PngTail, PngWalk;
    Split(chunk.Encoded(), s);
    assert chunks[1..] == rest;
    assert PngFile(chunks, encoded, size, checksum);
  }

  lemma StillFromTail(chunk: PngChunk, rest: seq<PngChunk>, checksum: Bytes -> nat)
    requires chunk.WellFormed(checksum) && chunk.kind == IHDR && |chunk.data| == 13 && PngTail(rest, checksum)
    ensures StillPng([chunk] + rest, checksum)
  {
    var chunks := [chunk] + rest;
    assert forall i :: 0 < i < |chunks| ==> chunks[i] == rest[i - 1];
  }

  /** After its header chunk, the rest of a still image is a tail. */
  lemma StillHasTail(chunks: seq<PngChunk>, checksum: Bytes -> nat)
    requires StillPng(chunks, checksum)
    ensures PngTail(chunks[1..], checksum)
    ensures chunks[0].WellFormed(checksum) && chunks[0].kind == IHDR && |chunks[0].data| == 13
  {
    var rest := chunks[1..];
    assert forall i :: 0 <= i < |rest| ==> rest[i] == chunks[i + 1];
  }

  /** The walk over a header chunk goes on with the header's size. */
  lemma HeaderGoesOn(header: PngChunk, rest: Bytes, checksum: Bytes -> nat)
    requires header.WellFormed(checksum) && header.kind == IHDR && |header.data| == 13
    ensures PngWalk(header.Encoded() + rest, None, checksum) == PngWalk(rest, Some(HeaderSize(header.data)), checksum)
  {
    hide Big;
    FirstChunkInverts(header, rest, checksum);
    HeaderVerdict(header, |header.Encoded()| == |header.Encoded() + rest|, checksum);
    hide JudgePng, FirstChunk, HeaderSize;
  }

  lemma HeaderVerdict(header: PngChunk, atEnd: bool, checksum: Bytes -> nat)
    requires header.WellFormed(checksum) && header.kind == IHDR && |header.data| == 13
    ensures JudgePng(header, None, atEnd, checksum) == Continue(HeaderSize(header.data))
  {
    hide Big, HeaderSize;
  }

  lemma PngIsAccepted(chunks: seq<PngChunk>, encoded: Bytes, size: Size, checksum: Bytes -> nat)
    requires PngFile(chunks, encoded, size, checksum)
    ensures PngWalk(encoded[8..], None, checksum) == Read(size)
  {
    assert encoded[8..] == PngStream(chunks);
    StillHasTail(chunks, checksum);
    hide StillPng, PngTail, PngWalk, HeaderSize;
    HeaderGoesOn(chunks[0], PngStream(chunks[1..]), checksum);
    TailAccepted(chunks[1..], size, checksum);
  }

  /** The walker accepts exactly the files of still images and reads their header's size. */
  lemma PngAcceptsExactly(encoded: Bytes, size: Size, checksum: Bytes -> nat)
    requires PngDispatched(encoded)
    ensures PngWalk(encoded[8..], None, checksum) == Read(size) <==> IsPng(encoded, size, checksum)
  {
    hide PngWalk, PngFile;
    if PngWalk(encoded[8..], None, checksum) == Read(size) {
      AcceptedIsPng(encoded, size, checksum);
    }
    if chunks :| PngFile(chunks, encoded, size, checksum) {
      PngIsAccepted(chunks, encoded, size, checksum);
    }
  }

  /** A PNG's size stands in its bytes 16 to 23: width, then height, the most significant byte first. */
  lemma PngSizeBytes(encoded: Bytes, size: Size, checksum: Bytes -> nat)
    requires IsPng(encoded, size, checksum)
    ensures |encoded| >= 24
    ensures size.width == Quad(encoded[16], encoded[17], encoded[18], encoded[19])
    ensures size.height == Quad(encoded[20], encoded[21], encoded[22], encoded[23])
  {
    var chunks: seq<PngChunk> :| PngFile(chunks, encoded, size, checksum);
    HeaderBytes(chunks[0].data);
    HeaderStands(chunks[0], PngStream(chunks[1..]), encoded);
    hide Big, HeaderSize, Quad;
  }

  /** Where a PNG's header data stands. */
  lemma HeaderStands(header: PngChunk, rest: Bytes, encoded: Bytes)
    requires |header.length| == 4 && |header.kind| == 4 && |header.data| == 13
    requires encoded == PNG_SIGNATURE + (header.Encoded() + rest)
    ensures |encoded| >= 29 && forall i :: 0 <= i < 13 ==> encoded[16 + i] == header.data[i]
  {
  }

  lemma HeaderBytes(data: Bytes)
    requires |data| == 13
    ensures HeaderSize(data).width == Quad(data[0], data[1], data[2], data[3])
    ensures HeaderSize(data).height == Quad(data[4], data[5], data[6], data[7])
  {
    hide Big;
    assert data[..4] == [data[0], data[1], data[2], data[3]];
    assert data[4..8] == [data[4], data[5], data[6], data[7]];
    BigBytes(data[0], data[1], data[2], data[3]);
    BigBytes(data[4], data[5], data[6], data[7]);
  }

  /** `r` is the size of the still image that `encoded` is, or an error when it is none. */
  ghost predicate ReadsPng(encoded: Bytes, r: Parsed<Size>, checksum: Bytes -> nat) {
    forall size :: r == Read(size) <==> IsPng(encoded, size, checksum)
  }

  /** The length field of the chunk that starts at `offset`. */
  function PngLengthAt(encoded: Bytes, offset: nat): nat
    requires offset + 12 <= |encoded|
  {
    Big(encoded[offset..offset + 4])
  }

  /** The chunk that starts at `offset`, as the walker slices it. */
  function PngChunkAt(encoded: Bytes, offset: nat): PngChunk
    requires offset + 12 <= |encoded| && offset + 12 + PngLengthAt(encoded, offset) <= |encoded|
  {
    var end := offset + 8 + PngLengthAt(encoded, offset);
    PngChunk(encoded[offset..offset + 4], encoded[offset + 4..offset + 8], encoded[offset + 8..end],
             encoded[end..end + 4])
  }

  function PngFrom(encoded: Bytes, offset: nat, size: Option<Size>, checksum: Bytes -> nat): Parsed<Size>
    requires offset <= |encoded|
  {
    PngWalk(encoded[offset..], size, checksum)
  }

  lemma PngCutAt(encoded: Bytes, offset: nat)
    requires offset + 12 <= |encoded|
    ensures FirstChunk(encoded[offset..]) ==
            if offset + 12 + PngLengthAt(encoded, offset) > |encoded| then None else Some(PngChunkAt(encoded, offset))
  {
    var s, n := encoded[offset..], PngLengthAt(encoded, offset);
    assert s[..4] == encoded[offset..offset + 4];
    if offset + 12 + n <= |encoded| {
      assert s[4..8] == encoded[offset + 4..offset + 8];
      assert s[8..8 + n] == encoded[offset + 8..offset + 8 + n];
      assert s[8 + n..12 + n] == encoded[offset + 8 + n..offset + 12 + n];
    }
  }

  /** One turn of the loop: the walk from `offset` is decided by the chunk there, or goes on after it. */
  lemma PngTurn(encoded: Bytes, offset: nat, size: Option<Size>, checksum: Bytes -> nat)
    requires offset + 12 <= |encoded|
    ensures var next := offset + 12 + PngLengthAt(encoded, offset);
            PngFrom(encoded, offset, size, checksum) ==
              if next > |encoded| then Bad(TruncatedPngChunk)
              else match JudgePng(PngChunkAt(encoded, offset), size, next == |encoded|, checksum)
                   case Reject(fault) => Bad(fault)
                   case Accept(found) => Read(found)
                   case Continue(found) => PngFrom(encoded, next, Some(found), checksum)
  {
    hide JudgePng, Big;
    PngCutAt(encoded, offset);
    var n := PngLengthAt(encoded, offset);
    if offset + 12 + n <= |encoded| {
      var chunk := PngChunkAt(encoded, offset);
      assert |chunk.Encoded()| == 12 + n;
      assert encoded[offset..][12 + n..] == encoded[offset + 12 + n..];
    }
  }

  lemma PngTooShort(encoded: Bytes, offset: nat, size: Option<Size>, checksum: Bytes -> nat)
    requires offset <= |encoded| < offset + 12
    ensures PngFrom(encoded, offset, size, checksum) == Bad(IncompletePng)
  {
  }

  lemma PngFromReads(encoded: Bytes, checksum: Bytes -> nat)
    requires PngDispatched(encoded)
    ensures ReadsPng(encoded, PngFrom(encoded, 8, None, checksum), checksum)
  {
    hide PngWalk, IsPng;
    forall size ensures PngFrom(encoded, 8, None, checksum) == Read(size) <==> IsPng(encoded, size, checksum) {
      PngAcceptsExactly(encoded, size, checksum);
    }
  }

  method PngDimensions(encoded: Bytes, checksum: Bytes -> nat) returns (r: Parsed<Size>)
    requires |encoded| >= 8
    ensures r == PngFrom(encoded, 8, None, checksum)
  {
    hide PngFrom, JudgePng, PngChunkAt, PngLengthAt;
    var offset := 8;
    var size: Option<Size> := None;
    while offset + 12 <= |encoded|
      invariant 8 <= offset <= |encoded|
      invariant PngFrom(encoded, offset, size, checksum) == PngFrom(encoded, 8, None, checksum)
      decreases |encoded| - offset
    {
      PngTurn(encoded, offset, size, checksum);
      var end := offset + 8 + PngLengthAt(encoded, offset);
      if end + 4 > |encoded| {
        return Bad(TruncatedPngChunk);
      }
      match JudgePng(PngChunkAt(encoded, offset), size, end + 4 == |encoded|, checksum)
      case Reject(fault) => return Bad(fault);
      case Accept(found) => return Read(found);
      case Continue(found) => size := Some(found);
      offset := end + 4;
    }
    PngTooShort(encoded, offset, size, checksum);
    r := Bad(IncompletePng);
  }

  // ---- WebP --------------------------------------------------------------------------------------

  const RIFF: Bytes := [0x52, 0x49, 0x46, 0x46]
  const WEBP: Bytes := [0x57, 0x45, 0x42, 0x50]
  const VP8X: Bytes := [0x56, 0x50, 0x38, 0x58]
  const VP8L: Bytes := [0x56, 0x50, 0x38, 0x4C]
  const VP8: Bytes := [0x56, 0x50, 0x38, 0x20]
  const ANIM: Bytes := [0x41, 0x4E, 0x49, 0x4D]
  const ANMF: Bytes := [0x41, 0x4E, 0x4D, 0x46]

  /** A RIFF chunk as it stands in the file; odd data is followed by one pad byte: RFC 9649, section 2.3. */
  datatype WebpChunk = WebpChunk(kind: Bytes, length: Bytes, data: Bytes, pad: Bytes) {

    predicate WellFormed() {
      |kind| == 4 && |length| == 4 && Little(length) == |data| && |pad| == |data| % 2
    }

    function Encoded(): Bytes {
      kind + length + data + pad
    }

    predicate IsCanvas() {
      kind == VP8X
    }

    /** Of a still image: no animation chunk, and a canvas of ten bytes without the animation flag. */
    predicate Still() {
      && kind != ANIM && kind != ANMF
      && (IsCanvas() ==> |data| == 10 && data[0] / 2 % 2 == 0)
    }

    /** The size in an extended-format header of ten bytes. */
    function CanvasSize(): Option<Size> {
      if IsCanvas() && |data| == 10 then Some(Size(1 + Little(data[4..7]), 1 + Little(data[7..10]))) else None
    }

    /** The size in a lossless or lossy bitstream header; None for any other chunk. */
    function FrameSize(): Option<Size> {
      if kind == VP8L && |data| >= 5 && data[0] == 0x2F then
        var bits := Little(data[1..5]);
        Some(Size(1 + bits % 0x4000, 1 + bits / 0x4000 % 0x4000))
      else if kind == VP8 && |data| >= 10 && data[3..6] == [0x9D, 0x01, 0x2A] then
        Some(Size(Little(data[6..8]) % 0x4000, Little(data[8..10]) % 0x4000))
      else None
    }
  }

  function WebpStream(chunks: seq<WebpChunk>): Bytes {
    if chunks == [] then [] else chunks[0].Encoded() + WebpStream(chunks[1..])
  }

  predicate Sound(chunks: seq<WebpChunk>) {
    forall i :: 0 <= i < |chunks| ==> chunks[i].WellFormed() && chunks[i].Still()
  }

  function Canvases(chunks: seq<WebpChunk>): seq<Size> {
    if chunks == [] then [] else Listed(chunks[0].CanvasSize()) + Canvases(chunks[1..])
  }

  function Frames(chunks: seq<WebpChunk>): seq<Size> {
    if chunks == [] then [] else Listed(chunks[0].FrameSize()) + Frames(chunks[1..])
  }

  function Listed(size: Option<Size>): seq<Size> {
    match size case None => [] case Some(s) => [s]
  }

  /** The canvas and the frame seen so far. */
  datatype Known = Known(canvas: Option<Size>, frame: Option<Size>)

  const NOTHING := Known(None, None)

  /** A still image: sound chunks, one frame, and at most one canvas, of the frame's size. `known` stands
      for what earlier chunks have shown. */
  ghost predicate StillWebp(chunks: seq<WebpChunk>, known: Known, size: Size) {
    && Sound(chunks)
    && Listed(known.frame) + Frames(chunks) == [size]
    && (Listed(known.canvas) + Canvases(chunks) == [] || Listed(known.canvas) + Canvases(chunks) == [size])
  }

  function FirstWebpChunk(s: Bytes): (r: Option<WebpChunk>)
    requires |s| >= 8
    ensures r.Some? ==> r.value.WellFormed() && r.value.Encoded() <= s && |r.value.Encoded()| >= 8
  {
    var n := Little(s[4..8]);
    if 8 + n + n % 2 > |s| then None
    else
      var chunk := WebpChunk(s[..4], s[4..8], s[8..8 + n], s[8 + n..8 + n + n % 2]);
      Pieces(s, 4, 8, 8 + n, 8 + n + n % 2);
      Some(chunk)
  }

  /** What the walker knows after one more chunk, or why it gives up. */
  function JudgeWebp(chunk: WebpChunk, known: Known): Parsed<Known> {
    if chunk.kind == VP8X then
      if |chunk.data| != 10 || known.canvas != None then Bad(BadWebpCanvas)
      else if chunk.data[0] / 2 % 2 == 1 then Bad(AnimatedWebp)
      else Read(known.(canvas := chunk.CanvasSize()))
    else if chunk.kind == ANIM || chunk.kind == ANMF then Bad(AnimatedWebp)
    else if chunk.FrameSize() != None then
      if known.frame != None then Bad(SecondWebpFrame) else Read(known.(frame := chunk.FrameSize()))
    else Read(known)
  }

  function WebpWalk(s: Bytes, known: Known): Parsed<Size>
    decreases |s|
  {
    if |s| < 8 then
      if s != [] || known.frame == None then Bad(NoWebpFrame)
      else if known.canvas != None && known.canvas != known.frame then Bad(CanvasMismatch)
      else Read(known.frame.value)
    else
      match FirstWebpChunk(s)
      case None => Bad(TruncatedWebpChunk)
      case Some(chunk) =>
        match JudgeWebp(chunk, known)
        case Bad(fault) => Bad(fault)
        case Read(next) => WebpWalk(s[|chunk.Encoded()|..], next)
  }

  lemma FirstWebpChunkInverts(chunk: WebpChunk, rest: Bytes)
    requires chunk.WellFormed()
    ensures |chunk.Encoded() + rest| >= 8 && FirstWebpChunk(chunk.Encoded() + rest) == Some(chunk)
    ensures (chunk.Encoded() + rest)[|chunk.Encoded()|..] == rest
  {
    var s := chunk.Encoded() + rest;
    var n := |chunk.data|;
    assert s[..4] == chunk.kind;
    assert s[4..8] == chunk.length;
    assert s[8..8 + n] == chunk.data;
    assert s[8 + n..8 + n + n % 2] == chunk.pad;
  }

  /** One chunk and the rest are a still image exactly when the chunk is judged acceptable and the rest
      completes what is known after it. */
  lemma StillStep(chunk: WebpChunk, rest: seq<WebpChunk>, known: Known, size: Size)
    requires chunk.WellFormed()
    ensures StillWebp([chunk] + rest, known, size) <==>
            match JudgeWebp(chunk, known) case Bad(_) => false case Read(next) => StillWebp(rest, next, size)
  {
    var chunks := [chunk] + rest;
    assert chunks[1..] == rest;
    var cs, fs := chunk.CanvasSize(), chunk.FrameSize();
    assert Canvases(chunks) == Listed(cs) + Canvases(rest) && Frames(chunks) == Listed(fs) + Frames(rest);
    SoundStep(chunk, rest);
    Chain(known.canvas, cs, Canvases(rest));
    Chain(known.frame, fs, Frames(rest));
    hide Sound, Canvases, Frames, Listed, Little;
  }

  lemma SoundStep(chunk: WebpChunk, rest: seq<WebpChunk>)
    ensures Sound([chunk] + rest) <==> chunk.WellFormed() && chunk.Still() && Sound(rest)
  {
    var chunks := [chunk] + rest;
    assert chunks[0] == chunk && forall i :: 0 < i < |chunks| ==> chunks[i] == rest[i - 1];
    assert forall i :: 0 <= i < |rest| ==> rest[i] == chunks[i + 1];
  }

  /** What is known, what a chunk adds and what is still to come, as one list. */
  lemma Chain(known: Option<Size>, found: Option<Size>, more: seq<Size>)
    ensures known == None ==> Listed(known) + (Listed(found) + more) == Listed(found) + more
    ensures found == None ==> Listed(known) + (Listed(found) + more) == Listed(known) + more
    ensures known != None && found != None ==> |Listed(known) + (Listed(found) + more)| >= 2
  {
  }

  lemma {:induction false} StillIsAccepted(chunks: seq<WebpChunk>, known: Known, size: Size)
    requires StillWebp(chunks, known, size)
    ensures WebpWalk(WebpStream(chunks), known) == Read(size)
  {
    if chunks != [] {
      var chunk, rest := chunks[0], chunks[1..];
      assert [chunk] + rest == chunks;
      FirstWebpChunkInverts(chunk, WebpStream(rest));
      StillStep(chunk, rest, known, size);
      var next := JudgeWebp(chunk, known).value;
      StillIsAccepted(rest, next, size);
    } else {
      assert Listed(known.frame) + [] == Listed(known.frame) && Listed(known.canvas) + [] == Listed(known.canvas);
    }
  }

  lemma {:induction false} AcceptedIsStill(s: Bytes, known: Known, size: Size) returns (chunks: seq<WebpChunk>)
    requires WebpWalk(s, known) == Read(size)
    ensures StillWebp(chunks, known, size) && WebpStream(chunks) == s
    decreases |s|
  {
    if |s| < 8 {
      chunks := [];
    } else {
      var chunk := FirstWebpChunk(s).value;
      var next := JudgeWebp(chunk, known).value;
      var rest := AcceptedIsStill(s[|chunk.Encoded()|..], next, size);
      StillStep(chunk, rest, known, size);
      chunks := [chunk] + rest;
      assert chunks[1..] == rest;
    }
  }

  /** The animation flag is the second lowest bit of an extended header. */
  lemma AnimationFlag(chunk: WebpChunk, high: nat, flag: nat, low: nat)
    requires chunk.kind == VP8X && |chunk.data| == 10 && flag < 2 && low < 2
    requires chunk.data[0] as int == 4 * high + 2 * flag + low
    ensures chunk.Still() <==> flag == 0
  {
    assert chunk.data[0] as int / 2 == 2 * high + flag;
  }

  /** An extended header's canvas: width and height less one, in three bytes each, least significant first. */
  lemma CanvasBytes(chunk: WebpChunk)
    requires chunk.kind == VP8X && |chunk.data| == 10
    ensures var d := chunk.data;
            chunk.CanvasSize() == Some(Size(1 + Quad(0, d[6], d[5], d[4]), 1 + Quad(0, d[9], d[8], d[7])))
  {
    hide Little;
    var d := chunk.data;
    assert d[4..7] == [d[4], d[5], d[6]] && d[7..10] == [d[7], d[8], d[9]];
    LittleBytes(d[4], d[5], d[6], 0);
    LittleBytes(d[7], d[8], d[9], 0);
  }

  /** A lossless header packs width less one, height less one and four more bits into one number; the size
      comes back as it was packed. */
  lemma LosslessSizeReadsBack(chunk: WebpChunk, width: nat, height: nat, more: nat)
    requires chunk.kind == VP8L && |chunk.data| >= 5 && chunk.data[0] == 0x2F
    requires 1 <= width <= 0x4000 && 1 <= height <= 0x4000
    requires var d := chunk.data;
             Quad(d[4], d[3], d[2], d[1]) == (width - 1) + 0x4000 * (height - 1) + 0x1000_0000 * more
    ensures chunk.FrameSize() == Some(Size(width, height))
  {
    hide Little, Quad;
    var d := chunk.data;
    assert d[1..5] == [d[1], d[2], d[3], d[4]];
    LittleBytes(d[1], d[2], d[3], d[4]);
    LosslessBits(width - 1, height - 1, more);
  }

  lemma LosslessBits(width: nat, height: nat, more: nat)
    requires width < 0x4000 && height < 0x4000
    ensures var bits := width + 0x4000 * height + 0x1000_0000 * more;
            bits % 0x4000 == width && bits / 0x4000 % 0x4000 == height
  {
    assert width + 0x4000 * height + 0x1000_0000 * more == width + 0x4000 * (height + 0x4000 * more);
    Packed(width, height + 0x4000 * more);
    Packed(height, more);
  }

  /** A lossy header holds width and height in fourteen bits each, below a scale of two bits. */
  lemma LossySizeReadsBack(chunk: WebpChunk, width: nat, height: nat, scale: nat, more: nat)
    requires chunk.kind == VP8 && |chunk.data| >= 10 && chunk.data[3..6] == [0x9D, 0x01, 0x2A]
    requires width < 0x4000 && height < 0x4000
    requires var d := chunk.data;
             Word(d[7], d[6]) == width + 0x4000 * scale && Word(d[9], d[8]) == height + 0x4000 * more
    ensures chunk.FrameSize() == Some(Size(width, height))
  {
    hide Little;
    var d := chunk.data;
    assert d[6..8] == [d[6], d[7]] && d[8..10] == [d[8], d[9]];
    LittleBytes(d[6], d[7], 0, 0);
    LittleBytes(d[8], d[9], 0, 0);
    Packed(width, scale);
    Packed(height, more);
  }

  lemma Packed(low: nat, high: nat)
    requires low < 0x4000
    ensures (low + 0x4000 * high) % 0x4000 == low && (low + 0x4000 * high) / 0x4000 == high
  {
  }

  /** `encoded` is a RIFF file of the declared length whose chunks are those of a still image. */
  ghost predicate WebpFile(chunks: seq<WebpChunk>, length: Bytes, encoded: Bytes, size: Size) {
    && |length| == 4 && Little(length) + 8 == |encoded|
    && encoded == RIFF + length + WEBP + WebpStream(chunks)
    && StillWebp(chunks, NOTHING, size)
  }

  ghost predicate IsWebp(encoded: Bytes, size: Size) {
    exists chunks, length :: WebpFile(chunks, length, encoded, size)
  }

  predicate WebpDispatched(encoded: Bytes)
    ensures WebpDispatched(encoded) ==> |encoded| >= 12
  {
    |encoded| >= 12 && encoded[..4] == RIFF && encoded[8..12] == WEBP
  }

  function WebpResult(encoded: Bytes): Parsed<Size>
    requires |encoded| >= 12
  {
    if |encoded| < 20 || Little(encoded[4..8]) + 8 != |encoded| then Bad(BadWebpContainer)
    else WebpWalk(encoded[12..], NOTHING)
  }

  lemma WebpIsAccepted(chunks: seq<WebpChunk>, length: Bytes, encoded: Bytes, size: Size)
    requires WebpDispatched(encoded) && WebpFile(chunks, length, encoded, size)
    ensures WebpResult(encoded) == Read(size)
  {
    hide StillWebp, Little;
    assert encoded[4..8] == length && encoded[12..] == WebpStream(chunks);
    StillIsAccepted(chunks, NOTHING, size);
  }

  lemma AcceptedIsWebp(encoded: Bytes, size: Size)
    requires WebpDispatched(encoded) && WebpResult(encoded) == Read(size)
    ensures IsWebp(encoded, size)
  {
    hide StillWebp, Little, WebpWalk;
    var chunks := AcceptedIsStill(encoded[12..], NOTHING, size);
    assert encoded == encoded[..4] + encoded[4..8] + encoded[8..12] + encoded[12..];
    assert WebpFile(chunks, encoded[4..8], encoded, size);
  }

  /** The WebP walker accepts exactly the files of still images and reads their frame's size. */
  lemma WebpAcceptsExactly(encoded: Bytes, size: Size)
    requires WebpDispatched(encoded)
    ensures WebpResult(encoded) == Read(size) <==> IsWebp(encoded, size)
  {
    hide WebpResult, WebpFile;
    if WebpResult(encoded) == Read(size) {
      AcceptedIsWebp(encoded, size);
    }
    if chunks, length :| WebpFile(chunks, length, encoded, size) {
      WebpIsAccepted(chunks, length, encoded, size);
    }
  }

  /** `r` is the size of the still image that `encoded` is, or an error when it is none. */
  ghost predicate ReadsWebp(encoded: Bytes, r: Parsed<Size>) {
    forall size :: r == Read(size) <==> IsWebp(encoded, size)
  }

  lemma WebpResultReads(encoded: Bytes)
    requires WebpDispatched(encoded)
    ensures ReadsWebp(encoded, WebpResult(encoded))
  {
    hide WebpResult, IsWebp;
    forall size ensures WebpResult(encoded) == Read(size) <==> IsWebp(encoded, size) {
      WebpAcceptsExactly(encoded, size);
    }
  }

  function WebpLengthAt(encoded: Bytes, offset: nat): nat
    requires offset + 8 <= |encoded|
  {
    Little(encoded[offset + 4..offset + 8])
  }

  /** Where the chunk at `offset` ends, with its pad byte. */
  function NextWebp(encoded: Bytes, offset: nat): (end: nat)
    requires offset + 8 <= |encoded|
    ensures end >= offset + 8
  {
    var n := WebpLengthAt(encoded, offset);
    offset + 8 + n + n % 2
  }

  function WebpChunkAt(encoded: Bytes, offset: nat): WebpChunk
    requires offset + 8 <= |encoded| && NextWebp(encoded, offset) <= |encoded|
  {
    var n := WebpLengthAt(encoded, offset);
    var end := offset + 8 + n;
    WebpChunk(encoded[offset..offset + 4], encoded[offset + 4..offset + 8], encoded[offset + 8..end],
              encoded[end..end + n % 2])
  }

  function WebpFrom(encoded: Bytes, offset: nat, known: Known): Parsed<Size>
    requires offset <= |encoded|
  {
    WebpWalk(encoded[offset..], known)
  }

  lemma WebpCutAt(encoded: Bytes, offset: nat)
    requires offset + 8 <= |encoded|
    ensures var n := WebpLengthAt(encoded, offset);
            FirstWebpChunk(encoded[offset..]) ==
            if offset + 8 + n + n % 2 > |encoded| then None else Some(WebpChunkAt(encoded, offset))
  {
    var s, n := encoded[offset..], WebpLengthAt(encoded, offset);
    assert s[4..8] == encoded[offset + 4..offset + 8];
    if offset + 8 + n + n % 2 <= |encoded| {
      assert s[..4] == encoded[offset..offset + 4];
      assert s[8..8 + n] == encoded[offset + 8..offset + 8 + n];
      assert s[8 + n..8 + n + n % 2] == encoded[offset + 8 + n..offset + 8 + n + n % 2];
    }
  }

  lemma WebpTurn(encoded: Bytes, offset: nat, known: Known)
    requires offset + 8 <= |encoded|
    ensures WebpFrom(encoded, offset, known) ==
              if NextWebp(encoded, offset) > |encoded| then Bad(TruncatedWebpChunk)
              else match JudgeWebp(WebpChunkAt(encoded, offset), known)
                   case Bad(fault) => Bad(fault)
                   case Read(after) => WebpFrom(encoded, NextWebp(encoded, offset), after)
  {
    hide JudgeWebp, Little;
    WebpCutAt(encoded, offset);
    var n := WebpLengthAt(encoded, offset);
    if offset + 8 + n + n % 2 <= |encoded| {
      var chunk := WebpChunkAt(encoded, offset);
      assert |chunk.Encoded()| == 8 + n + n % 2;
      assert encoded[offset..][8 + n + n % 2..] == encoded[offset + 8 + n + n % 2..];
    }
  }

  lemma WebpEnd(encoded: Bytes, offset: nat, known: Known)
    requires offset <= |encoded| < offset + 8
    ensures WebpFrom(encoded, offset, known) ==
            if offset != |encoded| || known.frame == None then Bad(NoWebpFrame)
            else if known.canvas != None && known.canvas != known.frame then Bad(CanvasMismatch)
            else Read(known.frame.value)
  {
  }

  lemma WebpStart(encoded: Bytes)
    requires |encoded| >= 12
    ensures WebpResult(encoded) ==
            if |encoded| < 20 || WebpLengthAt(encoded, 0) + 8 != |encoded| then Bad(BadWebpContainer)
            else WebpFrom(encoded, 12, NOTHING)
  {
  }

  method WebpDimensions(encoded: Bytes) returns (r: Parsed<Size>)
    requires |encoded| >= 12
    ensures r == WebpResult(encoded)
  {
    WebpStart(encoded);
    hide WebpFrom, WebpResult, JudgeWebp, WebpChunkAt, WebpLengthAt, NextWebp;
    if |encoded| < 20 || WebpLengthAt(encoded, 0) + 8 != |encoded| {
      return Bad(BadWebpContainer);
    }
    var offset := 12;
    var known := NOTHING;
    while offset + 8 <= |encoded|
      invariant 12 <= offset <= |encoded|
      invariant WebpFrom(encoded, offset, known) == WebpFrom(encoded, 12, NOTHING)
      decreases |encoded| - offset
    {
      WebpTurn(encoded, offset, known);
      var paddedEnd := NextWebp(encoded, offset);
      if paddedEnd > |encoded| {
        return Bad(TruncatedWebpChunk);
      }
      match JudgeWebp(WebpChunkAt(encoded, offset), known)
      case Bad(fault) => return Bad(fault);
      case Read(after) => known := after;
      offset := paddedEnd;
    }
    WebpEnd(encoded, offset, known);
    if offset != |encoded| || known.frame == None {
      return Bad(NoWebpFrame);
    }
    if known.canvas != None && known.canvas != known.frame {
      return Bad(CanvasMismatch);
    }
    r := Read(known.frame.value);
  }

  /** The dispatch of every format but JPEG: the size of a still PNG or WebP image, or an error. */
  method NonJpegDimensions(encoded: Bytes, checksum: Bytes -> nat) returns (r: Parsed<Size>)
    ensures PngDispatched(encoded) ==> ReadsPng(encoded, r, checksum)
    ensures WebpDispatched(encoded) ==> ReadsWebp(encoded, r)
    ensures !PngDispatched(encoded) && !WebpDispatched(encoded) ==> r == Bad(UnsupportedFormat)
  {
    OneFormat(encoded);
    hide ReadsPng, ReadsWebp, PngDispatched, WebpDispatched, PngFrom, WebpResult;
    if PngDispatched(encoded) {
      r := PngDimensions(encoded, checksum);
      PngFromReads(encoded, checksum);
    } else if WebpDispatched(encoded) {
      r := WebpDimensions(encoded);
      WebpResultReads(encoded);
    } else {
      r := Bad(UnsupportedFormat);
    }
  }

  lemma OneFormat(encoded: Bytes)
    ensures !(PngDispatched(encoded) && WebpDispatched(encoded))
  {
    if PngDispatched(encoded) {
      assert encoded[0] == PNG_SIGNATURE[0];
    }
    if WebpDispatched(encoded) {
      assert encoded[..4][0] == RIFF[0];
    }
  }

  // ---- JPEG --------------------------------------------------------------------------------------

  /** Markers without a segment: TEM, RSTn and SOI. */
  predicate IsStandalone(code: Byte) {
    code == 0x01 || 0xD0 <= code <= 0xD8
  }

  predicate IsStartOfFrame(code: Byte) {
    0xC0 <= code <= 0xCF && code != 0xC4 && code != 0xC8 && code != 0xCC
  }

  /** The marker codes one by one: ITU-T T.81, table B.1. */
  lemma MarkerClasses(code: Byte)
    ensures IsStartOfFrame(code) <==>
              code in {0xC0, 0xC1, 0xC2, 0xC3, 0xC5, 0xC6, 0xC7, 0xC9, 0xCA, 0xCB, 0xCD, 0xCE, 0xCF}
    ensures IsStandalone(code) <==> code in {0x01, 0xD0, 0xD1, 0xD2, 0xD3, 0xD4, 0xD5, 0xD6, 0xD7, 0xD8}
  {
  }

  const START_OF_SCAN: Byte := 0xDA

  /** A marker, with any number of extra fill bytes, and its segment if it has one: ITU-T T.81, B.1.1. */
  datatype JpegItem = Standalone(fill: nat, code: Byte) | Segment(fill: nat, code: Byte, length: Bytes, data: Bytes) {

    predicate WellFormed() {
      match this
      case Standalone(_, c) => IsStandalone(c)
      case Segment(_, c, l, d) => c != 0 && c != 0xFF && !IsStandalone(c) && |l| == 2 && Big(l) == |d| + 2
    }

    /** What the walker skips on its way to the frame header. */
    predicate Skipped() {
      WellFormed() && !IsStartOfFrame(code) && code != START_OF_SCAN
    }

    /** A frame header with a size: precision, height, width and at least one more byte. */
    predicate IsFrameHeader() {
      WellFormed() && Segment? && IsStartOfFrame(code) && |data| >= 6 && Big(data[1..3]) != 0 && Big(data[3..5]) != 0
    }

    function Encoded(): Bytes {
      match this
      case Standalone(f, c) => Fills(f + 1) + [c]
      case Segment(f, c, l, d) => Fills(f + 1) + [c] + l + d
    }
  }

  function Fills(n: nat): Bytes {
    if n == 0 then [] else [0xFF] + Fills(n - 1)
  }

  function JpegStream(items: seq<JpegItem>): Bytes {
    if items == [] then [] else items[0].Encoded() + JpegStream(items[1..])
  }

  /** Fill bytes ahead of the last two bytes of `s`, which hold the end marker. */
  function FillCount(s: Bytes): nat {
    if |s| > 2 && s[0] == 0xFF then 1 + FillCount(s[1..]) else 0
  }

  /** The marker code at the start of `s` and the number of bytes it takes. */
  function MarkerOf(s: Bytes): (r: Option<(Byte, nat)>)
    ensures r.Some? ==> 2 <= r.value.1 <= |s| - 2
  {
    FillCountBounded(s);
    var k := FillCount(s);
    if k == 0 || k + 2 >= |s| || s[k] == 0 then None else Some((s[k], k + 1))
  }

  lemma FillCountBounded(s: Bytes)
    ensures FillCount(s) <= |s|
    ensures forall i :: 0 <= i < FillCount(s) ==> s[i] == 0xFF
    ensures FillCount(s) + 2 < |s| ==> s[FillCount(s)] != 0xFF
  {
    if |s| > 2 && s[0] == 0xFF {
      FillCountBounded(s[1..]);
      assert forall i :: 0 < i < FillCount(s) ==> s[i] == s[1..][i - 1];
    }
  }

  /** The segment that starts `s`: its total length with the two length bytes. */
  function SegmentLength(s: Bytes): Parsed<nat> {
    if |s| < 4 then Bad(TruncatedJpegSegment)
    else if Big(s[..2]) < 2 then Bad(BadJpegSegment)
    else if Big(s[..2]) > |s| then Bad(TruncatedJpegSegment)
    else Read(Big(s[..2]))
  }

  function FrameDimensions(segment: Bytes): Parsed<Size> {
    if |segment| < 8 then Bad(BadJpegHeader)
    else if Big(segment[5..7]) == 0 || Big(segment[3..5]) == 0 then Bad(BadJpegSize)
    else Read(Size(Big(segment[5..7]), Big(segment[3..5])))
  }

  /** What the walker makes of the rest of the file. */
  function JpegWalk(s: Bytes): Parsed<Size>
    decreases |s|
  {
    if |s| <= 2 then Bad(NoJpegHeader)
    else
      match MarkerOf(s)
      case None => Bad(BadJpegMarker)
      case Some((code, n)) =>
        if IsStandalone(code) then JpegWalk(s[n..])
        else
          match SegmentLength(s[n..])
          case Bad(fault) => Bad(fault)
          case Read(length) =>
            if IsStartOfFrame(code) then FrameDimensions(s[n..n + length])
            else if code == START_OF_SCAN then Bad(NoJpegHeader)
            else JpegWalk(s[n + length..])
  }

  lemma {:induction false} FillsAre(n: nat)
    ensures |Fills(n)| == n && forall i :: 0 <= i < n ==> Fills(n)[i] == 0xFF
  {
    if n > 0 {
      FillsAre(n - 1);
    }
  }

  lemma {:induction false} FillCountInverts(n: nat, code: Byte, rest: Bytes)
    requires code != 0xFF && |rest| >= 2
    ensures FillCount(Fills(n) + [code] + rest) == n
  {
    var s := Fills(n) + [code] + rest;
    if n > 0 {
      FillCountInverts(n - 1, code, rest);
      assert s[1..] == Fills(n - 1) + [code] + rest;
    }
  }

  lemma MarkerInverts(fill: nat, code: Byte, rest: Bytes)
    requires code != 0 && code != 0xFF && |rest| >= 2
    ensures var s := Fills(fill + 1) + [code] + rest;
            |s| > 2 && MarkerOf(s) == Some((code, fill + 2)) && s[fill + 2..] == rest
  {
    FillCountInverts(fill + 1, code, rest);
    FillsAre(fill + 1);
    var s := Fills(fill + 1) + [code] + rest;
    assert s[fill + 1] == code;
  }

  lemma MarkerCuts(s: Bytes)
    requires MarkerOf(s).Some?
    ensures var (code, n) := MarkerOf(s).value; code != 0 && code != 0xFF && s == Fills(n - 1) + [code] + s[n..]
  {
    var (code, n) := MarkerOf(s).value;
    FillCountBounded(s);
    FillsAre(n - 1);
    assert s == s[..n - 1] + [code] + s[n..];
    assert s[..n - 1] == Fills(n - 1);
  }

  lemma SegmentInverts(length: Bytes, data: Bytes, rest: Bytes)
    requires |length| == 2 && Big(length) == |data| + 2 && |data| + |rest| >= 2
    ensures var s := length + data + rest;
            && SegmentLength(s) == Read(|data| + 2)
            && s[..|data| + 2] == length + data && s[|data| + 2..] == rest
  {
    var s := length + data + rest;
    assert s[..2] == length;
    assert s == (length + data) + rest;
  }

  /** `s` is skipped items, then a frame header with a size, then anything. */
  ghost predicate JpegBody(items: seq<JpegItem>, header: JpegItem, rest: Bytes, s: Bytes, size: Size) {
    && (forall i :: 0 <= i < |items| ==> items[i].Skipped())
    && header.IsFrameHeader() && size == Size(Big(header.data[3..5]), Big(header.data[1..3]))
    && s == JpegStream(items) + header.Encoded() + rest
  }

  /** A JPEG's size stands in its first frame header, after the precision: height, then width. */
  lemma JpegSizeBytes(items: seq<JpegItem>, header: JpegItem, rest: Bytes, s: Bytes, size: Size)
    requires JpegBody(items, header, rest, s, size)
    ensures var d := header.data; size == Size(Word(d[3], d[4]), Word(d[1], d[2]))
    ensures size.width > 0 && size.height > 0
  {
    hide Big;
    var d := header.data;
    assert d[1..3] == [d[1], d[2]] && d[3..5] == [d[3], d[4]];
    BigBytes(d[1], d[2], 0, 0);
    BigBytes(d[3], d[4], 0, 0);
  }

  /** The walk over one marker whose code and size are known. */
  lemma WalkStep(s: Bytes, code: Byte, n: nat)
    requires |s| > 2 && MarkerOf(s) == Some((code, n))
    ensures JpegWalk(s) ==
            if IsStandalone(code) then JpegWalk(s[n..])
            else match SegmentLength(s[n..])
                 case Bad(fault) => Bad(fault)
                 case Read(length) =>
                   if IsStartOfFrame(code) then FrameDimensions(s[n..n + length])
                   else if code == START_OF_SCAN then Bad(NoJpegHeader)
                   else JpegWalk(s[n + length..])
  {
    hide MarkerOf, SegmentLength, FrameDimensions;
  }

  lemma HeaderIsRead(header: JpegItem, rest: Bytes)
    requires header.IsFrameHeader()
    ensures JpegWalk(header.Encoded() + rest) == Read(Size(Big(header.data[3..5]), Big(header.data[1..3])))
  {
    hide JpegWalk, MarkerOf, SegmentLength, Big;
    var s, n := header.Encoded() + rest, header.fill + 2;
    var body := header.length + header.data;
    assert s == Fills(header.fill + 1) + [header.code] + (body + rest);
    MarkerInverts(header.fill, header.code, body + rest);
    SegmentInverts(header.length, header.data, rest);
    WalkStep(s, header.code, n);
    assert s[n..n + |body|] == (body + rest)[..|body|] == body;
    assert body[3..5] == header.data[1..3] && body[5..7] == header.data[3..5];
  }

  lemma StandaloneIsSkipped(fill: nat, code: Byte, rest: Bytes)
    requires IsStandalone(code) && |rest| >= 2
    ensures JpegWalk(Standalone(fill, code).Encoded() + rest) == JpegWalk(rest)
  {
    hide JpegWalk, MarkerOf;
    MarkerInverts(fill, code, rest);
    WalkStep(Fills(fill + 1) + [code] + rest, code, fill + 2);
  }

  lemma SegmentIsSkipped(item: JpegItem, rest: Bytes)
    requires item.Skipped() && item.Segment? && |rest| >= 2
    ensures JpegWalk(item.Encoded() + rest) == JpegWalk(rest)
  {
    hide JpegWalk, MarkerOf, SegmentLength, Big;
    var s, n := item.Encoded() + rest, item.fill + 2;
    var body := item.length + item.data;
    RegroupLeft(Fills(item.fill + 1), [item.code], item.length, item.data, rest);
    MarkerInverts(item.fill, item.code, body + rest);
    SegmentInverts(item.length, item.data, rest);
    WalkStep(s, item.code, n);
    Drop(s, n, |body|);
  }

  lemma Drop(s: Bytes, n: nat, m: nat)
    requires n + m <= |s|
    ensures s[n..][m..] == s[n + m..]
  {
  }

  lemma {:induction false} JpegIsAccepted(items: seq<JpegItem>, header: JpegItem, rest: Bytes, s: Bytes, size: Size)
    requires JpegBody(items, header, rest, s, size)
    ensures JpegWalk(s) == Read(size) && |s| >= 2
  {
    hide JpegWalk, Big, JpegBody;
    if items == [] {
      HeaderOnly(header, rest, s, size);
      HeaderIsRead(header, rest);
    } else {
      var item, more := BodyUncons(items, header, rest, s, size);
      JpegIsAccepted(items[1..], header, rest, more, size);
      if item.Standalone? {
        StandaloneIsSkipped(item.fill, item.code, more);
      } else {
        SegmentIsSkipped(item, more);
      }
    }
  }

  lemma HeaderOnly(header: JpegItem, rest: Bytes, s: Bytes, size: Size)
    requires JpegBody([], header, rest, s, size)
    ensures header.IsFrameHeader() && size == Size(Big(header.data[3..5]), Big(header.data[1..3]))
            && s == header.Encoded() + rest
    ensures |s| >= 2
  {
    hide Big;
    assert [] + header.Encoded() + rest == header.Encoded() + rest;
  }

  lemma Regroup(a: Bytes, b: Bytes, c: Bytes, d: Bytes)
    ensures (a + b) + c + d == a + (b + c + d)
  {
  }

  lemma BodyUncons(items: seq<JpegItem>, header: JpegItem, rest: Bytes, s: Bytes, size: Size)
    returns (item: JpegItem, more: Bytes)
    requires items != [] && JpegBody(items, header, rest, s, size)
    ensures item == items[0] && item.Skipped() && s == item.Encoded() + more
    ensures JpegBody(items[1..], header, rest, more, size)
  {
    hide Big;
    item, more := items[0], JpegStream(items[1..]) + header.Encoded() + rest;
    Regroup(item.Encoded(), JpegStream(items[1..]), header.Encoded(), rest);
  }

  lemma SegmentCuts(s: Bytes)
    requires SegmentLength(s).Read?
    ensures var length := SegmentLength(s).value;
            2 <= length <= |s| && Big(s[..2]) == |s[2..length]| + 2 && s == s[..2] + s[2..length] + s[length..]
  {
  }

  /** The item at the start of `s`: a standalone marker, or a marker and its segment. */
  lemma StandaloneOf(s: Bytes) returns (item: JpegItem)
    requires MarkerOf(s).Some? && IsStandalone(MarkerOf(s).value.0)
    ensures item.Standalone? && item.WellFormed() && item.code == MarkerOf(s).value.0
    ensures s == item.Encoded() + s[MarkerOf(s).value.1..]
  {
    var (code, m) := MarkerOf(s).value;
    MarkerCuts(s);
    item := Standalone(m - 2, code);
  }

  lemma SegmentOf(s: Bytes) returns (item: JpegItem, n: nat)
    requires MarkerOf(s).Some? && !IsStandalone(MarkerOf(s).value.0) && SegmentLength(s[MarkerOf(s).value.1..]).Read?
    ensures item.Segment? && item.WellFormed() && item.code == MarkerOf(s).value.0
    ensures 2 <= n <= |s| && s == item.Encoded() + s[n..]
    ensures var m := MarkerOf(s).value.1; n == m + SegmentLength(s[m..]).value && item.length + item.data == s[m..n]
  {
    var (code, m) := MarkerOf(s).value;
    MarkerCuts(s);
    var tail := s[m..];
    SegmentCuts(tail);
    var length := SegmentLength(tail).value;
    hide MarkerOf, SegmentLength, Big, Fills;
    item, n := Segment(m - 2, code, tail[..2], tail[2..length]), m + length;
    JoinSegment(s, m, code, length);
  }

  lemma JoinSegment(s: Bytes, m: nat, code: Byte, length: nat)
    requires 2 <= m && 2 <= length && m + length <= |s| && s == Fills(m - 1) + [code] + s[m..]
    ensures s[m..][..2] + s[m..][2..length] == s[m..m + length]
    ensures s == Fills(m - 1) + [code] + s[m..][..2] + s[m..][2..length] + s[m + length..]
  {
    hide Fills;
    var tail := s[m..];
    Drop(s, m, length);
    assert tail == tail[..2] + tail[2..length] + tail[length..];
    RegroupLeft(Fills(m - 1), [code], tail[..2], tail[2..length], s[m + length..]);
  }

  lemma RegroupLeft(a: Bytes, b: Bytes, c: Bytes, d: Bytes, e: Bytes)
    ensures a + b + (c + d + e) == (a + b + c + d) + e
  {
  }

  lemma HeaderFields(item: JpegItem, segment: Bytes)
    requires item.WellFormed() && item.Segment? && IsStartOfFrame(item.code)
    requires segment == item.length + item.data && FrameDimensions(segment).Read?
    ensures item.IsFrameHeader()
    ensures FrameDimensions(segment) == Read(Size(Big(item.data[3..5]), Big(item.data[1..3])))
  {
    assert segment[3..5] == item.data[1..3] && segment[5..7] == item.data[3..5];
  }

  lemma BodyCons(item: JpegItem, items: seq<JpegItem>, header: JpegItem, rest: Bytes, s: Bytes, size: Size)
    requires item.Skipped() && JpegBody(items, header, rest, s, size)
    ensures JpegBody([item] + items, header, rest, item.Encoded() + s, size)
  {
    hide Big;
    assert ([item] + items)[1..] == items;
    Regroup(item.Encoded(), JpegStream(items), header.Encoded(), rest);
  }

  lemma {:induction false} AcceptedIsJpeg(s: Bytes, size: Size)
    returns (items: seq<JpegItem>, header: JpegItem, rest: Bytes)
    requires JpegWalk(s) == Read(size)
    ensures JpegBody(items, header, rest, s, size)
    decreases |s|
  {
    WalkNeedsMarker(s);
    hide JpegWalk, MarkerOf, SegmentLength, FrameDimensions, JpegBody, Big;
    var (code, m) := MarkerOf(s).value;
    WalkStep(s, code, m);
    if IsStandalone(code) {
      var item := StandaloneOf(s);
      var more;
      more, header, rest := AcceptedIsJpeg(s[m..], size);
      items := [item] + more;
      BodyCons(item, more, header, rest, s[m..], size);
      return;
    }
    var item, n := SegmentOf(s);
    if IsStartOfFrame(code) {
      HeaderFields(item, s[m..n]);
      items, header, rest := [], item, s[n..];
      HeaderAlone(item, rest, s);
    } else {
      var more;
      more, header, rest := AcceptedIsJpeg(s[n..], size);
      items := [item] + more;
      BodyCons(item, more, header, rest, s[n..], size);
    }
  }

  lemma WalkNeedsMarker(s: Bytes)
    requires JpegWalk(s).Read?
    ensures |s| > 2 && MarkerOf(s).Some?
  {
  }

  lemma HeaderAlone(header: JpegItem, rest: Bytes, s: Bytes)
    requires header.IsFrameHeader() && s == header.Encoded() + rest
    ensures JpegBody([], header, rest, s, Size(Big(header.data[3..5]), Big(header.data[1..3])))
  {
    hide Big;
    assert s == [] + header.Encoded() + rest;
  }

  /** After its start marker, the file is skipped segments and a frame header that gives this size. */
  ghost predicate IsJpeg(jpeg: Bytes, size: Size)
    requires |jpeg| >= 2
  {
    exists items, header, rest :: JpegBody(items, header, rest, jpeg[2..], size)
  }

  function JpegFrom(jpeg: Bytes, offset: nat): Parsed<Size>
    requires offset <= |jpeg|
  {
    JpegWalk(jpeg[offset..])
  }

  /** The JPEG walker reads a size exactly when the file has such a frame header. */
  lemma JpegAcceptsExactly(jpeg: Bytes, size: Size)
    requires |jpeg| >= 2
    ensures JpegFrom(jpeg, 2) == Read(size) <==> IsJpeg(jpeg, size)
  {
    hide JpegWalk, JpegBody;
    if JpegWalk(jpeg[2..]) == Read(size) {
      var items, header, rest := AcceptedIsJpeg(jpeg[2..], size);
    }
    if items, header, rest :| JpegBody(items, header, rest, jpeg[2..], size) {
      JpegIsAccepted(items, header, rest, jpeg[2..], size);
    }
  }

  function MarkerAt(jpeg: Bytes, offset: nat): (r: Option<(Byte, nat)>)
    requires offset <= |jpeg|
    ensures r.Some? ==> offset + 2 <= r.value.1 <= |jpeg| - 2
  {
    match MarkerOf(jpeg[offset..])
    case None => None
    case Some((code, n)) => Some((code, offset + n))
  }

  /** Skips the fill bytes, then reads the marker code. */
  method ReadMarker(jpeg: Bytes, offset: nat, payloadEnd: nat) returns (r: Option<(Byte, nat)>)
    requires offset < payloadEnd == |jpeg| - 2
    ensures r == MarkerAt(jpeg, offset)
  {
    if jpeg[offset] != 0xFF {
      return None;
    }
    var at := offset;
    while at < payloadEnd && jpeg[at] == 0xFF
      invariant offset <= at <= payloadEnd && (at == offset ==> jpeg[at] == 0xFF)
      invariant FillCount(jpeg[offset..]) == at - offset + FillCount(jpeg[at..])
    {
      assert jpeg[at..][1..] == jpeg[at + 1..];
      at := at + 1;
    }
    assert FillCount(jpeg[at..]) == 0;
    if at >= payloadEnd || jpeg[at] == 0 {
      return None;
    }
    return Some((jpeg[at], at + 1));
  }

  function SegmentAt(jpeg: Bytes, offset: nat): (r: Parsed<nat>)
    requires offset <= |jpeg|
    ensures r.Read? ==> offset + 2 <= r.value <= |jpeg|
  {
    match SegmentLength(jpeg[offset..])
    case Bad(fault) => Bad(fault)
    case Read(length) => Read(offset + length)
  }

  method ReadSegment(jpeg: Bytes, offset: nat, payloadEnd: nat) returns (r: Parsed<nat>)
    requires offset <= |jpeg| && payloadEnd == |jpeg| - 2
    ensures r == SegmentAt(jpeg, offset)
  {
    if offset + 2 > payloadEnd {
      return Bad(TruncatedJpegSegment);
    }
    assert jpeg[offset..][..2] == jpeg[offset..offset + 2];
    var length := Big(jpeg[offset..offset + 2]);
    if length < 2 {
      return Bad(BadJpegSegment);
    }
    if offset + length > |jpeg| {
      return Bad(TruncatedJpegSegment);
    }
    r := Read(offset + length);
  }

  lemma JpegTurn(jpeg: Bytes, offset: nat)
    requires offset < |jpeg| - 2
    ensures JpegFrom(jpeg, offset) ==
            match MarkerAt(jpeg, offset)
            case None => Bad(BadJpegMarker)
            case Some((code, next)) =>
              if IsStandalone(code) then JpegFrom(jpeg, next)
              else match SegmentAt(jpeg, next)
                   case Bad(fault) => Bad(fault)
                   case Read(end) =>
                     if IsStartOfFrame(code) then FrameDimensions(jpeg[next..end])
                     else if code == START_OF_SCAN then Bad(NoJpegHeader)
                     else JpegFrom(jpeg, end)
  {
    hide MarkerOf, SegmentLength, FrameDimensions;
    var s := jpeg[offset..];
    if MarkerOf(s).Some? {
      var (code, n) := MarkerOf(s).value;
      Drop(jpeg, offset, n);
      if SegmentLength(s[n..]).Read? {
        var length := SegmentLength(s[n..]).value;
        LengthFits(s[n..]);
        Drop(jpeg, offset, n + length);
        assert s[n..n + length] == jpeg[offset + n..offset + n + length];
      }
    }
  }

  lemma LengthFits(s: Bytes)
    requires SegmentLength(s).Read?
    ensures SegmentLength(s).value <= |s|
  {
  }

  method JpegDimensions(jpeg: Bytes) returns (r: Parsed<Size>)
    requires |jpeg| >= 4
    ensures r == JpegFrom(jpeg, 2)
  {
    hide JpegFrom, MarkerAt, SegmentAt, FrameDimensions;
    var offset := 2;
    var payloadEnd := |jpeg| - 2;
    while offset < payloadEnd
      invariant 2 <= offset <= |jpeg|
      invariant JpegFrom(jpeg, offset) == JpegFrom(jpeg, 2)
      decreases |jpeg| - offset
    {
      JpegTurn(jpeg, offset);
      var marker := ReadMarker(jpeg, offset, payloadEnd);
      if marker.None? {
        return Bad(BadJpegMarker);
      }
      var (code, next) := marker.value;
      offset := next;
      if IsStandalone(code) {
        continue;
      }
      var segment := ReadSegment(jpeg, offset, payloadEnd);
      if segment.Bad? {
        return Bad(segment.fault);
      }
      if IsStartOfFrame(code) {
        return FrameDimensions(jpeg[offset..segment.value]);
      }
      if code == START_OF_SCAN {
        return Bad(NoJpegHeader);
      }
      offset := segment.value;
    }
    JpegEnds(jpeg, offset);
    r := Bad(NoJpegHeader);
  }

  lemma JpegEnds(jpeg: Bytes, offset: nat)
    requires |jpeg| - 2 <= offset <= |jpeg|
    ensures JpegFrom(jpeg, offset) == Bad(NoJpegHeader)
  {
  }

  predicate IsFramed(jpeg: Bytes)
    ensures IsFramed(jpeg) ==> |jpeg| >= 4
  {
    |jpeg| >= 4 && jpeg[..2] == [0xFF, 0xD8] && jpeg[|jpeg| - 2..] == [0xFF, 0xD9]
  }

  // ---- Limits ------------------------------------------------------------------------------------

  /** Decoded-frame and encoded-payload limits shared by every transport. */
  datatype FrameLimits = FrameLimits(maxJpegBytes: int, minDimension: int, maxLongEdge: int, maxPixels: int)

  /** _validate_dimensions. */
  function Fits(size: Size, limits: FrameLimits): Parsed<Size> {
    if size.width < limits.minDimension || size.height < limits.minDimension then Bad(TooSmall)
    else if size.width > limits.maxLongEdge || size.height > limits.maxLongEdge then Bad(TooLong)
    else if size.width * size.height > limits.maxPixels then Bad(TooManyPixels)
    else Read(size)
  }

  predicate WithinLimits(size: Size, limits: FrameLimits) {
    && limits.minDimension <= size.width <= limits.maxLongEdge
    && limits.minDimension <= size.height <= limits.maxLongEdge
    && size.width * size.height <= limits.maxPixels
  }

  lemma FitsExactly(r: Parsed<Size>, limits: FrameLimits)
    ensures forall size :: (r.Read? && Fits(r.value, limits) == Read(size)) <==>
            (r == Read(size) && WithinLimits(size, limits))
  {
  }

  /** decode_jpeg ahead of decoding: a bounded file with start and end markers whose frame header declares a
      size within the limits, and nothing else, gets as far as the decoder. */
  method DeclaredSize(jpeg: Bytes, limits: FrameLimits) returns (r: Parsed<Size>)
    ensures IsFramed(jpeg) ==>
              forall size :: r == Read(size) <==>
                |jpeg| <= limits.maxJpegBytes && IsJpeg(jpeg, size) && WithinLimits(size, limits)
    ensures !IsFramed(jpeg) ==>
            r == Bad(if jpeg != [] && |jpeg| > limits.maxJpegBytes then TooManyBytes else IncompleteJpeg)
  {
    hide IsFramed, JpegFrom, IsJpeg, Fits, WithinLimits;
    if jpeg == [] {
      return Bad(IncompleteJpeg);
    }
    if |jpeg| > limits.maxJpegBytes {
      return Bad(TooManyBytes);
    }
    if !IsFramed(jpeg) {
      return Bad(IncompleteJpeg);
    }
    var declared := JpegDimensions(jpeg);
    forall size ensures JpegFrom(jpeg, 2) == Read(size) <==> IsJpeg(jpeg, size) {
      JpegAcceptsExactly(jpeg, size);
    }
    FitsExactly(declared, limits);
    if declared.Bad? {
      return declared;
    }
    r := Fits(declared.value, limits);
  }

  /** The still PNG or WebP image, by its dispatch signature, whose size is `size`. */
  ghost predicate IsStill(encoded: Bytes, size: Size, checksum: Bytes -> nat) {
    if PngDispatched(encoded) then IsPng(encoded, size, checksum) else WebpDispatched(encoded) && IsWebp(encoded, size)
  }

  lemma StillIsRead(encoded: Bytes, r: Parsed<Size>, checksum: Bytes -> nat)
    requires PngDispatched(encoded) ==> ReadsPng(encoded, r, checksum)
    requires WebpDispatched(encoded) ==> ReadsWebp(encoded, r)
    requires !PngDispatched(encoded) && !WebpDispatched(encoded) ==> r.Bad?
    ensures forall size :: r == Read(size) <==> IsStill(encoded, size, checksum)
  {
    hide PngDispatched, WebpDispatched, IsPng, IsWebp;
  }

  /** decode_image ahead of decoding: a JPEG start marker selects the JPEG checks, anything else must be a
      bounded still PNG or WebP image within the limits. */
  method DeclaredImageSize(encoded: Bytes, checksum: Bytes -> nat, limits: FrameLimits) returns (r: Parsed<Size>)
    ensures [0xFF, 0xD8] <= encoded && IsFramed(encoded) ==>
              forall size :: r == Read(size) <==>
                |encoded| <= limits.maxJpegBytes && IsJpeg(encoded, size) && WithinLimits(size, limits)
    ensures [0xFF, 0xD8] <= encoded && !IsFramed(encoded) ==> r.Bad?
    ensures !([0xFF, 0xD8] <= encoded) ==>
              forall size :: r == Read(size) <==>
                             encoded != [] && |encoded| <= limits.maxJpegBytes && IsStill(encoded, size, checksum)
                               && WithinLimits(size, limits)
  {
    hide IsFramed, IsJpeg, IsStill, Fits, WithinLimits, ReadsPng, ReadsWebp, PngDispatched, WebpDispatched;
    if [0xFF, 0xD8] <= encoded {
      r := DeclaredSize(encoded, limits);
      return;
    }
    if encoded == [] {
      return Bad(EmptyImage);
    }
    if |encoded| > limits.maxJpegBytes {
      return Bad(TooManyBytes);
    }
    var declared := NonJpegDimensions(encoded, checksum);
    StillIsRead(encoded, declared, checksum);
    FitsExactly(declared, limits);
    if declared.Bad? {
      return declared;
    }
    r := Fits(declared.value, limits);
  }
}
