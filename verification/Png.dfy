/**
 The PNG writer of setup/lib/teams-manifest.ts and a reader that follows RFC 2083
 (sections 3.1, 3.2, 4.1.1 and 6.2) written independently of it.

 zlib is a pair of functions of which only one thing is known: inflating what was deflated
 gives it back.
 */
module Png {
  import opened Options
  import Crc

  newtype Byte = b: int | 0 <= b < 0x100

  datatype Zlib = Zlib(deflate: seq<Byte> -> seq<Byte>, inflate: seq<Byte> -> Option<seq<Byte>>) {
    ghost predicate Inverse() {
      forall raw :: inflate(deflate(raw)) == Some(raw)
    }
  }

  const TWO_31: nat := 0x8000_0000
  const TWO_32: nat := 0x1_0000_0000

  const SIGNATURE: seq<Byte> := [0x89, 0x50, 0x4e, 0x47, 0x0d, 0x0a, 0x1a, 0x0a]
  const IHDR: seq<Byte> := [0x49, 0x48, 0x44, 0x52]
  const IDAT: seq<Byte> := [0x49, 0x44, 0x41, 0x54]
  const IEND: seq<Byte> := [0x49, 0x45, 0x4e, 0x44]

  /** Bit depth 8, colour type RGBA, and the only compression, filter and interlace methods the writer uses. */
  const FORMAT: seq<Byte> := [8, 6, 0, 0, 0]

  // ---------- Big-endian numbers ----------

  function PutU32(n: nat): seq<Byte>
    requires n < TWO_32
  {
    [(n / 0x100_0000) as Byte, (n / 0x1_0000 % 0x100) as Byte, (n / 0x100 % 0x100) as Byte, (n % 0x100) as Byte]
  }

  function GetU32(b: seq<Byte>): nat
    requires |b| == 4
  {
    b[0] as nat * 0x100_0000 + b[1] as nat * 0x1_0000 + b[2] as nat * 0x100 + b[3] as nat
  }

  lemma Digits(n: nat)
    ensures n == n / 0x100_0000 * 0x100_0000 + n / 0x1_0000 % 0x100 * 0x1_0000 + n / 0x100 % 0x100 * 0x100 + n % 0x100
  {
    var a := n / 0x100;
    var b := a / 0x100;
    assert b == n / 0x1_0000;
    assert b / 0x100 == n / 0x100_0000;
  }

  lemma U32RoundTrip(n: nat)
    requires n < TWO_32
    ensures |PutU32(n)| == 4 && GetU32(PutU32(n)) == n
  {
    Digits(n);
  }

  function Octets(b: seq<Byte>): seq<Crc.Byte> {
    seq(|b|, i requires 0 <= i < |b| => b[i] as Crc.Byte)
  }

  /** The CRC of `b` as four bytes, most significant first. */
  function Checksum(b: seq<Byte>): (r: seq<Byte>)
    ensures |r| == 4
  {
    BigEndian(Crc.Reference(Octets(b)))
  }

  function Octet(c: bv32, shift: bv6): Crc.Byte
    requires shift <= 24
  {
    ((c >> shift) & 0xff) as Crc.Byte
  }

  function BigEndian(c: bv32): (r: seq<Byte>)
    ensures |r| == 4
  {
    [Octet(c, 24) as Byte, Octet(c, 16) as Byte, Octet(c, 8) as Byte, Octet(c, 0) as Byte]
  }

  function Assemble(a: Crc.Byte, b: Crc.Byte, c: Crc.Byte, d: Crc.Byte): bv32 {
    (a as bv32 << 24) | (b as bv32 << 16) | (c as bv32 << 8) | (d as bv32)
  }

  /** The 32-bit word a reader finds in four bytes. */
  function Word(b: seq<Byte>): bv32
    requires |b| == 4
  {
    Assemble(b[0] as Crc.Byte, b[1] as Crc.Byte, b[2] as Crc.Byte, b[3] as Crc.Byte)
  }

  lemma OctetBack(x: Crc.Byte)
    ensures (x as Byte) as Crc.Byte == x
  {
  }

  lemma OctetsAssemble(c: bv32)
    ensures Assemble(Octet(c, 24), Octet(c, 16), Octet(c, 8), Octet(c, 0)) == c
  {
  }

  lemma WordRoundTrip(c: bv32)
    ensures Word(BigEndian(c)) == c
  {
    hide Octet, Assemble;
    OctetBack(Octet(c, 24));
    OctetBack(Octet(c, 16));
    OctetBack(Octet(c, 8));
    OctetBack(Octet(c, 0));
    OctetsAssemble(c);
  }

  // ---------- The writer ----------

  /** Length, type, data, checksum of type and data; the length field takes 32 bits. */
  function Chunk(kind: seq<Byte>, data: seq<Byte>): seq<Byte>
    requires |data| < TWO_32
  {
    PutU32(|data|) + kind + data + Checksum(kind + data)
  }

  /** Reading past the end of a typed array gives undefined, which a buffer stores as 0. */
  function Pixel(pixels: seq<Byte>, i: nat): Byte {
    if i < |pixels| then pixels[i] else 0
  }

  function ByteCount(rowBytes: nat, rows: nat): nat {
    rows * rowBytes
  }

  /** The bytes of `rows` rows from row `y` on. */
  function Pixels(pixels: seq<Byte>, rowBytes: nat, y: nat, rows: nat): seq<Byte> {
    seq(ByteCount(rowBytes, rows), i requires 0 <= i => Pixel(pixels, ByteCount(rowBytes, y) + i))
  }

  /** Row `y` of an image whose rows are `rowBytes` wide. */
  function Row(pixels: seq<Byte>, rowBytes: nat, y: nat): seq<Byte> {
    seq(rowBytes, x requires 0 <= x => Pixel(pixels, ByteCount(rowBytes, y) + x))
  }

  /** Rows `y` up to `height`, each behind a filter byte 0. */
  function Scanlines(pixels: seq<Byte>, rowBytes: nat, y: nat, height: nat): seq<Byte>
    requires y <= height
    decreases height - y
  {
    if y == height then [] else [0] + Row(pixels, rowBytes, y) + Scanlines(pixels, rowBytes, y + 1, height)
  }

  function HeaderData(width: nat, height: nat): seq<Byte>
    requires width < TWO_32 && height < TWO_32
  {
    PutU32(width) + PutU32(height) + FORMAT
  }

  /** None when a number does not fit its 32-bit field, where the writer throws. */
  function Encode(zlib: Zlib, width: nat, height: nat, pixels: seq<Byte>): Option<seq<Byte>> {
    var idat := zlib.deflate(Scanlines(pixels, width * 4, 0, height));
    if width >= TWO_32 || height >= TWO_32 || |idat| >= TWO_32 then None
    else Some(SIGNATURE + Chunk(IHDR, HeaderData(width, height)) + Chunk(IDAT, idat) + Chunk(IEND, []))
  }

  // ---------- The reader ----------

  datatype ChunkData = ChunkData(kind: seq<Byte>, data: seq<Byte>)

  datatype Image = Image(width: nat, height: nat, pixels: seq<Byte>)

  /** All chunks up to and including IEND, which must end the file; every length and every checksum is verified. */
  function ReadChunks(b: seq<Byte>): Option<seq<ChunkData>>
    decreases |b|
  {
    if |b| < 12 then None
    else
      var length := GetU32(b[..4]);
      if length >= TWO_31 || |b| < 12 + length then None
      else
        var kind, data, rest := b[4..8], b[8..8 + length], b[12 + length..];
        if Word(b[8 + length..12 + length]) != Crc.Reference(Octets(b[4..8 + length])) then None
        else if kind == IEND then if rest == [] then Some([ChunkData(kind, data)]) else None
        else
          var more := ReadChunks(rest);
          if more.None? then None else Some([ChunkData(kind, data)] + more.value)
  }

  function Unfilter(raw: seq<Byte>, rowBytes: nat, height: nat): Option<seq<Byte>> {
    if height == 0 then if raw == [] then Some([]) else None
    else if |raw| < rowBytes + 1 || raw[0] != 0 then None
    else
      var more := Unfilter(raw[rowBytes + 1..], rowBytes, height - 1);
      if more.None? then None else Some(raw[1..rowBytes + 1] + more.value)
  }

  /** The data of consecutive IDAT chunks. */
  function Compressed(chunks: seq<ChunkData>): Option<seq<Byte>> {
    if chunks == [] then Some([])
    else if chunks[0].kind != IDAT then None
    else
      var more := Compressed(chunks[1..]);
      if more.None? then None else Some(chunks[0].data + more.value)
  }

  /** Exactly one IHDR, then one or more IDAT, then an empty IEND; 8-bit RGBA without interlacing. */
  function ReadImage(zlib: Zlib, chunks: seq<ChunkData>): Option<Image> {
    if |chunks| < 3 || chunks[0].kind != IHDR || |chunks[0].data| != 13 then None
    else
      var header, end := chunks[0].data, chunks[|chunks| - 1];
      var width, height := GetU32(header[..4]), GetU32(header[4..8]);
      if header[8..] != FORMAT || end != ChunkData(IEND, []) then None
      else if width == 0 || width >= TWO_31 || height == 0 || height >= TWO_31 then None
      else
        var compressed := Compressed(chunks[1..|chunks| - 1]);
        if compressed.None? then None
        else
          var raw := zlib.inflate(compressed.value);
          if raw.None? then None
          else
            var pixels := Unfilter(raw.value, width * 4, height);
            if pixels.None? then None else Some(Image(width, height, pixels.value))
  }

  function Read(zlib: Zlib, b: seq<Byte>): Option<Image> {
    if !(SIGNATURE <= b) then None
    else
      var chunks := ReadChunks(b[8..]);
      if chunks.None? then None else ReadImage(zlib, chunks.value)
  }

  // ---------- Reading undoes writing ----------

  lemma {:induction false} UnfilterScanlines(pixels: seq<Byte>, rowBytes: nat, y: nat, height: nat)
    requires y <= height
    ensures Unfilter(Scanlines(pixels, rowBytes, y, height), rowBytes, height - y) ==
            Some(Pixels(pixels, rowBytes, y, height - y))
    decreases height - y
  {
    if y == height {
      assert Pixels(pixels, rowBytes, y, 0) == [];
    } else {
      var row, rest := Row(pixels, rowBytes, y), Scanlines(pixels, rowBytes, y + 1, height);
      var raw := Scanlines(pixels, rowBytes, y, height);
      assert raw[1..rowBytes + 1] == row && raw[rowBytes + 1..] == rest;
      UnfilterScanlines(pixels, rowBytes, y + 1, height);
      FirstRow(pixels, rowBytes, y, height - y);
    }
  }

  lemma FirstRow(pixels: seq<Byte>, rowBytes: nat, y: nat, rows: nat)
    requires rows > 0
    ensures Row(pixels, rowBytes, y) + Pixels(pixels, rowBytes, y + 1, rows - 1) == Pixels(pixels, rowBytes, y, rows)
  {
    assert ByteCount(rowBytes, rows) == rowBytes + ByteCount(rowBytes, rows - 1);
    assert ByteCount(rowBytes, y + 1) == ByteCount(rowBytes, y) + rowBytes;
  }

  lemma ChunkParts(kind: seq<Byte>, data: seq<Byte>, rest: seq<Byte>)
    requires |kind| == 4 && |data| < TWO_32
    ensures var b, n := Chunk(kind, data) + rest, |data|;
            && |b| == 12 + n + |rest|
            && GetU32(b[..4]) == n && b[4..8] == kind && b[8..8 + n] == data && b[12 + n..] == rest
            && Word(b[8 + n..12 + n]) == Crc.Reference(Octets(b[4..8 + n]))
  {
    hide BigEndian, Word, PutU32, GetU32, Octets;
    var b, n := Chunk(kind, data) + rest, |data|;
    U32RoundTrip(n);
    assert b[..4] == PutU32(n) && b[4..8] == kind && b[8..8 + n] == data && b[12 + n..] == rest;
    assert b[4..8 + n] == kind + data && b[8 + n..12 + n] == Checksum(kind + data);
    WordRoundTrip(Crc.Reference(Octets(kind + data)));
  }

  lemma ReadChunk(kind: seq<Byte>, data: seq<Byte>, rest: seq<Byte>)
    requires |kind| == 4 && |data| < TWO_32
    ensures |data| >= TWO_31 ==> ReadChunks(Chunk(kind, data) + rest) == None
    ensures |data| < TWO_31 && kind == IEND && rest == [] ==>
              ReadChunks(Chunk(kind, data) + rest) == Some([ChunkData(kind, data)])
    ensures |data| < TWO_31 && kind != IEND ==>
              ReadChunks(Chunk(kind, data) + rest) ==
              if ReadChunks(rest).None? then None else Some([ChunkData(kind, data)] + ReadChunks(rest).value)
  {
    hide Chunk, Word, GetU32, Octets;
    ChunkParts(kind, data, rest);
  }

  lemma ReadHeader(width: nat, height: nat)
    requires width < TWO_32 && height < TWO_32
    ensures var header := HeaderData(width, height);
            |header| == 13 && GetU32(header[..4]) == width && GetU32(header[4..8]) == height && header[8..] == FORMAT
  {
    hide GetU32;
    U32RoundTrip(width);
    U32RoundTrip(height);
    var header := HeaderData(width, height);
    assert header[..4] == PutU32(width) && header[4..8] == PutU32(height) && header[8..] == FORMAT;
  }

  /** The three chunks the writer emits are the three chunks a reader finds, unless the data is too long for a chunk. */
  lemma ReadThreeChunks(header: seq<Byte>, idat: seq<Byte>)
    requires |header| == 13 && |idat| < TWO_32
    ensures ReadChunks(Chunk(IHDR, header) + Chunk(IDAT, idat) + Chunk(IEND, [])) ==
            if |idat| < TWO_31 then Some([ChunkData(IHDR, header), ChunkData(IDAT, idat), ChunkData(IEND, [])]) else None
  {
    hide ReadChunks, Chunk;
    assert IHDR[1] != IEND[1] && IDAT[1] != IEND[1];
    var tail := Chunk(IDAT, idat) + Chunk(IEND, []);
    ReadChunk(IHDR, header, tail);
    ReadChunk(IDAT, idat, Chunk(IEND, []));
    ReadChunk(IEND, [], []);
    assert Chunk(IEND, []) + [] == Chunk(IEND, []);
    var a, b, c := ChunkData(IHDR, header), ChunkData(IDAT, idat), ChunkData(IEND, []);
    assert [a] + ([b] + [c]) == [a, b, c];
    assert Chunk(IHDR, header) + Chunk(IDAT, idat) + Chunk(IEND, []) == Chunk(IHDR, header) + tail;
  }

  /**
   Main result: whatever the writer produces, a reader accepts, with every checksum right and no byte
   left over, and gets back the width, the height and the pixels — exactly when the dimensions are ones
   that PNG allows and the compressed data fits one chunk.
   */
  lemma ReadUndoesEncode(zlib: Zlib, width: nat, height: nat, pixels: seq<Byte>)
    requires zlib.Inverse() && Encode(zlib, width, height, pixels).Some?
    ensures
      var idat := zlib.deflate(Scanlines(pixels, width * 4, 0, height));
      Read(zlib, Encode(zlib, width, height, pixels).value) ==
      if 0 < width < TWO_31 && 0 < height < TWO_31 && |idat| < TWO_31
      then Some(Image(width, height, Pixels(pixels, width * 4, 0, height)))
      else None
  {
    hide ReadChunks, Chunk, HeaderData, GetU32, Unfilter;
    var raw := Scanlines(pixels, width * 4, 0, height);
    var idat, header := zlib.deflate(raw), HeaderData(width, height);
    ReadHeader(width, height);
    var body := Chunk(IHDR, header) + Chunk(IDAT, idat) + Chunk(IEND, []);
    var b := Encode(zlib, width, height, pixels).value;
    assert b == SIGNATURE + body && b[8..] == body;
    ReadThreeChunks(header, idat);
    if |idat| < TWO_31 {
      var chunks := [ChunkData(IHDR, header), ChunkData(IDAT, idat), ChunkData(IEND, [])];
      assert chunks[1..2] == [ChunkData(IDAT, idat)] && chunks[1..2][1..] == [] && idat + [] == idat;
      assert Compressed(chunks[1..2]) == Some(idat);
      UnfilterScanlines(pixels, width * 4, 0, height);
    }
  }

  /** With the width * height * 4 bytes the writer asks for, the pixels come back unchanged. */
  lemma PixelsComeBack(zlib: Zlib, width: nat, height: nat, pixels: seq<Byte>)
    requires zlib.Inverse() && |pixels| == ByteCount(width * 4, height)
    requires 0 < width < TWO_31 && 0 < height < TWO_31
    requires |zlib.deflate(Scanlines(pixels, width * 4, 0, height))| < TWO_31
    ensures Encode(zlib, width, height, pixels).Some?
    ensures Read(zlib, Encode(zlib, width, height, pixels).value) == Some(Image(width, height, pixels))
  {
    hide Read, Chunk, HeaderData;
    ReadUndoesEncode(zlib, width, height, pixels);
    AllPixels(pixels, width * 4, height);
  }

  lemma AllPixels(pixels: seq<Byte>, rowBytes: nat, height: nat)
    requires |pixels| == ByteCount(rowBytes, height)
    ensures Pixels(pixels, rowBytes, 0, height) == pixels
  {
    assert ByteCount(rowBytes, 0) == 0;
    forall i | 0 <= i < |pixels| ensures Pixels(pixels, rowBytes, 0, height)[i] == pixels[i] {
      assert Pixels(pixels, rowBytes, 0, height)[i] == Pixel(pixels, ByteCount(rowBytes, 0) + i) == Pixel(pixels, i);
    }
  }

  // ---------- What stands in the file, byte by byte ----------

  /** The number four bytes hold, most significant first. */
  ghost predicate Holds(b: seq<Byte>, at: nat, n: nat) {
    && at + 4 <= |b|
    && n == b[at] as int * 0x100_0000 + b[at + 1] as int * 0x1_0000 + b[at + 2] as int * 0x100 + b[at + 3] as int
  }

  lemma PutHolds(before: seq<Byte>, n: nat, after: seq<Byte>)
    requires n < TWO_32
    ensures Holds(before + PutU32(n) + after, |before|, n)
  {
    Digits(n);
    var b := before + PutU32(n) + after;
    assert b[|before|..|before| + 4] == PutU32(n);
  }

  lemma EndOfFile()
    ensures Chunk(IEND, []) == [0, 0, 0, 0, 0x49, 0x45, 0x4e, 0x44, 0xae, 0x42, 0x60, 0x82]
  {
    hide PutU32, Octets, BigEndian, Crc.Reference;
    SmallNumbers();
    Crc.IendChecksum();
    IendOctets();
    IendBytes();
    assert IEND + [] == IEND;
  }

  lemma IendOctets()
    ensures Octets(IEND) == [0x49, 0x45, 0x4e, 0x44]
  {
  }

  lemma IendBytes()
    ensures BigEndian(0xae42_6082) == [0xae, 0x42, 0x60, 0x82]
  {
    assert Octet(0xae42_6082, 24) == 0xae && Octet(0xae42_6082, 16) == 0x42;
    assert Octet(0xae42_6082, 8) == 0x60 && Octet(0xae42_6082, 0) == 0x82;
  }

  /** The first 33 bytes: the signature and the header chunk. */
  lemma HeadIs(width: nat, height: nat, rest: seq<Byte>)
    requires width < TWO_32 && height < TWO_32
    ensures
      var b := SIGNATURE + Chunk(IHDR, HeaderData(width, height)) + rest;
      && |b| == 33 + |rest| && b[33..] == rest
      && b[..16] == [0x89, 0x50, 0x4e, 0x47, 0x0d, 0x0a, 0x1a, 0x0a, 0, 0, 0, 13, 0x49, 0x48, 0x44, 0x52]
      && Holds(b, 16, width) && Holds(b, 20, height)
      && b[24..29] == [8, 6, 0, 0, 0]
  {
    hide PutU32, Checksum, Holds;
    U32RoundTrip(width);
    U32RoundTrip(height);
    SmallNumbers();
    var crc, head := Checksum(IHDR + HeaderData(width, height)), SIGNATURE + PutU32(13) + IHDR;
    var b := SIGNATURE + Chunk(IHDR, HeaderData(width, height)) + rest;
    var after := FORMAT + crc + rest;
    assert b == head + PutU32(width) + (PutU32(height) + after);
    assert b == (head + PutU32(width)) + PutU32(height) + after;
    PutHolds(head, width, PutU32(height) + after);
    PutHolds(head + PutU32(width), height, after);
  }

  lemma DataIs(idat: seq<Byte>, end: seq<Byte>)
    requires |idat| < TWO_32
    ensures
      var b := Chunk(IDAT, idat) + end;
      && |b| == 12 + |idat| + |end| && Holds(b, 0, |idat|)
      && b[4..8] == [0x49, 0x44, 0x41, 0x54] && b[8..8 + |idat|] == idat && b[12 + |idat|..] == end
  {
    hide PutU32, Checksum, Holds;
    U32RoundTrip(|idat|);
    var b, tail := Chunk(IDAT, idat) + end, IDAT + idat + Checksum(IDAT + idat) + end;
    assert b == [] + PutU32(|idat|) + tail;
    PutHolds([], |idat|, tail);
  }

  /**
   When there is a file, its length, its fixed bytes and the fields between them: the writer fails
   exactly when a number needs more than 32 bits.
   */
  lemma FileIs(zlib: Zlib, width: nat, height: nat, pixels: seq<Byte>)
    ensures
      var idat := zlib.deflate(Scanlines(pixels, width * 4, 0, height));
      Encode(zlib, width, height, pixels).Some? <==> width < 0x1_0000_0000 && height < 0x1_0000_0000 && |idat| < 0x1_0000_0000
    ensures
      var encoded, idat := Encode(zlib, width, height, pixels), zlib.deflate(Scanlines(pixels, width * 4, 0, height));
      encoded.Some? ==>
        && |encoded.value| == 57 + |idat|
        && encoded.value[..16] == [0x89, 0x50, 0x4e, 0x47, 0x0d, 0x0a, 0x1a, 0x0a, 0, 0, 0, 13, 0x49, 0x48, 0x44, 0x52]
        && Holds(encoded.value, 16, width) && Holds(encoded.value, 20, height)
        && encoded.value[24..29] == [8, 6, 0, 0, 0]
        && Holds(encoded.value, 33, |idat|) && encoded.value[37..41] == [0x49, 0x44, 0x41, 0x54]
        && encoded.value[41..41 + |idat|] == idat
        && encoded.value[45 + |idat|..] == [0, 0, 0, 0, 0x49, 0x45, 0x4e, 0x44, 0xae, 0x42, 0x60, 0x82]
  {
    hide Chunk, HeaderData, Scanlines;
    if Encode(zlib, width, height, pixels).Some? {
      ReadHeader(width, height);
      var idat := zlib.deflate(Scanlines(pixels, width * 4, 0, height));
      var b, rest := Encode(zlib, width, height, pixels).value, Chunk(IDAT, idat) + Chunk(IEND, []);
      assert b == SIGNATURE + Chunk(IHDR, HeaderData(width, height)) + rest;
      EndOfFile();
      HeadIs(width, height, rest);
      DataIs(idat, Chunk(IEND, []));
      assert b[33..][4..8] == b[37..41] && b[33..][8..8 + |idat|] == b[41..41 + |idat|];
      assert b[33..][12 + |idat|..] == b[45 + |idat|..];
    }
  }

  lemma SmallNumbers()
    ensures PutU32(0) == [0, 0, 0, 0] && PutU32(13) == [0, 0, 0, 13]
  {
  }

  /** The byte in column `x` of row `y` stands behind that row's filter byte; past the end of the pixels it is 0. */
  lemma ScanlineAt(pixels: seq<Byte>, rowBytes: nat, height: nat, y: nat, x: nat)
    requires y < height && x < rowBytes
    ensures var raw, at := Scanlines(pixels, rowBytes, 0, height), y * (rowBytes + 1);
            && at + x + 1 < |raw| == height * (rowBytes + 1)
            && raw[at] == 0
            && raw[at + x + 1] == if y * rowBytes + x < |pixels| then pixels[y * rowBytes + x] else 0
  {
    hide Scanlines;
    ScanlineFrom(pixels, rowBytes, 0, height, y, x);
    ScanlinesLength(pixels, rowBytes, 0, height);
  }

  lemma {:induction false} ScanlineFrom(pixels: seq<Byte>, rowBytes: nat, from: nat, height: nat, y: nat, x: nat)
    requires from <= y < height && x < rowBytes
    ensures var raw, at := Scanlines(pixels, rowBytes, from, height), ByteCount(rowBytes + 1, y - from);
            at + x + 1 < |raw| && raw[at] == 0 && raw[at + x + 1] == Pixel(pixels, ByteCount(rowBytes, y) + x)
    decreases y - from
  {
    hide ByteCount, Pixel;
    var raw, rest := Scanlines(pixels, rowBytes, from, height), Scanlines(pixels, rowBytes, from + 1, height);
    if from < y {
      ScanlineFrom(pixels, rowBytes, from + 1, height, y, x);
      RowsFit(rowBytes + 1, y - from, y - from);
      var at := ByteCount(rowBytes + 1, y - from - 1);
      assert raw[rowBytes + 1..] == rest;
      assert raw[at + (rowBytes + 1)] == rest[at] && raw[at + (rowBytes + 1) + x + 1] == rest[at + x + 1];
    } else {
      NoRows(rowBytes + 1);
      assert raw[x + 1] == Row(pixels, rowBytes, y)[x];
    }
  }

  lemma NoRows(width: nat)
    ensures ByteCount(width, 0) == 0
  {
  }

  lemma OneRowOn(rows: nat, width: nat)
    requires rows > 0
    ensures rows * width == (rows - 1) * width + width
  {
  }

  lemma {:induction false} ScanlinesLength(pixels: seq<Byte>, rowBytes: nat, y: nat, height: nat)
    requires y <= height
    ensures |Scanlines(pixels, rowBytes, y, height)| == (height - y) * (rowBytes + 1)
    decreases height - y
  {
    if y < height {
      OneRowOn(height - y, rowBytes + 1);
      ScanlinesLength(pixels, rowBytes, y + 1, height);
    }
  }

  // ---------- The code ----------

  method EncodeChunk(table: array<bv32>, kind: seq<Byte>, data: seq<Byte>) returns (r: seq<Byte>)
    requires Crc.IsTable(table) && |data| < TWO_32
    ensures r == Chunk(kind, data)
  {
    var crc := Crc.Crc32(table, Octets(kind + data));
    r := PutU32(|data|) + kind + data + BigEndian(crc);
  }

  method FilterRows(width: nat, height: nat, pixels: seq<Byte>) returns (raw: array<Byte>)
    ensures raw[..] == Scanlines(pixels, width * 4, 0, height)
  {
    hide ByteCount, Row;
    var rowBytes := width * 4;
    NoRows(rowBytes + 1);
    raw := new Byte[ByteCount(rowBytes + 1, height)];
    for y := 0 to height
      invariant ByteCount(rowBytes + 1, y) <= raw.Length == ByteCount(rowBytes + 1, height)
      invariant Scanlines(pixels, rowBytes, 0, height) ==
                raw[..ByteCount(rowBytes + 1, y)] + Scanlines(pixels, rowBytes, y, height)
    {
      RowsFit(rowBytes + 1, y + 1, height);
      ghost var before := raw[..ByteCount(rowBytes + 1, y)];
      FilterRow(raw, ByteCount(rowBytes + 1, y), pixels, rowBytes, y);
      assert raw[..ByteCount(rowBytes + 1, y + 1)] == before + ([0] + Row(pixels, rowBytes, y));
    }
    assert raw[..] == raw[..ByteCount(rowBytes + 1, height)];
  }

  lemma RowsFit(width: nat, rows: nat, height: nat)
    requires 0 < rows <= height
    ensures ByteCount(width, rows) == ByteCount(width, rows - 1) + width
    ensures ByteCount(width, rows) <= ByteCount(width, height)
  {
  }

  method FilterRow(raw: array<Byte>, base: nat, pixels: seq<Byte>, rowBytes: nat, y: nat)
    requires base + rowBytes + 1 <= raw.Length
    modifies raw
    ensures raw[..base] == old(raw[..base])
    ensures raw[base..base + rowBytes + 1] == [0] + Row(pixels, rowBytes, y)
  {
    ghost var row := Row(pixels, rowBytes, y);
    raw[base] := 0;
    for x := 0 to rowBytes
      invariant raw[..base] == old(raw[..base]) && raw[base] == 0
      invariant forall k {:trigger raw[k]} :: base < k <= base + x ==> raw[k] == row[k - base - 1]
    {
      raw[base + 1 + x] := Pixel(pixels, ByteCount(rowBytes, y) + x);
      assert row[x] == Pixel(pixels, ByteCount(rowBytes, y) + x);
    }
    assert raw[base..base + rowBytes + 1] == [raw[base]] + raw[base + 1..base + 1 + rowBytes];
    assert raw[base + 1..base + 1 + rowBytes] == row;
  }

  method EncodePng(zlib: Zlib, width: nat, height: nat, pixels: seq<Byte>) returns (r: Option<seq<Byte>>)
    ensures r == Encode(zlib, width, height, pixels)
  {
    if width >= TWO_32 || height >= TWO_32 {
      return None;
    }
    var ihdr := PutU32(width) + PutU32(height) + FORMAT;
    var raw := FilterRows(width, height, pixels);
    var idat := zlib.deflate(raw[..]);
    if |idat| >= TWO_32 {
      return None;
    }
    var table := Crc.MakeTable();
    var first := EncodeChunk(table, IHDR, ihdr);
    var second := EncodeChunk(table, IDAT, idat);
    var third := EncodeChunk(table, IEND, []);
    r := Some(SIGNATURE + first + second + third);
  }
}
