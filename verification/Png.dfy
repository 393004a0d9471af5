/**
 * The PNG writer of setup/lib/teams-manifest.ts, against a reader that follows the PNG Specification (Second
 * Edition): the file signature and chunk layout of sections 5.2 and 5.3, and filter type 0 of section 9.2.
 * Compression is a parameter, given together with its inverse.
 */
module Png {
  import opened Prelude
  import Crc = Crc32

  type byte = x: nat | x < 256

  datatype RangeError = OutOfRange

  const SIGNATURE: seq<byte> := [0x89, 0x50, 0x4e, 0x47, 0x0d, 0x0a, 0x1a, 0x0a]
  const IHDR: seq<byte> := [73, 72, 68, 82]
  const IDAT: seq<byte> := [73, 68, 65, 84]
  const IEND: seq<byte> := [73, 69, 78, 68]

  /** Bit depth 8, colour type 6, and the only defined compression, filter and no interlace. */
  const TRUECOLOUR_ALPHA: seq<byte> := [8, 6, 0, 0, 0]

  const U32_LIMIT: nat := 0x1_0000_0000

  // ---- Integers in files ----

  lemma Digits(n: nat)
    requires n < U32_LIMIT
    ensures n == n / 0x1000000 * 0x1000000 + n / 0x10000 % 256 * 0x10000 + n / 256 % 256 * 256 + n % 256
  {
    assert n / 0x10000 == n / 256 / 256 && n / 0x1000000 == n / 0x10000 / 256;
  }

  /** `writeUInt32BE`, which throws outside its range: four digits to the base 256, the highest first. */
  function WriteU32(n: nat): (r: seq<byte>)
    requires n < U32_LIMIT
    ensures |r| == 4
    ensures n == r[0] as int * 0x1000000 + r[1] as int * 0x10000 + r[2] as int * 0x100 + r[3] as int
  {
    Digits(n);
    [n / 0x1000000, n / 0x10000 % 256, n / 256 % 256, n % 256]
  }

  function ReadU32(s: seq<byte>): (n: nat)
    requires |s| == 4
  {
    var (b0: int, b1: int, b2: int, b3: int) := (s[0], s[1], s[2], s[3]);
    b0 * 0x1000000 + b1 * 0x10000 + b2 * 256 + b3
  }

  lemma U32RoundTrip(n: nat)
    requires n < U32_LIMIT
    ensures ReadU32(WriteU32(n)) == n
  {
    Digits(n);
  }

  // ---- Chunks ----

  datatype Chunk = Chunk(kind: seq<byte>, data: seq<byte>)

  /** The bytes as the checksum's register takes them. */
  function Bits(s: seq<byte>): (r: seq<bv8>)
    ensures |r| == |s|
  {
    if s == [] then [] else Bits(s[..|s| - 1]) + [s[|s| - 1] as bv8]
  }

  lemma {:induction false} BitsAt(s: seq<byte>, i: nat)
    requires i < |s|
    ensures Bits(s)[i] == s[i] as bv8
  {
    if i < |s| - 1 {
      BitsAt(s[..|s| - 1], i);
    }
  }

  /** The checksum field: over the type and the data, not the length. */
  function Checksum(kind: seq<byte>, data: seq<byte>): (r: nat)
    ensures r < U32_LIMIT
  {
    Crc.BitwiseCrc(Bits(kind + data)) as int
  }

  function ChunkBytes(kind: seq<byte>, data: seq<byte>): seq<byte>
    requires |data| < U32_LIMIT
  {
    WriteU32(|data|) + kind + data + WriteU32(Checksum(kind, data))
  }

  method BufferOf(bytes: seq<byte>) returns (buf: array<bv8>)
    ensures fresh(buf) && buf[..] == Bits(bytes)
  {
    buf := new bv8[|bytes|](i requires 0 <= i < |bytes| => bytes[i] as bv8);
    forall i | 0 <= i < |bytes| ensures buf[i] == Bits(bytes)[i] {
      BitsAt(bytes, i);
    }
  }

  method ComputeChecksum(table: array<bv32>, kind: seq<byte>, data: seq<byte>) returns (sum: nat)
    requires Crc.IsCrcTable(table[..])
    ensures sum == Checksum(kind, data)
  {
    var buf := BufferOf(kind + data);
    var crc := Crc.Crc32(table, buf);
    sum := crc as int;
  }

  method MakeChunk(table: array<bv32>, kind: seq<byte>, data: seq<byte>) returns (r: Result<seq<byte>, RangeError>)
    requires Crc.IsCrcTable(table[..])
    ensures r == if |data| < U32_LIMIT then Ok(ChunkBytes(kind, data)) else Err(OutOfRange)
    ensures r.Ok? ==>
              r.value == WriteU32(|data|) + (kind + data) + WriteU32(Crc.BitwiseCrc(Bits(kind + data)) as int)
  {
    if |data| >= U32_LIMIT {
      return Err(OutOfRange);
    }
    var sum := ComputeChecksum(table, kind, data);
    assert WriteU32(|data|) + kind + data == WriteU32(|data|) + (kind + data);
    r := Ok(WriteU32(|data|) + kind + data + WriteU32(sum));
  }

  // ---- The writer ----

  function Area(rowBytes: nat, rows: nat): nat {
    rows * rowBytes
  }

  /** A read past the end of `pixels` gives `undefined`, which a buffer stores as zero. */
  function PixelAt(pixels: seq<byte>, i: nat): byte {
    if i < |pixels| then pixels[i] else 0
  }

  function Line(pixels: seq<byte>, start: nat, rowBytes: nat): (r: seq<byte>)
    ensures |r| == rowBytes
  {
    seq<byte>(rowBytes, x requires 0 <= x < rowBytes => PixelAt(pixels, start + x))
  }

  /** The first `rows` scanlines, each after its filter type byte. */
  function Scanlines(pixels: seq<byte>, rowBytes: nat, rows: nat): seq<byte>
    decreases rows, rowBytes
  {
    if rows == 0 then [] else
      Scanlines(pixels, rowBytes, rows - 1) + [0] + Line(pixels, Area(rowBytes, rows - 1), rowBytes)
  }

  function Header(width: nat, height: nat): (r: seq<byte>)
    requires width < U32_LIMIT && height < U32_LIMIT
    ensures |r| == 13
  {
    WriteU32(width) + WriteU32(height) + TRUECOLOUR_ALPHA
  }

  function Encoded(width: nat, height: nat, idat: seq<byte>): seq<byte>
    requires width < U32_LIMIT && height < U32_LIMIT && |idat| < U32_LIMIT
  {
    SIGNATURE + ChunkBytes(IHDR, Header(width, height)) + ChunkBytes(IDAT, idat) + ChunkBytes(IEND, [])
  }

  /** The inner loop: one scanline into the buffer. */
  method FillRow(raw: array<byte>, base: nat, pixels: seq<byte>, start: nat, rowBytes: nat)
    requires base + rowBytes + 1 <= raw.Length
    modifies raw
    ensures raw[..base] == old(raw[..base])
    ensures raw[base..base + rowBytes + 1] == [0] + Line(pixels, start, rowBytes)
  {
    raw[base] := 0;
    for x := 0 to rowBytes
      invariant raw[..base] == old(raw[..base])
      invariant raw[base..base + 1 + x] == [0] + Line(pixels, start, rowBytes)[..x]
    {
      raw[base + 1 + x] := PixelAt(pixels, start + x);
      assert raw[base..base + 1 + x + 1] == raw[base..base + 1 + x] + [raw[base + 1 + x]];
    }
  }

  method EncodePng(table: array<bv32>, deflate: seq<byte> -> seq<byte>, width: nat, height: nat, pixels: seq<byte>)
      returns (r: Result<seq<byte>, RangeError>)
    requires Crc.IsCrcTable(table[..])
    ensures
      var idat := deflate(Scanlines(pixels, width * 4, height));
      && (r.Ok? <==> width < U32_LIMIT && height < U32_LIMIT && |idat| < U32_LIMIT)
      && (r.Ok? ==> r.value == Encoded(width, height, idat))
  {
    if width >= U32_LIMIT || height >= U32_LIMIT {
      return Err(OutOfRange);
    }
    var rowBytes := width * 4;
    var stride := rowBytes + 1;
    var raw := new byte[height * stride];
    var base := 0;
    for y := 0 to height
      invariant base == y * stride
      invariant base <= raw.Length
      invariant raw[..base] == Scanlines(pixels, rowBytes, y)
      invariant Crc.IsCrcTable(table[..])
    {
      RowFits(y, height, stride);
      FillRow(raw, base, pixels, Area(rowBytes, y), rowBytes);
      assert raw[..base + stride] == raw[..base] + raw[base..base + stride];
      base := base + stride;
    }
    assert raw[..base] == raw[..];
    var ihdr := MakeChunk(table, IHDR, Header(width, height));
    var idat := MakeChunk(table, IDAT, deflate(raw[..]));
    var iend := MakeChunk(table, IEND, []);
    if idat.Err? {
      return Err(OutOfRange);
    }
    r := Ok(SIGNATURE + ihdr.value + idat.value + iend.value);
  }

  lemma RowFits(y: nat, height: nat, stride: nat)
    requires y < height
    ensures y * stride + stride == (y + 1) * stride <= height * stride
  {
    assert height * stride == (y + 1) * stride + (height - (y + 1)) * stride;
  }

  // ---- The reader ----

  /** One chunk and the rest of the file, if the lengths fit and the checksum agrees. */
  function ReadChunk(file: seq<byte>): (r: Option<(Chunk, seq<byte>)>)
    ensures r.Some? ==> |r.value.1| < |file|
  {
    if |file| < 12 then None else
      var n := ReadU32(file[..4]);
      if |file| < 12 + n then None else
        var kind, data := file[4..8], file[8..8 + n];
        if ReadU32(file[8 + n..12 + n]) != Checksum(kind, data) then None
        else Some((Chunk(kind, data), file[12 + n..]))
  }

  ghost predicate Consumes<B(!new), C(!new)>(read: seq<B> -> Option<(C, seq<B>)>) {
    forall file :: read(file).Some? ==> |read(file).value.1| < |file|
  }

  /** Reading one thing after another, until nothing is left. */
  function Walk<B(!new), C(!new)>(read: seq<B> -> Option<(C, seq<B>)>, file: seq<B>): Option<seq<C>>
    requires Consumes(read)
    decreases |file|
  {
    if |file| == 0 then Some([]) else
      match read(file)
      case None => None
      case Some((chunk, rest)) =>
        match Walk(read, rest)
        case None => None
        case Some(chunks) => Some([chunk] + chunks)
  }

  function Chunks(file: seq<byte>): Option<seq<Chunk>> {
    Walk(ReadChunk, file)
  }

  /** The scanlines without their filter bytes, if every filter type is 0 and there are exactly `rows`. */
  function Unfilter(raw: seq<byte>, rowBytes: nat, rows: nat): Option<seq<byte>>
    decreases rows, rowBytes
  {
    if rows == 0 then (if raw == [] then Some([]) else None)
    else if |raw| < rowBytes + 1 then None
    else
      var last := |raw| - (rowBytes + 1);
      if raw[last] != 0 then None else
        match Unfilter(raw[..last], rowBytes, rows - 1)
        case None => None
        case Some(above) => Some(above + raw[last + 1..])
  }

  datatype Image = Image(width: nat, height: nat, pixels: seq<byte>)

  function ImageOf(inflate: seq<byte> -> Option<seq<byte>>, header: seq<byte>, idat: seq<byte>): Option<Image>
    requires |header| == 13
  {
    var width, height := ReadU32(header[..4]), ReadU32(header[4..8]);
    if header[8..] != TRUECOLOUR_ALPHA || width == 0 || height == 0 then None else
      match inflate(idat)
      case None => None
      case Some(raw) =>
        match Unfilter(raw, width * 4, height)
        case None => None
        case Some(pixels) => Some(Image(width, height, pixels))
  }

  /** A reader for images of eight bits a channel, colour type 6, not interlaced. A size of zero is invalid. */
  function Decode(inflate: seq<byte> -> Option<seq<byte>>, file: seq<byte>): Option<Image> {
    if |file| < 8 || file[..8] != SIGNATURE then None else
      match Chunks(file[8..])
      case None => None
      case Some(chunks) =>
        if |chunks| != 3 || chunks[0].kind != IHDR || chunks[1].kind != IDAT || chunks[2] != Chunk(IEND, []) then None
        else if |chunks[0].data| != 13 then None
        else ImageOf(inflate, chunks[0].data, chunks[1].data)
  }

  // ---- The file reads back ----

  /** Any layout of the four parts reads as the chunk when the length is right, and only if the sum is. */
  lemma ReadLayout(
      len4: seq<byte>, kind: seq<byte>, data: seq<byte>, sum4: seq<byte>, rest: seq<byte>)
    requires |len4| == |kind| == |sum4| == 4 && ReadU32(len4) == |data|
    ensures ReadChunk(len4 + kind + data + sum4 + rest) ==
            if ReadU32(sum4) == Checksum(kind, data) then Some((Chunk(kind, data), rest)) else None
  {
    var file := len4 + kind + data + sum4 + rest;
    var n := |data|;
    assert file[..4] == len4;
    assert file[4..8] == kind && file[8..8 + n] == data;
    assert file[8 + n..12 + n] == sum4;
    assert file[12 + n..] == rest;
  }

  lemma ReadBack(kind: seq<byte>, data: seq<byte>, rest: seq<byte>)
    requires |kind| == 4 && |data| < U32_LIMIT
    ensures ReadChunk(ChunkBytes(kind, data) + rest) == Some((Chunk(kind, data), rest))
  {
    U32RoundTrip(|data|);
    U32RoundTrip(Checksum(kind, data));
    ReadLayout(WriteU32(|data|), kind, data, WriteU32(Checksum(kind, data)), rest);
  }

  lemma {:induction false} WalkThree<B(!new), C(!new)>(
      read: seq<B> -> Option<(C, seq<B>)>, b1: seq<B>, b2: seq<B>, b3: seq<B>, c1: C, c2: C, c3: C)
    requires Consumes(read)
    requires read(b1 + (b2 + b3)) == Some((c1, b2 + b3))
    requires read(b2 + b3) == Some((c2, b3))
    requires read(b3 + []) == Some((c3, []))
    ensures Walk(read, b1 + b2 + b3) == Some([c1, c2, c3])
  {
    assert b1 + b2 + b3 == b1 + (b2 + b3) && b3 + [] == b3;
    assert Walk(read, []) == Some([]);
    assert [c3] + [] == [c3] && [c2] + [c3] == [c2, c3] && [c1] + [c2, c3] == [c1, c2, c3];
    assert Walk(read, b3) == Some([c3]);
    assert Walk(read, b2 + b3) == Some([c2, c3]);
  }

  /** The chunks of the file are exactly header, image data and end, each with the right checksum. */
  lemma ThreeChunks(width: nat, height: nat, idat: seq<byte>)
    requires width < U32_LIMIT && height < U32_LIMIT && |idat| < U32_LIMIT
    ensures Encoded(width, height, idat)[..8] == SIGNATURE
    ensures Chunks(Encoded(width, height, idat)[8..]) ==
            Some([Chunk(IHDR, Header(width, height)), Chunk(IDAT, idat), Chunk(IEND, [])])
  {
    var header := Header(width, height);
    var b1, b2, b3 := ChunkBytes(IHDR, header), ChunkBytes(IDAT, idat), ChunkBytes(IEND, []);
    ReadBack(IHDR, header, b2 + b3);
    ReadBack(IDAT, idat, b3);
    ReadBack(IEND, [], []);
    WalkThree(ReadChunk, b1, b2, b3, Chunk(IHDR, header), Chunk(IDAT, idat), Chunk(IEND, []));
    AfterSignature(b1, b2, b3);
  }

  /** The bytes of every file, field by field: signature, header, data and end, and the last four, which are the same in
      every PNG file. */
  lemma FileLayout(width: nat, height: nat, idat: seq<byte>)
    requires width < U32_LIMIT && height < U32_LIMIT && |idat| < U32_LIMIT
    ensures
      var f := Encoded(width, height, idat);
      && |f| == 57 + |idat|
      && f[..8] == [137, 80, 78, 71, 13, 10, 26, 10]
      && f[8..16] == [0, 0, 0, 13, 73, 72, 68, 82]
      && f[16..20] == WriteU32(width) && f[20..24] == WriteU32(height) && f[24..29] == [8, 6, 0, 0, 0]
      && f[33..37] == WriteU32(|idat|) && f[37..41] == [73, 68, 65, 84] && f[41..41 + |idat|] == idat
      && f[45 + |idat|..] == [0, 0, 0, 0, 73, 69, 78, 68, 174, 66, 96, 130]
  {
    var header, data := ChunkBytes(IHDR, Header(width, height)), ChunkBytes(IDAT, idat);
    var f := Encoded(width, height, idat);
    EndChunk();
    HeaderChunk(width, height, header);
    DataChunk(idat, data);
    FourParts(SIGNATURE, header, data, ChunkBytes(IEND, []), f);
    PartOf(f, 8, header, 0, 8);
    PartOf(f, 8, header, 8, 12);
    PartOf(f, 8, header, 12, 16);
    PartOf(f, 8, header, 16, 21);
    PartOf(f, 33, data, 0, 4);
    PartOf(f, 33, data, 4, 8);
    PartOf(f, 33, data, 8, 8 + |idat|);
  }

  lemma FourParts(a: seq<byte>, b: seq<byte>, c: seq<byte>, d: seq<byte>, f: seq<byte>)
    requires f == a + b + c + d
    ensures f[..|a|] == a && f[|a|..|a| + |b|] == b && f[|a| + |b|..|a| + |b| + |c|] == c
    ensures f[|a| + |b| + |c|..] == d
  {
  }

  lemma PartOf(f: seq<byte>, at: nat, part: seq<byte>, i: nat, j: nat)
    requires at + |part| <= |f| && f[at..at + |part|] == part && i <= j <= |part|
    ensures f[at + i..at + j] == part[i..j]
  {
    forall k | 0 <= k < j - i ensures f[at + i..at + j][k] == part[i..j][k] {
      assert f[at..at + |part|][i + k] == part[i + k];
    }
  }

  lemma DataChunk(idat: seq<byte>, data: seq<byte>)
    requires |idat| < U32_LIMIT && data == ChunkBytes(IDAT, idat)
    ensures |data| == 12 + |idat| && data[..4] == WriteU32(|idat|) && data[4..8] == [73, 68, 65, 84]
    ensures data[8..8 + |idat|] == idat
  {
    FourParts(WriteU32(|idat|), IDAT, idat, WriteU32(Checksum(IDAT, idat)), data);
  }

  lemma HeaderChunk(width: nat, height: nat, chunk: seq<byte>)
    requires width < U32_LIMIT && height < U32_LIMIT && chunk == ChunkBytes(IHDR, Header(width, height))
    ensures |chunk| == 25 && chunk[..8] == [0, 0, 0, 13, 73, 72, 68, 82]
    ensures chunk[8..12] == WriteU32(width) && chunk[12..16] == WriteU32(height) && chunk[16..21] == [8, 6, 0, 0, 0]
  {
    var header := Header(width, height);
    FourParts(WriteU32(13), IHDR, header, WriteU32(Checksum(IHDR, header)), chunk);
    assert WriteU32(13) == [0, 0, 0, 13];
    assert chunk[..8] == chunk[..4] + chunk[4..8];
    ThreeParts(WriteU32(width), WriteU32(height), TRUECOLOUR_ALPHA);
    PartOf(chunk, 8, header, 0, 4);
    PartOf(chunk, 8, header, 4, 8);
    PartOf(chunk, 8, header, 8, 13);
  }

  lemma EndBits()
    ensures Bits(IEND) == [0x49, 0x45, 0x4e, 0x44]
  {
    forall i | 0 <= i < 4 ensures Bits(IEND)[i] == IEND[i] as bv8 {
      BitsAt(IEND, i);
    }
  }

  lemma EndChecksum()
    ensures Checksum(IEND, []) == 0xae426082
  {
    assert IEND + [] == IEND;
    EndBits();
    Crc.EndMarkerCrc();
  }

  lemma EndChunk()
    ensures ChunkBytes(IEND, []) == [0, 0, 0, 0, 73, 69, 78, 68, 174, 66, 96, 130]
  {
    EndChecksum();
    EndDigits(Checksum(IEND, []));
  }

  lemma EndDigits(n: nat)
    requires n == 0xae426082
    ensures WriteU32(n) == [174, 66, 96, 130] && WriteU32(0) == [0, 0, 0, 0]
  {
  }

  lemma AfterSignature(b1: seq<byte>, b2: seq<byte>, b3: seq<byte>)
    ensures (SIGNATURE + b1 + b2 + b3)[..8] == SIGNATURE
    ensures (SIGNATURE + b1 + b2 + b3)[8..] == b1 + b2 + b3
  {
  }

  /** What the writer makes of a buffer of any size: cut or filled up with zeros to the size of the image. */
  function Fitted(pixels: seq<byte>, size: nat): (r: seq<byte>)
    ensures |r| == size
    ensures forall i :: 0 <= i < size ==> r[i] == if i < |pixels| then pixels[i] else 0
    ensures |pixels| == size ==> r == pixels
  {
    seq<byte>(size, i requires 0 <= i < size => PixelAt(pixels, i))
  }

  lemma FittedGrows(pixels: seq<byte>, size: nat, more: nat)
    ensures Fitted(pixels, size + more) == Fitted(pixels, size) + Line(pixels, size, more)
  {
  }

  lemma {:induction false} UnfilterLast(above: seq<byte>, line: seq<byte>, rows: nat, plain: seq<byte>)
    requires rows > 0 && Unfilter(above, |line|, rows - 1) == Some(plain)
    ensures Unfilter(above + [0] + line, |line|, rows) == Some(plain + line)
  {
    var raw := above + [0] + line;
    assert raw[..|above|] == above && raw[|above| + 1..] == line;
  }

  lemma {:induction false} UnfilterUndoes(pixels: seq<byte>, rowBytes: nat, rows: nat)
    ensures Unfilter(Scanlines(pixels, rowBytes, rows), rowBytes, rows) == Some(Fitted(pixels, Area(rowBytes, rows)))
    decreases rows
  {
    if rows > 0 {
      UnfilterUndoes(pixels, rowBytes, rows - 1);
      RowFits(rows - 1, rows, rowBytes);
      var size := Area(rowBytes, rows - 1);
      UnfilterLast(Scanlines(pixels, rowBytes, rows - 1), Line(pixels, size, rowBytes), rows, Fitted(pixels, size));
      FittedGrows(pixels, size, rowBytes);
    }
  }

  /** The round trip, for every buffer: the reader gets the image back exactly when neither side is zero. */
  lemma {:induction false} DecodeOfEncode(
      deflate: seq<byte> -> seq<byte>, inflate: seq<byte> -> Option<seq<byte>>,
      width: nat, height: nat, pixels: seq<byte>)
    requires forall raw :: inflate(deflate(raw)) == Some(raw)
    requires width < U32_LIMIT && height < U32_LIMIT
    requires |deflate(Scanlines(pixels, width * 4, height))| < U32_LIMIT
    ensures Decode(inflate, Encoded(width, height, deflate(Scanlines(pixels, width * 4, height)))) ==
            if width > 0 && height > 0 then Some(Image(width, height, Fitted(pixels, Area(width * 4, height))))
            else None
  {
    var raw := Scanlines(pixels, width * 4, height);
    var header := Header(width, height);
    ThreeChunks(width, height, deflate(raw));
    HeaderReadsBack(width, height);
    UnfilterUndoes(pixels, width * 4, height);
    DecodeParts(inflate, Encoded(width, height, deflate(raw)), header, deflate(raw));
  }

  lemma DecodeParts(
      inflate: seq<byte> -> Option<seq<byte>>, file: seq<byte>, header: seq<byte>, idat: seq<byte>)
    requires |file| >= 8 && file[..8] == SIGNATURE && |header| == 13
    requires Chunks(file[8..]) == Some([Chunk(IHDR, header), Chunk(IDAT, idat), Chunk(IEND, [])])
    ensures Decode(inflate, file) == ImageOf(inflate, header, idat)
  {
  }

  lemma HeaderReadsBack(width: nat, height: nat)
    requires width < U32_LIMIT && height < U32_LIMIT
    ensures ReadU32(Header(width, height)[..4]) == width
    ensures ReadU32(Header(width, height)[4..8]) == height
    ensures Header(width, height)[8..] == TRUECOLOUR_ALPHA
  {
    ThreeParts(WriteU32(width), WriteU32(height), TRUECOLOUR_ALPHA);
    U32RoundTrip(width);
    U32RoundTrip(height);
  }

  lemma ThreeParts(a: seq<byte>, b: seq<byte>, c: seq<byte>)
    requires |a| == |b| == 4
    ensures (a + b + c)[..4] == a && (a + b + c)[4..8] == b && (a + b + c)[8..] == c
  {
  }

  /** The case the icons use: a full buffer comes back unchanged. */
  lemma {:induction false} FullBufferComesBack(
      deflate: seq<byte> -> seq<byte>, inflate: seq<byte> -> Option<seq<byte>>,
      width: nat, height: nat, pixels: seq<byte>)
    requires forall raw :: inflate(deflate(raw)) == Some(raw)
    requires 0 < width < U32_LIMIT && 0 < height < U32_LIMIT
    requires |deflate(Scanlines(pixels, width * 4, height))| < U32_LIMIT
    requires |pixels| == Area(width * 4, height)
    ensures Decode(inflate, Encoded(width, height, deflate(Scanlines(pixels, width * 4, height)))) ==
            Some(Image(width, height, pixels))
  {
    DecodeOfEncode(deflate, inflate, width, height, pixels);
  }

  // ---- Damage is noticed ----

  lemma {:induction false} BitsOfAppend(a: seq<byte>, b: seq<byte>)
    ensures Bits(a + b) == Bits(a) + Bits(b)
  {
    if b == [] {
      assert a + b == a;
    } else {
      assert (a + b)[..|a + b| - 1] == a + b[..|b| - 1];
      BitsOfAppend(a, b[..|b| - 1]);
    }
  }

  lemma {:induction false} BitsOfThree(a: seq<byte>, b: seq<byte>, c: seq<byte>)
    ensures Bits(a + b + c) == Bits(a) + Bits(b) + Bits(c)
  {
    BitsOfAppend(a + b, c);
    BitsOfAppend(a, b);
  }

  lemma SuccessorAsInt(b: bv8)
    requires b != 255
    ensures (b + 1) as int == b as int + 1
  {
  }

  lemma BitsBack(b: bv8)
    ensures (b as int) as bv8 == b
  {
  }

  lemma {:induction false} ByteBack(n: nat)
    requires n < 256
    ensures (n as bv8) as int == n
  {
    if n > 0 {
      ByteBack(n - 1);
      SuccessorAsInt((n - 1) as bv8);
      BitsBack((n - 1) as bv8 + 1);
    }
  }

  lemma {:induction false} BitsAreInjective(x: seq<byte>, y: seq<byte>)
    requires |x| == |y| && Bits(x) == Bits(y)
    ensures x == y
  {
    forall i | 0 <= i < |x| ensures x[i] == y[i] {
      BitsAt(x, i);
      BitsAt(y, i);
      ByteBack(x[i]);
      ByteBack(y[i]);
    }
  }

  lemma SameAsInts(a: bv32, b: bv32)
    requires a != b
    ensures a as int != b as int
  {
    Crc.IntBack(a);
    Crc.IntBack(b);
  }

  lemma ChecksumSeesBursts(
      written: Chunk, found: Chunk, front: seq<byte>, x: seq<byte>, y: seq<byte>, back: seq<byte>)
    requires written.kind + written.data == front + x + back && found.kind + found.data == front + y + back
    requires |x| == |y| <= 4 && x != y
    ensures Checksum(written.kind, written.data) != Checksum(found.kind, found.data)
  {
    BitsOfThree(front, x, back);
    BitsOfThree(front, y, back);
    if Bits(x) == Bits(y) {
      BitsAreInjective(x, y);
    }
    Crc.BurstsChangeTheCrc(Bits(front), Bits(x), Bits(y), Bits(back));
    SameAsInts(Crc.BitwiseCrc(Bits(front + x + back)), Crc.BitwiseCrc(Bits(front + y + back)));
  }

  /** A reader rejects a chunk whose type and data differ from what was written inside a window of at most four
      bytes, wherever the window lies. */
  lemma DamageIsNoticed(
      written: Chunk, found: Chunk, rest: seq<byte>, front: seq<byte>, x: seq<byte>, y: seq<byte>, back: seq<byte>)
    requires |written.kind| == |found.kind| == 4 && |written.data| == |found.data| < U32_LIMIT
    requires written.kind + written.data == front + x + back && found.kind + found.data == front + y + back
    requires |x| == |y| <= 4 && x != y
    ensures
      var (len4, sum4) := (WriteU32(|written.data|), WriteU32(Checksum(written.kind, written.data)));
      ReadChunk(len4 + found.kind + found.data + sum4 + rest) == None
  {
    U32RoundTrip(|written.data|);
    U32RoundTrip(Checksum(written.kind, written.data));
    ChecksumSeesBursts(written, found, front, x, y, back);
    ReadLayout(WriteU32(|written.data|), found.kind, found.data, WriteU32(Checksum(written.kind, written.data)), rest);
  }
}
