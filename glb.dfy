/** The placeholder model the backend writes when the photogrammetry tool is not
    available: a binary glTF (GLB) container holding a JSON chunk and a binary
    chunk with the vertices and indices of a unit cube. */
module Glb {
  import opened Js

  type Byte = b: int | 0 <= b < 256

  // ---------------------------------------------------------------- little-endian integers

  function Pow256(n: nat): (p: nat)
    ensures p >= 1
  {
    if n == 0 then 1 else 256 * Pow256(n - 1)
  }

  /** `n` little-endian bytes of `v`: `writeUInt32LE` for `n == 4`, a
      `Uint16Array` element for `n == 2`. */
  function LE(v: nat, n: nat): (b: seq<Byte>)
    ensures |b| == n
  {
    if n == 0 then [] else [v % 256] + LE(v / 256, n - 1)
  }

  /** The value of little-endian bytes. */
  function ReadLE(b: seq<Byte>): (v: nat)
    ensures v < Pow256(|b|)
  {
    if b == [] then 0 else b[0] + 256 * ReadLE(b[1..])
  }

  lemma DivModByte(lo: int, hi: int)
    requires 0 <= lo < 256
    ensures (lo + 256 * hi) % 256 == lo && (lo + 256 * hi) / 256 == hi
  {
  }

  /** `writeUInt32LE` accepts values below this bound. */
  const U32Limit: nat := 0x1_0000_0000

  lemma FourBytes()
    ensures Pow256(4) == U32Limit
  {
  }

  /** Reading back what was written gives the value. */
  lemma {:induction false} ReadWriteLE(v: nat, n: nat)
    requires v < Pow256(n)
    ensures ReadLE(LE(v, n)) == v
  {
    if n > 0 {
      assert v / 256 < Pow256(n - 1);
      ReadWriteLE(v / 256, n - 1);
      assert LE(v, n)[1..] == LE(v / 256, n - 1);
    }
  }

  /** Writing what was read gives the bytes. */
  lemma {:induction false} WriteReadLE(b: seq<Byte>)
    ensures LE(ReadLE(b), |b|) == b
  {
    if b != [] {
      WriteReadLE(b[1..]);
      DivModByte(b[0], ReadLE(b[1..]));
    }
  }

  // ---------------------------------------------------------------- constants

  const Magic: nat := 0x46546C67
  const Version: nat := 2
  const JsonChunk: nat := 0x4E4F534A
  const BinChunk: nat := 0x004E4942
  const JsonFill: Byte := 0x20
  const BinFill: Byte := 0x00

  /** The magic number is the ASCII tag `glTF`. */
  lemma MagicSpellsGlTF()
    ensures LE(Magic, 4) == ['g' as int, 'l' as int, 'T' as int, 'F' as int]
  {
  }

  /** The JSON chunk type is the ASCII tag `JSON`. */
  lemma JsonTypeSpellsJson()
    ensures LE(JsonChunk, 4) == ['J' as int, 'S' as int, 'O' as int, 'N' as int]
  {
  }

  /** The binary chunk type is the ASCII tag `BIN` and a zero byte. */
  lemma BinTypeSpellsBin()
    ensures LE(BinChunk, 4) == ['B' as int, 'I' as int, 'N' as int, 0]
  {
  }

  // ---------------------------------------------------------------- padding

  /** `(4 - (n % 4)) % 4` */
  function Pad4(n: nat): (p: nat)
    ensures p < 4 && (n + p) % 4 == 0
  {
    (4 - n % 4) % 4
  }

  /** No shorter padding aligns the data. */
  lemma PadMinimal(n: nat, q: nat)
    requires q < Pad4(n)
    ensures (n + q) % 4 != 0
  {
  }

  /** `Buffer.concat([data, Buffer.alloc(pad, fill)])` */
  function Padded(data: seq<Byte>, fill: Byte): (r: seq<Byte>)
    ensures |r| % 4 == 0 && |data| <= |r| < |data| + 4
    ensures r[..|data|] == data
    ensures forall i :: |data| <= i < |r| ==> r[i] == fill
  {
    data + seq(Pad4(|data|), _ => fill)
  }

  /** Data whose length is already a multiple of four is not padded. */
  lemma PaddedAligned(data: seq<Byte>, fill: Byte)
    requires |data| % 4 == 0
    ensures Padded(data, fill) == data
  {
  }

  // ---------------------------------------------------------------- the container

  /** `writeUInt32LE` refuses values above 0xFFFFFFFF, so the total length must
      fit in 32 bits. */
  predicate Fits(json: seq<Byte>, bin: seq<Byte>) {
    12 + 8 + |Padded(json, JsonFill)| + 8 + |Padded(bin, BinFill)| < U32Limit
  }

  /** The 12-byte file header: magic, version, total length. */
  function Header(total: nat): (h: seq<Byte>)
    requires total < U32Limit
    ensures |h| == 12
  {
    LE(Magic, 4) + LE(Version, 4) + LE(total, 4)
  }

  /** The 8 bytes before a chunk's data: its length and its type. */
  function ChunkHead(length: nat, kind: nat): (h: seq<Byte>)
    ensures |h| == 8
  {
    LE(length, 4) + LE(kind, 4)
  }

  /** A chunk: its length, its type, its data. */
  function Chunk(kind: nat, data: seq<Byte>): (c: seq<Byte>)
    ensures |c| == 8 + |data|
  {
    ChunkHead(|data|, kind) + data
  }

  /** The bytes of the container: header, then the JSON chunk padded with
      spaces, then the binary chunk padded with zeros. */
  function Container(json: seq<Byte>, bin: seq<Byte>): (glb: seq<Byte>)
    requires Fits(json, bin)
    ensures |glb| == 28 + |Padded(json, JsonFill)| + |Padded(bin, BinFill)| && |glb| % 4 == 0
  {
    var j, b := Padded(json, JsonFill), Padded(bin, BinFill);
    AlignedSum(|j|, |b|);
    Header(28 + |j| + |b|) + Chunk(JsonChunk, j) + Chunk(BinChunk, b)
  }

  /** The 28 bytes of header and chunk headers keep two aligned lengths aligned. */
  lemma AlignedSum(j: nat, b: nat)
    requires j % 4 == 0 && b % 4 == 0
    ensures (28 + j + b) % 4 == 0
  {
    var x, y := j / 4, b / 4;
    assert j == 4 * x && b == 4 * y;
    assert 28 + j + b == 4 * (7 + x + y);
  }

  /** A chunk of the given type at the start of `s`: its data and what follows. */
  function DecodeChunk(s: seq<Byte>, kind: nat): Option<(seq<Byte>, seq<Byte>)> {
    if |s| < 8 || ReadLE(s[4..8]) != kind || 8 + ReadLE(s[..4]) > |s| then None
    else Some((s[8..8 + ReadLE(s[..4])], s[8 + ReadLE(s[..4])..]))
  }

  /** A reader for the container: header fields checked, then a JSON chunk and a
      binary chunk that end the file. */
  function Decode(glb: seq<Byte>): Option<(seq<Byte>, seq<Byte>)> {
    if |glb| < 12 || ReadLE(glb[..4]) != Magic || ReadLE(glb[4..8]) != Version || ReadLE(glb[8..12]) != |glb| then None
    else DecodeBody(glb[12..])
  }

  /** What follows the header: a JSON chunk, then a binary chunk that ends the file. */
  function DecodeBody(body: seq<Byte>): Option<(seq<Byte>, seq<Byte>)> {
    match DecodeChunk(body, JsonChunk)
    case None => None
    case Some((j, rest)) =>
      match DecodeChunk(rest, BinChunk)
      case None => None
      case Some((b, tail)) => if tail == [] then Some((j, b)) else None
  }

  lemma DecodeChunkOf(kind: nat, data: seq<Byte>, rest: seq<Byte>)
    requires kind < U32Limit && |data| < U32Limit
    ensures DecodeChunk(Chunk(kind, data) + rest, kind) == Some((data, rest))
  {
    var s := Chunk(kind, data) + rest;
    assert s == LE(|data|, 4) + LE(kind, 4) + data + rest;
    assert s[..4] == LE(|data|, 4);
    assert s[4..8] == LE(kind, 4);
    FourBytes();
    ReadWriteLE(|data|, 4);
    ReadWriteLE(kind, 4);
    assert s[8..8 + |data|] == data;
    assert s[8 + |data|..] == rest;
  }

  /** The header reads back as its three fields. */
  lemma ReadHeader(total: nat, rest: seq<Byte>)
    requires total < U32Limit
    ensures |Header(total) + rest| >= 12
    ensures ReadLE((Header(total) + rest)[..4]) == Magic && ReadLE((Header(total) + rest)[4..8]) == Version
    ensures ReadLE((Header(total) + rest)[8..12]) == total && (Header(total) + rest)[12..] == rest
  {
    var s := Header(total) + rest;
    assert s[..4] == LE(Magic, 4) && s[4..8] == LE(Version, 4) && s[8..12] == LE(total, 4);
    FourBytes();
    ReadWriteLE(Magic, 4);
    ReadWriteLE(Version, 4);
    ReadWriteLE(total, 4);
  }

  /** Two chunks after the header decode as their data. */
  lemma DecodeChunks(j: seq<Byte>, b: seq<Byte>)
    requires |j| < U32Limit && |b| < U32Limit
    ensures DecodeBody(Chunk(JsonChunk, j) + Chunk(BinChunk, b)) == Some((j, b))
  {
    var bc := Chunk(BinChunk, b);
    DecodeChunkOf(JsonChunk, j, bc);
    DecodeChunkOf(BinChunk, b, []);
    assert bc + [] == bc;
  }

  /** A header carrying the right total, followed by two chunks, decodes as
      the chunks' data. */
  lemma DecodeFrame(total: nat, j: seq<Byte>, b: seq<Byte>)
    requires total == 28 + |j| + |b| && total < U32Limit
    ensures Decode(Header(total) + Chunk(JsonChunk, j) + Chunk(BinChunk, b)) == Some((j, b))
  {
    var rest := Chunk(JsonChunk, j) + Chunk(BinChunk, b);
    assert Header(total) + Chunk(JsonChunk, j) + Chunk(BinChunk, b) == Header(total) + rest;
    DecodeAfterHeader(total, rest);
    DecodeChunks(j, b);
  }

  /** The container reads back as its two padded chunks. */
  lemma DecodeContainer(json: seq<Byte>, bin: seq<Byte>)
    requires Fits(json, bin)
    ensures Decode(Container(json, bin)) == Some((Padded(json, JsonFill), Padded(bin, BinFill)))
  {
    var j, b := Padded(json, JsonFill), Padded(bin, BinFill);
    var total := 28 + |j| + |b|;
    assert Container(json, bin) == Header(total) + Chunk(JsonChunk, j) + Chunk(BinChunk, b);
    DecodeFrame(total, j, b);
  }

  /** A header whose total is the file length hands the rest to the chunk reader. */
  lemma DecodeAfterHeader(total: nat, rest: seq<Byte>)
    requires total == 12 + |rest| && total < U32Limit
    ensures Decode(Header(total) + rest) == DecodeBody(rest)
  {
    ReadHeader(total, rest);
  }

  // ---------------------------------------------------------------- building it

  /** `buf.writeUInt32LE(v, offset)` */
  method WriteUInt32LE(buf: array<Byte>, v: nat, offset: nat)
    requires v < U32Limit && offset + 4 <= buf.Length
    modifies buf
    ensures buf[..] == old(buf[..])[..offset] + LE(v, 4) + old(buf[..])[offset + 4..]
  {
    var w := LE(v, 4);
    buf[offset] := w[0];
    buf[offset + 1] := w[1];
    buf[offset + 2] := w[2];
    buf[offset + 3] := w[3];
  }

  /** The 12-byte file header, written field by field into a zeroed buffer. */
  method FileHeader(total: nat) returns (h: array<Byte>)
    requires total < U32Limit
    ensures fresh(h) && h[..] == Header(total)
  {
    h := new Byte[12](_ => 0);
    ghost var zero := h[..];
    WriteUInt32LE(h, Magic, 0);
    ghost var one := LE(Magic, 4) + zero[4..];
    assert h[..] == one;
    WriteUInt32LE(h, Version, 4);
    assert one[..4] == LE(Magic, 4);
    ghost var two := LE(Magic, 4) + LE(Version, 4) + zero[8..];
    assert h[..] == two;
    WriteUInt32LE(h, total, 8);
    assert two[..8] == LE(Magic, 4) + LE(Version, 4) && two[12..] == [];
  }

  /** A zero-filled 8-byte chunk header holding a length and a type. */
  method ChunkHeader(length: nat, kind: nat) returns (h: array<Byte>)
    requires length < U32Limit && kind < U32Limit
    ensures fresh(h) && h[..] == ChunkHead(length, kind)
  {
    h := new Byte[8](_ => 0);
    ghost var zero := h[..];
    WriteUInt32LE(h, length, 0);
    assert h[..] == LE(length, 4) + zero[4..];
    WriteUInt32LE(h, kind, 4);
    assert (LE(length, 4) + zero[4..])[..4] == LE(length, 4);
    assert (LE(length, 4) + zero[4..])[8..] == [];
  }

  /** `Buffer.concat(parts)` into a new buffer. */
  function Flatten(parts: seq<seq<Byte>>): seq<Byte> {
    if parts == [] then [] else Flatten(parts[..|parts| - 1]) + parts[|parts| - 1]
  }

  method Concat(parts: seq<seq<Byte>>) returns (out: array<Byte>)
    ensures fresh(out) && out[..] == Flatten(parts)
  {
    out := new Byte[|Flatten(parts)|](_ => 0);
    var pos := 0;
    var i := 0;
    while i < |parts|
      invariant 0 <= i <= |parts|
      invariant pos == |Flatten(parts[..i])| <= out.Length
      invariant out[..pos] == Flatten(parts[..i])
    {
      var part := parts[i];
      assert parts[..i + 1][..i] == parts[..i];
      assert Flatten(parts[..i + 1]) == Flatten(parts[..i]) + part;
      FlattenPrefixLength(parts, i + 1);
      CopyInto(out, pos, part);
      pos := pos + |part|;
      i := i + 1;
    }
    assert parts[..i] == parts;
  }

  /** Copies `part` into `out` at `pos`, keeping what lies before it. */
  method CopyInto(out: array<Byte>, pos: nat, part: seq<Byte>)
    requires pos + |part| <= out.Length
    modifies out
    ensures out[..pos + |part|] == old(out[..pos]) + part
  {
    var j := 0;
    while j < |part|
      invariant 0 <= j <= |part|
      invariant out[..pos + j] == old(out[..pos]) + part[..j]
    {
      out[pos + j] := part[j];
      assert out[..pos + j + 1] == out[..pos + j] + [part[j]];
      assert part[..j + 1] == part[..j] + [part[j]];
      j := j + 1;
    }
    assert part[..j] == part;
  }

  /** The parts before `k` are no longer than all of them. */
  lemma {:induction false} FlattenPrefixLength(parts: seq<seq<Byte>>, k: nat)
    requires k <= |parts|
    ensures |Flatten(parts[..k])| <= |Flatten(parts)|
    decreases |parts|
  {
    if k < |parts| {
      var init := parts[..|parts| - 1];
      assert init[..k] == parts[..k];
      FlattenPrefixLength(init, k);
    } else {
      assert parts[..k] == parts;
    }
  }

  /** The container assembly of `createPlaceholderModel`: header, chunk headers
      and padded chunks, concatenated. */
  method BuildGlb(json: seq<Byte>, bin: seq<Byte>) returns (glb: array<Byte>)
    requires Fits(json, bin)
    ensures fresh(glb) && glb[..] == Container(json, bin)
  {
    var paddedJson := json + seq(Pad4(|json|), _ => JsonFill);
    var paddedBin := bin + seq(Pad4(|bin|), _ => BinFill);
    assert paddedJson == Padded(json, JsonFill) && paddedBin == Padded(bin, BinFill);
    var header := FileHeader(12 + 8 + |paddedJson| + 8 + |paddedBin|);
    var jsonHeader := ChunkHeader(|paddedJson|, JsonChunk);
    var binHeader := ChunkHeader(|paddedBin|, BinChunk);
    var parts := [header[..], jsonHeader[..], paddedJson, binHeader[..], paddedBin];
    glb := Concat(parts);
    ContainerParts(json, bin);
    assert parts == ContainerPieces(json, bin);
  }

  /** The five pieces `createPlaceholderModel` concatenates. */
  function ContainerPieces(json: seq<Byte>, bin: seq<Byte>): (parts: seq<seq<Byte>>)
    requires Fits(json, bin)
    ensures |parts| == 5
  {
    var j, b := Padded(json, JsonFill), Padded(bin, BinFill);
    [Header(28 + |j| + |b|), ChunkHead(|j|, JsonChunk), j, ChunkHead(|b|, BinChunk), b]
  }

  /** Concatenating the five pieces gives the container. */
  lemma ContainerParts(json: seq<Byte>, bin: seq<Byte>)
    requires Fits(json, bin)
    ensures Flatten(ContainerPieces(json, bin)) == Container(json, bin)
  {
    var j, b := Padded(json, JsonFill), Padded(bin, BinFill);
    FlattenFive(Header(28 + |j| + |b|), ChunkHead(|j|, JsonChunk), j, ChunkHead(|b|, BinChunk), b);
  }

  lemma FlattenFive(a: seq<Byte>, b: seq<Byte>, c: seq<Byte>, d: seq<Byte>, e: seq<Byte>)
    ensures Flatten([a, b, c, d, e]) == a + (b + c) + (d + e)
  {
    assert [a][..0] == [];
    assert Flatten([a]) == a;
    assert [a, b][..1] == [a];
    assert Flatten([a, b]) == a + b;
    assert [a, b, c][..2] == [a, b];
    assert Flatten([a, b, c]) == a + b + c;
    assert [a, b, c, d][..3] == [a, b, c];
    assert Flatten([a, b, c, d]) == a + b + c + d;
    assert [a, b, c, d, e][..4] == [a, b, c, d];
  }

  // ---------------------------------------------------------------- the placeholder cube

  /** A coordinate of the cube, in halves: `h` stands for `h / 2`. */
  type Half = h: int | -2 <= h <= 2

  type U16 = v: nat | v < 65536

  /** IEEE single-precision bits of `h / 2` for the values the cube uses. */
  function HalfBits(h: Half): (bits: nat)
    ensures bits < U32Limit
  {
    if h == -2 then 0xBF800000
    else if h == -1 then 0xBF000000
    else if h == 0 then 0
    else if h == 1 then 0x3F000000
    else 0x3F800000
  }

  /** The little-endian bytes of a `Float32Array` of values `h / 2`. */
  function Floats(hs: seq<Half>): (b: seq<Byte>)
    ensures |b| == 4 * |hs|
    ensures forall k :: 0 <= k < |hs| ==> b[4 * k..4 * k + 4] == LE(HalfBits(hs[k]), 4)
  {
    var b := seq(4 * |hs|, i requires 0 <= i < 4 * |hs| => LE(HalfBits(hs[i / 4]), 4)[i % 4]);
    assert forall k :: 0 <= k < |hs| ==> b[4 * k..4 * k + 4] == LE(HalfBits(hs[k]), 4) by {
      forall k | 0 <= k < |hs|
        ensures b[4 * k..4 * k + 4] == LE(HalfBits(hs[k]), 4)
      {
        forall m | 0 <= m < 4
          ensures b[4 * k..4 * k + 4][m] == LE(HalfBits(hs[k]), 4)[m]
        {
          assert (4 * k + m) / 4 == k && (4 * k + m) % 4 == m;
        }
      }
    }
    b
  }

  /** The little-endian bytes of a `Uint16Array`. */
  function Shorts(vs: seq<U16>): (b: seq<Byte>)
    ensures |b| == 2 * |vs|
    ensures forall k :: 0 <= k < |vs| ==> b[2 * k..2 * k + 2] == LE(vs[k], 2)
  {
    var b := seq(2 * |vs|, i requires 0 <= i < 2 * |vs| => LE(vs[i / 2], 2)[i % 2]);
    assert forall k :: 0 <= k < |vs| ==> b[2 * k..2 * k + 2] == LE(vs[k], 2) by {
      forall k | 0 <= k < |vs|
        ensures b[2 * k..2 * k + 2] == LE(vs[k], 2)
      {
        forall m | 0 <= m < 2
          ensures b[2 * k..2 * k + 2][m] == LE(vs[k], 2)[m]
        {
          assert (2 * k + m) / 2 == k && (2 * k + m) % 2 == m;
        }
      }
    }
    b
  }

  /** Cube corner coordinates, in halves: 24 vertices, four per face. */
  const Positions: seq<Half> := [
    -1,-1,1, 1,-1,1, 1,1,1, -1,1,1,
    1,-1,-1, -1,-1,-1, -1,1,-1, 1,1,-1,
    -1,1,1, 1,1,1, 1,1,-1, -1,1,-1,
    -1,-1,-1, 1,-1,-1, 1,-1,1, -1,-1,1,
    1,-1,1, 1,-1,-1, 1,1,-1, 1,1,1,
    -1,-1,-1, -1,-1,1, -1,1,1, -1,1,-1]

  /** Face normals, in halves. */
  const Normals: seq<Half> := [
    0,0,2, 0,0,2, 0,0,2, 0,0,2,
    0,0,-2, 0,0,-2, 0,0,-2, 0,0,-2,
    0,2,0, 0,2,0, 0,2,0, 0,2,0,
    0,-2,0, 0,-2,0, 0,-2,0, 0,-2,0,
    2,0,0, 2,0,0, 2,0,0, 2,0,0,
    -2,0,0, -2,0,0, -2,0,0, -2,0,0]

  /** Two triangles per face. */
  const Indices: seq<U16> := [
    0,1,2, 0,2,3, 4,5,6, 4,6,7,
    8,9,10, 8,10,11, 12,13,14, 12,14,15,
    16,17,18, 16,18,19, 20,21,22, 20,22,23]

  /** The binary chunk: positions, normals, indices. */
  function CubeBinary(): (b: seq<Byte>)
    ensures |b| == 648
  {
    Floats(Positions) + Floats(Normals) + Shorts(Indices)
  }

  /** A `bufferViews` entry and the `accessors` entry that reads it. */
  datatype View = View(byteOffset: nat, byteLength: nat, count: nat, components: nat, componentBytes: nat)

  /** The three views of the JSON chunk: VEC3 floats, VEC3 floats and SCALAR
      unsigned shorts. */
  const Views: seq<View> := [View(0, 288, 24, 3, 4), View(288, 288, 24, 3, 4), View(576, 72, 36, 1, 2)]

  const BufferLength: nat := 648

  /** The views lie end to end from the start of the buffer and together cover
      it, and the buffer is the binary chunk. */
  lemma ViewsTileBuffer()
    ensures Views[0].byteOffset == 0
    ensures forall i :: 0 < i < |Views| ==> Views[i].byteOffset == Views[i - 1].byteOffset + Views[i - 1].byteLength
    ensures Views[|Views| - 1].byteOffset + Views[|Views| - 1].byteLength == BufferLength == |CubeBinary()|
  {
  }

  /** Each view is exactly as long as the data its accessor reads, which is the
      data the binary chunk holds for it. */
  lemma ViewsMatchAccessors()
    ensures forall i :: 0 <= i < |Views| ==> Views[i].byteLength == Views[i].count * Views[i].components * Views[i].componentBytes
    ensures Views[0].count * Views[0].components == |Positions| && Views[1].count * Views[1].components == |Normals|
    ensures Views[2].count == |Indices|
  {
  }

  /** Every index names one of the 24 vertices. */
  lemma IndicesInRange()
    ensures forall i :: 0 <= i < |Indices| ==> Indices[i] < Views[0].count
  {
  }

  /** The binary chunk needs no padding. */
  lemma CubeBinaryAligned()
    ensures Padded(CubeBinary(), BinFill) == CubeBinary()
  {
    var b := CubeBinary();
    assert |b| == 162 * 4;
    PaddedAligned(b, BinFill);
  }
}
