/** The two packed, little-endian on-disk structures of a PackFile: the
    12-byte file header and the 16-byte header in front of every chunk. */
module Layout {
  import opened Bytes

  /** `sizeof(FileHeader)`: the chunk table always starts at this offset. */
  const FileHeaderSize: nat := 12
  /** `sizeof(ChunkHeader)`: the payload view starts this far after its header. */
  const ChunkHeaderSize: nat := 16
  /** `offsetof(ChunkHeader, nextChunkOffset) + sizeof(nextChunkOffset)`: the
      base from which `nextChunkOffset` is measured. */
  const NextChunkOffsetEnd: nat := 8

  /** ASCII 'P' and 'F', the file magic. */
  const MagicP: byte := 0x50
  const MagicF: byte := 0x46

  datatype FileHeader = FileHeader(
    magic: (byte, byte),
    descriptorType: u16,
    zero: u16,
    headerSize: u16,
    contentType: u32)

  datatype ChunkHeader = ChunkHeader(
    magic: u32,
    nextChunkOffset: u32,
    version: u16,
    headerSize: u16,
    descriptorOffset: u32)

  /** The file header that reinterpreting `data[off..off + 12]` yields. */
  function ReadFileHeader(data: seq<byte>, off: nat): FileHeader
    requires off + FileHeaderSize <= |data|
  {
    FileHeader(
      (data[off], data[off + 1]),
      LoadU16(data, off + 2),
      LoadU16(data, off + 4),
      LoadU16(data, off + 6),
      LoadU32(data, off + 8))
  }

  /** The chunk header that reinterpreting `data[off..off + 16]` yields. */
  function ReadChunkHeader(data: seq<byte>, off: nat): ChunkHeader
    requires off + ChunkHeaderSize <= |data|
  {
    ChunkHeader(
      LoadU32(data, off),
      LoadU32(data, off + 4),
      LoadU16(data, off + 8),
      LoadU16(data, off + 10),
      LoadU32(data, off + 12))
  }

  /** The packed bytes of a file header. */
  function WriteFileHeader(h: FileHeader): (s: seq<byte>)
    ensures |s| == FileHeaderSize
  {
    [h.magic.0, h.magic.1] + StoreU16(h.descriptorType) + StoreU16(h.zero)
      + StoreU16(h.headerSize) + StoreU32(h.contentType)
  }

  /** The packed bytes of a chunk header. */
  function WriteChunkHeader(h: ChunkHeader): (s: seq<byte>)
    ensures |s| == ChunkHeaderSize
  {
    StoreU32(h.magic) + StoreU32(h.nextChunkOffset) + StoreU16(h.version)
      + StoreU16(h.headerSize) + StoreU32(h.descriptorOffset)
  }

  /** Reading a written file header back gives the header written. */
  lemma ReadWriteFileHeader(h: FileHeader)
    ensures ReadFileHeader(WriteFileHeader(h), 0) == h
  {
    var s := WriteFileHeader(h);
    var front := [h.magic.0, h.magic.1] + StoreU16(h.descriptorType) + StoreU16(h.zero) + StoreU16(h.headerSize);
    assert |front| == 8 && s == front + StoreU32(h.contentType);
    assert s[2..4] == StoreU16(h.descriptorType);
    assert s[4..6] == StoreU16(h.zero);
    assert s[6..8] == StoreU16(h.headerSize);
    assert s[8..12] == StoreU32(h.contentType);
    LoadU16Window(s, 2);
    LoadU16Window(s, 4);
    LoadU16Window(s, 6);
    LoadU32Window(s, 8);
    LoadStoreU16(h.descriptorType);
    LoadStoreU16(h.zero);
    LoadStoreU16(h.headerSize);
    LoadStoreU32(h.contentType);
  }

  /** Reading a written chunk header back gives the header written. */
  lemma ReadWriteChunkHeader(h: ChunkHeader)
    ensures ReadChunkHeader(WriteChunkHeader(h), 0) == h
  {
    var s := WriteChunkHeader(h);
    assert s[0..4] == StoreU32(h.magic);
    assert s[4..8] == StoreU32(h.nextChunkOffset);
    assert s[8..10] == StoreU16(h.version);
    assert s[10..12] == StoreU16(h.headerSize);
    assert s[12..16] == StoreU32(h.descriptorOffset);
    LoadU32Window(s, 0);
    LoadU32Window(s, 4);
    LoadU16Window(s, 8);
    LoadU16Window(s, 10);
    LoadU32Window(s, 12);
    LoadStoreU32(h.magic);
    LoadStoreU32(h.nextChunkOffset);
    LoadStoreU16(h.version);
    LoadStoreU16(h.headerSize);
    LoadStoreU32(h.descriptorOffset);
  }

  /** A file header is read from its own twelve bytes only. */
  lemma ReadFileHeaderWindow(data: seq<byte>, off: nat)
    requires off + FileHeaderSize <= |data|
    ensures ReadFileHeader(data, off) == ReadFileHeader(data[off..off + FileHeaderSize], 0)
  {
    var w := data[off..off + FileHeaderSize];
    LoadU16Window(data, off + 2);
    LoadU16Window(w, 2);
    LoadU16Window(data, off + 4);
    LoadU16Window(w, 4);
    LoadU16Window(data, off + 6);
    LoadU16Window(w, 6);
    LoadU32Window(data, off + 8);
    LoadU32Window(w, 8);
    assert data[off + 2..off + 4] == w[2..4];
    assert data[off + 4..off + 6] == w[4..6];
    assert data[off + 6..off + 8] == w[6..8];
    assert data[off + 8..off + 12] == w[8..12];
  }

  /** A chunk header is read from its own sixteen bytes only. */
  lemma ReadChunkHeaderWindow(data: seq<byte>, off: nat)
    requires off + ChunkHeaderSize <= |data|
    ensures ReadChunkHeader(data, off) == ReadChunkHeader(data[off..off + ChunkHeaderSize], 0)
  {
    var w := data[off..off + ChunkHeaderSize];
    LoadU32Window(data, off);
    LoadU32Window(w, 0);
    LoadU32Window(data, off + 4);
    LoadU32Window(w, 4);
    LoadU16Window(data, off + 8);
    LoadU16Window(w, 8);
    LoadU16Window(data, off + 10);
    LoadU16Window(w, 10);
    LoadU32Window(data, off + 12);
    LoadU32Window(w, 12);
    assert data[off..off + 4] == w[0..4];
    assert data[off + 4..off + 8] == w[4..8];
    assert data[off + 8..off + 10] == w[8..10];
    assert data[off + 10..off + 12] == w[10..12];
    assert data[off + 12..off + 16] == w[12..16];
  }

  /** A written file header, embedded anywhere in a buffer, reads back as
      itself at its own offset. */
  lemma {:induction false} FileHeaderRoundTrip(h: FileHeader, prefix: seq<byte>, suffix: seq<byte>)
    ensures ReadFileHeader(prefix + WriteFileHeader(h) + suffix, |prefix|) == h
  {
    var data := prefix + WriteFileHeader(h) + suffix;
    ReadFileHeaderWindow(data, |prefix|);
    ReadWriteFileHeader(h);
    assert data[|prefix|..|prefix| + FileHeaderSize] == WriteFileHeader(h);
  }

  /** A written chunk header, embedded anywhere in a buffer, reads back as
      itself at its own offset. */
  lemma {:induction false} ChunkHeaderRoundTrip(h: ChunkHeader, prefix: seq<byte>, suffix: seq<byte>)
    ensures ReadChunkHeader(prefix + WriteChunkHeader(h) + suffix, |prefix|) == h
  {
    var data := prefix + WriteChunkHeader(h) + suffix;
    ReadChunkHeaderWindow(data, |prefix|);
    ReadWriteChunkHeader(h);
    assert data[|prefix|..|prefix| + ChunkHeaderSize] == WriteChunkHeader(h);
  }

  /** Writing back the file header read from a buffer reproduces its twelve
      bytes: the reinterpretation loses nothing, so distinct byte strings
      give distinct headers. */
  lemma WriteReadFileHeader(data: seq<byte>, off: nat)
    requires off + FileHeaderSize <= |data|
    ensures WriteFileHeader(ReadFileHeader(data, off)) == data[off..off + FileHeaderSize]
  {
    StoreLoadU16(data, off + 2);
    StoreLoadU16(data, off + 4);
    StoreLoadU16(data, off + 6);
    StoreLoadU32(data, off + 8);
    assert data[off..off + FileHeaderSize] == [data[off], data[off + 1]] + data[off + 2..off + 4]
      + data[off + 4..off + 6] + data[off + 6..off + 8] + data[off + 8..off + 12];
  }

  /** Writing back the chunk header read from a buffer reproduces its sixteen
      bytes. */
  lemma WriteReadChunkHeader(data: seq<byte>, off: nat)
    requires off + ChunkHeaderSize <= |data|
    ensures WriteChunkHeader(ReadChunkHeader(data, off)) == data[off..off + ChunkHeaderSize]
  {
    StoreLoadU32(data, off);
    StoreLoadU32(data, off + 4);
    StoreLoadU16(data, off + 8);
    StoreLoadU16(data, off + 10);
    StoreLoadU32(data, off + 12);
    assert data[off..off + ChunkHeaderSize] == data[off..off + 4] + data[off + 4..off + 8]
      + data[off + 8..off + 10] + data[off + 10..off + 12] + data[off + 12..off + 16];
  }
}
