/** A reference encoder for well-formed PackFiles, and what the reader does
    with its output. The reader itself never writes; the encoder is the
    partner against which lookups are stated: every chunk written can be
    found again, with exactly its payload. A few fixed buffers show the
    reader's unchecked spots. */
module Writer {
  import opened Wrappers
  import opened Bytes
  import opened Layout
  import opened Scan
  import opened PackFiles

  /** One chunk to be written: its identifier, version, descriptor offset and payload. */
  datatype ChunkSpec = ChunkSpec(magic: u32, version: u16, descriptorOffset: u32, payload: seq<byte>)

  /** The chunk's `nextChunkOffset` fits in a `uint32`. */
  predicate Encodable(c: ChunkSpec) {
    |c.payload| + NextChunkOffsetEnd < U32Modulus
  }

  /** Every chunk of the list is encodable. */
  predicate AllEncodable(cs: seq<ChunkSpec>) {
    forall k :: 0 <= k < |cs| ==> Encodable(cs[k])
  }

  /** The header written in front of `c`: it declares the nominal sixteen-byte
      header size and a span that ends exactly where the payload does. */
  function HeaderFor(c: ChunkSpec): (h: ChunkHeader)
    requires Encodable(c)
    ensures h.nextChunkOffset + NextChunkOffsetEnd == ChunkHeaderSize + |c.payload|
    ensures h.headerSize == ChunkHeaderSize && h.magic == c.magic
  {
    ChunkHeader(c.magic, |c.payload| + NextChunkOffsetEnd, c.version, ChunkHeaderSize, c.descriptorOffset)
  }

  /** A chunk's bytes: its header, then its payload. */
  function EncodeChunk(c: ChunkSpec): (s: seq<byte>)
    requires Encodable(c)
    ensures |s| == ChunkHeaderSize + |c.payload|
  {
    WriteChunkHeader(HeaderFor(c)) + c.payload
  }

  /** The chunks' bytes, back to back in list order. */
  function EncodeChunks(cs: seq<ChunkSpec>): (s: seq<byte>)
    requires AllEncodable(cs)
  {
    if cs == [] then [] else EncodeChunk(cs[0]) + EncodeChunks(cs[1..])
  }

  /** The file header announcing a container of type `fileType`. */
  function FileHeaderFor(fileType: u32): FileHeader {
    FileHeader((MagicP, MagicF), 0, 0, FileHeaderSize, fileType)
  }

  /** A whole container: the file header, then the chunk table. */
  function EncodeContainer(fileType: u32, cs: seq<ChunkSpec>): (s: seq<byte>)
    requires AllEncodable(cs)
  {
    WriteFileHeader(FileHeaderFor(fileType)) + EncodeChunks(cs)
  }

  /** The index of the first chunk whose identifier is `id`. */
  function FirstIndex(cs: seq<ChunkSpec>, id: u32): (r: Option<nat>)
    ensures r.None? <==> forall k :: 0 <= k < |cs| ==> cs[k].magic != id
    ensures r.Some? ==> r.value < |cs| && cs[r.value].magic == id
    ensures r.Some? ==> forall k :: 0 <= k < r.value ==> cs[k].magic != id
  {
    if cs == [] then None
    else if cs[0].magic == id then Some(0)
    else
      match FirstIndex(cs[1..], id)
      case None => None
      case Some(i) => Some(i + 1)
  }

  /** `data` holds, from `pos` to its end, exactly the encodings of the
      chunks `cs`, one after another. */
  predicate LaidOut(data: seq<byte>, pos: nat, cs: seq<ChunkSpec>)
    requires AllEncodable(cs)
    decreases |cs|
  {
    if cs == [] then pos == |data|
    else
      var end := pos + ChunkHeaderSize + |cs[0].payload|;
      && end <= |data|
      && data[pos..end] == EncodeChunk(cs[0])
      && LaidOut(data, end, cs[1..])
  }

  /** The encoder's output, after any prefix, is laid out as its chunk list. */
  lemma {:induction false} EncodedIsLaidOut(prefix: seq<byte>, cs: seq<ChunkSpec>)
    requires AllEncodable(cs)
    decreases |cs|
    ensures LaidOut(prefix + EncodeChunks(cs), |prefix|, cs)
  {
    var data := prefix + EncodeChunks(cs);
    if cs == [] {
      assert data == prefix;
    } else {
      var c, rest := cs[0], cs[1..];
      assert AllEncodable(rest);
      var prefix' := prefix + EncodeChunk(c);
      assert data == prefix' + EncodeChunks(rest);
      assert data[|prefix|..|prefix'|] == EncodeChunk(c);
      EncodedIsLaidOut(prefix', rest);
    }
  }

  /** The first chunk of a laid-out list reads back as its own header
      followed by its own payload. */
  lemma LaidOutHead(data: seq<byte>, pos: nat, cs: seq<ChunkSpec>)
    requires AllEncodable(cs) && cs != [] && LaidOut(data, pos, cs)
    ensures var start := pos + ChunkHeaderSize;
      && HeaderFits(data, pos)
      && HeaderAt(data, pos) == HeaderFor(cs[0])
      && start + |cs[0].payload| <= |data|
      && data[start..start + |cs[0].payload|] == cs[0].payload
  {
    var c := cs[0];
    var h := HeaderFor(c);
    var end := pos + ChunkHeaderSize + |c.payload|;
    var w := data[pos..end];
    assert w == WriteChunkHeader(h) + c.payload;
    assert data[pos..pos + ChunkHeaderSize] == w[..ChunkHeaderSize] == WriteChunkHeader(h);
    assert data[pos + ChunkHeaderSize..end] == w[ChunkHeaderSize..] == c.payload;
    ReadChunkHeaderWindow(data, pos);
    ReadWriteChunkHeader(h);
  }

  /** What the scan sees of the first chunk of a laid-out list: a header that
      fits, carries the chunk's identifier and spans exactly the chunk, with
      the rest of the list laid out after it. */
  lemma LaidOutStep(data: seq<byte>, pos: nat, cs: seq<ChunkSpec>, next: nat)
    requires AllEncodable(cs) && cs != [] && LaidOut(data, pos, cs)
    requires next == pos + ChunkHeaderSize + |cs[0].payload|
    ensures HeaderFits(data, pos)
    ensures HeaderAt(data, pos).magic == cs[0].magic
    ensures next == pos + ChunkSpan(data, pos)
    ensures AllEncodable(cs[1..]) && LaidOut(data, next, cs[1..])
  {
    LaidOutHead(data, pos, cs);
  }

  /** Scanning a laid-out chunk list in which no chunk has the requested
      identifier finds nothing. */
  lemma {:induction false} ScanLaidOutMisses(data: seq<byte>, pos: nat, cs: seq<ChunkSpec>, id: u32)
    requires AllEncodable(cs) && LaidOut(data, pos, cs)
    requires FirstIndex(cs, id).None?
    decreases |cs|
    ensures FindFrom(data, id, pos).None?
  {
    if cs == [] {
      assert !HeaderFits(data, pos);
    } else {
      var next := pos + ChunkHeaderSize + |cs[0].payload|;
      LaidOutStep(data, pos, cs, next);
      FindFromSkips(data, id, pos, next);
      assert FirstIndex(cs[1..], id).None?;
      ScanLaidOutMisses(data, next, cs[1..], id);
    }
  }

  /** Scanning a laid-out chunk list stops at the first chunk with the
      requested identifier: the rest of the list, from that chunk on, is laid
      out from the position found. */
  lemma {:induction false} ScanLaidOutFinds(data: seq<byte>, pos: nat, cs: seq<ChunkSpec>, id: u32)
    requires AllEncodable(cs) && LaidOut(data, pos, cs)
    requires FirstIndex(cs, id).Some?
    decreases |cs|
    ensures var k := FirstIndex(cs, id).value;
      var r := FindFrom(data, id, pos);
      && r.Some?
      && AllEncodable(cs[k..])
      && LaidOut(data, r.value, cs[k..])
  {
    var next := pos + ChunkHeaderSize + |cs[0].payload|;
    LaidOutStep(data, pos, cs, next);
    var k := FirstIndex(cs, id).value;
    assert AllEncodable(cs[k..]);
    if cs[0].magic == id {
      assert k == 0 && cs[k..] == cs;
      assert FindFrom(data, id, pos) == Some(pos);
    } else {
      FindFromSkips(data, id, pos, next);
      var k' := FirstIndex(cs[1..], id).value;
      assert k == k' + 1 && cs[1..][k'..] == cs[k..];
      ScanLaidOutFinds(data, next, cs[1..], id);
    }
  }

  /** A container written by the encoder starts with a header the reader
      accepts for its type, and its chunks follow that header. */
  lemma EncodedContainerAccepted(fileType: u32, cs: seq<ChunkSpec>)
    requires AllEncodable(cs)
    ensures var data := EncodeContainer(fileType, cs);
      Accepts(fileType, Some(data)) && LaidOut(data, FileHeaderSize, cs)
  {
    var data := EncodeContainer(fileType, cs);
    var header := WriteFileHeader(FileHeaderFor(fileType));
    FileHeaderRoundTrip(FileHeaderFor(fileType), [], EncodeChunks(cs));
    assert [] + header + EncodeChunks(cs) == data;
    EncodedIsLaidOut(header, cs);
  }

  /** The view of a chunk the encoder wrote is exactly its payload: the span
      less the nominal header size is the payload length, with no wrap. */
  lemma EncodedView(data: seq<byte>, p: nat, c: ChunkSpec, v: ChunkView)
    requires Encodable(c) && HeaderFits(data, p) && HeaderAt(data, p) == HeaderFor(c)
    requires MatchView(data, p, v)
    ensures v.ptr == At(data, p + ChunkHeaderSize) && v.size == |c.payload|
  {
  }

  /** A lookup in a loaded buffer whose chunks are laid out as `cs` returns
      exactly the payload of the first chunk with that identifier, in bounds,
      or null and zero when no chunk has it. */
  lemma LookupLaidOut(pf: PackFile, cs: seq<ChunkSpec>, id: u32)
    requires pf.hasHeader && pf.data.Some?
    requires AllEncodable(cs) && LaidOut(pf.data.value, FileHeaderSize, cs)
    ensures FirstIndex(cs, id).None? ==> Chunk(pf, id) == ChunkView(Null, 0)
    ensures FirstIndex(cs, id).Some? ==>
      var v := Chunk(pf, id);
      && v.ptr.At? && v.ptr.buffer == pf.data.value
      && v.ptr.offset + v.size <= |pf.data.value|
      && pf.data.value[v.ptr.offset..v.ptr.offset + v.size] == cs[FirstIndex(cs, id).value].payload
  {
    var data := pf.data.value;
    if FirstIndex(cs, id).Some? {
      var k := FirstIndex(cs, id).value;
      ScanLaidOutFinds(data, FileHeaderSize, cs, id);
      var p := FindFrom(data, id, FileHeaderSize).value;
      LaidOutHead(data, p, cs[k..]);
      EncodedView(data, p, cs[k], Chunk(pf, id));
    } else {
      ScanLaidOutMisses(data, FileHeaderSize, cs, id);
    }
  }

  /** The round trip of the format: a container written by the encoder is
      accepted, reports its type, and every lookup returns either exactly the
      payload of the first chunk with that identifier, in bounds, or null and
      zero when no chunk has it. */
  lemma ChunkOfEncodedContainer(fileType: u32, cs: seq<ChunkSpec>, id: u32)
    requires AllEncodable(cs)
    requires |EncodeContainer(fileType, cs)| < U32Modulus
    ensures var data := EncodeContainer(fileType, cs);
      var pf := FromBytes(fileType, Some(data));
      && pf.hasHeader && pf.data == Some(data) && Type(pf) == fileType
      && (FirstIndex(cs, id).None? ==> Chunk(pf, id) == ChunkView(Null, 0))
      && (FirstIndex(cs, id).Some? ==>
            var v := Chunk(pf, id);
            && v.ptr.At? && v.ptr.buffer == data
            && v.ptr.offset + v.size <= |data|
            && data[v.ptr.offset..v.ptr.offset + v.size] == cs[FirstIndex(cs, id).value].payload)
  {
    var data := EncodeContainer(fileType, cs);
    EncodedContainerAccepted(fileType, cs);
    var pf := FromBytes(fileType, Some(data));
    assert pf == PackFile(fileType, Some(data), true);
    LookupLaidOut(pf, cs, id);
  }

  /** The buffer used to illustrate the format: a file header of type
      `fileType` declaring a 16-byte header, then one chunk `id` whose header
      declares `nextChunkOffset` 8 and `headerSize` 12, then eight payload bytes. */
  function ExampleBuffer(fileType: u32, id: u32, payload: seq<byte>): (s: seq<byte>)
    requires |payload| == 8
    ensures |s| == 36
  {
    WriteFileHeader(FileHeader((MagicP, MagicF), 0, 0, 0x10, fileType))
      + WriteChunkHeader(ChunkHeader(id, 8, 1, 12, 0)) + payload
  }

  /** On that buffer the reader finds chunk `id` with its payload pointer at
      offset 28 but a size of four, not eight: the span is 16 and the
      declared header size 12, while the pointer skips the full 16-byte
      header. Any other identifier is not found. */
  lemma ExampleLookup(fileType: u32, id: u32, other: u32, payload: seq<byte>)
    requires |payload| == 8 && other != id
    ensures var data := ExampleBuffer(fileType, id, payload);
      var pf := FromBytes(fileType, Some(data));
      && Type(pf) == fileType
      && Chunk(pf, id) == ChunkView(At(data, 28), 4)
      && Chunk(pf, other) == ChunkView(Null, 0)
  {
    var data := ExampleBuffer(fileType, id, payload);
    var fh := FileHeader((MagicP, MagicF), 0, 0, 0x10, fileType);
    var ch := ChunkHeader(id, 8, 1, 12, 0);
    FileHeaderRoundTrip(fh, [], WriteChunkHeader(ch) + payload);
    assert [] + WriteFileHeader(fh) + (WriteChunkHeader(ch) + payload) == data;
    ChunkHeaderRoundTrip(ch, WriteFileHeader(fh), payload);
    assert HeaderAt(data, 12) == ch;
    assert !HeaderFits(data, 28);
  }

  /** The payload view is never checked against the end of the buffer: a
      chunk whose declared span runs past the end is returned with a size
      that reaches beyond the loaded bytes. */
  lemma PayloadOverrunsBuffer(fileType: u32, id: u32)
    ensures var data := WriteFileHeader(FileHeaderFor(fileType)) + WriteChunkHeader(ChunkHeader(id, 100, 0, 16, 0));
      var pf := FromBytes(fileType, Some(data));
      var v := Chunk(pf, id);
      && |data| == 28 && v.ptr == At(data, 28) && v.size == 92
      && v.ptr.offset + v.size > |data|
  {
    var fh := FileHeaderFor(fileType);
    var ch := ChunkHeader(id, 100, 0, 16, 0);
    var data := WriteFileHeader(fh) + WriteChunkHeader(ch);
    FileHeaderRoundTrip(fh, [], WriteChunkHeader(ch));
    assert [] + WriteFileHeader(fh) + WriteChunkHeader(ch) == data;
    ChunkHeaderRoundTrip(ch, WriteFileHeader(fh), []);
    assert WriteFileHeader(fh) + WriteChunkHeader(ch) + [] == data;
  }

  /** A declared header size larger than the span underflows the payload
      size, which then wraps to a value near 2^32. */
  lemma PayloadSizeUnderflows(fileType: u32, id: u32)
    ensures var data := WriteFileHeader(FileHeaderFor(fileType)) + WriteChunkHeader(ChunkHeader(id, 8, 0, 20, 0));
      var pf := FromBytes(fileType, Some(data));
      Chunk(pf, id) == ChunkView(At(data, 28), U32Modulus - 4)
  {
    var fh := FileHeaderFor(fileType);
    var ch := ChunkHeader(id, 8, 0, 20, 0);
    var data := WriteFileHeader(fh) + WriteChunkHeader(ch);
    FileHeaderRoundTrip(fh, [], WriteChunkHeader(ch));
    assert [] + WriteFileHeader(fh) + WriteChunkHeader(ch) == data;
    ChunkHeaderRoundTrip(ch, WriteFileHeader(fh), []);
    assert WriteFileHeader(fh) + WriteChunkHeader(ch) + [] == data;
    ToU32WrapsOnce(-4);
  }
}
