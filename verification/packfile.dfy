/** The `PackFile<TFileType>` object: its buffer, header validation in
    `assign`, the constructors and copy operations, `type()`, the raw chunk
    lookup `chunk(id, po_size)` and the typed lookup `chunk<TId>()`.

    The shared, reference-counted buffer is modelled as a value: bytes are
    never changed after `assign` stores them, so a handle shared by copies
    behaves exactly like a copied sequence. */
module PackFiles {
  import opened Wrappers
  import opened Bytes
  import opened Layout
  import opened Scan

  /** A `PackFile<fileType>`. `data` is `m_data`, with `None` for a null
      `shared_ptr`; `hasHeader` says whether `m_header` is set (it always
      points at the start of `m_data` when it is). */
  datatype PackFile = PackFile(fileType: u32, data: Option<seq<byte>>, hasHeader: bool)

  /** What `assign` accepts, stated on the raw bytes: a non-null buffer of at
      least twelve bytes that starts with 'P', 'F' and holds the expected
      container type, little-endian, in bytes 8..11. */
  predicate Accepts(fileType: u32, src: Option<seq<byte>>) {
    && src.Some?
    && |src.value| >= FileHeaderSize
    && src.value[0] == MagicP
    && src.value[1] == MagicF
    && LoadU32(src.value, 8) == fileType
  }

  /** The states the public operations can reach: a header is present exactly
      when the buffer is non-null and non-empty, and then the buffer is one
      `assign` accepted. */
  predicate Valid(pf: PackFile) {
    && (pf.hasHeader <==> pf.data.Some? && |pf.data.value| > 0)
    && (pf.hasHeader ==> Accepts(pf.fileType, pf.data))
  }

  /** `PackFile()`: an empty buffer and no header. */
  function Empty(fileType: u32): (pf: PackFile)
    ensures Valid(pf) && pf.fileType == fileType
    ensures pf.data == Some([])
    ensures Type(pf) == 0
    ensures forall id :: Chunk(pf, id) == ChunkView(Null, 0)
  {
    PackFile(fileType, Some([]), false)
  }

  /** `assign(p_data, p_size)`, with `src` the `p_size` bytes at `p_data` or
      `None` for a null pointer. It answers whether it accepted the bytes; on
      acceptance the object holds its own copy of them and a header, and on
      refusal the object is left as it was. */
  function Assign(pf: PackFile, src: Option<seq<byte>>): (r: (PackFile, bool))
    requires src.Some? ==> |src.value| < U32Modulus
    ensures r.1 <==> Accepts(pf.fileType, src)
    ensures !r.1 ==> r.0 == pf
    ensures r.1 ==> r.0.fileType == pf.fileType && r.0.data == src && r.0.hasHeader
    ensures r.1 ==> Valid(r.0) && Type(r.0) == pf.fileType
    ensures Valid(pf) ==> Valid(r.0)
  {
    if src.None? || |src.value| == 0 then (pf, false)
    else if |src.value| < FileHeaderSize then (pf, false)
    else
      var header := ReadFileHeader(src.value, 0);
      if header.magic.0 != MagicP || header.magic.1 != MagicF then (pf, false)
      else if header.contentType != pf.fileType then (pf, false)
      else (PackFile(pf.fileType, src, true), true)
  }

  /** `PackFile(p_data, p_size)`: `m_data` starts null and `assign` runs once;
      a refused buffer leaves the null `shared_ptr` behind. */
  function FromBytes(fileType: u32, src: Option<seq<byte>>): (pf: PackFile)
    requires src.Some? ==> |src.value| < U32Modulus
    ensures Valid(pf) && pf.fileType == fileType
    ensures Accepts(fileType, src) ==> pf.data == src && Type(pf) == fileType
    ensures !Accepts(fileType, src) ==> pf.data.None? && Type(pf) == 0
  {
    Assign(PackFile(fileType, None, false), src).0
  }

  /** The bytes `load` hands to `assign` for a file holding `contents`: the
      file length goes through a `uint32`, so only that many bytes are read. */
  function ReadWholeFile(contents: seq<byte>): (bytes: seq<byte>)
    ensures |bytes| == |contents| % U32Modulus
    ensures bytes <= contents
    ensures |contents| < U32Modulus ==> bytes == contents
  {
    contents[..|contents| % U32Modulus]
  }

  /** `load(p_filename)`, with `file` the file's contents or `None` when it
      cannot be opened. */
  function Load(pf: PackFile, file: Option<seq<byte>>): (r: (PackFile, bool))
    ensures r.1 <==> file.Some? && Accepts(pf.fileType, Some(ReadWholeFile(file.value)))
    ensures !r.1 ==> r.0 == pf
    ensures r.1 ==> r.0.data == Some(ReadWholeFile(file.value)) && Type(r.0) == pf.fileType
    ensures Valid(pf) ==> Valid(r.0)
  {
    if file.None? then (pf, false)
    else Assign(pf, Some(ReadWholeFile(file.value)))
  }

  /** `PackFile(p_filename)`: `m_data` starts null and `load` runs once. */
  function FromFile(fileType: u32, file: Option<seq<byte>>): (pf: PackFile)
    ensures Valid(pf) && pf.fileType == fileType
    ensures pf.hasHeader <==> file.Some? && Accepts(fileType, Some(ReadWholeFile(file.value)))
    ensures pf.hasHeader ==> pf.data == Some(ReadWholeFile(file.value)) && Type(pf) == fileType
    ensures !pf.hasHeader ==> pf.data.None? && Type(pf) == 0
  {
    Load(PackFile(fileType, None, false), file).0
  }

  /** The copy constructor: share the other object's buffer and set the
      header when that buffer is non-empty. The source dereferences the
      buffer, so it must not be null. A copy of a reachable object is that
      same object. */
  function Copy(other: PackFile): (pf: PackFile)
    requires other.data.Some?
    ensures pf.fileType == other.fileType && pf.data == other.data
    ensures pf.hasHeader <==> |other.data.value| > 0
    ensures Valid(other) ==> pf == other
  {
    PackFile(other.fileType, other.data, |other.data.value| > 0)
  }

  /** `operator=`: nothing of the assigned-to object survives; the result is
      a copy of `other`. Both sides are instances of the same template, so
      they share the container type. */
  function CopyAssign(self: PackFile, other: PackFile): (pf: PackFile)
    requires other.data.Some?
    requires self.fileType == other.fileType
    ensures pf.data == other.data && pf.fileType == self.fileType
    ensures pf.hasHeader <==> |other.data.value| > 0
    ensures Valid(other) ==> pf == other
  {
    Copy(other)
  }

  /** `type()`: on a reachable object, the container type stored in the
      loaded header, and zero when nothing is loaded. */
  function Type(pf: PackFile): (r: u32)
    ensures Valid(pf) && pf.data.Some? && |pf.data.value| > 0 ==> r == LoadU32(pf.data.value, 8)
    ensures Valid(pf) && (pf.data.None? || pf.data.value == []) ==> r == 0
  {
    if pf.hasHeader then pf.fileType else 0
  }

  /** `chunk(p_identifier, po_size)`: without a header, null and zero;
      otherwise the view of the first chunk in storage order whose magic is
      `id`, or null and zero when the scan finds none. */
  function Chunk(pf: PackFile, id: u32): (v: ChunkView)
    requires pf.hasHeader ==> pf.data.Some?
    ensures !pf.hasHeader ==> v == ChunkView(Null, 0)
    ensures v.ptr.Null? ==> v.size == 0
    ensures pf.hasHeader ==> (v.ptr.Null? <==> FindFrom(pf.data.value, id, FileHeaderSize).None?)
    ensures v.ptr.At? ==> pf.hasHeader && MatchView(pf.data.value, FindFrom(pf.data.value, id, FileHeaderSize).value, v)
  {
    if !pf.hasHeader then ChunkView(Null, 0)
    else ChunkAt(pf.data.value, id)
  }

  /** The raw lookup stated against the chain of chunk headers: it returns
      null exactly when nothing is loaded or no header carries `id`, and
      otherwise the view of the first header that does, in storage order. */
  lemma ChunkIsFirstMatch(pf: PackFile, id: u32)
    requires pf.hasHeader ==> pf.data.Some?
    ensures var v := Chunk(pf, id);
      v.ptr.Null? <==> !pf.hasHeader || NoMatch(pf.data.value, FileHeaderSize, id)
    ensures var v := Chunk(pf, id);
      v.ptr.At? ==>
        && v.ptr.offset >= ChunkHeaderSize
        && FirstMatchAt(pf.data.value, FileHeaderSize, id, v.ptr.offset - ChunkHeaderSize)
        && MatchView(pf.data.value, v.ptr.offset - ChunkHeaderSize, v)
  {
    if pf.hasHeader {
      FindFromIsFirstMatch(pf.data.value, id, FileHeaderSize);
    }
  }

  /** The scan loop of `chunk(p_identifier, po_size)` as written: start right
      after the file header, stop at the end or when fewer than sixteen bytes
      remain, return at the first matching magic, otherwise advance by the
      chunk's span. It answers exactly what `Chunk` describes. */
  method ChunkScan(pf: PackFile, id: u32) returns (ptr: BytePtr, poSize: u32)
    requires pf.hasHeader ==> pf.data.Some?
    ensures ChunkView(ptr, poSize) == Chunk(pf, id)
    ensures ptr.At? ==> pf.hasHeader && ptr.buffer == pf.data.value && ptr.offset >= FileHeaderSize + ChunkHeaderSize
  {
    poSize := 0;
    if !pf.hasHeader {
      return Null, poSize;
    }
    var data := pf.data.value;
    var pointer: nat := FileHeaderSize;
    while pointer < |data|
      invariant FileHeaderSize <= pointer
      invariant FindFrom(data, id, pointer) == FindFrom(data, id, FileHeaderSize)
      decreases |data| - pointer
    {
      var remaining := |data| - pointer;
      if remaining < ChunkHeaderSize {
        break;
      }
      var chunkHead := ReadChunkHeader(data, pointer);
      var chunkSize := chunkHead.nextChunkOffset + NextChunkOffsetEnd;
      assert chunkHead == HeaderAt(data, pointer) && chunkSize == ChunkSpan(data, pointer);
      if chunkHead.magic == id {
        assert FindFrom(data, id, FileHeaderSize) == Some(pointer);
        poSize := ToU32(chunkSize - chunkHead.headerSize);
        return At(data, pointer + ChunkHeaderSize), poSize;
      }
      FindFromSkips(data, id, pointer, pointer + chunkSize);
      pointer := pointer + chunkSize;
    }
    assert FindFrom(data, id, FileHeaderSize) == None;
    return Null, poSize;
  }

  /** The external `ChunkFactory<TFileType, TId>::Type` constructor, as a
      function of the two template keys and the `(data, size)` pair. */
  type Factory<R> = (u32, u32, BytePtr, u32) -> R

  /** `chunk<TId>()`: the record the factory builds from the raw lookup's
      pointer and size. A record is always built: when nothing matches, the
      factory still receives a null pointer and a zero size. */
  function TypedChunk<R>(pf: PackFile, tid: u32, factory: Factory<R>): (r: R)
    requires pf.hasHeader ==> pf.data.Some?
    ensures !pf.hasHeader ==> r == factory(pf.fileType, tid, Null, 0)
    ensures pf.hasHeader && FindFrom(pf.data.value, tid, FileHeaderSize).None? ==> r == factory(pf.fileType, tid, Null, 0)
    ensures r == factory(pf.fileType, tid, Chunk(pf, tid).ptr, Chunk(pf, tid).size)
  {
    var v := Chunk(pf, tid);
    factory(pf.fileType, tid, v.ptr, v.size)
  }

  /** What the documentation of `chunk<TId>()` promises: no record at all when
      the raw lookup finds nothing, and otherwise the record the factory
      builds from the found pointer and size. No record exactly when nothing
      is loaded or no header of the chain carries `tid`. */
  function TypedChunkOrNone<R>(pf: PackFile, tid: u32, factory: Factory<R>): (r: Option<R>)
    requires pf.hasHeader ==> pf.data.Some?
    ensures r.None? <==> !pf.hasHeader || NoMatch(pf.data.value, FileHeaderSize, tid)
    ensures r.Some? ==> r.value == TypedChunk(pf, tid, factory) && Chunk(pf, tid).ptr.At?
  {
    ChunkIsFirstMatch(pf, tid);
    var v := Chunk(pf, tid);
    if v.ptr.Null? then None else Some(factory(pf.fileType, tid, v.ptr, v.size))
  }

  /** The code as written departs from that documentation: on an object with
      nothing loaded, `chunk<TId>()` still builds a record, from a null
      pointer and a zero size, where the documented form has none. */
  lemma TypedChunkBuildsOnMiss<R>(fileType: u32, tid: u32, factory: Factory<R>)
    ensures TypedChunk(Empty(fileType), tid, factory) == factory(fileType, tid, Null, 0)
    ensures TypedChunkOrNone(Empty(fileType), tid, factory) == None
  {
  }
}
