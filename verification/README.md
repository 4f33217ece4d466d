# PackFile container reader — Dafny model

This project models `gw2f::pf::PackFile<TFileType>`, the reader for Guild
Wars 2 "PF" containers. A PF file starts with a 12-byte file header: the
magic `'P' 'F'`, three 16-bit fields and the 32-bit container type. A chain
of chunks follows. Each chunk starts with a 16-byte chunk header: magic
(the chunk identifier), `nextChunkOffset`, version, header size and
descriptor offset. `nextChunkOffset` is measured from the end of its own
field, so a chunk spans `nextChunkOffset + 8` bytes from the start of its
header.

The model covers:

- the two packed structures (`Layout`), on top of little-endian fixed-width
  integers (`Bytes`);
- the object state (`PackFiles.PackFile`): the template parameter
  `TFileType` as the `fileType` field, the shared buffer as an optional byte
  sequence, and whether the header pointer is set;
- the constructors, the copy constructor, `operator=`, `load`, `assign` and
  `type()`;
- the raw lookup `chunk(id, po_size)`, both as a function (`PackFiles.Chunk`)
  and as the scan loop written out (`PackFiles.ChunkScan`);
- the typed lookup `chunk<TId>()`, with the chunk factory as a parameter.

Raw pointers are `Scan.BytePtr`: null, or an offset into a buffer. The
lookup's answer is `Scan.ChunkView`, the pointer and the `po_size` value
together.

The scan is stated against the chain of header positions it visits
(`Scan.Chain`): the lookup returns the first header in storage order whose
magic matches. A reference encoder (`Writer`) is the lookup's partner:

- an encoded container is accepted;
- its type is reported;
- each identifier's lookup returns exactly the payload of the first chunk
  with that identifier, or null and zero.

What the lookup does with a chunk, as the code computes it:

- **Payload pointer and size.** The pointer always skips the full 16 bytes
  of `sizeof(ChunkHeader)` (PackFile.h:183). The size is the span minus the
  header's own `headerSize` field, wrapped to `uint32` (PackFile.h:182). For
  a chunk declaring `nextChunkOffset` 8 and `headerSize` 12 right after the
  file header, the lookup returns a size of 4 at offset 28
  (`Writer.ExampleLookup`).
- **No bounds checks.** A chunk's declared extent is never compared with the
  buffer. The payload view may run past the end of the buffer
  (`Writer.PayloadOverrunsBuffer`), and the size may underflow and wrap
  (`Writer.PayloadSizeUnderflows`). A span that jumps past the end simply
  ends the scan (`Scan.ChainStops`).
- **The typed lookup always builds a record.** `chunk<TId>()` passes the raw
  lookup's pointer and size to the factory even when nothing matches, so the
  factory then receives a null pointer and a zero size
  (`PackFiles.TypedChunk`). Its own comment (PackFile.h:195-198) promises a
  null `shared_ptr` in that case instead; see "## Findings".

## Model

| member | source | states |
|---|---|---|
| PackFiles.Assign | include/gw2formats/pf/PackFile.h:136-150 | accepts exactly the non-null buffers of at least 12 bytes that start with 'P','F' and carry the expected container type in bytes 8..11; on acceptance the object holds exactly those bytes with its header set and `type()` reports the container type; on refusal the object is unchanged; reachable states stay reachable |
| PackFiles.Empty | include/gw2formats/pf/PackFile.h:60-64 | the default object is reachable, holds an empty buffer, reports type 0, and every raw lookup gives null and size 0 |
| PackFiles.FromBytes | include/gw2formats/pf/PackFile.h:77-81 | the result is reachable; an accepted buffer is held with its type reported; a refused one leaves a null buffer and type 0 |
| PackFiles.ReadWholeFile | include/gw2formats/pf/PackFile.h:121-126 | the bytes read are the prefix of the file whose length is the file length truncated to `uint32`, and the whole file when it fits |
| PackFiles.Load | include/gw2formats/pf/PackFile.h:116-130 | succeeds exactly when the file opens and its length-truncated contents are accepted; failure leaves the object unchanged; success holds those bytes and reports the type |
| PackFiles.FromFile | include/gw2formats/pf/PackFile.h:68-72 | the result is reachable; the header is set exactly when the file opens and is accepted, and then the object holds the bytes read and reports the type; otherwise the buffer is null and the type 0 |
| PackFiles.Copy | include/gw2formats/pf/PackFile.h:85-92 | the copy shares the buffer, sets the header exactly for a non-empty buffer, and a copy of a reachable object equals it |
| PackFiles.CopyAssign | include/gw2formats/pf/PackFile.h:100-111 | nothing of the assigned-to object survives: the result shares the other buffer, sets the header exactly for a non-empty buffer, and equals any reachable source |
| PackFiles.Type | include/gw2formats/pf/PackFile.h:154-157 | on a reachable object, the container type stored little-endian in bytes 8..11 of the loaded buffer, and 0 when the buffer is null or empty |
| PackFiles.Chunk | include/gw2formats/pf/PackFile.h:166-190 | without a header, null and size 0; otherwise null exactly when the search from offset 12 finds nothing, and a found view that points 16 bytes past the found header with size span minus `headerSize`, wrapped once into `uint32` |
| PackFiles.ChunkIsFirstMatch | include/gw2formats/pf/PackFile.h:171-187 | the lookup is null exactly when nothing is loaded or no header of the chain carries the identifier; otherwise its pointer is 16 past the first header of the chain that carries it, in storage order |
| PackFiles.ChunkScan | include/gw2formats/pf/PackFile.h:166-190 | the loop as written (start after the file header, stop at the end or with fewer than 16 bytes left, return at the first match, else advance by the span) returns the same pointer and size as the lookup, inside the loaded buffer past both headers |
| PackFiles.Accepts | include/gw2formats/pf/PackFile.h:138-144 | the byte-level acceptance test of `assign`: a non-null buffer of at least 12 bytes, bytes 0 and 1 'P' and 'F', and the little-endian `uint32` at bytes 8..11 equal to the container type |
| PackFiles.Valid | include/gw2formats/pf/PackFile.h:55-56 | the state invariant of `m_data` and `m_header`: the header is set exactly when the buffer is non-null and non-empty, and then the buffer is one `assign` accepts |
| PackFiles.TypedChunkOrNone | include/gw2formats/pf/PackFile.h:192-198 | the documented typed lookup: no record exactly when nothing is loaded or no header of the chain carries the identifier, otherwise the record the code builds |
| PackFiles.TypedChunkBuildsOnMiss | include/gw2formats/pf/PackFile.h:195-204 | on an object with nothing loaded, the code builds a record from a null pointer and size 0, where the documented lookup gives none |
| PackFiles.TypedChunk | include/gw2formats/pf/PackFile.h:199-205 | the factory is always called, with the raw lookup's pointer and size; when nothing is loaded or nothing matches it gets a null pointer and size 0 |
| Scan.ChunkSpan | include/gw2formats/pf/PackFile.h:179 | `chunkSize`, the distance from a chunk header to the next: `nextChunkOffset` plus the 8 bytes up to the end of that field, so never less than 8 |
| Scan.FindFrom | include/gw2formats/pf/PackFile.h:174-186 | the loop as a recursive search: a position it finds lies at or after the start, has room for a whole header, and that header carries the identifier |
| Scan.Chain | include/gw2formats/pf/PackFile.h:171-187 | the chain is non-empty exactly when a whole header fits at the start, starts there, and every position in it lies at or after the start with room for a whole header |
| Scan.FindFromIsFirstMatch | include/gw2formats/pf/PackFile.h:174-186 | the search finds nothing exactly when no header of the chain carries the identifier, and otherwise finds the first one in storage order that does |
| Scan.FindFromSkips | include/gw2formats/pf/PackFile.h:181-186 | a header with another magic is passed over and the search resumes one span (`nextChunkOffset + 8`) further on |
| Scan.ChainStep | include/gw2formats/pf/PackFile.h:179-186 | each header of the chain after the first lies exactly one span past its predecessor, so at least eight bytes further on |
| Scan.ChainStops | include/gw2formats/pf/PackFile.h:174-176 | one span past the last header of the chain there is no room for another whole header, which is where the loop exits |
| Scan.ChainLength | include/gw2formats/pf/PackFile.h:174-186 | the scan visits at most one header per eight bytes: eight times the chain length plus eight never exceeds the bytes after the start |
| Scan.ChunkAt | include/gw2formats/pf/PackFile.h:179-183 | on a loaded buffer, null and size 0 exactly when the search finds nothing; otherwise the view of the found header, 16 bytes past it, with the wrapped size |
| Layout.ReadFileHeader | include/gw2formats/pf/PackFile.h:141 | the file header that reinterpreting twelve bytes yields (its inverse is stated by `Layout.WriteReadFileHeader` and `Layout.FileHeaderRoundTrip`) |
| Layout.ReadChunkHeader | include/gw2formats/pf/PackFile.h:178 | the chunk header that reinterpreting sixteen bytes yields (its inverse is stated by `Layout.WriteReadChunkHeader` and `Layout.ChunkHeaderRoundTrip`) |
| Layout.WriteReadFileHeader | include/gw2formats/pf/PackFile.h:141 | writing back the file header read from a buffer reproduces its twelve bytes, so the reinterpretation loses nothing |
| Layout.WriteReadChunkHeader | include/gw2formats/pf/PackFile.h:178 | writing back the chunk header read from a buffer reproduces its sixteen bytes |
| Layout.FileHeaderRoundTrip | include/gw2formats/pf/PackFile.h:31-38 | a packed file header embedded anywhere in a buffer reads back as itself at its own offset |
| Layout.ChunkHeaderRoundTrip | include/gw2formats/pf/PackFile.h:40-47 | a packed chunk header embedded anywhere in a buffer reads back as itself at its own offset |
| Layout.ReadChunkHeaderWindow | include/gw2formats/pf/PackFile.h:40-47 | a chunk header depends only on its own sixteen bytes |
| Bytes.StoreLoadU32 | include/gw2formats/pf/PackFile.h:37 | re-encoding a loaded `uint32` reproduces its four bytes, so distinct byte strings give distinct values |
| Bytes.LoadStoreU32 | include/gw2formats/pf/PackFile.h:37 | loading the four stored bytes of a `uint32` gives the value back |
| Bytes.ToU32WrapsOnce | include/gw2formats/pf/PackFile.h:182 | storing a difference within one modulus of the `uint32` range into a `uint32` adds or subtracts 2^32 at most once |
| Writer.FirstIndex | include/gw2formats/pf/PackFile.h:181-184 | the reference answer: none exactly when no chunk has the identifier; otherwise the index of a chunk that has it, with no earlier one having it |
| Writer.EncodedIsLaidOut | include/gw2formats/pf/PackFile.h:174-186 | the encoder's output, after any prefix, holds the encodings of its chunks back to back up to the end |
| Writer.ScanLaidOutMisses | include/gw2formats/pf/PackFile.h:174-189 | scanning chunks laid out by the encoder finds nothing when no chunk has the identifier |
| Writer.ScanLaidOutFinds | include/gw2formats/pf/PackFile.h:174-184 | scanning chunks laid out by the encoder stops exactly at the first chunk with the identifier |
| Writer.EncodedContainerAccepted | include/gw2formats/pf/PackFile.h:138-144 | an encoded container passes every test of `assign` for its own type |
| Writer.LookupLaidOut | include/gw2formats/pf/PackFile.h:166-190 | on a loaded buffer of encoded chunks, a lookup returns exactly the payload of the first chunk with the identifier, in bounds, or null and size 0 |
| Writer.ChunkOfEncodedContainer | include/gw2formats/pf/PackFile.h:136-190 | round trip: an encoded container is accepted, reports its type, and every lookup returns exactly the first matching chunk's payload, or null and size 0 |
| Writer.ExampleLookup | include/gw2formats/pf/PackFile.h:179-183 | for a chunk declaring `nextChunkOffset` 8 and `headerSize` 12 after a 12-byte file header, the lookup gives 4 bytes at offset 28, and other identifiers give null |
| Writer.PayloadOverrunsBuffer | include/gw2formats/pf/PackFile.h:179-183 | a chunk whose declared span runs past the buffer end is returned with a view that reaches beyond the loaded bytes |
| Writer.PayloadSizeUnderflows | include/gw2formats/pf/PackFile.h:182 | a declared header size larger than the span makes the size wrap to 2^32 - 4 |

## Left out

- File I/O. The contents of the file opened by `load` are a parameter (`None`
  when it cannot be opened). A failing `tellg`, or a short read, is not
  modelled.
- Reference counting. The buffer shared by copies is a value, because no
  operation changes the bytes once `assign` has stored them.
- The chunk factory (`ChunkFactory.h`) is not part of this model. Its
  constructor is an abstract function parameter of `PackFiles.TypedChunk`, and
  the `fcc` constants and typedefs are left out.
- Host byte order. Structures are read little-endian, as on the platforms the
  format targets.
- Address arithmetic. Positions are unbounded naturals, so a pointer that
  wraps around the address space is not modelled. The scan then simply stops
  at the end of the buffer.
- Scan.ChunkSpan, Scan.ChainStep, Scan.ChainLength and the termination of
  Scan.Chain, Scan.FindFrom and PackFiles.ChunkScan assume a 64-bit `size_t`:
  `chunkSize` (PackFile.h:179) is computed without wrap-around, so every step
  advances at least 8 bytes. In a build with a 32-bit `size_t`, a
  `nextChunkOffset` of 0xFFFFFFF8 or more wraps `chunkSize` to 0..7. At
  exactly 0xFFFFFFF8, a chunk whose magic does not match leaves the pointer
  where it is, and the loop never ends.
- The destructor, which has no observable effect.
- PackFiles.Copy and PackFiles.CopyAssign require a non-null source buffer,
  because the source dereferences it. Copying an object whose construction
  from a file (PackFile.h:68-72) or from bytes (PackFile.h:77-81) was refused
  is undefined behaviour there, since either leaves a null buffer.
- PackFiles.Assign requires the byte count to fit in `uint32`, matching the
  type of its size parameter.

## Findings

| source | as written | input that shows it | evidently intended | confidence | as-written member | corrected member |
|---|---|---|---|---|---|---|
| include/gw2formats/pf/PackFile.h:195-204 | `chunk<TId>()` always calls `make_shared` on the factory's type, with `(nullptr, 0)` when the raw lookup finds nothing (line 204) | any object with nothing loaded, e.g. a default-constructed one, or any buffer whose chain lacks the identifier | the comment at lines 196-198: a `shared_ptr` holding `nullptr` when no chunk is found | not executed; high that code and comment disagree, low on which one the authors meant | PackFiles.TypedChunkBuildsOnMiss (about PackFiles.TypedChunk) | PackFiles.TypedChunkOrNone |
