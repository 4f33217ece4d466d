/** The chunk-table scan over a loaded buffer: the positions of the chunk
    headers the reader visits, the first one whose magic matches, and the
    (pointer, size) view it hands back. Nothing here checks a chunk's
    declared extent against the buffer, just as the reader does not. */
module Scan {
  import opened Wrappers
  import opened Bytes
  import opened Layout

  /** A raw `const byte*`: null, or a position inside some buffer. */
  datatype BytePtr = Null | At(buffer: seq<byte>, offset: nat)

  /** The reader's answer to a chunk lookup: the returned pointer and the
      value left in the `po_size` out-parameter. */
  datatype ChunkView = ChunkView(ptr: BytePtr, size: u32)

  /** Both exit tests of the scan loop fail at `pos`: it lies before the end
      of the buffer and a whole chunk header remains from there. */
  predicate HeaderFits(data: seq<byte>, pos: nat) {
    pos < |data| && |data| - pos >= ChunkHeaderSize
  }

  /** The chunk header at `pos`. */
  function HeaderAt(data: seq<byte>, pos: nat): ChunkHeader
    requires HeaderFits(data, pos)
  {
    ReadChunkHeader(data, pos)
  }

  /** `chunkSize`: the distance from a chunk header to the next one, which
      is `nextChunkOffset` measured from the end of that field. */
  function ChunkSpan(data: seq<byte>, pos: nat): (n: nat)
    requires HeaderFits(data, pos)
    ensures n >= NextChunkOffsetEnd
  {
    HeaderAt(data, pos).nextChunkOffset + NextChunkOffsetEnd
  }

  /** The positions of the chunk headers the scan inspects, in storage order,
      when it starts at `pos`. Every one of them leaves room for a whole
      header. */
  function Chain(data: seq<byte>, pos: nat): (c: seq<nat>)
    decreases |data| - pos
    ensures |c| > 0 <==> HeaderFits(data, pos)
    ensures |c| > 0 ==> c[0] == pos
    ensures forall p :: p in c ==> pos <= p && HeaderFits(data, p)
  {
    if HeaderFits(data, pos) then [pos] + Chain(data, pos + ChunkSpan(data, pos)) else []
  }

  /** `q` is the first header of the chain from `pos` whose magic is `id`:
      it is in the chain, carries `id`, and no header of the chain stored
      before it does. */
  predicate FirstMatchAt(data: seq<byte>, pos: nat, id: u32, q: nat) {
    var c := Chain(data, pos);
    && q in c
    && HeaderAt(data, q).magic == id
    && forall p :: p in c && p < q ==> HeaderAt(data, p).magic != id
  }

  /** No header of the chain from `pos` carries the magic `id`. */
  predicate NoMatch(data: seq<byte>, pos: nat, id: u32) {
    forall p :: p in Chain(data, pos) ==> HeaderAt(data, p).magic != id
  }

  /** The position of the first chunk header from `pos` on whose magic is
      `id`: a header the scan may read, at or after `pos`, carrying `id`. */
  function FindFrom(data: seq<byte>, id: u32, pos: nat): (r: Option<nat>)
    decreases |data| - pos
    ensures r.Some? ==> pos <= r.value && HeaderFits(data, r.value) && HeaderAt(data, r.value).magic == id
  {
    if !HeaderFits(data, pos) then None
    else if HeaderAt(data, pos).magic == id then Some(pos)
    else FindFrom(data, id, pos + ChunkSpan(data, pos))
  }

  /** The search passes over a header whose magic differs and resumes one
      span further on. */
  lemma FindFromSkips(data: seq<byte>, id: u32, pos: nat, next: nat)
    requires HeaderFits(data, pos) && HeaderAt(data, pos).magic != id
    requires next == pos + ChunkSpan(data, pos)
    ensures FindFrom(data, id, pos) == FindFrom(data, id, next)
  {
  }

  /** The search finds nothing exactly when no header of the chain carries
      `id`, and otherwise finds the first one that does, in storage order. */
  lemma {:induction false} FindFromIsFirstMatch(data: seq<byte>, id: u32, pos: nat)
    decreases |data| - pos
    ensures FindFrom(data, id, pos).None? <==> NoMatch(data, pos, id)
    ensures FindFrom(data, id, pos).Some? ==> FirstMatchAt(data, pos, id, FindFrom(data, id, pos).value)
  {
    var c := Chain(data, pos);
    if !HeaderFits(data, pos) {
      assert c == [];
    } else if HeaderAt(data, pos).magic == id {
      assert c[0] == pos;
      assert FirstMatchAt(data, pos, id, pos);
    } else {
      var next := pos + ChunkSpan(data, pos);
      var c' := Chain(data, next);
      FindFromIsFirstMatch(data, id, next);
      assert c == [pos] + c';
      assert forall p :: p in c <==> p == pos || p in c';
      assert FindFrom(data, id, pos) == FindFrom(data, id, next);
    }
  }

  /** Each header after the first lies exactly one span (`nextChunkOffset + 8`,
      at least eight bytes) past its predecessor. */
  lemma {:induction false} ChainStep(data: seq<byte>, pos: nat, i: nat)
    requires 0 < i < |Chain(data, pos)|
    decreases i
    ensures var c := Chain(data, pos);
      c[i] == c[i - 1] + ChunkSpan(data, c[i - 1]) && c[i] >= c[i - 1] + NextChunkOffsetEnd
  {
    var next := pos + ChunkSpan(data, pos);
    var c, c' := Chain(data, pos), Chain(data, next);
    assert c == [pos] + c';
    if i > 1 {
      ChainStep(data, next, i - 1);
      assert c[i] == c'[i - 1] && c[i - 1] == c'[i - 2];
    }
  }

  /** The chain ends where the scan stops: one span past its last header
      there is no room for another whole header. */
  lemma {:induction false} ChainStops(data: seq<byte>, pos: nat)
    decreases |data| - pos
    ensures var c := Chain(data, pos);
      |c| > 0 ==> !HeaderFits(data, c[|c| - 1] + ChunkSpan(data, c[|c| - 1]))
  {
    if HeaderFits(data, pos) {
      var next := pos + ChunkSpan(data, pos);
      ChainStops(data, next);
      var c, c' := Chain(data, pos), Chain(data, next);
      assert c == [pos] + c';
      if |c'| > 0 {
        assert c[|c| - 1] == c'[|c'| - 1];
      }
    }
  }

  /** The scan visits at most one header per eight bytes after `pos`: every
      step advances by at least eight, and the last header needs sixteen. */
  lemma {:induction false} ChainLength(data: seq<byte>, pos: nat)
    decreases |data| - pos
    ensures |Chain(data, pos)| > 0 ==> 8 * |Chain(data, pos)| + 8 <= |data| - pos
  {
    if HeaderFits(data, pos) {
      var next := pos + ChunkSpan(data, pos);
      ChainLength(data, next);
      assert |Chain(data, pos)| == 1 + |Chain(data, next)|;
      assert next >= pos + NextChunkOffsetEnd;
    }
  }

  /** `chunk(id, po_size)` on a buffer whose header is loaded: the first
      matching chunk's payload pointer (header start + 16) and size
      (`chunkSize - headerSize`, wrapped to `uint32`), or null and zero. */
  function ChunkAt(data: seq<byte>, id: u32): (v: ChunkView)
    ensures v.ptr.Null? <==> FindFrom(data, id, FileHeaderSize).None?
    ensures v.ptr.Null? ==> v.size == 0
    ensures v.ptr.At? ==> var p := FindFrom(data, id, FileHeaderSize); p.Some? && MatchView(data, p.value, v)
  {
    match FindFrom(data, id, FileHeaderSize)
    case None => ChunkView(Null, 0)
    case Some(p) =>
      var h := HeaderAt(data, p);
      var v := ChunkView(At(data, p + ChunkHeaderSize), ToU32(ChunkSpan(data, p) - h.headerSize));
      ToU32WrapsOnce(ChunkSpan(data, p) - h.headerSize);
      assert MatchView(data, p, v);
      v
  }

  /** `v` is the view of the chunk whose header sits at `p`: it points 16
      bytes past the header into the same buffer, and its size is the span
      less the declared header size, wrapped once into `uint32` range when
      the subtraction underflows or the span exceeds `uint32`. */
  predicate MatchView(data: seq<byte>, p: nat, v: ChunkView)
    requires HeaderFits(data, p)
  {
    var h := HeaderAt(data, p);
    var d := h.nextChunkOffset + NextChunkOffsetEnd - h.headerSize;
    && v.ptr == At(data, p + ChunkHeaderSize)
    && v.size == (if d < 0 then d + U32Modulus else if d < U32Modulus then d else d - U32Modulus)
  }
}
