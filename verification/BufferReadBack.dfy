/**
 * Reading a GL buffer back without a getter: its bytes are drawn as points, chunk by chunk, and the pixels
 * are read into the answer.
 */
module BufferReadBack {
  type Byte = x: int | 0 <= x < 256

  const CHUNK_SIZE: nat := 256
  const MAX_ELEMENT_SIZE: nat := 4

  /** `c & -3`: the bit of value two is cleared. */
  function WithoutBit1(c: nat): (r: nat)
    ensures r <= c <= r + 2
  {
    if c / 2 % 2 == 1 then c - 2 else c
  }

  /** Drawing `count` points of `elementSize` bytes each: a pixel is its point's bytes, then 0, 0 and 255. */
  function Pixels(buffer: seq<Byte>, offset: nat, elementSize: nat, count: nat): (pixels: seq<Byte>)
    requires 0 < elementSize <= MAX_ELEMENT_SIZE && offset + count * elementSize <= |buffer|
    ensures |pixels| == 4 * count
    decreases count
  {
    if count == 0 then []
    else
      var point := buffer[offset..offset + elementSize];
      point + [0, 0, 255][elementSize - 1..] + Pixels(buffer, offset + elementSize, elementSize, count - 1)
  }

  /** Points of four bytes come through as they are. */
  lemma {:induction false} FullPixels(buffer: seq<Byte>, offset: nat, count: nat)
    requires offset + count * 4 <= |buffer|
    ensures Pixels(buffer, offset, 4, count) == buffer[offset..offset + 4 * count]
    decreases count
  {
    if count > 0 {
      FullPixels(buffer, offset + 4, count - 1);
      assert buffer[offset..offset + 4 * count] ==
             buffer[offset..offset + 4] + buffer[offset + 4..offset + 4 + 4 * (count - 1)];
    }
  }

  lemma OnePixel(buffer: seq<Byte>, offset: nat, size: nat)
    requires 0 < size <= 4 && offset + size <= |buffer|
    ensures Pixels(buffer, offset, size, 1)[..size] == buffer[offset..offset + size]
  {
    assert Pixels(buffer, offset + size, size, 0) == [];
  }

  /** How many bytes of a chunk its pixels fill. */
  function Filled(chunk: nat): (n: nat)
    ensures n <= chunk
  {
    if chunk < MAX_ELEMENT_SIZE then chunk else chunk / 4 * 4
  }

  /** The bytes of a chunk that its pixels hold. */
  function ReadPixels(buffer: seq<Byte>, offset: nat, chunk: nat): (bytes: seq<Byte>)
    requires 0 < chunk && offset + chunk <= |buffer|
    ensures bytes == buffer[offset..offset + Filled(chunk)]
  {
    if chunk < MAX_ELEMENT_SIZE then
      OnePixel(buffer, offset, chunk);
      Pixels(buffer, offset, chunk, chunk / chunk)[..chunk]
    else
      FullPixels(buffer, offset, chunk / 4);
      Pixels(buffer, offset, MAX_ELEMENT_SIZE, chunk / MAX_ELEMENT_SIZE)
  }

  method CopyBytes(bytes: seq<Byte>, ret: array<Byte>, offset: nat)
    requires offset + |bytes| <= ret.Length
    modifies ret
    ensures ret[..] == old(ret[..])[..offset] + bytes + old(ret[..])[offset + |bytes|..]
  {
    for i := 0 to |bytes|
      invariant forall k | 0 <= k < ret.Length ::
        ret[k] == if offset <= k < offset + i then bytes[k - offset] else old(ret[k])
    {
      ret[offset + i] := bytes[i];
    }
  }

  /** The byte that is never read of a last stretch: the one after its last full element, if it is odd. */
  function MissedOf(rest: nat): (m: int)
    ensures -1 <= m < rest || rest == 0
  {
    if rest > 4 && rest % 2 == 1 then rest / 4 * 4 else -1
  }

  /** The same byte in a buffer of this size, if there is one. */
  function Missed(size: nat): int {
    var rest := size % CHUNK_SIZE;
    if MissedOf(rest) < 0 then -1 else size - rest + MissedOf(rest)
  }

  function ChunkAt(size: nat, offset: nat): (chunk: nat)
    requires offset < size
    ensures 0 < chunk <= size - offset
  {
    var chunk := if CHUNK_SIZE < size - offset then CHUNK_SIZE else size - offset;
    if chunk > 4 then WithoutBit1(chunk) else chunk
  }

  /** Where a chunk may start: at a whole number of full chunks, or with at most two bytes to go. */
  predicate ChunkStart(size: nat, offset: nat) {
    offset <= size &&
    ((offset % CHUNK_SIZE == 0 && (Missed(size) < 0 || Missed(size) >= offset)) ||
     (size - offset in {0, 2} && Missed(size) < offset))
  }

  /** The last chunks, with less than a full one to go. */
  lemma LastChunks(left: nat)
    requires 0 < left < CHUNK_SIZE
    ensures var chunk := ChunkAt(left, 0); var missed := MissedOf(left);
      && 0 < chunk <= left && left - chunk in {0, 2} && missed < chunk
      && if Filled(chunk) == chunk then !(0 <= missed < chunk)
         else Filled(chunk) + 1 == chunk && missed == Filled(chunk)
  {
    var q, t := left / 4, left % 4;
    assert left == 4 * q + t;
    assert left / 2 == 2 * q + t / 2;
    assert left / 2 % 2 == t / 2;
    assert left % 2 == t % 2;
  }

  lemma FullChunk(size: nat, offset: nat)
    requires offset % CHUNK_SIZE == 0 && size - offset >= CHUNK_SIZE
    ensures ChunkAt(size, offset) == CHUNK_SIZE && (offset + CHUNK_SIZE) % CHUNK_SIZE == 0
    ensures size - size % CHUNK_SIZE >= offset + CHUNK_SIZE
  {
  }

  lemma NextChunk(size: nat, offset: nat)
    requires ChunkStart(size, offset) && offset < size
    ensures 0 < ChunkAt(size, offset) && ChunkStart(size, offset + ChunkAt(size, offset))
    ensures offset + ChunkAt(size, offset) <= size
    ensures var chunk := ChunkAt(size, offset);
      if Filled(chunk) == chunk then !(offset <= Missed(size) < offset + chunk)
      else Filled(chunk) + 1 == chunk && Missed(size) == offset + Filled(chunk)
  {
    var left, rest := size - offset, size % CHUNK_SIZE;
    if offset % CHUNK_SIZE == 0 {
      assert rest == left % CHUNK_SIZE;
      if left < CHUNK_SIZE {
        assert rest == left;
        LastChunks(left);
        assert ChunkAt(size, offset) == ChunkAt(left, 0);
      } else {
        FullChunk(size, offset);
      }
    }
  }

  /** What the answer holds when everything before `offset` is read. */
  function Answer(buffer: seq<Byte>, before: seq<Byte>, offset: nat): seq<Byte>
    requires |buffer| == |before| && offset <= |buffer|
  {
    seq(|buffer|, i requires 0 <= i < |buffer| => if i < offset && i != Missed(|buffer|) then buffer[i] else before[i])
  }

  lemma AnswerGrows(buffer: seq<Byte>, before: seq<Byte>, offset: nat)
    requires |buffer| == |before| && offset < |buffer| && ChunkStart(|buffer|, offset)
    ensures var chunk := ChunkAt(|buffer|, offset); var a := Answer(buffer, before, offset);
      && ChunkStart(|buffer|, offset + chunk)
      && Patched(buffer, a, offset) == Answer(buffer, before, offset + chunk)
  {
    NextChunk(|buffer|, offset);
  }

  method ThisChunk(size: nat, offset: nat) returns (thisChunkSize: nat)
    requires offset < size
    ensures thisChunkSize == ChunkAt(size, offset)
  {
    thisChunkSize := if CHUNK_SIZE < size - offset then CHUNK_SIZE else size - offset;
    if thisChunkSize > 4 {
      thisChunkSize := WithoutBit1(thisChunkSize);
    }
  }

  /** The answer after reading one chunk. */
  function Patched(buffer: seq<Byte>, ret: seq<Byte>, offset: nat): seq<Byte>
    requires |buffer| == |ret| && offset < |buffer|
  {
    var end := offset + Filled(ChunkAt(|buffer|, offset));
    ret[..offset] + buffer[offset..end] + ret[end..]
  }

  /** The answer after reading all chunks from `offset` on. */
  function ReadFrom(buffer: seq<Byte>, ret: seq<Byte>, offset: nat): seq<Byte>
    requires |buffer| == |ret|
    decreases |buffer| - offset
  {
    if offset >= |buffer| then ret
    else ReadFrom(buffer, Patched(buffer, ret, offset), offset + ChunkAt(|buffer|, offset))
  }

  lemma {:induction false} ReadFromIsAnswer(buffer: seq<Byte>, before: seq<Byte>, offset: nat)
    requires |buffer| == |before| && ChunkStart(|buffer|, offset)
    ensures ReadFrom(buffer, Answer(buffer, before, offset), offset) == Answer(buffer, before, |buffer|)
    decreases |buffer| - offset
  {
    if offset < |buffer| {
      AnswerGrows(buffer, before, offset);
      ReadFromIsAnswer(buffer, before, offset + ChunkAt(|buffer|, offset));
    }
  }

  /** How many of the chunks from `offset` on write byte `i` of the answer. */
  function Writes(size: nat, offset: nat, i: nat): nat
    decreases size - offset
  {
    if offset >= size then 0
    else
      var chunk := ChunkAt(size, offset);
      (if offset <= i < offset + Filled(chunk) then 1 else 0) + Writes(size, offset + chunk, i)
  }

  /** No byte is written by two chunks, and none but the missed one is left out. */
  lemma {:induction false} WrittenOnce(size: nat, offset: nat, i: nat)
    requires i < size && ChunkStart(size, offset)
    ensures Writes(size, offset, i) == if offset <= i && i != Missed(size) then 1 else 0
    decreases size - offset
  {
    if offset < size {
      NextChunk(size, offset);
      WrittenOnce(size, offset + ChunkAt(size, offset), i);
    }
  }

  /** Ends for every size, and fills every byte of the answer but the missed one. */
  method AuxGetBufferData(buffer: seq<Byte>, ret: array<Byte>)
    requires ret.Length == |buffer|
    modifies ret
    ensures ret[..] == Answer(buffer, old(ret[..]), |buffer|)
    ensures var rest := |buffer| % 256;
      var missed := if rest > 4 && rest % 2 == 1 then |buffer| - rest + rest / 4 * 4 else -1;
      forall i | 0 <= i < |buffer| :: ret[..][i] == if i == missed then old(ret[..])[i] else buffer[i]
  {
    var offset := 0;
    assert Answer(buffer, ret[..], 0) == ret[..];
    ReadFromIsAnswer(buffer, ret[..], 0);
    ghost var read, whole := ret[..], ReadFrom(buffer, ret[..], 0);
    while offset < |buffer|
      invariant ret[..] == read && |read| == |buffer| && ReadFrom(buffer, read, offset) == whole
      decreases |buffer| - offset
    {
      var thisChunkSize := ThisChunk(|buffer|, offset);
      CopyBytes(ReadPixels(buffer, offset, thisChunkSize), ret, offset);
      read := Patched(buffer, read, offset);
      offset := offset + thisChunkSize;
    }
    AnswerAt(buffer, old(ret[..]));
  }

  lemma AnswerAt(buffer: seq<Byte>, before: seq<Byte>)
    requires |before| == |buffer|
    ensures var rest := |buffer| % 256;
      var missed := if rest > 4 && rest % 2 == 1 then |buffer| - rest + rest / 4 * 4 else -1;
      forall i | 0 <= i < |buffer| ::
        Answer(buffer, before, |buffer|)[i] == if i == missed then before[i] else buffer[i]
  {
    var rest := |buffer| % 256;
    var missed := if rest > 4 && rest % 2 == 1 then |buffer| - rest + rest / 4 * 4 else -1;
    assert Missed(|buffer|) == missed;
  }

  lemma MissedExactly(size: nat)
    ensures -1 <= Missed(size) < size
    ensures Missed(size) == -1 <==> size % CHUNK_SIZE % 2 == 0 || size % CHUNK_SIZE <= 4
  {
  }

  /**
   * Whatever was in the answer before, it ends up as the buffer, exactly for sizes whose rest modulo 256
   * is even or at most four.
   */
  lemma CompleteExactly(buffer: seq<Byte>)
    ensures (forall before: seq<Byte> :: |before| == |buffer| ==> Answer(buffer, before, |buffer|) == buffer) <==>
            |buffer| % 256 % 2 == 0 || |buffer| % 256 <= 4
  {
    var m := Missed(|buffer|);
    MissedExactly(|buffer|);
    if m >= 0 {
      var other: Byte := if buffer[m] == 0 then 1 else 0;
      assert Answer(buffer, buffer[m := other], |buffer|)[m] == other;
    }
  }
}
