/** A file as one flat byte sequence, cut into full chunks and one last chunk. */
module Content {
  import opened Common
  import opened Chunk

  /** Every chunk but the last is full; the last holds between one byte and a full chunk. */
  ghost predicate IsChunking(chunks: seq<Bytes>)
  {
    && (forall i :: 0 <= i < |chunks| ==> 1 <= |chunks[i]| <= MAX_CHUNK_SIZE)
    && (forall i :: 0 <= i < |chunks| - 1 ==> |chunks[i]| == MAX_CHUNK_SIZE)
  }

  function Flatten(chunks: seq<Bytes>): Bytes
  {
    if chunks == [] then [] else chunks[0] + Flatten(chunks[1..])
  }

  lemma ChunkingTail(chunks: seq<Bytes>)
    requires IsChunking(chunks) && chunks != []
    ensures IsChunking(chunks[1..])
  {
    assert forall i :: 0 <= i < |chunks| - 1 ==> chunks[1..][i] == chunks[i + 1];
  }

  /** The size formula used by the server is the length of the file. */
  lemma {:induction false} SizeOfChunking(chunks: seq<Bytes>)
    requires IsChunking(chunks) && chunks != []
    ensures |Flatten(chunks)| == MAX_CHUNK_SIZE * (|chunks| - 1) + |chunks[|chunks| - 1]|
  {
    if |chunks| == 1 {
      assert Flatten(chunks) == chunks[0];
    } else {
      ChunkingTail(chunks);
      SizeOfChunking(chunks[1..]);
    }
  }

  lemma SliceOfAppend(head: Bytes, tail: Bytes, a: nat, b: nat)
    ensures a <= b <= |head| ==> (head + tail)[a..b] == head[a..b]
    ensures a <= b <= |tail| ==> (head + tail)[|head| + a..|head| + b] == tail[a..b]
  {
  }

  /** Slice [a, b) of chunk i is slice [i*M + a, i*M + b) of the file. */
  lemma {:induction false} SliceOfChunk(chunks: seq<Bytes>, i: nat, a: nat, b: nat)
    requires IsChunking(chunks) && i < |chunks| && a <= b <= |chunks[i]|
    ensures i * MAX_CHUNK_SIZE + b <= |Flatten(chunks)|
    ensures chunks[i][a..b] == Flatten(chunks)[i * MAX_CHUNK_SIZE + a..i * MAX_CHUNK_SIZE + b]
  {
    var head, tail := chunks[0], Flatten(chunks[1..]);
    assert Flatten(chunks) == head + tail;
    if i == 0 {
      SliceOfAppend(head, tail, a, b);
    } else {
      ChunkingTail(chunks);
      SliceOfChunk(chunks[1..], i - 1, a, b);
      var p := (i - 1) * MAX_CHUNK_SIZE;
      assert |head| == MAX_CHUNK_SIZE && chunks[1..][i - 1] == chunks[i];
      SliceOfAppend(head, tail, p + a, p + b);
      assert |head| + (p + a) == i * MAX_CHUNK_SIZE + a && |head| + (p + b) == i * MAX_CHUNK_SIZE + b;
    }
  }

  lemma SlotExists(chunks: seq<Bytes>, p: nat, i: nat, j: nat)
    requires IsChunking(chunks) && p < |Flatten(chunks)| && p == i * MAX_CHUNK_SIZE + j && j < MAX_CHUNK_SIZE
    ensures i < |chunks| && j < |chunks[i]|
  {
    SizeOfChunking(chunks);
  }

  /** Every file position p is position p % M of chunk p / M, which exists ... */
  lemma PositionHasAddress(chunks: seq<Bytes>, p: nat)
    requires IsChunking(chunks) && p < |Flatten(chunks)|
    ensures p / MAX_CHUNK_SIZE < |chunks|
    ensures p % MAX_CHUNK_SIZE < |chunks[p / MAX_CHUNK_SIZE]|
    ensures Flatten(chunks)[p] == chunks[p / MAX_CHUNK_SIZE][p % MAX_CHUNK_SIZE]
  {
    var i, j := p / MAX_CHUNK_SIZE, p % MAX_CHUNK_SIZE;
    SlotExists(chunks, p, i, j);
    AddressHasPosition(chunks, i, j);
  }

  /** ... and position j of chunk i is file position i*M + j, whose address is (i, j): a bijection. */
  lemma AddressHasPosition(chunks: seq<Bytes>, i: nat, j: nat)
    requires IsChunking(chunks) && i < |chunks| && j < |chunks[i]|
    ensures i * MAX_CHUNK_SIZE + j < |Flatten(chunks)|
    ensures (i * MAX_CHUNK_SIZE + j) / MAX_CHUNK_SIZE == i
    ensures (i * MAX_CHUNK_SIZE + j) % MAX_CHUNK_SIZE == j
    ensures Flatten(chunks)[i * MAX_CHUNK_SIZE + j] == chunks[i][j]
  {
    SliceOfChunk(chunks, i, j, j + 1);
    var p := i * MAX_CHUNK_SIZE;
    assert chunks[i][j] == chunks[i][j..j + 1][0] == Flatten(chunks)[p + j..p + j + 1][0];
  }

  /** What a read of `len` bytes at `offset` leaves in its buffer: the bytes of the first and the last
      chunk touched, without those of the chunks in between. */
  function ReadBytes(content: Bytes, offset: nat, len: nat): Bytes
    requires offset + len <= |content|
  {
    RangeIsPlaced(offset, len);
    EndPieces(content, GetRange(offset, len), offset, len)
  }

  function EndPieces(content: Bytes, r: StreamRange, offset: nat, len: nat): Bytes
    requires offset + len <= |content| && Placed(r, offset, len)
  {
    if r.firstChunkIdx == r.lastChunkIdx then
      content[offset..offset + len]
    else
      content[offset..(r.firstChunkIdx + 1) * MAX_CHUNK_SIZE] + content[r.lastChunkIdx * MAX_CHUNK_SIZE..offset + len]
  }

  lemma ReadLength(content: Bytes, offset: nat, len: nat)
    requires offset + len <= |content|
    ensures var r := GetRange(offset, len);
            |ReadBytes(content, offset, len)| ==
              if r.firstChunkIdx == r.lastChunkIdx then len
              else len - (r.lastChunkIdx - r.firstChunkIdx - 1) * MAX_CHUNK_SIZE
  {
  }

  lemma ReadOfTwoChunks(content: Bytes, offset: nat, len: nat)
    requires offset + len <= |content|
    requires GetRange(offset, len).AtMostTwoChunks()
    ensures ReadBytes(content, offset, len) == content[offset..offset + len]
  {
    var r := GetRange(offset, len);
    if r.lastChunkIdx != r.firstChunkIdx {
      var cut := r.lastChunkIdx * MAX_CHUNK_SIZE;
      assert offset <= cut <= offset + len;
      assert content[offset..cut] + content[cut..offset + len] == content[offset..offset + len];
    }
  }

  /** A read is exact if and only if it fills its buffer, if and only if it touches at most two chunks;
      and a buffer of at most one chunk's size is enough for that. */
  lemma ReadIsExactIff(content: Bytes, offset: nat, len: nat)
    requires offset + len <= |content|
    ensures ReadBytes(content, offset, len) == content[offset..offset + len] <==>
              |ReadBytes(content, offset, len)| == len
    ensures |ReadBytes(content, offset, len)| == len <==> GetRange(offset, len).AtMostTwoChunks()
    ensures len <= MAX_CHUNK_SIZE ==> GetRange(offset, len).AtMostTwoChunks()
  {
    var n := |ReadBytes(content, offset, len)|;
    ReadLength(content, offset, len);
    if GetRange(offset, len).AtMostTwoChunks() {
      ReadOfTwoChunks(content, offset, len);
    } else {
      assert n < len;
    }
    if len <= MAX_CHUNK_SIZE {
      TwoChunkBoundIsSharp(len);
    }
  }
}
