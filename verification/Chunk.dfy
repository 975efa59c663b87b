/** player/chunk.go: chunk geometry of a byte range, and reading out of one chunk. */
module Chunk {
  import opened Common

  const MAX_BLOB_SIZE: int := 2097152
  /** The size of a full decrypted chunk: a full blob less its one byte of minimal padding. */
  const MAX_CHUNK_SIZE: int := MAX_BLOB_SIZE - 1

  datatype StreamRange = StreamRange(
    firstChunkIdx: int,
    lastChunkIdx: int,
    firstChunkOffset: int,
    lastChunkReadLen: int,
    lastChunkOffset: int)
  {
    /** Offset and length to read from chunk i.  A chunk strictly between the first and the last yields nothing. */
    function ByteRangeForChunk(i: int): (int, int)
    {
      if i == firstChunkIdx then (firstChunkOffset, MAX_CHUNK_SIZE - firstChunkOffset)
      else if i == lastChunkIdx then (lastChunkOffset, lastChunkReadLen)
      else if firstChunkIdx == lastChunkIdx then (firstChunkOffset, lastChunkReadLen)
      else (0, 0)
    }

    predicate AtMostTwoChunks() { lastChunkIdx <= firstChunkIdx + 1 }
  }

  function GetRange(offset: nat, readLen: nat): StreamRange
  {
    var end := offset + readLen;
    var first := offset / MAX_CHUNK_SIZE;
    var last := end / MAX_CHUNK_SIZE;
    var lastOffset := if first == last then offset - last * MAX_CHUNK_SIZE else 0;
    StreamRange(first, last, offset - first * MAX_CHUNK_SIZE, end - last * MAX_CHUNK_SIZE - lastOffset, lastOffset)
  }

  /** Where a read of len bytes at offset begins and ends, in terms of chunks. */
  predicate Placed(r: StreamRange, offset: nat, len: nat)
  {
    && 0 <= r.firstChunkIdx <= r.lastChunkIdx
    && 0 <= r.firstChunkOffset < MAX_CHUNK_SIZE
    && r.firstChunkIdx * MAX_CHUNK_SIZE + r.firstChunkOffset == offset
    && r.lastChunkIdx * MAX_CHUNK_SIZE <= offset + len < (r.lastChunkIdx + 1) * MAX_CHUNK_SIZE
    && (r.firstChunkIdx == r.lastChunkIdx ==> r.lastChunkOffset == r.firstChunkOffset && r.lastChunkReadLen == len)
    && (r.firstChunkIdx < r.lastChunkIdx ==>
          && r.lastChunkOffset == 0
          && r.lastChunkReadLen == offset + len - r.lastChunkIdx * MAX_CHUNK_SIZE)
  }

  /** GetRange computes the one stream range that is placed at the read's ends. */
  lemma RangeIsPlaced(offset: nat, len: nat)
    ensures Placed(GetRange(offset, len), offset, len)
  {
  }

  lemma PlacedIsUnique(r: StreamRange, offset: nat, len: nat)
    requires Placed(r, offset, len)
    ensures r == GetRange(offset, len)
  {
    RangeIsPlaced(offset, len);
  }

  /** The sequence s with the elements from position `at` on replaced by those of `data`, if it has that many. */
  function Overwrite(s: Bytes, at: nat, data: Bytes): Bytes
  {
    if at + |data| <= |s| then s[..at] + data + s[at + |data|..] else s
  }

  /** Writing data in two pieces is writing it at once. */
  lemma OverwriteRest(s: Bytes, at: nat, data: Bytes, done: nat, next: nat)
    requires done <= |data| && at + |data| <= |s| && next == at + done
    ensures Overwrite(Overwrite(s, at, data[..done]), next, data[done..]) == Overwrite(s, at, data)
  {
  }

  /** ReadableChunk.Read: copies b[offset..offset+n], cut to the chunk's end and to the room in dest[lo..hi]. */
  method ReadChunk(b: Bytes, offset: nat, n: nat, dest: array<Byte>, lo: nat, hi: nat) returns (read: nat)
    requires offset <= |b|
    requires lo <= hi <= dest.Length
    modifies dest
    ensures read == Min(hi - lo, Min(n, |b| - offset))
    ensures dest[..] == Overwrite(old(dest[..]), lo, b[offset..offset + read])
  {
    var m := n;
    if offset + m > |b| {
      m := |b| - offset;
    }
    read := Min(hi - lo, m);
    forall k | 0 <= k < read {
      dest[lo + k] := b[offset + k];
    }
  }

  /** The flat positions that the loop over the chunks copies from chunk i when `room` bytes of destination are left. */
  function Piece(r: StreamRange, i: int, room: nat): (int, int)
  {
    var (o, n) := r.ByteRangeForChunk(i);
    (i * MAX_CHUNK_SIZE + o, i * MAX_CHUNK_SIZE + o + Min(n, room))
  }

  /** Under the two-chunk bound the pieces, cut to the destination, tile [offset, offset + readLen)
      with no gap and no overlap, and each lies inside its own chunk. */
  lemma PiecesTile(offset: nat, readLen: nat)
    requires GetRange(offset, readLen).AtMostTwoChunks()
    ensures var r := GetRange(offset, readLen);
            var (a, b) := Piece(r, r.firstChunkIdx, readLen);
            && a == offset
            && r.firstChunkIdx * MAX_CHUNK_SIZE <= a <= b <= (r.firstChunkIdx + 1) * MAX_CHUNK_SIZE
            && (r.lastChunkIdx == r.firstChunkIdx ==> b == offset + readLen)
            && (r.lastChunkIdx != r.firstChunkIdx ==>
                  var (c, d) := Piece(r, r.lastChunkIdx, readLen - (b - a));
                  c == b == r.lastChunkIdx * MAX_CHUNK_SIZE && d == offset + readLen < c + MAX_CHUNK_SIZE)
  {
  }

  /** A read that spans three or more chunks is cut short: everything in the middle chunks is lost. */
  lemma PiecesLoseMiddle(offset: nat, readLen: nat)
    ensures var r := GetRange(offset, readLen);
            var (a, b) := Piece(r, r.firstChunkIdx, readLen);
            r.lastChunkIdx != r.firstChunkIdx ==>
              var (c, d) := Piece(r, r.lastChunkIdx, readLen - (b - a));
              (b - a) + (d - c) == readLen - (r.lastChunkIdx - r.firstChunkIdx - 1) * MAX_CHUNK_SIZE
  {
  }

  /** The two-chunk bound is sharp: it holds at every offset exactly for buffers of at most MAX_CHUNK_SIZE bytes. */
  lemma TwoChunkBoundIsSharp(readLen: nat)
    ensures readLen <= 2097151 <==> forall offset: nat :: GetRange(offset, readLen).AtMostTwoChunks()
  {
    if readLen > MAX_CHUNK_SIZE {
      var offset: nat := MAX_CHUNK_SIZE - 1;
      assert (offset + readLen) / MAX_CHUNK_SIZE >= 2;
      assert !GetRange(offset, readLen).AtMostTwoChunks();
    }
  }
}
