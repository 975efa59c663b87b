/** How a stream descriptor lays a file out over blobs, and what that says about sizes and reads. */
module Layout {
  import opened Common
  import opened Chunk
  import opened Content
  import opened Origin

  /** One content blob per chunk, each decrypting to it, then one terminator with an empty hash. */
  ghost predicate LaidOut(w: World, sd: SDBlob, chunks: seq<Bytes>)
  {
    && IsChunking(chunks)
    && |Flatten(chunks)| < TWO_63
    && |sd.blobInfos| == |chunks| + 1
    && (forall i :: 0 <= i < |chunks| ==> HoldsChunk(w, sd, i, chunks[i]))
    && Terminator(w, sd, |chunks|)
  }

  ghost predicate HoldsChunk(w: World, sd: SDBlob, i: nat, chunk: Bytes)
    requires i < |sd.blobInfos|
  {
    var bi := sd.blobInfos[i];
    && bi.hash != ""
    && bi.hash in w.blobs
    && w.Conforms(Request(bi.hash, AsChunk(sd.key, bi.iv)))
    && w.decrypt(w.blobs[bi.hash], sd.key, bi.iv) == Some(chunk)
  }

  ghost predicate Terminator(w: World, sd: SDBlob, i: nat)
    requires i < |sd.blobInfos|
  {
    var bi := sd.blobInfos[i];
    && bi.hash == ""
    && w.Conforms(Request("", AsChunk(sd.key, bi.iv)))
  }

  /** The first e bytes of chunk slot i exist if the file reaches that far. */
  lemma ChunkReaches(chunks: seq<Bytes>, i: nat, e: nat)
    requires IsChunking(chunks) && e <= MAX_CHUNK_SIZE && i * MAX_CHUNK_SIZE + e <= |Flatten(chunks)|
    ensures i <= |chunks|
    ensures e > 0 || i * MAX_CHUNK_SIZE < |Flatten(chunks)| ==> i < |chunks|
    ensures i < |chunks| ==> e <= |chunks[i]|
  {
    if chunks != [] {
      SizeOfChunking(chunks);
    }
  }

  lemma ReadBegins(content: Bytes, r: StreamRange, offset: nat, len: nat)
    requires offset + len <= |content| && Placed(r, offset, len)
    ensures var out := EndPieces(content, r, offset, len);
            var a := Min(len, MAX_CHUNK_SIZE - r.firstChunkOffset);
            && 0 <= a <= |out|
            && out[..a] == content[offset..offset + a]
            && (r.firstChunkIdx == r.lastChunkIdx ==> a == |out| == len)
            && (r.firstChunkIdx < r.lastChunkIdx ==> a == MAX_CHUNK_SIZE - r.firstChunkOffset)
  {
    if r.firstChunkIdx == r.lastChunkIdx {
      assert len <= MAX_CHUNK_SIZE - r.firstChunkOffset;
    } else {
      assert (r.firstChunkIdx + 1) * MAX_CHUNK_SIZE == offset + (MAX_CHUNK_SIZE - r.firstChunkOffset);
    }
  }

  /** The part of a read that comes from its first chunk: it exists there, and it begins the result. */
  lemma FirstPiece(chunks: seq<Bytes>, r: StreamRange, offset: nat, len: nat)
    requires IsChunking(chunks) && offset + len <= |Flatten(chunks)| && Placed(r, offset, len)
    ensures var out := EndPieces(Flatten(chunks), r, offset, len);
            var o, a := r.firstChunkOffset, Min(len, MAX_CHUNK_SIZE - r.firstChunkOffset);
            && r.firstChunkIdx <= |chunks|
            && 0 <= a <= |out|
            && (r.firstChunkIdx < |chunks| ==>
                  o + a <= |chunks[r.firstChunkIdx]| && out[..a] == chunks[r.firstChunkIdx][o..o + a])
            && (r.firstChunkIdx == |chunks| ==> len == 0 && o == 0)
            && (r.firstChunkIdx == r.lastChunkIdx ==> a == |out| == len)
            && (r.firstChunkIdx < r.lastChunkIdx ==> a == MAX_CHUNK_SIZE - o && r.firstChunkIdx < |chunks|)
  {
    var first, o, a := r.firstChunkIdx, r.firstChunkOffset, Min(len, MAX_CHUNK_SIZE - r.firstChunkOffset);
    ChunkReaches(chunks, first, o + a);
    if first < |chunks| {
      SliceOfChunk(chunks, first, o, o + a);
    }
    ReadBegins(Flatten(chunks), r, offset, len);
  }

  lemma ReadEnds(content: Bytes, r: StreamRange, offset: nat, len: nat)
    requires offset + len <= |content| && Placed(r, offset, len) && r.firstChunkIdx < r.lastChunkIdx
    ensures var out := EndPieces(content, r, offset, len);
            var a, b, from := MAX_CHUNK_SIZE - r.firstChunkOffset, r.lastChunkReadLen, r.lastChunkIdx * MAX_CHUNK_SIZE;
            && 0 <= b <= len - a
            && a + b == |out|
            && from + b == offset + len
            && out[a..] == content[from..from + b]
  {
    var cut, from, end := (r.firstChunkIdx + 1) * MAX_CHUNK_SIZE, r.lastChunkIdx * MAX_CHUNK_SIZE, offset + len;
    assert cut == offset + (MAX_CHUNK_SIZE - r.firstChunkOffset) <= from;
    assert EndPieces(content, r, offset, len) == content[offset..cut] + content[from..end];
  }

  /** The part that comes from the last chunk, when it is another one: it exists there, and it ends the result. */
  lemma LastPiece(chunks: seq<Bytes>, r: StreamRange, offset: nat, len: nat)
    requires IsChunking(chunks) && offset + len <= |Flatten(chunks)| && Placed(r, offset, len)
    requires r.firstChunkIdx < r.lastChunkIdx
    ensures var out := EndPieces(Flatten(chunks), r, offset, len);
            var a := MAX_CHUNK_SIZE - r.firstChunkOffset;
            && r.lastChunkIdx <= |chunks|
            && 0 <= r.lastChunkReadLen <= len - a
            && a + r.lastChunkReadLen == |out|
            && (r.lastChunkIdx == |chunks| ==> r.lastChunkReadLen == 0)
            && (r.lastChunkIdx < |chunks| ==>
                  && r.lastChunkReadLen <= |chunks[r.lastChunkIdx]|
                  && out[a..] == chunks[r.lastChunkIdx][..r.lastChunkReadLen])
  {
    var last, b := r.lastChunkIdx, r.lastChunkReadLen;
    ReadEnds(Flatten(chunks), r, offset, len);
    ChunkReaches(chunks, last, b);
    if last < |chunks| {
      SliceOfChunk(chunks, last, 0, b);
    }
  }

  /** A read whose first chunk would be the terminator asks for nothing, at the very end of the file. */
  lemma ReadAtTheEnd(chunks: seq<Bytes>, offset: nat, len: nat)
    requires IsChunking(chunks) && offset + len <= |Flatten(chunks)|
    requires GetRange(offset, len).firstChunkIdx == |chunks|
    ensures len == 0 && offset == |Flatten(chunks)|
  {
    RangeIsPlaced(offset, len);
    FirstPiece(chunks, GetRange(offset, len), offset, len);
    if chunks != [] {
      SizeOfChunking(chunks);
    }
  }

  /** A read that reaches the terminator ends where the file ends. */
  lemma ReadToTheEnd(chunks: seq<Bytes>, offset: nat, len: nat)
    requires IsChunking(chunks) && offset + len <= |Flatten(chunks)|
    requires GetRange(offset, len).lastChunkIdx == |chunks|
    ensures offset + len == |Flatten(chunks)|
  {
    RangeIsPlaced(offset, len);
    if chunks != [] {
      SizeOfChunking(chunks);
    }
  }

  /** What turn i of the read loop takes: the bytes of chunk i that the read asks for, cut to the room left.
      The terminator has none. */
  function TurnPiece(chunks: seq<Bytes>, i: int, o: int, n: int, room: int): Bytes
  {
    if 0 <= i < |chunks| && 0 <= o <= |chunks[i]| && 0 <= n && 0 <= room then
      chunks[i][o..o + Min(room, Min(n, |chunks[i]| - o))]
    else []
  }

  /** The slice that turn i asks for exists in its chunk; at the terminator it is empty. */
  predicate TurnFits(chunks: seq<Bytes>, i: int, o: int, n: int, room: int)
  {
    && 0 <= i <= |chunks| && 0 <= o && 0 <= n && 0 <= room
    && (i < |chunks| ==> o <= |chunks[i]|)
    && (i == |chunks| ==> o == 0 && (n == 0 || room == 0))
  }

  /** The buffer `after` is the buffer `before` with the first n bytes of `out` written at lo. */
  ghost predicate Wrote(before: Bytes, lo: nat, hi: nat, out: Bytes, n: nat, after: Bytes)
  {
    && n <= |out|
    && lo + n <= hi <= |before|
    && after == Overwrite(before, lo, out[..n])
  }

  /** How far the read loop has filled the buffer before turn i, and the buffer. */
  function LoopState(chunks: seq<Bytes>, sr: StreamRange, before: Bytes, lo: nat, hi: nat, i: int): (nat, Bytes)
    decreases i - sr.firstChunkIdx
  {
    if i <= sr.firstChunkIdx then (lo, before)
    else
      var (at, now) := LoopState(chunks, sr, before, lo, hi, i - 1);
      var (o, n) := sr.ByteRangeForChunk(i - 1);
      var piece := TurnPiece(chunks, i - 1, o, n, hi - at);
      (at + |piece|, Overwrite(now, at, piece))
  }

  lemma LoopAdvances(chunks: seq<Bytes>, sr: StreamRange, before: Bytes, lo: nat, hi: nat, i: int, at: nat, now: Bytes,
                     o: int, n: int, j: int, next: nat, after: Bytes)
    requires sr.firstChunkIdx <= i && LoopState(chunks, sr, before, lo, hi, i) == (at, now)
    requires sr.ByteRangeForChunk(i) == (o, n) && j == i + 1
    requires next == at + |TurnPiece(chunks, i, o, n, hi - at)|
    requires after == Overwrite(now, at, TurnPiece(chunks, i, o, n, hi - at))
    ensures LoopState(chunks, sr, before, lo, hi, j) == (next, after)
  {
    var previous := j - 1;
    assert previous == i;
    assert LoopState(chunks, sr, before, lo, hi, previous) == (at, now);
  }

  /** Copying out of chunk i what its turn asks for, as far as there is room, leads to the next turn. */
  lemma TurnCopied(chunks: seq<Bytes>, sr: StreamRange, before: Bytes, lo: nat, hi: nat, i: int, at: nat, now: Bytes,
                   o: int, n: int, b: Bytes, read: nat, j: int, next: nat, after: Bytes)
    requires sr.firstChunkIdx <= i && LoopState(chunks, sr, before, lo, hi, i) == (at, now)
    requires sr.ByteRangeForChunk(i) == (o, n) && TurnFits(chunks, i, o, n, hi - at)
    requires i < |chunks| ==> b == chunks[i]
    requires read == Min(hi - at, Min(n, |b| - o)) && o + read <= |b| && after == Overwrite(now, at, b[o..o + read])
    requires j == i + 1 && next == at + read
    ensures LoopState(chunks, sr, before, lo, hi, j) == (next, after)
  {
    assert TurnPiece(chunks, i, o, n, hi - at) == b[o..o + read];
    LoopAdvances(chunks, sr, before, lo, hi, i, at, now, o, n, j, next, after);
  }

  /** The turns split the result: the first one takes out[..a], the last one, if it is another, out[a..];
      both ask for bytes that exist. */
  ghost predicate TurnsSplit(chunks: seq<Bytes>, sr: StreamRange, len: nat, out: Bytes, a: nat)
  {
    && 0 <= sr.firstChunkIdx <= sr.lastChunkIdx <= |chunks|
    && a <= |out| <= len
    && TurnTakes(chunks, sr, sr.firstChunkIdx, len, out[..a])
    && (sr.firstChunkIdx == sr.lastChunkIdx ==> a == |out|)
    && (sr.firstChunkIdx < sr.lastChunkIdx ==> TurnTakes(chunks, sr, sr.lastChunkIdx, len - a, out[a..]))
  }

  ghost predicate TurnTakes(chunks: seq<Bytes>, sr: StreamRange, i: int, room: int, piece: Bytes)
  {
    var (o, n) := sr.ByteRangeForChunk(i);
    TurnFits(chunks, i, o, n, room) && TurnPiece(chunks, i, o, n, room) == piece
  }

  lemma LoopAfterFirst(chunks: seq<Bytes>, sr: StreamRange, before: Bytes, lo: nat, hi: nat, out: Bytes, a: nat, i: int)
    requires lo <= hi <= |before| && TurnsSplit(chunks, sr, hi - lo, out, a)
    requires i == sr.firstChunkIdx + 1
    ensures LoopState(chunks, sr, before, lo, hi, i) == (lo + a, Overwrite(before, lo, out[..a]))
  {
    var (o, n) := sr.ByteRangeForChunk(sr.firstChunkIdx);
    var next, now := lo + a, Overwrite(before, lo, out[..a]);
    LoopAdvances(chunks, sr, before, lo, hi, sr.firstChunkIdx, lo, before, o, n, i, next, now);
  }

  /** The chunks between the first and the last one change nothing. */
  lemma {:induction false} LoopInMiddle(chunks: seq<Bytes>, sr: StreamRange, before: Bytes, lo: nat, hi: nat,
                                        out: Bytes, a: nat, i: int)
    requires lo <= hi <= |before| && TurnsSplit(chunks, sr, hi - lo, out, a)
    requires sr.firstChunkIdx < i <= sr.lastChunkIdx
    ensures LoopState(chunks, sr, before, lo, hi, i) == (lo + a, Overwrite(before, lo, out[..a]))
    decreases i
  {
    if i == sr.firstChunkIdx + 1 {
      LoopAfterFirst(chunks, sr, before, lo, hi, out, a, i);
    } else {
      LoopInMiddle(chunks, sr, before, lo, hi, out, a, i - 1);
      LoopEmptyTurn(chunks, sr, before, lo, hi, i);
    }
  }

  lemma LoopEmptyTurn(chunks: seq<Bytes>, sr: StreamRange, before: Bytes, lo: nat, hi: nat, i: int)
    requires sr.firstChunkIdx < i - 1 < sr.lastChunkIdx
    ensures LoopState(chunks, sr, before, lo, hi, i) == LoopState(chunks, sr, before, lo, hi, i - 1)
  {
    var (at, now) := LoopState(chunks, sr, before, lo, hi, i - 1);
    assert TurnPiece(chunks, i - 1, 0, 0, hi - at) == [];
    assert Overwrite(now, at, []) == now;
  }

  lemma LoopAfterLast(chunks: seq<Bytes>, sr: StreamRange, before: Bytes, lo: nat, hi: nat, out: Bytes, a: nat, i: int)
    requires lo <= hi <= |before| && TurnsSplit(chunks, sr, hi - lo, out, a)
    requires i == sr.lastChunkIdx + 1
    ensures LoopState(chunks, sr, before, lo, hi, i) == (lo + |out|, Overwrite(before, lo, out))
  {
    if sr.firstChunkIdx == sr.lastChunkIdx {
      assert out[..a] == out;
      LoopAfterFirst(chunks, sr, before, lo, hi, out, a, i);
    } else {
      LoopInMiddle(chunks, sr, before, lo, hi, out, a, sr.lastChunkIdx);
      LoopEnds(chunks, sr, before, lo, hi, out, a, i);
    }
  }

  lemma LoopEnds(chunks: seq<Bytes>, sr: StreamRange, before: Bytes, lo: nat, hi: nat, out: Bytes, a: nat, i: int)
    requires lo <= hi <= |before| && TurnsSplit(chunks, sr, hi - lo, out, a)
    requires sr.firstChunkIdx < sr.lastChunkIdx && i == sr.lastChunkIdx + 1
    requires LoopState(chunks, sr, before, lo, hi, sr.lastChunkIdx) == (lo + a, Overwrite(before, lo, out[..a]))
    ensures LoopState(chunks, sr, before, lo, hi, i) == (lo + |out|, Overwrite(before, lo, out))
  {
    LoopRest(chunks, sr, before, lo, hi, i, lo + a, hi - lo - a, Overwrite(before, lo, out[..a]), out, a);
  }

  lemma LoopRest(chunks: seq<Bytes>, sr: StreamRange, before: Bytes, lo: nat, hi: nat, i: int, at: nat, room: int,
                 now: Bytes, out: Bytes, a: nat)
    requires sr.firstChunkIdx < sr.lastChunkIdx && i == sr.lastChunkIdx + 1
    requires room == hi - at && at == lo + a && a <= |out| && lo + |out| <= |before|
    requires TurnTakes(chunks, sr, sr.lastChunkIdx, room, out[a..])
    requires LoopState(chunks, sr, before, lo, hi, sr.lastChunkIdx) == (at, now)
    requires now == Overwrite(before, lo, out[..a])
    ensures LoopState(chunks, sr, before, lo, hi, i) == (lo + |out|, Overwrite(before, lo, out))
  {
    LoopLastTurn(chunks, sr, before, lo, hi, i, at, room, now, out[a..]);
    OverwriteRest(before, lo, out, a, at);
  }

  lemma LoopLastTurn(chunks: seq<Bytes>, sr: StreamRange, before: Bytes, lo: nat, hi: nat, i: int, at: nat, room: int,
                     now: Bytes, rest: Bytes)
    requires sr.firstChunkIdx < sr.lastChunkIdx && i == sr.lastChunkIdx + 1 && room == hi - at
    requires TurnTakes(chunks, sr, sr.lastChunkIdx, room, rest)
    requires LoopState(chunks, sr, before, lo, hi, sr.lastChunkIdx) == (at, now)
    ensures LoopState(chunks, sr, before, lo, hi, i) == (at + |rest|, Overwrite(now, at, rest))
  {
    assert TurnPiece(chunks, sr.lastChunkIdx, sr.lastChunkOffset, sr.lastChunkReadLen, hi - at) == rest;
    LoopAdvances(chunks, sr, before, lo, hi, sr.lastChunkIdx, at, now, sr.lastChunkOffset, sr.lastChunkReadLen,
                 i, at + |rest|, Overwrite(now, at, rest));
  }

  /** The loop before turn i has written nothing, or the first piece, or everything. */
  lemma LoopStateIs(chunks: seq<Bytes>, sr: StreamRange, before: Bytes, lo: nat, hi: nat, out: Bytes, a: nat, i: int)
    requires lo <= hi <= |before| && TurnsSplit(chunks, sr, hi - lo, out, a)
    requires sr.firstChunkIdx <= i <= sr.lastChunkIdx + 1
    ensures LoopState(chunks, sr, before, lo, hi, i) ==
              if i == sr.firstChunkIdx then (lo, before)
              else if i <= sr.lastChunkIdx then (lo + a, Overwrite(before, lo, out[..a]))
              else (lo + |out|, Overwrite(before, lo, out))
  {
    if i > sr.lastChunkIdx {
      LoopAfterLast(chunks, sr, before, lo, hi, out, a, i);
    } else if i > sr.firstChunkIdx {
      LoopInMiddle(chunks, sr, before, lo, hi, out, a, i);
    }
  }

  lemma TurnsOfPlaced(chunks: seq<Bytes>, r: StreamRange, offset: nat, len: nat)
    requires IsChunking(chunks) && offset + len <= |Flatten(chunks)| && Placed(r, offset, len)
    ensures TurnsSplit(chunks, r, len, EndPieces(Flatten(chunks), r, offset, len),
                       Min(len, MAX_CHUNK_SIZE - r.firstChunkOffset))
  {
    FirstPiece(chunks, r, offset, len);
    if r.firstChunkIdx < r.lastChunkIdx {
      LastPiece(chunks, r, offset, len);
    }
  }

  lemma TurnsOfRead(chunks: seq<Bytes>, sr: StreamRange, offset: nat, len: nat)
    requires IsChunking(chunks) && offset + len <= |Flatten(chunks)| && sr == GetRange(offset, len)
    ensures sr.firstChunkOffset < MAX_CHUNK_SIZE
    ensures TurnsSplit(chunks, sr, len, ReadBytes(Flatten(chunks), offset, len),
                       Min(len, MAX_CHUNK_SIZE - sr.firstChunkOffset))
  {
    RangeIsPlaced(offset, len);
    TurnsOfPlaced(chunks, sr, offset, len);
  }

  /** The turns of a read's loop split what ReadBytes says, and each of them asks only for bytes that exist. */
  lemma TurnsAreTheRead(chunks: seq<Bytes>, sr: StreamRange, offset: nat, lo: nat, hi: nat)
    requires lo <= hi && IsChunking(chunks) && offset + (hi - lo) <= |Flatten(chunks)|
    requires sr == GetRange(offset, hi - lo)
    ensures sr.firstChunkOffset < MAX_CHUNK_SIZE
    ensures TurnsSplit(chunks, sr, hi - lo, ReadBytes(Flatten(chunks), offset, hi - lo),
                       Min(hi - lo, MAX_CHUNK_SIZE - sr.firstChunkOffset))
  {
    TurnsOfRead(chunks, sr, offset, hi - lo);
  }

  /** Before each turn the bytes it asks for exist and there is room for them; at the terminator nothing is missing. */
  lemma LoopTurnFits(chunks: seq<Bytes>, sr: StreamRange, before: Bytes, lo: nat, hi: nat, out: Bytes, a: nat,
                     i: int, at: nat, now: Bytes)
    requires lo <= hi <= |before| && TurnsSplit(chunks, sr, hi - lo, out, a)
    requires sr.firstChunkIdx <= i <= sr.lastChunkIdx
    requires LoopState(chunks, sr, before, lo, hi, i) == (at, now)
    ensures var (o, n) := sr.ByteRangeForChunk(i); TurnFits(chunks, i, o, n, hi - at)
    ensures lo <= at <= hi <= |now| && 0 <= i <= |chunks|
    ensures i == |chunks| ==> at - lo == |out|
  {
    LoopStateIs(chunks, sr, before, lo, hi, out, a, i);
  }

  /** Whenever the loop stops, the buffer holds a prefix of the result; all of it after the last turn. */
  lemma LoopWrote(chunks: seq<Bytes>, sr: StreamRange, before: Bytes, lo: nat, hi: nat, out: Bytes, a: nat, i: int,
                  at: nat, now: Bytes, read: nat)
    requires lo <= hi <= |before| && TurnsSplit(chunks, sr, hi - lo, out, a)
    requires sr.firstChunkIdx <= i <= sr.lastChunkIdx + 1
    requires LoopState(chunks, sr, before, lo, hi, i) == (at, now) && lo + read == at
    ensures Wrote(before, lo, hi, out, read, now)
    ensures i > sr.lastChunkIdx ==> read == |out|
  {
    LoopStateIs(chunks, sr, before, lo, hi, out, a, i);
    if i > sr.lastChunkIdx {
      assert out[..read] == out;
    } else if i == sr.firstChunkIdx {
      assert read == 0 && out[..read] == [];
      assert Overwrite(before, lo, []) == before;
    } else {
      assert read == a;
    }
  }
}
