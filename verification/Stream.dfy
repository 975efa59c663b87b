/** player/stream.go: the seekable reader over a stream's chunks. */
module Stream {
  import opened Common
  import opened Chunk
  import opened Content
  import opened Origin
  import opened Caches
  import opened Layout
  import opened Size
  import opened ReaderRuns
  import Float64
  import Prefetch

  /** The one-entry memo of the last chunk: empty, or a chunk that agrees with the origin. */
  ghost predicate MemoAgrees(w: World, hash: string, chunk: Option<Bytes>)
  {
    match chunk
    case None => hash == ""
    case Some(bytes) => hash in w.blobs && w.Truth(Request(hash, w.use(hash))) == Some(SizedSlice(bytes))
  }

  class Stream {
    const hash: string
    const blobSource: HotCache
    const prefetch: bool
    const prefetchCount: nat
    const sourceSize: nat
    const claimIsStream: bool
    /** The file behind the stream, as its publisher cut it. */
    ghost const chunks: seq<Bytes>

    var size: nat
    var sdBlob: Option<SDBlob>
    var seekOffset: nat
    /** The calls of Seek and Read so far. */
    ghost var calls: seq<Call>
    var currentChunkHash: string
    var currentChunk: Option<Bytes>
    var prefetchedChunks: map<int, bool>
    /** Chunks at which a prefetch was started, in order. */
    ghost var prefetchStarts: seq<int>
    /** How often each blob was considered by a prefetch. */
    ghost var considered: multiset<int>

    ghost function Content(): Bytes { Flatten(chunks) }

    ghost predicate Published()
    {
      exists sd :: PublishedAs(sd)
    }

    /** The descriptor at the origin describes this file. */
    ghost predicate PublishedAs(sd: SDBlob)
    {
      var w := blobSource.origin.world;
      && w.Conforms(Request(hash, AsSD))
      && w.Truth(Request(hash, AsSD)) == Some(SizedSD(sd))
      && LaidOut(w, sd, chunks)
    }

    ghost predicate Prepared()
      reads `sdBlob
    {
      sdBlob.Some? && LaidOut(blobSource.origin.world, sdBlob.value, chunks)
    }

    /** The reader stands where its calls have taken it, and has delivered what they should. */
    ghost predicate OnTrack()
      reads `seekOffset, `calls
    {
      seekOffset == Position(calls) && Faithful(Content(), calls)
    }

    ghost predicate Valid()
      reads `seekOffset, `calls
      reads `currentChunk, `currentChunkHash, `prefetchedChunks, `prefetchStarts, `considered
      reads blobSource`cache, blobSource`stores, blobSource.origin`cache, blobSource.origin`answers
    {
      Sound() && OnTrack()
    }

    /** What fetching, remembering and prefetching keep. */
    ghost predicate Sound()
      reads `currentChunk, `currentChunkHash, `prefetchedChunks, `prefetchStarts, `considered
      reads blobSource`cache, blobSource`stores, blobSource.origin`cache, blobSource.origin`answers
    {
      && blobSource.Valid()
      && MemoAgrees(blobSource.origin.world, currentChunkHash, currentChunk)
      && Prefetch.Disciplined(prefetchedChunks, prefetchStarts, considered, |chunks|, prefetchCount)
    }

    /** No fetch of a content blob can fail. */
    ghost predicate Reliable()
      reads `sdBlob
    {
      sdBlob.Some? &&
      forall i :: 0 <= i < |sdBlob.value.blobInfos| - 1 ==>
        sdBlob.value.blobInfos[i].hash in blobSource.origin.world.reliable
    }

    ghost predicate Fresh()
      reads `seekOffset, `currentChunk
    {
      seekOffset == 0 && currentChunk.None?
    }

    constructor (hash: string, blobSource: HotCache, prefetch: bool, prefetchCount: nat,
                 sourceSize: nat, claimIsStream: bool, ghost sd: SDBlob, ghost chunks: seq<Bytes>)
      requires blobSource.Valid()
      requires blobSource.origin.world.Conforms(Request(hash, AsSD))
      requires blobSource.origin.world.Truth(Request(hash, AsSD)) == Some(SizedSD(sd))
      requires LaidOut(blobSource.origin.world, sd, chunks)
      ensures Valid() && Published() && Fresh() && sdBlob.None? && size == sourceSize
      ensures this.blobSource == blobSource && this.chunks == chunks && this.hash == hash
      ensures this.sourceSize == sourceSize && this.claimIsStream == claimIsStream
      ensures this.prefetch == prefetch && this.prefetchCount == prefetchCount && calls == [] && prefetchStarts == []
    {
      this.hash, this.blobSource, this.prefetch, this.prefetchCount := hash, blobSource, prefetch, prefetchCount;
      this.sourceSize, this.claimIsStream, this.chunks := sourceSize, claimIsStream, chunks;
      size, sdBlob, seekOffset, calls := sourceSize, None, 0, [];
      currentChunkHash, currentChunk := "", None;
      prefetchedChunks, prefetchStarts, considered := map[], [], multiset{};
      new;
      assert PublishedAs(sd);
    }

    /** Fetches the descriptor and settles the size. */
    method PrepareForReading() returns (err: Option<StreamError>)
      requires Valid() && Published()
      modifies this, blobSource, blobSource.origin
      ensures Valid()
      ensures err.None? ==> Prepared() && PublishedAs(sdBlob.value)
      ensures err.None? && old(size) == 0 && sourceSize == 0 ==>
                size == |Content()| || size == FallbackSize(sdBlob.value.blobInfos)
      ensures old(size) > 0 || err.Some? ==> size == old(size)
      ensures err.None? && old(size) == 0 && sourceSize > 0 ==> size == sourceSize
      ensures err.None? && old(size) == 0 && sourceSize == 0 && claimIsStream && Reliable() ==> size == |Content()|
      ensures err.None? && old(size) == 0 && sourceSize == 0 && !claimIsStream ==>
                size == FallbackSize(sdBlob.value.blobInfos)
      ensures hash in blobSource.origin.world.reliable ==> err.None?
      ensures unchanged(`seekOffset) && unchanged(`currentChunk)
    {
      var sd := blobSource.GetSDBlob(hash);
      if sd.None? {
        return Some(Unavailable);
      }
      sdBlob := sd;
      ghost var published :| PublishedAs(published);
      SetSize();
      err := None;
    }

    /** The claim's size if there is one; else the exact size from the last chunk; else the estimate. */
    method SetSize()
      requires Sound() && Prepared()
      modifies `size, blobSource, blobSource.origin
      ensures Sound()
      ensures old(size) > 0 ==> size == old(size)
      ensures old(size) == 0 && sourceSize > 0 ==> size == sourceSize
      ensures old(size) == 0 && sourceSize == 0 ==>
                size == |Content()| || size == FallbackSize(sdBlob.value.blobInfos)
      ensures old(size) == 0 && sourceSize == 0 && claimIsStream && Reliable() ==> size == |Content()|
      ensures old(size) == 0 && sourceSize == 0 && !claimIsStream ==> size == FallbackSize(sdBlob.value.blobInfos)
    {
      if size > 0 {
        return;
      }
      if sourceSize > 0 {
        size := sourceSize;
        return;
      }
      var exact := GetStreamSizeFromLastBlobSize();
      if exact.Ok? {
        size := exact.value;
        return;
      }
      size := EstimateFromLengths(sdBlob.value.blobInfos);
    }

    method GetStreamSizeFromLastBlobSize() returns (r: Result<nat, StreamError>)
      requires Sound() && Prepared()
      modifies blobSource, blobSource.origin
      ensures Sound()
      ensures r.Ok? ==> r.value == |Content()|
      ensures claimIsStream && Reliable() ==> r.Ok?
      ensures !claimIsStream ==> r == Err(NotAStream)
    {
      if !claimIsStream {
        return Err(NotAStream);
      }
      var numChunks := |sdBlob.value.blobInfos| - 1;
      if numChunks <= 0 {
        return Ok(0);
      }
      SizeOfChunking(chunks);
      assert HoldsChunk(blobSource.origin.world, sdBlob.value, numChunks - 1, chunks[numChunks - 1]);
      var last := sdBlob.value.blobInfos[numChunks - 1];
      var lastChunk := blobSource.GetChunk(last.hash, sdBlob.value.key, last.iv);
      if lastChunk.None? {
        return Err(Unavailable);
      }
      r := Ok(Uint64(MAX_CHUNK_SIZE * (numChunks - 1) + |lastChunk.value|));
    }

    method Seek(offset: int, whence: Whence) returns (r: Result<int, StreamError>)
      requires OnTrack()
      modifies `seekOffset, `calls
      ensures OnTrack() && calls == old(calls) + [Sought(size, offset, whence)]
      ensures r == SeekTarget(size, old(seekOffset), offset, whence)
      ensures seekOffset == if r.Ok? then r.value else old(seekOffset)
    {
      ghost var call := Sought(size, offset, whence);
      OneMoreCall(Content(), calls, call, calls + [call]);
      calls := calls + [call];
      if size == 0 {
        return Err(SizeZero);
      } else if Float64.Round(if offset < 0 then -offset else offset) > size {
        return Err(SeekOutOfBounds);
      }
      var newOffset: int;
      match whence {
        case SeekStart => newOffset := offset;
        case SeekCurrent => newOffset := Int64(seekOffset + offset);
        case SeekEnd => newOffset := Int64(Int64(size) - offset);
        case OtherWhence => return Err(InvalidWhence);
      }
      if newOffset < 0 {
        return Err(SeekBeforeStart);
      }
      seekOffset := newOffset;
      r := Ok(newOffset);
    }

    /** Reads into dest[lo..hi] at the current offset and moves past what was read.
        The bytes read are a prefix of ReadBytes, all of it if there is no error or if no content fetch can fail. */
    method Read(dest: array<Byte>, lo: nat, hi: nat) returns (n: nat, err: Option<StreamError>, ghost out: Bytes)
      requires Valid() && Prepared()
      requires lo <= hi <= dest.Length && seekOffset + (hi - lo) <= |Content()|
      modifies `seekOffset, `calls, `currentChunk, `currentChunkHash, `prefetchedChunks, `prefetchStarts, `considered,
               blobSource, blobSource.origin, dest
      ensures Valid()
      ensures seekOffset == old(seekOffset) + n
      ensures out == ReadBytes(Content(), old(seekOffset), hi - lo)
      ensures Wrote(old(dest[..]), lo, hi, out, n, dest[..])
      ensures err.None? || Reliable() ==> n == |out|
      ensures n <= |out| && calls == old(calls) + [Delivered(lo, hi, out[..n])]
      ensures n == 0 ==> err.Some?
      ensures err.Some? && n > 0 && Reliable() ==> old(seekOffset) + (hi - lo) == |Content()|
      ensures err.Some? && err.value.IsPanic() ==> old(currentChunk).None? && old(seekOffset) == |Content()| && lo == hi
    {
      out := ReadBytes(Content(), seekOffset, hi - lo);
      n, err := ReadFromChunks(GetRange(seekOffset, hi - lo), dest, lo, hi, out);
      Advance(lo, hi, out, n);
      if n == 0 && err.None? {
        err := Some(ZeroRead);
      }
    }

    /** Moves past n bytes of what a read into dest[lo..hi] gives. */
    method Advance(ghost lo: nat, ghost hi: nat, ghost out: Bytes, n: nat)
      requires OnTrack() && lo <= hi && seekOffset + (hi - lo) <= |Content()|
      requires out == ReadBytes(Content(), seekOffset, hi - lo) && n <= |out|
      modifies `seekOffset, `calls
      ensures OnTrack() && seekOffset == old(seekOffset) + n
      ensures calls == old(calls) + [Delivered(lo, hi, out[..n])]
    {
      ghost var before, pos := calls, seekOffset;
      seekOffset := seekOffset + n;
      calls := before + [Delivered(lo, hi, out[..n])];
      Delivers(Content(), before, pos, lo, hi, out, n, calls, seekOffset);
    }

    /** After any sequence of seeks and reads, the reader stands at the last accepted seek's target plus the bytes
        delivered since; if no read had room for more than one chunk, these are the file's bytes from there on. */
    lemma PositionIs(k: nat)
      requires OnTrack() && k < |calls| && Accepted(calls, k) && NoSeekSince(calls, k + 1)
      ensures seekOffset == Target(calls, k) + |Output(calls[k + 1..])|
      ensures ReadsFitSince(calls, k + 1) && Target(calls, k) <= |Content()| ==>
                && Target(calls, k) <= seekOffset <= |Content()|
                && Output(calls[k + 1..]) == Content()[Target(calls, k)..seekOffset]
    {
      OutputSince(Content(), calls, k);
    }

    /** Before any seek is accepted, the reader has delivered the file from its beginning. */
    lemma PositionFromStart()
      requires OnTrack() && NoSeekSince(calls, 0)
      ensures seekOffset == |Output(calls)|
      ensures ReadsFitSince(calls, 0) ==> seekOffset <= |Content()| && Output(calls) == Content()[..seekOffset]
    {
      assert calls[..0] == [] && calls[0..] == calls;
      MovedByOutput(calls, 0);
      if ReadsFitSince(calls, 0) {
        OutputIsSlice(Content(), calls, 0, 0);
      }
    }

    /** Of the seeks from the start while the size was below 2^53, exactly those to targets from zero to the size of
        a non-empty file were accepted, and they went there. */
    lemma SeekStartAcceptsIff(k: nat)
      requires OnTrack() && k < |calls| && calls[k].Sought? && calls[k].whence == SeekStart
      requires calls[k].size < Float64.TWO_53
      ensures Accepted(calls, k) <==> calls[k].size > 0 && 0 <= calls[k].offset <= calls[k].size
      ensures Accepted(calls, k) ==> Target(calls, k) == calls[k].offset
    {
      StartTargets(calls[k].size, Position(calls[..k]), calls[k].offset);
    }

    /** Of all seeks while the size was below 2^53, exactly those were accepted whose offset is at most the size of a
        non-empty file, and whose goal (the offset, the position plus it, or the size less it) an int64 position can
        have; they went there. */
    lemma SeekAcceptsIff(k: nat)
      requires OnTrack() && k < |calls| && calls[k].Sought? && calls[k].size < Float64.TWO_53
      requires Position(calls[..k]) < TWO_63
      ensures var call := calls[k];
              var goal := match call.whence
                          case SeekStart => call.offset
                          case SeekCurrent => Position(calls[..k]) + call.offset
                          case _ => call.size - call.offset;
              && (Accepted(calls, k) <==>
                    && call.size > 0 && -call.offset <= call.size && call.offset <= call.size
                    && call.whence != OtherWhence && 0 <= goal < TWO_63)
              && (Accepted(calls, k) ==> Target(calls, k) == goal)
    {
      PositionIsNatural(calls[..k]);
      ReaderRuns.SeekAcceptsIff(calls[k].size, Position(calls[..k]), calls[k].offset, calls[k].whence);
    }

    /** A seek to a followed by one from there by b ends where a seek to a + b does, when all three are accepted. */
    lemma SeeksCompose(k: nat, b: int)
      requires OnTrack() && k + 1 < |calls| && Accepted(calls, k) && Accepted(calls, k + 1)
      requires calls[k].whence == SeekStart && calls[k + 1] == Sought(calls[k].size, b, SeekCurrent)
      requires calls[k].size < Float64.TWO_53 && Position(calls[..k]) < TWO_63
      requires SeekTarget(calls[k].size, Position(calls[..k]), calls[k].offset + b, SeekStart).Ok?
      ensures Target(calls, k + 1) ==
                SeekTarget(calls[k].size, Position(calls[..k]), calls[k].offset + b, SeekStart).value
    {
      PositionIsNatural(calls[..k]);
      assert calls[..k + 1][..k] == calls[..k];
      assert Position(calls[..k + 1]) == Target(calls, k);
      ReaderRuns.SeeksCompose(calls[k].size, Position(calls[..k]), calls[k].offset, b);
    }

    method ReadFromChunks(sr: StreamRange, dest: array<Byte>, lo: nat, hi: nat, ghost out: Bytes)
      returns (read: nat, err: Option<StreamError>)
      requires Sound() && Prepared()
      requires lo <= hi <= dest.Length && seekOffset + (hi - lo) <= |Content()|
      requires sr == GetRange(seekOffset, hi - lo) && out == ReadBytes(Content(), seekOffset, hi - lo)
      modifies `currentChunk, `currentChunkHash, `prefetchedChunks, `prefetchStarts, `considered,
               blobSource, blobSource.origin, dest
      ensures Sound()
      ensures Wrote(old(dest[..]), lo, hi, out, read, dest[..])
      ensures err.None? || Reliable() ==> read == |out|
      ensures err.Some? && err.value.IsPanic() ==> old(currentChunk).None? && seekOffset == |Content()| && lo == hi
      ensures err.Some? && Reliable() ==> seekOffset + (hi - lo) == |Content()|
    {
      TurnsAreTheRead(chunks, sr, seekOffset, lo, hi);
      if sr.lastChunkIdx == |chunks| {
        ReadToTheEnd(chunks, seekOffset, hi - lo);
      }
      if sr.firstChunkIdx == |chunks| {
        ReadAtTheEnd(chunks, seekOffset, hi - lo);
      }
      var i;
      i, read, err := AttemptReadFromChunks(sr, dest, lo, hi, out, Min(hi - lo, MAX_CHUNK_SIZE - sr.firstChunkOffset));
    }

    method AttemptReadFromChunks(sr: StreamRange, dest: array<Byte>, lo: nat, hi: nat, ghost out: Bytes, ghost a: nat)
      returns (i: int, read: nat, err: Option<StreamError>)
      requires Sound() && Prepared() && lo <= hi <= dest.Length
      requires TurnsSplit(chunks, sr, hi - lo, out, a)
      modifies `currentChunk, `currentChunkHash, `prefetchedChunks, `prefetchStarts, `considered,
               blobSource, blobSource.origin, dest
      ensures Sound()
      ensures Wrote(old(dest[..]), lo, hi, out, read, dest[..])
      ensures err.None? || Reliable() ==> read == |out|
      ensures err.Some? && err.value.IsPanic() ==> old(currentChunk).None? && sr.firstChunkIdx == |chunks|
      ensures err.Some? && Reliable() ==> sr.lastChunkIdx == |chunks|
    {
      ghost var before, now := dest[..], dest[..];
      var at := lo;
      i, err := sr.firstChunkIdx, None;
      while i < sr.lastChunkIdx + 1
        invariant Sound()
        invariant sr.firstChunkIdx <= i <= sr.lastChunkIdx + 1 && lo <= at
        invariant err.None? && dest[..] == now && LoopState(chunks, sr, before, lo, hi, i) == (at, now)
        invariant old(currentChunk).Some? || sr.firstChunkIdx < i < sr.lastChunkIdx + 1 ==> currentChunk.Some?
        decreases sr.lastChunkIdx - i
      {
        LoopTurnFits(chunks, sr, before, lo, hi, out, a, i, at, now);
        var (offset, readLen) := sr.ByteRangeForChunk(i);
        var n;
        ghost var b;
        n, err, b := ReadOneChunk(i, offset, readLen, dest, at, hi);
        if err.Some? {
          break;
        }
        ghost var turn, from, after := i, at, dest[..];
        at := at + n;
        i := i + 1;
        TurnCopied(chunks, sr, before, lo, hi, turn, from, now, offset, readLen, b, n, i, at, after);
        now := after;
      }
      read := at - lo;
      LoopWrote(chunks, sr, before, lo, hi, out, a, i, at, now, read);
    }

    /** One turn of the read loop: the slice of chunk i that it asks for, cut to the room left, at dest[at..]. */
    method ReadOneChunk(i: int, offset: int, readLen: int, dest: array<Byte>, at: nat, hi: nat)
      returns (n: nat, err: Option<StreamError>, ghost b: Bytes)
      requires Sound() && Prepared() && at <= hi <= dest.Length
      requires TurnFits(chunks, i, offset, readLen, hi - at)
      modifies `currentChunk, `currentChunkHash, `prefetchedChunks, `prefetchStarts, `considered,
               blobSource, blobSource.origin, dest
      ensures Sound()
      ensures err.Some? ==> n == 0 && dest[..] == old(dest[..])
      ensures err.None? ==>
                && (i < |chunks| ==> b == chunks[i] && currentChunk.Some?)
                && offset + n <= |b| && n == Min(hi - at, Min(readLen, |b| - offset))
                && dest[..] == Overwrite(old(dest[..]), at, b[offset..offset + n])
      ensures err.Some? && (err.value.IsPanic() || Reliable()) ==> i == |chunks|
      ensures err.Some? && err.value.IsPanic() ==> old(currentChunk).None?
      ensures old(currentChunk).Some? ==> currentChunk.Some?
    {
      var chunk := GetChunk(i);
      if chunk.Err? {
        return 0, Some(chunk.error), [];
      }
      n := ReadChunk(chunk.value, offset, readLen, dest, at, hi);
      err, b := None, chunk.value;
    }

    /** The memo, with this hash, is for blob i. */
    ghost predicate Remembers(i: int, memoHash: string)
      reads `sdBlob
    {
      sdBlob.Some? && 0 <= i < |sdBlob.value.blobInfos| && sdBlob.value.blobInfos[i].hash == memoHash
    }

    /** GetChunk(i) is exactly chunk i when it succeeds; the memo then holds it. */
    method GetChunk(chunkIdx: int) returns (r: Result<Bytes, StreamError>)
      requires Sound() && Prepared() && 0 <= chunkIdx
      modifies `currentChunk, `currentChunkHash, `prefetchedChunks, `prefetchStarts, `considered,
               blobSource, blobSource.origin
      ensures Sound()
      ensures chunkIdx > |chunks| + 1 <==> r == Err(IndexOutOfBounds)
      ensures chunkIdx == |chunks| + 1 <==> r == Err(IndexPanic)
      ensures chunkIdx == |chunks| && old(currentChunk).None? <==> r == Err(NilMemoPanic)
      ensures chunkIdx < |chunks| && r.Ok? ==>
                && r.value == chunks[chunkIdx]
                && currentChunk == Some(r.value) && currentChunkHash == sdBlob.value.blobInfos[chunkIdx].hash
      ensures chunkIdx < |chunks| && Reliable() ==> r.Ok?
      ensures old(currentChunk).Some? ==> currentChunk.Some?
      ensures r.Err? || Remembers(chunkIdx, old(currentChunkHash)) ==> prefetchStarts == old(prefetchStarts)
      ensures prefetchStarts == old(prefetchStarts)
              || (&& prefetch && chunkIdx + 1 !in old(prefetchStarts)
                  && prefetchStarts == old(prefetchStarts) + [chunkIdx + 1])
      ensures prefetch && chunkIdx < |chunks| && r.Ok? && old(currentChunkHash) != currentChunkHash ==>
                chunkIdx + 1 in prefetchStarts
      ensures Remembers(chunkIdx, old(currentChunkHash)) ==> unchanged(blobSource) && unchanged(blobSource.origin)
      ensures chunkIdx <= |chunks| && !Remembers(chunkIdx, old(currentChunkHash)) ==>
                old(blobSource.lookups) + [sdBlob.value.blobInfos[chunkIdx].hash] <= blobSource.lookups
    {
      var sd := sdBlob.value;
      if chunkIdx > |sd.blobInfos| {
        return Err(IndexOutOfBounds);
      }
      if chunkIdx == |sd.blobInfos| {
        return Err(IndexPanic);
      }
      var bi := sd.blobInfos[chunkIdx];
      assert chunkIdx < |chunks| ==> HoldsChunk(blobSource.origin.world, sd, chunkIdx, chunks[chunkIdx]);
      SameTruth(blobSource.origin.world, Request(bi.hash, AsChunk(sd.key, bi.iv)));
      if currentChunkHash == bi.hash {
        match currentChunk {
          case Some(bytes) => return Ok(bytes);
          case None => return Err(NilMemoPanic);
        }
      }
      r := FetchChunk(chunkIdx, chunkIdx + 1, bi, sd.key);
    }

    /** GetChunk past the memo. */
    method FetchChunk(chunkIdx: int, chunkToPrefetch: int, bi: BlobInfo, key: Bytes)
      returns (r: Result<Bytes, StreamError>)
      requires Sound() && Prepared() && 0 <= chunkIdx <= |chunks|
      requires chunkToPrefetch == chunkIdx + 1
      requires bi == sdBlob.value.blobInfos[chunkIdx] && key == sdBlob.value.key && bi.hash != currentChunkHash
      modifies `currentChunk, `currentChunkHash, `prefetchedChunks, `prefetchStarts, `considered,
               blobSource, blobSource.origin
      ensures Sound()
      ensures r.Err? ==> r.error == Unavailable && prefetchStarts == old(prefetchStarts)
      ensures chunkIdx < |chunks| && r.Ok? ==>
                r.value == chunks[chunkIdx] && currentChunk == Some(r.value) && currentChunkHash == bi.hash
      ensures chunkIdx < |chunks| && Reliable() ==> r.Ok?
      ensures old(currentChunk).Some? ==> currentChunk.Some?
      ensures prefetchStarts == old(prefetchStarts)
              || (&& prefetch && chunkToPrefetch !in old(prefetchStarts)
                  && prefetchStarts == old(prefetchStarts) + [chunkToPrefetch])
      ensures prefetch && chunkIdx < |chunks| && r.Ok? ==> chunkToPrefetch in prefetchStarts
      ensures old(blobSource.lookups) + [bi.hash] <= blobSource.lookups
    {
      assert chunkIdx < |chunks| ==> HoldsChunk(blobSource.origin.world, sdBlob.value, chunkIdx, chunks[chunkIdx]);
      SameTruth(blobSource.origin.world, Request(bi.hash, AsChunk(key, bi.iv)));
      var chunk := blobSource.GetChunk(bi.hash, key, bi.iv);
      if chunk.None? {
        return Err(Unavailable);
      }
      // A chunk without bytes may come back as a nil slice, which is returned without being remembered.
      var isNil: bool := *;
      if chunk.value == [] && isNil {
        return Ok([]);
      }
      ghost var asked := blobSource.lookups;
      StartPrefetch(chunkToPrefetch);
      assert asked <= blobSource.lookups;
      currentChunk := Some(chunk.value);
      currentChunkHash := bi.hash;
      r := Ok(chunk.value);
    }

    /** Starts a prefetch at a chunk unless one was started there before.  It races with the reader; here it
        takes its steps at once, and HotCache.Interfere stands for every other schedule. */
    method StartPrefetch(chunkToPrefetch: int)
      requires Sound() && Prepared() && chunkToPrefetch >= 1
      modifies `prefetchedChunks, `prefetchStarts, `considered, blobSource, blobSource.origin
      ensures Sound()
      ensures prefetchStarts ==
                if prefetch && chunkToPrefetch !in old(prefetchStarts) then old(prefetchStarts) + [chunkToPrefetch]
                else old(prefetchStarts)
      ensures Reliable() && prefetchStarts != old(prefetchStarts) ==>
                Prefetch.Span(old(considered), considered, chunkToPrefetch,
                              Min(chunkToPrefetch + prefetchCount, |chunks|))
      ensures old(blobSource.lookups) <= blobSource.lookups
    {
      if prefetch && chunkToPrefetch !in prefetchedChunks {
        ghost var marked, before := prefetchedChunks, considered;
        prefetchedChunks := prefetchedChunks[chunkToPrefetch := true];
        ghost var end := PrefetchChunk(chunkToPrefetch);
        Prefetch.StartKeepsDiscipline(marked, prefetchStarts, before, considered, |chunks|, prefetchCount,
                                      chunkToPrefetch, end);
        prefetchStarts := prefetchStarts + [chunkToPrefetch];
      }
    }

    /** Considers the next few content blobs, never the terminator, each once. */
    method PrefetchChunk(chunkIdx: int) returns (ghost end: int)
      requires blobSource.Valid() && Prepared() && chunkIdx >= 1
      modifies `considered, blobSource, blobSource.origin
      ensures blobSource.Valid()
      ensures Prefetch.Span(old(considered), considered, chunkIdx, end)
      ensures end == chunkIdx || end <= Min(chunkIdx + prefetchCount, |chunks|)
      ensures Reliable() ==> end == Max(chunkIdx, Min(chunkIdx + prefetchCount, |chunks|))
      ensures old(blobSource.lookups) <= blobSource.lookups
    {
      end := chunkIdx;
      var sd := sdBlob.value;
      var prefetchLen: int := prefetchCount;
      var chunksLeft := |sd.blobInfos| - chunkIdx - 1;
      if chunksLeft < prefetchLen {
        prefetchLen := chunksLeft;
      }
      if prefetchLen <= 0 {
        return;
      }
      for k := chunkIdx to chunkIdx + prefetchLen
        modifies `considered, blobSource, blobSource.origin
        invariant blobSource.Valid()
        invariant end == k && Prefetch.Span(old(considered), considered, chunkIdx, end)
        invariant old(blobSource.lookups) <= blobSource.lookups
      {
        ghost var now := considered;
        considered := considered + multiset{k};
        end := k + 1;
        Prefetch.SpanGrows(old(considered), now, considered, chunkIdx, k, end);
        var loaded := PrefetchOne(sd.blobInfos[k], sd.key, k);
        if !loaded {
          return;
        }
      }
    }

    /** One blob of a prefetch: left alone if the hot cache has it, else asked of the hot cache. */
    method PrefetchOne(bi: BlobInfo, key: Bytes, ghost k: nat) returns (loaded: bool)
      requires blobSource.Valid() && Prepared() && k < |chunks|
      requires key == sdBlob.value.key && bi == sdBlob.value.blobInfos[k]
      modifies blobSource, blobSource.origin
      ensures blobSource.Valid()
      ensures Reliable() ==> loaded
      ensures bi.hash in old(blobSource.cache) ==> loaded && unchanged(blobSource) && unchanged(blobSource.origin)
      ensures bi.hash !in old(blobSource.cache) ==> blobSource.lookups == old(blobSource.lookups) + [bi.hash]
    {
      assert HoldsChunk(blobSource.origin.world, sdBlob.value, k, chunks[k]);
      var has := blobSource.IsCached(bi.hash);
      if has {
        return true;
      }
      var chunk := blobSource.GetChunk(bi.hash, key, bi.iv);
      loaded := chunk.Some?;
    }
  }
}
