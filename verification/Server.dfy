/** player/server.go: ServeStream, from a Range header to the bytes of the response. */
module Server {
  import opened Common
  import opened Chunk
  import opened Content
  import opened Layout
  import Origin
  import opened ReaderRuns
  import opened Stream
  import opened GoStrings
  import opened RangeHeader
  import RangeMeaning
  import Size

  /** Why a request is refused with 416, and the text that is sent. */
  datatype Refusal = BadRange(range: RangeError) | BadSeek(seek: StreamError) | BadFetch(message: string)
  {
    function Text(): string
    {
      (match this
       case BadRange(InvalidRange) => "invalid range"
       case BadRange(NoOverlap) => "invalid range: failed to overlap"
       case BadSeek(SizeZero) => "stream size is zero"
       case BadSeek(SeekOutOfBounds) => "seeking out of bounds"
       case BadSeek(_) => "seeking before the beginning of file"
       case BadFetch(message) => message) + "\n"
    }
  }

  /** Crashed stands for a panic in the handler; the router's recovery then answers 500.
      Refused is a 416, whose body is the refusal's text. */
  datatype Response =
    | Crashed
    | Refused(contentRange: Option<string>, reason: Refusal)
    | Reply(status: int, contentRange: Option<string>, acceptRanges: bool, contentLength: Option<string>, body: Bytes)

  /** What a Range header asks for, before anything is fetched. */
  datatype Plan = Refuse(contentRange: Option<string>, error: RangeError) | Whole | Partial(range: HttpRange)

  /** The lengths of all ranges together. */
  function TotalLength(ranges: seq<HttpRange>): int
  {
    if ranges == [] then 0 else TotalLength(ranges[..|ranges| - 1]) + ranges[|ranges| - 1].length
  }

  function PlanFor(header: string, size: int): Plan { PlanOf(RangesOf(header, size), size) }

  function PlanOf(parsed: Result<seq<HttpRange>, RangeError>, size: int): Plan
  {
    match parsed
    case Err(NoOverlap) => Refuse(Some("bytes */" + FormatInt(size)), NoOverlap)
    case Err(InvalidRange) => Refuse(None, InvalidRange)
    case Ok(ranges) => if Int64(TotalLength(ranges)) <= size && |ranges| == 1 then Partial(ranges[0]) else Whole
  }

  /** Wrapping after every addition is wrapping once at the end. */
  lemma Int64OfSum(sum: int, length: int)
    ensures Int64(Int64(sum) + length) == Int64(sum + length)
  {
    var q, q' := (sum + TWO_63) / TWO_64, (Int64(sum) + length + TWO_63) / TWO_64;
    assert sum == Int64(sum) + q * TWO_64;
    assert Int64(sum) + length == Int64(Int64(sum) + length) + q' * TWO_64;
    Int64IsUnique(sum + length, Int64(Int64(sum) + length), q + q');
  }

  lemma Int64IsUnique(x: int, r: int, q: int)
    requires -TWO_63 <= r < TWO_63 && x == r + q * TWO_64
    ensures Int64(x) == r
  {
  }

  /** The sum of the lengths, wrapped to int64; it is the sum itself whenever that fits. */
  method SumRangesSize(ranges: seq<HttpRange>) returns (size: int)
    ensures size == Int64(TotalLength(ranges))
    ensures -TWO_63 <= TotalLength(ranges) < TWO_63 ==> size == TotalLength(ranges)
  {
    size := 0;
    for k := 0 to |ranges|
      invariant size == Int64(TotalLength(ranges[..k]))
    {
      assert ranges[..k + 1][..k] == ranges[..k];
      Int64OfSum(TotalLength(ranges[..k]), ranges[k].length);
      size := Int64(size + ranges[k].length);
    }
    assert ranges[..|ranges|] == ranges;
  }

  /** A 206 is planned exactly when the header yields one range, and it is not longer than the file. */
  lemma PlanIsPartialIff(parsed: Result<seq<HttpRange>, RangeError>, size: int, r: HttpRange)
    ensures PlanOf(parsed, size) == Partial(r) <==> parsed == Ok([r]) && Int64(r.length) <= size
  {
    if parsed.Ok? {
      var ranges := parsed.value;
      if |ranges| == 1 {
        assert ranges[..0] == [] && ranges == [ranges[0]];
        assert TotalLength(ranges) == TotalLength([]) + ranges[0].length;
      }
    }
  }

  /** io.CopyN(w, stream, n): buffers of at most 32 KiB, never asking for more than is left. */
  method CopyN(stream: Stream, n: int) returns (out: Bytes, err: Option<StreamError>)
    requires stream.Valid() && stream.Prepared()
    requires n > 0 ==> stream.seekOffset + n <= |stream.Content()|
    modifies stream`seekOffset, stream`calls, stream`currentChunk, stream`currentChunkHash, stream`prefetchedChunks,
             stream`prefetchStarts, stream`considered, stream.blobSource, stream.blobSource.origin
    ensures stream.Valid()
    ensures n <= 0 ==> out == []
    ensures stream.seekOffset == old(stream.seekOffset) + |out|
    ensures n > 0 ==> |out| <= n && out == stream.Content()[old(stream.seekOffset)..stream.seekOffset]
    ensures n > 0 && (err.None? || stream.Reliable()) ==> |out| == n
    ensures err.Some? ==> !err.value.IsPanic()
  {
    out, err := [], None;
    if n <= 0 {
      return;
    }
    var buf := new Byte[Min(32768, n)](_ => 0);
    var left := n;
    ghost var content, from := stream.Content(), stream.seekOffset;
    while left > 0
      invariant stream.Valid()
      invariant 0 <= left && err.None? && stream.seekOffset == from + n - left
      invariant out == content[from..stream.seekOffset]
    {
      ghost var pos := stream.seekOffset;
      var piece;
      piece, err := CopyPiece(stream, buf, Min(buf.Length, left));
      SlicesJoin(content, from, pos, stream.seekOffset);
      out := out + piece;
      left := left - |piece|;
      if err.Some? {
        break;
      }
    }
  }

  /** One read of the copy loop. */
  method CopyPiece(stream: Stream, buf: array<Byte>, room: nat) returns (piece: Bytes, err: Option<StreamError>)
    requires stream.Valid() && stream.Prepared()
    requires 0 < room <= buf.Length <= 32768 && stream.seekOffset + room <= |stream.Content()|
    modifies buf
    modifies stream`seekOffset, stream`calls, stream`currentChunk, stream`currentChunkHash, stream`prefetchedChunks,
             stream`prefetchStarts, stream`considered, stream.blobSource, stream.blobSource.origin
    ensures stream.Valid()
    ensures stream.seekOffset == old(stream.seekOffset) + |piece| && |piece| <= room
    ensures piece == stream.Content()[old(stream.seekOffset)..stream.seekOffset]
    ensures piece == [] ==> err.Some?
    ensures err.None? || stream.Reliable() ==> |piece| == room
    ensures err.Some? && stream.Reliable() ==> stream.seekOffset == |stream.Content()|
    ensures err.Some? ==> !err.value.IsPanic()
  {
    var lo, hi := 0, room;
    ghost var before, pos := buf[..], stream.seekOffset;
    var n;
    ghost var out;
    n, err, out := stream.Read(buf, lo, hi);
    FullRead(stream.Content(), pos, lo, hi, before, out, n, buf[..], stream.seekOffset);
    piece := buf[..n];
  }

  /** A read of at most 32 KiB fills its buffer with the file's bytes. */
  lemma FullRead(content: Bytes, pos: nat, lo: nat, hi: nat, before: Bytes, out: Bytes, n: nat, after: Bytes,
                 next: nat)
    requires lo == 0 && hi <= 32768 && pos + (hi - lo) <= |content|
    requires out == ReadBytes(content, pos, hi - lo) && Wrote(before, lo, hi, out, n, after)
    requires next == pos + n
    ensures |out| == hi
    ensures n <= hi && |after| == |before| && after[..n] == content[pos..next]
  {
    ReadIsExactIff(content, pos, hi - lo);
  }

  /** Where a served body comes from, and what may go wrong on the way. */
  datatype Source = Source(content: Bytes, size: nat, memoEmpty: bool, reliable: bool)
  {
    /** Seek takes the reader there. */
    predicate Reachable(start: int) { SeekTarget(size, 0, start, SeekStart).Ok? }

    /** The probe before a partial response asks for the terminator: at the end of a file that ends on a chunk
        boundary. */
    predicate ProbesTerminator(start: int) { start == |content| && |content| % MAX_CHUNK_SIZE == 0 }

    /** The probe dereferences the empty memo. */
    predicate ProbesNilMemo(start: int) { memoEmpty && ProbesTerminator(start) }
  }

  function LengthHeader(encoded: bool, n: int): Option<string> { if encoded then None else Some(FormatInt(n)) }

  /** The body is a prefix of the slice [from, from + n); all of it if no content fetch can fail. */
  ghost predicate Sends(src: Source, body: Bytes, from: nat, n: nat)
  {
    && from + n <= |src.content|
    && body <= src.content[from..from + n]
    && (src.reliable ==> |body| == n)
  }

  /** What the server may answer to a GET (or HEAD) under a plan. */
  ghost predicate Answers(resp: Response, plan: Plan, src: Source, head: bool, encoded: bool)
  {
    match plan
    case Refuse(contentRange, error) => resp == Refused(contentRange, BadRange(error))
    case Whole =>
      && resp.Reply? && resp == Reply(200, None, true, LengthHeader(encoded, src.size), resp.body)
      && (if head then resp.body == [] else Sends(src, resp.body, 0, src.size))
    case Partial(r) => AnswersRange(resp, r, src, head, encoded)
  }

  ghost predicate AnswersRange(resp: Response, r: HttpRange, src: Source, head: bool, encoded: bool)
  {
    AnswersSought(resp, r, src, head, encoded, SeekTarget(src.size, 0, r.start, SeekStart))
  }

  ghost predicate AnswersSought(resp: Response, r: HttpRange, src: Source, head: bool, encoded: bool,
                                sought: Result<int, StreamError>)
  {
    match sought
    case Err(error) => resp == Refused(None, BadSeek(error))
    case Ok(_) =>
      if head then
        resp == Reply(206, Some(r.ContentRange(src.size)), true, LengthHeader(encoded, r.length), [])
      else if r.Inside(src.size) then AnswersPartial(resp, r, src, encoded)
      else
        resp.Reply? ==>
          resp == Reply(206, Some(r.ContentRange(src.size)), true, LengthHeader(encoded, r.length), [])
  }

  /** A crash if the probe meets the empty memo; a refusal only if a fetch can fail; else the bytes. */
  ghost predicate AnswersPartial(resp: Response, r: HttpRange, src: Source, encoded: bool)
    requires r.Inside(src.size)
  {
    && (resp.Crashed? <==> src.ProbesNilMemo(r.start))
    && (resp.Refused? ==>
          resp.contentRange.None? && resp.reason.BadFetch? && (!src.reliable || src.ProbesTerminator(r.start)))
    && (resp.Reply? ==>
          && resp == Reply(206, Some(r.ContentRange(src.size)), true, LengthHeader(encoded, r.length), resp.body)
          && Sends(src, resp.body, r.start, r.length))
  }

  /** ServeStream on a prepared stream at its beginning, for every header.  A size of 2^63 or more turns negative:
      then no range is looked at and nothing is sent. */
  method ServeStream(header: string, head: bool, encoded: bool, stream: Stream) returns (resp: Response)
    requires stream.Valid() && stream.Prepared() && stream.seekOffset == 0
    requires stream.size < TWO_64 && (stream.size < TWO_63 ==> stream.size <= |stream.Content()|)
    modifies stream`seekOffset, stream`calls, stream`currentChunk, stream`currentChunkHash, stream`prefetchedChunks,
             stream`prefetchStarts, stream`considered, stream.blobSource, stream.blobSource.origin
    ensures stream.Valid()
    ensures stream.size < TWO_63 ==>
              Answers(resp, PlanFor(header, stream.size),
                      SourceOf(stream.Content(), stream.size, old(stream.currentChunk), stream.Reliable()),
                      head, encoded)
    ensures stream.size >= TWO_63 ==> resp == Reply(200, None, false, None, [])
  {
    var size := Int64(stream.size);
    if size < 0 {
      var body: Bytes := [];
      if !head {
        var err;
        body, err := CopyN(stream, size);
      }
      return Reply(200, None, false, None, body);
    }
    var plan := PlanHeader(header, size);
    resp := ServePlan(plan, head, encoded, stream);
  }

  method ServePlan(plan: Plan, head: bool, encoded: bool, stream: Stream) returns (resp: Response)
    requires stream.Valid() && stream.Prepared() && stream.seekOffset == 0
    requires stream.size <= |stream.Content()|
    requires plan.Partial? && plan.range.length >= 0 ==> plan.range.Inside(stream.size)
    modifies stream`seekOffset, stream`calls, stream`currentChunk, stream`currentChunkHash, stream`prefetchedChunks,
             stream`prefetchStarts, stream`considered, stream.blobSource, stream.blobSource.origin
    ensures stream.Valid()
    ensures Answers(resp, plan, SourceOf(stream.Content(), stream.size, old(stream.currentChunk), stream.Reliable()),
                    head, encoded)
  {
    match plan {
      case Refuse(contentRange, error) => resp := Refused(contentRange, BadRange(error));
      case Whole => resp := ServeWhole(head, encoded, stream);
      case Partial(range) => resp := ServePartial(range, head, encoded, stream);
    }
  }

  /** The part of ServeStream that looks at the header. */
  method PlanHeader(header: string, size: int) returns (plan: Plan)
    requires 0 <= size < TWO_63
    ensures plan == PlanFor(header, size)
    ensures plan.Partial? && plan.range.length >= 0 ==> plan.range.Inside(size)
  {
    var parsed := ParseRange(header, size);
    plan := PlanParsed(parsed, size);
    if plan.Partial? {
      PlanIsPartialIff(parsed, size, plan.range);
      RangeIsServable(header, size, plan.range);
    }
  }

  method PlanParsed(parsed: Result<seq<HttpRange>, RangeError>, size: int) returns (plan: Plan)
    ensures plan == PlanOf(parsed, size)
  {
    if parsed.Err? {
      return Refuse(if parsed.error == NoOverlap then Some("bytes */" + FormatInt(size)) else None, parsed.error);
    }
    var ranges := parsed.value;
    var total := SumRangesSize(ranges);
    if total > size {
      ranges := [];
    }
    plan := if |ranges| == 1 then Partial(ranges[0]) else Whole;
  }

  lemma RangeIsServable(header: string, size: int, r: HttpRange)
    requires 0 <= size < TWO_63 && RangesOf(header, size) == Ok([r])
    ensures r.length >= 0 ==> r.Inside(size)
  {
    if r.length >= 0 {
      assert r in RangesOf(header, size).value;
      RangeMeaning.AnyRangeIsInside(header, size, r);
    }
  }

  ghost function SourceOf(content: Bytes, size: nat, memo: Option<Bytes>, reliable: bool): Source
  {
    Source(content, size, memo.None?, reliable)
  }

  method ServeWhole(head: bool, encoded: bool, stream: Stream) returns (resp: Response)
    requires stream.Valid() && stream.Prepared() && stream.seekOffset == 0
    requires stream.size <= |stream.Content()|
    modifies stream`seekOffset, stream`calls, stream`currentChunk, stream`currentChunkHash, stream`prefetchedChunks,
             stream`prefetchStarts, stream`considered, stream.blobSource, stream.blobSource.origin
    ensures stream.Valid()
    ensures Answers(resp, Whole, SourceOf(stream.Content(), stream.size, old(stream.currentChunk), stream.Reliable()),
                    head, encoded)
  {
    var body: Bytes := [];
    if !head {
      var err;
      body, err := CopyN(stream, stream.size);
      CopiedIsSent(stream.Content(), 0, stream.size, body, stream.seekOffset, stream.Reliable());
    }
    resp := Reply(200, None, true, LengthHeader(encoded, stream.size), body);
  }

  /** One range: seek, probe the first chunk, then copy. */
  method ServePartial(ra: HttpRange, head: bool, encoded: bool, stream: Stream) returns (resp: Response)
    requires stream.Valid() && stream.Prepared() && stream.seekOffset == 0
    requires stream.size <= |stream.Content()| && (ra.length >= 0 ==> ra.Inside(stream.size))
    modifies stream`seekOffset, stream`calls, stream`currentChunk, stream`currentChunkHash, stream`prefetchedChunks,
             stream`prefetchStarts, stream`considered, stream.blobSource, stream.blobSource.origin
    ensures stream.Valid()
    ensures Answers(resp, Partial(ra),
                    SourceOf(stream.Content(), stream.size, old(stream.currentChunk), stream.Reliable()), head, encoded)
  {
    var sought := stream.Seek(ra.start, SeekStart);
    if sought.Err? {
      return Refused(None, BadSeek(sought.error));
    }
    if head {
      return Reply(206, Some(ra.ContentRange(stream.size)), true, LengthHeader(encoded, ra.length), []);
    }
    var err := Probe(ra.start, stream);
    if err.Some? {
      var message: string := *;
      return if err.value.IsPanic() then Crashed else Refused(None, BadFetch(message));
    }
    resp := SendRange(ra, encoded, stream);
  }

  /** The reply and the copy of a GET for one range, on a reader that was moved there. */
  method SendRange(ra: HttpRange, encoded: bool, stream: Stream) returns (resp: Response)
    requires stream.Valid() && stream.Prepared() && stream.seekOffset == ra.start
    requires stream.size <= |stream.Content()| && (ra.length >= 0 ==> ra.Inside(stream.size))
    modifies stream`seekOffset, stream`calls, stream`currentChunk, stream`currentChunkHash, stream`prefetchedChunks,
             stream`prefetchStarts, stream`considered, stream.blobSource, stream.blobSource.origin
    ensures stream.Valid()
    ensures resp.Reply? && resp == Reply(206, Some(ra.ContentRange(stream.size)), true,
                                         LengthHeader(encoded, ra.length), resp.body)
    ensures ra.length < 0 ==> resp.body == []
    ensures ra.length >= 0 ==> forall size, memoEmpty ::
              Sends(Source(stream.Content(), size, memoEmpty, stream.Reliable()), resp.body, ra.start, ra.length)
  {
    var body, err := CopyN(stream, ra.length);
    resp := Reply(206, Some(ra.ContentRange(stream.size)), true, LengthHeader(encoded, ra.length), body);
    if ra.length >= 0 {
      CopiedIsSent(stream.Content(), ra.start, ra.length, body, stream.seekOffset, stream.Reliable());
    }
  }

  lemma CopiedIsSent(content: Bytes, from: nat, n: nat, body: Bytes, pos: nat, reliable: bool)
    requires from + n <= |content|
    requires n == 0 ==> body == []
    requires n > 0 ==>
               from <= pos <= |content| && |body| <= n && body == content[from..pos] && (reliable ==> |body| == n)
    ensures forall size, memoEmpty :: Sends(Source(content, size, memoEmpty, reliable), body, from, n)
  {
    if n > 0 {
      assert body == content[from..from + n][..|body|];
    }
  }

  /** Fetches the chunk that a range starts in. */
  method Probe(start: nat, stream: Stream) returns (err: Option<StreamError>)
    requires stream.Sound() && stream.Prepared()
    modifies stream`currentChunk, stream`currentChunkHash, stream`prefetchedChunks,
             stream`prefetchStarts, stream`considered, stream.blobSource, stream.blobSource.origin
    ensures stream.Sound()
    ensures start <= |stream.Content()| ==>
              (err.Some? && err.value.IsPanic() <==>
                 old(stream.currentChunk).None? && start == |stream.Content()| && start % MAX_CHUNK_SIZE == 0)
    ensures start <= |stream.Content()| && stream.Reliable() ==>
              err.None? || (start == |stream.Content()| && start % MAX_CHUNK_SIZE == 0)
  {
    if start <= |stream.Content()| {
      ProbeIndex(stream.chunks, start);
    }
    var chunk := stream.GetChunk(GetRange(start, 1).firstChunkIdx);
    err := if chunk.Err? then Some(chunk.error) else None;
  }

  /** The probe asks for a content chunk, or for the terminator at the end of a file that ends on a chunk boundary. */
  lemma ProbeIndex(chunks: seq<Bytes>, start: nat)
    requires IsChunking(chunks) && start <= |Flatten(chunks)|
    ensures var i := GetRange(start, 1).firstChunkIdx;
            && 0 <= i <= |chunks|
            && (i == |chunks| <==> start == |Flatten(chunks)| && |Flatten(chunks)| % MAX_CHUNK_SIZE == 0)
  {
    if chunks != [] {
      SizeOfChunking(chunks);
    }
  }

  /** A settled size does not exceed the file, or else it wrapped around because the file is tiny. */
  lemma SizeFits(infos: seq<Origin.BlobInfo>, chunks: seq<Bytes>, size: nat)
    requires IsChunking(chunks) && |Flatten(chunks)| < TWO_63 && Size.PaddedLengths(infos, chunks)
    requires size <= |Flatten(chunks)| || size == Size.FallbackSize(infos)
    ensures size < TWO_64
    ensures size < TWO_63 ==> size <= |Flatten(chunks)|
    ensures size >= TWO_63 ==> |Flatten(chunks)| < 16
  {
    if chunks != [] {
      Size.FallbackStaysInsideIff(infos, chunks);
    } else {
      Size.LengthSumOfNothing(infos);
    }
  }

  /** The handler's last steps: fetch the descriptor, settle the size, serve.  Without a size in the claim, the size is
      the file's or the estimate from blob lengths; either way every range served addresses existing bytes. */
  method Play(header: string, head: bool, encoded: bool, stream: Stream)
    returns (err: Option<StreamError>, resp: Response)
    requires stream.Valid() && stream.Published() && stream.Fresh() && stream.size == stream.sourceSize
    requires stream.sourceSize <= |stream.Content()|
    requires forall sd :: stream.PublishedAs(sd) ==> Size.PaddedLengths(sd.blobInfos, stream.chunks)
    modifies stream, stream.blobSource, stream.blobSource.origin
    ensures stream.Valid()
    ensures stream.hash in stream.blobSource.origin.world.reliable ==> err.None?
    ensures err.None? ==>
              && stream.Prepared() && stream.PublishedAs(stream.sdBlob.value)
              && (stream.sourceSize > 0 ==> stream.size == stream.sourceSize)
              && (stream.sourceSize == 0 && stream.claimIsStream && stream.Reliable() ==>
                    stream.size == |stream.Content()|)
              && (stream.sourceSize == 0 && !stream.claimIsStream ==>
                    stream.size == Size.FallbackSize(stream.sdBlob.value.blobInfos))
              && (stream.size < TWO_63 ==>
                    && stream.size <= |stream.Content()|
                    && Answers(resp, PlanFor(header, stream.size),
                               SourceOf(stream.Content(), stream.size, None, stream.Reliable()), head, encoded))
              && (stream.size >= TWO_63 ==> resp == Reply(200, None, false, None, []) && |stream.Content()| < 16)
  {
    resp := Crashed;
    err := stream.PrepareForReading();
    if err.Some? {
      return;
    }
    SizeFits(stream.sdBlob.value.blobInfos, stream.chunks, stream.size);
    resp := ServeStream(header, head, encoded, stream);
  }
}
