/** End to end: from the text of a Range header to the bytes of the body. */
module Delivery {
  import opened Common
  import opened Chunk
  import opened Content
  import opened Layout
  import opened Origin
  import opened Caches
  import opened GoStrings
  import opened RangeHeader
  import opened RangeMeaning
  import opened HeaderText
  import opened ReaderRuns
  import opened Stream
  import opened Server
  import Float64
  import Size

  /** A source whose announced size is the file's, and whose content blobs can all be fetched. */
  ghost predicate Complete(src: Source)
  {
    src.size == |src.content| && src.size < TWO_63 && src.reliable
  }

  /** Where the bytes that a spec selects begin. */
  function StartOf(spec: Spec, size: int): int
    requires spec.Grammatical()
  {
    match spec
    case FromTo(first, _) => DigitsValue(first)
    case From(first) => DigitsValue(first)
    case Suffix(length) => size - Min(DigitsValue(length), size)
  }

  lemma CoversStarts(r: HttpRange, spec: Spec, size: int)
    requires spec.Grammatical() && Covers(r, spec, size) && spec.Acceptable(size) && !spec.StartsOutside(size)
    ensures r.start == StartOf(spec, size)
    ensures r.length == 0 <==> forall p :: !spec.Selects(size, p)
  {
    var start := StartOf(spec, size);
    if r.length > 0 {
      assert spec.Selects(size, r.start);
    }
    if start < size {
      assert spec.Selects(size, start);
    }
  }

  /** From the beginning of the file, Seek refuses a start inside it only if the file is empty or the start rounds past
      the size in float64; up to 2^53 nothing rounds. */
  lemma ReachableIff(src: Source, start: nat)
    ensures src.Reachable(start) <==> src.size > 0 && Float64.Round(start) <= src.size
    ensures !src.Reachable(start) ==>
              SeekTarget(src.size, 0, start, SeekStart) == Err(if src.size == 0 then SizeZero else SeekOutOfBounds)
    ensures start <= Float64.TWO_53 ==> Float64.Round(start) == start
  {
    if start <= Float64.TWO_53 {
      Float64.RoundIsExact(start);
    }
  }

  /** The text of such a refusal. */
  lemma SeekRefusalText(src: Source, start: nat, resp: Response, r: HttpRange, head: bool, encoded: bool)
    requires r.start == start && !src.Reachable(start) && Answers(resp, Partial(r), src, head, encoded)
    ensures resp.Refused? && resp.contentRange.None?
    ensures resp.reason.Text() == if src.size == 0 then "stream size is zero\n" else "seeking out of bounds\n"
  {
    ReachableIff(src, start);
  }

  /** Every plan has an answer, whatever can be fetched: the results below are about responses that exist. */
  lemma EveryPlanIsAnswered(plan: Plan, src: Source, head: bool, encoded: bool) returns (resp: Response)
    requires src.size <= |src.content|
    ensures Answers(resp, plan, src, head, encoded)
    ensures plan.Partial? && src.Reachable(plan.range.start) && !src.ProbesNilMemo(plan.range.start) ==>
              resp.Reply? && resp.status == 206
  {
    match plan {
      case Refuse(contentRange, error) => resp := Refused(contentRange, BadRange(error));
      case Whole =>
        resp := Reply(200, None, true, LengthHeader(encoded, src.size), if head then [] else src.content[0..src.size]);
      case Partial(r) =>
        var target := SeekTarget(src.size, 0, r.start, SeekStart);
        if target.Err? {
          resp := Refused(None, BadSeek(target.error));
        } else if !head && src.ProbesNilMemo(r.start) {
          resp := Crashed;
        } else {
          var body := if head || !r.Inside(src.size) then [] else src.content[r.start..r.start + r.length];
          resp := Reply(206, Some(r.ContentRange(src.size)), true, LengthHeader(encoded, r.length), body);
        }
    }
  }

  /** What a complete file's range is answered with: exactly its bytes, unless Seek refuses the start (see
      ReachableIff), or the range is the empty one at the end of a file that ends on a chunk boundary. */
  ghost predicate Serves(resp: Response, r: HttpRange, src: Source, encoded: bool)
    requires r.Inside(src.size) && src.size == |src.content|
  {
    ServesSought(resp, r, src, encoded, SeekTarget(src.size, 0, r.start, SeekStart))
  }

  ghost predicate ServesSought(resp: Response, r: HttpRange, src: Source, encoded: bool,
                               sought: Result<int, StreamError>)
    requires r.Inside(src.size) && src.size == |src.content|
  {
    if sought.Err? then resp == Refused(None, BadSeek(sought.error))
    else if src.ProbesNilMemo(r.start) then resp.Crashed?
    else
      || (src.ProbesTerminator(r.start) && resp.Refused? && resp.contentRange.None? && resp.reason.BadFetch?)
      || resp == Reply(206, Some(r.ContentRange(src.size)), true, LengthHeader(encoded, r.length),
                       src.content[r.start..r.start + r.length])
  }

  /** What a complete file's request with a grammatical Range header is answered with:
      - a refusal if an element is not acceptable, or (then with the size) if some start outside and none is kept;
      - the bytes that it selects if one spec is kept;
      - the whole file otherwise: nothing but blanks, or several kept specs. */
  ghost predicate AnswersElements(resp: Response, es: seq<Element>, src: Source, encoded: bool)
    requires AllGrammatical(es) && src.size == |src.content|
  {
    var kept := KeptSpecs(es, src.size);
    if SomeUnacceptable(es, src.size) then
      resp == Refused(None, BadRange(InvalidRange)) && resp.reason.Text() == "invalid range\n"
    else if SomeOutside(es, src.size) && kept == [] then
      && resp == Refused(Some("bytes */" + FormatInt(src.size)), BadRange(NoOverlap))
      && resp.reason.Text() == "invalid range: failed to overlap\n"
    else if |kept| == 1 then
      kept[0].Grammatical() && exists r :: Covers(r, kept[0], src.size) && Serves(resp, r, src, encoded)
    else resp == Reply(200, None, true, LengthHeader(encoded, |src.content|), src.content)
  }

  // ---- the announced length

  /** Content-Length is absent from an encoded response, and otherwise a numeral of n. */
  predicate Announces(resp: Response, encoded: bool, n: int)
    requires resp.Reply?
  {
    if encoded then resp.contentLength.None?
    else resp.contentLength.Some? && ParseInt(resp.contentLength.value) == Some(n)
  }

  /** A 200 announces the file's size and a 206 its range's length, to GET and HEAD alike. */
  lemma AnnouncedLength(plan: Plan, src: Source, resp: Response, head: bool, encoded: bool)
    requires src.size < TWO_63 && Answers(resp, plan, src, head, encoded) && resp.Reply?
    requires plan.Partial? ==> -TWO_63 <= plan.range.length < TWO_63
    ensures resp.status == 200 <==> plan.Whole?
    ensures resp.status == 206 <==> plan.Partial?
    ensures Announces(resp, encoded, if plan.Whole? then src.size else plan.range.length)
  {
    ParseOfFormat(if plan.Whole? then src.size else plan.range.length);
  }

  /** A complete answer to a GET announces the length of its body. */
  lemma BodyIsAnnounced(plan: Plan, src: Source, resp: Response, encoded: bool)
    requires Complete(src) && Answers(resp, plan, src, false, encoded) && resp.Reply?
    requires plan.Partial? ==> plan.range.Inside(src.size)
    ensures Announces(resp, encoded, |resp.body|)
  {
    AnnouncedLength(plan, src, resp, false, encoded);
  }

  /** So does the answer to any header at all. */
  lemma AnyBodyIsAnnounced(header: string, src: Source, resp: Response, encoded: bool)
    requires Complete(src) && src.size < Float64.TWO_53
    requires Answers(resp, PlanFor(header, src.size), src, false, encoded) && resp.Reply?
    ensures Announces(resp, encoded, |resp.body|)
  {
    var parsed := RangesOf(header, src.size);
    var plan := PlanOf(parsed, src.size);
    if plan.Partial? {
      PlanIsPartialIff(parsed, src.size, plan.range);
      if !plan.range.Inside(src.size) {
        NegativeIsUnreachable(header, src, plan.range);
      }
    }
    BodyIsAnnounced(plan, src, resp, encoded);
  }

  /** HEAD is answered like GET, without the body. */
  lemma HeadIsGetWithoutBody(plan: Plan, src: Source, get: Response, head: Response, encoded: bool)
    requires Answers(get, plan, src, false, encoded) && Answers(head, plan, src, true, encoded)
    ensures get.Reply? ==> head == get.(body := [])
    ensures get.Refused? && !get.reason.BadFetch? && (plan.Partial? ==> plan.range.Inside(src.size)) ==> head == get
  {
    if plan.Partial? {
      HeadOfRange(plan.range, src, get, head, encoded, SeekTarget(src.size, 0, plan.range.start, SeekStart));
    }
  }

  lemma HeadOfRange(r: HttpRange, src: Source, get: Response, head: Response, encoded: bool,
                    sought: Result<int, StreamError>)
    requires AnswersSought(get, r, src, false, encoded, sought) && AnswersSought(head, r, src, true, encoded, sought)
    ensures get.Reply? ==> head == get.(body := [])
    ensures get.Refused? && !get.reason.BadFetch? && (r.Inside(src.size) || sought.Err?) ==> head == get
  {
  }

  /** The whole story of a GET with a grammatical Range header. */
  lemma EndToEnd(es: seq<Element>, src: Source, resp: Response, encoded: bool)
    requires es != [] && AllGrammatical(es) && Complete(src)
    requires Answers(resp, PlanFor(Header(es), src.size), src, false, encoded)
    ensures AnswersElements(resp, es, src, encoded)
    ensures resp.Reply? ==> Announces(resp, encoded, |resp.body|)
  {
    ElementsAnswered(es, src, resp, encoded);
    ElementsArePlanned(es, src);
    if resp.Reply? {
      BodyIsAnnounced(PlanFor(Header(es), src.size), src, resp, encoded);
    }
  }

  lemma ElementsArePlanned(es: seq<Element>, src: Source)
    requires es != [] && AllGrammatical(es) && src.size < TWO_63
    ensures var plan := PlanFor(Header(es), src.size); plan.Partial? ==> plan.range.Inside(src.size)
  {
    ParserMeans(es, src.size);
    var parsed := RangesOf(Header(es), src.size);
    if parsed.Ok? {
      PlanOfOk(parsed.value, src.size);
    }
  }

  lemma ElementsAnswered(es: seq<Element>, src: Source, resp: Response, encoded: bool)
    requires es != [] && AllGrammatical(es) && Complete(src)
    requires Answers(resp, PlanFor(Header(es), src.size), src, false, encoded)
    ensures AnswersElements(resp, es, src, encoded)
  {
    ParserMeans(es, src.size);
    var parsed := RangesOf(Header(es), src.size);
    if parsed.Ok? {
      var kept := KeptSpecs(es, src.size);
      KeptIsInside(es, src.size);
      PlanOfOk(parsed.value, src.size);
      if |kept| == 1 {
        assert Covers(parsed.value[0], kept[0], src.size);
        RangeBody(parsed.value[0], src, resp, encoded);
      } else {
        WholeIs(src, resp, encoded);
      }
    }
  }

  lemma {:induction false} KeptIsInside(es: seq<Element>, size: int)
    requires AllGrammatical(es)
    ensures forall k :: 0 <= k < |KeptSpecs(es, size)| ==>
              var spec := KeptSpecs(es, size)[k];
              spec.Grammatical() && spec.Acceptable(size) && !spec.StartsOutside(size)
  {
    if es != [] {
      KeptIsInside(es[..|es| - 1], size);
      assert es[|es| - 1].Grammatical();
    }
  }

  lemma PlanOfOk(ranges: seq<HttpRange>, size: int)
    requires 0 <= size < TWO_63
    requires forall k :: 0 <= k < |ranges| ==> ranges[k].Inside(size)
    ensures PlanOf(Ok(ranges), size) == if |ranges| == 1 then Partial(ranges[0]) else Whole
  {
    if |ranges| == 1 {
      PlanIsPartialIff(Ok(ranges), size, ranges[0]);
      assert ranges == [ranges[0]];
    }
  }

  lemma WholeIs(src: Source, resp: Response, encoded: bool)
    requires Complete(src) && Answers(resp, Whole, src, false, encoded)
    ensures resp == Reply(200, None, true, LengthHeader(encoded, src.size), src.content)
  {
    assert src.content[0..src.size] == src.content;
  }

  /** A range inside a complete file is served. */
  lemma RangeBody(r: HttpRange, src: Source, resp: Response, encoded: bool)
    requires Complete(src) && r.Inside(src.size)
    requires AnswersRange(resp, r, src, false, encoded)
    ensures Serves(resp, r, src, encoded)
  {
    SoughtBody(r, src, resp, encoded, SeekTarget(src.size, 0, r.start, SeekStart));
  }

  lemma SoughtBody(r: HttpRange, src: Source, resp: Response, encoded: bool, sought: Result<int, StreamError>)
    requires Complete(src) && r.Inside(src.size)
    requires AnswersSought(resp, r, src, false, encoded, sought)
    ensures ServesSought(resp, r, src, encoded, sought)
  {
  }

  /** Without a Range header, the whole file; with one in another unit, a refusal. */
  lemma WithoutByteRanges(header: string, src: Source, resp: Response, encoded: bool)
    requires Complete(src) && !(UNIT <= header)
    requires Answers(resp, PlanFor(header, src.size), src, false, encoded)
    ensures resp == if header == "" then Reply(200, None, true, LengthHeader(encoded, |src.content|), src.content)
                    else Refused(None, BadRange(InvalidRange))
  {
    if header == "" {
      PlanOfOk([], src.size);
      WholeIs(src, resp, encoded);
    }
  }

  /** A header with a malformed item anywhere is refused, for GET and HEAD, before anything is fetched. */
  lemma MalformedIsRefused(header: string, items: seq<string>, k: nat, src: Source, resp: Response, head: bool,
                           encoded: bool)
    requires src.size < TWO_63 && NoCommas(items) && header == "bytes=" + Join(items, ',')
    requires k < |items| && Malformed(items[k], src.size)
    requires Answers(resp, PlanFor(header, src.size), src, head, encoded)
    ensures resp == Refused(None, BadRange(InvalidRange))
    ensures resp.reason.Text() == "invalid range\n"
  {
    InvalidIff(header, items, src.size);
  }

  // ---- every header at all

  /** A suffix with a minus sign never gets past Seek, for files below 2^53 bytes. */
  lemma NegativeIsUnreachable(header: string, src: Source, r: HttpRange)
    requires src.size < Float64.TWO_53 && RangesOf(header, src.size) == Ok([r]) && !r.Inside(src.size)
    ensures !src.Reachable(r.start)
  {
    assert r in RangesOf(header, src.size).value;
    AnyRangeOutside(header, src.size, r);
    OutsideIsUnreachable(src, r.start);
  }

  lemma OutsideIsUnreachable(src: Source, start: int)
    requires src.size < Float64.TWO_53 && (start < 0 || start > src.size)
    ensures !src.Reachable(start)
  {
    if start >= Float64.TWO_53 {
      Float64.RoundKeepsLarge(start);
    } else if start >= 0 {
      Float64.RoundIsExact(start);
    }
  }

  /** Whatever the header says, a 206 announces a range inside the file and sends a prefix of it,
      all of it if no content fetch can fail. */
  lemma AnyPartialIsInside(header: string, src: Source, resp: Response, head: bool, encoded: bool)
    requires src.size < Float64.TWO_53
    requires Answers(resp, PlanFor(header, src.size), src, head, encoded) && resp.Reply? && resp.status == 206
    ensures exists r: HttpRange :: && RangesOf(header, src.size) == Ok([r]) && r.Inside(src.size)
                        && resp.contentRange == Some(r.ContentRange(src.size))
                        && (head ==> resp.body == [])
                        && (!head ==> Sends(src, resp.body, r.start, r.length))
  {
    var plan := PlanFor(header, src.size);
    var r := plan.range;
    PlanIsPartialIff(RangesOf(header, src.size), src.size, r);
    if !r.Inside(src.size) {
      NegativeIsUnreachable(header, src, r);
    }
  }

  /** A suffix length of zero is answered with an empty 206, except that at the end of a file that ends on a chunk
      boundary it asks for the terminator: that crashes exactly on a fresh reader. */
  lemma ZeroSuffix(src: Source, resp: Response, encoded: bool)
    requires Complete(src) && 0 < src.size <= Float64.TWO_53
    requires Answers(resp, PlanFor("bytes=-0", src.size), src, false, encoded)
    ensures resp.Crashed? <==> src.memoEmpty && src.size % MAX_CHUNK_SIZE == 0
    ensures src.size % MAX_CHUNK_SIZE != 0 ==>
              resp == Reply(206, Some(HttpRange(src.size, 0).ContentRange(src.size)), true,
                            LengthHeader(encoded, 0), [])
  {
    ZeroSuffixParses(src.size);
    PlanIsPartialIff(RangesOf("bytes=-0", src.size), src.size, HttpRange(src.size, 0));
    EmptyAtTheEnd(src, resp, encoded);
  }

  lemma EmptyAtTheEnd(src: Source, resp: Response, encoded: bool)
    requires Complete(src) && 0 < src.size <= Float64.TWO_53
    requires AnswersRange(resp, HttpRange(src.size, 0), src, false, encoded)
    ensures resp.Crashed? <==> src.memoEmpty && src.size % MAX_CHUNK_SIZE == 0
    ensures src.size % MAX_CHUNK_SIZE != 0 ==>
              resp == Reply(206, Some(HttpRange(src.size, 0).ContentRange(src.size)), true,
                            LengthHeader(encoded, 0), [])
  {
    ReachableIff(src, src.size);
  }

  lemma ZeroSuffixParses(size: int)
    requires 0 <= size < TWO_63
    ensures RangesOf("bytes=-0", size) == Ok([HttpRange(size, 0)])
  {
    ZeroSuffixItem(size);
    ListParses(["-0"], [HttpRange(size, 0)], size);
    assert UNIT + "-0" == "bytes=-0";
  }

  lemma ZeroSuffixItem(size: int)
    requires 0 <= size < TWO_63
    ensures ParseItem("-0", size) == Keep(HttpRange(size, 0))
  {
    ItemBetween("", "", "0", "", size);
    assert "" + ("" + "-" + "0") + "" == "-0";
    assert "0"[..0] == "" && DigitsValue("0") == 0;
    ParseOfDigits("0");
  }

  /** A request crashes exactly if it asks a fresh reader for the empty range at the end of a file that ends on a
      chunk boundary: no request for any byte crashes. */
  lemma CrashesIff(header: string, src: Source, resp: Response, head: bool, encoded: bool)
    requires src.size < Float64.TWO_53 && src.size <= |src.content|
    requires Answers(resp, PlanFor(header, src.size), src, head, encoded)
    ensures resp.Crashed? <==>
              && !head && AtBoundary(src)
              && RangesOf(header, src.size) == Ok([HttpRange(src.size, 0)])
  {
    var parsed := RangesOf(header, src.size);
    var plan := PlanOf(parsed, src.size);
    if plan.Partial? {
      var r := plan.range;
      PlanIsPartialIff(parsed, src.size, r);
      if !r.Inside(src.size) {
        NegativeIsUnreachable(header, src, r);
      }
      CrashIs(r, src, resp, head, encoded);
    } else if parsed == Ok([HttpRange(src.size, 0)]) {
      PlanIsPartialIff(parsed, src.size, HttpRange(src.size, 0));
    }
  }

  /** A fresh reader on a non-empty file that ends on a chunk boundary, with its true size. */
  predicate AtBoundary(src: Source)
  {
    src.memoEmpty && 0 < src.size == |src.content| && src.size % MAX_CHUNK_SIZE == 0
  }

  lemma CrashIs(r: HttpRange, src: Source, resp: Response, head: bool, encoded: bool)
    requires src.size < Float64.TWO_53 && src.size <= |src.content| && (r.Inside(src.size) || !src.Reachable(r.start))
    requires AnswersRange(resp, r, src, head, encoded)
    ensures resp.Crashed? <==> !head && AtBoundary(src) && r == HttpRange(src.size, 0)
  {
    if r == HttpRange(src.size, 0) {
      ReachableIff(src, src.size);
    }
  }

  /** For grammatical headers: the one kept spec is a suffix of zero bytes, and no element is unacceptable. */
  lemma CrashesIffZeroSuffix(es: seq<Element>, src: Source, resp: Response, head: bool, encoded: bool)
    requires es != [] && AllGrammatical(es) && src.size < Float64.TWO_53 && src.size <= |src.content|
    requires Answers(resp, PlanFor(Header(es), src.size), src, head, encoded)
    ensures resp.Crashed? <==>
              && !head && AtBoundary(src) && !SomeUnacceptable(es, src.size)
              && var kept := KeptSpecs(es, src.size);
                 |kept| == 1 && kept[0].Suffix? && kept[0].Grammatical() && DigitsValue(kept[0].length) == 0
  {
    CrashesIff(Header(es), src, resp, head, encoded);
    if src.size > 0 {
      EmptyIffZeroSuffix(es, src.size);
    }
  }

  lemma EmptyIffZeroSuffix(es: seq<Element>, size: int)
    requires es != [] && AllGrammatical(es) && 0 < size < TWO_63
    ensures RangesOf(Header(es), size) == Ok([HttpRange(size, 0)]) <==>
              && !SomeUnacceptable(es, size)
              && var kept := KeptSpecs(es, size);
                 |kept| == 1 && kept[0].Suffix? && kept[0].Grammatical() && DigitsValue(kept[0].length) == 0
  {
    ParserMeans(es, size);
    KeptIsInside(es, size);
    var parsed, kept := RangesOf(Header(es), size), KeptSpecs(es, size);
    if parsed.Ok? && |kept| == 1 {
      var r := parsed.value[0];
      assert parsed.value == [r] && Covers(r, kept[0], size);
      EmptyAtEndIff(r, kept[0], size);
    }
  }

  lemma EmptyAtEndIff(r: HttpRange, spec: Spec, size: int)
    requires spec.Grammatical() && Covers(r, spec, size) && spec.Acceptable(size) && !spec.StartsOutside(size)
    requires 0 < size
    ensures r == HttpRange(size, 0) <==> spec.Suffix? && DigitsValue(spec.length) == 0
  {
    CoversStarts(r, spec, size);
    if spec.Suffix? && DigitsValue(spec.length) > 0 {
      assert spec.Selects(size, size - 1);
    }
  }

  // ---- resumable download

  /** One request of a download in pieces, and its answer. */
  datatype Piece = Piece(range: HttpRange, memoEmpty: bool, resp: Response)

  ghost predicate Askable(r: HttpRange, size: int) { Servable(r, size) && Float64.Round(r.start) <= size }

  ghost predicate Fetched(piece: Piece, content: Bytes, encoded: bool)
  {
    && Askable(piece.range, |content|)
    && Answers(piece.resp, PlanFor(UNIT + SpecText(piece.range), |content|),
               Source(content, |content|, piece.memoEmpty, true), false, encoded)
  }

  ghost predicate AllFetched(pieces: seq<Piece>, content: Bytes, encoded: bool)
  {
    forall k :: 0 <= k < |pieces| ==> Fetched(pieces[k], content, encoded)
  }

  /** The ranges follow each other from the start of the file up to `end`. */
  predicate Consecutive(ranges: seq<HttpRange>, end: int)
  {
    if ranges == [] then end == 0
    else
      var last := ranges[|ranges| - 1];
      last.start + last.length == end && Consecutive(ranges[..|ranges| - 1], last.start)
  }

  function Ranges(pieces: seq<Piece>): (ranges: seq<HttpRange>)
    ensures |ranges| == |pieces|
  {
    seq(|pieces|, k requires 0 <= k < |pieces| => pieces[k].range)
  }

  function Bodies(pieces: seq<Piece>): Bytes
  {
    if pieces == [] then [] else Bodies(pieces[..|pieces| - 1]) + BodyOf(pieces[|pieces| - 1].resp)
  }

  function BodyOf(resp: Response): Bytes { if resp.Reply? then resp.body else [] }

  /** One piece of a file, asked for by its printed range, comes back as exactly that piece. */
  lemma PieceServed(r: HttpRange, src: Source, resp: Response, encoded: bool)
    requires Complete(src) && Askable(r, src.size)
    requires Answers(resp, PlanFor(UNIT + SpecText(r), src.size), src, false, encoded)
    ensures resp.Reply? && resp.status == 206 && resp.body == src.content[r.start..r.start + r.length]
  {
    PieceIsPlanned(r, src.size);
    PartialAnswered(PlanFor(UNIT + SpecText(r), src.size), r, src, resp, encoded);
    RangeBody(r, src, resp, encoded);
    ReachableIff(src, r.start);
    BodySent(r, src, resp, encoded, SeekTarget(src.size, 0, r.start, SeekStart));
  }

  lemma PieceIsPlanned(r: HttpRange, size: int)
    requires 0 <= size < TWO_63 && Servable(r, size)
    ensures PlanFor(UNIT + SpecText(r), size) == Partial(r)
  {
    ContentRangeSentBack(r, size);
    PlanIsPartialIff(Ok([r]), size, r);
  }

  lemma PartialAnswered(plan: Plan, r: HttpRange, src: Source, resp: Response, encoded: bool)
    requires plan == Partial(r) && Answers(resp, plan, src, false, encoded)
    ensures AnswersRange(resp, r, src, false, encoded)
  {
  }

  lemma BodySent(r: HttpRange, src: Source, resp: Response, encoded: bool, sought: Result<int, StreamError>)
    requires src.size == |src.content| && Servable(r, src.size) && sought.Ok?
    requires ServesSought(resp, r, src, encoded, sought)
    ensures resp.Reply? && resp.status == 206 && resp.body == src.content[r.start..r.start + r.length]
  {
  }

  ghost predicate CameBack(piece: Piece, content: Bytes)
  {
    && Servable(piece.range, |content|)
    && piece.resp.Reply? && piece.resp.status == 206
    && piece.resp.body == content[piece.range.start..piece.range.start + piece.range.length]
  }

  ghost predicate AllCameBack(pieces: seq<Piece>, content: Bytes)
  {
    forall k :: 0 <= k < |pieces| ==> CameBack(pieces[k], content)
  }

  lemma LastCameBack(pieces: seq<Piece>, end: int, content: Bytes)
    requires pieces != [] && AllCameBack(pieces, content) && Consecutive(Ranges(pieces), end)
    ensures var n := |pieces| - 1;
            var r := pieces[n].range;
            && AllCameBack(pieces[..n], content) && CameBack(pieces[n], content)
            && Consecutive(Ranges(pieces[..n]), r.start) && r.start + r.length == end
  {
    assert Ranges(pieces)[..|pieces| - 1] == Ranges(pieces[..|pieces| - 1]);
  }

  lemma FetchedCameBack(piece: Piece, content: Bytes, encoded: bool)
    requires |content| < TWO_63 && Fetched(piece, content, encoded)
    ensures CameBack(piece, content)
  {
    PieceServed(piece.range, Source(content, |content|, piece.memoEmpty, true), piece.resp, encoded);
  }

  lemma {:induction false} PiecesJoin(pieces: seq<Piece>, end: int, content: Bytes)
    requires Consecutive(Ranges(pieces), end) && AllCameBack(pieces, content)
    ensures 0 <= end <= |content| && Bodies(pieces) == content[..end]
  {
    if pieces != [] {
      var n := |pieces| - 1;
      var start := pieces[n].range.start;
      LastCameBack(pieces, end, content);
      PiecesJoin(pieces[..n], start, content);
      PieceJoins(Bodies(pieces[..n]), pieces[n], start, end, content);
    }
  }

  lemma PieceJoins(before: Bytes, piece: Piece, start: int, end: int, content: Bytes)
    requires CameBack(piece, content) && piece.range.start == start && start + piece.range.length == end
    requires before == content[..start]
    ensures 0 <= end <= |content| && before + BodyOf(piece.resp) == content[..end]
  {
    assert content[..start] + content[start..end] == content[..end];
  }

  /** A file downloaded in consecutive pieces, each by its own request and each served from whatever the caches
      held at the time, is the file. */
  lemma ResumedDownload(pieces: seq<Piece>, content: Bytes, encoded: bool)
    requires |content| < TWO_63 && Consecutive(Ranges(pieces), |content|)
    requires AllFetched(pieces, content, encoded)
    ensures AllCameBack(pieces, content)
    ensures Bodies(pieces) == content
  {
    forall k | 0 <= k < |pieces|
      ensures CameBack(pieces[k], content)
    {
      FetchedCameBack(pieces[k], content, encoded);
    }
    PiecesJoin(pieces, |content|, content);
  }

  // ---- requests to a server with shared caches

  /** The origin has the file under the hash: its descriptor, its blobs, and none of their fetches fails. */
  ghost predicate Hosts(w: World, hash: string, sd: SDBlob, chunks: seq<Bytes>)
  {
    && w.Conforms(Request(hash, AsSD)) && w.Truth(Request(hash, AsSD)) == Some(SizedSD(sd)) && hash in w.reliable
    && LaidOut(w, sd, chunks) && Size.PaddedLengths(sd.blobInfos, chunks)
    && (forall i :: 0 <= i < |chunks| ==> sd.blobInfos[i].hash in w.reliable)
  }

  /** The claim tells the file's size, or is a stream without one, as legacy claims are. */
  predicate TellsSize(claimed: nat, isStream: bool, size: nat)
  {
    (claimed == size && size > 0) || (claimed == 0 && isStream)
  }

  /** A GET for a file: a new stream over the shared caches, prepared and served. */
  method Get(header: string, encoded: bool, hash: string, claimed: nat, isStream: bool, cache: HotCache,
             prefetch: bool, prefetchCount: nat, ghost sd: SDBlob, ghost chunks: seq<Bytes>) returns (resp: Response)
    requires TellsSize(claimed, isStream, |Flatten(chunks)|)
    requires cache.Valid() && Hosts(cache.origin.world, hash, sd, chunks)
    modifies cache, cache.origin
    ensures cache.Valid()
    ensures var content := Flatten(chunks);
            Answers(resp, PlanFor(header, |content|), Source(content, |content|, true, true), false, encoded)
  {
    var stream := new Stream(hash, cache, prefetch, prefetchCount, claimed, isStream, sd, chunks);
    var err;
    err, resp := Play(header, false, encoded, stream);
    assert stream.PublishedAs(sd);
  }

  /** Every grammatical request for a hosted file gets what EndToEnd says, whatever the caches hold. */
  method GetElements(es: seq<Element>, encoded: bool, hash: string, claimed: nat, isStream: bool, cache: HotCache,
                     prefetch: bool, prefetchCount: nat, ghost sd: SDBlob, ghost chunks: seq<Bytes>)
    returns (resp: Response)
    requires TellsSize(claimed, isStream, |Flatten(chunks)|)
    requires cache.Valid() && Hosts(cache.origin.world, hash, sd, chunks)
    requires es != [] && AllGrammatical(es)
    modifies cache, cache.origin
    ensures cache.Valid()
    ensures AnswersElements(resp, es, Source(Flatten(chunks), |Flatten(chunks)|, true, true), encoded)
    ensures resp.Reply? ==> Announces(resp, encoded, |resp.body|)
  {
    resp := Get(Header(es), encoded, hash, claimed, isStream, cache, prefetch, prefetchCount, sd, chunks);
    EndToEnd(es, Source(Flatten(chunks), |Flatten(chunks)|, true, true), resp, encoded);
  }

  /** A client that asks for a file in consecutive pieces, one request after the other, over caches that other callers
      and evictions change in between, ends up with the file. */
  method Download(ranges: seq<HttpRange>, encoded: bool, hash: string, claimed: nat, isStream: bool, cache: HotCache,
                  prefetch: bool, prefetchCount: nat, ghost sd: SDBlob, ghost chunks: seq<Bytes>) returns (out: Bytes)
    requires TellsSize(claimed, isStream, |Flatten(chunks)|)
    requires cache.Valid() && Hosts(cache.origin.world, hash, sd, chunks)
    requires Consecutive(ranges, |Flatten(chunks)|)
    requires forall k :: 0 <= k < |ranges| ==> Askable(ranges[k], |Flatten(chunks)|)
    modifies cache, cache.origin
    ensures cache.Valid()
    ensures out == Flatten(chunks)
  {
    out := [];
    ghost var pieces: seq<Piece> := [];
    for k := 0 to |ranges|
      invariant cache.Valid()
      invariant HasPieces(pieces, ranges[..k], out) && AllFetched(pieces, Flatten(chunks), encoded)
    {
      cache.Interfere();
      ghost var before, body := pieces, out;
      var resp, piece :=
        GetPiece(ranges[k], encoded, hash, claimed, isStream, cache, prefetch, prefetchCount, sd, chunks);
      out := out + BodyOf(resp);
      pieces := pieces + [piece];
      OnePieceMore(before, ranges, k, body, piece, pieces, out);
      FetchedOneMore(before, piece, pieces, Flatten(chunks), encoded);
    }
    AllPieces(pieces, ranges, out, Flatten(chunks), encoded);
  }

  /** The pieces came for these ranges, and their bodies make up `out`. */
  ghost predicate HasPieces(pieces: seq<Piece>, ranges: seq<HttpRange>, out: Bytes)
  {
    Ranges(pieces) == ranges && out == Bodies(pieces)
  }

  lemma AllPieces(pieces: seq<Piece>, ranges: seq<HttpRange>, out: Bytes, content: Bytes, encoded: bool)
    requires |content| < TWO_63 && Consecutive(ranges, |content|)
    requires HasPieces(pieces, ranges[..|ranges|], out) && AllFetched(pieces, content, encoded)
    ensures out == content
  {
    assert ranges[..|ranges|] == ranges;
    ResumedDownload(pieces, content, encoded);
  }

  method GetPiece(range: HttpRange, encoded: bool, hash: string, claimed: nat, isStream: bool, cache: HotCache,
                  prefetch: bool, prefetchCount: nat, ghost sd: SDBlob, ghost chunks: seq<Bytes>)
    returns (resp: Response, ghost piece: Piece)
    requires TellsSize(claimed, isStream, |Flatten(chunks)|)
    requires cache.Valid() && Hosts(cache.origin.world, hash, sd, chunks) && Askable(range, |Flatten(chunks)|)
    modifies cache, cache.origin
    ensures cache.Valid()
    ensures piece.range == range && piece.resp == resp && Fetched(piece, Flatten(chunks), encoded)
  {
    resp := Get(UNIT + SpecText(range), encoded, hash, claimed, isStream, cache, prefetch, prefetchCount, sd, chunks);
    piece := Piece(range, true, resp);
  }

  lemma OnePieceMore(pieces: seq<Piece>, ranges: seq<HttpRange>, k: nat, body: Bytes, piece: Piece, more: seq<Piece>,
                     out: Bytes)
    requires k < |ranges| && HasPieces(pieces, ranges[..k], body) && piece.range == ranges[k]
    requires more == pieces + [piece] && out == body + BodyOf(piece.resp)
    ensures HasPieces(more, ranges[..k + 1], out)
  {
    RangesGrow(pieces, piece, more);
    BodiesGrow(pieces, piece, more);
    assert ranges[..k + 1] == ranges[..k] + [ranges[k]];
  }

  lemma FetchedOneMore(pieces: seq<Piece>, piece: Piece, more: seq<Piece>, content: Bytes, encoded: bool)
    requires AllFetched(pieces, content, encoded) && Fetched(piece, content, encoded) && more == pieces + [piece]
    ensures AllFetched(more, content, encoded)
  {
    forall k | 0 <= k < |more|
      ensures Fetched(more[k], content, encoded)
    {
      if k < |pieces| {
        assert more[k] == pieces[k];
      }
    }
  }

  lemma RangesGrow(pieces: seq<Piece>, piece: Piece, more: seq<Piece>)
    requires more == pieces + [piece]
    ensures Ranges(more) == Ranges(pieces) + [piece.range]
  {
  }

  lemma BodiesGrow(pieces: seq<Piece>, piece: Piece, more: seq<Piece>)
    requires more == pieces + [piece]
    ensures Bodies(more) == Bodies(pieces) + BodyOf(piece.resp)
  {
    assert more[..|more| - 1] == pieces;
  }
}
