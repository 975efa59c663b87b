# Player server: a verified model of media delivery

This project models how the player server turns an HTTP byte-range request into the exact bytes of a file that is
stored as encrypted, fixed-size blobs, and proves that it does. It also models the firewall's sliding-window counter.
`dafny verify dfyconfig.toml` checks everything.

The modules follow the program:

- `Chunk`, `Content`, `Layout`: chunk geometry. A file is one flat byte sequence cut into chunks of 2097151 bytes; a
  stream descriptor lists one blob per chunk and a terminator with an empty hash. `Layout` follows the read loop turn
  by turn and shows that its divisions, remainders and partial copies amount to slicing the flat sequence.
- `Origin`, `Caches`, `Flights`: the blobs at the origin, the decrypted disk cache, the hot memory cache and the
  shared flights between them. `Caches` has the two caches as classes, seen by one caller while others interfere;
  `Flights` is the concurrent protocol itself, as a transition system with any number of callers and with evictions
  at any time. The invariant that `Flights` proves of every step (`CachesAgree`) is what `Caches` assumes of the others.
- `Stream`, `Prefetch`, `Size`, `Float64`, `ReaderRuns`: the seekable reader with its one-entry memo, its prefetcher,
  its size (exact, or estimated from blob lengths), the float64 comparison inside `Seek`, and runs of its calls.
- `GoStrings`, `RangeHeader`, `RangeMeaning`, `HeaderText`: the Range parser and the Content-Range printer, the
  standard-library functions they use, their meaning by section 2.1 of RFC 7233, and what any other header does.
- `Server`, `Delivery`: `ServeStream` with its copy loop, and the end-to-end theorems about the response.
- `Firewall`: the rate limiter and runs of it.

## Reading the model

- A panic of the program is an outcome here, not a precondition: `IndexPanic`, `NilMemoPanic`, `Panicked` and the
  response `Crashed`. `Delivery.CrashesIff` and `Delivery.CrashesIffZeroSuffix` say exactly when a request meets one.
- An origin fetch may fail whenever it is made, except for hashes in the set `World.reliable`. Results hold for every set:
  bodies are always prefixes of the right slice, and complete if the stream's content blobs are reliable. The
  terminator is never assumed to be reliable.
- Decryption, descriptor parsing and the origin's contents are parameters (`Origin.World`). What callers may ask for is
  `World.Conforms`: a stored hash only for what it is for, and a chunk only if a failed fetch of it shows.
  `Flights.AgreementIff` proves that results agree with the origin exactly when requests are like that.
  `World.WellFormed` (a blob is at most 2 MiB, decryption removes at least one byte of padding, section 6.3 of RFC 5652) is
  assumed by the memory bound only, and `Size.PaddedLengths` by the results on estimated sizes.
- `int64`, `uint64` and `float64` conversions are written out (`Int64`, `Uint64`, `Float64.Round`).
- `singleflight`, `io.CopyN` and the cache libraries are modelled by their documented behaviour.

Where the code and its comments differ, the model follows the code:

- `Seek` from the end subtracts its offset (player/stream.go:142-143), although `io.Seeker` adds it.
- A failed origin fetch of a chunk is not reported as such: decryption runs on what came back (player/decrypted_cache.go:61-66).
- The header comment of `parseRange` says that non-overlap is reported if every range starts past the end. The code
  reports it if at least one starts at or past the end and no range is kept (player/server.go:162-187), and it does not
  look at the end position of a range that it drops, so `bytes=9-5` on a short file does not overlap instead of being invalid.
- `ServeStream` says that it handles conditional requests (player/server.go:24-36). It only handles ranges.
- `GetChunk` guards against an index past the blob list with `>` (player/stream.go:214), so an index equal to its length
  gets through to the indexing.
- An estimated size of a file under 16 bytes wraps around (player/stream.go:108-119); nothing of it is sent then.

## Model

| member | source | states |
|---|---|---|
| Chunk.TwoChunkBoundIsSharp | player/chunk.go:50-84 | A buffer length touches at most two adjacent chunks at every offset if and only if it is at most one full chunk. |
| Chunk.PlacedIsUnique | player/chunk.go:50-65 | The five numbers of `getRange` are the only ones that place a read's two ends by chunk and offset. |
| Chunk.PiecesTile | player/chunk.go:71-84 | When at most two chunks are touched, the slices per chunk, cut to the buffer, tile the requested interval without gap or overlap. |
| Chunk.PiecesLoseMiddle | player/chunk.go:79-82 | A longer read is short by exactly one full chunk per middle chunk, since middle chunks yield nothing. |
| Chunk.ReadChunk | player/chunk.go:25-32 | The buffer afterwards is the buffer before with the chunk's slice, cut to the chunk's end and the room, written in place. |
| Content.SizeOfChunking | player/stream.go:271-289 | Full chunk size times all but the last chunk, plus the last one, is the length of the file. |
| Content.PositionHasAddress | player/chunk.go:56-62 | Every file position is the remainder-th byte of the quotient-th chunk, which exists and is long enough. |
| Content.AddressHasPosition | player/chunk.go:56-62 | Every byte of every chunk has one file position, whose quotient and remainder are its address. |
| Content.ReadIsExactIff | player/chunk.go:71-84 | A read equals the requested slice iff it fills its buffer iff it touches at most two chunks; one chunk's length is always short enough. |
| Layout.TurnsAreTheRead | player/stream.go:191-210 | The turns of the read loop only ask for bytes that exist, and their pieces make up the read, for every offset and length inside the file. |
| Layout.LoopInMiddle | player/stream.go:191-210 | All turns between the first and the last chunk leave the buffer as the first turn left it. |
| Layout.ReadAtTheEnd | player/stream.go:191-201 | Only an empty read at the very end of the file starts at the terminator. |
| Origin.FetchedIsTrue | player/decrypted_cache.go:58-69 | Bytes that the miss function returns without error are those of the origin's blob, even if the fetch failed. |
| Origin.HotMemoryBound | player/hot_cache.go:24-29 | Within its entry capacity the hot cache holds at most its configured size in chunk bytes. |
| Origin.CapacityIff | player/hot_cache.go:24-29 | The entry capacity is the number of full blobs that fit the configured size. |
| Caches.DecryptedCache.Get | player/decrypted_cache.go:57-80 | Returns the origin's decrypted or raw blob or an error, never fails for reliable hashes, and stores exactly what it returns; what is stored is served as it is. |
| Caches.DecryptedCache.GetSDBlob | player/decrypted_cache.go:93-103 | An error-free result is the parsed origin blob; the call, and its answer if there is one, are recorded. |
| Caches.DecryptedCache.GetChunk | player/decrypted_cache.go:107-115 | An error-free result is the decrypted origin blob; the call, and its answer if there is one, are recorded. |
| Caches.HotCache.Set | player/hot_cache.go:64 | At the instant of the store the entry is there, nothing else is new or changed, entries are dropped only from a full cache, and the capacity is kept. |
| Caches.HotCache.GetSDBlob | player/hot_cache.go:46-55 | One lookup; then exactly one of a hit, a joined flight and a call of the origin. An error-free result is the parsed origin blob, whatever others and evictions do meanwhile; no entry is of the wrong kind. |
| Caches.HotCache.GetChunk | player/hot_cache.go:78-87 | One lookup; then exactly one of a hit, a joined flight and a call of the origin. An error-free result is the decrypted origin blob, whatever others and evictions do meanwhile; no entry is of the wrong kind. |
| Caches.HotCache.GetSDFromOrigin | player/hot_cache.go:57-75 | After a miss: joins a flight, or else calls the origin once and stores its answer; whoever was answered by the origin has stored just that often (`Valid`). |
| Caches.HotCache.GetChunkFromOrigin | player/hot_cache.go:90-107 | The same for a chunk. |
| Flights.StepKeepsInv | player/hot_cache.go:46-107 | Every step of every caller and every eviction keeps agreement with the origin, the flight protocol and the miss count. |
| Flights.ResultsAgree | player/hot_cache.go:46-107 | In every interleaving, an error-free result is the decrypted or parsed origin blob, a hash whose fetch cannot fail never gives an error in its place, and no caller reads an entry or joins a flight of the wrong kind. |
| Flights.OneLeaderPerHash | player/hot_cache.go:58-69 | In every reachable state at most one flight of a hash is being led, by one caller: no two callers are inside the decrypted cache for it. |
| Flights.OneFetchPerHash | player/decrypted_cache.go:57-80 | Of these, hence also at most one at a time fetches the hash from the network, past the disk. |
| Flights.WaiterHasOneLeader | player/hot_cache.go:91-100 | In every reachable state a caller that joined a flight has exactly one live leader, on the same hash, until the flight lands. |
| Flights.LeaderLands | player/hot_cache.go:91-100 | A flight lands only by its leader, with the result that the leader returns. |
| Flights.LandedStays | player/hot_cache.go:91-100 | No step changes a flight's hash or leader, or its result once it has landed. |
| Flights.WaiterGetsLanded | player/hot_cache.go:102-106 | A joined caller returns exactly what its flight landed with. |
| Flights.JoinedGetsLeaders | player/hot_cache.go:91-106 | Over every run, whoever joined a flight returns what the leader of that flight returned, at a landing earlier in the run. |
| Flights.LandedIsTrue | player/hot_cache.go:57-107 | Over every run, a flight lands with the truth or an error, and with the truth if its fetch cannot fail: what a joined caller of `Caches` may count on. |
| Flights.EntriesAreResults | player/hot_cache.go:59-64 | Errors are never cached: over every run, each entry was stored by a leader on its way to land with it. |
| Flights.FlightsAreMisses | player/hot_cache.go:85-92 | Over every run, the calls of the decrypted cache for a hash (one for each flight), with the callers yet to make or join one, never outnumber the lookups that missed the hot cache. |
| Flights.StepCounts | player/hot_cache.go:85-92 | A miss is counted exactly for a lookup in vain, a fetch exactly for a call that goes past the disk. |
| Flights.FetchesAreMisses | player/decrypted_cache.go:57-80 | Over every run, the same of the fetches from the network alone, those not answered from disk. |
| Flights.MemoryIsBounded | player/hot_cache.go:24-29 | In every reachable state the hot cache's chunk bytes stay within its configured size, for blobs of at most 2 MiB. |
| Flights.SomebodyCanMove | player/hot_cache.go:57-107 | No caller is stranded: it can take a step, or the leader that it waits for can. |
| Flights.AgreementIff | player/hot_cache.go:46-107 | For any set of requests that callers may make: every run of such callers agrees with the origin and never panics iff failed fetches show for each of them, and any two of them for a stored hash want the same kind and the same truth. |
| Flights.MixedUseMisleads | player/hot_cache.go:46-87 | Entries are keyed by hash alone, in memory and on disk: whenever two requests for a stored hash want different things of it, in kind, key or iv, a run misleads one of them. |
| Flights.SecondIsMisled | player/hot_cache.go:46-87 | Once a descriptor or chunk is cached, any other use of its hash returns that item, or panics if the kind differs, either way round. |
| Flights.UnreportedFailure | player/decrypted_cache.go:58-69 | If decryption makes other bytes than the right ones of empty data, a run returns them for a fetch that failed. |
| Prefetch.ReachingIsBounded | player/stream.go:242-268 | Prefetches started at distinct chunks reach each blob at most as often as the prefetch count. |
| Prefetch.ConsideredAtMostWindowTimes | player/stream.go:230-235 | Over any run of a stream, no blob is considered more often than the prefetch count, and only content blobs after the first are. |
| Prefetch.StartKeepsDiscipline | player/stream.go:230-235 | A start at a chunk not started before, with the blobs it considers, keeps that discipline. |
| Size.EstimateFromLengths | player/stream.go:108-119 | The loop over blob lengths computes the estimate in wrapping uint64 arithmetic. |
| Size.FallbackSizeIs | player/stream.go:108-119 | Under PKCS#7 padding the estimate is the file size less two and less the last chunk's block remainder, modulo 2^64. |
| Size.FallbackStaysInsideIff | player/stream.go:108-119 | The estimate stays inside the file iff the file has at least 16 bytes; then it is short by 2 to 17 bytes, otherwise it wraps. |
| Float64.RoundIsExact | player/stream.go:133 | The comparison in Seek is exact for offsets up to 2^53. |
| Float64.RoundIsNearest | player/stream.go:133 | Above that the compared value is off by at most half the spacing of float64. |
| Float64.RoundIsMultiple | player/stream.go:133 | The compared value is a multiple of that spacing, an even one halfway between two. |
| Float64.UlpIsPower | player/stream.go:133 | The spacing is the power of two that leaves 53 significant bits. |
| Float64.RoundKeepsLarge | player/stream.go:133 | No offset from 2^53 on is taken for one below it. |
| Stream.Stream.PrepareForReading | player/stream.go:79-90 | On success, which is certain if the descriptor can be fetched, the descriptor is the published one and the size is settled: the claim's if it has one, else the file's own if the last chunk can be fetched, else the estimate. |
| Stream.Stream.SetSize | player/stream.go:92-120 | Each source of the size in its order; the file's own size when the last chunk can be fetched. |
| Stream.Stream.GetStreamSizeFromLastBlobSize | player/stream.go:271-289 | An error-free result is the length of the file. |
| Stream.Stream.Seek | player/stream.go:128-154 | Moves to the accepted target and nowhere else; a refused seek changes nothing; the call is recorded. |
| Stream.Stream.Read | player/stream.go:158-174 | Writes a prefix of the bytes at the offset and advances by it; all of them without an error, or if only the terminator can fail; never panics on a non-empty read; the call and its bytes are recorded. |
| Stream.Stream.ReadFromChunks | player/stream.go:176-189 | The same for the read before the position moves. |
| Stream.Stream.AttemptReadFromChunks | player/stream.go:191-210 | The in-place loop over chunks leaves the buffer with a prefix of the result, all of it if no content fetch fails. |
| Stream.Stream.GetChunk | player/stream.go:213-240 | A content chunk comes back as published and fills the memo; a memo hit touches no cache, a miss asks the hot cache; the out-of-bounds, index and empty-memo outcomes happen exactly where stated; a new chunk starts a prefetch at most once per index, anything else none. |
| Stream.Stream.StartPrefetch | player/stream.go:230-235 | Starts at a chunk exactly if prefetching is on and none was started there. |
| Stream.Stream.PrefetchChunk | player/stream.go:242-268 | Considers consecutive blobs from the start on, each once, within the window and never the terminator; the whole window if fetches do not fail. |
| Stream.Stream.PrefetchOne | player/stream.go:254-266 | A blob that is in the hot cache is left alone; any other is asked of the hot cache, once. |
| Stream.Stream.PositionIs | player/stream.go:128-174 | After any sequence of Seek and Read calls on a stream, it stands at the last accepted target plus the bytes delivered since, and these are the file's bytes from that target on, in order and without gap. |
| Stream.Stream.PositionFromStart | player/stream.go:128-174 | The same from the beginning of the file, before any seek was accepted. |
| ReaderRuns.OutputIsSlice | player/stream.go:158-174 | Reads of at most one chunk, with any refused seeks between them, deliver one slice of the file. |
| ReaderRuns.PositionIsNatural | player/stream.go:128-154 | After any run the position is not negative. |
| Stream.Stream.SeekStartAcceptsIff | player/stream.go:128-154 | Of a stream's seeks from the start while its size was below 2^53, exactly those to targets from zero to the size of a non-empty file were accepted. |
| Stream.Stream.SeekAcceptsIff | player/stream.go:128-154 | Of all a stream's seeks while its size was below 2^53, from the start, the position or the end: exactly which were accepted, and where they went. |
| Stream.Stream.SeeksCompose | player/stream.go:128-154 | A seek to a followed by one from there by b ends where a seek to a + b does. |
| ReaderRuns.SeekRefusesInsideLargeFile | player/stream.go:133 | Beyond 2^53 a seek to the end of the file can be refused: a concrete size. |
| GoStrings.SplitUndoesJoin | player/server.go:134 | Splitting at commas returns the list that was joined with them. |
| GoStrings.JoinUndoesSplit | player/server.go:134 | Every text is the join of its split, whose parts have no commas. |
| GoStrings.TrimSpaceRemoves | player/server.go:135 | Trimming removes exactly the surrounding white space. |
| GoStrings.TrimSpaceLeaves | player/server.go:135 | Every text is its trimmed form with white space around it, and the trimmed form has none at its ends. |
| GoStrings.ParseOfFormat | player/server.go:158 | Decimal parsing undoes decimal printing over all of int64. |
| GoStrings.FormatIsCanonical | player/server.go:205 | Printing gives no leading zero, and a sign only to negative numbers. |
| GoStrings.ParseIntIff | player/server.go:148 | What parses are the decimal numerals in int64, with or without a sign, and to their values. |
| GoStrings.DigitsConcatenate | player/server.go:148 | Digits count by tens. |
| RangeHeader.ParseRange | player/server.go:124-190 | The loop returns the first invalid item's error, else non-overlap if something was out of range and nothing was kept, else the kept ranges in order. |
| HeaderText.ItemSays | player/server.go:135-182 | Any list item, told by its characters: blank, without a dash, or what the texts on the two sides of its first dash say; with what range comes out of it. |
| HeaderText.BadIff | player/server.go:139-176 | An item is invalid iff it is malformed: no dash, or no numeral where one is needed, or an end before the start. |
| HeaderText.InvalidIff | player/server.go:124-190 | For every text after "bytes=": the header is invalid iff one of its comma-separated items is malformed, whatever the others are. |
| HeaderText.TextIsList | player/server.go:134 | Every text is one list of comma-separated items, and only one. |
| RangeMeaning.CoversIsUnique | player/server.go:145-182 | The bytes that a spec selects leave no choice of range. |
| RangeMeaning.ParserMeans | player/server.go:124-190 | On every grammatical header: when it is invalid, when it does not overlap, and otherwise one range per kept spec, in order, inside the file, holding exactly the bytes the spec selects. |
| RangeMeaning.ParserUndoesPrinter | player/server.go:124-190 | Every non-empty list of non-empty ranges inside the file, printed as a header, parses to itself. |
| RangeMeaning.ContentRangeSentBack | player/server.go:204-206 | The range part of a Content-Range, sent back as a Range, parses to the range that was served. |
| RangeMeaning.AnyItemIsInsideIff | player/server.go:145-182 | On any header at all, a kept range lies inside the file iff it does not come from a suffix length with a minus sign. |
| RangeMeaning.AnyRangeIsInside | player/server.go:124-190 | On any header at all, a returned range of non-negative length lies inside the file. |
| Server.SumRangesSize | player/server.go:197-202 | The sum of the lengths, whatever they are, wrapped once to int64; the sum itself whenever that fits. |
| Server.PlanIsPartialIff | player/server.go:54-62 | A partial response is planned iff the header yields exactly one range and it is not longer than the file. |
| Server.CopyN | player/server.go:101-107 | The copy loop ends, sends consecutive bytes from the position on, and sends all of them if no content fetch can fail; it never panics. |
| Server.ProbeIndex | player/server.go:80-86 | The probe asks for a content chunk, or for the terminator exactly at the end of a file that ends on a chunk boundary. |
| Server.ServeStream | player/server.go:37-109 | For every header: the status, headers (see `Delivery.AnnouncedLength`) and body of the answer. A body is a prefix of the right slice, and all of it if no content fetch can fail; a refusal has its reason and text, and without a failing fetch it is never given for a range of existing bytes that Seek accepts. |
| Server.Play | player/http_handlers.go:273-301 | Preparing and serving compose: with the claim's, the exact or the estimated size, each in its case, every byte asked for exists. |
| Server.SizeFits | player/stream.go:92-120 | A settled size does not exceed the file, unless it wrapped because the file has fewer than 16 bytes. |
| Delivery.EndToEnd | player/server.go:37-109 | For every grammatical header and every file whose blobs can be fetched, by the grammar's own conditions: a refusal if an element is unacceptable, or (then with the size) if some start lies outside and none is kept; exactly the selected bytes as a 206 if one spec is kept; the whole file as a 200 if none or several are. Content-Length, unless the response is encoded, is the decimal numeral of the body's length. The 206 takes a start that Seek accepts, as it does every start below 2^53 in a non-empty file, and bytes to send or a file that does not end on a chunk boundary. |
| Delivery.AnnouncedLength | player/server.go:93-95 | For every answer, to GET and HEAD: no Content-Length if encoded, else a numeral that parses to the file's size for a 200 and to the range's length for a 206. |
| Delivery.AnyBodyIsAnnounced | player/server.go:93-107 | For every header and complete file below 2^53 bytes, the announced length is that of the body. |
| Delivery.HeadIsGetWithoutBody | player/server.go:79-107 | HEAD is answered like GET, without the body. |
| Delivery.MalformedIsRefused | player/server.go:45-52 | A header with a malformed item is refused with the text "invalid range", for GET and HEAD, before anything is fetched. |
| Delivery.SeekRefusalText | player/server.go:75-78 | The text of a refusal by Seek. |
| Delivery.ReachableIff | player/stream.go:128-154 | When Seek accepts the start of a range, and the error if it does not. |
| Delivery.Get | player/http_handlers.go:273-301 | A new stream over the shared caches, prepared and served, answers any header as `Server.ServeStream` says for the whole published file, whatever the caches hold; the claim tells the size or is a stream without one. |
| Delivery.GetElements | player/server.go:37-109 | The response that the server returns to a grammatical request satisfies the conclusion of `Delivery.EndToEnd`. |
| Delivery.Download | player/server.go:62-108 | A client that asks for consecutive ranges, one request after the other over one pair of caches that others change in between, ends up with the file, if none of its fetches fails. |
| Delivery.EveryPlanIsAnswered | player/server.go:37-109 | Every plan has an answer for every source; a range that can be reached is answered with 206 unless the probe crashes. |
| Delivery.WithoutByteRanges | player/server.go:37-109 | Without the header the whole file is sent; a header in another unit is refused. |
| Delivery.AnyPartialIsInside | player/server.go:62-91 | Whatever the header says, a 206 announces a range inside the file and sends a prefix of it. |
| Delivery.ZeroSuffix | player/server.go:80-86 | A suffix of zero bytes crashes exactly on a fresh reader of a file that ends on a chunk boundary; off a boundary it is answered with an empty 206. |
| Delivery.CrashesIff | player/stream.go:213-223 | For every header and every file below 2^53 bytes: a request crashes iff it is a GET and it asks a fresh reader for the empty range at the end of a non-empty file that ends on a chunk boundary; no request for a byte dereferences the empty memo or indexes past the blobs. |
| Delivery.CrashesIffZeroSuffix | player/server.go:80-86 | For every grammatical header: that range is asked for exactly if no element is unacceptable and the one kept spec is a suffix of zero bytes. |
| Delivery.ResumedDownload | player/server.go:62-108 | The bodies of consecutive ranges that partition a file, each served from any cache state, concatenate to the file. |
| Firewall.RateLimiter.CheckAndRateLimitIp | firewall/firewall.go:96-130 | The verdict and the new entry are those of the specification function; other addresses' entries can only be dropped, and only once there are a thousand. |
| Firewall.RateLimiter.PruneAndCount | firewall/firewall.go:116-128 | In whatever order the map is walked, exactly the tokens in the window stay and are counted, and the flag says whether the count exceeds the limit. |
| Firewall.LogIsHistory | firewall/firewall.go:96-130 | The log that counts are compared with is the full history of counted calls, in order. |
| Firewall.InvOfRun | firewall/firewall.go:96-130 | Over every run of calls by any addresses, expiries and evictions, each entry holds the last uses logged since its creation, except those out of the window. |
| Firewall.CountIsExactInLife | firewall/firewall.go:113-129 | Told from the events alone: the count is the number of distinct endpoints used in the window since the entry was created (`Birth`), and the flag holds iff it exceeds four. |
| Firewall.BornIs | firewall/firewall.go:103-115 | Over every run, the entries that exist, and when they were created and expire, are those told from the events alone: an eviction or a call more than ten windows after creation ends one. |
| Firewall.EntryLivesTenWindows | firewall/firewall.go:103-115 | Over every run, an entry that is not evicted lives for ten windows after its creation, however it is used. |
| Firewall.UncountedIff | firewall/firewall.go:96-102 | Exactly the calls without an address and those of the exempt address are answered (false, 0) and left out of the history. |
| Firewall.NeverOvercounts | firewall/firewall.go:96-130 | Told from the events alone, against the full history the count is never too high, and it is right iff every recent endpoint was used since the entry was created, in particular once the entry is older than the window. |
| Firewall.RenewalUndercounts | firewall/firewall.go:107-111 | An entry is not refreshed by use, so the count does fall short when it expires: a concrete run. |
| Firewall.CallIsAStep | firewall/firewall.go:96-130 | What the method ensures of a call makes it a step of a run: an eviction of other addresses' entries, then the call. |
| Firewall.AddressesAreIndependent | firewall/firewall.go:103-115 | Over every run, an address's entry is the one it would have had without the calls of all other addresses and the evictions of their entries. |
| Firewall.VerdictsAreIndependent | firewall/firewall.go:96-130 | Over every run, so is every verdict. |

## Left out

- HTTP routing, access checks, the other response headers, throttling, deadlines, metrics and logging: plumbing around the modelled code.
- HEAD requests: the handler answers them itself (player/http_handlers.go:293-294); `ServeStream`'s own HEAD branches are modelled.
- Cryptography, descriptor parsing, the disk store and the origin: parameters of the model.
- The replacement policy of the hot cache: any choice of evicted entries within the capacity.
- A retry after the cache library recovers from a loader panic: a panic is a final outcome here.
- Byte strings that are not valid UTF-8 in headers: strings are sequences of Unicode characters.
- Stream.Stream.Read: reads that reach past the end of the file are not modelled, because the copy loop never asks for them when the size is settled as in `Server.SizeFits`.
- Server.ServeStream: a claimed size larger than the file is not modelled; the claim's size is taken to be at most the file's.
- Delivery.Get: covers files served at their own size; a claimed size below it, or an estimated one, is covered by `Server.Play` alone.
- Stream.Stream.StartPrefetch: the prefetch takes its steps at once; its races with the reader are those of `Flights`.
- Caches.HotCache.JoinedFlight: what a joined flight brings is chosen freely among the outcomes that `Flights.LandedIsTrue` allows, not taken from a flight object.
- Data races inside one call of the rate limiter: calls are atomic.
- GeoIP lookups, blocked content, token validation, MIME types and file names: external services or table look-ups.
