/** Runs of Seek and Read on one stream (player/stream.go): where the reader stands, and what it has delivered. */
module ReaderRuns {
  import opened Common
  import opened Chunk
  import opened Content
  import Float64

  /** Errors of the reader.  IndexPanic and NilMemoPanic are the two places where the program would panic:
      indexing one past the blob list, and dereferencing the memo before it was ever filled. */
  datatype StreamError =
    | SizeZero
    | SeekOutOfBounds
    | SeekBeforeStart
    | InvalidWhence
    | IndexOutOfBounds
    | Unavailable
    | ZeroRead
    | NotAStream
    | IndexPanic
    | NilMemoPanic
  {
    predicate IsPanic() { IndexPanic? || NilMemoPanic? }
  }

  datatype Whence = SeekStart | SeekCurrent | SeekEnd | OtherWhence

  /** Where Seek would move the reader, or why it refuses. */
  function SeekTarget(size: nat, position: int, offset: int, whence: Whence): Result<int, StreamError>
  {
    if size == 0 then Err(SizeZero)
    else if Float64.Round(if offset < 0 then -offset else offset) > size then Err(SeekOutOfBounds)
    else if whence == OtherWhence then Err(InvalidWhence)
    else
      var target := match whence
                    case SeekStart => offset
                    case SeekCurrent => Int64(position + offset)
                    case _ => Int64(Int64(size) - offset);
      if target < 0 then Err(SeekBeforeStart) else Ok(target)
  }

  /** A call of Seek with the stream's size at the time, or a Read into dest[lo..hi] that delivered some bytes. */
  datatype Call = Sought(size: nat, offset: int, whence: Whence) | Delivered(lo: nat, hi: nat, bytes: Bytes)

  function Moved(position: int, call: Call): int
  {
    match call
    case Delivered(_, _, bytes) => position + |bytes|
    case Sought(size, offset, whence) =>
      match SeekTarget(size, position, offset, whence)
      case Ok(target) => target
      case Err(_) => position
  }

  function Position(calls: seq<Call>): int
  {
    if calls == [] then 0 else Moved(Position(calls[..|calls| - 1]), calls[|calls| - 1])
  }

  /** Call k is a seek that was not refused. */
  predicate Accepted(calls: seq<Call>, k: nat)
    requires k < |calls|
  {
    var call := calls[k];
    call.Sought? && SeekTarget(call.size, Position(calls[..k]), call.offset, call.whence).Ok?
  }

  function Target(calls: seq<Call>, k: nat): int
    requires k < |calls| && Accepted(calls, k)
  {
    SeekTarget(calls[k].size, Position(calls[..k]), calls[k].offset, calls[k].whence).value
  }

  /** From call k on, no seek was accepted. */
  ghost predicate NoSeekSince(calls: seq<Call>, k: nat)
  {
    forall j: nat :: k <= j < |calls| ==> !Accepted(calls, j)
  }

  /** From call k on, no read had room for more than one chunk. */
  predicate ReadsFitSince(calls: seq<Call>, k: nat)
  {
    forall j :: k <= j < |calls| && calls[j].Delivered? ==> calls[j].hi - calls[j].lo <= MAX_CHUNK_SIZE
  }

  /** The bytes that the reads among the calls delivered, in order. */
  function Output(calls: seq<Call>): Bytes
  {
    if calls == [] then []
    else
      Output(calls[..|calls| - 1]) +
      match calls[|calls| - 1] case Delivered(_, _, bytes) => bytes case Sought(_, _, _) => []
  }

  /** Every read delivered a prefix of what a read at its position gives. */
  ghost predicate Faithful(content: Bytes, calls: seq<Call>)
  {
    calls == [] ||
    (&& Faithful(content, calls[..|calls| - 1])
     && FaithfulNext(content, Position(calls[..|calls| - 1]), calls[|calls| - 1]))
  }

  ghost predicate FaithfulNext(content: Bytes, position: int, call: Call)
  {
    call.Delivered? ==>
      && 0 <= position && call.lo <= call.hi && position + (call.hi - call.lo) <= |content|
      && call.bytes <= ReadBytes(content, position, call.hi - call.lo)
  }

  lemma OneMoreCall(content: Bytes, calls: seq<Call>, call: Call, more: seq<Call>)
    requires Faithful(content, calls) && FaithfulNext(content, Position(calls), call) && more == calls + [call]
    ensures Faithful(content, more) && Position(more) == Moved(Position(calls), call)
  {
    assert more[..|more| - 1] == calls;
  }

  lemma PartIsFaithful(content: Bytes, position: nat, lo: nat, hi: nat, out: Bytes, n: nat)
    requires lo <= hi && position + (hi - lo) <= |content| && out == ReadBytes(content, position, hi - lo) && n <= |out|
    ensures FaithfulNext(content, position, Delivered(lo, hi, out[..n]))
  {
  }

  /** However much of a read is delivered, the reader moves past just that. */
  lemma Delivers(content: Bytes, calls: seq<Call>, position: nat, lo: nat, hi: nat, out: Bytes, n: nat,
                 more: seq<Call>, next: nat)
    requires Faithful(content, calls) && position == Position(calls)
    requires lo <= hi && position + (hi - lo) <= |content| && out == ReadBytes(content, position, hi - lo) && n <= |out|
    requires more == calls + [Delivered(lo, hi, out[..n])] && next == position + n
    ensures Faithful(content, more) && next == Position(more)
  {
    PartIsFaithful(content, position, lo, hi, out, n);
    OneMoreCall(content, calls, Delivered(lo, hi, out[..n]), more);
  }

  lemma {:induction false} PositionIsNatural(calls: seq<Call>)
    ensures Position(calls) >= 0
  {
    if calls != [] {
      PositionIsNatural(calls[..|calls| - 1]);
    }
  }

  lemma NoSeekBefore(calls: seq<Call>, k: nat)
    requires k < |calls| && NoSeekSince(calls, k)
    ensures NoSeekSince(calls[..|calls| - 1], k) && !Accepted(calls, |calls| - 1)
  {
    var fewer := calls[..|calls| - 1];
    forall j: nat | k <= j < |fewer|
      ensures !Accepted(fewer, j)
    {
      assert fewer[..j] == calls[..j] && !Accepted(calls, j);
    }
  }

  /** Refused seeks, however many, change nothing: the reader has moved by what was delivered. */
  lemma {:induction false} MovedByOutput(calls: seq<Call>, k: nat)
    requires k <= |calls| && NoSeekSince(calls, k)
    ensures Position(calls) == Position(calls[..k]) + |Output(calls[k..])|
  {
    if k < |calls| {
      var n := |calls| - 1;
      NoSeekBefore(calls, k);
      MovedByOutput(calls[..n], k);
      OutputOfLast(calls, k);
      assert calls[..n][..k] == calls[..k];
    } else {
      assert calls[..k] == calls;
    }
  }

  lemma OutputOfLast(calls: seq<Call>, k: nat)
    requires k < |calls|
    ensures var n := |calls| - 1;
            Output(calls[k..]) == Output(calls[..n][k..]) + if calls[n].Delivered? then calls[n].bytes else []
  {
    var n := |calls| - 1;
    assert calls[k..][..n - k] == calls[..n][k..];
  }

  /** What was delivered since is one slice of the file, without gap or repetition. */
  lemma {:induction false} OutputIsSlice(content: Bytes, calls: seq<Call>, k: nat, from: int)
    requires k <= |calls| && NoSeekSince(calls, k) && ReadsFitSince(calls, k) && Faithful(content, calls)
    requires from == Position(calls[..k]) && 0 <= from <= |content|
    ensures from <= Position(calls) <= |content|
    ensures Output(calls[k..]) == content[from..Position(calls)]
  {
    if k < |calls| {
      var n := |calls| - 1;
      assert calls[..n][..k] == calls[..k];
      NoSeekBefore(calls, k);
      OutputIsSlice(content, calls[..n], k, from);
      OutputOfLast(calls, k);
      LastIsSlice(content, calls[n], from, Position(calls[..n]), Position(calls));
    } else {
      assert calls[..k] == calls;
    }
  }

  lemma LastIsSlice(content: Bytes, call: Call, from: nat, at: nat, next: int)
    requires from <= at <= |content| && FaithfulNext(content, at, call)
    requires next == if call.Delivered? then at + |call.bytes| else at
    requires call.Delivered? ==> call.hi - call.lo <= MAX_CHUNK_SIZE
    ensures at <= next <= |content|
    ensures content[from..at] + (if call.Delivered? then call.bytes else []) == content[from..next]
  {
    if call.Delivered? {
      DeliveredIsSlice(content, at, call);
      SlicesJoin(content, from, at, next);
    }
  }

  lemma SlicesJoin(content: Bytes, a: nat, b: nat, c: nat)
    requires a <= b <= c <= |content|
    ensures content[a..b] + content[b..c] == content[a..c]
  {
  }

  lemma DeliveredIsSlice(content: Bytes, position: int, call: Call)
    requires call.Delivered? && FaithfulNext(content, position, call) && call.hi - call.lo <= MAX_CHUNK_SIZE
    ensures position + |call.bytes| <= |content| && call.bytes == content[position..position + |call.bytes|]
  {
    var room: nat := call.hi - call.lo;
    ReadIsExactIff(content, position, room);
    var all := content[position..position + room];
    assert call.bytes == all[..|call.bytes|];
  }

  /** The reader stands at the last accepted seek's target plus the bytes delivered since, and these are
      the file's bytes from there on. */
  lemma OutputSince(content: Bytes, calls: seq<Call>, k: nat)
    requires k < |calls| && Accepted(calls, k) && NoSeekSince(calls, k + 1) && Faithful(content, calls)
    ensures Position(calls) == Target(calls, k) + |Output(calls[k + 1..])|
    ensures ReadsFitSince(calls, k + 1) && Target(calls, k) <= |content| ==>
              && 0 <= Target(calls, k) <= Position(calls) <= |content|
              && Output(calls[k + 1..]) == content[Target(calls, k)..Position(calls)]
  {
    assert calls[..k + 1][..k] == calls[..k];
    assert Position(calls[..k + 1]) == Target(calls, k);
    MovedByOutput(calls, k + 1);
    if ReadsFitSince(calls, k + 1) && Target(calls, k) <= |content| {
      OutputIsSlice(content, calls, k + 1, Target(calls, k));
    }
  }

  /** Below 2^53 bytes, a seek from the start is accepted exactly for targets from 0 to the size of a non-empty file. */
  lemma StartTargets(size: nat, position: int, offset: int)
    requires size < Float64.TWO_53
    ensures SeekTarget(size, position, offset, SeekStart).Ok? <==> size > 0 && 0 <= offset <= size
    ensures SeekTarget(size, position, offset, SeekStart).Ok? ==>
              SeekTarget(size, position, offset, SeekStart).value == offset
  {
    if offset >= 0 {
      if offset <= Float64.TWO_53 {
        Float64.RoundIsExact(offset);
      } else {
        Float64.RoundKeepsLarge(offset);
      }
    }
  }

  /** Where a seek is meant to go. */
  function Goal(size: nat, position: int, offset: int, whence: Whence): int
  {
    match whence
    case SeekStart => offset
    case SeekCurrent => position + offset
    case _ => size - offset
  }

  lemma RoundsWithin(size: nat, x: nat)
    requires size < Float64.TWO_53
    ensures Float64.Round(x) > size <==> x > size
  {
    if x <= Float64.TWO_53 {
      Float64.RoundIsExact(x);
    } else {
      Float64.RoundKeepsLarge(x);
    }
  }

  /** Below 2^53 bytes, a seek is accepted exactly if the file is not empty, the offset is at most the size either way,
      and its goal is neither negative nor beyond int64; then it goes there. */
  lemma SeekAcceptsIff(size: nat, position: int, offset: int, whence: Whence)
    requires size < Float64.TWO_53 && 0 <= position < TWO_63
    ensures var goal := Goal(size, position, offset, whence);
            && (SeekTarget(size, position, offset, whence).Ok? <==>
                  size > 0 && -offset <= size && offset <= size && whence != OtherWhence && 0 <= goal < TWO_63)
            && (SeekTarget(size, position, offset, whence).Ok? ==>
                  SeekTarget(size, position, offset, whence).value == goal)
  {
    RoundsWithin(size, if offset < 0 then -offset else offset);
    if -offset <= size && offset <= size {
      WrapsNegative(position + offset);
      WrapsNegative(size - offset);
    }
  }

  /** Just beyond int64, a sum turns negative. */
  lemma WrapsNegative(x: int)
    requires -TWO_63 <= x < TWO_64
    ensures Int64(x) >= 0 <==> 0 <= x < TWO_63
    ensures x < TWO_63 ==> Int64(x) == x
  {
    if x >= TWO_63 {
      assert (x + TWO_63) / TWO_64 == 1;
    }
  }

  /** A seek to a and one from there by b end where a seek to a + b does. */
  lemma SeeksCompose(size: nat, position: int, a: int, b: int)
    requires size < Float64.TWO_53 && 0 <= position < TWO_63
    requires SeekTarget(size, position, a, SeekStart).Ok?
    requires SeekTarget(size, SeekTarget(size, position, a, SeekStart).value, b, SeekCurrent).Ok?
    requires SeekTarget(size, position, a + b, SeekStart).Ok?
    ensures SeekTarget(size, SeekTarget(size, position, a, SeekStart).value, b, SeekCurrent)
            == SeekTarget(size, position, a + b, SeekStart)
  {
    SeekAcceptsIff(size, position, a, SeekStart);
    SeekAcceptsIff(size, a, b, SeekCurrent);
    SeekAcceptsIff(size, position, a + b, SeekStart);
  }

  /** Beyond 2^53 the float64 comparison can refuse an offset inside the file. */
  lemma SeekRefusesInsideLargeFile()
    ensures var size := Float64.TWO_53 + 3;
            SeekTarget(size, 0, size, SeekStart) == Err(SeekOutOfBounds)
  {
    var size := Float64.TWO_53 + 3;
    assert Float64.Ulp(size) == 2 by {
      assert Float64.Ulp(size / 2) == 1;
    }
    assert Float64.Round(size) == size + 1;
  }
}
