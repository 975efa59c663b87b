/** Stream size from blob lengths alone, for when the last chunk cannot be fetched (player/stream.go, setSize). */
module Size {
  import opened Common
  import opened Chunk
  import opened Content
  import opened Origin

  /** PKCS#7 padding to 16-byte blocks always adds at least one byte (section 6.3 of RFC 5652). */
  function PaddedLength(n: nat): nat { (n / 16 + 1) * 16 }

  ghost predicate PaddedLengths(infos: seq<BlobInfo>, chunks: seq<Bytes>)
  {
    && |infos| == |chunks| + 1
    && (forall i :: 0 <= i < |chunks| ==> infos[i].length == PaddedLength(|chunks[i]|))
    && infos[|chunks|].length == 0
  }

  /** The running sum over the blobs, in uint64 arithmetic. */
  function LengthSum(infos: seq<BlobInfo>): nat
  {
    if infos == [] then 0
    else
      var n := |infos| - 1;
      Uint64(LengthSum(infos[..n]) +
             if infos[n].length == MAX_BLOB_SIZE then MAX_CHUNK_SIZE else Uint64(infos[n].length - 1))
  }

  function FallbackSize(infos: seq<BlobInfo>): nat { Uint64(LengthSum(infos) - 16) }

  /** Adding the terminator's wrapped length takes one away. */
  lemma Uint64MinusOne(s: nat)
    requires 1 <= s < TWO_64
    ensures Uint64(s + Uint64(-1)) == s - 1
  {
    assert Uint64(-1) == TWO_64 - 1;
  }

  lemma {:induction false} LengthSumOfContent(infos: seq<BlobInfo>, chunks: seq<Bytes>, k: nat)
    requires IsChunking(chunks) && PaddedLengths(infos, chunks) && k <= |chunks|
    requires MAX_CHUNK_SIZE * |chunks| + MAX_BLOB_SIZE < TWO_64
    ensures LengthSum(infos[..k]) ==
              if k == |chunks| && k > 0 then MAX_CHUNK_SIZE * (k - 1) + PaddedLength(|chunks[k - 1]|) - 1
              else MAX_CHUNK_SIZE * k
  {
    if k > 0 {
      LengthSumOfContent(infos, chunks, k - 1);
      PaddingFits(|chunks[k - 1]|);
      LengthSumGrows(infos, k, LengthSum(infos[..k - 1]), PaddedLength(|chunks[k - 1]|));
    }
  }

  /** A blob adds its length less one, whether it is full or not. */
  lemma LengthSumGrows(infos: seq<BlobInfo>, k: nat, sum: nat, length: nat)
    requires 1 <= k <= |infos| && infos[k - 1].length == length && LengthSum(infos[..k - 1]) == sum
    requires 1 <= length && sum + length <= TWO_64
    ensures LengthSum(infos[..k]) == sum + length - 1
  {
    assert infos[..k][..k - 1] == infos[..k - 1];
  }

  /** The estimate misses the file size by the two bytes and the block remainder that padding hides,
      modulo 2^64. */
  lemma FallbackSizeIs(infos: seq<BlobInfo>, chunks: seq<Bytes>)
    requires IsChunking(chunks) && PaddedLengths(infos, chunks) && chunks != []
    requires |Flatten(chunks)| < TWO_63
    ensures FallbackSize(infos) == Uint64(|Flatten(chunks)| - 2 - |chunks[|chunks| - 1]| % 16)
  {
    LengthSumOfAll(infos, chunks);
    EstimateOfSum(infos, |Flatten(chunks)|, |chunks[|chunks| - 1]|);
  }

  /** The sum of all lengths, before padding is taken off. */
  lemma LengthSumOfAll(infos: seq<BlobInfo>, chunks: seq<Bytes>)
    requires IsChunking(chunks) && PaddedLengths(infos, chunks) && chunks != []
    requires |Flatten(chunks)| < TWO_63
    ensures LengthSum(infos) == |Flatten(chunks)| + 14 - |chunks[|chunks| - 1]| % 16
  {
    var n, last := |chunks|, |chunks[|chunks| - 1]|;
    SizeOfChunking(chunks);
    ChunksAreFew(chunks);
    LengthSumOfContent(infos, chunks, n);
    PaddingHides(last);
    SumWithoutTerminator(infos, n, LengthSum(infos[..n]), |Flatten(chunks)|, MAX_CHUNK_SIZE * (n - 1), last, last % 16);
  }

  lemma ChunksAreFew(chunks: seq<Bytes>)
    requires IsChunking(chunks) && chunks != [] && |Flatten(chunks)| < TWO_63
    ensures MAX_CHUNK_SIZE * |chunks| + MAX_BLOB_SIZE < TWO_64
  {
    SizeOfChunking(chunks);
  }

  lemma SumWithoutTerminator(infos: seq<BlobInfo>, n: nat, sum: nat, total: nat, base: nat, last: nat, rest: nat)
    requires |infos| == n + 1 && infos[n].length == 0 && LengthSum(infos[..n]) == sum
    requires total == base + last && total < TWO_63 && rest < 16 && rest <= last && sum == base + (last + 16 - rest) - 1
    ensures LengthSum(infos) == total + 14 - rest
  {
    LengthSumOfTerminator(infos, n);
  }

  lemma EstimateOfSum(infos: seq<BlobInfo>, total: nat, last: nat)
    requires LengthSum(infos) == total + 14 - last % 16
    ensures FallbackSize(infos) == Uint64(total - 2 - last % 16)
  {
    assert LengthSum(infos) - 16 == total - 2 - last % 16;
  }

  lemma LengthSumOfTerminator(infos: seq<BlobInfo>, n: nat)
    requires |infos| == n + 1 && infos[n].length == 0 && 1 <= LengthSum(infos[..n]) < TWO_64
    ensures LengthSum(infos) == LengthSum(infos[..n]) - 1
  {
    Uint64MinusOne(LengthSum(infos[..n]));
  }

  lemma LengthSumOfNothing(infos: seq<BlobInfo>)
    requires PaddedLengths(infos, [])
    ensures FallbackSize(infos) == TWO_64 - 17
  {
    assert infos == [infos[0]] && infos[..0] == [];
    assert LengthSum(infos) == Uint64(0 + Uint64(-1)) == TWO_64 - 1;
  }

  /** The padding of a chunk fits its blob, and fills it if the chunk is full. */
  lemma PaddingFits(n: nat)
    requires n <= MAX_CHUNK_SIZE
    ensures 1 <= PaddedLength(n) <= MAX_BLOB_SIZE
    ensures n == MAX_CHUNK_SIZE ==> PaddedLength(n) == MAX_BLOB_SIZE
  {
  }

  lemma PaddingHides(n: nat)
    ensures PaddedLength(n) == n + 16 - n % 16
  {
  }

  /** The estimate stays inside the file if and only if the file has at least 16 bytes; then it is short
      by between 2 and 17 bytes, and otherwise it wraps to 2^64 - 2. */
  lemma FallbackStaysInsideIff(infos: seq<BlobInfo>, chunks: seq<Bytes>)
    requires IsChunking(chunks) && PaddedLengths(infos, chunks) && chunks != []
    requires |Flatten(chunks)| < TWO_63
    ensures FallbackSize(infos) <= |Flatten(chunks)| <==> |Flatten(chunks)| >= 16
    ensures |Flatten(chunks)| >= 16 ==> 2 <= |Flatten(chunks)| - FallbackSize(infos) <= 17
    ensures |Flatten(chunks)| < 16 ==> FallbackSize(infos) == TWO_64 - 2
  {
    FallbackSizeIs(infos, chunks);
    SizeOfChunking(chunks);
    var last := |chunks[|chunks| - 1]|;
    EstimateInsideIff(FallbackSize(infos), |Flatten(chunks)|, last % 16);
  }

  lemma EstimateInsideIff(estimate: nat, size: nat, rest: nat)
    requires size < TWO_63 && estimate == Uint64(size - 2 - rest)
    requires rest < 16 && if size < 16 then rest == size else rest <= size - 16
    ensures estimate <= size <==> size >= 16
    ensures size >= 16 ==> 2 <= size - estimate <= 17
    ensures size < 16 ==> estimate == TWO_64 - 2
  {
    if size < 16 {
      assert size - 2 - rest == -2;
      assert Uint64(-2) == TWO_64 - 2;
    }
  }

  method EstimateFromLengths(infos: seq<BlobInfo>) returns (size: nat)
    ensures size == FallbackSize(infos)
  {
    size := 0;
    for k := 0 to |infos|
      invariant size == LengthSum(infos[..k])
    {
      assert infos[..k + 1][..k] == infos[..k];
      if infos[k].length == MAX_BLOB_SIZE {
        size := Uint64(size + MAX_CHUNK_SIZE);
      } else {
        size := Uint64(size + Uint64(infos[k].length - 1));
      }
    }
    assert infos[..|infos|] == infos;
    // The last chunk's padding cannot be guessed.
    size := Uint64(size - 16);
  }
}
