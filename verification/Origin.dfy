/** The blobs at the origin, what they mean, and what the two caches may hold. */
module Origin {
  import opened Common
  import opened Chunk

  datatype BlobInfo = BlobInfo(hash: string, iv: Bytes, length: int)
  datatype SDBlob = SDBlob(key: Bytes, blobInfos: seq<BlobInfo>)

  /** What a caller expects behind a hash: a stream descriptor, or a chunk under a key and an iv. */
  datatype Use = AsSD | AsChunk(key: Bytes, iv: Bytes)

  datatype Request = Request(hash: string, use: Use)

  /** An entry of the hot cache. */
  datatype Item = SizedSD(sd: SDBlob) | SizedSlice(bytes: Bytes)

  /** The parts of the system the model does not look into: the origin's blobs, the hashes whose fetch never fails
      (every other fetch may fail whenever it is made), decryption, descriptor parsing, and the one use that each
      stored hash is meant for. */
  datatype World = World(
    blobs: map<string, Bytes>,
    reliable: set<string>,
    decrypt: (Bytes, Bytes, Bytes) -> Option<Bytes>,
    parse: Bytes -> Option<SDBlob>,
    use: string -> Use)
  {
    /** Decrypting removes at least one byte of padding (section 6.3 of RFC 5652). */
    ghost predicate PaddingShrinks()
    {
      forall data, key, iv :: decrypt(data, key, iv).Some? ==> |decrypt(data, key, iv).value| < |data|
    }

    ghost predicate WellFormed()
    {
      && PaddingShrinks()
      && (forall hash :: hash in blobs ==> |blobs[hash]| <= MAX_BLOB_SIZE)
    }

    /** Two requests for a stored hash want the same thing of it. */
    predicate Alike(req: Request, other: Request)
    {
      (req.use.AsSD? <==> other.use.AsSD?) && Truth(req) == Truth(other)
    }

    /** A failed fetch does not pass for a success: if it can fail, decryption rejects the empty data that comes back,
        or happens to make the right chunk of it. */
    predicate FailureShows(req: Request)
    {
      req.use.AsChunk? && (req.hash !in blobs || req.hash !in reliable) ==>
        var got := decrypt([], req.use.key, req.use.iv);
        got.Some? ==> Truth(req) == Some(SizedSlice(got.value))
    }

    /** The request wants of a stored hash what the hash is for, and its failures show. */
    predicate Conforms(req: Request)
    {
      && (req.hash in blobs ==> Alike(req, Request(req.hash, use(req.hash))))
      && FailureShows(req)
    }

    /** The decrypted cache's miss function.  The origin's error (fetched == None) is only looked at for
        descriptors: for a chunk, decryption runs on whatever data came back. */
    function GetFunc(use: Use, fetched: Option<Bytes>): Option<Bytes>
    {
      match use
      case AsSD => fetched
      case AsChunk(key, iv) => decrypt(if fetched.Some? then fetched.value else [], key, iv)
    }

    /** What GetSDBlob or GetChunk of the decrypted cache makes of stored bytes. */
    function Present(use: Use, stored: Bytes): Option<Item>
    {
      match use
      case AsChunk(_, _) => Some(SizedSlice(stored))
      case AsSD =>
        match parse(stored)
        case Some(sd) => Some(SizedSD(sd))
        case None => None
    }

    /** The item a request stands for: the parsed or decrypted origin blob, if there is one. */
    function Truth(req: Request): Option<Item>
    {
      if req.hash !in blobs then None
      else
        match req.use
        case AsSD =>
          (match parse(blobs[req.hash])
           case Some(sd) => Some(SizedSD(sd))
           case None => None)
        case AsChunk(key, iv) =>
          (match decrypt(blobs[req.hash], key, iv)
           case Some(bytes) => Some(SizedSlice(bytes))
           case None => None)
    }

    predicate HotAgrees(hot: map<string, Item>)
    {
      forall hash :: hash in hot ==> hash in blobs && Truth(Request(hash, use(hash))) == Some(hot[hash])
    }

    predicate DiskAgrees(disk: map<string, Bytes>)
    {
      forall hash :: hash in disk ==> hash in blobs && GetFunc(use(hash), Some(blobs[hash])) == Some(disk[hash])
    }
  }

  /** What both caches keep at all times: agreement with the origin, and the hot cache's entry capacity. */
  ghost predicate CachesAgree(w: World, maxSizeInBytes: nat, hot: map<string, Item>, disk: map<string, Bytes>)
  {
    && w.HotAgrees(hot)
    && w.DiskAgrees(disk)
    && |hot| <= HotCapacity(maxSizeInBytes)
  }

  /** What a conforming request stands for is what the hash is for. */
  lemma SameTruth(w: World, req: Request)
    requires w.Conforms(req)
    ensures w.Truth(req) == w.Truth(Request(req.hash, w.use(req.hash)))
    ensures req.hash in w.blobs ==>
              w.GetFunc(req.use, Some(w.blobs[req.hash])) == w.GetFunc(w.use(req.hash), Some(w.blobs[req.hash]))
  {
  }

  /** Bytes that GetFunc returns without error for a conforming request are the origin's, even when the fetch failed. */
  lemma FetchedIsTrue(w: World, req: Request, fetched: Option<Bytes>)
    requires w.Conforms(req)
    requires fetched.Some? ==> req.hash in w.blobs && fetched.value == w.blobs[req.hash]
    requires fetched.None? ==> req.hash !in w.blobs || req.hash !in w.reliable
    requires w.GetFunc(req.use, fetched).Some?
    ensures req.hash in w.blobs
    ensures w.GetFunc(req.use, fetched) == w.GetFunc(req.use, Some(w.blobs[req.hash]))
    ensures w.GetFunc(req.use, fetched) == w.GetFunc(w.use(req.hash), Some(w.blobs[req.hash]))
  {
    SameTruth(w, req);
  }

  /** Bytes on disk, presented for the hash's use, are the truth. */
  lemma PresentedIsTrue(w: World, req: Request, stored: Bytes)
    requires req.hash in w.blobs
    requires w.GetFunc(req.use, Some(w.blobs[req.hash])) == Some(stored)
    ensures w.Present(req.use, stored) == w.Truth(req)
  {
  }

  lemma TrueChunksAreBounded(w: World, req: Request)
    requires w.WellFormed()
    requires w.Truth(req).Some? && w.Truth(req).value.SizedSlice?
    ensures |w.Truth(req).value.bytes| <= MAX_CHUNK_SIZE
  {
  }

  /** Bytes of decrypted chunks held by a hot cache. */
  ghost function ChunkBytes(hot: map<string, Item>): nat
  {
    if hot == map[] then 0
    else
      var hash := AnyKey(hot);
      ChunkSize(hot[hash]) + ChunkBytes(hot - {hash})
  }

  ghost function AnyKey(hot: map<string, Item>): (hash: string)
    requires hot != map[]
    ensures hash in hot
  {
    assert hot.Keys != {};
    var hash :| hash in hot;
    hash
  }

  function HotCapacity(maxSizeInBytes: nat): nat { maxSizeInBytes / MAX_BLOB_SIZE }

  ghost function ChunkSize(item: Item): nat
  {
    match item case SizedSlice(bytes) => |bytes| case SizedSD(_) => 0
  }

  lemma {:induction false} ChunkBytesBound(hot: map<string, Item>)
    requires forall hash :: hash in hot ==> ChunkSize(hot[hash]) <= MAX_CHUNK_SIZE
    ensures ChunkBytes(hot) <= |hot| * MAX_CHUNK_SIZE
  {
    if hot != map[] {
      var hash := AnyKey(hot);
      var rest := hot - {hash};
      assert rest.Keys == hot.Keys - {hash};
      assert |rest| == |hot| - 1;
      ChunkBytesBound(rest);
      assert ChunkBytes(hot) == ChunkSize(hot[hash]) + ChunkBytes(rest);
    }
  }

  /** A hot cache within its entry capacity holds at most maxSizeInBytes of decrypted chunks. */
  lemma HotMemoryBound(w: World, hot: map<string, Item>, maxSizeInBytes: nat)
    requires w.WellFormed() && w.HotAgrees(hot)
    requires |hot| <= HotCapacity(maxSizeInBytes)
    ensures ChunkBytes(hot) <= maxSizeInBytes
  {
    forall hash | hash in hot
      ensures ChunkSize(hot[hash]) <= MAX_CHUNK_SIZE
    {
      if hot[hash].SizedSlice? {
        TrueChunksAreBounded(w, Request(hash, w.use(hash)));
      }
    }
    ChunkBytesBound(hot);
    CapacityInBytes(|hot|, maxSizeInBytes);
  }

  /** The capacity is the number of full blobs that fit the configured size. */
  lemma CapacityIff(entries: nat, maxSizeInBytes: nat)
    ensures entries <= HotCapacity(maxSizeInBytes) <==> entries * MAX_BLOB_SIZE <= maxSizeInBytes
  {
  }

  lemma CapacityInBytes(entries: nat, maxSizeInBytes: nat)
    requires entries <= HotCapacity(maxSizeInBytes)
    ensures entries * MAX_CHUNK_SIZE <= maxSizeInBytes
  {
  }
}
