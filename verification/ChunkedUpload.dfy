/** Resumable chunked upload (handlers/file.go): a session collects chunks in any order, again and again,
    and is finally merged into one file. */
module ChunkedUpload {

  const CHUNK := 0x50_0000  // 5 MiB
  const MAX_CHUNKS := 20000

  const MAX_INT64 := 0x7FFF_FFFF_FFFF_FFFF

  /** What 64-bit arithmetic makes of a sum. */
  function Wrap(x: int): (r: int)
    ensures -MAX_INT64 - 1 <= r <= MAX_INT64
  {
    (x + MAX_INT64 + 1) % (2 * MAX_INT64 + 2) - MAX_INT64 - 1
  }

  /** Division that truncates toward zero. */
  function Quotient(a: int, b: int): int
    requires b > 0
  {
    if a >= 0 then a / b else -(-a / b)
  }

  /** The number of chunks that a file of this size has. */
  function ChunkCount(size: nat): (n: nat)
    ensures size == 0 <==> n == 0
    ensures n > 0 ==> (n - 1) * CHUNK < size <= n * CHUNK
  {
    if size == 0 then 0 else (size + CHUNK - 1) / CHUNK
  }

  /** The sizes for which the count of chunks stays within 64 bits. */
  predicate Countable(size: int) {
    size <= MAX_INT64 - CHUNK + 1
  }

  /** expectedUploadChunks: the number of chunks as long as the sum does not overflow; negative when it
      does. */
  function ExpectedChunks(size: int): (n: int)
    requires -MAX_INT64 - 1 <= size <= MAX_INT64
    ensures size >= 0 && Countable(size) ==> n == ChunkCount(size)
    ensures !Countable(size) ==> n < 0
  {
    if size == 0 then 0 else Quotient(Wrap(size + CHUNK - 1), CHUNK)
  }

  function Min(a: int, b: int): (m: int)
    ensures m <= a && m <= b && (m == a || m == b)
  {
    if a < b then a else b
  }

  /** The bytes of `file` that chunk `i` carries. */
  function Slice(file: string, i: nat): string
    requires i < ChunkCount(|file|)
  {
    var n := ChunkCount(|file|);
    assert i * CHUNK <= (n - 1) * CHUNK;
    file[i * CHUNK..Min((i + 1) * CHUNK, |file|)]
  }

  function Merged(chunks: map<nat, string>, n: nat): string
    requires forall i :: 0 <= i < n ==> i in chunks
  {
    if n == 0 then "" else Merged(chunks, n - 1) + chunks[n - 1]
  }

  /** UploadInit's test of the client's numbers. */
  predicate Admissible(fileSize: int, totalChunks: int)
    requires -MAX_INT64 - 1 <= fileSize <= MAX_INT64
  {
    fileSize >= 0 && totalChunks == ExpectedChunks(fileSize) && totalChunks <= MAX_CHUNKS
  }

  /** As long as the count does not overflow, a session is opened exactly for a size of at most 20000 chunks of
      5 MiB, and for the one count that just holds it. */
  lemma AdmissibleIff(fileSize: int, totalChunks: int)
    requires -MAX_INT64 - 1 <= fileSize <= MAX_INT64 && Countable(fileSize)
    ensures Admissible(fileSize, totalChunks) <==>
            0 <= fileSize <= totalChunks * 5242880 && (totalChunks - 1) * 5242880 < fileSize && totalChunks <= 20000
  {
    if fileSize >= 0 { OneCountHolds(fileSize, ChunkCount(fileSize), totalChunks); }
  }

  lemma OneCountHolds(size: nat, m: int, n: int)
    requires (m - 1) * 5242880 < size <= m * 5242880
    ensures (n - 1) * 5242880 < size <= n * 5242880 <==> n == m
  {
  }

  /** Which calls succeed: creating the new file, removing the old one, and giving the new one its name
      (with closing it and setting its mode). */
  datatype Calls = Calls(saved: bool, removed: bool, renamed: bool)

  datatype Response = Done(file: string) | Missing(first: nat) | Failed

  class Session {
    const fileSize: nat
    const totalChunks: int
    var chunks: map<nat, string>

    ghost predicate Valid()
      reads this
    {
      && fileSize <= MAX_INT64 && Admissible(fileSize, totalChunks)
      && forall i :: i in chunks ==> i < totalChunks && |chunks[i]| == ChunkSize(i)
    }

    /** How many chunks the session asks for: none when the count is negative. */
    function Chunks(): nat {
      if totalChunks < 0 then 0 else totalChunks
    }

    /** The only size accepted for chunk `i`. */
    function ChunkSize(i: nat): int {
      if i == totalChunks - 1 then fileSize - i * CHUNK else CHUNK
    }

    /** Every chunk on disk is the matching slice of `file`. */
    ghost predicate Agrees(file: string)
      reads this
    {
      |file| == fileSize && forall i :: i in chunks ==> i < ChunkCount(fileSize) && chunks[i] == Slice(file, i)
    }

    predicate Accepts(index: int, data: string) {
      0 <= index < MAX_CHUNKS && index < totalChunks && |data| == ChunkSize(index)
    }

    constructor (fileSize: nat, totalChunks: int)
      requires fileSize <= MAX_INT64 && Admissible(fileSize, totalChunks)
      ensures Valid() && chunks == map[] && this.fileSize == fileSize && this.totalChunks == totalChunks
    {
      this.fileSize, this.totalChunks := fileSize, totalChunks;
      chunks := map[];
    }

    /** UploadChunk: saved beside the old one, which is then removed before the new one takes its name; a
        failure in between loses the chunk but never leaves a wrong one. */
    method UploadChunk(index: int, data: string, c: Calls) returns (ok: bool)
      requires Valid()
      modifies this
      ensures Valid()
      ensures ok <==> Accepts(index, data) && c.saved && c.renamed
      ensures ok ==> chunks == old(chunks)[index := data]
      ensures !ok && Accepts(index, data) && c.saved && c.removed ==> chunks == old(chunks) - {index}
      ensures !ok && !(Accepts(index, data) && c.saved && c.removed) ==> chunks == old(chunks)
    {
      if index < 0 || index >= MAX_CHUNKS { return false; }
      if index >= totalChunks { return false; }
      var expected := CHUNK;
      if index == totalChunks - 1 { expected := fileSize - index * CHUNK; }
      if |data| != expected { return false; }
      if !c.saved { return false; }
      if c.removed { chunks := chunks - {index}; }
      if !c.renamed { return false; }
      chunks := chunks[index := data];
      ok := true;
    }

    /** missingUploadChunks, as far as its first element. */
    method FirstMissing() returns (missing: nat)
      ensures missing <= Chunks()
      ensures forall i :: 0 <= i < missing ==> i in chunks
      ensures missing < Chunks() ==> missing !in chunks
    {
      missing := 0;
      while missing < totalChunks
        invariant missing <= Chunks()
        invariant forall i :: 0 <= i < missing ==> i in chunks
      {
        if missing !in chunks { return; }
        missing := missing + 1;
      }
    }

    /** UploadComplete: succeeds exactly when every chunk is present and no call fails, and then the file
        has the declared size exactly if its chunks could be counted; else it is empty. `copied` says how
        many chunks can be copied. */
    method Complete(c: Calls, copied: nat) returns (r: Response)
      requires Valid()
      modifies this
      ensures r.Done? <==>
              (forall i :: 0 <= i < Chunks() ==> i in old(chunks)) && c.saved && copied >= totalChunks && c.renamed
      ensures r.Done? ==>
              (forall i :: 0 <= i < Chunks() ==> i in old(chunks)) && r.file == Merged(old(chunks), Chunks())
      ensures r.Done? ==> (|r.file| == fileSize <==> Countable(fileSize))
      ensures r.Done? && !Countable(fileSize) ==> r.file == ""
      ensures r.Missing? ==> r.first < Chunks() && r.first !in old(chunks)
      ensures (exists i :: 0 <= i < Chunks() && i !in old(chunks)) ==> r.Missing?
      ensures !r.Done? ==> chunks == old(chunks)
    {
      hide ExpectedChunks;
      var first := FirstMissing();
      if first < totalChunks { return Missing(first); }
      if !c.saved { return Failed; }
      var merged := "";
      var i := 0;
      while i < totalChunks
        invariant 0 <= i <= Chunks() && copied >= i
        invariant merged == Merged(chunks, i)
      {
        if copied <= i { return Failed; }
        merged := merged + chunks[i];
        i := i + 1;
      }
      MergedLength(this, Chunks());
      if !c.renamed { return Failed; }
      r := Done(merged);
      chunks := map[];
    }
  }

  lemma {:induction false} MergedLength(s: Session, n: nat)
    requires s.Valid() && n <= s.Chunks()
    requires forall i :: 0 <= i < s.Chunks() ==> i in s.chunks
    ensures |Merged(s.chunks, n)| == Min(n * CHUNK, s.fileSize)
    decreases n
  {
    hide ExpectedChunks;
    if n > 0 {
      MergedLength(s, n - 1);
      assert |s.chunks[n - 1]| == s.ChunkSize(n - 1);
      assert n < s.totalChunks ==> n * CHUNK <= (s.totalChunks - 1) * CHUNK;
      assert (n - 1) * CHUNK <= (s.totalChunks - 1) * CHUNK;
    }
  }

  lemma {:induction false} MergedIsPrefix(chunks: map<nat, string>, file: string, n: nat)
    requires n <= ChunkCount(|file|)
    requires forall i :: 0 <= i < n ==> i in chunks && chunks[i] == Slice(file, i)
    ensures Merged(chunks, n) == file[..Min(n * CHUNK, |file|)]
    decreases n
  {
    if n > 0 {
      assert Merged(chunks, n) == Merged(chunks, n - 1) + chunks[n - 1];
      SliceBounds(file, n);
      hide ChunkCount, Min, Merged, Slice;
      MergedIsPrefix(chunks, file, n - 1);
      TakeMore(file, (n - 1) * CHUNK, Min(n * CHUNK, |file|));
    }
  }

  lemma TakeMore(file: string, lo: nat, hi: nat)
    requires lo <= hi <= |file|
    ensures file[..hi] == file[..lo] + file[lo..hi]
  {
  }

  lemma SliceBounds(file: string, n: nat)
    requires 0 < n <= ChunkCount(|file|)
    ensures Min((n - 1) * CHUNK, |file|) == (n - 1) * CHUNK
    ensures Slice(file, n - 1) == file[(n - 1) * CHUNK..Min(n * CHUNK, |file|)]
  {
    assert (n - 1) * CHUNK <= (ChunkCount(|file|) - 1) * CHUNK;
  }

  datatype Request = Request(index: int, data: string, calls: Calls)

  /** If the server would accept the request, it carries the matching slice of `file`. */
  ghost predicate Honest(file: string, q: Request)
    requires |file| <= MAX_INT64
  {
    var n := ExpectedChunks(|file|);
    0 <= q.index < n && |q.data| == (if q.index == n - 1 then |file| - q.index * CHUNK else CHUNK) ==>
      q.data == Slice(file, q.index)
  }

  ghost predicate Asked(requests: seq<Request>, k: nat) {
    exists i :: 0 <= i < |requests| && requests[i].index == k
  }

  /** The request has the size that chunk `k` of a file of `size` bytes must have. */
  predicate Carries(q: Request, size: nat, k: nat) {
    && q.index == k
    && |q.data| == if (k + 1) * 5242880 <= size then 5242880 else size - k * 5242880
  }

  predicate Stores(q: Request, size: nat, k: nat) {
    Carries(q, size, k) && q.calls.saved && q.calls.renamed
  }

  /** The old chunk is removed, and the new one gets no name. */
  predicate Loses(q: Request, size: nat, k: nat) {
    Carries(q, size, k) && q.calls.saved && q.calls.removed && !q.calls.renamed
  }

  /** Of the first `n` requests one stores chunk `k` and none after it loses it. */
  ghost predicate Stored(requests: seq<Request>, n: nat, size: nat, k: nat)
    requires n <= |requests|
  {
    exists i :: 0 <= i < n && Stores(requests[i], size, k) && forall j :: i < j < n ==> !Loses(requests[j], size, k)
  }

  lemma StoredStep(requests: seq<Request>, n: nat, size: nat, k: nat)
    requires n < |requests|
    ensures Stored(requests, n + 1, size, k) <==>
            Stores(requests[n], size, k) || (Stored(requests, n, size, k) && !Loses(requests[n], size, k))
  {
    hide Carries;
    assert Stores(requests[n], size, k) ==> !Loses(requests[n], size, k);
    if i :| 0 <= i < n && Stores(requests[i], size, k) && forall j :: i < j < n ==> !Loses(requests[j], size, k) {
      if !Loses(requests[n], size, k) {
        assert forall j :: i < j < n + 1 ==> !Loses(requests[j], size, k);
      }
    }
  }

  /** What the server accepts as chunk `k`, in plain numbers. */
  lemma AcceptsIff(s: Session, q: Request)
    requires s.fileSize <= MAX_INT64 && Admissible(s.fileSize, s.totalChunks) && Countable(s.fileSize)
    ensures s.Accepts(q.index, q.data) <==> 0 <= q.index < s.totalChunks && Carries(q, s.fileSize, q.index)
  {
    AdmissibleIff(s.fileSize, s.totalChunks);
    var k, n := q.index, s.totalChunks;
    if 0 <= k < n {
      assert k < n - 1 ==> (k + 1) * CHUNK <= (n - 1) * CHUNK;
    }
  }

  /** One whole upload: any chunks in any order, repeated or failing at will, then completion. If every
      chunk the server accepts is the matching slice of a file, a completed upload is that file exactly
      if its size is not within one chunk of the largest 64-bit integer; else it is an empty file. */
  method Upload(totalChunks: int, requests: seq<Request>, ghost file: string, fileSize: nat, c: Calls, copied: nat)
    returns (r: Response)
    requires fileSize == |file| <= MAX_INT64
    requires forall q :: q in requests ==> Honest(file, q)
    ensures r.Done? ==> Admissible(fileSize, totalChunks) && (r.file == file <==> Countable(fileSize))
    ensures r.Done? && !Countable(fileSize) ==> r.file == ""
    ensures r.Done? ==> forall k: nat :: k < totalChunks ==> Asked(requests, k)
    // It completes exactly if every chunk has been stored, and not lost since, and its own calls succeed.
    ensures Admissible(fileSize, totalChunks) && Countable(fileSize) ==>
              (r.Done? <==> (forall k: nat :: k < totalChunks ==> Stored(requests, |requests|, fileSize, k))
                            && c.saved && copied >= totalChunks && c.renamed)
  {
    hide ExpectedChunks, Slice, ChunkCount, Stored;
    if !Admissible(fileSize, totalChunks) { return Failed; }
    var s := new Session(fileSize, totalChunks);
    Receive(s, requests, file);
    ghost var chunks := s.chunks;
    r := s.Complete(c, copied);
    if r.Done? && Countable(fileSize) {
      forall k: nat | k < totalChunks ensures Asked(requests, k) { StoredIsAsked(requests, fileSize, k); }
      WholeFile(s.fileSize, totalChunks, chunks, file);
    }
  }

  lemma StoredIsAsked(requests: seq<Request>, size: nat, k: nat)
    ensures Stored(requests, |requests|, size, k) ==> Asked(requests, k)
  {
  }

  lemma WholeFile(fileSize: nat, totalChunks: int, chunks: map<nat, string>, file: string)
    requires |file| == fileSize <= MAX_INT64 && Admissible(fileSize, totalChunks) && Countable(fileSize)
    requires forall i :: 0 <= i < totalChunks ==> i in chunks
    requires forall i :: i in chunks ==> i < ChunkCount(fileSize) && chunks[i] == Slice(file, i)
    ensures totalChunks >= 0 && Merged(chunks, totalChunks) == file
  {
    MergedIsPrefix(chunks, file, totalChunks);
    assert file[..|file|] == file;
  }

  /** One chunk request. */
  method ReceiveOne(s: Session, q: Request, ghost file: string)
    requires s.Valid() && s.Agrees(file) && Honest(file, q)
    modifies s
    ensures s.Valid() && s.Agrees(file)
    ensures Countable(s.fileSize) ==>
              forall k: nat :: k < s.totalChunks ==>
                (k in s.chunks <==> Stores(q, s.fileSize, k) || (k in old(s.chunks) && !Loses(q, s.fileSize, k)))
  {
    hide ExpectedChunks, Slice, ChunkCount, Carries;
    if Countable(s.fileSize) { AcceptsIff(s, q); }
    assert forall k: nat :: Carries(q, s.fileSize, k) ==> k == q.index by { OnlyItsIndex(q, s.fileSize); }
    var ok := s.UploadChunk(q.index, q.data, q.calls);
  }

  lemma OnlyItsIndex(q: Request, size: nat)
    ensures forall k: nat :: Carries(q, size, k) ==> k == q.index
  {
  }

  /** The chunk requests of one session, one after the other. */
  method Receive(s: Session, requests: seq<Request>, ghost file: string)
    requires s.Valid() && s.chunks == map[] && |file| == s.fileSize && forall q :: q in requests ==> Honest(file, q)
    modifies s
    ensures s.Valid() && s.Agrees(file)
    ensures Countable(s.fileSize) ==>
              forall k: nat :: k < s.totalChunks ==> (k in s.chunks <==> Stored(requests, |requests|, s.fileSize, k))
  {
    hide ExpectedChunks;
    for i := 0 to |requests|
      invariant s.Valid() && s.Agrees(file)
      invariant Countable(s.fileSize) ==>
                  forall k: nat :: k < s.totalChunks ==> (k in s.chunks <==> Stored(requests, i, s.fileSize, k))
    {
      hide Stored, Stores, Loses, Honest, Countable, Session.Agrees, Session.Valid;
      forall k: nat { StoredStep(requests, i, s.fileSize, k); }
      assert requests[i] in requests;
      ReceiveOne(s, requests[i], file);
    }
  }

  /** The largest size there is: one count of chunks is taken for it, and with no chunk at all the upload
      completes as an empty file. */
  method LargestUploadIsEmpty() returns (r: Response)
    ensures Admissible(MAX_INT64, -1759218604440) && r == Done("")
  {
    assert Wrap(MAX_INT64 + CHUNK - 1) == -MAX_INT64 - 1 + CHUNK - 2;
    var s := new Session(MAX_INT64, -1759218604440);
    r := s.Complete(Calls(true, true, true), 0);
  }
}
