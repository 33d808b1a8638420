/** How a backup file is cut into parts for an S3 multipart upload (executor/remote_sync.go). Sizes are
    64-bit signed integers in the source; that no intermediate value leaves that range is part of what is
    proved. The default part size and the threshold are variables in the source and parameters here. */
module Multipart {

  const MIB := 1024 * 1024
  const GIB := 1024 * MIB
  const SINGLE_PUT_MAX := 5 * GIB
  const OBJECT_MAX := 5 * 1024 * GIB
  const MAX_PARTS := 10000
  const MIN_PART := 5 * MIB
  const MAX_INT64 := 0x7FFF_FFFF_FFFF_FFFF

  datatype Part = Part(number: nat, offset: nat, size: nat)

  /** The least size that is no smaller than the default and the service's minimum and needs no more than ten
      thousand parts. */
  function Chosen(size: nat, defaultPart: int): nat {
    var least := (size + MAX_PARTS - 1) / MAX_PARTS;
    var wanted := if defaultPart < MIN_PART then MIN_PART else defaultPart;
    if least > wanted then least else wanted
  }

  /** s3MultipartPartSize: the default, raised to the service's minimum and then until ten thousand parts
      are enough. */
  method PartSize(size: nat, defaultPart: int) returns (partSize: nat)
    requires size <= OBJECT_MAX && defaultPart <= SINGLE_PUT_MAX
    ensures MIN_PART <= partSize <= SINGLE_PUT_MAX && defaultPart <= partSize
    ensures size <= MAX_PARTS * partSize
    ensures partSize > MIN_PART && partSize > defaultPart ==> MAX_PARTS * (partSize - 1) < size
    ensures partSize == Chosen(size, defaultPart)
  {
    var p := defaultPart;
    if p < MIN_PART { p := MIN_PART; }
    assert size + MAX_PARTS - 1 <= MAX_INT64;
    var minPartSize := (size + MAX_PARTS - 1) / MAX_PARTS;
    if minPartSize > p { p := minPartSize; }
    partSize := p;
  }

  /** Parts numbered from one, none empty, each starting where the one before it ends, and together
      covering the first `upTo` bytes. */
  ghost predicate Partition(parts: seq<Part>, upTo: nat) {
    && (forall i :: 0 <= i < |parts| ==> parts[i].number == i + 1 && parts[i].size > 0)
    && (forall i :: 0 < i < |parts| ==> parts[i].offset == parts[i - 1].offset + parts[i - 1].size)
    && (if parts == [] then upTo == 0
        else parts[0].offset == 0 && upTo == parts[|parts| - 1].offset + parts[|parts| - 1].size)
  }

  /** What S3 accepts: at most ten thousand parts, none above 5 GiB, and none but the last below 5 MiB. */
  ghost predicate WithinLimits(parts: seq<Part>) {
    && |parts| <= 10000
    && (forall i :: 0 <= i < |parts| ==> parts[i].size <= 5368709120)
    && (forall i :: 0 <= i < |parts| - 1 ==> parts[i].size >= 5242880)
  }

  lemma {:induction false} PartsInOrder(parts: seq<Part>, upTo: nat, i: nat, j: nat)
    requires Partition(parts, upTo) && i < j < |parts|
    ensures parts[i].offset + parts[i].size <= parts[j].offset
    decreases j
  {
    if i + 1 < j { PartsInOrder(parts, upTo, i, j - 1); }
  }

  /** Every byte of the file belongs to exactly one part. */
  lemma {:induction false} EveryByteOnce(parts: seq<Part>, upTo: nat, b: nat)
    requires Partition(parts, upTo) && b < upTo
    ensures exists i :: 0 <= i < |parts| && Covers(parts[i], b)
    ensures forall i, j :: 0 <= i < j < |parts| ==> !(Covers(parts[i], b) && Covers(parts[j], b))
    decreases |parts|
  {
    forall i, j | 0 <= i < j < |parts| ensures !(Covers(parts[i], b) && Covers(parts[j], b)) {
      PartsInOrder(parts, upTo, i, j);
    }
    var last := parts[|parts| - 1];
    if b < last.offset {
      var fewer := parts[..|parts| - 1];
      assert forall i :: 0 <= i < |fewer| ==> fewer[i] == parts[i];
      EveryByteOnce(fewer, last.offset, b);
      var i :| 0 <= i < |fewer| && Covers(fewer[i], b);
      assert Covers(parts[i], b);
    } else {
      assert Covers(parts[|parts| - 1], b);
    }
  }

  predicate Covers(p: Part, b: nat) {
    p.offset <= b < p.offset + p.size
  }

  /** The file put together again from the bytes its parts cover. */
  function Reassemble<T>(file: seq<T>, parts: seq<Part>): seq<T> {
    if parts == [] then []
    else
      var p := parts[|parts| - 1];
      Reassemble(file, parts[..|parts| - 1])
      + (if p.offset + p.size <= |file| then file[p.offset..p.offset + p.size] else [])
  }

  /** The parts of a partition concatenate to the file. */
  lemma {:induction false} PartsConcatenate<T>(file: seq<T>, parts: seq<Part>, upTo: nat)
    requires Partition(parts, upTo) && upTo <= |file|
    ensures Reassemble(file, parts) == file[..upTo]
    decreases |parts|
  {
    if parts != [] {
      var last := parts[|parts| - 1];
      var fewer := parts[..|parts| - 1];
      assert forall i :: 0 <= i < |fewer| ==> fewer[i] == parts[i];
      PartsConcatenate(file, fewer, last.offset);
      assert file[..upTo] == file[..last.offset] + file[last.offset..upTo];
    }
  }

  datatype Outcome = TooLarge | SinglePut | Completed(parts: seq<Part>) | Aborted

  /** The first `n` parts of equal size. */
  lemma NextOffset(size: nat, n: nat, partSize: nat)
    requires n * partSize < size <= MAX_PARTS * partSize
    ensures n < MAX_PARTS && (n + 1) * partSize == n * partSize + partSize
  {
    assert n >= MAX_PARTS ==> n * partSize >= MAX_PARTS * partSize;
  }

  /** One more part, starting where the last one ends. */
  lemma PartitionGrows(parts: seq<Part>, offset: nat, p: Part)
    requires Partition(parts, offset) && p.offset == offset && p.size > 0 && p.number == |parts| + 1
    ensures Partition(parts + [p], offset + p.size)
  {
    var more := parts + [p];
    assert forall i :: 0 <= i < |parts| ==> more[i] == parts[i];
  }

  /** Which requests fail: the opening, the parts with these numbers, the closing, or the single one. */
  datatype Faults = Faults(opening: bool, parts: set<nat>, closing: bool, single: bool)

  /** The file has a `k`-th part. */
  predicate HasPart(size: nat, partSize: nat, k: nat) {
    k >= 1 && (k - 1) * partSize < size
  }

  /** None of the requests that the upload of the file makes fails. */
  ghost predicate Unhindered(size: nat, defaultPart: int, f: Faults) {
    !f.opening && !f.closing && forall k :: k in f.parts ==> !HasPart(size, Chosen(size, defaultPart), k)
  }

  lemma NoMoreParts(size: nat, partSize: nat, n: nat, k: nat)
    requires size <= n * partSize && HasPart(size, partSize, k)
    ensures k <= n
  {
    assert k > n ==> (k - 1) * partSize >= n * partSize;
  }

  lemma PartsAvoid(parts: seq<Part>, size: nat, partSize: nat, failing: set<nat>)
    requires size <= |parts| * partSize
    requires forall i :: 0 <= i < |parts| ==> parts[i].number == i + 1 && parts[i].number !in failing
    ensures forall k :: k in failing ==> !HasPart(size, partSize, k)
  {
    forall k: nat | HasPart(size, partSize, k) ensures k !in failing {
      NoMoreParts(size, partSize, |parts|, k);
      assert parts[k - 1].number == k;
    }
  }

  /** putFileToS3Multipart on a file of `size` bytes. It completes exactly when no request fails that it
      makes. */
  method PutMultipart(size: nat, defaultPart: int, f: Faults) returns (o: Outcome)
    requires size <= OBJECT_MAX && defaultPart <= SINGLE_PUT_MAX
    ensures o.Completed? || o.Aborted?
    ensures o.Completed? ==> Partition(o.parts, size) && WithinLimits(o.parts)
    ensures o.Completed? <==> Unhindered(size, defaultPart, f)
  {
    var partSize := PartSize(size, defaultPart);
    if f.opening { return Aborted; }
    var parts: seq<Part> := [];
    var offset, partNumber := 0, 1;
    while offset < size
      invariant partNumber == |parts| + 1 && |parts| <= MAX_PARTS
      invariant offset == |parts| * partSize
      invariant Partition(parts, if offset < size then offset else size)
      invariant forall i :: 0 <= i < |parts| ==> parts[i].size <= partSize && parts[i].number !in f.parts
      invariant forall i :: 0 <= i < |parts| && (i < |parts| - 1 || offset < size) ==> parts[i].size == partSize
      decreases size - offset
    {
      var currentSize := partSize;
      var remaining := size - offset;
      if remaining < currentSize { currentSize := remaining; }
      if partNumber in f.parts {
        assert HasPart(size, partSize, partNumber);
        return Aborted;
      }
      NextOffset(size, |parts|, partSize);
      assert offset + partSize <= MAX_INT64;
      PartitionGrows(parts, offset, Part(partNumber, offset, currentSize));
      hide Partition;
      parts := parts + [Part(partNumber, offset, currentSize)];
      offset, partNumber := offset + partSize, partNumber + 1;
    }
    if f.closing { return Aborted; }
    PartsAvoid(parts, size, partSize, f.parts);
    o := Completed(parts);
  }

  /** putFileToS3: every file is refused, sent in one request within the single-request limit, or cut into
      a partition within the service's limits. */
  method PutFileToS3(size: nat, threshold: int, defaultPart: int, f: Faults) returns (o: Outcome)
    requires defaultPart <= SINGLE_PUT_MAX
    ensures o.TooLarge? <==> size > 5497558138880  // 5 TiB
    ensures o.SinglePut? <==> size <= 5368709120 && size < threshold && !f.single
    ensures o.Completed? <==>
            size <= OBJECT_MAX && (size > SINGLE_PUT_MAX || size >= threshold) && Unhindered(size, defaultPart, f)
    ensures o.Completed? ==> Partition(o.parts, size) && WithinLimits(o.parts)
  {
    if size > OBJECT_MAX { return TooLarge; }
    if size > SINGLE_PUT_MAX || size >= threshold {
      o := PutMultipart(size, defaultPart, f);
      return;
    }
    o := if f.single then Aborted else SinglePut;
  }
}
