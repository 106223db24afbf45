/** Cutting a file into parts: how large a part may be, and the parts themselves. */
module PartPlan {
  import opened Common

  datatype ObjectPartLimit = ObjectPartLimit(minPartSize: u64, maxPartSize: u64, maxNumSize: u32)

  datatype FileDigest = FileDigest(fileName: string, fileSize: u64, contentType: string, sha256: string)

  /** The hash names the part by the file's hash, its offset and its size. */
  datatype PartHash = PartHash(sha256: string, offset: u64, size: u64)

  datatype UploadPart = UploadPart(partNumber: u32, offset: u64, size: u64, partHash: PartHash, uploaded: bool)

  /** Least number of parts of size `p` that hold `size` bytes. */
  function CeilDiv(size: nat, p: nat): nat
    requires p > 0
  {
    if size % p == 0 then size / p else size / p + 1
  }

  lemma CeilDivBounds(size: nat, p: nat)
    requires p > 0
    ensures size <= CeilDiv(size, p) * p
    ensures size > 0 ==> CeilDiv(size, p) > 0 && (CeilDiv(size, p) - 1) * p < size
  {
    assert size == (size / p) * p + size % p;
    assert (size / p + 1) * p == (size / p) * p + p;
  }

  /** It is the least: `n` parts are enough iff `n` is at least that many. */
  lemma CeilDivLeast(size: nat, p: nat, n: nat)
    requires p > 0
    ensures size <= n * p <==> CeilDiv(size, p) <= n
  {
    CeilDivBounds(size, p);
    if CeilDiv(size, p) <= n {
      MulMonotonic(CeilDiv(size, p), n, p);
    } else {
      MulMonotonic(n, CeilDiv(size, p) - 1, p);
    }
  }

  /** `n` parts of size `q` hold the file. */
  predicate Fits(size: nat, q: nat, n: nat) {
    q > 0 && CeilDiv(size, q) <= n
  }

  /** `p` is the least size from `least` up that fits the file. */
  ghost predicate IsLeastFit(size: nat, least: nat, p: nat, n: nat) {
    && least <= p && Fits(size, p, n)
    && forall q: nat :: least <= q < p ==> !Fits(size, q, n)
  }

  function PartSizeFor(limit: ObjectPartLimit, fileSize: u64): Result<u64> {
    if fileSize == 0 || limit.minPartSize == 0 || limit.maxPartSize == 0 || limit.maxNumSize == 0 then Err(Args) else
    var n := limit.maxNumSize as nat;
    var maxTotal := limit.maxPartSize as nat * n;
    if maxTotal > U64_MAX || fileSize as nat > maxTotal then Err(Args) else
    var minTotal := limit.minPartSize as nat * n;
    if minTotal > U64_MAX then Err(Args)
    else if fileSize as nat <= minTotal then Ok(limit.minPartSize)
    else
      CeilDivLeast(fileSize as nat, n, limit.maxPartSize as nat);
      Ok(CeilDiv(fileSize as nat, n) as u64)
  }

  /** The chosen size is the least one, from the minimum up, that fits the file into the
      allowed number of parts; it stays within the maximum when the limits are in order. */
  lemma PartSizeIsLeast(limit: ObjectPartLimit, fileSize: u64)
    requires PartSizeFor(limit, fileSize).Ok?
    ensures var p, n := PartSizeFor(limit, fileSize).value as nat, limit.maxNumSize as nat;
      && IsLeastFit(fileSize as nat, limit.minPartSize as nat, p, n)
      && (limit.minPartSize <= limit.maxPartSize ==> p <= limit.maxPartSize as nat)
  {
    var size, p, n := fileSize as nat, PartSizeFor(limit, fileSize).value as nat, limit.maxNumSize as nat;
    CeilDivLeast(size, p, n);
    CeilDivLeast(size, n, p);
    CeilDivLeast(size, n, limit.maxPartSize as nat);
    CeilDivLeast(size, n, limit.minPartSize as nat);
    forall q: nat | limit.minPartSize as nat <= q < p ensures CeilDiv(size, q) > n {
      CeilDivLeast(size, q, n);
      CeilDivLeast(size, n, q);
    }
  }

  /** A size is refused exactly when a limit is zero, the file is empty or larger than the
      limits hold, or a product of the limits leaves the 64-bit range. */
  lemma PartSizeRefusedIff(limit: ObjectPartLimit, fileSize: u64)
    ensures PartSizeFor(limit, fileSize).Err? <==>
      || fileSize == 0 || limit.minPartSize == 0 || limit.maxPartSize == 0 || limit.maxNumSize == 0
      || CeilDiv(fileSize as nat, limit.maxPartSize as nat) > limit.maxNumSize as nat
      || limit.maxPartSize as nat * limit.maxNumSize as nat > U64_MAX
      || limit.minPartSize as nat * limit.maxNumSize as nat > U64_MAX
  {
    if limit.maxPartSize > 0 {
      CeilDivLeast(fileSize as nat, limit.maxPartSize as nat, limit.maxNumSize as nat);
    }
  }

  // ----- the parts -----

  /** Part `i` of a file cut into parts of size `p`; parts are counted in 32 bits. */
  ghost predicate IsPart(part: UploadPart, file: FileDigest, p: u64, i: nat) {
    && part.partNumber == Wrap32(i + 1)
    && part.offset as nat == i * p as nat
    && part.size as nat == Min(p as nat, file.fileSize as nat - i * p as nat)
    && part.partHash == PartHash(file.sha256, part.offset, part.size)
  }

  ghost predicate IsPlan(parts: seq<UploadPart>, file: FileDigest, p: u64) {
    && p > 0
    && |parts| == CeilDiv(file.fileSize as nat, p as nat)
    && forall i :: 0 <= i < |parts| ==> IsPart(parts[i], file, p, i)
  }

  /** Cuts a file into parts. */
  method PlanMultipart(file: FileDigest, partSize: u64) returns (r: Result<seq<UploadPart>>)
    ensures r.Ok? <==> file.fileName != "" && partSize > 0
    ensures r.Err? ==> r.error == Args
    ensures r.Ok? ==> IsPlan(r.value, file, partSize)
    ensures r.Ok? ==> forall i :: 0 <= i < |r.value| ==> !r.value[i].uploaded
  {
    if file.fileName == "" {
      return Err(Args);
    }
    if partSize == 0 {
      return Err(Args);
    }
    var parts: seq<UploadPart> := [];
    var offset: u64 := 0;
    var partNumber: u32 := 1;
    ghost var total, p := file.fileSize as nat, partSize as nat;
    CeilDivBounds(total, p);
    while offset < file.fileSize
      invariant partNumber == Wrap32(|parts| + 1)
      invariant |parts| <= CeilDiv(total, p)
      invariant offset as nat == Min(|parts| * p, total)
      invariant forall i :: 0 <= i < |parts| ==> IsPart(parts[i], file, partSize, i) && !parts[i].uploaded
    {
      CeilDivLeast(total, p, |parts|);
      var left := file.fileSize - offset;
      var size := if left < partSize then left else partSize;
      assert (|parts| + 1) * p == |parts| * p + p;
      parts := parts + [UploadPart(partNumber, offset, size, PartHash(file.sha256, offset, size), false)];
      offset := offset + size;
      WrapAdd(|parts|, 1);
      partNumber := Wrap32(partNumber as nat + 1);
    }
    CeilDivLeast(total, p, |parts|);
    return Ok(parts);
  }

  /** The parts are numbered one after the other exactly if their number fits in 32 bits. */
  lemma PlanNumberedIff(parts: seq<UploadPart>, file: FileDigest, p: u64)
    requires IsPlan(parts, file, p)
    ensures (forall i :: 0 <= i < |parts| ==> parts[i].partNumber as nat == i + 1) <==> |parts| <= U32_MAX
  {
    forall i | 0 <= i < |parts| ensures parts[i].partNumber == Wrap32(i + 1) {
      assert IsPart(parts[i], file, p, i);
    }
    if |parts| > U32_MAX {
      assert parts[U32_MAX].partNumber == Wrap32(U32_MAX + 1);
    }
  }

  /** A file of 2^32 bytes cut into single bytes: the last part is numbered 0. */
  lemma UnnumberedExample(parts: seq<UploadPart>)
    requires IsPlan(parts, FileDigest("f", 0x1_0000_0000, "", ""), 1)
    ensures |parts| == TWO_TO_32 && parts[TWO_TO_32 - 1].partNumber == 0
  {
    assert IsPart(parts[TWO_TO_32 - 1], FileDigest("f", 0x1_0000_0000, "", ""), 1, TWO_TO_32 - 1);
  }

  /** With the size chosen from the limits the plan has at most the allowed number of parts,
      so its parts are numbered one after the other. */
  lemma PlanFitsLimit(limit: ObjectPartLimit, file: FileDigest, parts: seq<UploadPart>)
    requires PartSizeFor(limit, file.fileSize).Ok?
    requires IsPlan(parts, file, PartSizeFor(limit, file.fileSize).value)
    ensures |parts| <= limit.maxNumSize as nat
    ensures forall i :: 0 <= i < |parts| ==> parts[i].partNumber as nat == i + 1
  {
    PartSizeIsLeast(limit, file.fileSize);
    PlanNumberedIff(parts, file, PartSizeFor(limit, file.fileSize).value);
  }

  function SumSizes(parts: seq<UploadPart>): nat {
    if parts == [] then 0 else SumSizes(parts[..|parts| - 1]) + parts[|parts| - 1].size as nat
  }

  /** The parts tile the file: none is empty, each starts where the one before ends, the
      first at the start and the last ending at the end. */
  lemma PlanTiles(parts: seq<UploadPart>, file: FileDigest, p: u64)
    requires IsPlan(parts, file, p)
    ensures forall i :: 0 <= i < |parts| ==> parts[i].size > 0
    ensures forall i :: 0 <= i < |parts| ==> parts[i].offset as nat == SumSizes(parts[..i])
    ensures SumSizes(parts) == file.fileSize as nat
  {
    var total, q := file.fileSize as nat, p as nat;
    CeilDivBounds(total, q);
    forall i | 0 <= i < |parts| ensures i * q < total {
      MulMonotonic(i, |parts| - 1, q);
      assert IsPart(parts[i], file, p, i);
    }
    forall i | 0 <= i < |parts| ensures parts[i].size > 0 {
      assert IsPart(parts[i], file, p, i);
    }
    forall i | 0 <= i <= |parts| ensures SumSizes(parts[..i]) == Min(i * q, total) {
      PrefixSum(parts, file, p, i);
    }
    forall i | 0 <= i < |parts| ensures parts[i].offset as nat == SumSizes(parts[..i]) {
      assert IsPart(parts[i], file, p, i);
    }
    assert parts[..|parts|] == parts;
  }

  lemma {:induction false} PrefixSum(parts: seq<UploadPart>, file: FileDigest, p: u64, i: nat)
    requires IsPlan(parts, file, p) && i <= |parts|
    ensures SumSizes(parts[..i]) == Min(i * p as nat, file.fileSize as nat)
  {
    if i > 0 {
      PrefixSum(parts, file, p, i - 1);
      TakeSnoc(parts, i - 1);
      assert IsPart(parts[i - 1], file, p, i - 1);
      CeilDivBounds(file.fileSize as nat, p as nat);
      MulMonotonic(i - 1, |parts| - 1, p as nat);
      MulStep(i, p as nat);
    }
  }
}
