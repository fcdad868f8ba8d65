/**
 The structural checks of the manifest (browser/src/manifest.ts, `parseManifest` and
 `publishedSource`): CID buckets, the order of the postings files, and the source row partition.
 Each is a check on neighbours; the lemmas state what it means for the whole inventory.
 */
module Manifest {
  import opened Sequences
  import opened Numbers
  import opened Artifacts

  datatype PostingsFile = PostingsFile(artifact: Artifact, cidBucket: int, minCid: int, maxCid: int, rows: int)

  datatype SourceFile = SourceFile(artifact: Artifact, rowBegin: int, rowEnd: int)

  datatype Verdict = Accepted | Rejected(reason: string)

  // ---------- CID buckets ----------

  ghost predicate CidOffsetsOk(offsets: seq<int>, nlist: int)
  {
    && |offsets| >= 2 && offsets[0] == 0 && offsets[|offsets| - 1] == nlist
    && (forall i :: 0 <= i < |offsets| ==> 0 <= offsets[i] && Portable(offsets[i]))
    && (forall i :: 0 < i < |offsets| ==> offsets[i - 1] < offsets[i])
  }

  predicate InBucket(offsets: seq<int>, bucket: int, cid: int)
  {
    0 <= bucket < |offsets| - 1 && offsets[bucket] <= cid < offsets[bucket + 1]
  }

  lemma {:induction false} OffsetsIncrease(offsets: seq<int>, nlist: int, i: nat, j: nat)
    requires CidOffsetsOk(offsets, nlist) && i <= j < |offsets|
    ensures offsets[i] + (j - i) <= offsets[j]
    decreases j - i
  {
    if i < j {
      OffsetsIncrease(offsets, nlist, i, j - 1);
      assert offsets[j - 1] < offsets[j];
    }
  }

  /** Every CID in [0, nlist) lies in exactly one bucket, and no bucket reaches outside. */
  lemma CidInExactlyOneBucket(offsets: seq<int>, nlist: int, cid: int)
    requires CidOffsetsOk(offsets, nlist)
    ensures 0 <= cid < nlist <==> exists b :: InBucket(offsets, b, cid)
    ensures forall a, b :: InBucket(offsets, a, cid) && InBucket(offsets, b, cid) ==> a == b
  {
    if 0 <= cid < nlist {
      var b := BucketOf(offsets, nlist, cid, |offsets| - 1);
    }
    if b :| InBucket(offsets, b, cid) {
      OffsetsIncrease(offsets, nlist, 0, b);
      OffsetsIncrease(offsets, nlist, b + 1, |offsets| - 1);
    }
    forall a, b | InBucket(offsets, a, cid) && InBucket(offsets, b, cid) ensures a == b {
      if a < b { OffsetsIncrease(offsets, nlist, a + 1, b); }
      if b < a { OffsetsIncrease(offsets, nlist, b + 1, a); }
    }
  }

  lemma {:induction false} BucketOf(offsets: seq<int>, nlist: int, cid: int, top: nat) returns (b: nat)
    requires CidOffsetsOk(offsets, nlist) && 0 < top < |offsets| && 0 <= cid < offsets[top]
    ensures InBucket(offsets, b, cid)
    decreases top
  {
    if offsets[top - 1] <= cid {
      b := top - 1;
    } else {
      b := BucketOf(offsets, nlist, cid, top - 1);
    }
  }

  method CheckCidOffsets(offsets: seq<int>, nlist: int) returns (verdict: Verdict)
    ensures verdict.Accepted? <==> CidOffsetsOk(offsets, nlist)
  {
    for i := 0 to |offsets|
      invariant forall j :: 0 <= j < i ==> 0 <= offsets[j] && Portable(offsets[j])
    {
      if !IsInteger(offsets[i], 0, SAFE_INTEGER_MAX) { return Rejected("cid-offsets must be portable integers"); }
    }
    var rootCount := |offsets| - 1;
    if rootCount < 1 || offsets[0] != 0 || offsets[rootCount] != nlist {
      return Rejected("cid-offsets must strictly partition [0, nlist)");
    }
    for i := 1 to |offsets|
      invariant forall j :: 0 < j < i ==> offsets[j - 1] < offsets[j]
    {
      if offsets[i] <= offsets[i - 1] { return Rejected("cid-offsets must strictly partition [0, nlist)"); }
    }
    return Accepted;
  }

  // ---------- postings files ----------

  /** `compareFile`; `collate` is the locale comparison of paths, about which nothing is assumed. */
  function CompareFile(left: PostingsFile, right: PostingsFile, collate: (string, string) -> int): int
  {
    if left.cidBucket != right.cidBucket then left.cidBucket - right.cidBucket
    else if left.minCid != right.minCid then left.minCid - right.minCid
    else if left.maxCid != right.maxCid then left.maxCid - right.maxCid
    else collate(left.artifact.path, right.artifact.path)
  }

  predicate FileOk(f: PostingsFile, offsets: seq<int>)
  {
    && |offsets| >= 2 && ArtifactOk(f.artifact)
    && IsInteger(f.cidBucket, 0, |offsets| - 2)
    && IsInteger(f.minCid, offsets[f.cidBucket], SAFE_INTEGER_MAX)
    && IsInteger(f.maxCid, f.minCid, offsets[f.cidBucket + 1] - 1)
    && IsInteger(f.rows, 1, SAFE_INTEGER_MAX)
    && BucketPrefix(f.cidBucket) <= f.artifact.path
  }

  /** What a postings file must be: a proper object under its bucket's prefix, with CIDs of that bucket. */
  ghost predicate ProperFile(f: PostingsFile, offsets: seq<int>)
  {
    && ProperArtifact(f.artifact)
    && 0 <= f.cidBucket < |offsets| - 1 && BucketPrefix(f.cidBucket) <= f.artifact.path
    && offsets[f.cidBucket] <= f.minCid <= f.maxCid < offsets[f.cidBucket + 1]
    && 1 <= f.rows
    && Portable(f.cidBucket) && Portable(f.minCid) && Portable(f.maxCid) && Portable(f.rows)
  }

  lemma FileExactly(f: PostingsFile, offsets: seq<int>)
    ensures FileOk(f, offsets) <==> ProperFile(f, offsets)
  {
    hide ArtifactOk, ProperArtifact, BucketPrefix;
    ArtifactExactly(f.artifact);
  }

  /**
   The canonical order: by bucket, first CID, last CID and path, where files of one bucket may share no
   more than a boundary CID.
   */
  ghost predicate Precedes(p: PostingsFile, c: PostingsFile, collate: (string, string) -> int)
  {
    && (|| p.cidBucket < c.cidBucket
        || (p.cidBucket == c.cidBucket
            && (|| p.minCid < c.minCid
                || (p.minCid == c.minCid
                    && (|| p.maxCid < c.maxCid
                        || (p.maxCid == c.maxCid && collate(p.artifact.path, c.artifact.path) < 0))))))
    && (p.cidBucket == c.cidBucket ==> p.maxCid <= c.minCid)
  }

  ghost function RowsOf(f: PostingsFile): int { f.rows }

  function Paths(files: seq<PostingsFile>): (r: seq<string>)
    ensures |r| == |files|
  {
    seq(|files|, i requires 0 <= i < |files| => files[i].artifact.path)
  }

  ghost predicate PostingsOk(files: seq<PostingsFile>, offsets: seq<int>, ntotal: int, centroids: Artifact, collate: (string, string) -> int)
  {
    && ProperArtifact(centroids) && files != []
    && (forall i :: 0 <= i < |files| ==> ProperFile(files[i], offsets))
    && Distinct([centroids.path] + Paths(files))
    && (forall i :: 0 < i < |files| ==> Precedes(files[i - 1], files[i], collate))
    && Sum(files, RowsOf) == ntotal
  }

  method CheckPostings(files: seq<PostingsFile>, offsets: seq<int>, ntotal: int, centroids: Artifact, collate: (string, string) -> int)
    returns (verdict: Verdict)
    ensures verdict.Accepted? <==> PostingsOk(files, offsets, ntotal, centroids, collate)
  {
    hide ArtifactOk, ProperArtifact, FileOk, ProperFile, Precedes, Sum, Distinct;
    ArtifactExactly(centroids);
    if !ArtifactOk(centroids) { return Rejected("centroids descriptor is invalid"); }
    for i := 0 to |files|
      invariant forall j :: 0 <= j < i ==> ProperFile(files[j], offsets)
    {
      FileExactly(files[i], offsets);
      if !FileOk(files[i], offsets) { return Rejected("postings file descriptor is out of range"); }
    }
    if |files| == 0 { return Rejected("postings inventory must not be empty"); }
    var unique := AllDistinct([centroids.path] + Paths(files));
    if !unique { return Rejected("index object paths must be unique"); }
    var ordered := NeighboursInOrder(files, collate);
    if !ordered { return Rejected("postings files are not canonically ordered"); }
    var sum := SumRows(files);
    if sum != ntotal { return Rejected("postings rows do not sum to ntotal"); }
    return Accepted;
  }

  /** Comparing the size of a set of paths with their number. */
  method AllDistinct(paths: seq<string>) returns (ok: bool)
    ensures ok <==> Distinct(paths)
  {
    ElementsCardinality(paths);
    assert (set p | p in paths) == Elements(paths);
    return |set p | p in paths| == |paths|;
  }

  method NeighboursInOrder(files: seq<PostingsFile>, collate: (string, string) -> int) returns (ok: bool)
    requires files != []
    ensures ok <==> forall i :: 0 < i < |files| ==> Precedes(files[i - 1], files[i], collate)
  {
    for position := 1 to |files|
      invariant forall j :: 0 < j < position ==> Precedes(files[j - 1], files[j], collate)
    {
      var previous, current := files[position - 1], files[position];
      if CompareFile(previous, current, collate) >= 0
         || (previous.cidBucket == current.cidBucket && current.minCid < previous.maxCid) {
        assert !Precedes(files[position - 1], files[position], collate);
        return false;
      }
    }
    return true;
  }

  method SumRows(files: seq<PostingsFile>) returns (sum: int)
    ensures sum == Sum(files, RowsOf)
  {
    sum := 0;
    for i := 0 to |files|
      invariant sum == Sum(files[..i], RowsOf)
    {
      assert files[..i + 1] == files[..i] + [files[i]];
      SumAppend(files[..i], [files[i]], RowsOf);
      SumSingle(files[i], RowsOf);
      sum := sum + files[i].rows;
    }
    assert files[..|files|] == files;
  }

  /** Files are ordered by CID range, not only between neighbours. */
  lemma {:induction false} FilesOrdered(files: seq<PostingsFile>, offsets: seq<int>, nlist: int, ntotal: int, centroids: Artifact,
                                        collate: (string, string) -> int, i: nat, j: nat)
    requires CidOffsetsOk(offsets, nlist) && PostingsOk(files, offsets, ntotal, centroids, collate)
    requires i < j < |files|
    ensures files[i].maxCid <= files[j].minCid
    ensures files[i].cidBucket <= files[j].cidBucket
    ensures files[i].cidBucket < files[j].cidBucket ==> files[i].maxCid < files[j].minCid
    decreases j - i
  {
    hide ProperFile, Precedes, Sum, Distinct, CidOffsetsOk, Paths;
    if i + 1 < j {
      FilesOrdered(files, offsets, nlist, ntotal, centroids, collate, i, j - 1);
    }
    NeighboursOrdered(files[j - 1], files[j], offsets, nlist, collate);
  }

  lemma NeighboursOrdered(previous: PostingsFile, current: PostingsFile, offsets: seq<int>, nlist: int, collate: (string, string) -> int)
    requires CidOffsetsOk(offsets, nlist) && ProperFile(previous, offsets) && ProperFile(current, offsets)
    requires Precedes(previous, current, collate)
    ensures previous.cidBucket <= current.cidBucket
    ensures previous.minCid <= previous.maxCid <= current.minCid
    ensures previous.cidBucket < current.cidBucket ==> previous.maxCid < current.minCid
  {
    if previous.cidBucket < current.cidBucket {
      OffsetsIncrease(offsets, nlist, previous.cidBucket + 1, current.cidBucket);
    }
  }

  predicate MayHold(f: PostingsFile, cid: int)
  {
    f.minCid <= cid <= f.maxCid
  }

  /** The files that may hold a CID form one contiguous run, all within the bucket of that CID. */
  lemma HoldersContiguous(files: seq<PostingsFile>, offsets: seq<int>, nlist: int, ntotal: int, centroids: Artifact,
                          collate: (string, string) -> int, cid: int, i: nat, k: nat, j: nat)
    requires CidOffsetsOk(offsets, nlist) && PostingsOk(files, offsets, ntotal, centroids, collate)
    requires i <= k <= j < |files| && MayHold(files[i], cid) && MayHold(files[j], cid)
    ensures MayHold(files[k], cid)
    ensures i < k < j ==> files[k].minCid == files[k].maxCid == cid
    ensures InBucket(offsets, files[k].cidBucket, cid) && files[i].cidBucket == files[k].cidBucket == files[j].cidBucket
  {
    hide ProperArtifact, BucketPrefix, Precedes, Sum, Distinct, Paths, CidOffsetsOk;
    assert ProperFile(files[i], offsets) && ProperFile(files[k], offsets) && ProperFile(files[j], offsets);
    if i < k { FilesOrdered(files, offsets, nlist, ntotal, centroids, collate, i, k); }
    if k < j { FilesOrdered(files, offsets, nlist, ntotal, centroids, collate, k, j); }
    CidInExactlyOneBucket(offsets, nlist, cid);
  }

  // ---------- source files ----------

  predicate SourceFileOk(f: SourceFile, rows: int)
  {
    ArtifactOk(f.artifact) && IsInteger(f.rowBegin, 0, rows - 1) && IsInteger(f.rowEnd, f.rowBegin + 1, rows)
  }

  ghost predicate ProperSource(f: SourceFile, rows: int)
  {
    ProperArtifact(f.artifact) && 0 <= f.rowBegin < f.rowEnd <= rows && Portable(f.rowBegin) && Portable(f.rowEnd)
  }

  lemma SourceExactly(f: SourceFile, rows: int)
    ensures SourceFileOk(f, rows) <==> ProperSource(f, rows)
  {
    hide ArtifactOk, ProperArtifact;
    ArtifactExactly(f.artifact);
  }

  /** What the loop over `expectedBegin` checks. */
  ghost predicate SourceFilesOk(files: seq<SourceFile>, rows: int)
  {
    && files != []
    && (forall i :: 0 <= i < |files| ==> ProperSource(files[i], rows))
    && files[0].rowBegin == 0
    && (forall i :: 0 < i < |files| ==> files[i].rowBegin == files[i - 1].rowEnd)
    && files[|files| - 1].rowEnd == rows
  }

  method CheckSourceFiles(files: seq<SourceFile>, rows: int) returns (verdict: Verdict)
    ensures verdict.Accepted? <==> SourceFilesOk(files, rows)
  {
    var expectedBegin := 0;
    for i := 0 to |files|
      invariant forall j :: 0 <= j < i ==> ProperSource(files[j], rows)
      invariant i > 0 ==> files[0].rowBegin == 0
      invariant forall j :: 0 < j < i ==> files[j].rowBegin == files[j - 1].rowEnd
      invariant expectedBegin == if i == 0 then 0 else files[i - 1].rowEnd
    {
      SourceExactly(files[i], rows);
      if !SourceFileOk(files[i], rows) { return Rejected("source file rows are out of range"); }
      if files[i].rowBegin != expectedBegin { return Rejected("source files must canonically partition its rows"); }
      expectedBegin := files[i].rowEnd;
    }
    if |files| == 0 || expectedBegin != rows { return Rejected("source files must canonically partition its rows"); }
    return Accepted;
  }

  predicate HoldsRow(f: SourceFile, row: int)
  {
    f.rowBegin <= row < f.rowEnd
  }

  /** A partition of [0, rows) into non-empty files listed by their first row. */
  ghost predicate RowPartition(files: seq<SourceFile>, rows: int)
  {
    && (forall i :: 0 <= i < |files| ==> ProperSource(files[i], rows))
    && (forall i, j :: 0 <= i < j < |files| ==> files[i].rowBegin <= files[j].rowBegin)
    && (forall row :: 0 <= row < rows ==> Held(files, row))
    && (forall i, j, row :: 0 <= i < |files| && 0 <= j < |files| && HoldsRow(files[i], row) && HoldsRow(files[j], row) ==> i == j)
  }

  ghost predicate Held(files: seq<SourceFile>, row: int)
  {
    exists i :: 0 <= i < |files| && HoldsRow(files[i], row)
  }

  lemma {:induction false} SourceFilesAscend(files: seq<SourceFile>, rows: int, i: nat, j: nat)
    requires SourceFilesOk(files, rows) && i < j < |files|
    ensures files[i].rowEnd <= files[j].rowBegin
    decreases j - i
  {
    if i + 1 < j {
      SourceFilesAscend(files, rows, i, j - 1);
      assert ProperSource(files[j - 1], rows);
    }
  }

  lemma {:induction false} FileOfRow(files: seq<SourceFile>, rows: int, row: int, n: nat) returns (i: nat)
    requires SourceFilesOk(files, rows) && 0 < n <= |files| && 0 <= row < files[n - 1].rowEnd
    ensures i < |files| && HoldsRow(files[i], row)
    decreases n
  {
    if files[n - 1].rowBegin <= row {
      i := n - 1;
    } else {
      i := FileOfRow(files, rows, row, n - 1);
    }
  }

  /** The neighbour checks accept exactly the ordered partitions of the source rows. */
  lemma SourceFilesPartition(files: seq<SourceFile>, rows: int)
    requires rows > 0
    ensures SourceFilesOk(files, rows) <==> RowPartition(files, rows)
  {
    if SourceFilesOk(files, rows) { AcceptedIsPartition(files, rows); }
    if RowPartition(files, rows) { PartitionIsAccepted(files, rows); }
  }

  lemma AcceptedIsPartition(files: seq<SourceFile>, rows: int)
    requires SourceFilesOk(files, rows)
    ensures RowPartition(files, rows)
  {
    forall i, j | 0 <= i < j < |files| ensures files[i].rowEnd <= files[j].rowBegin {
      SourceFilesAscend(files, rows, i, j);
    }
    forall row | 0 <= row < rows ensures Held(files, row) {
      var i := FileOfRow(files, rows, row, |files|);
    }
    forall i, j | 0 <= i < j < |files| ensures files[i].rowBegin <= files[j].rowBegin {
      assert ProperSource(files[i], rows);
    }
  }

  lemma PartitionIsAccepted(files: seq<SourceFile>, rows: int)
    requires rows > 0 && RowPartition(files, rows)
    ensures SourceFilesOk(files, rows)
  {
    hide ProperArtifact;
    assert Held(files, 0);
    var first :| 0 <= first < |files| && HoldsRow(files[first], 0);
    assert files[0].rowBegin <= files[first].rowBegin;
    assert ProperSource(files[0], rows);
    forall i | 0 < i < |files| ensures files[i].rowBegin == files[i - 1].rowEnd {
      NoOverlap(files, rows, i);
      NextRowBegins(files, rows, i - 1);
    }
    NextRowBegins(files, rows, |files| - 1);
  }

  lemma NoOverlap(files: seq<SourceFile>, rows: int, i: nat)
    requires RowPartition(files, rows) && 0 < i < |files|
    ensures files[i - 1].rowEnd <= files[i].rowBegin
  {
    assert ProperSource(files[i], rows) && ProperSource(files[i - 1], rows);
    assert HoldsRow(files[i], files[i].rowBegin);
    assert !HoldsRow(files[i - 1], files[i].rowBegin);
  }

  /** The row after a file, if there is one, opens the next file. */
  lemma NextRowBegins(files: seq<SourceFile>, rows: int, i: nat)
    requires RowPartition(files, rows) && i < |files|
    ensures files[i].rowEnd == rows || (i + 1 < |files| && files[i + 1].rowBegin <= files[i].rowEnd)
  {
    var row := files[i].rowEnd;
    assert ProperSource(files[i], rows);
    if row < rows {
      assert Held(files, row);
      var k :| 0 <= k < |files| && HoldsRow(files[k], row);
      assert ProperSource(files[k], rows);
      assert HoldsRow(files[i], row - 1);
      assert k < i ==> files[k].rowBegin <= files[i].rowBegin;
      assert k <= i ==> HoldsRow(files[k], row - 1);
      assert i < k;
      assert files[i + 1].rowBegin <= files[k].rowBegin;
    }
  }
}
