/**
 A query from selected lists to final hits (browser/src/index.ts, `search`): pruning, planning,
 concurrent reads, batch kernels and the final merge together equal a plain scan of the selected
 lists.
 */
module Search {
  import opened Wrappers
  import opened Sequences
  import opened Numbers
  import opened Manifest
  import opened Planning
  import opened TopK
  import WorkerPool
  import Sorting

  /** A postings file with its row groups and the distance of each of its rows to the query. */
  datatype FileData = FileData(file: PostingsFile, groups: seq<RowGroup>, scores: seq<real>)

  ghost predicate FileWellFormed(d: FileData)
  {
    WellFormed(d.file, d.groups, d.file.rows) && |d.scores| == d.file.rows
  }

  ghost predicate ArtifactOk(files: seq<FileData>)
  {
    forall f :: 0 <= f < |files| ==> FileWellFormed(files[f])
  }

  /** A row of the index with its distance. */
  datatype Located = Located(distance: real, file: nat, row: nat)

  predicate Nearer(a: Located, b: Located)
  {
    || a.distance < b.distance
    || (a.distance == b.distance && (a.file < b.file || (a.file == b.file && a.row < b.row)))
  }

  // ---------- the plain scan ----------

  ghost predicate RowSelected(files: seq<FileData>, selected: seq<int>, f: nat, row: nat)
  {
    && f < |files| && row < |files[f].scores| && row < |RowCids(files[f].groups)|
    && RowCids(files[f].groups)[row] in selected
  }

  /** The first `rows` rows of file `f` that belong to a selected list, in order. */
  ghost function ScanRows(files: seq<FileData>, selected: seq<int>, f: nat, rows: nat): seq<Located>
    requires f < |files| && rows <= |files[f].scores|
  {
    if rows == 0 then []
    else
      var rest := ScanRows(files, selected, f, rows - 1);
      if RowSelected(files, selected, f, rows - 1) then rest + [Located(files[f].scores[rows - 1], f, rows - 1)] else rest
  }

  ghost function PlainScan(files: seq<FileData>, selected: seq<int>, n: nat): seq<Located>
    requires n <= |files|
  {
    if n == 0 then []
    else PlainScan(files, selected, n - 1) + ScanRows(files, selected, n - 1, |files[n - 1].scores|)
  }

  // ---------- the query ----------

  datatype Job = Job(file: nat, span: Span)

  ghost function FileJobs(d: FileData, f: nat, selected: seq<int>): seq<Job>
  {
    if Intersects(d.file, selected) then
      var spans := Plan(d.groups, set c | c in selected).0;
      seq(|spans|, i requires 0 <= i < |spans| => Job(f, spans[i]))
    else []
  }

  /** The read jobs of the files kept by pruning, in file order. */
  ghost function Jobs(files: seq<FileData>, selected: seq<int>): seq<Job>
  {
    if files == [] then []
    else
      var n := |files| - 1;
      Jobs(files[..n], selected) + FileJobs(files[n], n, selected)
  }

  /** What a read job returns, as far as the kernel is concerned. */
  ghost function ReadJob(files: seq<FileData>, j: Job): seq<real>
  {
    if j.file < |files| && 0 <= j.span.start <= j.span.end <= |files[j.file].scores|
    then files[j.file].scores[j.span.start..j.span.end] else []
  }

  ghost function Reader(files: seq<FileData>): Job -> seq<real>
  {
    (j: Job) => ReadJob(files, j)
  }

  ghost function Locate(jobs: seq<Job>, x: Scored): Located
  {
    if x.batch < |jobs| && jobs[x.batch].span.start >= 0
    then Located(x.distance, jobs[x.batch].file, jobs[x.batch].span.start + x.row)
    else Located(x.distance, 0, 0)
  }

  /** The hits returned for the merged candidates. */
  ghost function SearchResult(jobs: seq<Job>, kernel: seq<seq<Hit>>, k: nat): seq<Located>
  {
    var out := Merged(kernel, k);
    seq(|out|, i requires 0 <= i < |out| => Locate(jobs, out[i]))
  }

  // ---------- the jobs are the selected rows ----------

  ghost predicate JobOk(files: seq<FileData>, j: Job)
  {
    j.file < |files| && 0 <= j.span.start < j.span.end <= |files[j.file].scores|
  }

  ghost predicate JobBefore(a: Job, b: Job)
  {
    a.file < b.file || (a.file == b.file && a.span.end < b.span.start)
  }

  ghost predicate ReadBy(jobs: seq<Job>, f: nat, row: int)
  {
    exists j :: 0 <= j < |jobs| && jobs[j].file == f && InSpan(jobs[j].span, row)
  }

  ghost predicate JobsOk(files: seq<FileData>, jobs: seq<Job>)
  {
    && (forall j :: 0 <= j < |jobs| ==> JobOk(files, jobs[j]))
    && (forall i, j :: 0 <= i < j < |jobs| ==> JobBefore(jobs[i], jobs[j]))
  }

  lemma FileJobsExact(files: seq<FileData>, f: nat, selected: seq<int>)
    requires ArtifactOk(files) && f < |files|
    ensures JobsOk(files, FileJobs(files[f], f, selected))
    ensures forall j :: 0 <= j < |FileJobs(files[f], f, selected)| ==> FileJobs(files[f], f, selected)[j].file == f
    ensures forall row: nat :: ReadBy(FileJobs(files[f], f, selected), f, row) <==> RowSelected(files, selected, f, row)
  {
    var d := files[f];
    assert FileWellFormed(d);
    if Intersects(d.file, selected) {
      KeptFileExact(files, f, selected);
    } else {
      forall row: nat | row < |RowCids(d.groups)| ensures RowCids(d.groups)[row] !in selected {
        PruningIsSafe(d.file, d.groups, d.file.rows, selected, row);
      }
    }
  }

  lemma KeptFileExact(files: seq<FileData>, f: nat, selected: seq<int>)
    requires f < |files| && FileWellFormed(files[f]) && Intersects(files[f].file, selected)
    ensures var jobs := FileJobs(files[f], f, selected);
            && JobsOk(files, jobs)
            && (forall row: nat :: ReadBy(jobs, f, row) <==> RowSelected(files, selected, f, row))
  {
    var d, wanted := files[f], set c | c in selected;
    forall i | 0 <= i < |d.groups| ensures d.groups[i].rows > 0 && d.groups[i].cid.Some? {
      assert GroupOk(d.groups[i], d.file);
    }
    PlanExact(d.groups, wanted);
    var spans := Plan(d.groups, wanted).0;
    var jobs := FileJobs(d, f, selected);
    hide Plan, RowCids;
    forall row: nat ensures ReadBy(jobs, f, row) <==> InSpans(spans, row) {
      if ReadBy(jobs, f, row) {
        var j :| 0 <= j < |jobs| && jobs[j].file == f && InSpan(jobs[j].span, row);
        assert InSpan(spans[j], row);
      }
      if InSpans(spans, row) {
        var j :| 0 <= j < |spans| && InSpan(spans[j], row);
        assert InSpan(jobs[j].span, row);
      }
    }
    forall row: nat ensures InSpans(spans, row) <==> RowSelected(files, selected, f, row) {
      if row < |RowCids(d.groups)| {
        assert InSpans(spans, row) <==> RowCids(d.groups)[row] in wanted;
      }
    }
  }

  /** The read jobs are ordered, disjoint, and together hold exactly the selected rows. */
  lemma {:induction false} JobsExact(files: seq<FileData>, selected: seq<int>, n: nat)
    requires ArtifactOk(files) && n <= |files|
    ensures var jobs := Jobs(files[..n], selected);
            && JobsOk(files, jobs)
            && (forall j :: 0 <= j < |jobs| ==> jobs[j].file < n)
            && (forall f: nat, row: nat :: f < n ==> (ReadBy(jobs, f, row) <==> RowSelected(files, selected, f, row)))
  {
    hide FileJobs, RowSelected, ArtifactOk, JobOk, InSpan;
    if n > 0 {
      JobsExact(files, selected, n - 1);
      FileJobsExact(files, n - 1, selected);
      assert files[..n][..n - 1] == files[..n - 1];
      var before, last := Jobs(files[..n - 1], selected), FileJobs(files[n - 1], n - 1, selected);
      assert Jobs(files[..n], selected) == before + last;
      forall f: nat, row: nat | f < n ensures ReadBy(before + last, f, row) <==> RowSelected(files, selected, f, row) {
        ReadByEither(before, last, f, row);
      }
    }
  }

  lemma ReadByEither(a: seq<Job>, b: seq<Job>, f: nat, row: nat)
    ensures ReadBy(a + b, f, row) <==> ReadBy(a, f, row) || ReadBy(b, f, row)
  {
    if ReadBy(a, f, row) {
      var j :| 0 <= j < |a| && a[j].file == f && InSpan(a[j].span, row);
      assert (a + b)[j] == a[j];
    }
    if ReadBy(b, f, row) {
      var j :| 0 <= j < |b| && b[j].file == f && InSpan(b[j].span, row);
      assert (a + b)[|a| + j] == b[j];
    }
    if ReadBy(a + b, f, row) {
      var j :| 0 <= j < |a + b| && (a + b)[j].file == f && InSpan((a + b)[j].span, row);
      assert if j < |a| then (a + b)[j] == a[j] else (a + b)[j] == b[j - |a|];
    }
  }

  // ---------- locating hits ----------

  ghost function Batches(files: seq<FileData>, jobs: seq<Job>): seq<seq<real>>
  {
    seq(|jobs|, j requires 0 <= j < |jobs| => ReadJob(files, jobs[j]))
  }

  ghost function SelectedSet(files: seq<FileData>, selected: seq<int>): set<Located>
  {
    set f: nat, row: nat | f < |files| && row < |files[f].scores| && RowSelected(files, selected, f, row) ::
      Located(files[f].scores[row], f, row)
  }

  lemma LocateMonotone(files: seq<FileData>, jobs: seq<Job>, x: Scored, y: Scored)
    requires JobsOk(files, jobs)
    requires x in AllRows(Batches(files, jobs)) && y in AllRows(Batches(files, jobs)) && Closer(x, y)
    ensures Nearer(Locate(jobs, x), Locate(jobs, y))
  {
    assert JobOk(files, jobs[x.batch]) && JobOk(files, jobs[y.batch]);
    assert x.batch < y.batch ==> JobBefore(jobs[x.batch], jobs[y.batch]);
  }

  lemma LocatedIsSelected(files: seq<FileData>, jobs: seq<Job>, selected: seq<int>, x: Scored)
    requires JobsOk(files, jobs) && x in AllRows(Batches(files, jobs))
    requires forall f: nat, row: nat :: f < |files| ==> (ReadBy(jobs, f, row) <==> RowSelected(files, selected, f, row))
    ensures Locate(jobs, x) in SelectedSet(files, selected)
  {
    var j := jobs[x.batch];
    assert JobOk(files, j);
    var row := j.span.start + x.row;
    assert InSpan(j.span, row);
    assert ReadBy(jobs, j.file, row);
  }

  lemma SelectedIsLocated(files: seq<FileData>, jobs: seq<Job>, selected: seq<int>, z: Located) returns (x: Scored)
    requires JobsOk(files, jobs) && z in SelectedSet(files, selected)
    requires forall f: nat, row: nat :: f < |files| ==> (ReadBy(jobs, f, row) <==> RowSelected(files, selected, f, row))
    ensures x in AllRows(Batches(files, jobs)) && Locate(jobs, x) == z
  {
    assert ReadBy(jobs, z.file, z.row);
    var j :| 0 <= j < |jobs| && jobs[j].file == z.file && InSpan(jobs[j].span, z.row);
    assert JobOk(files, jobs[j]);
    x := Scored(z.distance, j, z.row - jobs[j].span.start);
    assert Batches(files, jobs)[j][x.row] == z.distance;
  }

  // ---------- the scan lists the selected set ----------

  lemma {:induction false} ScanRowsMembers(files: seq<FileData>, selected: seq<int>, f: nat, rows: nat)
    requires f < |files| && rows <= |files[f].scores|
    ensures var s := ScanRows(files, selected, f, rows);
            && (forall z :: z in s <==> z.file == f && z.row < rows && RowSelected(files, selected, f, z.row) && z.distance == files[f].scores[z.row])
            && Distinct(s)
  {
    hide RowSelected;
    if rows > 0 { ScanRowsMembers(files, selected, f, rows - 1); }
  }

  lemma {:induction false} PlainScanMembers(files: seq<FileData>, selected: seq<int>, n: nat)
    requires n <= |files|
    ensures var s := PlainScan(files, selected, n);
            && (forall z :: z in s <==>
                 (z.file < n && z.row < |files[z.file].scores|
                  && RowSelected(files, selected, z.file, z.row) && z.distance == files[z.file].scores[z.row]))
            && Distinct(s)
  {
    hide RowSelected, ScanRows;
    if n > 0 {
      PlainScanMembers(files, selected, n - 1);
      ScanRowsMembers(files, selected, n - 1, |files[n - 1].scores|);
      var a, b := PlainScan(files, selected, n - 1), ScanRows(files, selected, n - 1, |files[n - 1].scores|);
      forall i, j | 0 <= i < |a| && 0 <= j < |b| ensures a[i] != b[j] {
        assert a[i] in a && b[j] in b;
      }
    }
  }

  lemma NearerTotal()
    ensures StrictTotal(Nearer)
  {
  }

  /** The query pipeline finds the best k of the selected rows. */
  lemma SearchIsTop(files: seq<FileData>, selected: seq<int>, kernel: seq<seq<Hit>>, k: nat)
    requires ArtifactOk(files)
    requires KernelOk(Batches(files, Jobs(files, selected)), k, kernel)
    ensures IsTop(SelectedSet(files, selected), k, SearchResult(Jobs(files, selected), kernel, k), Nearer)
    ensures |SelectedSet(files, selected)| == |AllRows(Batches(files, Jobs(files, selected)))|
  {
    hide Jobs, Merged, Batches, AllRows, SelectedSet, Locate, Closer, Nearer, IsTop, JobsOk, RowSelected, ReadBy, KernelOk;
    var jobs := Jobs(files, selected);
    var batches := Batches(files, jobs);
    JobsExact(files, selected, |files|);
    assert files[..|files|] == files;
    CloserTotal();
    NearerTotal();
    MergedIsTopOfAll(batches, k, kernel);
    forall x, y | x in AllRows(batches) && y in AllRows(batches) && Closer(x, y)
      ensures Nearer(Locate(jobs, x), Locate(jobs, y))
    {
      LocateMonotone(files, jobs, x, y);
    }
    forall z ensures z in SelectedSet(files, selected) <==> exists x :: x in AllRows(batches) && Locate(jobs, x) == z {
      if z in SelectedSet(files, selected) {
        var x := SelectedIsLocated(files, jobs, selected, z);
      }
      if x :| x in AllRows(batches) && Locate(jobs, x) == z {
        LocatedIsSelected(files, jobs, selected, x);
      }
    }
    var out, locate := Merged(kernel, k), (x: Scored) => Locate(jobs, x);
    TopImage(AllRows(batches), k, out, Closer, locate, SelectedSet(files, selected), SearchResult(jobs, kernel, k), Nearer);
  }

  lemma ScanIsSelectedSet(files: seq<FileData>, selected: seq<int>)
    ensures Elements(PlainScan(files, selected, |files|)) == SelectedSet(files, selected)
    ensures Distinct(PlainScan(files, selected, |files|))
  {
    hide RowSelected, PlainScan;
    PlainScanMembers(files, selected, |files|);
    var s := PlainScan(files, selected, |files|);
    forall z ensures z in s <==> z in SelectedSet(files, selected) {
      if z in s {
        assert RowSelected(files, selected, z.file, z.row);
      }
    }
  }

  /**
   For a well-formed artifact, every pool interleaving that completes, and every kernel meeting its
   contract, a query returns exactly the first k rows of the selected lists ordered by
   (distance, file, row).
   */
  lemma SearchIsPlainScan(files: seq<FileData>, selected: seq<int>, concurrency: nat, events: seq<WorkerPool.Event>,
                          kernel: seq<seq<Hit>>, k: nat)
    requires ArtifactOk(files) && concurrency > 0
    requires var pool := WorkerPool.After(Jobs(files, selected), concurrency, Reader(files), events);
             && WorkerPool.AllReturned(pool)
             && |kernel| == |pool.results|
             && (forall b :: 0 <= b < |kernel| ==>
                   pool.results[b].Some? && KernelContract(pool.results[b].value, k, kernel[b]))
    ensures var scan := PlainScan(files, selected, |files|);
            SearchResult(Jobs(files, selected), kernel, k) == Sorting.Sort(scan, Nearer)[..Min(k, |scan|)]
  {
    hide Jobs, PlainScan, SearchResult, SelectedSet, Nearer, IsTop, ArtifactOk, KernelContract, ReadJob, Distinct, Elements;
    var jobs := Jobs(files, selected);
    WorkerPool.Completion(jobs, concurrency, Reader(files), events);
    var batches := Batches(files, jobs);
    forall b | 0 <= b < |batches| ensures KernelContract(batches[b], k, kernel[b]) {
      assert WorkerPool.After(jobs, concurrency, Reader(files), events).results[b] == Some(batches[b]);
    }
    SearchIsTop(files, selected, kernel, k);
    var scan := PlainScan(files, selected, |files|);
    ScanIsSelectedSet(files, selected);
    NearerTotal();
    SortedPrefixIsTop(scan, k, Nearer);
    TopUnique(SelectedSet(files, selected), k, SearchResult(jobs, kernel, k), Sorting.Sort(scan, Nearer)[..Min(k, |scan|)], Nearer);
  }

  ghost function JobLength(j: Job): int { j.span.end - j.span.start }

  /** `candidateRows`, the total length of all planned spans, is the exact number of selected rows. */
  lemma CandidateRowsCountSelected(files: seq<FileData>, selected: seq<int>)
    requires ArtifactOk(files)
    ensures Sum(Jobs(files, selected), JobLength) == |PlainScan(files, selected, |files|)|
  {
    hide Jobs, PlainScan, SelectedSet, AllRows, Sum, ArtifactOk, IsTop, SearchResult;
    var jobs := Jobs(files, selected);
    var batches := Batches(files, jobs);
    JobsExact(files, selected, |files|);
    assert files[..|files|] == files;
    BatchLengths(files, jobs);
    AllRowsCount(batches);
    var kernel := EmptyKernel(batches);
    SearchIsTop(files, selected, kernel, 0);
    ScanIsSelectedSet(files, selected);
    ElementsCardinality(PlainScan(files, selected, |files|));
  }

  lemma EmptyKernel(batches: seq<seq<real>>) returns (kernel: seq<seq<Hit>>)
    ensures KernelOk(batches, 0, kernel)
  {
    kernel := seq(|batches|, _ => []);
  }

  lemma {:induction false} BatchLengths(files: seq<FileData>, jobs: seq<Job>)
    requires JobsOk(files, jobs)
    ensures Sum(Batches(files, jobs), BatchLength) == Sum(jobs, JobLength)
  {
    if jobs != [] {
      BatchLengths(files, jobs[1..]);
      assert JobOk(files, jobs[0]);
      assert Batches(files, jobs)[1..] == Batches(files, jobs[1..]);
    }
  }
}
