/**
 Postings pruning and row-group planning (browser/src/index.ts, `intersects`, `planPostings`,
 `appendSpan`): which rows of which files a query reads.
 */
module Planning {
  import opened Wrappers
  import opened Sequences
  import opened Numbers
  import opened Manifest

  /** A row group of a postings file; `cid` is absent when its statistics are unusable. */
  datatype RowGroup = RowGroup(rows: int, cid: Option<int>)

  datatype Span = Span(start: int, end: int)

  datatype PlanError = RowCountMismatch | RowsNotPortable | UnusableStatistics | CidOutsideFile | RowsNotCovered

  predicate Intersects(file: PostingsFile, selected: seq<int>)
  {
    exists i :: 0 <= i < |selected| && file.minCid <= selected[i] <= file.maxCid
  }

  ghost predicate HasSelected(file: PostingsFile, selected: seq<int>)
  {
    exists cid :: cid in selected && file.minCid <= cid <= file.maxCid
  }

  lemma IntersectsExactly(file: PostingsFile, selected: seq<int>)
    ensures Intersects(file, selected) <==> HasSelected(file, selected)
  {
    if i :| 0 <= i < |selected| && file.minCid <= selected[i] <= file.maxCid {
      assert selected[i] in selected;
    }
    if cid :| cid in selected && file.minCid <= cid <= file.maxCid {
      var i :| 0 <= i < |selected| && selected[i] == cid;
    }
  }

  /** The files a query reads: exactly those whose CID range holds a selected CID, in their order. */
  method KeptFiles(files: seq<PostingsFile>, selected: seq<int>) returns (kept: seq<PostingsFile>, ghost positions: seq<nat>)
    ensures |positions| == |kept|
    ensures forall k :: 0 <= k < |kept| ==> positions[k] < |files| && kept[k] == files[positions[k]]
    ensures forall k, m :: 0 <= k < m < |kept| ==> positions[k] < positions[m]
    ensures forall f :: 0 <= f < |files| ==> (f in positions <==> HasSelected(files[f], selected))
  {
    hide Intersects, HasSelected;
    kept, positions := [], [];
    for f := 0 to |files|
      invariant |positions| == |kept|
      invariant forall k :: 0 <= k < |kept| ==> positions[k] < f && kept[k] == files[positions[k]]
      invariant forall k, m :: 0 <= k < m < |kept| ==> positions[k] < positions[m]
      invariant forall g :: 0 <= g < f ==> (g in positions <==> HasSelected(files[g], selected))
    {
      IntersectsExactly(files[f], selected);
      if Intersects(files[f], selected) {
        kept, positions := kept + [files[f]], positions + [f];
      }
    }
  }

  function AppendSpan(spans: seq<Span>, start: int, end: int): (r: seq<Span>)
  {
    var n := |spans| - 1;
    if n >= 0 && spans[n].end == start then spans[n := Span(spans[n].start, end)]
    else spans + [Span(start, end)]
  }

  ghost predicate GroupOk(g: RowGroup, file: PostingsFile)
  {
    && 0 < g.rows <= 0x1F_FFFF_FFFF_FFFF
    && g.cid.Some? && file.minCid <= g.cid.value <= file.maxCid
  }

  /** The CID of every row, row group after row group. */
  ghost function RowCids(groups: seq<RowGroup>): seq<int>
  {
    if groups == [] then []
    else
      var n := |groups| - 1;
      RowCids(groups[..n]) + GroupCids(groups[n])
  }

  ghost function GroupCids(g: RowGroup): seq<int>
  {
    if g.rows > 0 && g.cid.Some? then seq(g.rows, _ => g.cid.value) else []
  }

  /** A file whose metadata agrees with the manifest. */
  ghost predicate WellFormed(file: PostingsFile, groups: seq<RowGroup>, numRows: int)
  {
    && numRows == file.rows
    && (forall i :: 0 <= i < |groups| ==> GroupOk(groups[i], file))
    && |RowCids(groups)| == file.rows
  }

  ghost predicate InSpan(s: Span, row: int) { s.start <= row < s.end }

  ghost predicate InSpans(spans: seq<Span>, row: int)
  {
    exists i :: 0 <= i < |spans| && InSpan(spans[i], row)
  }

  /** Non-empty spans within [0, limit), strictly increasing and never touching. */
  ghost predicate Canonical(spans: seq<Span>, limit: int)
  {
    && (forall i :: 0 <= i < |spans| ==> 0 <= spans[i].start < spans[i].end <= limit)
    && (forall i, j :: 0 <= i < j < |spans| ==> spans[i].end < spans[j].start)
  }

  /** The spans hold exactly the rows whose CID is selected. */
  ghost predicate Exact(spans: seq<Span>, cids: seq<int>, selected: set<int>)
  {
    forall row :: 0 <= row < |cids| ==> (InSpans(spans, row) <==> cids[row] in selected)
  }

  // ---------- the loop ----------

  function Plan(groups: seq<RowGroup>, selected: set<int>): (r: (seq<Span>, int))
  {
    if groups == [] then ([], 0)
    else
      var n := |groups| - 1;
      var (spans, rowStart) := Plan(groups[..n], selected);
      var g := groups[n];
      if g.cid.Some? && g.cid.value in selected then (AppendSpan(spans, rowStart, rowStart + g.rows), rowStart + g.rows)
      else (spans, rowStart + g.rows)
  }

  /** The first row group that does not fit the file. */
  ghost predicate FirstBad(file: PostingsFile, groups: seq<RowGroup>, i: int)
  {
    0 <= i < |groups| && !GroupOk(groups[i], file) && forall j :: 0 <= j < i ==> GroupOk(groups[j], file)
  }

  /** What is wrong with it: its row count, its statistics, or its CID. */
  ghost function GroupError(g: RowGroup): PlanError
  {
    if !(0 < g.rows <= 0x1F_FFFF_FFFF_FFFF) then RowsNotPortable
    else if g.cid.None? then UnusableStatistics
    else CidOutsideFile
  }

  method PlanPostings(file: PostingsFile, groups: seq<RowGroup>, numRows: int, selected: set<int>)
    returns (r: Result<seq<Span>, PlanError>)
    ensures r.Ok? <==> WellFormed(file, groups, numRows)
    ensures r == Err(RowCountMismatch) <==> numRows != file.rows
    ensures forall i :: numRows == file.rows && FirstBad(file, groups, i) ==> r == Err(GroupError(groups[i]))
    ensures r == Err(RowsNotCovered) <==> numRows == file.rows && (forall i :: 0 <= i < |groups| ==> GroupOk(groups[i], file))
                                          && |RowCids(groups)| != file.rows
    ensures r.Ok? ==> r.value == Plan(groups, selected).0
    ensures r.Ok? ==> Canonical(r.value, file.rows) && Exact(r.value, RowCids(groups), selected)
  {
    if numRows != file.rows { return Err(RowCountMismatch); }
    var spans: seq<Span> := [];
    var rowStart := 0;
    for i := 0 to |groups|
      invariant forall j :: 0 <= j < i ==> GroupOk(groups[j], file)
      invariant (spans, rowStart) == Plan(groups[..i], selected)
    {
      var g := groups[i];
      if g.rows <= 0 || g.rows > SAFE_INTEGER_MAX { return Err(RowsNotPortable); }
      if g.cid.None? { return Err(UnusableStatistics); }
      if g.cid.value < file.minCid || g.cid.value > file.maxCid { return Err(CidOutsideFile); }
      assert groups[..i + 1][..i] == groups[..i];
      if g.cid.value in selected { spans := AppendSpan(spans, rowStart, rowStart + g.rows); }
      rowStart := rowStart + g.rows;
    }
    assert groups[..|groups|] == groups;
    PlanExact(groups, selected);
    if rowStart != file.rows { return Err(RowsNotCovered); }
    return Ok(spans);
  }

  /** Row-group planning reads exactly the rows whose row group has a selected CID, in canonical spans. */
  lemma {:induction false} PlanExact(groups: seq<RowGroup>, selected: set<int>)
    requires forall i :: 0 <= i < |groups| ==> groups[i].rows > 0 && groups[i].cid.Some?
    ensures var (spans, rowStart) := Plan(groups, selected);
            && rowStart == |RowCids(groups)|
            && Canonical(spans, rowStart)
            && Exact(spans, RowCids(groups), selected)
  {
    hide Exact, Canonical, AppendSpan;
    if groups == [] {
      NoSpans(selected);
    } else {
      var n := |groups| - 1;
      PlanExact(groups[..n], selected);
      var (spans, rowStart) := Plan(groups[..n], selected);
      var g := groups[n];
      LastGroupCids(groups);
      if g.cid.value in selected {
        ExtendSelected(spans, RowCids(groups[..n]), RowCids(groups), g.cid.value, selected);
      } else {
        ExtendSkipped(spans, RowCids(groups[..n]), RowCids(groups), g.cid.value, selected);
      }
    }
  }

  lemma NoSpans(selected: set<int>)
    ensures Canonical([], 0) && Exact([], [], selected)
  {
  }

  lemma LastGroupCids(groups: seq<RowGroup>)
    requires groups != []
    requires var g := groups[|groups| - 1]; g.rows > 0 && g.cid.Some?
    ensures var g, cids := groups[|groups| - 1], RowCids(groups[..|groups| - 1]);
            && |RowCids(groups)| == |cids| + g.rows
            && forall row :: 0 <= row < |RowCids(groups)| ==>
                 RowCids(groups)[row] == if row < |cids| then cids[row] else g.cid.value
  {
  }

  lemma ExtendSelected(spans: seq<Span>, cids: seq<int>, all: seq<int>, cid: int, selected: set<int>)
    requires Canonical(spans, |cids|) && Exact(spans, cids, selected) && |all| > |cids| && cid in selected
    requires forall row :: 0 <= row < |all| ==> all[row] == if row < |cids| then cids[row] else cid
    ensures Canonical(AppendSpan(spans, |cids|, |all|), |all|) && Exact(AppendSpan(spans, |cids|, |all|), all, selected)
  {
    hide InSpans, Canonical, AppendSpan;
    AppendSpanMembers(spans, |cids|, |all|);
    forall row | 0 <= row < |all| ensures InSpans(AppendSpan(spans, |cids|, |all|), row) <==> all[row] in selected {
      assert row < |cids| ==> (InSpans(spans, row) <==> cids[row] in selected);
    }
  }

  lemma ExtendSkipped(spans: seq<Span>, cids: seq<int>, all: seq<int>, cid: int, selected: set<int>)
    requires Canonical(spans, |cids|) && Exact(spans, cids, selected) && |all| > |cids| && cid !in selected
    requires forall row :: 0 <= row < |all| ==> all[row] == if row < |cids| then cids[row] else cid
    ensures Canonical(spans, |all|) && Exact(spans, all, selected)
  {
    assert forall row :: InSpans(spans, row) ==> row < |cids|;
  }

  /** Appending a span adds exactly its rows and keeps the spans canonical. */
  lemma AppendSpanMembers(spans: seq<Span>, start: int, end: int)
    requires Canonical(spans, start) && 0 <= start < end
    ensures Canonical(AppendSpan(spans, start, end), end)
    ensures forall row :: InSpans(AppendSpan(spans, start, end), row) <==> InSpans(spans, row) || start <= row < end
  {
    var r, n := AppendSpan(spans, start, end), |spans| - 1;
    hide InSpans;
    if n >= 0 && spans[n].end == start {
      assert spans == spans[..n] + [spans[n]] && r == spans[..n] + [Span(spans[n].start, end)];
      forall row ensures InSpans(r, row) <==> InSpans(spans, row) || start <= row < end {
        SnocMembers(spans[..n], spans[n], row);
        SnocMembers(spans[..n], Span(spans[n].start, end), row);
      }
    } else {
      forall row ensures InSpans(r, row) <==> InSpans(spans, row) || start <= row < end {
        SnocMembers(spans, Span(start, end), row);
      }
    }
  }

  lemma SnocMembers(spans: seq<Span>, s: Span, row: int)
    ensures InSpans(spans + [s], row) <==> InSpans(spans, row) || InSpan(s, row)
  {
    var r := spans + [s];
    if InSpans(spans, row) {
      var i :| 0 <= i < |spans| && InSpan(spans[i], row);
      assert InSpan(r[i], row);
    }
    if InSpan(s, row) { assert InSpan(r[|spans|], row); }
  }

  // ---------- counting ----------

  ghost function SpanLength(s: Span): int { s.end - s.start }

  ghost function SelectedRows(cids: seq<int>, selected: set<int>): set<int>
  {
    set row | 0 <= row < |cids| && cids[row] in selected
  }

  /** `candidateRows` of a file counts exactly the rows with a selected CID. */
  lemma CandidateRowsExact(spans: seq<Span>, cids: seq<int>, selected: set<int>)
    requires Canonical(spans, |cids|) && Exact(spans, cids, selected)
    ensures Sum(spans, SpanLength) == |SelectedRows(cids, selected)|
  {
    SpanRowsCount(spans, |cids|);
    forall row ensures row in SpanRows(spans, |cids|) <==> row in SelectedRows(cids, selected) {
    }
    assert SpanRows(spans, |cids|) == SelectedRows(cids, selected);
  }

  ghost function SpanRows(spans: seq<Span>, limit: int): set<int>
  {
    set row | 0 <= row < limit && InSpans(spans, row)
  }

  lemma {:induction false} SpanRowsCount(spans: seq<Span>, limit: int)
    requires Canonical(spans, limit)
    ensures |SpanRows(spans, limit)| == Sum(spans, SpanLength)
  {
    if spans == [] {
      assert SpanRows(spans, limit) == {};
    } else {
      var head, rest := spans[0], spans[1..];
      assert Canonical(rest, limit);
      hide Canonical, SpanRows, Interval;
      SpanRowsCount(rest, limit);
      IntervalCardinality(head.start, head.end);
      FirstSpan(spans, limit);
      FirstSpanRows(spans, limit);
    }
  }

  lemma FirstSpanRows(spans: seq<Span>, limit: int)
    requires Canonical(spans, limit) && spans != []
    ensures SpanRows(spans, limit) == Interval(spans[0].start, spans[0].end) + SpanRows(spans[1..], limit)
    ensures Interval(spans[0].start, spans[0].end) !! SpanRows(spans[1..], limit)
  {
    hide InSpans, Canonical;
    FirstSpan(spans, limit);
  }

  lemma FirstSpan(spans: seq<Span>, limit: int)
    requires Canonical(spans, limit) && spans != []
    ensures 0 <= spans[0].start < spans[0].end <= limit
    ensures forall row :: InSpans(spans, row) <==> spans[0].start <= row < spans[0].end || InSpans(spans[1..], row)
    ensures forall row :: InSpans(spans[1..], row) ==> spans[0].end <= row
  {
    var rest := spans[1..];
    forall row ensures InSpans(spans, row) <==> InSpan(spans[0], row) || InSpans(rest, row) {
      if InSpans(rest, row) {
        var i :| 0 <= i < |rest| && InSpan(rest[i], row);
        assert InSpan(spans[i + 1], row);
      }
      if InSpans(spans, row) {
        var i :| 0 <= i < |spans| && InSpan(spans[i], row);
        assert i > 0 ==> InSpan(rest[i - 1], row);
      }
    }
  }

  /** A pruned file holds no row of a selected list. */
  lemma PruningIsSafe(file: PostingsFile, groups: seq<RowGroup>, numRows: int, selected: seq<int>, row: int)
    requires WellFormed(file, groups, numRows) && !Intersects(file, selected)
    requires 0 <= row < |RowCids(groups)|
    ensures RowCids(groups)[row] !in selected
  {
    RowCidInFile(file, groups, row);
  }

  lemma {:induction false} RowCidInFile(file: PostingsFile, groups: seq<RowGroup>, row: int)
    requires forall i :: 0 <= i < |groups| ==> GroupOk(groups[i], file)
    requires 0 <= row < |RowCids(groups)|
    ensures file.minCid <= RowCids(groups)[row] <= file.maxCid
  {
    var n := |groups| - 1;
    if row < |RowCids(groups[..n])| {
      RowCidInFile(file, groups[..n], row);
    } else {
      assert GroupOk(groups[n], file);
    }
  }
}
