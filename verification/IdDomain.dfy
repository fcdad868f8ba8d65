/**
 The ID-domain check (benchmarks/tools/validate_wikipedia.py, `validate`): the ID column must be a
 permutation of 0..rows-1. The per-batch test misses a duplicate inside one batch; the final count
 catches it.
 */
module IdDomain {
  import opened Wrappers
  import opened Sequences

  datatype IdError = NullId | OutOfRange | Repeated | RowCountChanged

  /** A column of IDs; `None` is a NULL. */
  type Column = seq<Option<int>>

  function Ids(column: Column): (r: seq<int>)
    ensures |r| == |column|
  {
    seq(|column|, i requires 0 <= i < |column| => if column[i].Some? then column[i].value else -1)
  }

  /** Each of 0..rows-1 exactly once, and nothing else. */
  ghost predicate Permutation(column: Column, rows: nat)
  {
    && |column| == rows
    && (forall i :: 0 <= i < rows ==> column[i].Some? && 0 <= column[i].value < rows)
    && Distinct(Ids(column))
  }

  /** Every value of a full domain occurs exactly if none occurs twice. */
  lemma Pigeonhole(ids: seq<int>, rows: nat)
    requires |ids| == rows && forall i :: 0 <= i < rows ==> 0 <= ids[i] < rows
    ensures Distinct(ids) <==> forall v :: 0 <= v < rows ==> v in ids
  {
    ElementsCardinality(ids);
    IntervalCardinality(0, rows);
    SubsetCardinality(Elements(ids), Interval(0, rows));
    if Distinct(ids) {
      forall v | 0 <= v < rows ensures v in ids {
        assert v in Interval(0, rows) && Interval(0, rows) == Elements(ids);
      }
    }
    if forall v :: 0 <= v < rows ==> v in ids {
      assert Interval(0, rows) <= Elements(ids);
      assert Interval(0, rows) == Elements(ids);
    }
  }

  ghost predicate Marked(seen: seq<bool>, ids: seq<int>)
  {
    forall v :: 0 <= v < |seen| ==> (seen[v] <==> v in ids)
  }

  ghost predicate InDomain(column: Column, rows: nat)
  {
    forall i :: 0 <= i < |column| ==> column[i].Some? && 0 <= column[i].value < rows
  }

  /** Whether one batch passes the NULL, range and `seen` tests, against the rows scanned before. */
  method CheckBatch(batch: Column, seen: array<bool>) returns (error: Option<IdError>)
    ensures error.None? <==> InDomain(batch, seen.Length) && forall i :: 0 <= i < |batch| ==> !seen[batch[i].value]
    ensures error == Some(NullId) <==> exists i :: 0 <= i < |batch| && batch[i].None?
    ensures error == Some(OutOfRange) ==> !InDomain(batch, seen.Length)
    ensures error == Some(Repeated) ==> InDomain(batch, seen.Length)
    ensures error != Some(RowCountChanged)
  {
    for i := 0 to |batch|
      invariant forall j :: 0 <= j < i ==> batch[j].Some?
    {
      if batch[i].None? { return Some(NullId); }
    }
    for i := 0 to |batch|
      invariant forall j :: 0 <= j < i ==> 0 <= batch[j].value < seen.Length
    {
      if batch[i].value < 0 || batch[i].value >= seen.Length { return Some(OutOfRange); }
    }
    for i := 0 to |batch|
      invariant forall j :: 0 <= j < i ==> !seen[batch[j].value]
    {
      if seen[batch[i].value] { return Some(Repeated); }
    }
    return None;
  }

  method MarkBatch(batch: Column, seen: array<bool>)
    requires InDomain(batch, seen.Length)
    modifies seen
    ensures forall v :: 0 <= v < seen.Length ==> (seen[v] <==> old(seen[v]) || v in Ids(batch))
  {
    for i := 0 to |batch|
      invariant forall v :: 0 <= v < seen.Length ==> (seen[v] <==> old(seen[v]) || v in Ids(batch)[..i])
    {
      assert Ids(batch)[..i + 1] == Ids(batch)[..i] + [batch[i].value];
      seen[batch[i].value] := true;
    }
    assert Ids(batch)[..|batch|] == Ids(batch);
  }

  /** The check accepts exactly the columns that are a permutation of 0..rows-1, however they are batched. */
  method ValidateIds(batches: seq<Column>, rows: nat) returns (r: Result<(), IdError>)
    ensures r.Ok? <==> Permutation(Flatten(batches), rows)
  {
    var seen := new bool[rows](_ => false);
    var scanned := 0;
    ghost var column: Column := [];
    for b := 0 to |batches|
      invariant column == Flatten(batches[..b]) && scanned == |column|
      invariant InDomain(column, rows) && Marked(seen[..], Ids(column))
    {
      var batch := batches[b];
      assert batches[..b + 1] == batches[..b] + [batch];
      FlattenSnoc(batches[..b], batch);
      FlattenPrefix(batches, b + 1);
      var error := CheckBatch(batch, seen);
      if error.Some? {
        RejectedBatch(Flatten(batches), column, batch, rows, seen[..]);
        return Err(error.value);
      }
      MarkBatch(batch, seen);
      assert Ids(column + batch) == Ids(column) + Ids(batch);
      column := column + batch;
      scanned := scanned + |batch|;
    }
    assert batches[..|batches|] == batches;
    var allSeen := true;
    for v := 0 to rows
      invariant allSeen <==> forall u :: 0 <= u < v ==> seen[u]
    {
      if !seen[v] { allSeen := false; }
    }
    Verdict(column, rows, seen[..]);
    if scanned != rows || !allSeen { return Err(RowCountChanged); }
    return Ok(());
  }

  /** A batch that fails its tests belongs to no permutation. */
  lemma RejectedBatch(whole: Column, column: Column, batch: Column, rows: nat, seen: seq<bool>)
    requires column + batch <= whole && |seen| == rows && Marked(seen, Ids(column))
    requires !(InDomain(batch, rows) && forall i :: 0 <= i < |batch| ==> !seen[batch[i].value])
    ensures !Permutation(whole, rows)
  {
    if i :| 0 <= i < |batch| && !(batch[i].Some? && 0 <= batch[i].value < rows) {
      assert whole[|column| + i] == batch[i];
    } else {
      var i :| 0 <= i < |batch| && seen[batch[i].value];
      var j :| 0 <= j < |column| && Ids(column)[j] == batch[i].value;
      assert whole[|column| + i] == batch[i] && whole[j] == column[j];
      assert |whole| == rows && column[j].Some? ==> Ids(whole)[j] == Ids(whole)[|column| + i];
    }
  }

  lemma Verdict(column: Column, rows: nat, seen: seq<bool>)
    requires InDomain(column, rows) && |seen| == rows && Marked(seen, Ids(column))
    ensures Permutation(column, rows) <==> |column| == rows && forall v :: 0 <= v < rows ==> seen[v]
  {
    if |column| == rows { Pigeonhole(Ids(column), rows); }
  }
}
