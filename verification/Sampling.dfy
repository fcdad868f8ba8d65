/**
 Streaming sampling of a vector column (benchmarks/tools/datasets.py, `sample_parquet_vectors`):
 one pass over the batches gathers the rows at sorted random positions.
 */
module Sampling {
  import opened Wrappers
  import opened Sequences

  /** `np.searchsorted(selected, x, side="left")`: how many selected positions lie below `x`. */
  function CountBelow(selected: seq<nat>, x: nat): (n: nat)
    ensures n <= |selected|
  {
    if selected == [] then 0
    else if selected[0] < x then 1 + CountBelow(selected[1..], x)
    else 0
  }

  ghost predicate Ascending(selected: seq<nat>)
  {
    forall i, j :: 0 <= i < j < |selected| ==> selected[i] < selected[j]
  }

  /** In an ascending sequence, the count separates the positions below `x` from the rest. */
  lemma {:induction false} CountSeparates(selected: seq<nat>, x: nat)
    requires Ascending(selected)
    ensures forall i :: 0 <= i < |selected| ==> (selected[i] < x <==> i < CountBelow(selected, x))
  {
    if selected != [] {
      var rest := selected[1..];
      CountSeparates(rest, x);
      forall i | 0 <= i < |selected| ensures selected[i] < x <==> i < CountBelow(selected, x) {
        if i > 0 {
          assert selected[i] == rest[i - 1];
          assert selected[0] < selected[i];
        }
      }
    }
  }

  lemma CountMonotone(selected: seq<nat>, x: nat, y: nat)
    requires Ascending(selected) && x <= y
    ensures CountBelow(selected, x) <= CountBelow(selected, y)
  {
    CountSeparates(selected, x);
    CountSeparates(selected, y);
    var n := CountBelow(selected, x);
    assert n > 0 ==> selected[n - 1] < x;
  }

  /**
   The sample is filled with exactly the selected source rows, for every split of the source into
   batches; the run fails exactly when the batches do not add up to the announced row count.
   */
  method SampleRows<V(0)>(batches: seq<seq<V>>, sourceRows: nat, selected: seq<nat>) returns (r: Result<array<V>, string>)
    requires Ascending(selected) && forall i :: 0 <= i < |selected| ==> selected[i] < sourceRows
    ensures r.Ok? <==> |Flatten(batches)| == sourceRows
    ensures r.Ok? ==> fresh(r.value) && r.value.Length == |selected|
    ensures r.Ok? ==> forall i :: 0 <= i < |selected| ==> r.value[i] == Flatten(batches)[selected[i]]
  {
    var sample := new V[|selected|];
    var written := 0;
    var sourceOffset := 0;
    CountSeparates(selected, 0);
    for b := 0 to |batches|
      invariant sourceOffset == |Flatten(batches[..b])|
      invariant written == CountBelow(selected, sourceOffset)
      invariant forall i :: 0 <= i < written ==> selected[i] < sourceOffset && sample[i] == Flatten(batches[..b])[selected[i]]
    {
      var vectors := batches[b];
      ghost var before := Flatten(batches[..b]);
      assert batches[..b + 1] == batches[..b] + [vectors];
      FlattenSnoc(batches[..b], vectors);
      var lower := CountBelow(selected, sourceOffset);
      var upper := CountBelow(selected, sourceOffset + |vectors|);
      CountSeparates(selected, sourceOffset);
      CountSeparates(selected, sourceOffset + |vectors|);
      CountMonotone(selected, sourceOffset, sourceOffset + |vectors|);
      for i := lower to upper
        invariant written == i
        invariant forall k :: 0 <= k < i ==> selected[k] < sourceOffset + |vectors| && sample[k] == (before + vectors)[selected[k]]
      {
        sample[written] := vectors[selected[i] - sourceOffset];
        written := written + 1;
      }
      sourceOffset := sourceOffset + |vectors|;
    }
    assert batches[..|batches|] == batches;
    CountSeparates(selected, sourceOffset);
    if sourceOffset != sourceRows || written != |selected| {
      AllBelow(selected, sourceOffset, sourceRows);
      return Err("benchmark source row count changed during sampling");
    }
    return Ok(sample);
  }

  /** Once all rows were seen, all selected positions were written: the second check is implied by the first. */
  lemma AllBelow(selected: seq<nat>, offset: nat, sourceRows: nat)
    requires Ascending(selected) && forall i :: 0 <= i < |selected| ==> selected[i] < sourceRows
    ensures offset == sourceRows ==> CountBelow(selected, offset) == |selected|
  {
    CountSeparates(selected, offset);
    var n := CountBelow(selected, offset);
    assert n < |selected| ==> !(selected[n] < offset);
  }
}
