/**
 The two-level top-k of a query (browser/src/index.ts, `search`): the kernel returns the best rows of
 each batch, and the merged candidates are sorted and cut again.
 */
module TopK {
  import opened Sequences
  import opened Numbers
  import Sorting

  // ---------- the best k of a set, under a strict total order ----------

  ghost predicate StrictTotal<T(!new)>(less: (T, T) -> bool)
  {
    && (forall x, y :: less(x, y) ==> !less(y, x))
    && (forall x, y, z :: less(x, y) && less(y, z) ==> less(x, z))
    && (forall x, y :: x == y || less(x, y) || less(y, x))
  }

  ghost predicate Increasing<T>(s: seq<T>, less: (T, T) -> bool)
  {
    forall i, j :: 0 <= i < j < |s| ==> less(s[i], s[j])
  }

  /** `out` lists the k smallest members of `all` (or all of them) in increasing order. */
  ghost predicate IsTop<T(!new)>(all: set<T>, k: nat, out: seq<T>, less: (T, T) -> bool)
  {
    && |out| == Min(k, |all|)
    && Increasing(out, less)
    && (forall x :: x in out ==> x in all)
    && (forall x, y :: x in all && x !in out && y in out ==> less(y, x))
  }

  lemma IncreasingDistinct<T(!new)>(s: seq<T>, less: (T, T) -> bool)
    requires StrictTotal(less) && Increasing(s, less)
    ensures |Elements(s)| == |s|
  {
    forall i, j | 0 <= i < j < |s| ensures s[i] != s[j] {
      assert less(s[i], s[j]);
    }
    ElementsCardinality(s);
  }

  /** An increasing listing of a set is unique. */
  lemma {:induction false} IncreasingUnique<T(!new)>(a: seq<T>, b: seq<T>, less: (T, T) -> bool)
    requires StrictTotal(less) && Increasing(a, less) && Increasing(b, less)
    requires Elements(a) == Elements(b)
    ensures a == b
  {
    IncreasingDistinct(a, less);
    IncreasingDistinct(b, less);
    if a != [] {
      var n := |a| - 1;
      assert a[n] in Elements(b) && b[n] in Elements(a);
      LastIsGreatest(a, b[n], less);
      LastIsGreatest(b, a[n], less);
      InitElements(a, less);
      InitElements(b, less);
      IncreasingUnique(a[..n], b[..n], less);
      assert a == a[..n] + [a[n]] && b == b[..n] + [b[n]];
    }
  }

  lemma LastIsGreatest<T(!new)>(s: seq<T>, x: T, less: (T, T) -> bool)
    requires Increasing(s, less) && x in s
    ensures x == s[|s| - 1] || less(x, s[|s| - 1])
  {
    var i :| 0 <= i < |s| && s[i] == x;
  }

  lemma InitElements<T(!new)>(s: seq<T>, less: (T, T) -> bool)
    requires StrictTotal(less) && Increasing(s, less) && s != []
    ensures Elements(s[..|s| - 1]) == Elements(s) - {s[|s| - 1]}
  {
    var n := |s| - 1;
    forall x | x in Elements(s) && x != s[n] ensures x in s[..n] {
      var i :| 0 <= i < |s| && s[i] == x;
      assert s[..n][i] == x;
    }
    forall i | 0 <= i < n ensures s[..n][i] != s[n] {
      assert less(s[i], s[n]);
    }
  }

  /** The best k are unique, members and order. */
  lemma TopUnique<T(!new)>(all: set<T>, k: nat, a: seq<T>, b: seq<T>, less: (T, T) -> bool)
    requires StrictTotal(less) && IsTop(all, k, a, less) && IsTop(all, k, b, less)
    ensures a == b
  {
    TopSubset(all, k, a, b, less);
    TopSubset(all, k, b, a, less);
    IncreasingUnique(a, b, less);
  }

  lemma TopSubset<T(!new)>(all: set<T>, k: nat, a: seq<T>, b: seq<T>, less: (T, T) -> bool)
    requires StrictTotal(less) && IsTop(all, k, a, less) && IsTop(all, k, b, less)
    ensures Elements(a) <= Elements(b)
  {
    IncreasingDistinct(a, less);
    IncreasingDistinct(b, less);
    forall x | x in a ensures x in b {
      if Elements(b) <= Elements(a) {
        SubsetCardinality(Elements(b), Elements(a));
        assert x in Elements(b);
      } else {
        var y :| y in Elements(b) && y !in Elements(a);
        assert less(x, y);
      }
    }
  }

  /**
   Keeping only `kept` loses nothing for the best k, if every discarded member is beaten by k
   kept ones.
   */
  lemma TopOfKept<T(!new)>(all: set<T>, kept: set<T>, k: nat, out: seq<T>, less: (T, T) -> bool, beaten: T -> set<T>)
    requires StrictTotal(less) && kept <= all && IsTop(kept, k, out, less)
    requires forall x :: x in all && x !in kept ==>
               beaten(x) <= kept && |beaten(x)| == k && forall d :: d in beaten(x) ==> less(d, x)
    ensures IsTop(all, k, out, less)
  {
    SubsetCardinality(kept, all);
    IncreasingDistinct(out, less);
    forall x | x in all && x !in kept ensures k <= |kept| {
      SubsetCardinality(beaten(x), kept);
    }
    if |kept| < k { assert kept == all; }
    forall x, y | x in all && x !in out && y in out ensures less(y, x) {
      if x !in kept {
        var d := beaten(x);
        SubsetCardinality(d, kept);
        if d <= Elements(out) {
          SubsetCardinality(d, Elements(out));
          assert y in d;
        } else {
          var e :| e in d && e !in Elements(out);
          assert less(y, e) && less(e, x);
        }
      }
    }
  }

  lemma PrefixIsTop<T(!new)>(s: seq<T>, k: nat, less: (T, T) -> bool)
    requires StrictTotal(less) && Increasing(s, less)
    ensures IsTop(Elements(s), k, s[..Min(k, |s|)], less)
  {
    IncreasingDistinct(s, less);
    var out := s[..Min(k, |s|)];
    forall j | 0 <= j < |out| ensures s[j] in out && out[j] in s {
      assert out[j] == s[j];
    }
    forall x, y | x in Elements(s) && x !in out && y in out ensures less(y, x) {
      var i :| 0 <= i < |s| && s[i] == x;
      var j :| 0 <= j < |out| && out[j] == y;
    }
  }

  /** An order-preserving renaming of the members carries the best k along. */
  lemma TopImage<S(!new), T(!new)>(all: set<S>, k: nat, out: seq<S>, less: (S, S) -> bool,
                                   f: S -> T, image: set<T>, out': seq<T>, less': (T, T) -> bool)
    requires StrictTotal(less) && StrictTotal(less') && IsTop(all, k, out, less)
    requires forall x, y :: x in all && y in all && less(x, y) ==> less'(f(x), f(y))
    requires forall z :: z in image <==> exists x :: x in all && f(x) == z
    requires |out'| == |out| && forall i :: 0 <= i < |out| ==> out'[i] == f(out[i])
    ensures |image| == |all|
    ensures IsTop(image, k, out', less')
  {
    forall x, y | x in all && y in all && f(x) == f(y) ensures x == y {
      assert x == y || less(x, y) || less(y, x);
    }
    ImageCardinality(all, image, f);
    forall i | 0 <= i < |out| ensures out[i] in all && f(out[i]) in out' {
      assert out'[i] in out';
    }
    forall z, y | z in image && z !in out' && y in out' ensures less'(y, z) {
      var x :| x in all && f(x) == z;
      var j :| 0 <= j < |out'| && out'[j] == y;
      assert x !in out by {
        assert forall i :: 0 <= i < |out| ==> f(out[i]) != z;
      }
      assert less(out[j], x);
    }
  }

  lemma {:induction false} ImageCardinality<S(!new), T(!new)>(all: set<S>, image: set<T>, f: S -> T)
    requires forall x, y :: x in all && y in all && f(x) == f(y) ==> x == y
    requires forall z :: z in image <==> exists x :: x in all && f(x) == z
    ensures |image| == |all|
  {
    if all == {} {
      assert image == {};
    } else {
      var x :| x in all;
      assert f(x) in image;
      forall z ensures z in image - {f(x)} <==> exists y :: y in all - {x} && f(y) == z {
        if z in image - {f(x)} {
          var y :| y in all && f(y) == z;
          assert y in all - {x};
        }
      }
      ImageCardinality(all - {x}, image - {f(x)}, f);
    }
  }

  /** Sorting everything and cutting at k is a listing of the best k. */
  lemma {:induction false} SortedPrefixIsTop<T(!new)>(all: seq<T>, k: nat, less: (T, T) -> bool)
    requires StrictTotal(less) && Distinct(all)
    ensures IsTop(Elements(all), k, Sorting.Sort(all, less)[..Min(k, |all|)], less)
  {
    var s := Sorting.Sort(all, less);
    TotalIsWeak(less);
    Sorting.SortOrdered(all, less);
    PermutationDistinct(all, s);
    OrderedDistinct(s, less);
    forall x ensures x in s <==> x in all {
      Sorting.SortMembers(all, less, x);
    }
    assert Elements(s) == Elements(all);
    PrefixIsTop(s, k, less);
  }

  lemma OrderedDistinct<T(!new)>(s: seq<T>, less: (T, T) -> bool)
    requires StrictTotal(less) && Sorting.Ordered(s, less) && Distinct(s)
    ensures Increasing(s, less)
  {
    forall i, j | 0 <= i < j < |s| ensures less(s[i], s[j]) {
      assert !less(s[j], s[i]) && s[i] != s[j];
    }
  }

  lemma TotalIsWeak<T(!new)>(less: (T, T) -> bool)
    requires StrictTotal(less)
    ensures Sorting.StrictWeakOrder(less)
  {
    forall x, y, z | !less(y, x) && !less(z, y) ensures !less(z, x) {
      assert x == y || less(x, y);
      assert y == z || less(y, z);
    }
  }

  lemma PermutationDistinct<T(!new)>(a: seq<T>, b: seq<T>)
    requires Distinct(a) && multiset(a) == multiset(b)
    ensures Distinct(b)
  {
    assert |b| == |multiset(b)| == |a|;
    ElementsCardinality(a);
    ElementsCardinality(b);
    forall x ensures x in Elements(a) <==> x in Elements(b) {
      assert x in multiset(a) <==> x in multiset(b);
    }
    assert Elements(a) == Elements(b);
  }

  // ---------- rows, kernel hits and candidates ----------

  /** A candidate row: its distance, and where it was read. */
  datatype Scored = Scored(distance: real, batch: nat, row: nat)

  predicate Closer(a: Scored, b: Scored)
  {
    || a.distance < b.distance
    || (a.distance == b.distance && (a.batch < b.batch || (a.batch == b.batch && a.row < b.row)))
  }

  /** A hit of the kernel on one batch. */
  datatype Hit = Hit(row: nat, distance: real)

  ghost predicate HitBefore(a: Hit, b: Hit)
  {
    a.distance < b.distance || (a.distance == b.distance && a.row < b.row)
  }

  /** `lvqTopk` returns the min(rows, k) smallest rows, ordered by distance and then by row. */
  ghost predicate KernelContract(distances: seq<real>, k: nat, hits: seq<Hit>)
  {
    && |hits| == Min(k, |distances|)
    && (forall i :: 0 <= i < |hits| ==> hits[i].row < |distances| && hits[i].distance == distances[hits[i].row])
    && (forall i, j :: 0 <= i < j < |hits| ==> HitBefore(hits[i], hits[j]))
    && (forall r, i :: 0 <= r < |distances| && 0 <= i < |hits| && Hit(r, distances[r]) !in hits ==>
          HitBefore(hits[i], Hit(r, distances[r])))
  }

  datatype Candidate = Candidate(batch: nat, row: nat, distance: real, order: nat)

  predicate CandidateBefore(a: Candidate, b: Candidate)
  {
    a.distance < b.distance || (a.distance == b.distance && a.order < b.order)
  }

  function Tag(hits: seq<Hit>, batch: nat, order: nat): (r: seq<Candidate>)
    ensures |r| == |hits|
  {
    seq(|hits|, i requires 0 <= i < |hits| => Candidate(batch, hits[i].row, hits[i].distance, order + i))
  }

  /** The candidates pushed for the first batches, in order. */
  function Collected(kernel: seq<seq<Hit>>): (r: seq<Candidate>)
  {
    if kernel == [] then []
    else
      var n := |kernel| - 1;
      var before := Collected(kernel[..n]);
      before + Tag(kernel[n], n, |before|)
  }

  function ScoredOf(c: Candidate): Scored { Scored(c.distance, c.batch, c.row) }

  function Merged(kernel: seq<seq<Hit>>, k: nat): (r: seq<Scored>)
  {
    var sorted := Sorting.Sort(Collected(kernel), CandidateBefore);
    seq(Min(k, |sorted|), i requires 0 <= i < Min(k, |sorted|) => ScoredOf(sorted[i]))
  }

  /** The merge loop of `search`. */
  method MergeHits(kernel: seq<seq<Hit>>, k: nat) returns (out: seq<Scored>)
    ensures out == Merged(kernel, k)
  {
    var candidates: seq<Candidate> := [];
    var order := 0;
    for b := 0 to |kernel|
      invariant order == |candidates|
      invariant candidates == Collected(kernel[..b])
    {
      var hits := kernel[b];
      ghost var before := candidates;
      for h := 0 to |hits|
        invariant order == |candidates|
        invariant candidates == before + Tag(hits, b, |before|)[..h]
      {
        candidates := candidates + [Candidate(b, hits[h].row, hits[h].distance, order)];
        order := order + 1;
      }
      assert kernel[..b + 1][..b] == kernel[..b];
    }
    assert kernel[..|kernel|] == kernel;
    var sorted := Sorting.Sort(candidates, CandidateBefore);
    out := [];
    for i := 0 to Min(k, |sorted|)
      invariant |out| == i && forall j :: 0 <= j < i ==> out[j] == ScoredOf(sorted[j])
    {
      out := out + [ScoredOf(sorted[i])];
    }
  }

  // ---------- agreement with a plain scan ----------

  /** Every row of every batch. */
  ghost function AllRows(batches: seq<seq<real>>): set<Scored>
  {
    set b: nat, r: nat | b < |batches| && r < |batches[b]| :: Scored(batches[b][r], b, r)
  }

  ghost predicate KernelOk(batches: seq<seq<real>>, k: nat, kernel: seq<seq<Hit>>)
  {
    |kernel| == |batches| && forall b :: 0 <= b < |batches| ==> KernelContract(batches[b], k, kernel[b])
  }

  lemma CloserTotal()
    ensures StrictTotal(Closer)
  {
  }

  /** Push order is batch order, and within a batch the kernel's order. */
  ghost predicate PushOrder(c: seq<Candidate>)
  {
    && (forall i :: 0 <= i < |c| ==> c[i].order == i)
    && (forall i, j :: 0 <= i < j < |c| && c[i].distance == c[j].distance ==> Closer(ScoredOf(c[i]), ScoredOf(c[j])))
    && (forall i, j :: 0 <= i < j < |c| ==> ScoredOf(c[i]) != ScoredOf(c[j]))
  }

  lemma {:induction false} CollectedOrder(batches: seq<seq<real>>, k: nat, kernel: seq<seq<Hit>>)
    requires KernelOk(batches, k, kernel)
    ensures PushOrder(Collected(kernel))
    ensures forall i :: 0 <= i < |Collected(kernel)| ==> Collected(kernel)[i].batch < |kernel|
  {
    if kernel != [] {
      var n := |kernel| - 1;
      CollectedOrder(batches[..n], k, kernel[..n]);
      var before := Collected(kernel[..n]);
      var tagged := Tag(kernel[n], n, |before|);
      assert KernelContract(batches[n], k, kernel[n]);
      forall i, j | 0 <= i < j < |tagged|
        ensures tagged[i].distance == tagged[j].distance ==> Closer(ScoredOf(tagged[i]), ScoredOf(tagged[j]))
        ensures ScoredOf(tagged[i]) != ScoredOf(tagged[j])
      {
        assert HitBefore(kernel[n][i], kernel[n][j]);
      }
      AppendOrder(before, tagged, n);
    }
  }

  lemma AppendOrder(before: seq<Candidate>, tagged: seq<Candidate>, n: nat)
    requires PushOrder(before)
    requires forall i :: 0 <= i < |before| ==> before[i].batch < n
    requires forall i :: 0 <= i < |tagged| ==> tagged[i].batch == n && tagged[i].order == |before| + i
    requires forall i, j :: 0 <= i < j < |tagged| ==>
               (tagged[i].distance == tagged[j].distance ==> Closer(ScoredOf(tagged[i]), ScoredOf(tagged[j])))
               && ScoredOf(tagged[i]) != ScoredOf(tagged[j])
    ensures PushOrder(before + tagged)
  {
    var c := before + tagged;
    forall i, j | 0 <= i < j < |c|
      ensures c[i].distance == c[j].distance ==> Closer(ScoredOf(c[i]), ScoredOf(c[j]))
      ensures ScoredOf(c[i]) != ScoredOf(c[j])
    {
      if j >= |before| && i >= |before| {
        assert c[i] == tagged[i - |before|] && c[j] == tagged[j - |before|];
      } else if j >= |before| {
        assert c[i].batch < n && c[j].batch == n;
      }
    }
  }

  ghost function KeptRows(kernel: seq<seq<Hit>>): set<Scored>
  {
    set c | c in Collected(kernel) :: ScoredOf(c)
  }

  lemma {:induction false} CollectedMembers(kernel: seq<seq<Hit>>, x: Scored)
    ensures x in KeptRows(kernel) <==> x.batch < |kernel| && Hit(x.row, x.distance) in kernel[x.batch]
  {
    if kernel == [] {
      assert Collected(kernel) == [];
    } else {
      var n := |kernel| - 1;
      CollectedMembers(kernel[..n], x);
      var before := Collected(kernel[..n]);
      var tagged := Tag(kernel[n], n, |before|);
      assert x in KeptRows(kernel) <==> x in KeptRows(kernel[..n]) || exists c :: c in tagged && ScoredOf(c) == x by {
        assert forall c :: c in Collected(kernel) <==> c in before || c in tagged;
      }
      if x.batch == n && Hit(x.row, x.distance) in kernel[n] {
        var i :| 0 <= i < |kernel[n]| && kernel[n][i] == Hit(x.row, x.distance);
        assert ScoredOf(tagged[i]) == x && tagged[i] in tagged;
      }
      if c :| c in tagged && ScoredOf(c) == x {
        var i :| 0 <= i < |tagged| && tagged[i] == c;
        assert kernel[n][i] == Hit(x.row, x.distance);
      }
    }
  }

  /** The merged result lists the best k of the candidates. */
  lemma MergedIsTopOfKept(batches: seq<seq<real>>, k: nat, kernel: seq<seq<Hit>>)
    requires KernelOk(batches, k, kernel)
    ensures IsTop(KeptRows(kernel), k, Merged(kernel, k), Closer)
  {
    var cands := Collected(kernel);
    CollectedOrder(batches, k, kernel);
    var sorted := Sorting.Sort(cands, CandidateBefore);
    Sorting.SortOrdered(cands, CandidateBefore);
    hide Collected, KeptRows;
    PermutationDistinct(cands, sorted);
    SortedByCloseness(cands, sorted);
    KeptPrefixIsTop(kernel, sorted, k);
  }

  /** Sorting by (distance, order) sorts by (distance, batch, row). */
  lemma SortedByCloseness(cands: seq<Candidate>, sorted: seq<Candidate>)
    requires PushOrder(cands) && multiset(sorted) == multiset(cands)
    requires Sorting.Ordered(sorted, CandidateBefore) && Distinct(sorted)
    ensures forall i, j :: 0 <= i < j < |sorted| ==> Closer(ScoredOf(sorted[i]), ScoredOf(sorted[j]))
  {
    forall i, j | 0 <= i < j < |sorted| ensures Closer(ScoredOf(sorted[i]), ScoredOf(sorted[j])) {
      var a, b := sorted[i], sorted[j];
      assert !CandidateBefore(b, a) && a != b;
      assert a in multiset(sorted) && b in multiset(sorted);
      var p :| 0 <= p < |cands| && cands[p] == a;
      var q :| 0 <= q < |cands| && cands[q] == b;
      assert a.order == p && b.order == q;
    }
  }

  lemma KeptPrefixIsTop(kernel: seq<seq<Hit>>, sorted: seq<Candidate>, k: nat)
    requires sorted == Sorting.Sort(Collected(kernel), CandidateBefore)
    requires forall i, j :: 0 <= i < j < |sorted| ==> Closer(ScoredOf(sorted[i]), ScoredOf(sorted[j]))
    ensures IsTop(KeptRows(kernel), k, Merged(kernel, k), Closer)
  {
    hide Collected, Closer, CandidateBefore, Merged, KeptRows;
    var scored := seq(|sorted|, i requires 0 <= i < |sorted| => ScoredOf(sorted[i]));
    CloserTotal();
    assert Increasing(scored, Closer);
    ScoredElements(kernel, sorted, scored);
    PrefixIsTop(scored, k, Closer);
    MergedPrefix(kernel, sorted, scored, k);
  }

  lemma ScoredElements(kernel: seq<seq<Hit>>, sorted: seq<Candidate>, scored: seq<Scored>)
    requires sorted == Sorting.Sort(Collected(kernel), CandidateBefore)
    requires |scored| == |sorted| && forall i :: 0 <= i < |sorted| ==> scored[i] == ScoredOf(sorted[i])
    ensures Elements(scored) == KeptRows(kernel)
  {
    hide Collected, CandidateBefore;
    forall c ensures c in sorted <==> c in Collected(kernel) {
      Sorting.SortMembers(Collected(kernel), CandidateBefore, c);
    }
    forall x ensures x in scored <==> x in KeptRows(kernel) {
      if x in scored {
        var i :| 0 <= i < |scored| && scored[i] == x;
        assert sorted[i] in sorted;
      }
      if x in KeptRows(kernel) {
        var c :| c in Collected(kernel) && ScoredOf(c) == x;
        var i :| 0 <= i < |sorted| && sorted[i] == c;
        assert scored[i] in scored;
      }
    }
  }

  lemma MergedPrefix(kernel: seq<seq<Hit>>, sorted: seq<Candidate>, scored: seq<Scored>, k: nat)
    requires sorted == Sorting.Sort(Collected(kernel), CandidateBefore)
    requires |scored| == |sorted| && forall i :: 0 <= i < |sorted| ==> scored[i] == ScoredOf(sorted[i])
    ensures Merged(kernel, k) == scored[..Min(k, |scored|)]
  {
    hide Collected, CandidateBefore;
  }

  /** The k hits of a batch that beat a row the kernel left out. */
  ghost function HitRows(hits: seq<Hit>, batch: nat): set<Scored>
  {
    set h | h in hits :: Scored(h.distance, batch, h.row)
  }

  lemma HitRowsCount(distances: seq<real>, k: nat, hits: seq<Hit>, batch: nat)
    requires KernelContract(distances, k, hits)
    ensures |HitRows(hits, batch)| == |hits|
  {
    var s := seq(|hits|, i requires 0 <= i < |hits| => Scored(hits[i].distance, batch, hits[i].row));
    forall i, j | 0 <= i < j < |s| ensures s[i] != s[j] {
      assert HitBefore(hits[i], hits[j]);
    }
    forall x | x in HitRows(hits, batch) ensures x in Elements(s) {
      var h :| h in hits && x == Scored(h.distance, batch, h.row);
      var i :| 0 <= i < |hits| && hits[i] == h;
      assert s[i] == x;
    }
    forall x | x in Elements(s) ensures x in HitRows(hits, batch) {
      var i :| 0 <= i < |s| && s[i] == x;
      assert hits[i] in hits;
    }
    assert Elements(s) == HitRows(hits, batch);
    ElementsCardinality(s);
  }

  lemma LeftOutIsBeaten(batches: seq<seq<real>>, k: nat, kernel: seq<seq<Hit>>, x: Scored)
    requires KernelOk(batches, k, kernel) && x in AllRows(batches) && x !in KeptRows(kernel)
    ensures x.batch < |kernel|
    ensures HitRows(kernel[x.batch], x.batch) <= KeptRows(kernel)
    ensures |HitRows(kernel[x.batch], x.batch)| == k
    ensures forall d :: d in HitRows(kernel[x.batch], x.batch) ==> Closer(d, x)
  {
    hide KeptRows;
    var b, hits := x.batch, kernel[x.batch];
    CollectedMembers(kernel, x);
    assert KernelContract(batches[b], k, hits);
    HitRowsCount(batches[b], k, hits, b);
    forall d | d in HitRows(hits, b) ensures d in KeptRows(kernel) && Closer(d, x) {
      CollectedMembers(kernel, d);
      var i :| 0 <= i < |hits| && hits[i] == Hit(d.row, d.distance);
      assert HitBefore(hits[i], Hit(x.row, x.distance));
    }
    FullKernel(batches[b], k, hits, x.row);
  }

  /** A kernel that leaves a row out has returned k hits. */
  lemma FullKernel(distances: seq<real>, k: nat, hits: seq<Hit>, r: nat)
    requires KernelContract(distances, k, hits) && r < |distances| && Hit(r, distances[r]) !in hits
    ensures |hits| == k
  {
    var s := seq(|hits|, i requires 0 <= i < |hits| => hits[i].row as int);
    forall i, j | 0 <= i < j < |s| ensures s[i] != s[j] {
      assert HitBefore(hits[i], hits[j]);
    }
    ElementsCardinality(s);
    assert r !in Elements(s);
    assert Elements(s) <= Interval(0, |distances|) - {r as int};
    SubsetCardinality(Elements(s), Interval(0, |distances|) - {r as int});
    IntervalCardinality(0, |distances|);
  }

  lemma KeptWithinAll(batches: seq<seq<real>>, k: nat, kernel: seq<seq<Hit>>)
    requires KernelOk(batches, k, kernel)
    ensures KeptRows(kernel) <= AllRows(batches)
  {
    hide KeptRows;
    forall x | x in KeptRows(kernel) ensures x in AllRows(batches) {
      CollectedMembers(kernel, x);
      var hits := kernel[x.batch];
      assert KernelContract(batches[x.batch], k, hits);
      var i :| 0 <= i < |hits| && hits[i] == Hit(x.row, x.distance);
    }
  }

  /**
   However the rows are split into batches, merging the kernel's hits gives exactly the first k of
   all rows ordered by (distance, batch, row).
   */
  lemma MergedIsTopOfAll(batches: seq<seq<real>>, k: nat, kernel: seq<seq<Hit>>)
    requires KernelOk(batches, k, kernel)
    ensures IsTop(AllRows(batches), k, Merged(kernel, k), Closer)
  {
    hide KeptRows, Merged, IsTop, AllRows, HitRows, Closer;
    CloserTotal();
    MergedIsTopOfKept(batches, k, kernel);
    KeptWithinAll(batches, k, kernel);
    var beaten := (x: Scored) => if x.batch < |kernel| then HitRows(kernel[x.batch], x.batch) else {};
    forall x | x in AllRows(batches) && x !in KeptRows(kernel)
      ensures beaten(x) <= KeptRows(kernel) && |beaten(x)| == k && forall d :: d in beaten(x) ==> Closer(d, x)
    {
      LeftOutIsBeaten(batches, k, kernel, x);
    }
    TopOfKept(AllRows(batches), KeptRows(kernel), k, Merged(kernel, k), Closer, beaten);
  }

  ghost function BatchLength(batch: seq<real>): int { |batch| }

  lemma {:induction false} AllRowsCount(batches: seq<seq<real>>)
    ensures |AllRows(batches)| == Sum(batches, BatchLength)
  {
    if batches == [] {
      assert AllRows(batches) == {};
    } else {
      var n := |batches| - 1;
      AllRowsCount(batches[..n]);
      var last := LastRows(batches[n], n);
      forall x ensures x in AllRows(batches) <==> x in AllRows(batches[..n]) || x in last {
      }
      assert AllRows(batches) == AllRows(batches[..n]) + last;
      assert AllRows(batches[..n]) !! last;
      LastRowsCount(batches[n], n);
      assert batches == batches[..n] + [batches[n]];
      SumAppend(batches[..n], [batches[n]], BatchLength);
      SumSingle(batches[n], BatchLength);
    }
  }

  ghost function LastRows(batch: seq<real>, b: nat): set<Scored>
  {
    set r: nat | r < |batch| :: Scored(batch[r], b, r)
  }

  lemma LastRowsCount(batch: seq<real>, b: nat)
    ensures |LastRows(batch, b)| == |batch|
  {
    var s := seq(|batch|, r requires 0 <= r < |batch| => Scored(batch[r], b, r));
    assert Elements(s) == LastRows(batch, b) by {
      forall x | x in LastRows(batch, b) ensures x in Elements(s) {
        assert s[x.row] == x;
      }
    }
    ElementsCardinality(s);
  }
}
